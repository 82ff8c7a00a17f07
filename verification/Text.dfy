/**
  The string operations the cleaner uses, over texts whose white space is made of blanks,
  tabs, carriage returns and newlines.
 */
module Text {

  predicate IsSpace(c: char) {
    c == ' ' || c == '\t' || c == '\r' || c == '\n'
  }

  predicate IsBlank(c: char) {
    c == ' ' || c == '\t'
  }

  function TrimLeft(s: string): string {
    if s != "" && IsSpace(s[0]) then TrimLeft(s[1..]) else s
  }

  function TrimRight(s: string): string {
    if s != "" && IsSpace(s[|s| - 1]) then TrimRight(s[..|s| - 1]) else s
  }

  function Strip(s: string): string {
    TrimRight(TrimLeft(s))
  }

  /** Replacing every CR LF pair by one newline. */
  function ReplaceCrLf(s: string): string {
    if s == "" then ""
    else if s[0] == '\r' && |s| > 1 && s[1] == '\n' then "\n" + ReplaceCrLf(s[2..])
    else [s[0]] + ReplaceCrLf(s[1..])
  }

  /** Replacing every carriage return by a newline. */
  function ReplaceCr(s: string): string {
    if s == "" then "" else [if s[0] == '\r' then '\n' else s[0]] + ReplaceCr(s[1..])
  }

  function DropBlanks(s: string): (r: string)
    ensures |r| <= |s|
  {
    if s != "" && IsBlank(s[0]) then DropBlanks(s[1..]) else s
  }

  /** Replacing every maximal run of blanks and tabs by one blank. */
  function Squeeze(s: string): string
    decreases |s|
  {
    if s == "" then ""
    else if IsBlank(s[0]) then " " + Squeeze(DropBlanks(s[1..]))
    else [s[0]] + Squeeze(s[1..])
  }

  /** Splitting at every newline. */
  function SplitLines(s: string): (lines: seq<string>)
    ensures lines != []
  {
    if s == "" then [""]
    else
      var rest := SplitLines(s[1..]);
      if s[0] == '\n' then [""] + rest else [[s[0]] + rest[0]] + rest[1..]
  }

  /** Splitting at every non-overlapping pair of newlines, from the left. */
  function SplitParagraphs(s: string): (parts: seq<string>)
    ensures parts != []
  {
    if s == "" then [""]
    else if |s| > 1 && s[0] == '\n' && s[1] == '\n' then [""] + SplitParagraphs(s[2..])
    else
      var rest := SplitParagraphs(s[1..]);
      [[s[0]] + rest[0]] + rest[1..]
  }

  function Join(parts: seq<string>, sep: string): string {
    if parts == [] then ""
    else if |parts| == 1 then parts[0]
    else Join(parts[..|parts| - 1], sep) + sep + parts[|parts| - 1]
  }

  function DropNewlines(s: string): (r: string)
    ensures |r| <= |s|
  {
    if s != "" && s[0] == '\n' then DropNewlines(s[1..]) else s
  }

  /** Replacing every maximal run of three or more newlines by two. */
  function LimitBreaks(s: string): string
    decreases |s|
  {
    if s == "" then ""
    else if |s| > 2 && s[0] == '\n' && s[1] == '\n' && s[2] == '\n' then "\n\n" + LimitBreaks(DropNewlines(s))
    else if s[0] == '\n' && |s| > 1 && s[1] == '\n' then "\n\n" + LimitBreaks(s[2..])
    else [s[0]] + LimitBreaks(s[1..])
  }

  /** The characters of a text that are not white space, in order. */
  function NonSpace(s: string): string {
    if s == "" then ""
    else NonSpace(s[..|s| - 1]) + (if IsSpace(s[|s| - 1]) then "" else [s[|s| - 1]])
  }

  // ----- joining, trimming and visible characters -----

  lemma {:induction false} NonSpaceConcat(a: string, b: string)
    ensures NonSpace(a + b) == NonSpace(a) + NonSpace(b)
  {
    if b == "" {
      assert a + b == a;
    } else {
      var n := |b| - 1;
      assert (a + b)[..|a + b| - 1] == a + b[..n];
      NonSpaceConcat(a, b[..n]);
    }
  }

  lemma {:induction false} NonSpaceOfSpaces(s: string)
    requires forall i :: 0 <= i < |s| ==> IsSpace(s[i])
    ensures NonSpace(s) == ""
  {
    if s != "" {
      NonSpaceOfSpaces(s[..|s| - 1]);
    }
  }

  lemma {:induction false} TrimLeftParts(s: string) returns (k: nat)
    ensures k <= |s| && TrimLeft(s) == s[k..]
    ensures forall i :: 0 <= i < k ==> IsSpace(s[i])
    ensures k < |s| ==> !IsSpace(s[k])
  {
    if s != "" && IsSpace(s[0]) {
      var j := TrimLeftParts(s[1..]);
      k := j + 1;
      assert s[1..][j..] == s[k..];
      forall i | 0 <= i < k
        ensures IsSpace(s[i])
      {
        if i > 0 {
          assert s[i] == s[1..][i - 1];
        }
      }
    } else {
      k := 0;
    }
  }

  lemma {:induction false} TrimRightParts(s: string) returns (k: nat)
    ensures k <= |s| && TrimRight(s) == s[..k]
    ensures forall i :: k <= i < |s| ==> IsSpace(s[i])
    ensures k > 0 ==> !IsSpace(s[k - 1])
  {
    if s != "" && IsSpace(s[|s| - 1]) {
      k := TrimRightParts(s[..|s| - 1]);
      assert s[..|s| - 1][..k] == s[..k];
    } else {
      k := |s|;
    }
  }

  /** Stripping cuts a text into outer white space and a core that starts and ends visibly. */
  lemma StripParts(s: string) returns (i: nat, j: nat)
    ensures i <= j <= |s| && Strip(s) == s[i..j]
    ensures forall k :: 0 <= k < i || j <= k < |s| ==> IsSpace(s[k])
    ensures i < j ==> !IsSpace(s[i]) && !IsSpace(s[j - 1])
  {
    i := TrimLeftParts(s);
    var n := TrimRightParts(s[i..]);
    j := i + n;
    assert s[i..][..n] == s[i..j];
    forall k | j <= k < |s|
      ensures IsSpace(s[k])
    {
      assert s[k] == s[i..][k - i];
    }
    if i < j {
      assert s[j - 1] == s[i..][n - 1];
    }
  }

  predicate Trimmed(s: string) {
    s == "" || (!IsSpace(s[0]) && !IsSpace(s[|s| - 1]))
  }

  lemma StripTrimmed(s: string)
    requires Trimmed(s)
    ensures Strip(s) == s
  {
  }

  /** Stripping finds the trimmed core between any white space around it. */
  lemma {:induction false} StripAround(a: string, s: string, b: string)
    requires Trimmed(s)
    requires (forall k :: 0 <= k < |a| ==> IsSpace(a[k])) && (forall k :: 0 <= k < |b| ==> IsSpace(b[k]))
    ensures Strip(a + s + b) == s
    decreases |a| + |b|
  {
    if a != "" {
      assert (a + s + b)[1..] == a[1..] + s + b;
      StripAround(a[1..], s, b);
    } else if s == "" && b != "" {
      assert a + s + b == b && b[1..] == "" + s + b[1..];
      StripAround("", s, b[1..]);
    } else if b != "" {
      var t := a + s + b;
      assert TrimLeft(t) == t;
      assert t[..|t| - 1] == a + s + b[..|b| - 1];
      assert TrimLeft(t[..|t| - 1]) == t[..|t| - 1];
      StripAround(a, s, b[..|b| - 1]);
    } else {
      assert a + s + b == s;
    }
  }

  lemma NonSpaceStrip(s: string)
    ensures NonSpace(Strip(s)) == NonSpace(s)
    ensures Trimmed(Strip(s)) && |Strip(s)| <= |s|
  {
    var i, j := StripParts(s);
    assert s == s[..i] + s[i..j] + s[j..];
    NonSpaceConcat(s[..i] + s[i..j], s[j..]);
    NonSpaceConcat(s[..i], s[i..j]);
    NonSpaceOfSpaces(s[..i]);
    NonSpaceOfSpaces(s[j..]);
  }

  lemma {:induction false} JoinConcat(a: seq<string>, b: seq<string>, sep: string)
    requires a != [] && b != []
    ensures Join(a + b, sep) == Join(a, sep) + sep + Join(b, sep)
  {
    var n := |b| - 1;
    assert (a + b)[..|a + b| - 1] == a + b[..n];
    if n == 0 {
      assert a + b[..n] == a;
    } else {
      JoinConcat(a, b[..n], sep);
    }
  }

  lemma {:induction false} JoinSplitLines(s: string)
    ensures Join(SplitLines(s), "\n") == s
    ensures forall i :: 0 <= i < |SplitLines(s)| ==> '\n' !in SplitLines(s)[i]
  {
    if s != "" {
      var rest := SplitLines(s[1..]);
      JoinSplitLines(s[1..]);
      if s[0] == '\n' {
        JoinConcat([""], rest, "\n");
      } else {
        PrependFirst(s[0], rest, "\n");
      }
    }
  }

  lemma PrependFirst(c: char, parts: seq<string>, sep: string)
    requires parts != []
    ensures Join([[c] + parts[0]] + parts[1..], sep) == [c] + Join(parts, sep)
  {
    if |parts| > 1 {
      JoinConcat([[c] + parts[0]], parts[1..], sep);
      JoinConcat([parts[0]], parts[1..], sep);
      assert [parts[0]] + parts[1..] == parts;
    }
  }

  lemma {:induction false} JoinSplitParagraphs(s: string)
    ensures Join(SplitParagraphs(s), "\n\n") == s
  {
    if s != "" {
      if |s| > 1 && s[0] == '\n' && s[1] == '\n' {
        JoinSplitParagraphs(s[2..]);
        JoinConcat([""], SplitParagraphs(s[2..]), "\n\n");
      } else {
        JoinSplitParagraphs(s[1..]);
        PrependFirst(s[0], SplitParagraphs(s[1..]), "\n\n");
      }
    }
  }
}
