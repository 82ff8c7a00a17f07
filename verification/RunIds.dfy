/** The ids of runs: the iteration in decimal behind a fixed prefix. */
module RunIds {
  function Decimal(n: nat): (s: string)
    ensures |s| > 0 && forall i :: 0 <= i < |s| ==> '0' <= s[i] <= '9'
  {
    var digit := ['0' + (n % 10) as char];
    if n < 10 then digit else Decimal(n / 10) + digit
  }

  function Shown(i: int): string {
    if i < 0 then "-" + Decimal(-i) else Decimal(i)
  }

  function RunId(iteration: int): string {
    "run_" + Shown(iteration)
  }

  lemma {:induction false} DecimalInjective(a: nat, b: nat)
    requires Decimal(a) == Decimal(b)
    ensures a == b
  {
    var x, y := Decimal(a), Decimal(b);
    assert x[|x| - 1] == '0' + (a % 10) as char && y[|y| - 1] == '0' + (b % 10) as char;
    assert a % 10 == b % 10;
    if a >= 10 && b >= 10 {
      assert x[..|x| - 1] == Decimal(a / 10) && y[..|y| - 1] == Decimal(b / 10);
      DecimalInjective(a / 10, b / 10);
    } else {
      assert a >= 10 ==> |x| >= 2;
      assert b >= 10 ==> |y| >= 2;
    }
  }

  function Number(s: string): int {
    if s == "" then 0 else 10 * Number(s[..|s| - 1]) + (s[|s| - 1] as int - '0' as int)
  }

  /** The digits read as the number they were made of. */
  lemma {:induction false} DecimalReads(n: nat)
    ensures Number(Decimal(n)) == n
  {
    var s := Decimal(n);
    if n < 10 {
      assert s[..0] == "";
    } else {
      DecimalReads(n / 10);
      assert s[..|s| - 1] == Decimal(n / 10);
    }
  }

  /** A number is shown in decimal, a negative one behind a sign. */
  lemma ShownReads(i: int)
    ensures Shown(i) != ""
    ensures if i < 0 then Shown(i)[0] == '-' && Number(Shown(i)[1..]) == -i else Number(Shown(i)) == i
  {
    if i < 0 {
      assert Shown(i)[1..] == Decimal(-i);
      DecimalReads(-i);
    } else {
      DecimalReads(i);
    }
  }

  /** A run id is the fixed prefix and the iteration as it is shown. */
  lemma RunIdReads(iteration: int)
    ensures RunId(iteration)[..4] == "run_" && RunId(iteration)[4..] == Shown(iteration)
  {
  }

  lemma RunIdInjective(a: int, b: int)
    requires RunId(a) == RunId(b)
    ensures a == b
  {
    assert RunId(a)[4..] == Shown(a) && RunId(b)[4..] == Shown(b);
    assert (Shown(a)[0] == '-' <==> a < 0) && (Shown(b)[0] == '-' <==> b < 0);
    if a < 0 && b < 0 {
      assert Shown(a)[1..] == Decimal(-a) && Shown(b)[1..] == Decimal(-b);
      DecimalInjective(-a, -b);
    } else {
      DecimalInjective(a, b);
    }
  }

  lemma DifferentIds(a: int, b: int)
    requires a != b
    ensures RunId(a) != RunId(b)
  {
    if RunId(a) == RunId(b) {
      RunIdInjective(a, b);
    }
  }
}
