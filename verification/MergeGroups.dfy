/**
  What the merge pass puts together: the packed texts fall into groups, each long text by
  itself and each unbroken run of tiny ones as a whole, and every group becomes one chunk.
 */
module MergeGroups {
  import opened Text
  import opened Chunking

  /** The groups that are complete, and the run of tiny texts that may go on. */
  datatype Grouping = Grouping(closed: seq<seq<string>>, open: seq<string>)

  function AllGroups(g: Grouping): seq<seq<string>> {
    if g.open == [] then g.closed else g.closed + [g.open]
  }

  function Grouped(texts: seq<string>, min: int): Grouping {
    if texts == [] then Grouping([], [])
    else
      var g, t := Grouped(texts[..|texts| - 1], min), texts[|texts| - 1];
      if |t| < min then g.(open := g.open + [t]) else Grouping(AllGroups(g) + [[t]], [])
  }

  // ----- which groups these are -----

  predicate AllTiny(group: seq<string>, min: int) {
    forall i :: 0 <= i < |group| ==> |group[i]| < min
  }

  /** One long text, or a run of tiny ones. */
  predicate IsGroup(group: seq<string>, min: int) {
    group != [] && (AllTiny(group, min) || (|group| == 1 && |group[0]| >= min))
  }

  /** No run of tiny texts is next to another: every run is as long as it can be. */
  predicate NotBothTiny(a: seq<string>, b: seq<string>, min: int) {
    !(AllTiny(a, min) && AllTiny(b, min))
  }

  ghost predicate AreGroups(groups: seq<seq<string>>, min: int) {
    && (forall i :: 0 <= i < |groups| ==> IsGroup(groups[i], min))
    && (forall i :: 0 <= i < |groups| - 1 ==> NotBothTiny(groups[i], groups[i + 1], min))
  }

  function Ungrouped(groups: seq<seq<string>>): seq<string> {
    if groups == [] then [] else Ungrouped(groups[..|groups| - 1]) + groups[|groups| - 1]
  }

  lemma UngroupedLast(groups: seq<seq<string>>, group: seq<string>)
    ensures Ungrouped(groups + [group]) == Ungrouped(groups) + group
  {
    assert (groups + [group])[..|groups|] == groups;
  }

  lemma MoreGroups(groups: seq<seq<string>>, group: seq<string>, min: int)
    requires AreGroups(groups, min) && IsGroup(group, min)
    requires groups != [] ==> NotBothTiny(groups[|groups| - 1], group, min)
    ensures AreGroups(groups + [group], min)
  {
    var all := groups + [group];
    forall i | 0 <= i < |all| - 1
      ensures NotBothTiny(all[i], all[i + 1], min)
    {
      assert i < |groups| - 1 ==> NotBothTiny(groups[i], groups[i + 1], min);
    }
  }

  /** The open run is tiny, and does not follow another run. */
  ghost predicate GroupingOk(g: Grouping, texts: seq<string>, min: int) {
    && AreGroups(g.closed, min) && AllTiny(g.open, min)
    && (g.closed != [] ==> !AllTiny(g.closed[|g.closed| - 1], min))
    && Ungrouped(g.closed) + g.open == texts
  }

  lemma AllOk(g: Grouping, texts: seq<string>, min: int)
    requires GroupingOk(g, texts, min)
    ensures AreGroups(AllGroups(g), min) && Ungrouped(AllGroups(g)) == texts
  {
    if g.open != [] {
      MoreGroups(g.closed, g.open, min);
      UngroupedLast(g.closed, g.open);
    } else {
      assert Ungrouped(g.closed) + [] == Ungrouped(g.closed);
    }
  }

  lemma LongCloses(g: Grouping, texts: seq<string>, t: string, min: int)
    requires GroupingOk(g, texts, min) && |t| >= min
    ensures GroupingOk(Grouping(AllGroups(g) + [[t]], []), texts + [t], min)
  {
    AllOk(g, texts, min);
    assert !AllTiny([t], min) by {
      assert |[t][0]| >= min;
    }
    MoreGroups(AllGroups(g), [t], min);
    UngroupedLast(AllGroups(g), [t]);
    assert texts + [t] + [] == texts + [t];
  }

  ghost predicate GroupedOk(texts: seq<string>, min: int) {
    GroupingOk(Grouped(texts, min), texts, min)
  }

  lemma LastGrouped(front: seq<string>, t: string, min: int)
    requires GroupedOk(front, min)
    ensures GroupedOk(front + [t], min)
  {
    assert (front + [t])[..|front|] == front;
    var g := Grouped(front, min);
    if |t| < min {
      assert Ungrouped(g.closed) + (g.open + [t]) == Ungrouped(g.closed) + g.open + [t];
    } else {
      LongCloses(g, front, t, min);
    }
  }

  lemma {:induction false} GroupsAre(texts: seq<string>, min: int)
    ensures GroupedOk(texts, min)
  {
    if texts != [] {
      var front, t := texts[..|texts| - 1], texts[|texts| - 1];
      GroupsAre(front, min);
      LastGrouped(front, t, min);
      assert front + [t] == texts;
    }
  }

  // ----- what becomes of a group -----

  /** The texts from the first that is not empty on. */
  function FromFirst(group: seq<string>): seq<string> {
    if group != [] && group[0] == "" then FromFirst(group[1..]) else group
  }

  /** A run of tiny texts in one, with blank lines between. */
  function Joined(group: seq<string>): string {
    Join(FromFirst(group), BREAK)
  }

  /** A long text stays as it is, a run of tiny ones is joined and stripped; a run of empty texts leaves no chunk. */
  function ChunkOf(group: seq<string>, min: int): seq<string> {
    if |group| == 1 && |group[0]| >= min then group
    else if Joined(group) == "" then []
    else [Strip(Joined(group))]
  }

  function ChunksOf(groups: seq<seq<string>>, min: int): seq<string> {
    if groups == [] then [] else ChunksOf(groups[..|groups| - 1], min) + ChunkOf(groups[|groups| - 1], min)
  }

  lemma ChunksLast(groups: seq<seq<string>>, group: seq<string>, min: int)
    ensures ChunksOf(groups + [group], min) == ChunksOf(groups, min) + ChunkOf(group, min)
  {
    assert (groups + [group])[..|groups|] == groups;
  }

  lemma {:induction false} FromFirstLonger(group: seq<string>, t: string)
    ensures FromFirst(group + [t]) == if FromFirst(group) == [] then FromFirst([t]) else FromFirst(group) + [t]
  {
    if group == [] {
      assert group + [t] == [t];
    } else if group[0] == "" {
      assert (group + [t])[1..] == group[1..] + [t];
      FromFirstLonger(group[1..], t);
    }
  }

  lemma {:induction false} JoinedEmpty(group: seq<string>)
    ensures Joined(group) == "" <==> FromFirst(group) == []
  {
    if group != [] && group[0] == "" {
      JoinedEmpty(group[1..]);
    } else if group != [] {
      JoinNotEmpty(group);
    }
  }

  lemma {:induction false} JoinNotEmpty(parts: seq<string>)
    requires parts != [] && parts[0] != ""
    ensures Join(parts, BREAK) != ""
  {
    if |parts| > 1 {
      JoinNotEmpty(parts[..|parts| - 1]);
    }
  }

  lemma JoinedLonger(group: seq<string>, t: string)
    ensures Joined(group + [t]) == if Joined(group) == "" then t else Joined(group) + BREAK + t
  {
    FromFirstLonger(group, t);
    JoinedEmpty(group);
    assert [t][1..] == [] && FromFirst([]) == [];
    if FromFirst(group) != [] {
      var parts := FromFirst(group);
      assert (parts + [t])[..|parts|] == parts;
    }
  }

  // ----- the merge pass does this -----

  ghost predicate MergesGroups(texts: seq<string>, min: int) {
    var g := Grouped(texts, min);
    Merge(texts, min) == Merging(ChunksOf(g.closed, min), Joined(g.open))
  }

  lemma SettleGroups(st: Merging, g: Grouping, min: int)
    requires st == Merging(ChunksOf(g.closed, min), Joined(g.open)) && AllTiny(g.open, min)
    ensures Settle(st) == ChunksOf(AllGroups(g), min)
  {
    if g.open != [] {
      ChunksLast(g.closed, g.open, min);
      assert |g.open| == 1 ==> |g.open[0]| < min;
    }
  }

  lemma LastMerged(front: seq<string>, t: string, min: int)
    requires MergesGroups(front, min) && GroupedOk(front, min)
    ensures MergesGroups(front + [t], min)
  {
    assert (front + [t])[..|front|] == front;
    var g := Grouped(front, min);
    if |t| < min {
      JoinedLonger(g.open, t);
    } else {
      SettleGroups(Merge(front, min), g, min);
      ChunksLast(AllGroups(g), [t], min);
    }
  }

  lemma {:induction false} MergeGroupsAll(texts: seq<string>, min: int)
    ensures MergesGroups(texts, min)
  {
    if texts != [] {
      var front, t := texts[..|texts| - 1], texts[|texts| - 1];
      MergeGroupsAll(front, min);
      GroupsAre(front, min);
      LastMerged(front, t, min);
      assert front + [t] == texts;
    }
  }

  /** The chunks after the merge pass, group by group: runs of tiny texts are merged as a whole, and nothing else is. */
  lemma MergeIsGrouping(texts: seq<string>, min: int) returns (groups: seq<seq<string>>)
    ensures AreGroups(groups, min) && Ungrouped(groups) == texts
    ensures Settle(Merge(texts, min)) == ChunksOf(groups, min)
  {
    var g := Grouped(texts, min);
    groups := AllGroups(g);
    GroupsAre(texts, min);
    AllOk(g, texts, min);
    MergeGroupsAll(texts, min);
    SettleGroups(Merge(texts, min), g, min);
  }
}
