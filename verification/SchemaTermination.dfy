/**
  When the schema interpreter ends.  References through `anyOf` consume no part of the
  value, so the recursion ends on every value and schema exactly when no definition reaches
  itself by such references.
 */
module SchemaTermination {
  import opened Wrappers
  import opened SchemaValidation

  /** The definition a reference names. */
  function NameOf(ref: string): set<string> {
    if |ref| >= |PREFIX| && ref[..|PREFIX|] == PREFIX then {ref[|PREFIX|..]} else {}
  }

  /** The definitions looked up for a schema before any part of the value is taken apart. */
  function Heads(s: Schema): set<string> {
    if s.ref.Some? then NameOf(s.ref.value)
    else if s.anyOf.AnyOf? then HeadsOfAll(s.anyOf.branches)
    else {}
  }

  function HeadsOfAll(branches: seq<Schema>): set<string> {
    if branches == [] then {}
    else HeadsOfAll(branches[..|branches| - 1]) + Heads(branches[|branches| - 1])
  }

  /** The definitions that a definition passes the whole value on to. */
  function Next(defs: Defs, name: string): set<string> {
    if name in defs && defs[name].anyOf.AnyOf? then HeadsOfAll(defs[name].anyOf.branches) else {}
  }

  ghost predicate Link(defs: Defs, a: string, b: string) {
    b in Next(defs, a)
  }

  ghost predicate Chain(defs: Defs, names: seq<string>) {
    forall i :: 0 <= i < |names| - 1 ==> Link(defs, names[i], names[i + 1])
  }

  ghost predicate Cycle(defs: Defs, names: seq<string>) {
    |names| > 1 && Chain(defs, names) && names[0] == names[|names| - 1]
  }

  ghost predicate Acyclic(defs: Defs) {
    forall names :: !Cycle(defs, names)
  }

  ghost predicate EndsBy(v: Value, s: Schema, defs: Defs, depth: nat) {
    Errors(v, s, [], defs, depth).Some?
  }

  ghost predicate Ends(v: Value, s: Schema, defs: Defs) {
    exists depth: nat :: EndsBy(v, s, defs, depth)
  }

  // ----- acyclic definitions bound every chain -----

  ghost predicate Bounded(defs: Defs, n: nat) {
    forall names :: Chain(defs, names) ==> |names| <= n
  }

  lemma {:induction false} DistinctFit(names: seq<string>, keys: set<string>)
    requires forall i :: 0 <= i < |names| ==> names[i] in keys
    requires forall i, j :: 0 <= i < j < |names| ==> names[i] != names[j]
    ensures |names| <= |keys|
  {
    if names != [] {
      var n := |names| - 1;
      DistinctFit(names[..n], keys - {names[n]});
    }
  }

  lemma ChainPart(defs: Defs, names: seq<string>, i: nat, j: nat)
    requires Chain(defs, names) && i <= j <= |names|
    ensures Chain(defs, names[i..j])
  {
    var part := names[i..j];
    forall k | 0 <= k < |part| - 1
      ensures Link(defs, part[k], part[k + 1])
    {
      assert Link(defs, names[i + k], names[i + k + 1]);
    }
  }

  lemma AcyclicIsBounded(defs: Defs)
    requires Acyclic(defs)
    ensures Bounded(defs, |defs| + 1)
  {
    forall names | Chain(defs, names)
      ensures |names| <= |defs| + 1
    {
      if |names| > 0 {
        var front := names[..|names| - 1];
        forall i | 0 <= i < |front|
          ensures front[i] in defs.Keys
        {
          assert Link(defs, names[i], names[i + 1]);
        }
        forall i, j | 0 <= i < j < |front|
          ensures front[i] != front[j]
        {
          ChainPart(defs, names, i, j + 1);
          assert !Cycle(defs, names[i..j + 1]);
        }
        DistinctFit(front, defs.Keys);
      }
    }
  }

  // ----- bounded chains end the recursion -----

  /** Every chain that starts at a head of the schema has at most `k` definitions. */
  ghost predicate HeadsBounded(heads: set<string>, defs: Defs, k: nat) {
    forall names :: names != [] && names[0] in heads && Chain(defs, names) ==> |names| <= k
  }

  ghost predicate AlwaysEnds(v: Value, s: Schema, defs: Defs, depth: nat) {
    forall d: nat, path :: d >= depth ==> Errors(v, s, path, defs, d).Some?
  }

  lemma NextIsBounded(defs: Defs, name: string, k: nat)
    requires HeadsBounded({name}, defs, k)
    ensures k > 0 && HeadsBounded(Next(defs, name), defs, k - 1)
  {
    assert Chain(defs, [name]);
    forall names | names != [] && names[0] in Next(defs, name) && Chain(defs, names)
      ensures |names| <= k - 1
    {
      var longer := [name] + names;
      forall i | 0 <= i < |longer| - 1
        ensures Link(defs, longer[i], longer[i + 1])
      {
        if i > 0 {
          assert Link(defs, names[i - 1], names[i - 1 + 1]);
        }
      }
      assert Chain(defs, longer);
    }
  }

  function Max(a: nat, b: nat): nat {
    if a > b then a else b
  }

  /** The recursion ends, by the size of the value, the chains left and the schema. */
  lemma {:induction false} Terminates(v: Value, s: Schema, defs: Defs, n: nat, k: nat) returns (depth: nat)
    requires Bounded(defs, n) && HeadsBounded(Heads(s), defs, k)
    ensures AlwaysEnds(v, s, defs, depth)
    decreases v, 2, k, s, 1
  {
    var t := Resolved(s, defs);
    var inner := 0;
    if s == EMPTY {
    } else if t.anyOf.AnyOf? {
      inner := UnionTerminates(v, s, defs, n, k);
    } else if t.ty == Some(ObjectType) && v.Dict? {
      inner := EntriesTerminate(v, |v.entries|, t.properties, defs, n);
      assert v.entries[..|v.entries|] == v.entries;
    } else if t.ty == Some(ArrayType) && v.List? {
      inner := ItemsTerminate(v, |v.items|, ItemSchema(t), defs, n);
      assert v.items[..|v.items|] == v.items;
    }
    depth := inner + 1;
  }

  lemma {:induction false} UnionTerminates(v: Value, s: Schema, defs: Defs, n: nat, k: nat) returns (depth: nat)
    requires Bounded(defs, n) && HeadsBounded(Heads(s), defs, k) && Resolved(s, defs).anyOf.AnyOf?
    ensures forall d: nat, path :: d >= depth ==> BranchErrors(v, Resolved(s, defs).anyOf.branches, path, defs, d).Some?
    decreases v, 2, k, s, 0
  {
    var branches := Resolved(s, defs).anyOf.branches;
    if s.ref.Some? {
      var name := s.ref.value[|PREFIX|..];
      assert Heads(s) == {name};
      NextIsBounded(defs, name, k);
      depth := BranchesTerminate(v, branches, defs, n, k - 1);
    } else {
      depth := BranchesTerminate(v, branches, defs, n, k);
    }
  }

  lemma {:induction false} BranchesTerminate(v: Value, branches: seq<Schema>, defs: Defs, n: nat, k: nat) returns (depth: nat)
    requires Bounded(defs, n) && HeadsBounded(HeadsOfAll(branches), defs, k)
    ensures forall d: nat, path :: d >= depth ==> BranchErrors(v, branches, path, defs, d).Some?
    decreases v, 2, k, branches
  {
    if branches == [] {
      depth := 0;
    } else {
      var m := |branches| - 1;
      var front := BranchesTerminate(v, branches[..m], defs, n, k);
      var last := Terminates(v, branches[m], defs, n, k);
      depth := Max(front, last);
    }
  }

  lemma {:induction false} EntriesTerminate(v: Value, m: nat, properties: seq<(string, Schema)>, defs: Defs, n: nat) returns (depth: nat)
    requires v.Dict? && m <= |v.entries| && Bounded(defs, n)
    ensures forall d: nat, path :: d >= depth ==> EntryErrors(v.entries[..m], properties, path, defs, d).Some?
    decreases v, 1, m
  {
    if m == 0 {
      depth := 0;
    } else {
      var front := EntriesTerminate(v, m - 1, properties, defs, n);
      var (key, sub) := v.entries[m - 1];
      var schema := Lookup(properties, key);
      var last := 0;
      if schema.Some? {
        last := Terminates(sub, schema.value, defs, n, n);
      }
      depth := Max(front, last);
      assert v.entries[..m][..m - 1] == v.entries[..m - 1];
    }
  }

  lemma {:induction false} ItemsTerminate(v: Value, m: nat, schema: Schema, defs: Defs, n: nat) returns (depth: nat)
    requires v.List? && m <= |v.items| && Bounded(defs, n)
    ensures forall d: nat, path :: d >= depth ==> ItemErrors(v.items[..m], schema, path, defs, d).Some?
    decreases v, 1, m
  {
    if m == 0 {
      depth := 0;
    } else {
      var front := ItemsTerminate(v, m - 1, schema, defs, n);
      var last := Terminates(v.items[m - 1], schema, defs, n, n);
      depth := Max(front, last);
      assert v.items[..m][..m - 1] == v.items[..m - 1];
    }
  }

  // ----- a cycle never ends -----

  /** A set of definitions each of which passes the value on to another of them. */
  ghost predicate Closed(defs: Defs, names: set<string>) {
    forall a {:trigger PassedOn(defs, names, a)} :: a in names ==> PassedOn(defs, names, a)
  }

  ghost predicate PassedOn(defs: Defs, names: set<string>, a: string) {
    exists b :: b in names && Link(defs, a, b)
  }

  lemma {:induction false} HeadBranch(branches: seq<Schema>, name: string) returns (i: nat)
    requires name in HeadsOfAll(branches)
    ensures i < |branches| && name in Heads(branches[i])
  {
    var n := |branches| - 1;
    if name in Heads(branches[n]) {
      i := n;
    } else {
      i := HeadBranch(branches[..n], name);
    }
  }

  lemma {:induction false} NeverEnds(v: Value, s: Schema, path: seq<Step>, defs: Defs, names: set<string>, name: string, depth: nat)
    requires Closed(defs, names) && name in names && name in Heads(s)
    ensures Errors(v, s, path, defs, depth).None?
    decreases depth
  {
    if depth > 0 {
      var branches, next := [], name;
      if s.ref.Some? {
        assert PassedOn(defs, names, name);
        next :| next in names && Link(defs, name, next);
        branches := defs[name].anyOf.branches;
      } else {
        branches := s.anyOf.branches;
      }
      var i := HeadBranch(branches, next);
      NeverEnds(v, branches[i], path, defs, names, next, depth - 1);
      BranchNone(v, branches, i, path, defs, depth - 1);
    }
  }

  function RefTo(name: string): Schema {
    EMPTY.(ref := Some("#/$defs/" + name))
  }

  /** A reference stands for the definition it names, and for nothing that could be wrong if there is none. */
  lemma ReferencesDefinition(v: Value, name: string, path: seq<Step>, defs: Defs, depth: nat)
    requires depth > 0
    ensures name in defs && defs[name].ref.None? ==>
      Errors(v, RefTo(name), path, defs, depth) == Errors(v, defs[name], path, defs, depth)
    ensures name !in defs ==> Errors(v, RefTo(name), path, defs, depth) == Some([])
  {
    assert (PREFIX + name)[|PREFIX|..] == name && (PREFIX + name)[..|PREFIX|] == PREFIX;
  }

  lemma CycleNeverEnds(v: Value, defs: Defs, cycle: seq<string>)
    requires Cycle(defs, cycle)
    ensures !Ends(v, RefTo(cycle[0]), defs)
  {
    var names := set i | 0 <= i < |cycle| :: cycle[i];
    forall a | a in names
      ensures PassedOn(defs, names, a)
    {
      var i :| 0 <= i < |cycle| && cycle[i] == a;
      var j := if i == |cycle| - 1 then 0 else i;
      assert Link(defs, cycle[j], cycle[j + 1]) && cycle[j] == a;
    }
    var s := RefTo(cycle[0]);
    assert (PREFIX + cycle[0])[|PREFIX|..] == cycle[0] && (PREFIX + cycle[0])[..|PREFIX|] == PREFIX;
    forall depth: nat
      ensures !EndsBy(v, s, defs, depth)
    {
      NeverEnds(v, s, [], defs, names, cycle[0], depth);
    }
  }

  /** The validator ends on every value for every schema exactly when no definition reaches itself through `anyOf`. */
  lemma TerminationIsExact(defs: Defs)
    ensures (forall v, s :: Ends(v, s, defs)) <==> Acyclic(defs)
  {
    if Acyclic(defs) {
      AcyclicIsBounded(defs);
      forall v, s
        ensures Ends(v, s, defs)
      {
        var depth := Terminates(v, s, defs, |defs| + 1, |defs| + 1);
        assert EndsBy(v, s, defs, depth);
      }
    } else {
      var cycle :| Cycle(defs, cycle);
      CycleNeverEnds(Lit(Null), defs, cycle);
    }
  }
}
