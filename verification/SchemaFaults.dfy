/**
  What the errors of the schema interpreter say: each points to a part of the value and names
  what is wrong with it there, and everything that is wrong is named.
 */
module SchemaFaults {
  import opened Wrappers
  import opened SchemaValidation

  // ----- what is wrong where -----

  predicate HasScalarType(v: Value, ty: Option<JsonType>) {
    && (ty == Some(StringType) ==> v.Lit? && v.atom.Str?)
    && (ty == Some(IntegerType) ==> v.Lit? && (v.atom.Int? || v.atom.Bool?))
    && (ty == Some(NumberType) ==> IsNumber(v))
    && (ty == Some(BooleanType) ==> v.Lit? && v.atom.Bool?)
  }

  /** What is wrong with a value that is no container: a type named after the one expected, or a bound; the lower bound goes first. */
  predicate ScalarFault(v: Value, s: Schema, problem: Problem) {
    match problem
    case ExpectedString => s.ty == Some(StringType) && !HasScalarType(v, s.ty)
    case ExpectedInteger => s.ty == Some(IntegerType) && !HasScalarType(v, s.ty)
    case ExpectedNumber => s.ty == Some(NumberType) && !HasScalarType(v, s.ty)
    case ExpectedBoolean => s.ty == Some(BooleanType) && !HasScalarType(v, s.ty)
    case BelowMinimum => HasScalarType(v, s.ty) && IsNumber(v) && s.minimum.Some? && NumberOf(v) < s.minimum.value
    case AboveMaximum =>
      && HasScalarType(v, s.ty) && IsNumber(v) && s.maximum.Some? && NumberOf(v) > s.maximum.value
      && !(s.minimum.Some? && NumberOf(v) < s.minimum.value)
    case _ => false
  }

  /** What is wrong with a dictionary itself: a required key it lacks, or a key it must not have; the path names the key. */
  predicate KeyFault(v: Value, s: Schema, rel: seq<Step>, problem: Problem)
    requires v.Dict?
  {
    && |rel| == 1 && rel[0].Key?
    && ( || (problem == MissingProperty && rel[0].name in s.required && !HasKey(v.entries, rel[0].name))
         || (problem == UnexpectedProperty && s.additional == Some(false) &&
               HasKey(v.entries, rel[0].name) && !HasKey(s.properties, rel[0].name)))
  }

  /**
    This is wrong with the part of the value that the path leads to; `depth` bounds how far
    references are followed, as in the interpreter.
   */
  ghost predicate Faulty(v: Value, schema: Schema, defs: Defs, depth: nat, rel: seq<Step>, problem: Problem)
    decreases depth, 1
  {
    if depth == 0 || schema == EMPTY then false
    else
      var s := Resolved(schema, defs);
      if s.anyOf.AnyOf? then
        && rel == [] && problem == NoAllowedSchema
        && forall i :: 0 <= i < |s.anyOf.branches| ==> HasFault(v, s.anyOf.branches[i], defs, depth - 1)
      else if s.oneOf.Some? && !OneOf(v, s.oneOf.value) then rel == [] && problem == NotInEnum
      else if s.ty == Some(NullType) then rel == [] && problem == ExpectedNull && v != Lit(Null)
      else if s.ty == Some(ObjectType) then
        if !v.Dict? then rel == [] && problem == ExpectedObject
        else
          || KeyFault(v, s, rel, problem)
          || exists i :: 0 <= i < |v.entries| && EntryFaulty(v.entries[i], s, defs, depth - 1, rel, problem)
      else if s.ty == Some(ArrayType) then
        if !v.List? then rel == [] && problem == ExpectedArray
        else if s.minItems.Some? && |v.items| < s.minItems.value then rel == [] && problem == TooFewItems
        else exists i :: 0 <= i < |v.items| && ItemFaulty(v.items[i], i, ItemSchema(s), defs, depth - 1, rel, problem)
      else rel == [] && ScalarFault(v, s, problem)
  }

  ghost predicate HasFault(v: Value, s: Schema, defs: Defs, depth: nat)
    decreases depth, 2
  {
    exists rel, problem :: Faulty(v, s, defs, depth, rel, problem)
  }

  ghost predicate EntryFaulty(entry: (string, Value), s: Schema, defs: Defs, depth: nat, rel: seq<Step>, problem: Problem)
    decreases depth, 2
  {
    var p := IndexOf(s.properties, entry.0);
    p >= 0 && rel != [] && rel[0] == Key(entry.0) && Faulty(entry.1, s.properties[p].1, defs, depth, rel[1..], problem)
  }

  ghost predicate ItemFaulty(item: Value, i: nat, schema: Schema, defs: Defs, depth: nat, rel: seq<Step>, problem: Problem)
    decreases depth, 2
  {
    rel != [] && rel[0] == Index(i) && Faulty(item, schema, defs, depth, rel[1..], problem)
  }

  // ----- errors are faults -----

  ghost predicate Under(e: Error, path: seq<Step>) {
    |path| <= |e.path| && e.path[..|path|] == path
  }

  /** The error names a fault, at its place below the path. */
  ghost predicate Names(e: Error, v: Value, s: Schema, path: seq<Step>, defs: Defs, depth: nat) {
    Under(e, path) && Faulty(v, s, defs, depth, e.path[|path|..], e.problem)
  }

  lemma OneStepDown(e: Error, path: seq<Step>, step: Step)
    ensures Under(e, path + [step]) <==> Under(e, path) && |e.path| > |path| && e.path[|path|] == step
    ensures Under(e, path + [step]) ==> e.path[|path + [step]|..] == e.path[|path|..][1..]
  {
    if Under(e, path) && |e.path| > |path| && e.path[|path|] == step {
      assert e.path[..|path| + 1] == e.path[..|path|] + [step];
    }
    if Under(e, path + [step]) {
      assert e.path[..|path|] == e.path[..|path| + 1][..|path|] == path;
      assert e.path[|path|] == e.path[..|path| + 1][|path|];
    }
  }

  ghost predicate AllNamed(errors: seq<Error>, v: Value, s: Schema, path: seq<Step>, defs: Defs, depth: nat) {
    forall e :: e in errors <==> Names(e, v, s, path, defs, depth)
  }

  lemma OnlyHere(e: Error, path: seq<Step>)
    ensures e.path == path <==> Under(e, path) && e.path[|path|..] == []
  {
    if Under(e, path) && e.path[|path|..] == [] {
      assert e.path == e.path[..|path|] + e.path[|path|..];
    }
  }

  lemma {:induction false} MissingNamed(required: seq<string>, entries: seq<(string, Value)>, path: seq<Step>, e: Error)
    ensures e in MissingErrors(required, entries, path) <==>
      exists i :: 0 <= i < |required| && !HasKey(entries, required[i]) && e == Error(path + [Key(required[i])], MissingProperty)
  {
    if required != [] {
      var n := |required| - 1;
      MissingNamed(required[..n], entries, path, e);
      assert forall i :: 0 <= i < n ==> required[..n][i] == required[i];
    }
  }

  lemma {:induction false} ExtraNamed(keys: seq<string>, properties: seq<(string, Schema)>, path: seq<Step>, e: Error)
    ensures e in ExtraErrors(keys, properties, path) <==>
      exists i :: 0 <= i < |keys| && !HasKey(properties, keys[i]) && e == Error(path + [Key(keys[i])], UnexpectedProperty)
  {
    if keys != [] {
      var n := |keys| - 1;
      ExtraNamed(keys[..n], properties, path, e);
      assert forall i :: 0 <= i < n ==> keys[..n][i] == keys[i];
    }
  }

  lemma KeyNamed(e: Error, path: seq<Step>, key: string, problem: Problem)
    ensures e == Error(path + [Key(key)], problem) <==>
      Under(e, path) && e.path[|path|..] == [Key(key)] && e.problem == problem
  {
    if Under(e, path) && e.path[|path|..] == [Key(key)] {
      assert e.path == e.path[..|path|] + e.path[|path|..];
    }
  }

  lemma ShapeNamed(v: Value, s: Schema, path: seq<Step>, e: Error)
    requires v.Dict?
    ensures e in ShapeErrors(v, s, path) <==> Under(e, path) && KeyFault(v, s, e.path[|path|..], e.problem)
  {
    MissingNamed(s.required, v.entries, path, e);
    ExtraNamed(KeysOf(v.entries), s.properties, path, e);
    if Under(e, path) && KeyFault(v, s, e.path[|path|..], e.problem) {
      var key := e.path[|path|..][0].name;
      assert e.path[|path|..] == [Key(key)];
      KeyNamed(e, path, key, e.problem);
      if e.problem == UnexpectedProperty {
        var i :| 0 <= i < |v.entries| && v.entries[i].0 == key;
        assert KeysOf(v.entries)[i] == key;
      }
    }
    forall key
      ensures e == Error(path + [Key(key)], e.problem) ==> Under(e, path) && e.path[|path|..] == [Key(key)]
    {
      KeyNamed(e, path, key, e.problem);
    }
    forall i | 0 <= i < |v.entries|
      ensures HasKey(v.entries, KeysOf(v.entries)[i])
    {
      assert v.entries[i].0 == KeysOf(v.entries)[i];
    }
  }

  lemma ScalarNamed(v: Value, s: Schema, path: seq<Step>, e: Error)
    ensures e in ScalarErrors(v, s, path) <==> e.path == path && ScalarFault(v, s, e.problem)
  {
  }

  /** Where the interpreter ends, its errors are exactly the faults, each at the part of the value it concerns. */
  lemma {:induction false} ErrorsNameFaults(v: Value, s: Schema, path: seq<Step>, defs: Defs, depth: nat)
    requires Errors(v, s, path, defs, depth).Some?
    ensures AllNamed(Errors(v, s, path, defs, depth).value, v, s, path, defs, depth)
    decreases depth, 2
  {
    forall e
      ensures e in Errors(v, s, path, defs, depth).value <==> Names(e, v, s, path, defs, depth)
    {
      ErrorNamesFault(v, s, path, defs, depth, e);
    }
  }

  /** The parts of a value are looked at: it is a dictionary or a list where one is expected, and long enough. */
  predicate LooksInside(v: Value, s: Schema) {
    && !s.anyOf.AnyOf? && !(s.oneOf.Some? && !OneOf(v, s.oneOf.value))
    && ( || (s.ty == Some(ObjectType) && v.Dict?)
         || (s.ty == Some(ArrayType) && v.List? && !(s.minItems.Some? && |v.items| < s.minItems.value)))
  }

  lemma {:induction false} ErrorNamesFault(v: Value, schema: Schema, path: seq<Step>, defs: Defs, depth: nat, e: Error)
    requires Errors(v, schema, path, defs, depth).Some?
    ensures e in Errors(v, schema, path, defs, depth).value <==> Names(e, v, schema, path, defs, depth)
    decreases depth, 1
  {
    if schema != EMPTY {
      var s := Resolved(schema, defs);
      if s.anyOf.AnyOf? {
        UnionNamesFault(v, schema, path, defs, depth, e);
      } else if !LooksInside(v, s) {
        ErrorHere(v, schema, path, defs, depth, e);
      } else if v.Dict? {
        ObjectNamesFault(v, schema, path, defs, depth, e);
      } else {
        ArrayNamesFault(v, schema, path, defs, depth, e);
      }
    }
  }

  lemma {:induction false} UnionNamesFault(v: Value, schema: Schema, path: seq<Step>, defs: Defs, depth: nat, e: Error)
    requires schema != EMPTY && Resolved(schema, defs).anyOf.AnyOf? && Errors(v, schema, path, defs, depth).Some?
    ensures e in Errors(v, schema, path, defs, depth).value <==> Names(e, v, schema, path, defs, depth)
    decreases depth, 0
  {
    OnlyHere(e, path);
    BranchesHaveFaults(v, Resolved(schema, defs).anyOf.branches, path, defs, depth - 1);
  }

  lemma {:induction false} ObjectNamesFault(v: Value, schema: Schema, path: seq<Step>, defs: Defs, depth: nat, e: Error)
    requires schema != EMPTY && LooksInside(v, Resolved(schema, defs)) && v.Dict? && Errors(v, schema, path, defs, depth).Some?
    ensures e in Errors(v, schema, path, defs, depth).value <==> Names(e, v, schema, path, defs, depth)
    decreases depth, 0
  {
    var s := Resolved(schema, defs);
    ShapeNamed(v, s, path, e);
    EntriesNameFaults(v.entries, s, path, defs, depth - 1, e);
  }

  lemma {:induction false} ArrayNamesFault(v: Value, schema: Schema, path: seq<Step>, defs: Defs, depth: nat, e: Error)
    requires schema != EMPTY && LooksInside(v, Resolved(schema, defs)) && v.List? && Errors(v, schema, path, defs, depth).Some?
    ensures e in Errors(v, schema, path, defs, depth).value <==> Names(e, v, schema, path, defs, depth)
    decreases depth, 0
  {
    var s := Resolved(schema, defs);
    ItemsNameFaults(v.items, ItemSchema(s), path, defs, depth - 1, e);
  }

  lemma ErrorHere(v: Value, schema: Schema, path: seq<Step>, defs: Defs, depth: nat, e: Error)
    requires depth > 0 && schema != EMPTY && !Resolved(schema, defs).anyOf.AnyOf? && !LooksInside(v, Resolved(schema, defs))
    ensures Errors(v, schema, path, defs, depth).Some?
    ensures e in Errors(v, schema, path, defs, depth).value <==> Names(e, v, schema, path, defs, depth)
  {
    OnlyHere(e, path);
    ScalarNamed(v, Resolved(schema, defs), path, e);
  }

  /** What has no error has no fault, and the other way round. */
  lemma NoneNamed(errors: seq<Error>, v: Value, s: Schema, path: seq<Step>, defs: Defs, depth: nat)
    requires AllNamed(errors, v, s, path, defs, depth)
    ensures errors == [] <==> !HasFault(v, s, defs, depth)
  {
    if errors != [] {
      assert Names(errors[0], v, s, path, defs, depth);
    }
    forall rel, problem | Faulty(v, s, defs, depth, rel, problem)
      ensures errors != []
    {
      var e := Error(path + rel, problem);
      assert e.path[..|path|] == path && e.path[|path|..] == rel;
      assert Names(e, v, s, path, defs, depth);
    }
  }

  lemma {:induction false} BranchesHaveFaults(v: Value, branches: seq<Schema>, path: seq<Step>, defs: Defs, depth: nat)
    requires BranchErrors(v, branches, path, defs, depth).Some?
    ensures AnyValid(BranchErrors(v, branches, path, defs, depth).value) <==>
      exists i :: 0 <= i < |branches| && !HasFault(v, branches[i], defs, depth)
    decreases depth, 3, |branches|
  {
    if branches != [] {
      var n := |branches| - 1;
      BranchesHaveFaults(v, branches[..n], path, defs, depth);
      ErrorsNameFaults(v, branches[n], path, defs, depth);
      NoneNamed(Errors(v, branches[n], path, defs, depth).value, v, branches[n], path, defs, depth);
      AnyValidLast(BranchErrors(v, branches[..n], path, defs, depth).value, Errors(v, branches[n], path, defs, depth).value);
      assert forall i :: 0 <= i < n ==> branches[..n][i] == branches[i];
    }
  }

  lemma {:induction false} EntriesNameFaults(entries: seq<(string, Value)>, s: Schema, path: seq<Step>, defs: Defs, depth: nat, e: Error)
    requires EntryErrors(entries, s.properties, path, defs, depth).Some?
    ensures e in EntryErrors(entries, s.properties, path, defs, depth).value <==>
      Under(e, path) && exists i :: 0 <= i < |entries| && EntryFaulty(entries[i], s, defs, depth, e.path[|path|..], e.problem)
    decreases depth, 3, |entries|
  {
    if entries != [] {
      var n := |entries| - 1;
      EntriesNameFaults(entries[..n], s, path, defs, depth, e);
      assert forall i :: 0 <= i < n ==> entries[..n][i] == entries[i];
      var p := IndexOf(s.properties, entries[n].0);
      if p >= 0 {
        ErrorNamesFault(entries[n].1, s.properties[p].1, path + [Key(entries[n].0)], defs, depth, e);
        OneStepDown(e, path, Key(entries[n].0));
      }
    }
  }

  lemma {:induction false} ItemsNameFaults(items: seq<Value>, schema: Schema, path: seq<Step>, defs: Defs, depth: nat, e: Error)
    requires ItemErrors(items, schema, path, defs, depth).Some?
    ensures e in ItemErrors(items, schema, path, defs, depth).value <==>
      Under(e, path) && exists i :: 0 <= i < |items| && ItemFaulty(items[i], i, schema, defs, depth, e.path[|path|..], e.problem)
    decreases depth, 3, |items|
  {
    if items != [] {
      var n := |items| - 1;
      ItemsNameFaults(items[..n], schema, path, defs, depth, e);
      assert forall i :: 0 <= i < n ==> items[..n][i] == items[i];
      ErrorNamesFault(items[n], schema, path + [Index(n)], defs, depth, e);
      OneStepDown(e, path, Index(n));
    }
  }
}
