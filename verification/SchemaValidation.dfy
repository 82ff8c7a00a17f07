/**
  The schema interpreter: JSON-like values, the schema language, the recursive validator
  and exactly when its recursion ends.
 */
module SchemaValidation {
  import opened Wrappers

  datatype Atom = Null | Bool(b: bool) | Int(i: int) | Str(s: string)

  /** Payload values; `Member` and `Object` are enum members and model instances. */
  datatype Value =
    | Lit(atom: Atom)
    | Real(r: real)
    | List(items: seq<Value>)
    | Dict(entries: seq<(string, Value)>)
    | Member(enumName: string, atom: Atom)
    | Object(modelName: string, fields: seq<(string, Value)>, extras: seq<(string, Value)>)

  predicate IsNumber(v: Value) {
    v.Real? || (v.Lit? && (v.atom.Int? || v.atom.Bool?))
  }

  function NumberOf(v: Value): real
    requires IsNumber(v)
  {
    match v
    case Real(r) => r
    case Lit(Int(i)) => i as real
    case Lit(Bool(b)) => if b then 1.0 else 0.0
  }

  /** Python equality with an atom: numbers and booleans are compared by their numeric value. */
  predicate Same(v: Value, a: Atom) {
    if IsNumber(v) && IsNumber(Lit(a)) then NumberOf(v) == NumberOf(Lit(a)) else v == Lit(a)
  }

  predicate OneOf(v: Value, atoms: seq<Atom>) {
    exists i :: 0 <= i < |atoms| && Same(v, atoms[i])
  }

  datatype JsonType = NullType | ObjectType | ArrayType | StringType | IntegerType | NumberType | BooleanType | OtherType

  datatype Branches = NoBranches | AnyOf(branches: seq<Schema>)

  datatype ItemSpec = NoItems | Items(schema: Schema)

  datatype Schema = Schema(
    ref: Option<string>,
    anyOf: Branches,
    oneOf: Option<seq<Atom>>,
    ty: Option<JsonType>,
    required: seq<string>,
    properties: seq<(string, Schema)>,
    additional: Option<bool>,
    minItems: Option<int>,
    items: ItemSpec,
    minimum: Option<real>,
    maximum: Option<real>)

  const EMPTY: Schema := Schema(None, NoBranches, None, None, [], [], None, None, NoItems, None, None)

  type Defs = map<string, Schema>

  datatype Step = Key(name: string) | Index(i: nat)

  datatype Problem =
    | NoAllowedSchema | NotInEnum | ExpectedNull | ExpectedObject | MissingProperty | UnexpectedProperty
    | ExpectedArray | TooFewItems | ExpectedString | ExpectedInteger | ExpectedNumber | ExpectedBoolean
    | BelowMinimum | AboveMaximum

  datatype Error = Error(path: seq<Step>, problem: Problem)

  /** The first position of a key, or -1. */
  function IndexOf<T>(entries: seq<(string, T)>, key: string): (r: int)
    ensures -1 <= r < |entries|
    ensures r >= 0 ==> entries[r].0 == key
    ensures forall j :: 0 <= j < (if r >= 0 then r else |entries|) ==> entries[j].0 != key
  {
    if entries == [] then -1
    else if entries[0].0 == key then 0
    else
      var r := IndexOf(entries[1..], key);
      assert forall j :: 1 <= j < |entries| ==> entries[j] == entries[1..][j - 1];
      if r < 0 then -1 else r + 1
  }

  function Lookup<T>(entries: seq<(string, T)>, key: string): Option<T> {
    var i := IndexOf(entries, key);
    if i < 0 then None else Some(entries[i].1)
  }

  predicate HasKey<T>(entries: seq<(string, T)>, key: string) {
    exists i :: 0 <= i < |entries| && entries[i].0 == key
  }

  const PREFIX: string := "#/$defs/"

  /** The schema a reference stands for; unknown references stand for the empty schema. */
  function ResolveRef(ref: string, defs: Defs): Schema {
    if |ref| >= |PREFIX| && ref[..|PREFIX|] == PREFIX && ref[|PREFIX|..] in defs then defs[ref[|PREFIX|..]] else EMPTY
  }

  /** A reference is followed once; one inside the referenced schema is not. */
  function Resolved(s: Schema, defs: Defs): Schema {
    if s.ref.Some? then ResolveRef(s.ref.value, defs) else s
  }

  // ----- the parts of the validator that do not recurse -----

  function MissingErrors(required: seq<string>, entries: seq<(string, Value)>, path: seq<Step>): seq<Error> {
    if required == [] then []
    else
      var front := MissingErrors(required[..|required| - 1], entries, path);
      var key := required[|required| - 1];
      if HasKey(entries, key) then front else front + [Error(path + [Key(key)], MissingProperty)]
  }

  function ExtraErrors(keys: seq<string>, properties: seq<(string, Schema)>, path: seq<Step>): seq<Error> {
    if keys == [] then []
    else
      var front := ExtraErrors(keys[..|keys| - 1], properties, path);
      var key := keys[|keys| - 1];
      if HasKey(properties, key) then front else front + [Error(path + [Key(key)], UnexpectedProperty)]
  }

  /** The keys of a dictionary in some fixed order; the order only affects the order of the messages. */
  function KeysOf(entries: seq<(string, Value)>): (keys: seq<string>) {
    seq(|entries|, i requires 0 <= i < |entries| => entries[i].0)
  }

  function ShapeErrors(v: Value, s: Schema, path: seq<Step>): seq<Error>
    requires v.Dict?
  {
    MissingErrors(s.required, v.entries, path) +
    (if s.additional == Some(false) then ExtraErrors(KeysOf(v.entries), s.properties, path) else [])
  }

  /** The checks behind the type cases: scalar types, then bounds on numbers. */
  function ScalarErrors(v: Value, s: Schema, path: seq<Step>): seq<Error> {
    if s.ty == Some(StringType) && !(v.Lit? && v.atom.Str?) then [Error(path, ExpectedString)]
    else if s.ty == Some(IntegerType) && !(v.Lit? && (v.atom.Int? || v.atom.Bool?)) then [Error(path, ExpectedInteger)]
    else if s.ty == Some(NumberType) && !IsNumber(v) then [Error(path, ExpectedNumber)]
    else if s.ty == Some(BooleanType) && !(v.Lit? && v.atom.Bool?) then [Error(path, ExpectedBoolean)]
    else if IsNumber(v) && s.minimum.Some? && NumberOf(v) < s.minimum.value then [Error(path, BelowMinimum)]
    else if IsNumber(v) && s.maximum.Some? && NumberOf(v) > s.maximum.value then [Error(path, AboveMaximum)]
    else []
  }

  // ----- the validator -----

  /**
    The errors found with at most `depth` nested calls; none when the calls nest deeper,
    which is how a recursion without end shows.
   */
  function Errors(v: Value, schema: Schema, path: seq<Step>, defs: Defs, depth: nat): Option<seq<Error>>
    decreases depth, 1, 0
  {
    if depth == 0 then None
    else if schema == EMPTY then Some([])
    else
      var s := Resolved(schema, defs);
      if s.anyOf.AnyOf? then
        match BranchErrors(v, s.anyOf.branches, path, defs, depth - 1)
        case None => None
        case Some(all) => Some(if AnyValid(all) then [] else [Error(path, NoAllowedSchema)])
      else if s.oneOf.Some? && !OneOf(v, s.oneOf.value) then Some([Error(path, NotInEnum)])
      else if s.ty == Some(NullType) then Some(if v == Lit(Null) then [] else [Error(path, ExpectedNull)])
      else if s.ty == Some(ObjectType) then
        if !v.Dict? then Some([Error(path, ExpectedObject)])
        else
          match EntryErrors(v.entries, s.properties, path, defs, depth - 1)
          case None => None
          case Some(inner) => Some(ShapeErrors(v, s, path) + inner)
      else if s.ty == Some(ArrayType) then
        if !v.List? then Some([Error(path, ExpectedArray)])
        else if s.minItems.Some? && |v.items| < s.minItems.value then Some([Error(path, TooFewItems)])
        else ItemErrors(v.items, ItemSchema(s), path, defs, depth - 1)
      else Some(ScalarErrors(v, s, path))
  }

  predicate AnyValid(all: seq<seq<Error>>) {
    exists i :: 0 <= i < |all| && all[i] == []
  }

  lemma AnyValidLast(front: seq<seq<Error>>, last: seq<Error>)
    ensures AnyValid(front + [last]) <==> AnyValid(front) || last == []
  {
    if AnyValid(front) {
      var i :| 0 <= i < |front| && front[i] == [];
      assert (front + [last])[i] == [];
    }
    if last == [] {
      assert (front + [last])[|front|] == [];
    }
  }

  function ItemSchema(s: Schema): Schema {
    if s.items.Items? then s.items.schema else EMPTY
  }

  function BranchErrors(v: Value, branches: seq<Schema>, path: seq<Step>, defs: Defs, depth: nat): Option<seq<seq<Error>>>
    ensures var r := BranchErrors(v, branches, path, defs, depth);
      r.Some? ==> |r.value| == |branches|
    decreases depth, 2, |branches|
  {
    if branches == [] then Some([])
    else
      var n := |branches| - 1;
      var front, last := BranchErrors(v, branches[..n], path, defs, depth), Errors(v, branches[n], path, defs, depth);
      if front.None? || last.None? then None else Some(front.value + [last.value])
  }

  function EntryErrors(entries: seq<(string, Value)>, properties: seq<(string, Schema)>, path: seq<Step>, defs: Defs, depth: nat):
    Option<seq<Error>>
    decreases depth, 2, |entries|
  {
    if entries == [] then Some([])
    else
      var n := |entries| - 1;
      var (key, sub) := entries[n];
      var front := EntryErrors(entries[..n], properties, path, defs, depth);
      var schema := Lookup(properties, key);
      if schema.None? then front
      else
        var last := Errors(sub, schema.value, path + [Key(key)], defs, depth);
        if front.None? || last.None? then None else Some(front.value + last.value)
  }

  function ItemErrors(items: seq<Value>, schema: Schema, path: seq<Step>, defs: Defs, depth: nat): Option<seq<Error>>
    decreases depth, 2, |items|
  {
    if items == [] then Some([])
    else
      var n := |items| - 1;
      var front := ItemErrors(items[..n], schema, path, defs, depth);
      var last := Errors(items[n], schema, path + [Index(n)], defs, depth);
      if front.None? || last.None? then None else Some(front.value + last.value)
  }

  /** The validator as it runs; its loops over branches, entries and items follow. */
  method Validate(v: Value, schema: Schema, path: seq<Step>, defs: Defs, depth: nat) returns (r: Option<seq<Error>>)
    ensures r == Errors(v, schema, path, defs, depth)
    decreases depth, 0
  {
    if depth == 0 {
      return None;
    }
    if schema == EMPTY {
      return Some([]);
    }
    var s := Resolved(schema, defs);
    if s.anyOf.AnyOf? {
      r := ValidateBranches(v, s.anyOf.branches, path, defs, depth - 1);
    } else if s.oneOf.Some? && !OneOf(v, s.oneOf.value) {
      r := Some([Error(path, NotInEnum)]);
    } else if s.ty == Some(NullType) {
      r := Some(if v == Lit(Null) then [] else [Error(path, ExpectedNull)]);
    } else if s.ty == Some(ObjectType) {
      if !v.Dict? {
        return Some([Error(path, ExpectedObject)]);
      }
      var errors := ValidateShape(v, s, path);
      r := ValidateEntries(v.entries, s.properties, path, defs, depth - 1, errors);
    } else if s.ty == Some(ArrayType) {
      if !v.List? {
        return Some([Error(path, ExpectedArray)]);
      }
      if s.minItems.Some? && |v.items| < s.minItems.value {
        return Some([Error(path, TooFewItems)]);
      }
      r := ValidateItems(v.items, ItemSchema(s), path, defs, depth - 1);
    } else {
      r := Some(ScalarErrors(v, s, path));
    }
  }

  method ValidateBranches(v: Value, branches: seq<Schema>, path: seq<Step>, defs: Defs, depth: nat)
    returns (r: Option<seq<Error>>)
    ensures var all := BranchErrors(v, branches, path, defs, depth);
      r == if all.None? then None else Some(if AnyValid(all.value) then [] else [Error(path, NoAllowedSchema)])
    decreases depth, 1
  {
    var anyValid := false;
    ghost var all: seq<seq<Error>> := [];
    for i := 0 to |branches|
      invariant BranchErrors(v, branches[..i], path, defs, depth) == Some(all)
      invariant anyValid == AnyValid(all)
    {
      assert branches[..i + 1][..i] == branches[..i];
      var branch := Validate(v, branches[i], path, defs, depth);
      if branch.None? {
        BranchNone(v, branches, i, path, defs, depth);
        return None;
      }
      AnyValidLast(all, branch.value);
      anyValid := anyValid || branch.value == [];
      all := all + [branch.value];
    }
    assert branches[..|branches|] == branches;
    r := Some(if anyValid then [] else [Error(path, NoAllowedSchema)]);
  }

  method ValidateEntries(entries: seq<(string, Value)>, properties: seq<(string, Schema)>, path: seq<Step>, defs: Defs,
                         depth: nat, before: seq<Error>) returns (r: Option<seq<Error>>)
    ensures var inner := EntryErrors(entries, properties, path, defs, depth);
      r == if inner.None? then None else Some(before + inner.value)
    decreases depth, 1
  {
    var errors := before;
    ghost var inner: seq<Error> := [];
    for i := 0 to |entries|
      invariant EntryErrors(entries[..i], properties, path, defs, depth) == Some(inner)
      invariant errors == before + inner
    {
      assert entries[..i + 1][..i] == entries[..i];
      var (key, sub) := entries[i];
      var property := Lookup(properties, key);
      if property.Some? {
        var found := Validate(sub, property.value, path + [Key(key)], defs, depth);
        if found.None? {
          EntryNone(entries, i, properties, path, defs, depth);
          return None;
        }
        errors := errors + found.value;
        inner := inner + found.value;
      }
    }
    assert entries[..|entries|] == entries;
    r := Some(errors);
  }

  method ValidateItems(items: seq<Value>, schema: Schema, path: seq<Step>, defs: Defs, depth: nat)
    returns (r: Option<seq<Error>>)
    ensures r == ItemErrors(items, schema, path, defs, depth)
    decreases depth, 1
  {
    var errors := [];
    for i := 0 to |items|
      invariant ItemErrors(items[..i], schema, path, defs, depth) == Some(errors)
    {
      assert items[..i + 1][..i] == items[..i];
      var found := Validate(items[i], schema, path + [Index(i)], defs, depth);
      if found.None? {
        ItemNone(items, i, schema, path, defs, depth);
        return None;
      }
      errors := errors + found.value;
    }
    assert items[..|items|] == items;
    r := Some(errors);
  }

  method ValidateShape(v: Value, s: Schema, path: seq<Step>) returns (errors: seq<Error>)
    requires v.Dict?
    ensures errors == ShapeErrors(v, s, path)
  {
    errors := [];
    for i := 0 to |s.required|
      invariant errors == MissingErrors(s.required[..i], v.entries, path)
    {
      assert s.required[..i + 1][..i] == s.required[..i];
      if !HasKey(v.entries, s.required[i]) {
        errors := errors + [Error(path + [Key(s.required[i])], MissingProperty)];
      }
    }
    assert s.required[..|s.required|] == s.required;
    if s.additional == Some(false) {
      var keys := KeysOf(v.entries);
      ghost var extra: seq<Error> := [];
      for i := 0 to |keys|
        invariant extra == ExtraErrors(keys[..i], s.properties, path)
        invariant errors == MissingErrors(s.required, v.entries, path) + extra
      {
        assert keys[..i + 1][..i] == keys[..i];
        if !HasKey(s.properties, keys[i]) {
          errors := errors + [Error(path + [Key(keys[i])], UnexpectedProperty)];
          extra := extra + [Error(path + [Key(keys[i])], UnexpectedProperty)];
        }
      }
      assert keys[..|keys|] == keys;
    }
  }

  // ----- one call without end makes the whole call endless -----

  lemma {:induction false} BranchNone(v: Value, branches: seq<Schema>, i: nat, path: seq<Step>, defs: Defs, depth: nat)
    requires i < |branches| && Errors(v, branches[i], path, defs, depth).None?
    ensures BranchErrors(v, branches, path, defs, depth).None?
    decreases |branches|
  {
    var n := |branches| - 1;
    if i < n {
      BranchNone(v, branches[..n], i, path, defs, depth);
    }
  }

  lemma {:induction false} EntryNone(entries: seq<(string, Value)>, i: nat, properties: seq<(string, Schema)>, path: seq<Step>,
                                     defs: Defs, depth: nat)
    requires i < |entries| && Lookup(properties, entries[i].0).Some?
    requires Errors(entries[i].1, Lookup(properties, entries[i].0).value, path + [Key(entries[i].0)], defs, depth).None?
    ensures EntryErrors(entries, properties, path, defs, depth).None?
    decreases |entries|
  {
    var n := |entries| - 1;
    if i < n {
      EntryNone(entries[..n], i, properties, path, defs, depth);
    }
  }

  lemma {:induction false} ItemNone(items: seq<Value>, i: nat, schema: Schema, path: seq<Step>, defs: Defs, depth: nat)
    requires i < |items| && Errors(items[i], schema, path + [Index(i)], defs, depth).None?
    ensures ItemErrors(items, schema, path, defs, depth).None?
    decreases |items|
  {
    var n := |items| - 1;
    if i < n {
      ItemNone(items[..n], i, schema, path, defs, depth);
    }
  }
}
