/**
  Parsing and typed values.  A typed value, enum members and model instances included, is
  left as it is by the annotation it has; and what parsing makes of plain data has the type.
 */
module TypedCoercion {
  import opened Wrappers
  import opened SchemaValidation
  import opened PydanticCompat
  import opened ModelCoercion
  import opened ModelRoundTrip

  // ----- typed values are left alone -----

  /** Taken at all, every value is left as it is: no enum member and no model instance is made. */
  predicate Passive(t: Type)
    decreases t
  {
    match t
    case EnumT(_, _) => false
    case ModelT(_) => false
    case ListT(elem) => Passive(elem)
    case UnionT(args) => forall i :: 0 <= i < |args| ==> Passive(args[i])
    case _ => true
  }

  /** `a` refuses the typed values of `b` or leaves them as they are. */
  predicate Leaves(a: Type, b: Type)
    decreases a, b
  {
    || Passive(a)
    || (b.UnionT? && forall i :: 0 <= i < |b.args| ==> Leaves(a, b.args[i]))
    || match a
       case EnumT(_, members) =>
         b.EnumT? || b.ListT? || b.DictT? || b.ModelT? || (!b.AnyT? && !b.UnionT? && ShapesOfAtoms(members) !! PrintedShapes(b))
       case ModelT(_) => !b.AnyT? && !b.UnionT? && !b.DictT?
       case ListT(elem) => if b.ListT? then Leaves(elem, b.elem) else !b.AnyT? && !b.UnionT?
       case UnionT(args) => forall i :: 0 <= i < |args| ==> Leaves(args[i], b)
       case _ => false
  }

  /** In every union, a member in front leaves the typed values of those behind it as they are. */
  predicate Stable(t: Type)
    decreases t
  {
    match t
    case ListT(elem) => Stable(elem)
    case UnionT(args) =>
      && (forall i :: 0 <= i < |args| ==> Stable(args[i]))
      && (forall i, j :: 0 <= i < j < |args| ==> Leaves(args[i], args[j]))
    case _ => true
  }

  ghost predicate Left(v: Value, t: Type) {
    Coerce(v, t).Some? ==> Coerce(v, t) == Some(v)
  }

  lemma {:induction false} ItemsLeft(items: seq<Value>, elem: Type)
    requires forall i :: 0 <= i < |items| ==> Left(items[i], elem)
    ensures Left(List(items), ListT(elem))
  {
    if CoerceItems(items, elem).Some? {
      ItemsTakenAll(items, elem);
      ItemsRead(items, elem, items);
    }
  }

  /** A list is taken only if every item is. */
  lemma {:induction false} ItemsTakenAll(items: seq<Value>, elem: Type)
    requires CoerceItems(items, elem).Some?
    ensures forall i :: 0 <= i < |items| ==> Coerce(items[i], elem).Some?
  {
    if items != [] {
      var n := |items| - 1;
      ItemsTakenAll(items[..n], elem);
      assert forall i :: 0 <= i < n ==> items[..n][i] == items[i];
    }
  }

  lemma {:induction false} UnionLeft(v: Value, args: seq<Type>)
    requires forall i :: 0 <= i < |args| ==> Left(v, args[i])
    ensures CoerceUnion(v, args).Some? ==> CoerceUnion(v, args) == Some(v)
  {
    if args != [] {
      assert Left(v, args[0]);
      UnionLeft(v, args[1..]);
    }
  }

  lemma {:induction false} PassiveLeft(v: Value, t: Type)
    requires Passive(t)
    ensures Left(v, t)
    decreases t
  {
    match t {
      case ListT(elem) =>
        if v.List? {
          forall i | 0 <= i < |v.items|
            ensures Left(v.items[i], elem)
          {
            PassiveLeft(v.items[i], elem);
          }
          ItemsLeft(v.items, elem);
        }
      case UnionT(args) =>
        forall i | 0 <= i < |args|
          ensures Left(v, args[i])
        {
          PassiveLeft(v, args[i]);
        }
        UnionLeft(v, args);
      case _ =>
    }
  }

  /** A value of a type that prints as nothing an enum holds, or is no plain constant, is no member's value. */
  lemma EnumLeft(x: Value, name: string, members: seq<Atom>, b: Type)
    requires HasType(x, b) && !b.AnyT? && !b.UnionT?
    requires b.EnumT? || b.ListT? || b.DictT? || b.ModelT? || ShapesOfAtoms(members) !! PrintedShapes(b)
    ensures Left(x, EnumT(name, members))
  {
    var i := MemberIndex(x, members);
    if i >= 0 && !x.Member? {
      assert Same(x, members[i]);
      ShapeOfConstant(x, members, i);
      PrintedShape(x, b);
      DumpPlain(x);
    }
  }

  lemma {:induction false} TypedLeft(x: Value, a: Type, b: Type)
    requires HasType(x, b) && Leaves(a, b)
    ensures Left(x, a)
    decreases a, b
  {
    if Passive(a) {
      PassiveLeft(x, a);
    } else if b.UnionT? && forall i :: 0 <= i < |b.args| ==> Leaves(a, b.args[i]) {
      var i :| 0 <= i < |b.args| && HasType(x, b.args[i]);
      TypedLeft(x, a, b.args[i]);
    } else {
      match a {
        case EnumT(name, members) => EnumLeft(x, name, members, b);
        case ModelT(_) =>
        case ListT(elem) => ListLeft(x, elem, b);
        case UnionT(args) =>
          forall i | 0 <= i < |args|
            ensures Left(x, args[i])
          {
            TypedLeft(x, args[i], b);
          }
          UnionLeft(x, args);
        case _ =>
      }
    }
  }

  lemma {:induction false} ListLeft(x: Value, elem: Type, b: Type)
    requires HasType(x, b) && !b.AnyT? && !b.UnionT? && (b.ListT? ==> Leaves(elem, b.elem))
    ensures Left(x, ListT(elem))
    decreases elem, b, 1
  {
    if x.List? {
      ListTyped(x, b);
      forall i | 0 <= i < |x.items|
        ensures Left(x.items[i], elem)
      {
        TypedLeft(x.items[i], elem, b.elem);
      }
      ItemsLeft(x.items, elem);
    }
  }

  lemma ListTyped(x: Value, b: Type)
    requires x.List? && HasType(x, b) && !b.AnyT? && !b.UnionT?
    ensures b.ListT?
  {
  }

  /** The first member that takes the value leaves it as it is, and some member does. */
  lemma {:induction false} UnionStays(x: Value, args: seq<Type>, j: nat)
    requires j < |args| && Coerce(x, args[j]) == Some(x)
    requires forall i :: 0 <= i < j ==> Left(x, args[i])
    ensures CoerceUnion(x, args) == Some(x)
  {
    if j > 0 {
      assert Left(x, args[0]);
      UnionStays(x, args[1..], j - 1);
    }
  }

  /** Parsing leaves a typed value as it is: plain data, enum members, model instances, and lists and unions of them. */
  lemma {:induction false} TypedStays(x: Value, t: Type)
    requires HasType(x, t) && Stable(t)
    ensures Coerce(x, t) == Some(x)
    decreases t
  {
    match t {
      case ListT(elem) =>
        forall i | 0 <= i < |x.items|
          ensures Coerce(x.items[i], elem) == Some(x.items[i])
        {
          TypedStays(x.items[i], elem);
        }
        ItemsRead(x.items, elem, x.items);
      case UnionT(args) =>
        var j :| 0 <= j < |args| && HasType(x, args[j]);
        TypedStays(x, args[j]);
        forall i | 0 <= i < j
          ensures Left(x, args[i])
        {
          TypedLeft(x, args[i], args[j]);
        }
        UnionStays(x, args, j);
      case _ =>
    }
  }

  /** An enum in front of its own values in plain form is not stable: it turns them into members. */
  lemma EnumFirstConverts(name: string, value: string)
    ensures var t := UnionT([EnumT(name, [Str(value)]), StrT]);
      !Stable(t) && HasType(Lit(Str(value)), t) && Coerce(Lit(Str(value)), t) == Some(Member(name, Str(value)))
  {
    var args := [EnumT(name, [Str(value)]), StrT];
    var x := Lit(Str(value));
    assert HasType(x, args[1]);
    assert MemberIndex(x, [Str(value)]) == 0;
    assert Coerce(x, UnionT(args)) == CoerceUnion(x, args) == Coerce(x, args[0]);
    assert ShapeOf(Lit(Str(value))) in ShapesOfAtoms([Str(value)]) by {
      ShapeOfConstant(x, [Str(value)], 0);
    }
    assert !Leaves(args[0], args[1]);
  }

  // ----- what is parsed has the type -----

  /** Annotations whose values are told from others by parsing: no None, which takes everything, and no extra attributes. */
  predicate Telling(t: Type)
    decreases t
  {
    match t
    case NoneT => false
    case EnumT(_, members) => MembersDiffer(members)
    case ListT(elem) => Telling(elem)
    case UnionT(args) => forall i :: 0 <= i < |args| ==> Telling(args[i])
    case ModelT(m) =>
      && m.extra != Allow && NamesDiffer(m.fields)
      && forall i :: 0 <= i < |m.fields| ==>
           Telling(m.fields[i].ty) && (m.fields[i].default.Some? ==> Plain(m.fields[i].default.value))
    case _ => true
  }

  lemma {:induction false} ItemsMade(items: seq<Value>, elem: Type)
    requires CoerceItems(items, elem).Some?
    ensures var r := CoerceItems(items, elem).value;
      r.List? && |r.items| == |items| && forall i :: 0 <= i < |items| ==> Coerce(items[i], elem) == Some(r.items[i])
  {
    if items != [] {
      var n := |items| - 1;
      ItemsMade(items[..n], elem);
      assert forall i :: 0 <= i < n ==> items[..n][i] == items[i];
    }
  }

  lemma {:induction false} UnionMade(v: Value, args: seq<Type>) returns (j: nat)
    requires CoerceUnion(v, args).Some?
    ensures j < |args| && Coerce(v, args[j]) == CoerceUnion(v, args)
    ensures forall i :: 0 <= i < j ==> Coerce(v, args[i]).None?
  {
    if Coerce(v, args[0]).Some? {
      j := 0;
    } else {
      j := UnionMade(v, args[1..]);
      assert forall i :: 1 <= i < j + 1 ==> args[i] == args[1..][i - 1];
      j := j + 1;
    }
  }

  /** A field of what is parsed is what its payload entry, or else its default, is parsed to. */
  ghost predicate FieldMade(entries: seq<(string, Value)>, f: Field, made: (string, Value)) {
    var given := Lookup(entries, f.name);
    && made.0 == f.name
    && (given.Some? ==> Coerce(given.value, f.ty) == Some(made.1))
    && (given.None? ==> f.default.Some? && Coerce(f.default.value, f.ty) == Some(made.1))
  }

  lemma {:induction false} FieldsMade(entries: seq<(string, Value)>, fields: seq<Field>)
    requires CoerceFields(entries, fields).Some?
    ensures var made := CoerceFields(entries, fields).value;
      |made| == |fields| && forall i :: 0 <= i < |fields| ==> FieldMade(entries, fields[i], made[i])
  {
    if fields != [] {
      var n := |fields| - 1;
      FieldsMade(entries, fields[..n]);
      assert forall i :: 0 <= i < n ==> fields[..n][i] == fields[i];
    }
  }

  /** A name no field of the model has. */
  predicate Unknown(name: string, fields: seq<Field>) {
    forall j :: 0 <= j < |fields| ==> fields[j].name != name
  }

  function UnknownTo(fields: seq<Field>): ((string, Value)) -> bool {
    (entry: (string, Value)) => Unknown(entry.0, fields)
  }

  lemma {:induction false} ExtrasAre(entries: seq<(string, Value)>, fields: seq<Field>)
    ensures Extras(entries, fields) == Filter(entries, UnknownTo(fields))
  {
    if entries != [] {
      ExtrasAre(entries[..|entries| - 1], fields);
    }
  }

  /** The entries give the field something it takes. */
  ghost predicate Makeable(entries: seq<(string, Value)>, f: Field) {
    exists made :: FieldMade(entries, f, made)
  }

  ghost predicate AllMakeable(entries: seq<(string, Value)>, fields: seq<Field>) {
    forall i :: 0 <= i < |fields| ==> Makeable(entries, fields[i])
  }

  lemma {:induction false} FieldsMakeable(entries: seq<(string, Value)>, fields: seq<Field>)
    ensures CoerceFields(entries, fields).Some? <==> AllMakeable(entries, fields)
  {
    if fields != [] {
      var n := |fields| - 1;
      FieldsMakeable(entries, fields[..n]);
      assert AllMakeable(entries, fields) <==> AllMakeable(entries, fields[..n]) && Makeable(entries, fields[n]);
      LastMakeable(entries, fields[n]);
    }
  }

  lemma LastMakeable(entries: seq<(string, Value)>, f: Field)
    ensures Makeable(entries, f) <==> FieldSource(entries, f).Some? && Coerce(FieldSource(entries, f).value, f.ty).Some?
  {
    if FieldSource(entries, f).Some? && Coerce(FieldSource(entries, f).value, f.ty).Some? {
      assert FieldMade(entries, f, (f.name, Coerce(FieldSource(entries, f).value, f.ty).value));
    }
  }

  lemma {:induction false} NoneUnknown(entries: seq<(string, Value)>, fields: seq<Field>)
    ensures Filter(entries, UnknownTo(fields)) == [] <==> forall i :: 0 <= i < |entries| ==> FieldIndex(fields, entries[i].0) >= 0
  {
    if entries != [] {
      NoneUnknown(entries[..|entries| - 1], fields);
    }
  }

  /** The instance is made of these entries for this model: each field from its entry or its default, and the unknown entries if allowed. */
  ghost predicate MadeOf(x: Value, entries: seq<(string, Value)>, m: Model) {
    && x.Object? && x.modelName == m.name && |x.fields| == |m.fields|
    && (forall i :: 0 <= i < |m.fields| ==> FieldMade(entries, m.fields[i], x.fields[i]))
    && x.extras == if m.extra == Allow then Filter(entries, UnknownTo(m.fields)) else []
  }

  /**
    What a dictionary is parsed to: every field from its entry or its default, no unknown entry
    where extra ones are forbidden, and exactly the unknown ones, in order, where they are allowed.
   */
  lemma ModelMade(entries: seq<(string, Value)>, m: Model)
    ensures Coerce(Dict(entries), ModelT(m)).Some? <==>
      (m.extra == Forbid ==> Filter(entries, UnknownTo(m.fields)) == []) && AllMakeable(entries, m.fields)
    ensures Coerce(Dict(entries), ModelT(m)).Some? ==> MadeOf(Coerce(Dict(entries), ModelT(m)).value, entries, m)
  {
    ExtrasAre(entries, m.fields);
    assert Coerce(Dict(entries), ModelT(m)) == CoerceModel(Dict(entries), m);
    NoneUnknown(entries, m.fields);
    FieldsMakeable(entries, m.fields);
    if CoerceFields(entries, m.fields).Some? {
      FieldsMade(entries, m.fields);
    }
  }

  /** A model made of typed values holds exactly these. */
  lemma TypedFieldsStay(entries: seq<(string, Value)>, m: Model)
    requires Coerce(Dict(entries), ModelT(m)).Some?
    ensures var x := Coerce(Dict(entries), ModelT(m)).value;
      && x.Object? && |x.fields| == |m.fields|
      && forall i :: 0 <= i < |m.fields| && Stable(m.fields[i].ty) ==>
           var given := Lookup(entries, m.fields[i].name);
           given.Some? && HasType(given.value, m.fields[i].ty) ==> x.fields[i].1 == given.value
  {
    ModelMade(entries, m);
    var x := Coerce(Dict(entries), ModelT(m)).value;
    forall i | 0 <= i < |m.fields| && Stable(m.fields[i].ty) && Lookup(entries, m.fields[i].name).Some? &&
               HasType(Lookup(entries, m.fields[i].name).value, m.fields[i].ty)
      ensures x.fields[i].1 == Lookup(entries, m.fields[i].name).value
    {
      assert FieldMade(entries, m.fields[i], x.fields[i]);
      TypedStays(Lookup(entries, m.fields[i].name).value, m.fields[i].ty);
    }
  }

  /** Whatever plain data is parsed to has the type of the annotation. */
  lemma {:induction false} ParsedIsTyped(v: Value, t: Type)
    requires Plain(v) && Telling(t) && Coerce(v, t).Some?
    ensures HasType(Coerce(v, t).value, t)
    decreases t
  {
    match t {
      case ListT(elem) =>
        ItemsMade(v.items, elem);
        forall i | 0 <= i < |v.items|
          ensures HasType(Coerce(v, t).value.items[i], elem)
        {
          ParsedIsTyped(v.items[i], elem);
        }
      case UnionT(args) =>
        var j := UnionMade(v, args);
        ParsedIsTyped(v, args[j]);
      case ModelT(m) => ParsedModel(v, t);
      case _ =>
    }
  }

  lemma {:induction false} ParsedModel(v: Value, t: Type)
    requires t.ModelT? && Plain(v) && Telling(t) && Coerce(v, t).Some?
    ensures HasType(Coerce(v, t).value, t)
    decreases t, 0
  {
    var m := t.model;
    ModelMade(v.entries, m);
    var x := Coerce(v, t).value;
    forall i | 0 <= i < |m.fields|
      ensures x.fields[i].0 == m.fields[i].name && HasType(x.fields[i].1, m.fields[i].ty)
    {
      assert MadeOf(x, v.entries, m) && FieldMade(v.entries, m.fields[i], x.fields[i]);
      var given := Lookup(v.entries, m.fields[i].name);
      if given.Some? {
        PlainEntry(v.entries, m.fields[i].name);
        ParsedIsTyped(given.value, m.fields[i].ty);
      } else {
        ParsedIsTyped(m.fields[i].default.value, m.fields[i].ty);
      }
    }
  }

  lemma PlainEntry(entries: seq<(string, Value)>, key: string)
    requires Plain(Dict(entries)) && Lookup(entries, key).Some?
    ensures Plain(Lookup(entries, key).value)
  {
  }
}
