/**
  The type-to-schema compiler of the pydantic fallback, and the meaning of annotations.
  Compiling preserves meaning: the interpreter accepts a value for the compiled schema
  exactly when the value inhabits the annotation, for every faithful annotation.  For literals,
  enums, dictionaries, lists, models and bounds it is shown exactly when the schema is exact;
  for unions, when the members' schemas are, and that they need not be.
 */
module PydanticCompat {
  import opened Wrappers
  import opened SchemaValidation

  datatype Extra = Ignore | Forbid | Allow

  datatype Meta = Meta(minLength: Option<int>, ge: Option<real>, le: Option<real>)

  const NO_META: Meta := Meta(None, None, None)

  datatype Field = Field(name: string, ty: Type, meta: Meta, default: Option<Value>)

  datatype Model = Model(name: string, fields: seq<Field>, extra: Extra)

  datatype Type =
    | AnyT | StrT | IntT | BoolT | FloatT | NoneT
    | LiteralT(consts: seq<Atom>)
    | EnumT(name: string, members: seq<Atom>)
    | ListT(elem: Type)
    | DictT(elem: Type)
    | UnionT(args: seq<Type>)
    | ModelT(model: Model)

  // ----- the compiler -----

  function JsonTypeOf(a: Atom): JsonType {
    match a
    case Str(_) => StringType
    case Int(_) => IntegerType
    case Bool(_) => BooleanType
    case Null => ObjectType
  }

  function Typed(t: JsonType): Schema {
    EMPTY.(ty := Some(t))
  }

  function Compile(t: Type): Schema
    decreases t, 0
  {
    match t
    case AnyT => EMPTY
    case StrT => Typed(StringType)
    case IntT => Typed(IntegerType)
    case BoolT => Typed(BooleanType)
    case FloatT => Typed(NumberType)
    case NoneT => EMPTY
    case LiteralT(args) =>
      EMPTY.(oneOf := Some(args), ty := if args == [] then None else Some(JsonTypeOf(args[0])))
    case EnumT(_, members) => Typed(StringType).(oneOf := Some(members))
    case ListT(elem) => Typed(ArrayType).(items := Items(Compile(elem)))
    case DictT(_) => Typed(ObjectType)
    case UnionT(args) =>
      EMPTY.(anyOf := AnyOf(seq(|args|, i requires 0 <= i < |args| => CompileMember(args[i]))))
    case ModelT(model) => CompileModel(model)
  }

  /** Only as a member of a union does `None` get the null schema. */
  function CompileMember(t: Type): Schema
    decreases t, 1
  {
    if t.NoneT? then Typed(NullType) else Compile(t)
  }

  function WithMeta(s: Schema, meta: Meta): Schema {
    s.(minItems := if meta.minLength.Some? then meta.minLength else s.minItems,
       minimum := if meta.ge.Some? then meta.ge else s.minimum,
       maximum := if meta.le.Some? then meta.le else s.maximum)
  }

  function CompileField(f: Field): Schema
    decreases f
  {
    WithMeta(Compile(f.ty), f.meta)
  }

  function RequiredNames(fields: seq<Field>): seq<string> {
    if fields == [] then []
    else
      var last := fields[|fields| - 1];
      RequiredNames(fields[..|fields| - 1]) + (if last.default.None? then [last.name] else [])
  }

  function CompileModel(m: Model): Schema
    decreases m, 0
  {
    var fields := m.fields;
    Typed(ObjectType).(
      properties := seq(|fields|, i requires 0 <= i < |fields| => (fields[i].name, CompileField(fields[i]))),
      required := RequiredNames(fields),
      additional := match m.extra { case Forbid => Some(false) case Allow => Some(true) case Ignore => None })
  }

  function Required(f: Field): bool {
    f.default.None?
  }

  function NamesOf(fields: seq<Field>): (r: seq<string>) {
    seq(|fields|, i requires 0 <= i < |fields| => fields[i].name)
  }

  lemma {:induction false} RequiredInOrder(fields: seq<Field>)
    ensures RequiredNames(fields) == NamesOf(Filter(fields, Required))
  {
    if fields != [] {
      RequiredInOrder(fields[..|fields| - 1]);
    }
  }

  /** The schema of a model lists its fields in order, requires those without default, and says outright whether more are forbidden or allowed. */
  lemma ModelSchemaHas(m: Model)
    ensures var s := CompileModel(m);
      && s.ty == Some(ObjectType) && |s.properties| == |m.fields|
      && (forall i :: 0 <= i < |m.fields| ==>
            s.properties[i] == (m.fields[i].name, WithMeta(Compile(m.fields[i].ty), m.fields[i].meta)))
      && s.required == NamesOf(Filter(m.fields, Required))
      && (s.additional == Some(false) <==> m.extra == Forbid) && (s.additional == Some(true) <==> m.extra == Allow)
  {
    RequiredInOrder(m.fields);
  }

  /** The schema of a model, built field by field. */
  method ModelJsonSchema(m: Model) returns (schema: Schema)
    ensures schema == CompileModel(m)
  {
    var required: seq<string>, properties: seq<(string, Schema)> := [], [];
    for i := 0 to |m.fields|
      invariant required == RequiredNames(m.fields[..i])
      invariant |properties| == i
      invariant forall j :: 0 <= j < i ==> properties[j] == (m.fields[j].name, CompileField(m.fields[j]))
    {
      assert m.fields[..i + 1][..i] == m.fields[..i];
      var f := m.fields[i];
      properties := properties + [(f.name, CompileField(f))];
      if f.default.None? {
        required := required + [f.name];
      }
    }
    assert m.fields[..|m.fields|] == m.fields;
    assert properties == CompileModel(m).properties;
    schema := Typed(ObjectType).(properties := properties, required := required);
    if m.extra == Forbid {
      schema := schema.(additional := Some(false));
    } else if m.extra == Allow {
      schema := schema.(additional := Some(true));
    }
  }

  // ----- what annotations mean -----

  /** `isinstance` against the class of an atom; a boolean is an integer. */
  predicate InstanceOf(v: Value, a: Atom) {
    v.Lit? &&
    match a
    case Null => v.atom.Null?
    case Bool(_) => v.atom.Bool?
    case Int(_) => v.atom.Int? || v.atom.Bool?
    case Str(_) => v.atom.Str?
  }

  /** A value is one of some constants: equal to one, and of its class. */
  predicate OneOfTyped(v: Value, atoms: seq<Atom>) {
    exists i :: 0 <= i < |atoms| && Same(v, atoms[i]) && InstanceOf(v, atoms[i])
  }

  predicate Sized(v: Value) {
    v.List? || v.Dict? || (v.Lit? && v.atom.Str?)
  }

  function LengthOf(v: Value): nat
    requires Sized(v)
  {
    match v
    case List(items) => |items|
    case Dict(entries) => |entries|
    case Lit(Str(s)) => |s|
  }

  /** A length bound concerns everything with a length, a numeric bound every number. */
  predicate MeetsMeta(v: Value, meta: Meta) {
    && (meta.minLength.Some? && Sized(v) ==> LengthOf(v) >= meta.minLength.value)
    && (meta.ge.Some? && IsNumber(v) ==> NumberOf(v) >= meta.ge.value)
    && (meta.le.Some? && IsNumber(v) ==> NumberOf(v) <= meta.le.value)
  }

  function FieldIndex(fields: seq<Field>, key: string): (r: int)
    ensures -1 <= r < |fields|
    ensures r >= 0 ==> fields[r].name == key
    ensures forall j :: 0 <= j < (if r >= 0 then r else |fields|) ==> fields[j].name != key
  {
    if fields == [] then -1
    else if fields[0].name == key then 0
    else
      var r := FieldIndex(fields[1..], key);
      assert forall j :: 1 <= j < |fields| ==> fields[j] == fields[1..][j - 1];
      if r < 0 then -1 else r + 1
  }

  predicate Inhabits(v: Value, t: Type)
    decreases t
  {
    match t
    case AnyT => true
    case StrT => v.Lit? && v.atom.Str?
    case IntT => v.Lit? && (v.atom.Int? || v.atom.Bool?)
    case BoolT => v.Lit? && v.atom.Bool?
    case FloatT => IsNumber(v)
    case NoneT => v == Lit(Null)
    case LiteralT(args) => OneOfTyped(v, args)
    case EnumT(_, members) => OneOfTyped(v, members)
    case ListT(elem) => v.List? && forall i :: 0 <= i < |v.items| ==> Inhabits(v.items[i], elem)
    case DictT(elem) => v.Dict? && forall i :: 0 <= i < |v.entries| ==> Inhabits(v.entries[i].1, elem)
    case UnionT(args) => exists i :: 0 <= i < |args| && Inhabits(v, args[i])
    case ModelT(model) =>
      var fields := model.fields;
      && v.Dict?
      && (forall i :: 0 <= i < |fields| && fields[i].default.None? ==> HasKey(v.entries, fields[i].name))
      && (model.extra == Forbid ==> forall i :: 0 <= i < |v.entries| ==> FieldIndex(fields, v.entries[i].0) >= 0)
      && (forall i :: 0 <= i < |v.entries| ==>
            var k := FieldIndex(fields, v.entries[i].0);
            k >= 0 ==> Inhabits(v.entries[i].1, fields[k].ty) && MeetsMeta(v.entries[i].1, fields[k].meta))
  }

  // ----- when the compiler is faithful -----

  /** A bound is enforced, or concerns no value of the annotation. */
  predicate MetaEnforced(t: Type, meta: Meta) {
    && (meta.minLength.Some? ==> t.ListT? || t.IntT? || t.BoolT? || t.FloatT?)
    && (meta.ge.Some? || meta.le.Some? ==> !t.UnionT?)
  }

  /** The constants of a literal share the class of the first, up to a boolean that equals an integer among them. */
  predicate LiteralExact(args: seq<Atom>) {
    args == [] ||
    (!args[0].Null? && forall i :: 0 <= i < |args| ==>
       InstanceOf(Lit(args[i]), args[0]) &&
       (args[0].Int? && args[i].Bool? ==> Int(if args[i].b then 1 else 0) in args))
  }

  predicate AllStrings(atoms: seq<Atom>) {
    forall i :: 0 <= i < |atoms| ==> atoms[i].Str?
  }

  /** The annotations whose schemas say exactly what they mean. */
  predicate Faithful(t: Type)
    decreases t
  {
    match t
    case NoneT => false
    case LiteralT(args) => LiteralExact(args)
    case EnumT(_, members) => AllStrings(members)
    case ListT(elem) => Faithful(elem)
    case DictT(elem) => elem.AnyT?
    case UnionT(args) => forall i :: 0 <= i < |args| ==> args[i].NoneT? || Faithful(args[i])
    case ModelT(model) =>
      forall i :: 0 <= i < |model.fields| ==>
        Faithful(model.fields[i].ty) && MetaEnforced(model.fields[i].ty, model.fields[i].meta)
    case _ => true
  }

  // ----- acceptance without the bookkeeping of the interpreter -----

  ghost predicate RefFree(s: Schema)
    decreases s
  {
    && s.ref.None?
    && (s.anyOf.AnyOf? ==> forall i :: 0 <= i < |s.anyOf.branches| ==> RefFree(s.anyOf.branches[i]))
    && (forall i :: 0 <= i < |s.properties| ==> RefFree(s.properties[i].1))
    && (s.items.Items? ==> RefFree(s.items.schema))
  }

  predicate ShapeFits(v: Value, s: Schema)
    requires v.Dict?
  {
    && (forall i :: 0 <= i < |s.required| ==> HasKey(v.entries, s.required[i]))
    && (s.additional == Some(false) ==> forall i :: 0 <= i < |v.entries| ==> HasKey(s.properties, v.entries[i].0))
  }

  /** A value passes a schema without references. */
  predicate Accepts(v: Value, s: Schema)
    decreases s, 1
  {
    if s == EMPTY then true
    else if s.anyOf.AnyOf? then exists i :: 0 <= i < |s.anyOf.branches| && Accepts(v, s.anyOf.branches[i])
    else if s.oneOf.Some? && !OneOf(v, s.oneOf.value) then false
    else if s.ty == Some(NullType) then v == Lit(Null)
    else if s.ty == Some(ObjectType) then
      v.Dict? && ShapeFits(v, s) && forall i :: 0 <= i < |v.entries| ==> EntryFits(v.entries[i], s)
    else if s.ty == Some(ArrayType) then
      v.List? && (s.minItems.Some? ==> |v.items| >= s.minItems.value) &&
      (s.items.Items? ==> forall i :: 0 <= i < |v.items| ==> Accepts(v.items[i], s.items.schema))
    else ScalarErrors(v, s, []) == []
  }

  /** A dictionary entry passes the schema of its property, if it has one. */
  predicate EntryFits(entry: (string, Value), s: Schema)
    decreases s, 0
  {
    var p := IndexOf(s.properties, entry.0);
    p >= 0 ==> Accepts(entry.1, s.properties[p].1)
  }

  lemma {:induction false} NoMissing(required: seq<string>, entries: seq<(string, Value)>, path: seq<Step>)
    ensures MissingErrors(required, entries, path) == [] <==>
      forall i :: 0 <= i < |required| ==> HasKey(entries, required[i])
  {
    if required != [] {
      NoMissing(required[..|required| - 1], entries, path);
    }
  }

  lemma {:induction false} NoExtra(keys: seq<string>, properties: seq<(string, Schema)>, path: seq<Step>)
    ensures ExtraErrors(keys, properties, path) == [] <==>
      forall i :: 0 <= i < |keys| ==> HasKey(properties, keys[i])
  {
    if keys != [] {
      NoExtra(keys[..|keys| - 1], properties, path);
    }
  }

  lemma NoShapeErrors(v: Value, s: Schema, path: seq<Step>)
    requires v.Dict?
    ensures ShapeErrors(v, s, path) == [] <==> ShapeFits(v, s)
  {
    NoMissing(s.required, v.entries, path);
    NoExtra(KeysOf(v.entries), s.properties, path);
    assert forall i :: 0 <= i < |v.entries| ==> KeysOf(v.entries)[i] == v.entries[i].0;
  }

  /** Whenever the interpreter ends on a schema without references, no errors means acceptance. */
  lemma {:induction false} ErrorsMeanRejection(v: Value, s: Schema, path: seq<Step>, defs: Defs, depth: nat)
    requires RefFree(s)
    ensures var r := Errors(v, s, path, defs, depth);
      r.Some? ==> (r.value == [] <==> Accepts(v, s))
    decreases depth, 1
  {
    if depth == 0 || s == EMPTY {
    } else if s.anyOf.AnyOf? {
      BranchesMeanRejection(v, s.anyOf.branches, path, defs, depth - 1);
    } else if s.oneOf.Some? && !OneOf(v, s.oneOf.value) {
    } else if s.ty == Some(NullType) {
    } else if s.ty == Some(ObjectType) {
      ObjectMeansRejection(v, s, path, defs, depth);
    } else if s.ty == Some(ArrayType) {
      if v.List? {
        ItemsMeanRejection(v.items, ItemSchema(s), path, defs, depth - 1);
      }
    } else {
      ScalarErrorsPath(v, s, path);
    }
  }

  lemma {:induction false} ObjectMeansRejection(v: Value, s: Schema, path: seq<Step>, defs: Defs, depth: nat)
    requires RefFree(s) && depth > 0
    requires s.anyOf.NoBranches? && (s.oneOf.Some? ==> OneOf(v, s.oneOf.value)) && s.ty == Some(ObjectType)
    ensures var r := Errors(v, s, path, defs, depth);
      r.Some? ==> (r.value == [] <==> Accepts(v, s))
    decreases depth, 0
  {
    if v.Dict? {
      NoShapeErrors(v, s, path);
      EntriesMeanRejection(v.entries, s, path, defs, depth - 1);
    }
  }

  lemma ScalarErrorsPath(v: Value, s: Schema, path: seq<Step>)
    ensures ScalarErrors(v, s, path) == [] <==> ScalarErrors(v, s, []) == []
  {
  }

  lemma {:induction false} BranchesMeanRejection(v: Value, branches: seq<Schema>, path: seq<Step>, defs: Defs, depth: nat)
    requires forall i :: 0 <= i < |branches| ==> RefFree(branches[i])
    ensures var r := BranchErrors(v, branches, path, defs, depth);
      r.Some? ==> forall i :: 0 <= i < |branches| ==> (r.value[i] == [] <==> Accepts(v, branches[i]))
    decreases depth, 2, |branches|
  {
    if branches != [] {
      var n := |branches| - 1;
      BranchesMeanRejection(v, branches[..n], path, defs, depth);
      ErrorsMeanRejection(v, branches[n], path, defs, depth);
    }
  }

  lemma {:induction false} EntriesMeanRejection(entries: seq<(string, Value)>, s: Schema, path: seq<Step>, defs: Defs, depth: nat)
    requires RefFree(s)
    ensures var r := EntryErrors(entries, s.properties, path, defs, depth);
      r.Some? ==> (r.value == [] <==> forall i :: 0 <= i < |entries| ==> EntryFits(entries[i], s))
    decreases depth, 2, |entries|
  {
    if entries != [] {
      var n := |entries| - 1;
      EntriesMeanRejection(entries[..n], s, path, defs, depth);
      var p := IndexOf(s.properties, entries[n].0);
      if p >= 0 {
        ErrorsMeanRejection(entries[n].1, s.properties[p].1, path + [Key(entries[n].0)], defs, depth);
      }
      assert forall i :: 0 <= i < n ==> entries[..n][i] == entries[i];
    }
  }

  lemma {:induction false} ItemsMeanRejection(items: seq<Value>, schema: Schema, path: seq<Step>, defs: Defs, depth: nat)
    requires RefFree(schema)
    ensures var r := ItemErrors(items, schema, path, defs, depth);
      r.Some? ==> (r.value == [] <==> forall i :: 0 <= i < |items| ==> Accepts(items[i], schema))
    decreases depth, 2, |items|
  {
    if items != [] {
      var n := |items| - 1;
      ItemsMeanRejection(items[..n], schema, path, defs, depth);
      assert forall i :: 0 <= i < n ==> items[..n][i] == items[i];
      ErrorsMeanRejection(items[n], schema, path + [Index(n)], defs, depth);
    }
  }
}
