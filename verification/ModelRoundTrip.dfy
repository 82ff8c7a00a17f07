/** Printing and parsing undo each other, and parsing takes whatever the generated schema accepts. */
module ModelRoundTrip {
  import opened Wrappers
  import opened SchemaValidation
  import opened PydanticCompat
  import opened SchemaMeaning
  import opened ModelCoercion

  lemma {:induction false} FieldsNone(entries: seq<(string, Value)>, fields: seq<Field>, i: nat)
    requires i < |fields|
    requires var source := FieldSource(entries, fields[i]);
      source.None? || Coerce(source.value, fields[i].ty).None?
    ensures CoerceFields(entries, fields).None?
  {
    var n := |fields| - 1;
    if i < n {
      FieldsNone(entries, fields[..n], i);
    }
  }

  /** A printed model instance has one entry per field, found at the position of the field. */
  lemma PrintedFields(x: Value, n: Model, key: string)
    requires HasType(x, ModelT(n))
    ensures var d := Dump(x);
      && d.Dict? && |d.entries| == |n.fields|
      && (forall j :: 0 <= j < |n.fields| ==> d.entries[j] == (n.fields[j].name, Dump(x.fields[j].1)))
      && IndexOf(d.entries, key) == FieldIndex(n.fields, key)
  {
    var entries := Dump(x).entries;
    var p, k := IndexOf(entries, key), FieldIndex(n.fields, key);
    assert p >= 0 ==> entries[p].0 == n.fields[p].name;
    assert k >= 0 ==> entries[k].0 == n.fields[k].name;
  }

  /** A printed instance has one entry per field, in order, whatever extra attributes it has; a printed member is its value. */
  lemma PrintedInstance(name: string, fields: seq<(string, Value)>, extras: seq<(string, Value)>, atom: Atom)
    ensures var d := Dump(Object(name, fields, extras));
      && d.Dict? && |d.entries| == |fields|
      && forall i :: 0 <= i < |fields| ==> d.entries[i] == (fields[i].0, Dump(fields[i].1))
    ensures Dump(Member(name, atom)) == Lit(atom)
  {
  }

  /** A rejected annotation does not take any printed value of the other. */
  lemma {:induction false} RejectedValue(x: Value, a: Type, b: Type)
    requires Rejects(a, b) && HasType(x, b)
    ensures Coerce(Dump(x), a).None?
    decreases a, 0
  {
    PrintedShape(x, b);
    if Shapes(a) !! PrintedShapes(b) {
      if Coerce(Dump(x), a).Some? {
        TakenShape(Dump(x), a);
      }
    } else {
      RejectedInstance(x, a.model, b.model);
    }
  }

  lemma {:induction false} RejectedInstance(x: Value, m: Model, n: Model)
    requires RejectsModel(m, n) && HasType(x, ModelT(n))
    ensures Coerce(Dump(x), ModelT(m)).None?
    decreases m, 1
  {
    assert Coerce(Dump(x), ModelT(m)) == CoerceModel(Dump(x), m);
    PrintedFields(x, n, "");
    if j :| m.extra == Forbid && 0 <= j < |n.fields| && FieldIndex(m.fields, n.fields[j].name) < 0 {
      assert FieldIndex(m.fields, Dump(x).entries[j].0) < 0;
    } else if i :| 0 <= i < |m.fields| && m.fields[i].default.None? && FieldIndex(n.fields, m.fields[i].name) < 0 {
      PrintedFields(x, n, m.fields[i].name);
      FieldsNone(Dump(x).entries, m.fields, i);
    } else {
      var i :| 0 <= i < |m.fields| && FieldIndex(n.fields, m.fields[i].name) >= 0 &&
        Rejects(m.fields[i].ty, n.fields[FieldIndex(n.fields, m.fields[i].name)].ty);
      RejectedField(x, m, n, i);
    }
  }

  lemma {:induction false} RejectedField(x: Value, m: Model, n: Model, i: nat)
    requires HasType(x, ModelT(n)) && i < |m.fields| && FieldIndex(n.fields, m.fields[i].name) >= 0
    requires Rejects(m.fields[i].ty, n.fields[FieldIndex(n.fields, m.fields[i].name)].ty)
    ensures Dump(x).Dict? && CoerceFields(Dump(x).entries, m.fields).None?
    decreases m, 0
  {
    var j := FieldIndex(n.fields, m.fields[i].name);
    PrintedFields(x, n, m.fields[i].name);
    RejectedValue(x.fields[j].1, m.fields[i].ty, n.fields[j].ty);
    FieldsNone(Dump(x).entries, m.fields, i);
  }

  lemma {:induction false} UnionTakes(v: Value, args: seq<Type>, j: nat)
    requires j < |args| && Coerce(v, args[j]).Some?
    requires forall i :: 0 <= i < j ==> Coerce(v, args[i]).None?
    ensures CoerceUnion(v, args) == Coerce(v, args[j])
  {
    if j > 0 {
      UnionTakes(v, args[1..], j - 1);
    }
  }

  lemma {:induction false} ItemsRead(items: seq<Value>, elem: Type, want: seq<Value>)
    requires |items| == |want| && forall i :: 0 <= i < |items| ==> Coerce(items[i], elem) == Some(want[i])
    ensures CoerceItems(items, elem) == Some(List(want))
  {
    if items == [] {
      assert want == [];
    } else {
      var n := |items| - 1;
      ItemsRead(items[..n], elem, want[..n]);
      assert want == want[..n] + [want[n]];
    }
  }

  lemma {:induction false} FieldsRead(entries: seq<(string, Value)>, fields: seq<Field>, want: seq<(string, Value)>)
    requires |fields| == |want|
    requires forall i :: 0 <= i < |fields| ==>
      var source := FieldSource(entries, fields[i]);
      source.Some? && Coerce(source.value, fields[i].ty) == Some(want[i].1) && want[i].0 == fields[i].name
    ensures CoerceFields(entries, fields) == Some(want)
  {
    if fields == [] {
      assert want == [];
    } else {
      var n := |fields| - 1;
      FieldsRead(entries, fields[..n], want[..n]);
      assert want == want[..n] + [(fields[n].name, want[n].1)];
    }
  }

  lemma {:induction false} NoExtras(entries: seq<(string, Value)>, fields: seq<Field>)
    requires forall i :: 0 <= i < |entries| ==> FieldIndex(fields, entries[i].0) >= 0
    ensures Extras(entries, fields) == []
  {
    if entries != [] {
      NoExtras(entries[..|entries| - 1], fields);
    }
  }

  /** Reading back what was printed gives the value, for every annotation whose unions are exclusive. */
  lemma {:induction false} RoundTrip(x: Value, t: Type)
    requires HasType(x, t) && Exclusive(t)
    ensures Coerce(Dump(x), t) == Some(x)
    decreases t, 0
  {
    match t {
      case AnyT => DumpPlain(x);
      case DictT(_) => DumpPlain(x);
      case EnumT(name, members) =>
        var k :| 0 <= k < |members| && members[k] == x.atom;
        assert Same(Lit(members[k]), members[k]);
        assert forall j :: 0 <= j < k ==> !Same(Lit(members[k]), members[j]);
      case ListT(elem) =>
        forall i | 0 <= i < |x.items|
          ensures Coerce(Dump(x).items[i], elem) == Some(x.items[i])
        {
          RoundTrip(x.items[i], elem);
        }
        ItemsRead(Dump(x).items, elem, x.items);
      case UnionT(args) =>
        var j :| 0 <= j < |args| && HasType(x, args[j]);
        RoundTrip(x, args[j]);
        forall i | 0 <= i < j
          ensures Coerce(Dump(x), args[i]).None?
        {
          RejectedValue(x, args[i], args[j]);
        }
        UnionTakes(Dump(x), args, j);
      case ModelT(m) => RoundTripModel(x, m);
      case _ =>
    }
  }

  lemma {:induction false} RoundTripModel(x: Value, m: Model)
    requires HasType(x, ModelT(m)) && Exclusive(ModelT(m))
    ensures Coerce(Dump(x), ModelT(m)) == Some(x)
    decreases m, 1
  {
    forall i | 0 <= i < |m.fields|
      ensures Coerce(Dump(x.fields[i].1), m.fields[i].ty) == Some(x.fields[i].1)
    {
      RoundTrip(x.fields[i].1, m.fields[i].ty);
    }
    FieldsBack(x, m);
    ModelBack(x, m);
    assert Coerce(Dump(x), ModelT(m)) == CoerceModel(Dump(x), m);
  }

  lemma FieldsBack(x: Value, m: Model)
    requires HasType(x, ModelT(m)) && Exclusive(ModelT(m))
    requires forall i :: 0 <= i < |m.fields| ==> Coerce(Dump(x.fields[i].1), m.fields[i].ty) == Some(x.fields[i].1)
    ensures Dump(x).Dict? && CoerceFields(Dump(x).entries, m.fields) == Some(x.fields)
  {
    PrintedFields(x, m, "");
    forall i | 0 <= i < |m.fields|
      ensures FieldSource(Dump(x).entries, m.fields[i]) == Some(Dump(x.fields[i].1))
    {
      PrintedFields(x, m, m.fields[i].name);
      FirstPosition(m.fields, i);
    }
    FieldsRead(Dump(x).entries, m.fields, x.fields);
  }

  lemma {:induction false} ModelBack(x: Value, m: Model)
    requires HasType(x, ModelT(m)) && Exclusive(ModelT(m))
    requires Dump(x).Dict? && CoerceFields(Dump(x).entries, m.fields) == Some(x.fields)
    ensures CoerceModel(Dump(x), m) == Some(x)
  {
    PrintedFields(x, m, "");
    var entries := Dump(x).entries;
    forall i | 0 <= i < |entries|
      ensures FieldIndex(m.fields, entries[i].0) >= 0
    {
      FirstPosition(m.fields, i);
    }
    assert Dump(x) == Dict(entries);
    ReadModel(entries, x.fields, m);
  }

  lemma ReadModel(entries: seq<(string, Value)>, values: seq<(string, Value)>, m: Model)
    requires CoerceFields(entries, m.fields) == Some(values)
    requires forall i :: 0 <= i < |entries| ==> FieldIndex(m.fields, entries[i].0) >= 0
    ensures CoerceModel(Dict(entries), m) == Some(Object(m.name, values, []))
  {
    NoExtras(entries, m.fields);
  }

  lemma FirstPosition(fields: seq<Field>, i: nat)
    requires NamesDiffer(fields) && i < |fields|
    ensures FieldIndex(fields, fields[i].name) == i
  {
    assert forall j :: 0 <= j < i ==> fields[j].name != fields[i].name;
  }

  // ----- what None in a union does -----

  /** A union with None among its members takes every value, whatever the others are. */
  lemma OptionalTakesAll(v: Value, args: seq<Type>, i: nat)
    requires i < |args| && args[i].NoneT?
    ensures Coerce(v, UnionT(args)).Some?
  {
    assert Coerce(v, args[i]) == Some(v);
    UnionTaken(v, args, i);
  }

  /** A None in front of a model swallows the printed instance, so reading it back fails to rebuild it. */
  lemma NoneFirstLosesModel(m: Model, x: Value)
    requires HasType(x, ModelT(m))
    ensures HasType(x, UnionT([NoneT, ModelT(m)]))
    ensures Coerce(Dump(x), UnionT([NoneT, ModelT(m)])) == Some(Dump(x)) && Dump(x) != x
  {
    var args := [NoneT, ModelT(m)];
    assert HasType(x, args[1]);
    PrintedFields(x, m, "");
    assert Coerce(Dump(x), NoneT) == Some(Dump(x));
    assert CoerceUnion(Dump(x), args) == Coerce(Dump(x), args[0]);
    assert Coerce(Dump(x), UnionT(args)) == CoerceUnion(Dump(x), args);
  }

  // ----- what the schema accepts is parsed -----

  predicate FloatFree(t: Type)
    decreases t
  {
    match t
    case FloatT => false
    case ListT(elem) => FloatFree(elem)
    case UnionT(args) => forall i :: 0 <= i < |args| ==> FloatFree(args[i])
    case ModelT(m) => forall i :: 0 <= i < |m.fields| ==> FloatFree(m.fields[i].ty)
    case _ => true
  }

  /** Field names differ, and every default has the type of its field. */
  predicate WellDeclared(t: Type)
    decreases t
  {
    match t
    case ListT(elem) => WellDeclared(elem)
    case UnionT(args) => forall i :: 0 <= i < |args| ==> WellDeclared(args[i])
    case ModelT(m) =>
      NamesDiffer(m.fields) &&
      forall i :: 0 <= i < |m.fields| ==>
        WellDeclared(m.fields[i].ty) &&
        (m.fields[i].default.Some? ==> Coerce(m.fields[i].default.value, m.fields[i].ty).Some?)
    case _ => true
  }

  lemma BoundsOnlyNarrow(v: Value, t: Type, meta: Meta)
    requires Accepts(v, WithMeta(Compile(t), meta))
    ensures Accepts(v, Compile(t))
  {
    match t {
      case UnionT(args) => UnionIgnoresBounds(v, args, meta);
      case NoneT =>
      case AnyT =>
      case ListT(elem) => MetaOnLists(v, elem, meta);
      case DictT(_) => ObjectIgnoresBounds(v, Compile(t), meta);
      case ModelT(m) =>
        assert Compile(t) == CompileModel(m);
        ObjectIgnoresBounds(v, Compile(t), meta);
      case LiteralT(consts) =>
        LiteralBounds(v, consts, meta);
      case _ => MetaOnScalars(v, Compile(t), meta);
    }
  }

  lemma LiteralBounds(v: Value, consts: seq<Atom>, meta: Meta)
    requires Accepts(v, WithMeta(Compile(LiteralT(consts)), meta))
    ensures Accepts(v, Compile(LiteralT(consts)))
  {
    var s := Compile(LiteralT(consts));
    assert s.oneOf == Some(consts) && OneOf(v, consts);
  }

  lemma {:induction false} ItemsTaken(items: seq<Value>, elem: Type)
    requires forall i :: 0 <= i < |items| ==> Coerce(items[i], elem).Some?
    ensures CoerceItems(items, elem).Some? && CoerceItems(items, elem).value.List?
  {
    if items != [] {
      ItemsTaken(items[..|items| - 1], elem);
    }
  }

  lemma {:induction false} UnionTaken(v: Value, args: seq<Type>, i: nat)
    requires i < |args| && Coerce(v, args[i]).Some?
    ensures CoerceUnion(v, args).Some?
  {
    if i > 0 {
      UnionTaken(v, args[1..], i - 1);
    }
  }

  lemma {:induction false} FieldsTaken(entries: seq<(string, Value)>, fields: seq<Field>)
    requires forall i :: 0 <= i < |fields| ==>
      var source := FieldSource(entries, fields[i]);
      source.Some? && Coerce(source.value, fields[i].ty).Some?
    ensures CoerceFields(entries, fields).Some?
  {
    if fields != [] {
      FieldsTaken(entries, fields[..|fields| - 1]);
    }
  }

  /** Every payload the generated schema accepts is parsed, for float-free annotations with well-typed defaults. */
  lemma {:induction false} AcceptedIsParsed(v: Value, t: Type)
    requires FloatFree(t) && WellDeclared(t)
    requires Accepts(v, Compile(t))
    ensures Coerce(v, t).Some?
    decreases t, 0
  {
    match t {
      case LiteralT(consts) => LiteralSchema(v, consts);
      case EnumT(name, members) => EnumSchema(v, name, members);
      case DictT(elem) => DictSchema(v, elem);
      case ListT(elem) => AcceptedItems(v, elem);
      case UnionT(args) => AcceptedUnion(v, t);
      case ModelT(m) => AcceptedModel(v, m);
      case _ =>
    }
  }

  lemma {:induction false} AcceptedItems(v: Value, elem: Type)
    requires FloatFree(elem) && WellDeclared(elem) && Accepts(v, Compile(ListT(elem)))
    ensures Coerce(v, ListT(elem)).Some?
    decreases elem, 1
  {
    assert Compile(ListT(elem)) != EMPTY;
    forall i | 0 <= i < |v.items|
      ensures Coerce(v.items[i], elem).Some?
    {
      AcceptedIsParsed(v.items[i], elem);
    }
    ItemsTaken(v.items, elem);
  }

  lemma {:induction false} AcceptedUnion(v: Value, t: Type)
    requires t.UnionT? && FloatFree(t) && WellDeclared(t) && Accepts(v, Compile(t))
    ensures Coerce(v, t).Some?
    decreases t.args
  {
    var branches := Compile(t).anyOf.branches;
    var i :| 0 <= i < |branches| && Accepts(v, branches[i]);
    assert branches[i] == CompileMember(t.args[i]);
    if !t.args[i].NoneT? {
      AcceptedIsParsed(v, t.args[i]);
    }
    UnionTaken(v, t.args, i);
  }

  lemma {:induction false} AcceptedModel(v: Value, m: Model)
    requires FloatFree(ModelT(m)) && WellDeclared(ModelT(m)) && Accepts(v, Compile(ModelT(m)))
    ensures Coerce(v, ModelT(m)).Some?
    decreases m, 1
  {
    var s := CompileModel(m);
    assert Compile(ModelT(m)) == s && v.Dict?;
    ModelShape(v, m);
    forall i | 0 <= i < |m.fields|
      ensures var source := FieldSource(v.entries, m.fields[i]);
        source.Some? && Coerce(source.value, m.fields[i].ty).Some?
    {
      FirstPosition(m.fields, i);
      AcceptedField(v, m, i);
    }
    FieldsTaken(v.entries, m.fields);
    assert Coerce(v, ModelT(m)) == CoerceModel(v, m);
  }

  /** The first field of a name is read from the first entry of that name, which its schema has accepted. */
  lemma {:induction false} AcceptedField(v: Value, m: Model, i: nat)
    requires v.Dict? && i < |m.fields| && FloatFree(ModelT(m)) && WellDeclared(ModelT(m))
    requires m.fields[i].default.None? ==> HasKey(v.entries, m.fields[i].name)
    requires forall p :: 0 <= p < |v.entries| ==> EntryFits(v.entries[p], CompileModel(m))
    requires FieldIndex(m.fields, m.fields[i].name) == i
    ensures var source := FieldSource(v.entries, m.fields[i]);
      source.Some? && Coerce(source.value, m.fields[i].ty).Some?
    decreases m, 0
  {
    var f := m.fields[i];
    var p := IndexOf(v.entries, f.name);
    if p >= 0 {
      PropertyIndex(m, f.name);
      assert EntryFits(v.entries[p], CompileModel(m));
      assert CompileModel(m).properties[i].1 == CompileField(f);
      BoundsOnlyNarrow(v.entries[p].1, f.ty, f.meta);
      AcceptedIsParsed(v.entries[p].1, f.ty);
    }
  }

  /** Floats are the one gap: the schema takes an integer where parsing wants a float. */
  lemma FloatGap(i: int)
    ensures Accepts(Lit(Int(i)), Compile(FloatT)) && Coerce(Lit(Int(i)), FloatT).None?
  {
  }
}
