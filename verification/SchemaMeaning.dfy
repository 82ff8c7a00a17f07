/** Compiling an annotation to a schema preserves its meaning. */
module SchemaMeaning {
  import opened Wrappers
  import opened SchemaValidation
  import opened SchemaTermination
  import opened PydanticCompat

  // ----- constants -----

  predicate AcceptsConstants(v: Value, consts: seq<Atom>) {
    OneOf(v, consts) && (consts != [] ==> !consts[0].Null? && InstanceOf(v, consts[0]))
  }

  lemma LiteralSchema(v: Value, consts: seq<Atom>)
    ensures Accepts(v, Compile(LiteralT(consts))) <==> AcceptsConstants(v, consts)
  {
    var s := Compile(LiteralT(consts));
    assert s != EMPTY && s.oneOf == Some(consts);
  }

  lemma SameClass(v: Value, a: Atom, b: Atom)
    requires Same(v, a) && InstanceOf(Lit(a), b) && !(b.Int? && a.Bool?)
    ensures InstanceOf(v, a) <==> InstanceOf(v, b) || (v.Lit? && v.atom == a)
    ensures InstanceOf(v, b) ==> InstanceOf(v, a)
  {
  }

  lemma LiteralMeaning(v: Value, consts: seq<Atom>)
    requires LiteralExact(consts)
    ensures AcceptsConstants(v, consts) <==> OneOfTyped(v, consts)
  {
    if AcceptsConstants(v, consts) {
      var i :| 0 <= i < |consts| && Same(v, consts[i]);
      if consts[0].Int? && consts[i].Bool? {
        var n := Int(if consts[i].b then 1 else 0);
        var j :| 0 <= j < |consts| && consts[j] == n;
        assert Same(v, consts[j]) && InstanceOf(v, consts[j]);
      } else {
        SameClass(v, consts[i], consts[0]);
      }
    }
    if OneOfTyped(v, consts) {
      var i :| 0 <= i < |consts| && Same(v, consts[i]) && InstanceOf(v, consts[i]);
      assert InstanceOf(Lit(consts[i]), consts[0]);
      assert InstanceOf(v, consts[0]);
    }
  }

  /** The schema of a literal is exact precisely when its constants share the class of the first. */
  lemma LiteralExactness(consts: seq<Atom>)
    ensures (forall v :: Accepts(v, Compile(LiteralT(consts))) <==> Inhabits(v, LiteralT(consts))) <==> LiteralExact(consts)
  {
    if LiteralExact(consts) {
      forall v
        ensures Accepts(v, Compile(LiteralT(consts))) <==> Inhabits(v, LiteralT(consts))
      {
        LiteralSchema(v, consts);
        LiteralMeaning(v, consts);
      }
    } else if consts[0].Null? {
      var v := Lit(Null);
      LiteralSchema(v, consts);
      assert Same(v, consts[0]) && InstanceOf(v, consts[0]);
      assert Inhabits(v, LiteralT(consts)) && !Accepts(v, Compile(LiteralT(consts)));
    } else if i :| 0 <= i < |consts| && !InstanceOf(Lit(consts[i]), consts[0]) {
      var v := Lit(consts[i]);
      LiteralSchema(v, consts);
      assert Same(v, consts[i]) && InstanceOf(v, consts[i]);
      assert Inhabits(v, LiteralT(consts)) && !Accepts(v, Compile(LiteralT(consts)));
    } else {
      var i :| 0 <= i < |consts| && consts[0].Int? && consts[i].Bool? && Int(if consts[i].b then 1 else 0) !in consts;
      var v := Lit(Int(if consts[i].b then 1 else 0));
      LiteralSchema(v, consts);
      assert Same(v, consts[i]);
      assert Accepts(v, Compile(LiteralT(consts))) && !Inhabits(v, LiteralT(consts));
    }
  }

  lemma EnumSchema(v: Value, name: string, members: seq<Atom>)
    ensures Accepts(v, Compile(EnumT(name, members))) <==> OneOf(v, members) && v.Lit? && v.atom.Str?
  {
    var s := Compile(EnumT(name, members));
    assert s != EMPTY && s.oneOf == Some(members);
  }

  /** The schema of an enum is exact precisely when all its values are strings. */
  lemma EnumExactness(name: string, members: seq<Atom>)
    ensures (forall v :: Accepts(v, Compile(EnumT(name, members))) <==> Inhabits(v, EnumT(name, members))) <==> AllStrings(members)
  {
    if AllStrings(members) {
      forall v
        ensures Accepts(v, Compile(EnumT(name, members))) <==> Inhabits(v, EnumT(name, members))
      {
        EnumSchema(v, name, members);
        if OneOf(v, members) {
          var i :| 0 <= i < |members| && Same(v, members[i]);
          assert InstanceOf(v, members[i]);
        }
      }
    } else {
      var i :| 0 <= i < |members| && !members[i].Str?;
      var v := Lit(members[i]);
      EnumSchema(v, name, members);
      assert Same(v, members[i]) && InstanceOf(v, members[i]);
      assert Inhabits(v, EnumT(name, members)) && !Accepts(v, Compile(EnumT(name, members)));
    }
  }

  // ----- dictionaries, None, bounds -----

  lemma DictSchema(v: Value, elem: Type)
    ensures Accepts(v, Compile(DictT(elem))) <==> v.Dict?
  {
    assert Compile(DictT(elem)) != EMPTY;
    if v.Dict? {
      assert ShapeFits(v, Compile(DictT(elem)));
    }
  }

  ghost predicate Universal(t: Type) {
    forall x :: Inhabits(x, t)
  }

  ghost predicate SchemaIsExact(t: Type) {
    forall v :: Accepts(v, Compile(t)) <==> Inhabits(v, t)
  }

  lemma DictOf(x: Value, elem: Type)
    requires !Inhabits(x, elem)
    ensures var v := Dict([("key", x)]); Accepts(v, Compile(DictT(elem))) && !Inhabits(v, DictT(elem))
  {
    var v := Dict([("key", x)]);
    DictSchema(v, elem);
    assert !Inhabits(v.entries[0].1, elem);
  }

  /** A dictionary schema ignores the value type, so it is exact precisely when every value has that type. */
  lemma DictExactness(elem: Type)
    ensures SchemaIsExact(DictT(elem)) <==> Universal(elem)
  {
    if Universal(elem) {
      forall v
        ensures Accepts(v, Compile(DictT(elem))) <==> Inhabits(v, DictT(elem))
      {
        DictSchema(v, elem);
      }
    } else {
      var x :| !Inhabits(x, elem);
      DictOf(x, elem);
    }
  }

  /** Outside a union the annotation None constrains nothing. */
  lemma BareNoneAcceptsAll(v: Value)
    ensures Accepts(v, Compile(NoneT)) && (Inhabits(v, NoneT) <==> v == Lit(Null))
  {
  }

  /** Bounds on a union have no effect. */
  lemma UnionIgnoresBounds(v: Value, args: seq<Type>, meta: Meta)
    ensures Accepts(v, WithMeta(Compile(UnionT(args)), meta)) <==> Accepts(v, Compile(UnionT(args)))
  {
  }

  /** A minimum length on a string has no effect. */
  lemma StringIgnoresLength(v: Value, n: int)
    ensures Accepts(v, WithMeta(Compile(StrT), Meta(Some(n), None, None))) <==> Inhabits(v, StrT)
  {
  }

  lemma MetaOnLists(v: Value, elem: Type, meta: Meta)
    ensures Accepts(v, WithMeta(Compile(ListT(elem)), meta)) <==> Accepts(v, Compile(ListT(elem))) && MeetsMeta(v, meta)
  {
    var s, m := Compile(ListT(elem)), WithMeta(Compile(ListT(elem)), meta);
    assert s != EMPTY && m != EMPTY && m.items == s.items;
  }

  /** Bounds on a dictionary or model schema have no effect. */
  lemma ObjectIgnoresBounds(v: Value, s: Schema, meta: Meta)
    requires s.ty == Some(ObjectType) && s.anyOf.NoBranches? && s.oneOf.None?
    ensures Accepts(v, WithMeta(s, meta)) <==> Accepts(v, s)
  {
    var m := WithMeta(s, meta);
    if v.Dict? {
      assert ShapeFits(v, m) == ShapeFits(v, s);
      forall i | 0 <= i < |v.entries|
        ensures EntryFits(v.entries[i], m) == EntryFits(v.entries[i], s)
      {
      }
    }
  }

  lemma MetaOnScalars(v: Value, s: Schema, meta: Meta)
    requires s.anyOf.NoBranches? && s.minimum.None? && s.maximum.None?
    requires s.ty.None? || s.ty.value in {StringType, IntegerType, NumberType, BooleanType}
    ensures Accepts(v, WithMeta(s, meta)) <==>
      && Accepts(v, s)
      && (meta.ge.Some? && IsNumber(v) ==> NumberOf(v) >= meta.ge.value)
      && (meta.le.Some? && IsNumber(v) ==> NumberOf(v) <= meta.le.value)
  {
  }

  /** The part of the bounds that the schema enforces. */
  predicate MeetsEnforced(v: Value, t: Type, meta: Meta) {
    if t.UnionT? then true
    else if t.ListT? then MeetsMeta(v, meta)
    else MeetsMeta(v, meta.(minLength := None))
  }

  /** Whatever the bounds, the schema enforces exactly that part. */
  lemma EnforcedBounds(v: Value, t: Type, meta: Meta)
    requires !t.NoneT? && (t.LiteralT? ==> LiteralExact(t.consts))
    ensures Accepts(v, WithMeta(Compile(t), meta)) <==> Accepts(v, Compile(t)) && MeetsEnforced(v, t, meta)
  {
    match t {
      case UnionT(args) => UnionIgnoresBounds(v, args, meta);
      case ListT(elem) => MetaOnLists(v, elem, meta);
      case DictT(_) => BoundsOnObjects(v, t, meta);
      case ModelT(_) => BoundsOnObjects(v, t, meta);
      case _ => MetaOnScalars(v, Compile(t), meta);
    }
  }

  lemma BoundsOnObjects(v: Value, t: Type, meta: Meta)
    requires t.DictT? || t.ModelT?
    ensures Accepts(v, WithMeta(Compile(t), meta)) <==> Accepts(v, Compile(t)) && MeetsEnforced(v, t, meta)
  {
    if t.ModelT? {
      assert Compile(t) == CompileModel(t.model);
    }
    ObjectIgnoresBounds(v, Compile(t), meta);
    if Accepts(v, Compile(t)) {
      assert v.Dict?;
    }
  }

  lemma MetaMeaning(v: Value, t: Type, meta: Meta)
    requires MetaEnforced(t, meta) && !t.NoneT?
    requires t.LiteralT? ==> LiteralExact(t.consts)
    ensures Accepts(v, WithMeta(Compile(t), meta)) <==> Accepts(v, Compile(t)) && MeetsMeta(v, meta)
  {
    EnforcedBounds(v, t, meta);
    if t.UnionT? {
      assert MeetsMeta(v, meta);
    } else if Accepts(v, Compile(t)) && meta.minLength.Some? && !t.ListT? {
      assert !v.List?;
    }
  }

  // ----- models -----

  ghost predicate RequiredField(fields: seq<Field>, name: string) {
    exists i :: 0 <= i < |fields| && fields[i].default.None? && fields[i].name == name
  }

  lemma {:induction false} RequiredNamesAre(fields: seq<Field>, name: string)
    ensures name in RequiredNames(fields) <==> RequiredField(fields, name)
  {
    if fields != [] {
      var n := |fields| - 1;
      RequiredNamesAre(fields[..n], name);
      if i :| 0 <= i < |fields| && fields[i].default.None? && fields[i].name == name {
        if i < n {
          assert fields[..n][i] == fields[i];
        }
      }
    }
  }

  lemma RequiredMeaning(fields: seq<Field>, entries: seq<(string, Value)>)
    ensures (forall i :: 0 <= i < |RequiredNames(fields)| ==> HasKey(entries, RequiredNames(fields)[i])) <==>
      (forall i :: 0 <= i < |fields| && fields[i].default.None? ==> HasKey(entries, fields[i].name))
  {
    var names := RequiredNames(fields);
    forall i | 0 <= i < |names|
      ensures RequiredField(fields, names[i])
    {
      RequiredNamesAre(fields, names[i]);
    }
    forall i | 0 <= i < |fields| && fields[i].default.None?
      ensures fields[i].name in names
    {
      RequiredNamesAre(fields, fields[i].name);
    }
  }

  /** Properties and fields are found at the same position. */
  lemma PropertyIndex(m: Model, key: string)
    ensures IndexOf(CompileModel(m).properties, key) == FieldIndex(m.fields, key)
  {
    var properties := CompileModel(m).properties;
    var p, k := IndexOf(properties, key), FieldIndex(m.fields, key);
    assert p >= 0 ==> properties[p].0 == m.fields[p].name;
    assert k >= 0 ==> properties[k].0 == m.fields[k].name;
  }

  lemma ModelShape(v: Value, m: Model)
    requires v.Dict?
    ensures ShapeFits(v, CompileModel(m)) <==>
      && (forall i :: 0 <= i < |m.fields| && m.fields[i].default.None? ==> HasKey(v.entries, m.fields[i].name))
      && (m.extra == Forbid ==> forall i :: 0 <= i < |v.entries| ==> FieldIndex(m.fields, v.entries[i].0) >= 0)
  {
    var s := CompileModel(m);
    RequiredMeaning(m.fields, v.entries);
    forall i | 0 <= i < |v.entries|
      ensures HasKey(s.properties, v.entries[i].0) <==> FieldIndex(m.fields, v.entries[i].0) >= 0
    {
      PropertyIndex(m, v.entries[i].0);
    }
  }

  // ----- all annotations -----

  /** For a faithful annotation the compiled schema accepts exactly the values that inhabit it. */
  lemma {:induction false} MeaningPreserved(v: Value, t: Type)
    requires Faithful(t)
    ensures Accepts(v, Compile(t)) <==> Inhabits(v, t)
    decreases t, 2
  {
    match t {
      case LiteralT(consts) =>
        ConstantMeaning(v, t);
      case EnumT(name, members) =>
        ConstantMeaning(v, t);
      case ListT(elem) =>
        ListMeaning(v, t);
      case DictT(elem) =>
        DictSchema(v, elem);
      case UnionT(args) =>
        UnionMeaning(v, t);
      case ModelT(model) =>
        ModelMeaning(v, t);
      case _ =>
    }
  }

  lemma NullSchema(v: Value)
    ensures Accepts(v, Typed(NullType)) <==> v == Lit(Null)
  {
  }

  lemma ConstantMeaning(v: Value, t: Type)
    requires (t.LiteralT? || t.EnumT?) && Faithful(t)
    ensures Accepts(v, Compile(t)) <==> Inhabits(v, t)
  {
    if t.LiteralT? {
      LiteralSchema(v, t.consts);
      LiteralMeaning(v, t.consts);
    } else {
      EnumExactness(t.name, t.members);
    }
  }

  lemma {:induction false} ListMeaning(v: Value, t: Type)
    requires t.ListT? && Faithful(t)
    ensures Accepts(v, Compile(t)) <==> Inhabits(v, t)
    decreases t, 1
  {
    if v.List? {
      forall i | 0 <= i < |v.items| {
        MeaningPreserved(v.items[i], t.elem);
      }
    }
  }

  lemma {:induction false} UnionMeaning(v: Value, t: Type)
    requires t.UnionT? && Faithful(t)
    ensures Accepts(v, Compile(t)) <==> Inhabits(v, t)
    decreases t, 1
  {
    var branches := Compile(t).anyOf.branches;
    forall i | 0 <= i < |t.args|
      ensures Accepts(v, branches[i]) <==> Inhabits(v, t.args[i])
    {
      assert branches[i] == CompileMember(t.args[i]);
      if t.args[i].NoneT? {
        NullSchema(v);
      } else {
        MeaningPreserved(v, t.args[i]);
      }
    }
  }

  lemma {:induction false} FieldMeaning(v: Value, f: Field)
    requires Faithful(f.ty) && MetaEnforced(f.ty, f.meta)
    ensures Accepts(v, CompileField(f)) <==> Inhabits(v, f.ty) && MeetsMeta(v, f.meta)
    decreases f
  {
    MeaningPreserved(v, f.ty);
    MetaMeaning(v, f.ty, f.meta);
  }

  lemma {:induction false} ModelMeaning(v: Value, t: Type)
    requires t.ModelT? && Faithful(t)
    ensures Accepts(v, Compile(t)) <==> Inhabits(v, t)
    decreases t, 1
  {
    var m := t.model;
    var s := CompileModel(m);
    if v.Dict? {
      ModelShape(v, m);
      forall i | 0 <= i < |v.entries|
        ensures var k := FieldIndex(m.fields, v.entries[i].0);
          EntryFits(v.entries[i], s) <==>
          (k >= 0 ==> Inhabits(v.entries[i].1, m.fields[k].ty) && MeetsMeta(v.entries[i].1, m.fields[k].meta))
      {
        PropertyIndex(m, v.entries[i].0);
        var k := FieldIndex(m.fields, v.entries[i].0);
        if k >= 0 {
          FieldMeaning(v.entries[i].1, m.fields[k]);
        }
      }
    }
  }

  lemma {:induction false} CompiledIsRefFree(t: Type)
    ensures RefFree(Compile(t)) && RefFree(CompileMember(t))
    decreases t
  {
    match t {
      case ListT(elem) => CompiledIsRefFree(elem);
      case UnionT(args) =>
        forall i | 0 <= i < |args| {
          CompiledIsRefFree(args[i]);
        }
      case ModelT(m) =>
        forall i | 0 <= i < |m.fields|
          ensures RefFree(CompileModel(m).properties[i].1)
        {
          CompiledIsRefFree(m.fields[i].ty);
        }
      case _ =>
    }
  }

  lemma NoDefsAcyclic()
    ensures Acyclic(map[])
  {
    forall names
      ensures !Cycle(map[], names)
    {
      if |names| > 1 {
        assert !Link(map[], names[0], names[0 + 1]);
      }
    }
  }

  /** The promise of the compiler and the interpreter together: the interpreter ends, and finds no errors exactly for inhabitants. */
  lemma CompilerCorrect(v: Value, t: Type)
    requires Faithful(t)
    ensures Ends(v, Compile(t), map[])
    ensures forall depth :: EndsBy(v, Compile(t), map[], depth) ==>
      (Errors(v, Compile(t), [], map[], depth).value == [] <==> Inhabits(v, t))
  {
    NoDefsAcyclic();
    TerminationIsExact(map[]);
    CompiledIsRefFree(t);
    forall depth | EndsBy(v, Compile(t), map[], depth)
      ensures Errors(v, Compile(t), [], map[], depth).value == [] <==> Inhabits(v, t)
    {
      ErrorsMeanRejection(v, Compile(t), [], map[], depth);
      MeaningPreserved(v, t);
    }
  }

  // ----- when no inhabitant is rejected -----

  /** Annotations whose literals and enums reject none of their own constants. */
  predicate ConstantsSafe(t: Type)
    decreases t
  {
    match t
    case LiteralT(consts) =>
      consts == [] || (!consts[0].Null? && forall i :: 0 <= i < |consts| ==> InstanceOf(Lit(consts[i]), consts[0]))
    case EnumT(_, members) => AllStrings(members)
    case ListT(elem) => ConstantsSafe(elem)
    case UnionT(args) => forall i :: 0 <= i < |args| ==> ConstantsSafe(args[i])
    case ModelT(model) => forall i :: 0 <= i < |model.fields| ==> ConstantsSafe(model.fields[i].ty)
    case _ => true
  }

  lemma MetaOnlyNarrows(v: Value, t: Type, meta: Meta)
    requires Accepts(v, Compile(t)) && MeetsMeta(v, meta)
    ensures Accepts(v, WithMeta(Compile(t), meta))
  {
    var s, m := Compile(t), WithMeta(Compile(t), meta);
    if t.UnionT? || t.NoneT? {
    } else if s.ty == Some(ArrayType) {
      assert v.List? && m.items == s.items;
    } else if s.ty == Some(ObjectType) {
      assert ShapeFits(v, m) == ShapeFits(v, s);
      forall i | 0 <= i < |v.entries|
        ensures EntryFits(v.entries[i], m) == EntryFits(v.entries[i], s)
      {
      }
    }
  }

  /**
    Where constants are safe no inhabitant is rejected, whatever bounds, value types of
    dictionaries or bare Nones the annotation has.
   */
  lemma {:induction false} NeverTooStrict(v: Value, t: Type)
    requires ConstantsSafe(t) && Inhabits(v, t)
    ensures Accepts(v, Compile(t)) && Accepts(v, CompileMember(t))
    decreases t, 1
  {
    match t {
      case LiteralT(consts) =>
        LiteralNotTooStrict(v, consts);
      case EnumT(name, members) =>
        EnumExactness(name, members);
      case ListT(elem) =>
        forall i | 0 <= i < |v.items| {
          NeverTooStrict(v.items[i], elem);
        }
      case DictT(elem) =>
        DictSchema(v, elem);
      case UnionT(args) =>
        var i :| 0 <= i < |args| && Inhabits(v, args[i]);
        NeverTooStrict(v, args[i]);
        assert Accepts(v, Compile(t).anyOf.branches[i]);
      case ModelT(m) =>
        ModelNotTooStrict(v, t);
      case _ =>
    }
  }

  lemma LiteralNotTooStrict(v: Value, consts: seq<Atom>)
    requires ConstantsSafe(LiteralT(consts)) && Inhabits(v, LiteralT(consts))
    ensures Accepts(v, Compile(LiteralT(consts)))
  {
    LiteralSchema(v, consts);
    var i :| 0 <= i < |consts| && Same(v, consts[i]) && InstanceOf(v, consts[i]);
    assert InstanceOf(Lit(consts[i]), consts[0]);
  }

  lemma {:induction false} ModelNotTooStrict(v: Value, t: Type)
    requires t.ModelT? && ConstantsSafe(t) && Inhabits(v, t)
    ensures Accepts(v, Compile(t))
    decreases t, 0
  {
    var m := t.model;
    ModelShape(v, m);
    forall i | 0 <= i < |v.entries|
      ensures EntryFits(v.entries[i], CompileModel(m))
    {
      PropertyIndex(m, v.entries[i].0);
      var k := FieldIndex(m.fields, v.entries[i].0);
      if k >= 0 {
        NeverTooStrict(v.entries[i].1, m.fields[k].ty);
        MetaOnlyNarrows(v.entries[i].1, m.fields[k].ty, m.fields[k].meta);
      }
    }
  }
}
