/**
  Exactly when the schema of an annotation is exact, kind by kind: lists, models, unions and
  bounds; and exactly when it rejects none of the annotation's own values.
 */
module SchemaExactness {
  import opened Wrappers
  import opened SchemaValidation
  import opened PydanticCompat
  import opened SchemaMeaning

  // ----- lists and unions -----

  lemma ListSchema(v: Value, elem: Type)
    ensures Accepts(v, Compile(ListT(elem))) <==> v.List? && forall i :: 0 <= i < |v.items| ==> Accepts(v.items[i], Compile(elem))
  {
    assert Compile(ListT(elem)) != EMPTY;
  }

  lemma SingletonList(x: Value, elem: Type)
    ensures Accepts(List([x]), Compile(ListT(elem))) <==> Accepts(x, Compile(elem))
    ensures Inhabits(List([x]), ListT(elem)) <==> Inhabits(x, elem)
  {
    SingletonAccepted(x, elem);
    assert List([x]).items[0] == x;
  }

  lemma SingletonAccepted(x: Value, elem: Type)
    ensures Accepts(List([x]), Compile(ListT(elem))) <==> Accepts(x, Compile(elem))
  {
    ListSchema(List([x]), elem);
    assert List([x]).items[0] == x;
  }

  /** The schema of a list is exact precisely when that of its items is. */
  lemma ListExactness(elem: Type)
    ensures SchemaIsExact(ListT(elem)) <==> SchemaIsExact(elem)
  {
    if SchemaIsExact(elem) {
      forall v
        ensures Accepts(v, Compile(ListT(elem))) <==> Inhabits(v, ListT(elem))
      {
        ListSchema(v, elem);
      }
    } else {
      var x :| Accepts(x, Compile(elem)) != Inhabits(x, elem);
      SingletonList(x, elem);
      assert Accepts(List([x]), Compile(ListT(elem))) != Inhabits(List([x]), ListT(elem));
    }
  }

  ghost predicate MemberIsExact(t: Type) {
    t.NoneT? || SchemaIsExact(t)
  }

  lemma UnionSchema(v: Value, args: seq<Type>)
    ensures Accepts(v, Compile(UnionT(args))) <==> exists i :: 0 <= i < |args| && Accepts(v, CompileMember(args[i]))
  {
    var s := Compile(UnionT(args));
    assert s != EMPTY;
    assert forall i :: 0 <= i < |args| ==> s.anyOf.branches[i] == CompileMember(args[i]);
    if i :| 0 <= i < |args| && Accepts(v, CompileMember(args[i])) {
      assert Accepts(v, s.anyOf.branches[i]);
    }
  }

  /** A union of members with exact schemas, or None, has an exact schema. */
  lemma UnionOfExact(args: seq<Type>)
    requires forall i :: 0 <= i < |args| ==> MemberIsExact(args[i])
    ensures SchemaIsExact(UnionT(args))
  {
    forall v
      ensures Accepts(v, Compile(UnionT(args))) <==> Inhabits(v, UnionT(args))
    {
      UnionSchema(v, args);
      forall i | 0 <= i < |args|
        ensures Accepts(v, CompileMember(args[i])) <==> Inhabits(v, args[i])
      {
        assert MemberIsExact(args[i]);
        NullSchema(v);
      }
    }
  }

  /** It can be exact without that, when one member takes what is wrong with another. */
  lemma UnionMayHide(elem: Type)
    requires !Universal(elem)
    ensures SchemaIsExact(UnionT([AnyT, DictT(elem)])) && !MemberIsExact(DictT(elem))
  {
    var args := [AnyT, DictT(elem)];
    forall v
      ensures Accepts(v, Compile(UnionT(args))) && Inhabits(v, UnionT(args))
    {
      UnionSchema(v, args);
      assert args[0] == AnyT && Accepts(v, CompileMember(args[0])) && Inhabits(v, args[0]);
    }
    DictExactness(elem);
  }

  // ----- bounds -----

  /** The part of the bounds that the schema leaves out: all of them on a union, lengths on everything but lists. */
  predicate MeetsIgnored(v: Value, t: Type, meta: Meta) {
    if t.UnionT? then MeetsMeta(v, meta)
    else if t.ListT? then true
    else MeetsMeta(v, Meta(meta.minLength, None, None))
  }

  ghost predicate FieldIsExact(t: Type, meta: Meta) {
    forall v :: Accepts(v, WithMeta(Compile(t), meta)) <==> Inhabits(v, t) && MeetsMeta(v, meta)
  }

  lemma ExactIsPlain(t: Type)
    requires SchemaIsExact(t)
    ensures !t.NoneT? && (t.LiteralT? ==> LiteralExact(t.consts))
  {
    assert Accepts(Lit(Bool(true)), Compile(NoneT)) && !Inhabits(Lit(Bool(true)), NoneT);
    if t.LiteralT? {
      LiteralExactness(t.consts);
    }
  }

  /** Beside an exact schema, bounds are exact precisely when every inhabitant meets those the schema leaves out anyway. */
  lemma BoundsExactness(t: Type, meta: Meta)
    requires SchemaIsExact(t)
    ensures FieldIsExact(t, meta) <==>
      forall v :: Inhabits(v, t) && MeetsEnforced(v, t, meta) ==> MeetsIgnored(v, t, meta)
  {
    ExactIsPlain(t);
    forall v
      ensures Accepts(v, WithMeta(Compile(t), meta)) <==> Inhabits(v, t) && MeetsEnforced(v, t, meta)
      ensures MeetsMeta(v, meta) <==> MeetsEnforced(v, t, meta) && MeetsIgnored(v, t, meta)
    {
      EnforcedBounds(v, t, meta);
    }
  }

  /** Bounds on an exact union are exact precisely when every inhabitant meets them. */
  lemma UnionBoundsExactness(args: seq<Type>, meta: Meta)
    requires SchemaIsExact(UnionT(args))
    ensures FieldIsExact(UnionT(args), meta) <==> forall v :: Inhabits(v, UnionT(args)) ==> MeetsMeta(v, meta)
  {
    BoundsExactness(UnionT(args), meta);
  }

  /** A minimum length is exact on a string, and on a dictionary of any values, precisely when it is none. */
  lemma LengthExactness(t: Type, n: int)
    requires t == StrT || t == DictT(AnyT) || t == AnyT
    ensures FieldIsExact(t, Meta(Some(n), None, None)) <==> n <= 0
  {
    var meta := Meta(Some(n), None, None);
    assert SchemaIsExact(t) by {
      if t == DictT(AnyT) {
        DictExactness(AnyT);
      }
    }
    BoundsExactness(t, meta);
    if n > 0 {
      var v := if t == DictT(AnyT) then Dict([]) else Lit(Str(""));
      assert Inhabits(v, t) && MeetsEnforced(v, t, meta) && !MeetsIgnored(v, t, meta);
    }
  }

  // ----- models -----

  ghost predicate FieldTakes(x: Value, f: Field) {
    Inhabits(x, f.ty) && MeetsMeta(x, f.meta)
  }

  ghost predicate Inhabited(f: Field) {
    exists x :: FieldTakes(x, f)
  }

  predicate NamesDistinct(fields: seq<Field>) {
    forall i, j :: 0 <= i < j < |fields| ==> fields[i].name != fields[j].name
  }

  /** The entries of a dictionary that gives some of the fields a value. */
  function Entries(fields: seq<Field>, values: seq<Option<Value>>): seq<(string, Value)>
    requires |fields| == |values|
  {
    if fields == [] then []
    else
      var n := |fields| - 1;
      Entries(fields[..n], values[..n]) + (if values[n].Some? then [(fields[n].name, values[n].value)] else [])
  }

  ghost predicate Listed(entries: seq<(string, Value)>, entry: (string, Value)) {
    exists i :: 0 <= i < |entries| && entries[i] == entry
  }

  lemma {:induction false} EntryOf(fields: seq<Field>, values: seq<Option<Value>>, k: nat)
    requires |fields| == |values| && k < |fields| && values[k].Some?
    ensures Listed(Entries(fields, values), (fields[k].name, values[k].value))
  {
    var n := |fields| - 1;
    var all := Entries(fields, values);
    if k < n {
      EntryOf(fields[..n], values[..n], k);
      var i :| 0 <= i < |Entries(fields[..n], values[..n])| && Entries(fields[..n], values[..n])[i] == (fields[k].name, values[k].value);
      assert all[i] == (fields[k].name, values[k].value);
    } else {
      assert all[|all| - 1] == (fields[k].name, values[k].value);
    }
  }

  lemma {:induction false} FieldOfEntry(fields: seq<Field>, values: seq<Option<Value>>, i: nat) returns (k: nat)
    requires |fields| == |values| && i < |Entries(fields, values)|
    ensures k < |fields| && values[k].Some? && Entries(fields, values)[i] == (fields[k].name, values[k].value)
  {
    var n := |fields| - 1;
    if i < |Entries(fields[..n], values[..n])| {
      k := FieldOfEntry(fields[..n], values[..n], i);
    } else {
      k := n;
    }
  }

  lemma OwnIndex(fields: seq<Field>, k: nat)
    requires NamesDistinct(fields) && k < |fields|
    ensures FieldIndex(fields, fields[k].name) == k
  {
    assert FieldIndex(fields, fields[k].name) >= 0;
  }

  lemma HasKeyExactly(fields: seq<Field>, values: seq<Option<Value>>, k: nat)
    requires |fields| == |values| && NamesDistinct(fields) && k < |fields|
    ensures HasKey(Entries(fields, values), fields[k].name) <==> values[k].Some?
  {
    var entries := Entries(fields, values);
    if values[k].Some? {
      EntryOf(fields, values, k);
    }
    if i :| 0 <= i < |entries| && entries[i].0 == fields[k].name {
      var j := FieldOfEntry(fields, values, i);
      assert j == k;
    }
  }

  /** Every required field has a value, and every value passes. */
  ghost predicate Complete(fields: seq<Field>, values: seq<Option<Value>>, passes: (Value, Field) -> bool)
    requires |fields| == |values|
  {
    && (forall k :: 0 <= k < |fields| && fields[k].default.None? ==> values[k].Some?)
    && (forall k :: 0 <= k < |fields| && values[k].Some? ==> passes(values[k].value, fields[k]))
  }

  lemma InstanceInhabits(m: Model, values: seq<Option<Value>>)
    requires |m.fields| == |values| && NamesDistinct(m.fields)
    ensures Inhabits(Dict(Entries(m.fields, values)), ModelT(m)) <==>
      Complete(m.fields, values, (x, f) => FieldTakes(x, f))
  {
    var entries := Entries(m.fields, values);
    forall i | 0 <= i < |entries|
      ensures FieldIndex(m.fields, entries[i].0) >= 0
    {
      var k := FieldOfEntry(m.fields, values, i);
      OwnIndex(m.fields, k);
    }
    forall k | 0 <= k < |m.fields|
      ensures HasKey(entries, m.fields[k].name) <==> values[k].Some?
    {
      HasKeyExactly(m.fields, values, k);
    }
    if Inhabits(Dict(entries), ModelT(m)) {
      forall k | 0 <= k < |m.fields| && values[k].Some?
        ensures FieldTakes(values[k].value, m.fields[k])
      {
        EntryOf(m.fields, values, k);
        OwnIndex(m.fields, k);
        var i :| 0 <= i < |entries| && entries[i] == (m.fields[k].name, values[k].value);
        assert FieldIndex(m.fields, entries[i].0) == k;
      }
    }
    if Complete(m.fields, values, (x, f) => FieldTakes(x, f)) {
      forall i | 0 <= i < |entries|
        ensures FieldTakes(entries[i].1, m.fields[FieldIndex(m.fields, entries[i].0)])
      {
        var k := FieldOfEntry(m.fields, values, i);
        OwnIndex(m.fields, k);
      }
    }
  }

  ghost predicate FieldAccepts(x: Value, f: Field) {
    Accepts(x, CompileField(f))
  }

  lemma ModelSchema(v: Value, m: Model)
    requires v.Dict?
    ensures Accepts(v, Compile(ModelT(m))) <==>
      && ShapeFits(v, CompileModel(m))
      && forall i :: 0 <= i < |v.entries| ==>
           (FieldIndex(m.fields, v.entries[i].0) >= 0 ==>
             FieldAccepts(v.entries[i].1, m.fields[FieldIndex(m.fields, v.entries[i].0)]))
  {
    var s := CompileModel(m);
    forall i | 0 <= i < |v.entries|
      ensures EntryFits(v.entries[i], s) <==>
        (FieldIndex(m.fields, v.entries[i].0) >= 0 ==>
          FieldAccepts(v.entries[i].1, m.fields[FieldIndex(m.fields, v.entries[i].0)]))
    {
      PropertyIndex(m, v.entries[i].0);
    }
  }

  lemma InstanceAccepted(m: Model, values: seq<Option<Value>>)
    requires |m.fields| == |values| && NamesDistinct(m.fields)
    ensures Accepts(Dict(Entries(m.fields, values)), Compile(ModelT(m))) <==>
      Complete(m.fields, values, (x, f) => FieldAccepts(x, f))
  {
    var entries := Entries(m.fields, values);
    ModelSchema(Dict(entries), m);
    ModelShape(Dict(entries), m);
    forall i | 0 <= i < |entries|
      ensures FieldIndex(m.fields, entries[i].0) >= 0
    {
      var k := FieldOfEntry(m.fields, values, i);
      OwnIndex(m.fields, k);
    }
    forall k | 0 <= k < |m.fields|
      ensures HasKey(entries, m.fields[k].name) <==> values[k].Some?
    {
      HasKeyExactly(m.fields, values, k);
    }
    if Accepts(Dict(entries), Compile(ModelT(m))) {
      forall k | 0 <= k < |m.fields| && values[k].Some?
        ensures FieldAccepts(values[k].value, m.fields[k])
      {
        EntryOf(m.fields, values, k);
        OwnIndex(m.fields, k);
        var i :| 0 <= i < |entries| && entries[i] == (m.fields[k].name, values[k].value);
        assert FieldIndex(m.fields, entries[i].0) == k;
      }
    }
    if Complete(m.fields, values, (x, f) => FieldAccepts(x, f)) {
      forall i | 0 <= i < |entries|
        ensures FieldAccepts(entries[i].1, m.fields[FieldIndex(m.fields, entries[i].0)])
      {
        var k := FieldOfEntry(m.fields, values, i);
        OwnIndex(m.fields, k);
      }
    }
  }

  ghost predicate FieldsAreExact(m: Model) {
    forall k :: 0 <= k < |m.fields| ==> FieldIsExact(m.fields[k].ty, m.fields[k].meta)
  }

  lemma ExactFields(m: Model)
    requires FieldsAreExact(m)
    ensures SchemaIsExact(ModelT(m))
  {
    forall v
      ensures Accepts(v, Compile(ModelT(m))) <==> Inhabits(v, ModelT(m))
    {
      if v.Dict? {
        ModelSchema(v, m);
        ModelShape(v, m);
        forall i | 0 <= i < |v.entries| && FieldIndex(m.fields, v.entries[i].0) >= 0
          ensures var f := m.fields[FieldIndex(m.fields, v.entries[i].0)]; FieldAccepts(v.entries[i].1, f) <==> FieldTakes(v.entries[i].1, f)
        {
          assert FieldIsExact(m.fields[FieldIndex(m.fields, v.entries[i].0)].ty, m.fields[FieldIndex(m.fields, v.entries[i].0)].meta);
        }
      }
    }
  }

  /** A value for every required field. */
  ghost predicate Witnesses(fields: seq<Field>, values: seq<Option<Value>>) {
    && |values| == |fields|
    && forall k :: 0 <= k < |fields| ==>
         (fields[k].default.None? <==> values[k].Some?) && (values[k].Some? ==> FieldTakes(values[k].value, fields[k]))
  }

  lemma {:induction false} RequiredValues(fields: seq<Field>) returns (values: seq<Option<Value>>)
    requires forall k :: 0 <= k < |fields| && fields[k].default.None? ==> Inhabited(fields[k])
    ensures Witnesses(fields, values)
  {
    values := [];
    if fields != [] {
      var n := |fields| - 1;
      var front := RequiredValues(fields[..n]);
      var last: Option<Value> := None;
      if fields[n].default.None? {
        assert Inhabited(fields[n]);
        var x :| FieldTakes(x, fields[n]);
        last := Some(x);
      }
      values := front + [last];
    }
  }

  /** An exact model schema accepts the values its fields take. */
  lemma WitnessesAccepted(m: Model, values: seq<Option<Value>>, k: nat)
    requires NamesDistinct(m.fields) && SchemaIsExact(ModelT(m)) && Witnesses(m.fields, values)
    requires k < |m.fields| && values[k].Some?
    ensures FieldAccepts(values[k].value, m.fields[k])
  {
    InstanceInhabits(m, values);
    InstanceAccepted(m, values);
    assert Inhabits(Dict(Entries(m.fields, values)), ModelT(m));
    assert Complete(m.fields, values, (x, f) => FieldAccepts(x, f));
  }

  lemma FieldOfExact(m: Model, values: seq<Option<Value>>, k: nat, x: Value)
    requires NamesDistinct(m.fields) && SchemaIsExact(ModelT(m)) && Witnesses(m.fields, values) && k < |m.fields|
    ensures FieldAccepts(x, m.fields[k]) <==> FieldTakes(x, m.fields[k])
  {
    var changed := values[k := Some(x)];
    forall j | 0 <= j < |m.fields| && values[j].Some?
      ensures FieldAccepts(values[j].value, m.fields[j])
    {
      WitnessesAccepted(m, values, j);
    }
    InstanceInhabits(m, changed);
    InstanceAccepted(m, changed);
    var v := Dict(Entries(m.fields, changed));
    assert Accepts(v, Compile(ModelT(m))) <==> Inhabits(v, ModelT(m));
    assert changed[k].Some? && changed[k].value == x;
    assert Complete(m.fields, changed, (y, f) => FieldTakes(y, f)) <==> FieldTakes(x, m.fields[k]);
    assert Complete(m.fields, changed, (y, f) => FieldAccepts(y, f)) <==> FieldAccepts(x, m.fields[k]);
  }

  /** Given values for its required fields, the schema of a model is exact precisely when those of its fields are. */
  lemma ModelExactness(m: Model)
    requires NamesDistinct(m.fields)
    requires forall k :: 0 <= k < |m.fields| && m.fields[k].default.None? ==> Inhabited(m.fields[k])
    ensures SchemaIsExact(ModelT(m)) <==> FieldsAreExact(m)
  {
    if FieldsAreExact(m) {
      ExactFields(m);
    }
    if SchemaIsExact(ModelT(m)) {
      var values := RequiredValues(m.fields);
      forall k | 0 <= k < |m.fields|
        ensures FieldIsExact(m.fields[k].ty, m.fields[k].meta)
      {
        forall x
          ensures Accepts(x, WithMeta(Compile(m.fields[k].ty), m.fields[k].meta)) <==> FieldTakes(x, m.fields[k])
        {
          FieldOfExact(m, values, k, x);
        }
      }
    }
  }

  // ----- what is never rejected -----

  /** The schema rejects none of the annotation's own values. */
  ghost predicate NeverRejects(t: Type) {
    forall v :: Inhabits(v, t) ==> Accepts(v, Compile(t))
  }

  /** The schema of a literal rejects none of its values precisely when its constants have the class of the first, which is not None. */
  lemma LiteralNeverRejects(consts: seq<Atom>)
    ensures NeverRejects(LiteralT(consts)) <==> ConstantsSafe(LiteralT(consts))
  {
    var t := LiteralT(consts);
    if ConstantsSafe(t) {
      forall v | Inhabits(v, t)
        ensures Accepts(v, Compile(t))
      {
        NeverTooStrict(v, t);
      }
    } else {
      var i := if consts[0].Null? then 0 else var j :| 0 <= j < |consts| && !InstanceOf(Lit(consts[j]), consts[0]); j;
      var v := Lit(consts[i]);
      LiteralSchema(v, consts);
      assert Same(v, consts[i]) && InstanceOf(v, consts[i]);
      assert Inhabits(v, t) && !Accepts(v, Compile(t));
    }
  }

  /** The schema of an enum rejects none of its values precisely when they are strings. */
  lemma EnumNeverRejects(name: string, members: seq<Atom>)
    ensures NeverRejects(EnumT(name, members)) <==> ConstantsSafe(EnumT(name, members))
  {
    var t := EnumT(name, members);
    if ConstantsSafe(t) {
      EnumExactness(name, members);
    } else {
      var i :| 0 <= i < |members| && !members[i].Str?;
      var v := Lit(members[i]);
      EnumSchema(v, name, members);
      assert Same(v, members[i]) && InstanceOf(v, members[i]);
      assert Inhabits(v, t) && !Accepts(v, Compile(t));
    }
  }

  lemma ListNeverRejects(elem: Type)
    ensures NeverRejects(ListT(elem)) <==> NeverRejects(elem)
  {
    if NeverRejects(elem) {
      forall v | Inhabits(v, ListT(elem))
        ensures Accepts(v, Compile(ListT(elem)))
      {
        ListSchema(v, elem);
      }
    } else {
      var x :| Inhabits(x, elem) && !Accepts(x, Compile(elem));
      SingletonList(x, elem);
      assert Inhabits(List([x]), ListT(elem)) && !Accepts(List([x]), Compile(ListT(elem)));
    }
  }

  ghost predicate FieldNeverRejects(f: Field) {
    forall x :: FieldTakes(x, f) ==> FieldAccepts(x, f)
  }

  ghost predicate FieldsNeverReject(fields: seq<Field>) {
    forall k :: 0 <= k < |fields| ==> FieldNeverRejects(fields[k])
  }

  lemma FieldsEnough(m: Model)
    requires FieldsNeverReject(m.fields)
    ensures NeverRejects(ModelT(m))
  {
    forall v | Inhabits(v, ModelT(m))
      ensures Accepts(v, Compile(ModelT(m)))
    {
      ModelSchema(v, m);
      ModelShape(v, m);
      forall i | 0 <= i < |v.entries| && FieldIndex(m.fields, v.entries[i].0) >= 0
        ensures FieldAccepts(v.entries[i].1, m.fields[FieldIndex(m.fields, v.entries[i].0)])
      {
        assert FieldNeverRejects(m.fields[FieldIndex(m.fields, v.entries[i].0)]);
      }
    }
  }

  /** Beside values for the required fields, what a field takes must be accepted. */
  lemma FieldMustAccept(m: Model, values: seq<Option<Value>>, k: nat, x: Value)
    requires NamesDistinct(m.fields) && NeverRejects(ModelT(m)) && Witnesses(m.fields, values)
    requires k < |m.fields| && FieldTakes(x, m.fields[k])
    ensures FieldAccepts(x, m.fields[k])
  {
    var changed := values[k := Some(x)];
    InstanceInhabits(m, changed);
    InstanceAccepted(m, changed);
    assert Complete(m.fields, changed, (y, f) => FieldTakes(y, f));
    assert Complete(m.fields, changed, (y, f) => FieldAccepts(y, f));
    assert changed[k].Some? && changed[k].value == x;
  }

  /** Given values for its required fields, the schema of a model rejects none of its values precisely when none of its fields' schemas does. */
  lemma ModelNeverRejects(m: Model)
    requires NamesDistinct(m.fields)
    requires forall k :: 0 <= k < |m.fields| && m.fields[k].default.None? ==> Inhabited(m.fields[k])
    ensures NeverRejects(ModelT(m)) <==> FieldsNeverReject(m.fields)
  {
    if FieldsNeverReject(m.fields) {
      FieldsEnough(m);
    }
    if NeverRejects(ModelT(m)) {
      var values := RequiredValues(m.fields);
      forall k | 0 <= k < |m.fields|
        ensures FieldNeverRejects(m.fields[k])
      {
        forall x | FieldTakes(x, m.fields[k])
          ensures FieldAccepts(x, m.fields[k])
        {
          FieldMustAccept(m, values, k, x);
        }
      }
    }
  }

  /**
    Annotations without unions, whose other members may take what one wrongly rejects, and
    whose models have distinct field names, values for their required fields, and no bounds
    beside constants that are not safe, which may shut out what is wrongly rejected.
   */
  ghost predicate Measured(t: Type)
    decreases t
  {
    match t
    case UnionT(_) => false
    case ListT(elem) => Measured(elem)
    case ModelT(model) => NamesDistinct(model.fields) && forall k :: 0 <= k < |model.fields| ==> FieldMeasured(model.fields[k])
    case _ => true
  }

  ghost predicate FieldMeasured(f: Field)
    decreases f
  {
    Measured(f.ty) && (f.meta == NO_META || ConstantsSafe(f.ty)) && (f.default.None? ==> Inhabited(f))
  }

  lemma SafeNeverRejects(t: Type)
    requires ConstantsSafe(t)
    ensures NeverRejects(t)
  {
    forall v | Inhabits(v, t)
      ensures Accepts(v, Compile(t))
    {
      NeverTooStrict(v, t);
    }
  }

  lemma SafeFieldNeverRejects(f: Field)
    requires ConstantsSafe(f.ty)
    ensures FieldNeverRejects(f)
  {
    forall x | FieldTakes(x, f)
      ensures FieldAccepts(x, f)
    {
      NeverTooStrict(x, f.ty);
      MetaOnlyNarrows(x, f.ty, f.meta);
    }
  }

  lemma UnboundedField(f: Field)
    requires f.meta == NO_META
    ensures FieldNeverRejects(f) <==> NeverRejects(f.ty)
  {
    assert CompileField(f) == Compile(f.ty);
    if NeverRejects(f.ty) {
      assert forall x :: FieldTakes(x, f) ==> Inhabits(x, f.ty);
    } else {
      var x :| Inhabits(x, f.ty) && !Accepts(x, Compile(f.ty));
      assert FieldTakes(x, f) && !FieldAccepts(x, f);
    }
  }

  /** For such annotations the condition of `NeverTooStrict` is exact. */
  lemma {:induction false} NeverRejectsExactly(t: Type)
    requires Measured(t)
    ensures NeverRejects(t) <==> ConstantsSafe(t)
    decreases t, 1
  {
    match t {
      case LiteralT(consts) => LiteralNeverRejects(consts);
      case EnumT(name, members) => EnumNeverRejects(name, members);
      case ListT(elem) =>
        ListNeverRejects(elem);
        NeverRejectsExactly(elem);
      case ModelT(model) =>
        forall k | 0 <= k < |model.fields|
          ensures FieldNeverRejects(model.fields[k]) <==> ConstantsSafe(model.fields[k].ty)
          ensures model.fields[k].default.None? ==> Inhabited(model.fields[k])
        {
          assert FieldMeasured(model.fields[k]);
          FieldNeverRejectsExactly(model.fields[k]);
        }
        ModelNeverRejects(model);
      case _ => SafeNeverRejects(t);
    }
  }

  lemma {:induction false} FieldNeverRejectsExactly(f: Field)
    requires FieldMeasured(f)
    ensures FieldNeverRejects(f) <==> ConstantsSafe(f.ty)
    decreases f, 0
  {
    if ConstantsSafe(f.ty) {
      SafeFieldNeverRejects(f);
    } else {
      UnboundedField(f);
      NeverRejectsExactly(f.ty);
    }
  }
}
