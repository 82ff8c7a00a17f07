/** Two input models of the repository, and which of the general results apply to them. */
module IoModels {
  import opened Wrappers
  import opened SchemaValidation
  import opened PydanticCompat
  import opened SchemaMeaning
  import opened ModelCoercion
  import opened ModelRoundTrip

  const TIMEOUT: Field := Field("timeout_sec", IntT, Meta(None, Some(1.0), Some(300.0)), Some(Lit(Int(30))))

  const INSPECT_EXEC: Model := Model("InspectExecPayload", [
    Field("cmd", ListT(StrT), Meta(Some(1), None, None), None),
    Field("cwd", UnionT([StrT, NoneT]), NO_META, Some(Lit(Null))),
    TIMEOUT], Forbid)

  const RUN_PYTHON: Model := Model("RunPythonPayload", [
    Field("argv", ListT(StrT), Meta(Some(1), None, None), None),
    TIMEOUT], Forbid)

  const RUN_COMMAND: Model := Model("RunCommandInput", [
    Field("action", LiteralT([Str("inspect_exec"), Str("run_python")]), NO_META, None),
    Field("payload", UnionT([ModelT(INSPECT_EXEC), ModelT(RUN_PYTHON)]), NO_META, None)], Forbid)

  const BUILD_ARGS: Field := Field("build_args", DictT(StrT), NO_META, Some(Dict([])))

  lemma FieldNamesDiffer()
    ensures "cmd" != "cwd" && "cmd" != "timeout_sec" && "cwd" != "timeout_sec"
    ensures "argv" != "cmd" && "argv" != "cwd" && "argv" != "timeout_sec" && "action" != "payload"
  {
    assert "cmd"[1] == 'm' && "cwd"[1] == 'w';
    assert |"cmd"| == 3 && |"argv"| == 4 && |"timeout_sec"| == 11 && |"action"| == 6 && |"payload"| == 7;
  }

  /** The conditions of the general results, field by field. */
  ghost predicate FieldFits(f: Field) {
    && Faithful(f.ty) && MetaEnforced(f.ty, f.meta) && FloatFree(f.ty) && Exclusive(f.ty) && WellDeclared(f.ty)
    && (f.default.Some? ==> Coerce(f.default.value, f.ty).Some?)
  }

  ghost predicate Fits(t: Type) {
    Faithful(t) && FloatFree(t) && Exclusive(t) && WellDeclared(t)
  }

  lemma ModelFits(m: Model)
    requires NamesDiffer(m.fields) && forall i :: 0 <= i < |m.fields| ==> FieldFits(m.fields[i])
    ensures Fits(ModelT(m))
  {
    forall i | 0 <= i < |m.fields|
      ensures FieldFits(m.fields[i])
    {
    }
  }

  lemma ArgumentsFit(name: string)
    ensures FieldFits(Field(name, ListT(StrT), Meta(Some(1), None, None), None))
  {
  }

  lemma InspectExecFits()
    ensures Fits(ModelT(INSPECT_EXEC))
  {
    FieldNamesDiffer();
    ArgumentsFit("cmd");
    OptionalTakesAll(Lit(Null), [StrT, NoneT], 1);
    assert FieldFits(INSPECT_EXEC.fields[1]);
    assert FieldFits(TIMEOUT);
    ModelFits(INSPECT_EXEC);
  }

  lemma RunPythonFits()
    ensures Fits(ModelT(RUN_PYTHON))
  {
    FieldNamesDiffer();
    ArgumentsFit("argv");
    assert FieldFits(TIMEOUT);
    ModelFits(RUN_PYTHON);
  }

  /** The two payloads exclude each other: the first forbids the `argv` of the second. */
  lemma PayloadsExclude()
    ensures Rejects(ModelT(INSPECT_EXEC), ModelT(RUN_PYTHON))
  {
    FieldNamesDiffer();
    assert RUN_PYTHON.fields[0].name == "argv";
    assert FieldIndex(INSPECT_EXEC.fields, RUN_PYTHON.fields[0].name) < 0;
    assert RejectsModel(INSPECT_EXEC, RUN_PYTHON);
  }

  lemma PayloadFits()
    ensures Fits(UnionT([ModelT(INSPECT_EXEC), ModelT(RUN_PYTHON)]))
  {
    InspectExecFits();
    RunPythonFits();
    PayloadsExclude();
  }

  /** The command input satisfies the conditions of every result. */
  lemma RunCommandFits()
    ensures Fits(ModelT(RUN_COMMAND))
  {
    FieldNamesDiffer();
    PayloadFits();
    assert FieldFits(RUN_COMMAND.fields[0]);
    assert FieldFits(RUN_COMMAND.fields[1]);
    ModelFits(RUN_COMMAND);
  }

  /** So its schema accepts exactly its inhabitants, these are parsed, and instances survive printing and parsing. */
  lemma RunCommandPromise(v: Value, x: Value)
    ensures Accepts(v, Compile(ModelT(RUN_COMMAND))) <==> Inhabits(v, ModelT(RUN_COMMAND))
    ensures Inhabits(v, ModelT(RUN_COMMAND)) ==> Coerce(v, ModelT(RUN_COMMAND)).Some?
    ensures HasType(x, ModelT(RUN_COMMAND)) ==> Coerce(Dump(x), ModelT(RUN_COMMAND)) == Some(x)
  {
    var t := ModelT(RUN_COMMAND);
    RunCommandFits();
    MeaningPreserved(v, t);
    if Accepts(v, Compile(t)) {
      AcceptedIsParsed(v, t);
    }
    if HasType(x, t) {
      RoundTrip(x, t);
    }
  }

  // ----- the command input, spelled out -----

  /** A list of words with at least one of them. */
  ghost predicate Words(v: Value) {
    v.List? && |v.items| >= 1 && forall i :: 0 <= i < |v.items| ==> v.items[i].Lit? && v.items[i].atom.Str?
  }

  ghost predicate Text(v: Value) {
    v.Lit? && v.atom.Str?
  }

  /** A whole number from 1 to 300; a boolean counts as one, so true is a second and false is nothing. */
  ghost predicate Seconds(v: Value) {
    v.Lit? && match v.atom
              case Int(i) => 1 <= i <= 300
              case Bool(b) => b
              case _ => false
  }

  ghost predicate InspectEntry(e: (string, Value)) {
    || (e.0 == "cmd" && Words(e.1))
    || (e.0 == "cwd" && (Text(e.1) || e.1 == Lit(Null)))
    || (e.0 == "timeout_sec" && Seconds(e.1))
  }

  ghost predicate PythonEntry(e: (string, Value)) {
    (e.0 == "argv" && Words(e.1)) || (e.0 == "timeout_sec" && Seconds(e.1))
  }

  ghost predicate InspectPayload(v: Value) {
    v.Dict? && HasKey(v.entries, "cmd") && forall i :: 0 <= i < |v.entries| ==> InspectEntry(v.entries[i])
  }

  ghost predicate PythonPayload(v: Value) {
    v.Dict? && HasKey(v.entries, "argv") && forall i :: 0 <= i < |v.entries| ==> PythonEntry(v.entries[i])
  }

  ghost predicate CommandEntry(e: (string, Value)) {
    || (e.0 == "action" && (e.1 == Lit(Str("inspect_exec")) || e.1 == Lit(Str("run_python"))))
    || (e.0 == "payload" && (InspectPayload(e.1) || PythonPayload(e.1)))
  }

  ghost predicate Command(v: Value) {
    && v.Dict? && HasKey(v.entries, "action") && HasKey(v.entries, "payload")
    && forall i :: 0 <= i < |v.entries| ==> CommandEntry(v.entries[i])
  }

  ghost predicate EntryFits(e: (string, Value), fields: seq<Field>) {
    var k := FieldIndex(fields, e.0);
    k >= 0 && Inhabits(e.1, fields[k].ty) && MeetsMeta(e.1, fields[k].meta)
  }

  lemma WordsFit(v: Value)
    ensures Inhabits(v, ListT(StrT)) && MeetsMeta(v, Meta(Some(1), None, None)) <==> Words(v)
  {
    if Inhabits(v, ListT(StrT)) {
      assert forall i :: 0 <= i < |v.items| ==> Inhabits(v.items[i], StrT);
    }
  }

  lemma SecondsFit(v: Value)
    ensures Inhabits(v, IntT) && MeetsMeta(v, TIMEOUT.meta) <==> Seconds(v)
  {
  }

  lemma OptionalText(v: Value)
    ensures Inhabits(v, UnionT([StrT, NoneT])) <==> Text(v) || v == Lit(Null)
  {
    var args := [StrT, NoneT];
    assert args[0] == StrT && args[1] == NoneT;
  }

  lemma InspectEntryFits(e: (string, Value))
    ensures EntryFits(e, INSPECT_EXEC.fields) <==> InspectEntry(e)
  {
    FieldNamesDiffer();
    WordsFit(e.1);
    OptionalText(e.1);
    SecondsFit(e.1);
    var fields := INSPECT_EXEC.fields;
    assert fields[0].name == "cmd" && fields[1].name == "cwd" && fields[2].name == "timeout_sec";
  }

  lemma PythonEntryFits(e: (string, Value))
    ensures EntryFits(e, RUN_PYTHON.fields) <==> PythonEntry(e)
  {
    FieldNamesDiffer();
    WordsFit(e.1);
    SecondsFit(e.1);
    var fields := RUN_PYTHON.fields;
    assert fields[0].name == "argv" && fields[1].name == "timeout_sec";
  }

  /** What it takes to inhabit a model that forbids unknown entries. */
  lemma ClosedModel(v: Value, m: Model)
    requires m.extra == Forbid
    ensures Inhabits(v, ModelT(m)) <==>
      && v.Dict?
      && (forall i :: 0 <= i < |m.fields| && m.fields[i].default.None? ==> HasKey(v.entries, m.fields[i].name))
      && (forall i :: 0 <= i < |v.entries| ==> EntryFits(v.entries[i], m.fields))
  {
  }

  lemma InspectMeaning(v: Value)
    ensures Inhabits(v, ModelT(INSPECT_EXEC)) <==> InspectPayload(v)
  {
    ClosedModel(v, INSPECT_EXEC);
    assert INSPECT_EXEC.fields[0].name == "cmd";
    if v.Dict? {
      forall i | 0 <= i < |v.entries|
        ensures EntryFits(v.entries[i], INSPECT_EXEC.fields) <==> InspectEntry(v.entries[i])
      {
        InspectEntryFits(v.entries[i]);
      }
    }
  }

  lemma PythonMeaning(v: Value)
    ensures Inhabits(v, ModelT(RUN_PYTHON)) <==> PythonPayload(v)
  {
    ClosedModel(v, RUN_PYTHON);
    assert RUN_PYTHON.fields[0].name == "argv";
    if v.Dict? {
      forall i | 0 <= i < |v.entries|
        ensures EntryFits(v.entries[i], RUN_PYTHON.fields) <==> PythonEntry(v.entries[i])
      {
        PythonEntryFits(v.entries[i]);
      }
    }
  }

  lemma PayloadMeaning(v: Value)
    ensures Inhabits(v, UnionT([ModelT(INSPECT_EXEC), ModelT(RUN_PYTHON)])) <==> InspectPayload(v) || PythonPayload(v)
  {
    InspectMeaning(v);
    PythonMeaning(v);
    var args := [ModelT(INSPECT_EXEC), ModelT(RUN_PYTHON)];
    assert args[0] == ModelT(INSPECT_EXEC) && args[1] == ModelT(RUN_PYTHON);
  }

  lemma ActionMeaning(v: Value)
    ensures Inhabits(v, LiteralT([Str("inspect_exec"), Str("run_python")])) <==>
      v == Lit(Str("inspect_exec")) || v == Lit(Str("run_python"))
  {
    var atoms := [Str("inspect_exec"), Str("run_python")];
    assert atoms[0] == Str("inspect_exec") && atoms[1] == Str("run_python");
  }

  lemma CommandEntryFits(e: (string, Value))
    ensures EntryFits(e, RUN_COMMAND.fields) <==> CommandEntry(e)
  {
    FieldNamesDiffer();
    ActionMeaning(e.1);
    PayloadMeaning(e.1);
    var fields := RUN_COMMAND.fields;
    assert fields[0].name == "action" && fields[1].name == "payload";
  }

  /**
    The schema of the command input lets through exactly this: one of the two actions and a
    payload of either kind, which need not be the kind of that action.
   */
  lemma CommandAccepted(v: Value)
    ensures Accepts(v, Compile(ModelT(RUN_COMMAND))) <==> Command(v)
  {
    RunCommandPromise(v, v);
    ClosedModel(v, RUN_COMMAND);
    assert RUN_COMMAND.fields[0].name == "action" && RUN_COMMAND.fields[1].name == "payload";
    if v.Dict? {
      forall i | 0 <= i < |v.entries|
        ensures EntryFits(v.entries[i], RUN_COMMAND.fields) <==> CommandEntry(v.entries[i])
      {
        CommandEntryFits(v.entries[i]);
      }
    }
  }

  /** The build arguments of an image are declared as strings, but their schema takes any value. */
  lemma BuildArgsUnchecked(i: int)
    ensures var v := Dict([("ARG", Lit(Int(i)))]);
      Accepts(v, CompileField(BUILD_ARGS)) && !Inhabits(v, BUILD_ARGS.ty)
  {
    var v := Dict([("ARG", Lit(Int(i)))]);
    DictSchema(v, StrT);
    ObjectIgnoresBounds(v, Compile(BUILD_ARGS.ty), NO_META);
    assert !Inhabits(v.entries[0].1, StrT);
  }
}
