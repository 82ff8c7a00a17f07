/** Plan steps, as the validator, the preflight and the engine see them. */
module Plan {
  import opened Wrappers
  import opened SchemaValidation

  /** The inputs are whatever value the planner's answer holds there; nothing checks that it is a dictionary. */
  datatype PlanStep = PlanStep(
    stepId: string,
    kind: string,
    dependsOn: seq<string>,
    inputs: Value,
    requiredCapabilities: seq<string>,
    timeoutSec: Option<int>,
    riskLevel: string,
    onFailure: string)

  predicate UniqueIds(steps: seq<PlanStep>) {
    forall i, j :: 0 <= i < j < |steps| ==> steps[i].stepId != steps[j].stepId
  }

  // ----- what Python makes of inputs that are no dictionary -----

  /** Such a value cannot be looked up in a dictionary or be a key of one. */
  predicate Unhashable(v: Value) {
    v.List? || v.Dict? || v.Object?
  }

  /** The value counts as false. */
  predicate Falsy(v: Value) {
    match v
    case Lit(Null) => true
    case Lit(Bool(b)) => !b
    case Lit(Int(i)) => i == 0
    case Lit(Str(s)) => s == ""
    case Real(r) => r == 0.0
    case List(items) => items == []
    case Dict(entries) => entries == []
    case Member(_, _) => false
    case Object(_, _, _) => false
  }

  /** The value unpacks into a key and a value. */
  predicate IsPair(v: Value) {
    match v
    case List(items) => |items| == 2 && !Unhashable(items[0])
    case Dict(entries) => |entries| == 2
    case Lit(Str(s)) => |s| == 2
    case _ => false
  }

  /** `dict` takes the value: a dictionary, or a list of pairs, or an empty string. */
  predicate MakesDict(v: Value) {
    match v
    case Dict(_) => true
    case List(items) => forall i :: 0 <= i < |items| ==> IsPair(items[i])
    case Lit(Str(s)) => s == ""
    case _ => false
  }

  function KeyOf(pair: Value): Value
    requires IsPair(pair)
  {
    match pair
    case List(items) => items[0]
    case Dict(entries) => Lit(Str(entries[0].0))
    case Lit(Str(s)) => Lit(Str(s[..1]))
  }

  /** The keys of the dictionary that `dict` makes of the value; a key may occur in several pairs. */
  function CopiedKeys(v: Value): seq<Value>
    requires MakesDict(v)
  {
    match v
    case Dict(entries) => seq(|entries|, i requires 0 <= i < |entries| => Lit(Str(entries[i].0)))
    case List(items) => seq(|items|, i requires 0 <= i < |items| => KeyOf(items[i]))
    case Lit(Str(_)) => []
  }

  /** Keys of one of the first three kinds compare with each other, and with no other key; a JSON object takes none of the last. */
  datatype KeyKind = TextKey | NumberKey | NoneKey | OtherKey

  function KindOfKey(k: Value): KeyKind {
    match k
    case Lit(Str(_)) => TextKey
    case Lit(Null) => NoneKey
    case _ => if IsNumber(k) then NumberKey else OtherKey
  }

  /**
    A dictionary with these keys can be written as JSON with its keys sorted.  Sorting compares
    every key with others, so keys of two kinds always meet; None alone is a single key.
   */
  predicate Sortable(keys: seq<Value>) {
    forall i :: 0 <= i < |keys| ==> KindOfKey(keys[i]) == KindOfKey(keys[0]) != OtherKey
  }

  /** The inputs can be copied into a dictionary, and the copy can be written into the report of a run. */
  predicate Reportable(v: Value) {
    MakesDict(v) && Sortable(CopiedKeys(v))
  }

  predicate AllReportable(steps: seq<PlanStep>) {
    forall i :: 0 <= i < |steps| ==> Reportable(steps[i].inputs)
  }

  // ----- the same in terms of what Python iterates over -----

  /** What iterating over the value yields: items, keys or characters; none if it cannot be iterated over. */
  function Iterated(v: Value): Option<seq<Value>> {
    match v
    case List(items) => Some(items)
    case Dict(entries) => Some(seq(|entries|, i requires 0 <= i < |entries| => Lit(Str(entries[i].0))))
    case Lit(Str(s)) => Some(seq(|s|, i requires 0 <= i < |s| => Lit(Str([s[i]]))))
    case _ => None
  }

  /** A value counts as false exactly if it is None, a number equal to zero, or iterates over nothing. */
  lemma FalsyExactly(v: Value)
    ensures Falsy(v) <==> v == Lit(Null) || (IsNumber(v) && NumberOf(v) == 0.0) || (Iterated(v).Some? && |Iterated(v).value| == 0)
  {
  }

  /** A value makes an entry exactly if it iterates over two values, the first of which can be a key; that is the key. */
  lemma PairExactly(v: Value)
    ensures IsPair(v) <==> Iterated(v).Some? && |Iterated(v).value| == 2 && !Unhashable(Iterated(v).value[0])
    ensures IsPair(v) ==> KeyOf(v) == Iterated(v).value[0]
  {
    if v.Lit? && v.atom.Str? && |v.atom.s| == 2 {
      assert v.atom.s[..1] == [v.atom.s[0]];
    }
  }

  /** A value is copied exactly if it is a dictionary, or iterates over values that make entries; it keeps their keys. */
  lemma CopiedExactly(v: Value)
    ensures MakesDict(v) <==>
      v.Dict? || (Iterated(v).Some? && forall i :: 0 <= i < |Iterated(v).value| ==> IsPair(Iterated(v).value[i]))
    ensures MakesDict(v) ==> |CopiedKeys(v)| == |Iterated(v).value|
    ensures MakesDict(v) ==> forall i :: 0 <= i < |CopiedKeys(v)| ==>
      CopiedKeys(v)[i] == if v.Dict? then Iterated(v).value[i] else KeyOf(Iterated(v).value[i])
  {
    if v.Lit? && v.atom.Str? && v.atom.s != "" {
      assert !IsPair(Iterated(v).value[0]);
    }
  }

  /** Python compares two texts or two numbers, and nothing else that can be a key of JSON. */
  predicate Comparable(a: Value, b: Value) {
    (a.Lit? && a.atom.Str? && b.Lit? && b.atom.Str?) || (IsNumber(a) && IsNumber(b))
  }

  /** What JSON takes as a key. */
  predicate JsonKey(k: Value) {
    k == Lit(Null) || (k.Lit? && k.atom.Str?) || IsNumber(k)
  }

  /** Keys can be sorted and written exactly if JSON takes each and any two of them are equal or compare. */
  lemma SortableExactly(keys: seq<Value>)
    ensures Sortable(keys) <==>
      forall i, j :: 0 <= i < |keys| && 0 <= j < |keys| ==> JsonKey(keys[i]) && (keys[i] == keys[j] || Comparable(keys[i], keys[j]))
  {
    forall i, j | 0 <= i < |keys| && 0 <= j < |keys|
      ensures KindOfKey(keys[i]) == KindOfKey(keys[j]) != OtherKey <==>
        JsonKey(keys[i]) && (keys[i] == keys[j] || Comparable(keys[i], keys[j]))
    {
      KindsCompare(keys[i], keys[j]);
    }
    if Sortable(keys) {
      forall i, j | 0 <= i < |keys| && 0 <= j < |keys|
        ensures KindOfKey(keys[i]) == KindOfKey(keys[j]) != OtherKey
      {
      }
    }
  }

  lemma KindsCompare(a: Value, b: Value)
    ensures KindOfKey(a) == KindOfKey(b) != OtherKey <==> JsonKey(a) && (a == b || Comparable(a, b))
  {
  }

  const CONTINUE: string := "continue"
  const REQUEST_REPLAN: string := "request_replan"
}
