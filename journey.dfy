/**
 * The journey definition schema of src/journey.ts: which parsed JSON values
 * `JourneyDefinition.check` accepts, and the typed journey an accepted value
 * stands for.
 *
 * The runtypes combinators are read as follows: `Record` accepts an object
 * that has every listed key with a value of the listed type and ignores any
 * other key; `Optional` also accepts the key being absent; `Literal` accepts
 * that one string; `Dictionary(String)` accepts an object whose every value is
 * a string; `Array(T)` accepts an array whose every element is a `T`;
 * `Union` accepts what any alternative accepts and `Intersect` what both
 * accept.
 */
module JourneySchema {
  import opened Common

  /** A parsed JSON value (numbers are irrelevant to the schema and kept as integers). */
  datatype Json =
    | JNull
    | JBool(b: bool)
    | JNumber(n: int)
    | JString(s: string)
    | JArray(elems: seq<Json>)
    | JObject(fields: map<string, Json>)

  /** The value under `key`, when `j` is an object that has it. */
  function Get(j: Json, key: string): Option<Json>
  {
    if j.JObject? && key in j.fields then Some(j.fields[key]) else None
  }

  predicate IsString(v: Option<Json>)
  {
    v.Some? && v.value.JString?
  }

  predicate IsLiteral(v: Option<Json>, literal: string)
  {
    v == Some(JString(literal))
  }

  predicate IsOptionalBoolean(v: Option<Json>)
  {
    v.None? || v.value.JBool?
  }

  predicate IsStringArray(v: Option<Json>)
  {
    v.Some? && v.value.JArray? && forall i :: 0 <= i < |v.value.elems| ==> v.value.elems[i].JString?
  }

  predicate IsStringDictionary(v: Option<Json>)
  {
    v.Some? && v.value.JObject? && forall k :: k in v.value.fields ==> v.value.fields[k].JString?
  }

  /** `StepCommon` */
  predicate ValidStepCommon(j: Json)
  {
    j.JObject? && IsLiteral(Get(j, "executionStrategy"), "fetch") && IsOptionalBoolean(Get(j, "includeCredentials"))
  }

  /** `TraverseStep` */
  predicate ValidTraverseStep(j: Json)
  {
    j.JObject? && IsLiteral(Get(j, "type"), "traverse")
    && IsString(Get(j, "itemSelector")) && IsString(Get(j, "nextPageSelector"))
  }

  /** `ExtractStep` */
  predicate ValidExtractStep(j: Json)
  {
    j.JObject? && IsLiteral(Get(j, "type"), "extract") && IsString(Get(j, "itemSelector"))
  }

  /** `ObtainStep` */
  predicate ValidObtainStep(j: Json)
  {
    j.JObject? && IsLiteral(Get(j, "type"), "obtain") && IsString(Get(j, "targetDirectory"))
  }

  /** `RecordStep` */
  predicate ValidRecordStep(j: Json)
  {
    j.JObject? && IsLiteral(Get(j, "type"), "record") && IsStringDictionary(Get(j, "fieldSelectors"))
  }

  /** `DebugStep` */
  predicate ValidDebugStep(j: Json)
  {
    j.JObject? && IsLiteral(Get(j, "type"), "debug")
  }

  /** `StepType`, the union of the five step records. */
  predicate ValidStepType(j: Json)
  {
    ValidTraverseStep(j) || ValidExtractStep(j) || ValidObtainStep(j) || ValidRecordStep(j) || ValidDebugStep(j)
  }

  /** `StepDefinition`, the intersection of a step record and `StepCommon`. */
  predicate ValidStep(j: Json)
  {
    ValidStepType(j) && ValidStepCommon(j)
  }

  /** `InteractiveCredentials`, the only `CredentialDefinition`. */
  predicate ValidCredentials(j: Json)
  {
    j.JObject? && IsLiteral(Get(j, "type"), "interactive") && IsString(Get(j, "url"))
  }

  /** `JourneyDefinition` */
  predicate ValidJourney(j: Json)
  {
    && j.JObject?
    && (Get(j, "credentials").None? || ValidCredentials(Get(j, "credentials").value))
    && IsStringArray(Get(j, "beginning"))
    && Get(j, "steps").Some? && Get(j, "steps").value.JArray?
    && forall i :: 0 <= i < |Get(j, "steps").value.elems| ==> ValidStep(Get(j, "steps").value.elems[i])
  }

  /** The `type` tags of the step union. */
  const StepTags: set<string> := {"traverse", "extract", "obtain", "record", "debug"}

  /** A `type` tag outside the union. */
  type UnknownTag = tag: string | tag !in StepTags witness ""

  /**
   * What a step does, by its `type` tag.  `Unrecognised` is a tag outside
   * the union: the interpreters' `default` branch exists for it, although
   * no checked journey has one.
   */
  datatype StepKind =
    | Traverse(itemSelector: string, nextPageSelector: string)
    | Extract(itemSelector: string)
    | Obtain(targetDirectory: string)
    | Record(fieldSelectors: map<string, string>)
    | Debug
    | Unrecognised(tag: UnknownTag)

  /** A step; its `executionStrategy` is always "fetch". */
  datatype Step = Step(kind: StepKind, includeCredentials: Option<bool>)

  datatype Credentials = Interactive(url: string)

  datatype Journey = Journey(credentials: Option<Credentials>, beginning: seq<string>, steps: seq<Step>)

  /** The `type` tag of a step kind. */
  function Tag(kind: StepKind): (tag: string)
    ensures tag in StepTags <==> Recognised(kind)
  {
    match kind
    case Traverse(_, _) => "traverse"
    case Extract(_) => "extract"
    case Obtain(_) => "obtain"
    case Record(_) => "record"
    case Debug => "debug"
    case Unrecognised(tag) => tag
  }

  /** A step kind whose tag is in the union. */
  predicate Recognised(kind: StepKind)
  {
    !kind.Unrecognised?
  }

  /**
   * `j` carries the payload of `kind` under the keys its step record names:
   * the selectors and the directory as strings, and the field selectors as an
   * object with the same keys and each selector as a string.
   */
  predicate CarriesPayload(j: Json, kind: StepKind)
  {
    match kind
    case Traverse(item, next) =>
      Get(j, "itemSelector") == Some(JString(item)) && Get(j, "nextPageSelector") == Some(JString(next))
    case Extract(item) => Get(j, "itemSelector") == Some(JString(item))
    case Obtain(directory) => Get(j, "targetDirectory") == Some(JString(directory))
    case Record(selectors) =>
      && Get(j, "fieldSelectors").Some? && Get(j, "fieldSelectors").value.JObject?
      && Get(j, "fieldSelectors").value.fields.Keys == selectors.Keys
      && forall k :: k in selectors ==> Get(j, "fieldSelectors").value.fields[k] == JString(selectors[k])
    case _ => true
  }

  /** `j` is a step object with the tag, the payload and the `includeCredentials` flag of `step`. */
  predicate Describes(j: Json, step: Step)
  {
    && j.JObject?
    && Get(j, "type") == Some(JString(Tag(step.kind)))
    && CarriesPayload(j, step.kind)
    && (step.includeCredentials.Some? <==> "includeCredentials" in j.fields)
    && (step.includeCredentials.Some? ==> Get(j, "includeCredentials") == Some(JBool(step.includeCredentials.value)))
  }

  /** The typed step a JSON value stands for, when `StepDefinition` accepts it. */
  function DecodeStep(j: Json): (r: Option<Step>)
    ensures r.Some? <==> ValidStep(j)
    ensures r.Some? ==> Recognised(r.value.kind) && Describes(j, r.value)
  {
    if !ValidStepCommon(j) then None
    else
      var flag := if Get(j, "includeCredentials").Some? then Some(Get(j, "includeCredentials").value.b) else None;
      if ValidTraverseStep(j) then
        Some(Step(Traverse(Get(j, "itemSelector").value.s, Get(j, "nextPageSelector").value.s), flag))
      else if ValidExtractStep(j) then Some(Step(Extract(Get(j, "itemSelector").value.s), flag))
      else if ValidObtainStep(j) then Some(Step(Obtain(Get(j, "targetDirectory").value.s), flag))
      else if ValidRecordStep(j) then
        var fields := Get(j, "fieldSelectors").value.fields;
        Some(Step(Record(map k | k in fields :: fields[k].s), flag))
      else if ValidDebugStep(j) then Some(Step(Debug, flag))
      else None
  }

  /** Every element decoded, in order, when every element is a valid step. */
  function DecodeSteps(js: seq<Json>): (r: Option<seq<Step>>)
    ensures r.Some? <==> forall i :: 0 <= i < |js| ==> ValidStep(js[i])
    ensures r.Some? ==> |r.value| == |js| && forall i :: 0 <= i < |js| ==> DecodeStep(js[i]) == Some(r.value[i])
  {
    if js == [] then Some([])
    else
      match DecodeStep(js[0])
      case None => None
      case Some(first) =>
        match DecodeSteps(js[1..])
        case None =>
          assert forall i :: 1 <= i < |js| ==> js[1..][i - 1] == js[i];
          None
        case Some(rest) => Some([first] + rest)
  }

  /**
   * `j` is a journey object whose `beginning` holds the start URLs of
   * `journey` as strings, whose `steps` are, element by element, checked steps
   * decoding to those of `journey`, and whose `credentials`, present exactly
   * when `journey` has credentials, holds their url.
   */
  predicate DescribesJourney(j: Json, journey: Journey)
  {
    && j.JObject?
    && Get(j, "beginning").Some? && Get(j, "beginning").value.JArray?
    && |Get(j, "beginning").value.elems| == |journey.beginning|
    && (forall i :: 0 <= i < |journey.beginning| ==> Get(j, "beginning").value.elems[i] == JString(journey.beginning[i]))
    && Get(j, "steps").Some? && Get(j, "steps").value.JArray?
    && |Get(j, "steps").value.elems| == |journey.steps|
    && (forall i :: 0 <= i < |journey.steps| ==> DecodeStep(Get(j, "steps").value.elems[i]) == Some(journey.steps[i]))
    && (journey.credentials.Some? <==> "credentials" in j.fields)
    && (journey.credentials.Some? ==> Get(Get(j, "credentials").value, "url") == Some(JString(journey.credentials.value.url)))
  }

  /** `JourneyDefinition.check`: the typed journey, or None when the check throws. */
  function Decode(j: Json): (r: Option<Journey>)
    ensures r.Some? <==> ValidJourney(j)
    ensures r.Some? ==> DescribesJourney(j, r.value)
  {
    if !ValidJourney(j) then None
    else
      var credentials :=
        if Get(j, "credentials").Some? then Some(Interactive(Get(Get(j, "credentials").value, "url").value.s)) else None;
      var beginning := Get(j, "beginning").value.elems;
      var steps := DecodeSteps(Get(j, "steps").value.elems);
      Some(Journey(credentials, seq(|beginning|, i requires 0 <= i < |beginning| => beginning[i].s), steps.value))
  }

  /** At most one recognised step is described by a JSON value, so `DecodeStep`'s contract fixes its result. */
  lemma StepDescriptionIsUnique(j: Json, a: Step, b: Step)
    requires Recognised(a.kind) && Describes(j, a)
    requires Recognised(b.kind) && Describes(j, b)
    ensures a == b
  {
    assert Tag(a.kind) == Tag(b.kind);
    if a.kind.Record? {
      assert a.kind.fieldSelectors == b.kind.fieldSelectors;
    }
  }

  /** At most one journey is described by a JSON value, so `Decode`'s contract fixes its result. */
  lemma JourneyDescriptionIsUnique(j: Json, a: Journey, b: Journey)
    requires DescribesJourney(j, a) && DescribesJourney(j, b)
    ensures a == b
  {
    assert a.beginning == b.beginning;
    assert a.steps == b.steps;
  }

  /** A journey written as JSON with only the keys the schema names. */
  function EncodeStep(step: Step): Json
  {
    var common := map["executionStrategy" := JString("fetch"), "type" := JString(Tag(step.kind))];
    var withCredentials :=
      if step.includeCredentials.Some? then common["includeCredentials" := JBool(step.includeCredentials.value)] else common;
    match step.kind
    case Traverse(item, next) => JObject(withCredentials["itemSelector" := JString(item)]["nextPageSelector" := JString(next)])
    case Extract(item) => JObject(withCredentials["itemSelector" := JString(item)])
    case Obtain(directory) => JObject(withCredentials["targetDirectory" := JString(directory)])
    case Record(selectors) => JObject(withCredentials["fieldSelectors" := JObject(map k | k in selectors :: JString(selectors[k]))])
    case _ => JObject(withCredentials)
  }

  function EncodeSteps(steps: seq<Step>): (js: seq<Json>)
    ensures |js| == |steps| && forall i :: 0 <= i < |steps| ==> js[i] == EncodeStep(steps[i])
  {
    if steps == [] then [] else [EncodeStep(steps[0])] + EncodeSteps(steps[1..])
  }

  function Encode(journey: Journey): Json
  {
    var body := map[
      "beginning" := JArray(seq(|journey.beginning|, i requires 0 <= i < |journey.beginning| => JString(journey.beginning[i]))),
      "steps" := JArray(EncodeSteps(journey.steps))];
    match journey.credentials
    case None => JObject(body)
    case Some(Interactive(url)) =>
      JObject(body["credentials" := JObject(map["type" := JString("interactive"), "url" := JString(url)])])
  }

  /** A recognised step survives being written out and checked again. */
  lemma StepRoundTrip(step: Step)
    requires Recognised(step.kind)
    ensures DecodeStep(EncodeStep(step)) == Some(step)
  {
    var j := EncodeStep(step);
    EncodedStep(step);
    StepDescriptionIsUnique(j, DecodeStep(j).value, step);
  }

  /** A recognised step is written as a valid step object that describes it. */
  lemma EncodedStep(step: Step)
    requires Recognised(step.kind)
    ensures ValidStep(EncodeStep(step)) && Describes(EncodeStep(step), step)
  {
    var j := EncodeStep(step);
    assert Get(j, "executionStrategy") == Some(JString("fetch"));
    assert Get(j, "type") == Some(JString(Tag(step.kind)));
    if step.kind.Record? {
      var selectors := step.kind.fieldSelectors;
      assert Get(j, "fieldSelectors") == Some(JObject(map k | k in selectors :: JString(selectors[k])));
    }
  }

  /** A journey whose steps are all recognised survives being written out and checked again. */
  lemma RoundTrip(journey: Journey)
    requires forall i :: 0 <= i < |journey.steps| ==> Recognised(journey.steps[i].kind)
    ensures Decode(Encode(journey)) == Some(journey)
  {
    var j := Encode(journey);
    var js := EncodeSteps(journey.steps);
    forall i | 0 <= i < |journey.steps|
      ensures DecodeStep(js[i]) == Some(journey.steps[i])
    {
      StepRoundTrip(journey.steps[i]);
    }
    assert Get(j, "steps").value.elems == js;
    assert ValidJourney(j);
    assert DescribesJourney(j, journey);
    JourneyDescriptionIsUnique(j, Decode(j).value, journey);
  }

  /** Checked journeys never reach the interpreters' `default` branch. */
  lemma DecodedStepsAreRecognised(j: Json)
    requires Decode(j).Some?
    ensures forall i :: 0 <= i < |Decode(j).value.steps| ==> Recognised(Decode(j).value.steps[i].kind)
  {
    var steps := Get(j, "steps").value.elems;
    forall i | 0 <= i < |Decode(j).value.steps|
      ensures Recognised(Decode(j).value.steps[i].kind)
    {
      assert DecodeStep(steps[i]) == Some(Decode(j).value.steps[i]);
    }
  }

  /** A step without its `executionStrategy`, or with any other strategy, is rejected. */
  lemma StrategyMustBeFetch(j: Json, strategy: Json)
    requires j.JObject? && strategy != JString("fetch")
    ensures DecodeStep(JObject(j.fields["executionStrategy" := strategy])).None?
    ensures DecodeStep(JObject(j.fields - {"executionStrategy"})).None?
  {
  }

  /** A key the schema does not name changes neither validity nor the decoded step. */
  lemma ExtraKeyIgnored(j: Json, key: string, v: Json)
    requires j.JObject?
    requires key !in {"type", "executionStrategy", "includeCredentials", "itemSelector",
                      "nextPageSelector", "targetDirectory", "fieldSelectors"}
    ensures DecodeStep(JObject(j.fields[key := v])) == DecodeStep(j)
  {
    var k := JObject(j.fields[key := v]);
    assert forall name :: name != key ==> Get(k, name) == Get(j, name);
  }
}
