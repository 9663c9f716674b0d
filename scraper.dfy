/**
 * The earlier revision of the journey interpreter, src/scraper.ts.
 *
 * Its step union has four variants (no `debug`), declared as plain
 * TypeScript types with no run-time check.  Its `executeJourney` is the one
 * of src/knapsack.ts without the `debug` case: a step tagged "debug" reaches
 * `default` here.  Credentials, transport selection and the Cookie header
 * are the same.
 */
module Scraper {
  import opened Common
  import opened Network
  import opened Cookies
  import JourneySchema
  import Knapsack
  import Traversal
  import Extraction

  /** The `type` tags of this revision's step union. */
  const StepTags: set<string> := {"traverse", "extract", "obtain", "record"}

  /** A `type` tag outside this revision's union; "debug" is one. */
  type UnknownTag = tag: string | tag !in StepTags witness ""

  /** `StepType`: traverse, extract, obtain or record; any other tag is `Unrecognised`. */
  datatype StepKind =
    | Traverse(itemSelector: string, nextPageSelector: string)
    | Extract(itemSelector: string)
    | Obtain(targetDirectory: string)
    | Record(fieldSelectors: map<string, string>)
    | Unrecognised(tag: UnknownTag)

  /** `StepDefinition = StepType & StepCommon` */
  datatype Step = Step(kind: StepKind, includeCredentials: Option<bool>)

  /** `JourneyDefinition`, with `InteractiveCredentials` as in the newer schema. */
  datatype Journey = Journey(credentials: Option<JourneySchema.Credentials>, beginning: seq<string>, steps: seq<Step>)

  /** `authenticatedFetch` of this revision. */
  function Authenticated(env: Knapsack.Env, journey: Journey): Transport
  {
    match journey.credentials
    case None => Plain
    case Some(Interactive(url)) => Credentialed(CookieHeader(env.loginCookies(url)))
  }

  /** One step of this revision's `switch`, on `current`. */
  function StepResult(env: Knapsack.Env, authenticated: Transport, step: Step, current: seq<string>, fuel: nat): Knapsack.Progress
  {
    var t := if step.includeCredentials == Some(true) then authenticated else Plain;
    match step.kind
    case Traverse(itemSelector, nextPageSelector) =>
      var report := Traversal.Traversed(Traversal.Crawl(env.web, t, itemSelector, nextPageSelector), current, fuel);
      Knapsack.Progress(report.outcome, [Knapsack.Crawled(t, report.fetched)])
    case Extract(itemSelector) =>
      var report := Extraction.Extracted(Extraction.ItemQuery(env.web, t, itemSelector), current);
      Knapsack.Progress(report.outcome, [Knapsack.Harvested(t, report.fetched)])
    case Obtain(directory) => Knapsack.Progress(env.obtain(t, directory, current), [Knapsack.Saved(t, directory, current)])
    case Record(_) => Knapsack.Progress(Returned(current), [])
    case Unrecognised(tag) => Knapsack.Progress(Returned(current), [Knapsack.Rejected(tag)])
  }

  /** The steps run in list order from `beginning`; the first that does not return ends the run. */
  function RunSteps(env: Knapsack.Env, authenticated: Transport, steps: seq<Step>, beginning: seq<string>, fuel: nat): Knapsack.Progress
  {
    if steps == [] then Knapsack.Progress(Returned(beginning), [])
    else
      var before := RunSteps(env, authenticated, steps[..|steps| - 1], beginning, fuel);
      if before.outcome.Returned? then
        var last := StepResult(env, authenticated, steps[|steps| - 1], before.outcome.value, fuel);
        Knapsack.Progress(last.outcome, before.effects + last.effects)
      else before
  }

  /** The login, if any, and then the steps. */
  function Execution(env: Knapsack.Env, journey: Journey, fuel: nat): Knapsack.Progress
  {
    var login := if journey.credentials.Some? then [Knapsack.LoginPrompted(journey.credentials.value.url)] else [];
    var run := RunSteps(env, Authenticated(env, journey), journey.steps, journey.beginning, fuel);
    Knapsack.Progress(run.outcome, login + run.effects)
  }

  /** The `switch` of this revision's loop, for one step. */
  method RunStep(env: Knapsack.Env, authenticatedFetch: Transport, step: Step, currentResult: seq<string>, fuel: nat)
    returns (outcome: Outcome<seq<string>>, done: seq<Knapsack.Effect>)
    ensures Knapsack.Progress(outcome, done) == StepResult(env, authenticatedFetch, step, currentResult, fuel)
  {
    var fetchExecutor := if step.includeCredentials == Some(true) then authenticatedFetch else Plain;
    match step.kind {
      case Traverse(itemSelector, nextPageSelector) =>
        var frontier := new StringArray(currentResult);
        var report := Traversal.Traverse(Traversal.Crawl(env.web, fetchExecutor, itemSelector, nextPageSelector), frontier, fuel);
        outcome, done := report.outcome, [Knapsack.Crawled(fetchExecutor, report.fetched)];
      case Extract(itemSelector) =>
        var report := Extraction.Extract(Extraction.ItemQuery(env.web, fetchExecutor, itemSelector), currentResult);
        outcome, done := report.outcome, [Knapsack.Harvested(fetchExecutor, report.fetched)];
      case Obtain(directory) =>
        outcome := env.obtain(fetchExecutor, directory, currentResult);
        done := [Knapsack.Saved(fetchExecutor, directory, currentResult)];
      case Record(_) =>
        outcome, done := Returned(currentResult), [];
      case Unrecognised(tag) =>
        // `unknownStep` only logs the step
        outcome, done := Returned(currentResult), [Knapsack.Rejected(tag)];
    }
  }

  /** `executeJourney` of this revision; `fuel` bounds the pages each traverse step follows. */
  method ExecuteJourney(env: Knapsack.Env, journey: Journey, fuel: nat) returns (progress: Knapsack.Progress)
    ensures progress == Execution(env, journey, fuel)
  {
    var authenticatedFetch := Plain;
    var login: seq<Knapsack.Effect> := [];
    if journey.credentials.Some? {
      var cookies := env.loginCookies(journey.credentials.value.url);
      authenticatedFetch := Credentialed(CookieHeader(cookies));
      login := [Knapsack.LoginPrompted(journey.credentials.value.url)];
    }
    var currentResult := journey.beginning;
    var effects: seq<Knapsack.Effect> := [];
    for i := 0 to |journey.steps|
      invariant RunSteps(env, authenticatedFetch, journey.steps[..i], journey.beginning, fuel) == Knapsack.Progress(Returned(currentResult), effects)
    {
      var step := journey.steps[i];
      RunStepsNext(env, authenticatedFetch, journey.steps, journey.beginning, fuel, i);
      var outcome, done := RunStep(env, authenticatedFetch, step, currentResult, fuel);
      effects := effects + done;
      if !outcome.Returned? {
        RunStepsStopped(env, authenticatedFetch, journey.steps, journey.beginning, fuel, i + 1);
        return Knapsack.Progress(outcome, login + effects);
      }
      currentResult := outcome.value;
    }
    assert journey.steps[..|journey.steps|] == journey.steps;
    progress := Knapsack.Progress(Returned(currentResult), login + effects);
  }

  /** One more step after a returning prefix. */
  lemma RunStepsNext(env: Knapsack.Env, authenticated: Transport, steps: seq<Step>, beginning: seq<string>, fuel: nat, i: nat)
    requires i < |steps| && RunSteps(env, authenticated, steps[..i], beginning, fuel).outcome.Returned?
    ensures var before := RunSteps(env, authenticated, steps[..i], beginning, fuel);
      var last := StepResult(env, authenticated, steps[i], before.outcome.value, fuel);
      RunSteps(env, authenticated, steps[..i + 1], beginning, fuel) == Knapsack.Progress(last.outcome, before.effects + last.effects)
  {
    assert steps[..i + 1][..i] == steps[..i];
  }

  /** Once a step does not return, the later steps do not run. */
  lemma {:induction false} RunStepsStopped(env: Knapsack.Env, authenticated: Transport, steps: seq<Step>, beginning: seq<string>, fuel: nat, n: nat)
    requires n <= |steps| && !RunSteps(env, authenticated, steps[..n], beginning, fuel).outcome.Returned?
    ensures RunSteps(env, authenticated, steps, beginning, fuel) == RunSteps(env, authenticated, steps[..n], beginning, fuel)
    decreases |steps|
  {
    if n == |steps| {
      assert steps[..n] == steps;
    } else {
      var init := steps[..|steps| - 1];
      assert init[..n] == steps[..n];
      RunStepsStopped(env, authenticated, init, beginning, fuel, n);
    }
  }

  /**
   * A step kind that means the same in both revisions: every kind but an
   * unknown "debug" tag, which the newer revision runs as a debug step.
   */
  predicate Shared(kind: StepKind)
  {
    !(kind.Unrecognised? && kind.tag == "debug")
  }

  /** The step kind of the newer revision that behaves like `kind`. */
  function UpgradeKind(kind: StepKind): (k: JourneySchema.StepKind)
    requires Shared(kind)
    ensures !k.Debug?
    ensures JourneySchema.Tag(k) == Tag(kind)
    ensures kind.Traverse? ==> k == JourneySchema.Traverse(kind.itemSelector, kind.nextPageSelector)
    ensures kind.Extract? ==> k == JourneySchema.Extract(kind.itemSelector)
    ensures kind.Obtain? ==> k == JourneySchema.Obtain(kind.targetDirectory)
    ensures kind.Record? ==> k == JourneySchema.Record(kind.fieldSelectors)
    ensures kind.Unrecognised? <==> k.Unrecognised?
  {
    match kind
    case Traverse(item, next) => JourneySchema.Traverse(item, next)
    case Extract(item) => JourneySchema.Extract(item)
    case Obtain(directory) => JourneySchema.Obtain(directory)
    case Record(selectors) => JourneySchema.Record(selectors)
    case Unrecognised(tag) => JourneySchema.Unrecognised(tag)
  }

  /** The `type` tag of a step of this revision. */
  function Tag(kind: StepKind): (tag: string)
    ensures tag in StepTags <==> !kind.Unrecognised?
  {
    match kind
    case Traverse(_, _) => "traverse"
    case Extract(_) => "extract"
    case Obtain(_) => "obtain"
    case Record(_) => "record"
    case Unrecognised(tag) => tag
  }

  function UpgradeSteps(steps: seq<Step>): (r: seq<JourneySchema.Step>)
    requires forall i :: 0 <= i < |steps| ==> Shared(steps[i].kind)
    ensures |r| == |steps|
    ensures forall i :: 0 <= i < |steps| ==>
      r[i] == JourneySchema.Step(UpgradeKind(steps[i].kind), steps[i].includeCredentials)
  {
    if steps == [] then []
    else UpgradeSteps(steps[..|steps| - 1]) + [JourneySchema.Step(UpgradeKind(steps[|steps| - 1].kind), steps[|steps| - 1].includeCredentials)]
  }

  function Upgrade(journey: Journey): JourneySchema.Journey
    requires forall i :: 0 <= i < |journey.steps| ==> Shared(journey.steps[i].kind)
  {
    JourneySchema.Journey(journey.credentials, journey.beginning, UpgradeSteps(journey.steps))
  }

  /**
   * The two revisions run every journey of the earlier one alike, unless it
   * has a step tagged "debug": same outcome, same login, same requests
   * through the same transports.
   */
  lemma MatchesNewerRevision(env: Knapsack.Env, journey: Journey, fuel: nat)
    requires forall i :: 0 <= i < |journey.steps| ==> Shared(journey.steps[i].kind)
    ensures Execution(env, journey, fuel) == Knapsack.Execution(env, Upgrade(journey), fuel)
  {
    var authenticated := Authenticated(env, journey);
    assert authenticated == Knapsack.Authenticated(env, Upgrade(journey));
    StepsMatch(env, authenticated, journey.steps, journey.beginning, fuel);
  }

  lemma {:induction false} StepsMatch(env: Knapsack.Env, authenticated: Transport, steps: seq<Step>, beginning: seq<string>, fuel: nat)
    requires forall i :: 0 <= i < |steps| ==> Shared(steps[i].kind)
    ensures RunSteps(env, authenticated, steps, beginning, fuel) == Knapsack.RunSteps(env, authenticated, UpgradeSteps(steps), beginning, fuel)
    decreases |steps|
  {
    if steps != [] {
      var init := steps[..|steps| - 1];
      var last := steps[|steps| - 1];
      var upLast := JourneySchema.Step(UpgradeKind(last.kind), last.includeCredentials);
      StepsMatch(env, authenticated, init, beginning, fuel);
      assert UpgradeSteps(steps) == UpgradeSteps(init) + [upLast];
      Knapsack.RunStepsSnoc(env, authenticated, UpgradeSteps(init), upLast, beginning, fuel);
      var before := RunSteps(env, authenticated, init, beginning, fuel);
      if before.outcome.Returned? {
        StepMatches(env, authenticated, last, before.outcome.value, fuel);
      }
    }
  }

  /** Each step of this revision does what its upgrade does in the newer one. */
  lemma StepMatches(env: Knapsack.Env, authenticated: Transport, step: Step, current: seq<string>, fuel: nat)
    requires Shared(step.kind)
    ensures StepResult(env, authenticated, step, current, fuel)
         == Knapsack.StepResult(env, authenticated, JourneySchema.Step(UpgradeKind(step.kind), step.includeCredentials), current, fuel)
  {
  }

  /**
   * A step tagged "debug" is unknown to this revision: it is logged as
   * unknown and leaves the result as it is, without calling `debug`.
   */
  lemma DebugIsUnknownHere(env: Knapsack.Env, authenticated: Transport, flag: Option<bool>, current: seq<string>, fuel: nat)
    ensures StepResult(env, authenticated, Step(Unrecognised("debug"), flag), current, fuel)
         == Knapsack.Progress(Returned(current), [Knapsack.Rejected("debug")])
    ensures Knapsack.StepResult(env, authenticated, JourneySchema.Step(JourneySchema.Debug, flag), current, fuel).effects
         == [Knapsack.Inspected(Knapsack.TransportFor(authenticated, JourneySchema.Step(JourneySchema.Debug, flag)), current)]
  {
  }
}
