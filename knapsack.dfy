/**
 * The journey interpreter `executeJourney` of src/knapsack.ts.
 *
 * It picks the transport of the journey once (logging in interactively when
 * the journey has credentials), then runs the steps in list order, threading
 * one result list `currentResult` from `journey.beginning`.  Traverse,
 * extract and obtain steps replace it with their operation's output; record,
 * debug and unrecognised steps leave it as it is.
 *
 * `executeJourney` itself returns nothing; the model exposes the final
 * `currentResult` and what the run did on the way, as a list of effects.
 */
module Knapsack {
  import opened Common
  import opened Network
  import opened Cookies
  import opened JourneySchema
  import Traversal
  import Extraction

  /**
   * The parts of the outside world the interpreter calls besides the web:
   * - loginCookies(url): the cookies `getLoginCookies(url)` collects while the
   *   user logs in through a browser window;
   * - obtain(t, directory, urls): how `obtain` ends when it downloads `urls`
   *   into `directory` through transport `t`;
   * - debug(t, urls): how `debug` ends.
   */
  datatype Env = Env(
    web: Web,
    loginCookies: string -> seq<Cookie>,
    obtain: (Transport, string, seq<string>) -> Outcome<seq<string>>,
    debug: (Transport, seq<string>) -> Outcome<()>)

  /** What a run does that is visible outside it, in order. */
  datatype Effect =
    | LoginPrompted(url: string)
    | Crawled(transport: Transport, fetched: seq<string>)
    | Harvested(transport: Transport, fetched: seq<string>)
    | Saved(transport: Transport, targetDirectory: string, urls: seq<string>)
    | Inspected(transport: Transport, urls: seq<string>)
    | Rejected(tag: string)

  /** How a run (or a part of it) ends, and its effects. */
  datatype Progress = Progress(outcome: Outcome<seq<string>>, effects: seq<Effect>)

  /** `authenticatedFetch`: the credentialed transport, or plain fetch when the journey has no credentials. */
  function Authenticated(env: Env, journey: Journey): Transport
  {
    match journey.credentials
    case None => Plain
    case Some(Interactive(url)) => Credentialed(CookieHeader(env.loginCookies(url)))
  }

  /** `step.includeCredentials ? authenticatedFetch : fetch` */
  function TransportFor(authenticated: Transport, step: Step): (t: Transport)
    ensures t == authenticated <== step.includeCredentials == Some(true)
    ensures step.includeCredentials != Some(true) ==> t == Plain
  {
    if step.includeCredentials == Some(true) then authenticated else Plain
  }

  /** One step of the `switch`, on `current`. */
  function StepResult(env: Env, authenticated: Transport, step: Step, current: seq<string>, fuel: nat): Progress
  {
    var t := TransportFor(authenticated, step);
    match step.kind
    case Traverse(itemSelector, nextPageSelector) =>
      var report := Traversal.Traversed(Traversal.Crawl(env.web, t, itemSelector, nextPageSelector), current, fuel);
      Progress(report.outcome, [Crawled(t, report.fetched)])
    case Extract(itemSelector) =>
      var report := Extraction.Extracted(Extraction.ItemQuery(env.web, t, itemSelector), current);
      Progress(report.outcome, [Harvested(t, report.fetched)])
    case Obtain(directory) => Progress(env.obtain(t, directory, current), [Saved(t, directory, current)])
    case Debug =>
      var ended := env.debug(t, current);
      Progress(if ended.Returned? then Returned(current) else if ended.Threw? then Threw else Running, [Inspected(t, current)])
    case Record(_) => Progress(Returned(current), [])
    case Unrecognised(tag) => Progress(Returned(current), [Rejected(tag)])
  }

  /** The steps run in list order from `beginning`; the first that does not return ends the run. */
  function RunSteps(env: Env, authenticated: Transport, steps: seq<Step>, beginning: seq<string>, fuel: nat): Progress
  {
    if steps == [] then Progress(Returned(beginning), [])
    else
      var before := RunSteps(env, authenticated, steps[..|steps| - 1], beginning, fuel);
      if before.outcome.Returned? then
        var last := StepResult(env, authenticated, steps[|steps| - 1], before.outcome.value, fuel);
        Progress(last.outcome, before.effects + last.effects)
      else before
  }

  /** The login, if any, and then the steps. */
  function Execution(env: Env, journey: Journey, fuel: nat): Progress
  {
    var login := if journey.credentials.Some? then [LoginPrompted(journey.credentials.value.url)] else [];
    var run := RunSteps(env, Authenticated(env, journey), journey.steps, journey.beginning, fuel);
    Progress(run.outcome, login + run.effects)
  }

  /** The `switch` of the loop of `executeJourney`, for one step. */
  method RunStep(env: Env, authenticatedFetch: Transport, step: Step, currentResult: seq<string>, fuel: nat)
    returns (outcome: Outcome<seq<string>>, done: seq<Effect>)
    ensures Progress(outcome, done) == StepResult(env, authenticatedFetch, step, currentResult, fuel)
  {
    var fetchExecutor := if step.includeCredentials == Some(true) then authenticatedFetch else Plain;
    match step.kind {
      case Traverse(itemSelector, nextPageSelector) =>
        var frontier := new StringArray(currentResult);
        var report := Traversal.Traverse(Traversal.Crawl(env.web, fetchExecutor, itemSelector, nextPageSelector), frontier, fuel);
        outcome, done := report.outcome, [Crawled(fetchExecutor, report.fetched)];
      case Extract(itemSelector) =>
        var report := Extraction.Extract(Extraction.ItemQuery(env.web, fetchExecutor, itemSelector), currentResult);
        outcome, done := report.outcome, [Harvested(fetchExecutor, report.fetched)];
      case Obtain(directory) =>
        outcome, done := env.obtain(fetchExecutor, directory, currentResult), [Saved(fetchExecutor, directory, currentResult)];
      case Debug =>
        var ended := env.debug(fetchExecutor, currentResult);
        outcome := if ended.Returned? then Returned(currentResult) else if ended.Threw? then Threw else Running;
        done := [Inspected(fetchExecutor, currentResult)];
      case Record(_) =>
        // falls through from `debug` to here: nothing to do
        outcome, done := Returned(currentResult), [];
      case Unrecognised(tag) =>
        // `unknownStep` only logs the step
        outcome, done := Returned(currentResult), [Rejected(tag)];
    }
  }

  /**
   * `executeJourney`: `fuel` bounds the pages each traverse step follows.
   * Each traverse step gets a fresh array holding `currentResult`.
   */
  method ExecuteJourney(env: Env, journey: Journey, fuel: nat) returns (progress: Progress)
    ensures progress == Execution(env, journey, fuel)
  {
    var authenticatedFetch := Plain;
    var login: seq<Effect> := [];
    if journey.credentials.Some? {
      var cookies := env.loginCookies(journey.credentials.value.url);
      authenticatedFetch := Credentialed(CookieHeader(cookies));
      login := [LoginPrompted(journey.credentials.value.url)];
    }
    var currentResult := journey.beginning;
    var effects: seq<Effect> := [];
    for i := 0 to |journey.steps|
      invariant RunSteps(env, authenticatedFetch, journey.steps[..i], journey.beginning, fuel) == Progress(Returned(currentResult), effects)
    {
      var step := journey.steps[i];
      RunStepsNext(env, authenticatedFetch, journey.steps, journey.beginning, fuel, i);
      var outcome, done := RunStep(env, authenticatedFetch, step, currentResult, fuel);
      effects := effects + done;
      if !outcome.Returned? {
        RunStepsStopped(env, authenticatedFetch, journey.steps, journey.beginning, fuel, i + 1);
        return Progress(outcome, login + effects);
      }
      currentResult := outcome.value;
    }
    assert journey.steps[..|journey.steps|] == journey.steps;
    progress := Progress(Returned(currentResult), login + effects);
  }

  /** One more step after a returning prefix. */
  lemma RunStepsNext(env: Env, authenticated: Transport, steps: seq<Step>, beginning: seq<string>, fuel: nat, i: nat)
    requires i < |steps| && RunSteps(env, authenticated, steps[..i], beginning, fuel).outcome.Returned?
    ensures var before := RunSteps(env, authenticated, steps[..i], beginning, fuel);
      var last := StepResult(env, authenticated, steps[i], before.outcome.value, fuel);
      RunSteps(env, authenticated, steps[..i + 1], beginning, fuel) == Progress(last.outcome, before.effects + last.effects)
  {
    assert steps[..i + 1][..i] == steps[..i];
  }

  /** Once a step does not return, the later steps do not run. */
  lemma {:induction false} RunStepsStopped(env: Env, authenticated: Transport, steps: seq<Step>, beginning: seq<string>, fuel: nat, n: nat)
    requires n <= |steps| && !RunSteps(env, authenticated, steps[..n], beginning, fuel).outcome.Returned?
    ensures RunSteps(env, authenticated, steps, beginning, fuel) == RunSteps(env, authenticated, steps[..n], beginning, fuel)
    decreases |steps| - n
  {
    if n < |steps| {
      assert steps[..n + 1][..n] == steps[..n];
      RunStepsStopped(env, authenticated, steps, beginning, fuel, n + 1);
    } else {
      assert steps[..n] == steps;
    }
  }

  /**
   * Steps run in list order: running `first + second` is running `first`,
   * and then, if it returned, running `second` on its result.
   */
  lemma {:induction false} RunStepsSplit(env: Env, authenticated: Transport, first: seq<Step>, second: seq<Step>, beginning: seq<string>, fuel: nat)
    ensures var a := RunSteps(env, authenticated, first, beginning, fuel);
      RunSteps(env, authenticated, first + second, beginning, fuel) ==
        if a.outcome.Returned? then
          var b := RunSteps(env, authenticated, second, a.outcome.value, fuel);
          Progress(b.outcome, a.effects + b.effects)
        else a
    decreases |second|
  {
    var a := RunSteps(env, authenticated, first, beginning, fuel);
    if second == [] {
      assert first + second == first;
      assert a.effects + [] == a.effects;
    } else {
      var init := second[..|second| - 1];
      var last := second[|second| - 1];
      assert first + second == (first + init) + [last];
      assert second == init + [last];
      RunStepsSnoc(env, authenticated, first + init, last, beginning, fuel);
      RunStepsSplit(env, authenticated, first, init, beginning, fuel);
      if a.outcome.Returned? {
        RunStepsSnoc(env, authenticated, init, last, a.outcome.value, fuel);
        var b := RunSteps(env, authenticated, init, a.outcome.value, fuel);
        if b.outcome.Returned? {
          var c := StepResult(env, authenticated, last, b.outcome.value, fuel);
          Associative(a.effects, b.effects, c.effects);
        }
      }
    }
  }

  lemma RunStepsSnoc(env: Env, authenticated: Transport, steps: seq<Step>, step: Step, beginning: seq<string>, fuel: nat)
    ensures var before := RunSteps(env, authenticated, steps, beginning, fuel);
      RunSteps(env, authenticated, steps + [step], beginning, fuel) ==
        if before.outcome.Returned? then
          var last := StepResult(env, authenticated, step, before.outcome.value, fuel);
          Progress(last.outcome, before.effects + last.effects)
        else before
  {
    assert (steps + [step])[..|steps|] == steps;
  }

  /** A record step, an unrecognised step and a debug step that returns leave the result as it is. */
  lemma PassThrough(env: Env, authenticated: Transport, step: Step, current: seq<string>, fuel: nat)
    requires step.kind.Record? || step.kind.Unrecognised?
          || (step.kind.Debug? && env.debug(TransportFor(authenticated, step), current).Returned?)
    ensures StepResult(env, authenticated, step, current, fuel).outcome == Returned(current)
  {
  }

  /**
   * Traverse, extract and obtain steps replace the result wholesale: what the
   * step returns is the operation's output on the previous result, whatever
   * that was.
   */
  lemma ReplacesWholesale(env: Env, journey: Journey, fuel: nat)
    requires journey.steps != [] && RunSteps(env, Authenticated(env, journey), journey.steps[..|journey.steps| - 1], journey.beginning, fuel).outcome.Returned?
    ensures var step := journey.steps[|journey.steps| - 1];
      var t := TransportFor(Authenticated(env, journey), step);
      var previous := RunSteps(env, Authenticated(env, journey), journey.steps[..|journey.steps| - 1], journey.beginning, fuel).outcome.value;
      var outcome := Execution(env, journey, fuel).outcome;
      && (step.kind.Traverse? ==>
            outcome == Traversal.Traversed(Traversal.Crawl(env.web, t, step.kind.itemSelector, step.kind.nextPageSelector), previous, fuel).outcome)
      && (step.kind.Extract? ==>
            outcome == Extraction.Extracted(Extraction.ItemQuery(env.web, t, step.kind.itemSelector), previous).outcome)
      && (step.kind.Obtain? ==> outcome == env.obtain(t, step.kind.targetDirectory, previous))
  {
  }

  /**
   * The login happens at most once, exactly when the journey has credentials,
   * and before any step runs.
   */
  lemma LoginAtMostOnceBeforeSteps(env: Env, journey: Journey, fuel: nat)
    ensures var effects := Execution(env, journey, fuel).effects;
      && (journey.credentials.Some? ==> effects != [] && effects[0] == LoginPrompted(journey.credentials.value.url))
      && (journey.credentials.None? ==> forall e :: e in effects ==> !e.LoginPrompted?)
      && forall i :: 0 < i < |effects| ==> !effects[i].LoginPrompted?
  {
    NoLoginInSteps(env, Authenticated(env, journey), journey.steps, journey.beginning, fuel);
  }

  lemma {:induction false} NoLoginInSteps(env: Env, authenticated: Transport, steps: seq<Step>, beginning: seq<string>, fuel: nat)
    ensures forall e :: e in RunSteps(env, authenticated, steps, beginning, fuel).effects ==> !e.LoginPrompted?
    decreases |steps|
  {
    if steps != [] {
      NoLoginInSteps(env, authenticated, steps[..|steps| - 1], beginning, fuel);
    }
  }

  /** The transport an effect went through, if any. */
  function TransportOf(e: Effect): Option<Transport>
  {
    match e
    case Crawled(t, _) => Some(t)
    case Harvested(t, _) => Some(t)
    case Saved(t, _, _) => Some(t)
    case Inspected(t, _) => Some(t)
    case _ => None
  }

  /**
   * Every request goes through plain fetch or through the one credentialed
   * transport of the journey; without credentials, or when no step includes
   * them, everything goes through plain fetch.
   */
  lemma TransportSelection(env: Env, journey: Journey, fuel: nat)
    ensures forall e :: e in Execution(env, journey, fuel).effects && TransportOf(e).Some? ==>
      TransportOf(e).value == Plain || TransportOf(e).value == Authenticated(env, journey)
    ensures (journey.credentials.None? || forall i :: 0 <= i < |journey.steps| ==> journey.steps[i].includeCredentials != Some(true)) ==>
      forall e :: e in Execution(env, journey, fuel).effects && TransportOf(e).Some? ==> TransportOf(e).value == Plain
  {
    StepTransports(env, Authenticated(env, journey), journey.steps, journey.beginning, fuel);
  }

  lemma {:induction false} StepTransports(env: Env, authenticated: Transport, steps: seq<Step>, beginning: seq<string>, fuel: nat)
    ensures forall e :: e in RunSteps(env, authenticated, steps, beginning, fuel).effects && TransportOf(e).Some? ==>
      TransportOf(e).value == Plain || TransportOf(e).value == authenticated
    ensures (authenticated == Plain || forall i :: 0 <= i < |steps| ==> steps[i].includeCredentials != Some(true)) ==>
      forall e :: e in RunSteps(env, authenticated, steps, beginning, fuel).effects && TransportOf(e).Some? ==> TransportOf(e).value == Plain
    decreases |steps|
  {
    if steps != [] {
      StepTransports(env, authenticated, steps[..|steps| - 1], beginning, fuel);
    }
  }

  /** A checked journey never reaches the `default` branch: no step is rejected. */
  lemma CheckedJourneyHasNoUnknownStep(env: Env, j: Json, fuel: nat)
    requires Decode(j).Some?
    ensures forall e :: e in Execution(env, Decode(j).value, fuel).effects ==> !e.Rejected?
  {
    var journey := Decode(j).value;
    DecodedStepsAreRecognised(j);
    NoRejection(env, Authenticated(env, journey), journey.steps, journey.beginning, fuel);
  }

  lemma {:induction false} NoRejection(env: Env, authenticated: Transport, steps: seq<Step>, beginning: seq<string>, fuel: nat)
    requires forall i :: 0 <= i < |steps| ==> Recognised(steps[i].kind)
    ensures forall e :: e in RunSteps(env, authenticated, steps, beginning, fuel).effects ==> !e.Rejected?
    decreases |steps|
  {
    if steps != [] {
      NoRejection(env, authenticated, steps[..|steps| - 1], beginning, fuel);
    }
  }
}
