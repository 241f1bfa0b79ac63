/**
 * Which panes already carry the Julia runtime. The cache is consulted and updated by an evaluation
 * while REPLs come and go in the panes, at any moment between two of its steps.
 */
module BootstrapCache {

  // ----- The cache -----

  type Generations = map<string, string>

  /** An empty token, on either side, means that the process is unknown: the pane alone decides. */
  predicate Current(generations: Generations, pane: string, token: string) {
    pane in generations && (token == "" || generations[pane] == "" || generations[pane] == token)
  }

  class RuntimeBootstrapCache {
    var generations: Generations

    constructor ()
      ensures generations == map[]
    {
      generations := map[];
    }

    method IsCurrent(pane: string, token: string) returns (current: bool)
      ensures current == Current(generations, pane, token)
    {
      if pane !in generations {
        return false;
      }
      if token == "" || generations[pane] == "" {
        return true;
      }
      return generations[pane] == token;
    }

    method Mark(pane: string, token: string)
      modifies this
      ensures generations == old(generations)[pane := token]
      ensures forall t :: Current(generations, pane, t) <==> t == "" || token == "" || t == token
      ensures forall p, t | p != pane :: Current(generations, p, t) <==> Current(old(generations), p, t)
    {
      generations := generations[pane := token];
    }

    method Invalidate(pane: string)
      modifies this
      ensures generations == old(generations) - {pane}
      ensures forall t :: !Current(generations, pane, t)
      ensures forall p, t | p != pane :: Current(generations, p, t) <==> Current(old(generations), p, t)
    {
      generations := generations - {pane};
    }
  }

  // ----- Panes and evaluations -----

  /** The REPL processes a pane has had, by their tokens; the last is live. Which of them got the runtime. */
  datatype Pane = Pane(tokens: seq<string>, installed: set<nat>) {
    ghost predicate Valid() {
      && tokens != [] && "" !in tokens && (forall i | i in installed :: i < |tokens|)
      && forall i, j | 0 <= i < j < |tokens| :: tokens[i] != tokens[j]
    }

    function Live(): int {
      |tokens| - 1
    }

    predicate Equipped() {
      Live() in installed
    }
  }

  /** What an evaluation knows of the pane: the token it read, from the process that was live then. */
  datatype Probe = Probe(token: string, process: int)

  /** Where an evaluation stands; `retry` after the pane rejected the code once. */
  datatype Phase =
    | Idle
    | Probing(retry: bool)
    | Deciding(retry: bool, probe: Probe)
    | Sending(retry: bool, probe: Probe)
    | Awaiting(retry: bool, probe: Probe)
    | Installed(retry: bool, probe: Probe)
    | Ready(retry: bool, probe: Probe)
    | Pasted(retry: bool)

  datatype State = State(
    panes: map<string, Pane>,
    bound: string,
    cache: Generations,
    phase: Phase,
    pastes: nat,
    bootstraps: nat)
  {
    /** The bound pane, if it exists. */
    function Here(): Pane {
      if bound in panes then panes[bound] else Pane([], {})
    }
  }

  datatype Step =
    | Restart(pane: string, token: string)
    | Bind(pane: string)
    | StartEval
    | ReadToken(readable: bool)
    | Decide
    | SendBootstrap
    | RunBootstrap
    | Mark
    | PasteCode
    | Finish
    | RejectCode
    | GiveUp

  /** Tokens are never empty and never used again; everything else is as the code goes. */
  predicate Enabled(s: State, step: Step) {
    match step
    case Restart(pane, token) => pane in s.panes && token != "" && token !in s.panes[pane].tokens
    case Bind(pane) => s.phase.Idle? && pane in s.panes
    case StartEval => s.phase.Idle? && s.bound in s.panes
    case ReadToken(_) => s.phase.Probing? && s.Here().tokens != []
    case Decide => s.phase.Deciding?
    case SendBootstrap => s.phase.Sending?
    case RunBootstrap => s.phase.Awaiting? && s.bound in s.panes && s.Here().tokens != []
    case Mark => s.phase.Installed?
    case PasteCode => s.phase.Ready?
    case Finish => s.phase.Pasted?
    case RejectCode => s.phase.Pasted? && !s.phase.retry
    case GiveUp => s.phase.Sending? || s.phase.Awaiting? || s.phase.Installed? || s.phase.Ready?
  }

  function Apply(s: State, step: Step): State
    requires Enabled(s, step)
  {
    match step
    case Restart(pane, token) =>
      s.(panes := s.panes[pane := s.panes[pane].(tokens := s.panes[pane].tokens + [token])])
    case Bind(pane) => s.(bound := pane, cache := s.cache - {pane})
    case StartEval => s.(phase := Probing(false), pastes := 0, bootstraps := 0)
    case ReadToken(readable) =>
      var live := s.Here().Live();
      s.(phase := Deciding(s.phase.retry, Probe(if readable then s.Here().tokens[live] else "", live)))
    case Decide =>
      s.(phase := if Current(s.cache, s.bound, s.phase.probe.token) then Ready(s.phase.retry, s.phase.probe)
                  else Sending(s.phase.retry, s.phase.probe))
    case SendBootstrap => s.(phase := Awaiting(s.phase.retry, s.phase.probe), bootstraps := s.bootstraps + 1)
    case RunBootstrap =>
      var pane := s.Here();
      s.(phase := Installed(s.phase.retry, s.phase.probe),
         panes := s.panes[s.bound := pane.(installed := pane.installed + {pane.Live()})])
    case Mark =>
      s.(phase := Ready(s.phase.retry, s.phase.probe), cache := s.cache[s.bound := s.phase.probe.token])
    case PasteCode => s.(phase := Pasted(s.phase.retry), pastes := s.pastes + 1)
    case Finish => s.(phase := Idle)
    case RejectCode => s.(phase := Probing(true), cache := s.cache - {s.bound})
    case GiveUp => s.(phase := Idle)
  }

  predicate Runs(s: State, steps: seq<Step>)
    decreases |steps|, 0
  {
    steps == [] || (var n := |steps| - 1; Runs(s, steps[..n]) && Enabled(After(s, steps[..n]), steps[n]))
  }

  function After(s: State, steps: seq<Step>): State
    requires Runs(s, steps)
    decreases |steps|, 1
  {
    if steps == [] then s else Apply(After(s, steps[..|steps| - 1]), steps[|steps| - 1])
  }

  /** No evaluation under way, nothing cached. */
  ghost predicate Fresh(s: State) {
    s.phase.Idle? && s.cache == map[] && s.pastes == 0 && s.bootstraps == 0 && ValidPanes(s)
  }

  ghost predicate ValidPanes(s: State) {
    forall key | key in s.panes :: s.panes[key].Valid()
  }

  // ----- Coherence -----

  /** A token that the cache trusts is one the pane has had; if it names the live process, that has the runtime. */
  predicate Trustworthy(pane: Pane, token: string) {
    token in pane.tokens && (token == pane.tokens[pane.Live()] ==> pane.Equipped())
  }

  ghost predicate TrustworthyCache(s: State) {
    forall key | key in s.panes && key in s.cache && s.cache[key] != "" :: Trustworthy(s.panes[key], s.cache[key])
  }

  /** What was read belongs to a process that the pane has had. */
  predicate Plausible(pane: Pane, probe: Probe) {
    0 <= probe.process < |pane.tokens| && (probe.token == "" || probe.token == pane.tokens[probe.process])
  }

  /** If the probed process is still live, it has run the bootstrap by the time of marking. */
  predicate Coherent(s: State) {
    match s.phase
    case Deciding(_, probe) => Plausible(s.Here(), probe)
    case Sending(_, probe) => Plausible(s.Here(), probe)
    case Awaiting(_, probe) => Plausible(s.Here(), probe)
    case Installed(_, probe) =>
      Plausible(s.Here(), probe) && (probe.process == s.Here().Live() ==> s.Here().Equipped())
    case Ready(_, probe) =>
      && Plausible(s.Here(), probe) && s.bound in s.cache
      && (probe.token == "" || s.cache[s.bound] == "" || s.cache[s.bound] == probe.token)
    case _ => true
  }

  ghost predicate Sound(s: State) {
    ValidPanes(s) && TrustworthyCache(s) && Coherent(s) && (!s.phase.Idle? ==> s.bound in s.panes)
  }

  lemma RestartKeepsSound(s: State, pane: string, token: string)
    requires Sound(s) && Enabled(s, Restart(pane, token))
    ensures Sound(Apply(s, Restart(pane, token)))
  {
    var before := s.panes[pane];
    var v := Apply(s, Restart(pane, token));
    var after := v.panes[pane];
    assert before.Valid();
    forall i, j | 0 <= i < j < |after.tokens| ensures after.tokens[i] != after.tokens[j] {
      assert i < |before.tokens| && before.tokens[i] in before.tokens;
    }
    assert s.cache.Keys == v.cache.Keys;
    forall key | key in v.panes && key in v.cache && v.cache[key] != ""
      ensures Trustworthy(v.panes[key], v.cache[key])
    {
      if key != pane {
        assert Trustworthy(s.panes[key], s.cache[key]);
      }
    }
  }

  lemma DeciderKeepsSound(s: State, step: Step)
    requires Sound(s) && Enabled(s, step) && (step.ReadToken? || step.Decide? || step.PasteCode?)
    ensures Sound(Apply(s, step))
  {
  }

  lemma ForgetterKeepsSound(s: State, step: Step)
    requires Sound(s) && Enabled(s, step) && (step.Bind? || step.RejectCode?)
    ensures Sound(Apply(s, step))
  {
    var v := Apply(s, step);
    forall key | key in v.panes && key in v.cache && v.cache[key] != ""
      ensures Trustworthy(v.panes[key], v.cache[key])
    {
      assert key in s.cache && s.cache[key] == v.cache[key];
    }
  }

  lemma InstallKeepsSound(s: State)
    requires Sound(s) && Enabled(s, RunBootstrap)
    ensures Sound(Apply(s, RunBootstrap))
  {
    var v := Apply(s, RunBootstrap);
    assert s.panes[s.bound].Valid();
    forall key | key in v.panes && key in v.cache && v.cache[key] != ""
      ensures Trustworthy(v.panes[key], v.cache[key])
    {
      assert Trustworthy(s.panes[key], s.cache[key]);
    }
  }

  lemma MarkKeepsSound(s: State)
    requires Sound(s) && Enabled(s, Mark)
    ensures Sound(Apply(s, Mark))
  {
    var v := Apply(s, Mark);
    var pane, probe := s.panes[s.bound], s.phase.probe;
    assert pane.Valid();
    if probe.token != "" {
      assert probe.token in pane.tokens;
      assert probe.process < pane.Live() ==> pane.tokens[probe.process] != pane.tokens[pane.Live()];
    }
  }

  lemma StepKeepsSound(s: State, step: Step)
    requires Sound(s) && Enabled(s, step)
    ensures Sound(Apply(s, step))
  {
    hide Trustworthy, Plausible;
    match step
    case Restart(pane, token) => RestartKeepsSound(s, pane, token);
    case Bind(_) => ForgetterKeepsSound(s, step);
    case RejectCode => ForgetterKeepsSound(s, step);
    case RunBootstrap => InstallKeepsSound(s);
    case Mark => MarkKeepsSound(s);
    case ReadToken(_) => DeciderKeepsSound(s, step);
    case Decide => DeciderKeepsSound(s, step);
    case PasteCode => DeciderKeepsSound(s, step);
    case _ =>
  }

  lemma {:induction false} RunsStaySound(s: State, steps: seq<Step>)
    requires Fresh(s) && Runs(s, steps)
    ensures Sound(After(s, steps))
    decreases |steps|
  {
    hide Sound, Apply, Enabled;
    if steps == [] {
      FreshIsSound(s);
    } else {
      var n := |steps| - 1;
      RunsStaySound(s, steps[..n]);
      StepKeepsSound(After(s, steps[..n]), steps[n]);
    }
  }

  lemma FreshIsSound(s: State)
    requires Fresh(s)
    ensures Sound(s)
  {
  }

  /**
   * Whatever restarts happen and whenever: if the cache answers yes to the live token of any pane,
   * and knows a token for it, the runtime is in that live process.
   */
  lemma CurrentMeansInstalled(s: State, steps: seq<Step>, key: string)
    requires Fresh(s) && Runs(s, steps)
    ensures var v := After(s, steps);
      key in v.panes ==>
        && v.panes[key].tokens != []
        && var token := v.panes[key].tokens[v.panes[key].Live()];
           Current(v.cache, key, token) && v.cache[key] != "" ==> v.panes[key].Equipped()
  {
    hide Runs, After, Coherent;
    RunsStaySound(s, steps);
    var v := After(s, steps);
    if key in v.panes {
      assert v.panes[key].Valid();
      var token := v.panes[key].tokens[v.panes[key].Live()];
      if Current(v.cache, key, token) && v.cache[key] != "" {
        assert Trustworthy(v.panes[key], v.cache[key]);
      }
    }
  }

  /**
   * Code goes into a process with the runtime, unless the REPL was restarted since the token was
   * read, or a token could not be read. So a rejection means one or the other.
   */
  lemma CodeMeetsRuntime(s: State, steps: seq<Step>)
    requires Fresh(s) && Runs(s, steps)
    ensures var v := After(s, steps);
      v.phase.Ready? && v.phase.probe.process == v.Here().Live() && v.phase.probe.token != "" ==>
        v.bound in v.cache && (v.cache[v.bound] != "" ==> v.Here().Equipped())
  {
    hide Runs, After;
    RunsStaySound(s, steps);
    var v := After(s, steps);
    if v.phase.Ready? && v.phase.probe.process == v.Here().Live() && v.phase.probe.token != "" {
      if v.cache[v.bound] != "" {
        assert Trustworthy(v.panes[v.bound], v.cache[v.bound]);
      }
    }
  }

  // ----- What the cache knows -----

  /** Only marking teaches the cache anything, and only binding and a rejection make it forget. */
  lemma CacheChangesOnlyBy(s: State, step: Step, key: string)
    requires Enabled(s, step)
    ensures var v := Apply(s, step);
      && (key in v.cache && !(key in s.cache && s.cache[key] == v.cache[key]) ==>
            step.Mark? && key == s.bound && v.cache[key] == s.phase.probe.token)
      && (key in s.cache && key !in v.cache ==>
            (step.Bind? && step.pane == key) || (step.RejectCode? && key == s.bound))
  {
  }

  predicate Bootstrapped(s: State, key: string) {
    key in s.panes && s.panes[key].installed != {}
  }

  ghost predicate KnowsBootstrapped(s: State) {
    (forall key | key in s.cache :: Bootstrapped(s, key)) && (s.phase.Installed? ==> Bootstrapped(s, s.bound))
  }

  lemma StaysBootstrapped(s: State, step: Step, key: string)
    requires Enabled(s, step) && Bootstrapped(s, key)
    ensures Bootstrapped(Apply(s, step), key)
  {
  }

  lemma StepKeepsKnown(s: State, step: Step)
    requires KnowsBootstrapped(s) && Enabled(s, step)
    ensures KnowsBootstrapped(Apply(s, step))
  {
    hide Bootstrapped;
    var v := Apply(s, step);
    forall key | key in v.cache ensures Bootstrapped(v, key) {
      CacheChangesOnlyBy(s, step, key);
      StaysBootstrapped(s, step, key);
    }
    if v.phase.Installed? {
      if step.RunBootstrap? {
        RunningBootstraps(s);
      } else {
        StaysBootstrapped(s, step, s.bound);
      }
    }
  }

  lemma RunningBootstraps(s: State)
    requires Enabled(s, RunBootstrap)
    ensures Bootstrapped(Apply(s, RunBootstrap), s.bound)
  {
    var v := Apply(s, RunBootstrap);
    assert s.Here().Live() in v.panes[s.bound].installed;
  }

  /** Over any run, the cache knows only panes in which a bootstrap has run. */
  lemma {:induction false} CachedPanesWereBootstrapped(s: State, steps: seq<Step>)
    requires Fresh(s) && Runs(s, steps)
    ensures KnowsBootstrapped(After(s, steps))
    decreases |steps|
  {
    hide KnowsBootstrapped, Apply, Enabled;
    if steps == [] {
      FreshKnowsNothing(s);
    } else {
      var n := |steps| - 1;
      CachedPanesWereBootstrapped(s, steps[..n]);
      StepKeepsKnown(After(s, steps[..n]), steps[n]);
    }
  }

  lemma FreshKnowsNothing(s: State)
    requires Fresh(s)
    ensures KnowsBootstrapped(s)
  {
  }

  // ----- How often an evaluation pastes -----

  /** Counts by phase; a retry has pasted once and finds no cache entry. */
  predicate Counted(s: State) {
    match s.phase
    case Idle => s.pastes <= 2 && s.bootstraps <= 2
    case Probing(retry) => Begun(s, retry, false) && (retry ==> s.bound !in s.cache)
    case Deciding(retry, _) => Begun(s, retry, false) && (retry ==> s.bound !in s.cache)
    case Sending(retry, _) => Begun(s, retry, false)
    case Awaiting(retry, _) => Begun(s, retry, true)
    case Installed(retry, _) => Begun(s, retry, true)
    case Ready(retry, _) => Begun(s, retry, true) && (retry ==> s.bootstraps > 0)
    case Pasted(retry) =>
      s.pastes == (if retry then 2 else 1) && s.bootstraps <= (if retry then 2 else 1) && (retry ==> s.bootstraps > 0)
  }

  predicate Begun(s: State, retry: bool, sent: bool) {
    var passes := if retry then 1 else 0;
    s.pastes == passes && s.bootstraps <= passes + (if sent then 1 else 0) && (retry && sent ==> s.bootstraps > 0)
  }

  lemma StepKeepsCounted(s: State, step: Step)
    requires Counted(s) && Enabled(s, step)
    ensures Counted(Apply(s, step))
  {
  }

  /** Each evaluation pastes code and bootstrap at most twice each, and retries only after a bootstrap. */
  lemma {:induction false} EvaluationsPasteAtMostTwice(s: State, steps: seq<Step>)
    requires Fresh(s) && Runs(s, steps)
    ensures var v := After(s, steps);
      && Counted(v) && v.pastes <= 2 && v.bootstraps <= 2
      && (v.phase.Pasted? && v.phase.retry ==> v.bootstraps > 0)
    decreases |steps|
  {
    hide Apply, Enabled;
    if steps != [] {
      var n := |steps| - 1;
      EvaluationsPasteAtMostTwice(s, steps[..n]);
      StepKeepsCounted(After(s, steps[..n]), steps[n]);
    }
  }

  // ----- The retry -----

  /** Steps within one evaluation that is not given up. */
  predicate GoesOn(steps: seq<Step>) {
    StartEval !in steps && GiveUp !in steps
  }

  /** What stays of a retry from the rejection on. */
  predicate Retrying(s: State, steps: seq<Step>) {
    match s.phase
    case Probing(retry) => retry && s.pastes == 1 && s.bound !in s.cache
    case Deciding(retry, _) => retry && s.pastes == 1 && s.bound !in s.cache
    case Sending(retry, _) => retry && s.pastes == 1
    case Awaiting(retry, _) => retry && s.pastes == 1
    case Installed(retry, _) => retry && s.pastes == 1 && RunBootstrap in steps
    case Ready(retry, _) => retry && s.pastes == 1 && RunBootstrap in steps
    case Pasted(retry) => retry && s.pastes == 2 && RunBootstrap in steps && PasteCode in steps
    case Idle => s.pastes == 2 && RunBootstrap in steps && PasteCode in steps
  }

  lemma StepKeepsRetrying(s: State, steps: seq<Step>, step: Step)
    requires Retrying(s, steps) && Enabled(s, step) && !step.StartEval? && !step.GiveUp?
    ensures Retrying(Apply(s, step), steps + [step])
  {
    assert forall x | x in steps :: x in steps + [step];
    assert step in steps + [step];
  }

  lemma RunsConcat(s: State, a: seq<Step>, b: seq<Step>)
    requires Runs(s, a + b)
    ensures Runs(s, a) && Runs(After(s, a), b) && After(s, a + b) == After(After(s, a), b)
    decreases |b|
  {
    hide Enabled, Apply;
    if b == [] {
      assert a + b == a;
    } else {
      var n := |b| - 1;
      assert (a + b)[..|a + b| - 1] == a + b[..n];
      RunsConcat(s, a, b[..n]);
    }
  }

  lemma {:induction false} RunsRetry(s: State, rest: seq<Step>)
    requires Retrying(s, []) && Runs(s, rest) && GoesOn(rest)
    ensures Retrying(After(s, rest), rest)
    decreases |rest|
  {
    hide Enabled, Apply, Retrying;
    if rest != [] {
      var n := |rest| - 1;
      RunsRetry(s, rest[..n]);
      StepKeepsRetrying(After(s, rest[..n]), rest[..n], rest[n]);
      assert rest == rest[..n] + [rest[n]];
    }
  }

  lemma RejectedOnce(s: State, steps: seq<Step>)
    requires Fresh(s) && Runs(s, steps + [RejectCode])
    ensures Retrying(After(s, steps + [RejectCode]), [])
  {
    hide Enabled, Fresh;
    assert (steps + [RejectCode])[..|steps|] == steps;
    EvaluationsPasteAtMostTwice(s, steps);
    var u := After(s, steps);
    assert Enabled(u, RejectCode);
    RejectionRetries(u);
  }

  lemma RejectionRetries(u: State)
    requires Counted(u) && Enabled(u, RejectCode)
    ensures Retrying(Apply(u, RejectCode), [])
  {
  }

  /** A rejection is always answered: unless the evaluation gives up, it bootstraps and pastes again before it ends. */
  lemma RejectionIsRetried(s: State, before: seq<Step>, rest: seq<Step>)
    requires Fresh(s) && Runs(s, (before + [RejectCode]) + rest) && GoesOn(rest)
    ensures var v := After(s, (before + [RejectCode]) + rest);
      && Retrying(v, rest)
      && (v.phase.Idle? ==> RunBootstrap in rest && PasteCode in rest && v.pastes == 2)
  {
    hide Enabled, Apply, Runs, After, Fresh;
    RunsConcat(s, before + [RejectCode], rest);
    RejectedOnce(s, before);
    RunsRetry(After(s, before + [RejectCode]), rest);
  }

  predicate RestartedSince(pane: string, steps: seq<Step>, i: nat) {
    exists j | i < j < |steps| :: steps[j].Restart? && steps[j].pane == pane
  }

  /** The bootstrap has run in the bound pane, and the process it ran in is the live one unless that was restarted. */
  predicate InstalledAt(s: State, steps: seq<Step>, i: nat) {
    i < |steps| && steps[i].RunBootstrap? && (s.Here().Equipped() || RestartedSince(s.bound, steps, i))
  }

  lemma StepKeepsInstalled(s: State, steps: seq<Step>, step: Step, i: nat)
    requires InstalledAt(s, steps, i) && Enabled(s, step) && (step.Restart? || step.Mark? || step.PasteCode?)
    ensures InstalledAt(Apply(s, step), steps + [step], i)
  {
    var longer := steps + [step];
    if RestartedSince(s.bound, steps, i) {
      var j :| i < j < |steps| && steps[j].Restart? && steps[j].pane == s.bound;
      assert longer[j] == steps[j];
    } else if step.Restart? && step.pane == s.bound {
      assert longer[|steps|] == step;
    }
  }

  lemma {:induction false} RetryInstalls(s: State, rest: seq<Step>) returns (i: nat)
    requires Retrying(s, []) && Runs(s, rest) && GoesOn(rest)
    requires var v := After(s, rest); v.phase.Installed? || v.phase.Ready?
    ensures InstalledAt(After(s, rest), rest, i)
    decreases |rest|
  {
    hide InstalledAt, Retrying, RestartedSince;
    if rest == [] {
      StartsUninstalled(s);
    } else {
      var n := |rest| - 1;
      var u, step := After(s, rest[..n]), rest[n];
      assert rest == rest[..n] + [step];
      RunsRetry(s, rest[..n]);
      if step.RunBootstrap? {
        i := n;
        JustInstalled(u, rest[..n]);
      } else {
        RetryDecides(u, rest[..n], step);
        i := RetryInstalls(s, rest[..n]);
        StepKeepsInstalled(u, rest[..n], step, i);
      }
    }
  }

  /**
   * In the retry no cached token is believed: when the code is about to be pasted, the live process
   * has run this retry's bootstrap, unless the REPL was restarted after it.
   */
  lemma RetryMeetsRuntime(s: State, before: seq<Step>, rest: seq<Step>) returns (i: nat)
    requires Fresh(s) && Runs(s, (before + [RejectCode]) + rest) && GoesOn(rest)
    requires After(s, (before + [RejectCode]) + rest).phase.Ready?
    ensures InstalledAt(After(s, (before + [RejectCode]) + rest), rest, i)
  {
    hide Enabled, Apply, Runs, After, Fresh, InstalledAt;
    RunsConcat(s, before + [RejectCode], rest);
    RejectedOnce(s, before);
    i := RetryInstalls(After(s, before + [RejectCode]), rest);
  }

  lemma StartsUninstalled(s: State)
    requires Retrying(s, [])
    ensures !s.phase.Installed? && !s.phase.Ready?
  {
  }

  lemma JustInstalled(u: State, steps: seq<Step>)
    requires Enabled(u, RunBootstrap)
    ensures InstalledAt(Apply(u, RunBootstrap), steps + [RunBootstrap], |steps|)
  {
  }

  lemma RetryDecides(u: State, steps: seq<Step>, step: Step)
    requires Retrying(u, steps) && Enabled(u, step) && !step.RunBootstrap? && !step.StartEval?
    requires Apply(u, step).phase.Installed? || Apply(u, step).phase.Ready?
    ensures (u.phase.Installed? || u.phase.Ready?) && (step.Restart? || step.Mark?)
  {
  }

  // ----- Going on -----

  /** The steps that an evaluation takes itself. */
  predicate Own(step: Step) {
    !step.Restart? && !step.Bind? && !step.StartEval?
  }

  /** At most so many steps are left to the evaluation. */
  function StepsLeft(phase: Phase): nat {
    match phase
    case Idle => 0
    case Pasted(retry) => if retry then 1 else 9
    case Ready(retry, _) => if retry then 2 else 10
    case Installed(retry, _) => if retry then 3 else 11
    case Awaiting(retry, _) => if retry then 4 else 12
    case Sending(retry, _) => if retry then 5 else 13
    case Deciding(retry, _) => if retry then 6 else 14
    case Probing(retry) => if retry then 7 else 15
  }

  /** An evaluation that is under way can go on without giving up, and every step of its own brings the end nearer. */
  lemma EvaluationsEnd(s: State)
    requires Sound(s) && !s.phase.Idle?
    ensures exists step :: Own(step) && !step.GiveUp? && Enabled(s, step)
    ensures forall step | Enabled(s, step) ::
      StepsLeft(Apply(s, step).phase) + (if Own(step) then 1 else 0) <= StepsLeft(s.phase) <= 15
  {
    assert s.panes[s.bound].Valid();
    var step := match s.phase
      case Probing(_) => ReadToken(true)
      case Deciding(_, _) => Decide
      case Sending(_, _) => SendBootstrap
      case Awaiting(_, _) => RunBootstrap
      case Installed(_, _) => Mark
      case Ready(_, _) => PasteCode
      case _ => Finish;
    assert Own(step) && Enabled(s, step);
  }

  /** The bootstrap is left out exactly if the pane is known and the tokens do not tell its processes apart. */
  lemma CachedPanesNeedNoBootstrap(s: State, readable: bool)
    requires s.phase.Idle? && s.bound in s.panes && s.panes[s.bound].tokens != []
    ensures var steps, pane := [StartEval, ReadToken(readable), Decide], s.panes[s.bound];
      && Runs(s, steps) && After(s, steps).bootstraps == 0
      && (After(s, steps).phase.Ready? <==>
            s.bound in s.cache
            && (!readable || pane.tokens[pane.Live()] == "" || s.cache[s.bound] in ["", pane.tokens[pane.Live()]]))
      && (!After(s, steps).phase.Ready? ==> After(s, steps).phase.Sending?)
  {
    hide Runs, After;
    assert [] + [StartEval] == [StartEval] && [StartEval] + [ReadToken(readable)] == [StartEval, ReadToken(readable)];
    assert [StartEval, ReadToken(readable)] + [Decide] == [StartEval, ReadToken(readable), Decide];
    NoSteps(s);
    Extend(s, [], StartEval);
    var u := Apply(s, StartEval);
    Extend(s, [StartEval], ReadToken(readable));
    var v := Apply(u, ReadToken(readable));
    Extend(s, [StartEval, ReadToken(readable)], Decide);
  }

  /** Binding a pane forgets what was known of it, whatever its tokens, and of nothing else. */
  lemma BindForgets(s: State, pane: string)
    requires Enabled(s, Bind(pane))
    ensures var v := Apply(s, Bind(pane));
      && v.bound == pane && v.panes == s.panes && (forall token :: !Current(v.cache, pane, token))
      && forall other, token | other != pane :: Current(v.cache, other, token) <==> Current(s.cache, other, token)
  {
    assert forall other, token | other != pane && Current(s.cache, other, token) :: other in s.cache - {pane};
  }

  // ----- When code meets no runtime -----

  lemma Extend(s: State, steps: seq<Step>, step: Step)
    requires Runs(s, steps) && Enabled(After(s, steps), step)
    ensures Runs(s, steps + [step]) && After(s, steps + [step]) == Apply(After(s, steps), step)
  {
    hide Enabled, Apply;
    assert (steps + [step])[..|steps|] == steps;
  }

  ghost predicate Leads(s: State, steps: seq<Step>, v: State) {
    Runs(s, steps) && After(s, steps) == v
  }

  ghost predicate Reaches(s: State, v: State) {
    exists steps :: Leads(s, steps, v)
  }

  function Before(pane: string): State {
    State(map[pane := Pane(["a"], {})], pane, map[], Idle, 0, 0)
  }

  lemma ReachesItself(s: State)
    ensures Reaches(s, s)
  {
    NoSteps(s);
    assert Leads(s, [], s);
  }

  lemma ReachesNext(s: State, u: State, step: Step, v: State)
    requires Reaches(s, u) && Enabled(u, step)
    requires Apply(u, step).panes == v.panes && Apply(u, step).cache == v.cache
    requires Apply(u, step).(panes := v.panes, cache := v.cache) == v
    ensures Reaches(s, v)
  {
    hide Runs, After, Enabled, Apply;
    assert Apply(u, step) == v;
    var steps :| Leads(s, steps, u);
    Extend(s, steps, step);
    assert Leads(s, steps + [step], v);
  }

  function Seen(readable: bool): string {
    if readable then "a" else ""
  }

  lemma BootstrapAwaited(pane: string, readable: bool)
    ensures Reaches(Before(pane), Before(pane).(phase := Awaiting(false, Probe(Seen(readable), 0)), bootstraps := 1))
  {
    hide Reaches;
    var s, probe := Before(pane), Probe(Seen(readable), 0);
    ReachesItself(s);
    ReachesNext(s, s, StartEval, s.(phase := Probing(false)));
    ReachesNext(s, s.(phase := Probing(false)), ReadToken(readable), s.(phase := Deciding(false, probe)));
    ReachesNext(s, s.(phase := Deciding(false, probe)), Decide, s.(phase := Sending(false, probe)));
    ReachesNext(s, s.(phase := Sending(false, probe)), SendBootstrap,
                s.(phase := Awaiting(false, probe), bootstraps := 1));
  }

  /** One evaluation has been through, in the pane's first process. */
  function Served(pane: string, readable: bool): State {
    State(map[pane := Pane(["a"], {0})], pane, map[pane := Seen(readable)], Idle, 1, 1)
  }

  lemma OneEvaluation(pane: string, readable: bool)
    ensures Reaches(Before(pane), Served(pane, readable))
  {
    hide Reaches;
    var s, probe := Before(pane), Probe(Seen(readable), 0);
    var t := Served(pane, readable);
    BootstrapAwaited(pane, readable);
    assert s.panes[pane].installed + {0} == {0};
    var u := t.(cache := map[], phase := Installed(false, probe), pastes := 0);
    ReachesNext(s, s.(phase := Awaiting(false, probe), bootstraps := 1), RunBootstrap, u);
    ReachesNext(s, u, Mark, t.(phase := Ready(false, probe), pastes := 0));
    ReachesNext(s, t.(phase := Ready(false, probe), pastes := 0), PasteCode, t.(phase := Pasted(false)));
    ReachesNext(s, t.(phase := Pasted(false)), Finish, t);
  }

  /** The next evaluation is about to paste, on the word of a probe; the REPL has been restarted. */
  function Misled(pane: string, readable: bool, probe: Probe): State {
    State(map[pane := Pane(["a", "b"], {0})], pane, map[pane := Seen(readable)], Ready(false, probe), 0, 0)
  }

  lemma RestartedBeforeProbe(pane: string, cached: bool, readable: bool)
    requires !cached || !readable
    ensures Reaches(Before(pane), Misled(pane, cached, Probe(if readable then "b" else "", 1)))
  {
    hide Reaches;
    var s, probe := Before(pane), Probe(if readable then "b" else "", 1);
    OneEvaluation(pane, cached);
    var t, v := Served(pane, cached), Misled(pane, cached, probe);
    assert ["a"] + ["b"] == ["a", "b"];
    ReachesNext(s, t, Restart(pane, "b"), v.(phase := Idle, pastes := 1, bootstraps := 1));
    ReachesNext(s, v.(phase := Idle, pastes := 1, bootstraps := 1), StartEval, v.(phase := Probing(false)));
    ReachesNext(s, v.(phase := Probing(false)), ReadToken(readable), v.(phase := Deciding(false, probe)));
    ReachesNext(s, v.(phase := Deciding(false, probe)), Decide, v);
  }

  lemma RestartedAfterProbe(pane: string)
    ensures Reaches(Before(pane), Misled(pane, true, Probe("a", 0)))
  {
    hide Reaches;
    var s, probe := Before(pane), Probe("a", 0);
    OneEvaluation(pane, true);
    var t := Served(pane, true).(pastes := 0, bootstraps := 0);
    ReachesNext(s, Served(pane, true), StartEval, t.(phase := Probing(false)));
    ReachesNext(s, t.(phase := Probing(false)), ReadToken(true), t.(phase := Deciding(false, probe)));
    ReachesNext(s, t.(phase := Deciding(false, probe)), Decide, t.(phase := Ready(false, probe)));
    assert ["a"] + ["b"] == ["a", "b"];
    ReachesNext(s, t.(phase := Ready(false, probe)), Restart(pane, "b"), Misled(pane, true, probe));
  }

  /** Code is about to go where no runtime is. */
  ghost predicate Misses(v: State, key: string) {
    v.phase.Ready? && v.bound == key && key in v.cache && v.Here().tokens != [] && !v.Here().Equipped()
  }

  /**
   * None of the three exceptions can be dropped: each alone has a run to code that meets no runtime.
   * The REPL is restarted after its token was read; or its token cannot be read; or could not be before.
   */
  lemma CodeMissesRuntime(pane: string)
    ensures Fresh(Before(pane))
    ensures exists v ::
      && Reaches(Before(pane), v) && Misses(v, pane)
      && v.phase.probe.process != v.Here().Live() && v.phase.probe.token != "" && v.cache[pane] != ""
    ensures exists v ::
      && Reaches(Before(pane), v) && Misses(v, pane)
      && v.phase.probe.process == v.Here().Live() && v.phase.probe.token == "" && v.cache[pane] != ""
    ensures exists v ::
      && Reaches(Before(pane), v) && Misses(v, pane)
      && v.phase.probe.process == v.Here().Live() && v.phase.probe.token != "" && v.cache[pane] == ""
  {
    hide Reaches;
    assert Before(pane).panes[pane].Valid();
    RestartedAfterProbe(pane);
    RestartedBeforeProbe(pane, true, false);
    RestartedBeforeProbe(pane, false, true);
    var u, v := Misled(pane, true, Probe("a", 0)), Misled(pane, true, Probe("", 1));
    var w := Misled(pane, false, Probe("b", 1));
    assert Reaches(Before(pane), u) && Misses(u, pane);
    assert Reaches(Before(pane), v) && Misses(v, pane);
    assert Reaches(Before(pane), w) && Misses(w, pane);
  }

  lemma NoSteps(s: State)
    ensures Runs(s, []) && After(s, []) == s
  {
  }
}
