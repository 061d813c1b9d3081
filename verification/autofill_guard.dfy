/** The single-flight guard of the Navan form autofill: the `running` and `done` flags that
    `scheduleAutoFillOnForm`, its polling tick, the route watcher and the DOM watcher share
    (navan.js). Each pending tick chain is recorded with the time it started, so the model
    can say how many fills are in flight. */
module AutofillGuard {
  import opened Text

  /** How long a tick chain keeps polling, and the delay between ticks, in milliseconds. */
  const MAX_WAIT_MS: int := 60000
  const POLL_MS: int := 500

  /** The path segment of the new-transaction form. */
  const FORM_SEGMENT := "/transactions/new-redesign/"

  /** `isNavanTransactionFormPage`. */
  predicate IsFormPage(path: string) {
    Contains(path, FORM_SEGMENT)
  }

  /** A pending tick chain: `start` is the time `scheduleAutoFillOnForm` began it;
      `attempting` holds while its tick awaits `tryAutoFillExpenseThenDescription()` and
      is false while it waits for its timer; `live` is false once a route change has
      retired it (only the intended reset retires chains). */
  datatype Chain = Chain(start: int, attempting: bool, live: bool)

  /** `__NAVAN_AUTOFILL_RUNNING`, `__NAVAN_AUTOFILL_DONE`, `__NAVAN_LAST_PATH`, and the
      tick chains still pending, oldest first. */
  datatype Guard = Guard(running: bool, done: bool, lastPath: string, chains: seq<Chain>)

  /** The state once the watcher is set up on `path`, before the first schedule. */
  function Initial(path: string): (g: Guard)
    ensures !g.running && !g.done && |g.chains| == 0 && g.lastPath == path
  {
    Guard(false, false, path, [])
  }

  /** `scheduleAutoFillOnForm` on `path` at time `now`: nothing off the form page or while
      a fill runs or has finished; otherwise the guard is raised and a tick chain starts,
      waiting for its first timer. */
  function Schedule(g: Guard, path: string, now: int): (g': Guard)
    ensures !IsFormPage(path) || g.running || g.done ==> g' == g
    ensures IsFormPage(path) && !g.running && !g.done ==>
      g'.running && !g'.done && g'.lastPath == g.lastPath && g'.chains == g.chains + [Chain(now, false, true)]
  {
    if !IsFormPage(path) || g.running || g.done then g
    else g.(running := true, chains := g.chains + [Chain(now, false, true)])
  }

  /** The chain at index `k` ends. */
  function Drop(chains: seq<Chain>, k: nat): (r: seq<Chain>)
    requires k < |chains|
    ensures |r| == |chains| - 1
    ensures forall c | c in r :: c in chains
  {
    chains[..k] + chains[k + 1..]
  }

  /** The timer of the waiting chain `k` fires, as written: a chain that finds the fill
      done ends; otherwise it starts its attempt, whatever other attempt is in progress. */
  function TickStartAsWritten(g: Guard, k: nat): (g': Guard)
    requires k < |g.chains| && !g.chains[k].attempting
    ensures g.done ==> g' == g.(chains := Drop(g.chains, k))
    ensures !g.done ==> g' == g.(chains := g.chains[k := g.chains[k].(attempting := true)])
  {
    if g.done then g.(chains := Drop(g.chains, k))
    else g.(chains := g.chains[k := g.chains[k].(attempting := true)])
  }

  /** Some chain other than `k` is in the middle of an attempt. */
  predicate OtherAttempting(chains: seq<Chain>, k: nat) {
    exists j | 0 <= j < |chains| :: j != k && chains[j].attempting
  }

  /** The timer of the waiting chain `k` fires, as intended: as written, except that while
      another attempt is still in progress the chain waits for its next timer instead. */
  function TickStart(g: Guard, k: nat): (g': Guard)
    requires k < |g.chains| && !g.chains[k].attempting
    ensures !OtherAttempting(g.chains, k) ==> g' == TickStartAsWritten(g, k)
    ensures !g.done && OtherAttempting(g.chains, k) ==> g' == g
    ensures g'.running == g.running && g'.done == g.done && g'.lastPath == g.lastPath
  {
    if g.done then g.(chains := Drop(g.chains, k))
    else if OtherAttempting(g.chains, k) then g
    else g.(chains := g.chains[k := g.chains[k].(attempting := true)])
  }

  /** The attempt of chain `k` returns `ready` at time `now`: a successful fill marks it
      done and lowers the guard; an unsuccessful one waits for the next timer until its
      wait runs out, then lowers the guard with `done` unchanged. A retired chain only
      ends, leaving the guard to the fill that replaced it. */
  function TickEnd(g: Guard, k: nat, ready: bool, now: int): (g': Guard)
    requires k < |g.chains| && g.chains[k].attempting
    ensures !g.chains[k].live ==> g' == g.(chains := Drop(g.chains, k))
    ensures g.chains[k].live && ready ==> g'.done && !g'.running && g'.chains == Drop(g.chains, k)
    ensures g.chains[k].live && !ready && now - g.chains[k].start < MAX_WAIT_MS ==>
      g' == g.(chains := g.chains[k := g.chains[k].(attempting := false)])
    ensures g.chains[k].live && !ready && now - g.chains[k].start >= MAX_WAIT_MS ==>
      !g'.running && g'.done == g.done && g'.chains == Drop(g.chains, k)
    ensures g'.lastPath == g.lastPath
  {
    if !g.chains[k].live then g.(chains := Drop(g.chains, k))
    else if ready then g.(done := true, running := false, chains := Drop(g.chains, k))
    else if now - g.chains[k].start < MAX_WAIT_MS then g.(chains := g.chains[k := g.chains[k].(attempting := false)])
    else g.(running := false, chains := Drop(g.chains, k))
  }

  /** The DOM watcher: any mutation on the form page schedules a fill unless one is done. */
  function Mutation(g: Guard, path: string, now: int): (g': Guard)
    ensures g.done ==> g' == g
  {
    if IsFormPage(path) && !g.done then Schedule(g, path, now) else g
  }

  /** `onRouteChange` as written: the same path changes nothing; a new path is recorded,
      and on the form page both flags are lowered and a fill is scheduled. Pending tick
      chains are left running. */
  function RouteChangeAsWritten(g: Guard, path: string, now: int): (g': Guard)
    ensures path == g.lastPath ==> g' == g
    ensures path != g.lastPath ==> g'.lastPath == path
    ensures path != g.lastPath && IsFormPage(path) ==>
      g'.running && !g'.done && g'.chains == g.chains + [Chain(now, false, true)]
    ensures path != g.lastPath && !IsFormPage(path) ==> g' == g.(lastPath := path)
  {
    if path == g.lastPath then g
    else if IsFormPage(path) then Schedule(g.(lastPath := path, done := false, running := false), path, now)
    else g.(lastPath := path)
  }

  /** The chains a reset leaves: waiting chains are cancelled, and an attempt in progress,
      which cannot be interrupted, is kept but retired. */
  function Retire(chains: seq<Chain>): (r: seq<Chain>)
    ensures |r| <= |chains|
    ensures forall c | c in r :: c.attempting && !c.live
    ensures forall c | c in chains && c.attempting :: c.(live := false) in r
  {
    if |chains| == 0 then []
    else (if chains[0].attempting then [chains[0].(live := false)] else []) + Retire(chains[1..])
  }

  /** `onRouteChange` as evidently intended: the reset also cancels the waiting tick chains
      and retires an attempt in progress, so the fill it schedules is the only live one. */
  function RouteChange(g: Guard, path: string, now: int): (g': Guard)
    ensures path == g.lastPath ==> g' == g
    ensures path != g.lastPath ==> g'.lastPath == path
    ensures path != g.lastPath && IsFormPage(path) ==>
      g'.running && !g'.done && g'.chains == Retire(g.chains) + [Chain(now, false, true)]
    ensures path != g.lastPath && !IsFormPage(path) ==> g' == g.(lastPath := path)
  {
    if path == g.lastPath then g
    else if IsFormPage(path) then
      Schedule(g.(lastPath := path, done := false, running := false, chains := Retire(g.chains)), path, now)
    else g.(lastPath := path)
  }

  /** Single flight, as the shapes the pending chains can take: no chain and the guard
      down; one live chain and the guard up; one retired attempt finishing and the guard
      down; or a retired attempt finishing ahead of a waiting live chain, the guard up.
      A finished fill never has the guard up. */
  predicate SingleFlight(g: Guard) {
    && (g.done ==> !g.running)
    && |g.chains| <= 2
    && (|g.chains| == 0 ==> !g.running)
    && (|g.chains| == 1 ==> (g.running <==> g.chains[0].live) && (!g.chains[0].live ==> g.chains[0].attempting))
    && (|g.chains| == 2 ==> g.running && !g.chains[0].live && g.chains[0].attempting
                            && g.chains[1].live && !g.chains[1].attempting)
  }

  /** What the shapes mean: at most one attempt writes the form at any time, at most one
      chain is live, and the guard is up exactly while a live chain is pending. */
  lemma SingleFlightMeans(g: Guard)
    requires SingleFlight(g)
    ensures forall i, j | 0 <= i < j < |g.chains| :: !(g.chains[i].attempting && g.chains[j].attempting)
    ensures forall i, j | 0 <= i < j < |g.chains| :: !(g.chains[i].live && g.chains[j].live)
    ensures g.running <==> exists i | 0 <= i < |g.chains| :: g.chains[i].live
  {
    if |g.chains| == 2 {
      assert g.chains[1].live;
    } else if |g.chains| == 1 {
      assert g.running ==> g.chains[0].live;
    }
  }

  /** What happens to the guard: the timer of a chain firing, and the attempt it starts
      returning, are separate events, so route changes and mutations can come between. */
  datatype Event =
    | ScheduleEvent(path: string, now: int)
    | TickStartEvent(k: nat)
    | TickEndEvent(k: nat, ready: bool, now: int)
    | MutationEvent(path: string, now: int)
    | RouteEvent(path: string, now: int)

  /** One event, with route changes and timers handled as intended; an event for a chain
      that is not pending in the right phase changes nothing. */
  function Step(g: Guard, ev: Event): (g': Guard)
    requires SingleFlight(g)
    ensures SingleFlight(g')
  {
    match ev
    case ScheduleEvent(path, now) => Schedule(g, path, now)
    case TickStartEvent(k) =>
      if k < |g.chains| && !g.chains[k].attempting then TickStartKeeps(g, k); TickStart(g, k) else g
    case TickEndEvent(k, ready, now) =>
      if k < |g.chains| && g.chains[k].attempting then TickEndKeeps(g, k, ready, now); TickEnd(g, k, ready, now) else g
    case MutationEvent(path, now) => Mutation(g, path, now)
    case RouteEvent(path, now) => RouteChangeKeeps(g, path, now); RouteChange(g, path, now)
  }

  /** A timer firing keeps single flight: beside a retired attempt the live chain waits. */
  lemma TickStartKeeps(g: Guard, k: nat)
    requires SingleFlight(g) && k < |g.chains| && !g.chains[k].attempting
    ensures SingleFlight(TickStart(g, k))
  {
    if |g.chains| == 2 {
      assert k == 1 && OtherAttempting(g.chains, k) by {
        assert g.chains[0].attempting;
      }
    }
  }

  /** An attempt returning keeps single flight: a retired attempt leaves the live chain. */
  lemma TickEndKeeps(g: Guard, k: nat, ready: bool, now: int)
    requires SingleFlight(g) && k < |g.chains| && g.chains[k].attempting
    ensures SingleFlight(TickEnd(g, k, ready, now))
  {
    if |g.chains| == 2 {
      assert k == 0 && TickEnd(g, k, ready, now).chains == [g.chains[1]];
    }
  }

  /** A route change keeps single flight: at most one retired attempt stays behind. */
  lemma RouteChangeKeeps(g: Guard, path: string, now: int)
    requires SingleFlight(g)
    ensures SingleFlight(RouteChange(g, path, now))
  {
    var r := Retire(g.chains);
    if |g.chains| == 2 {
      assert r == [g.chains[0].(live := false)] by {
        assert g.chains[1..][1..] == [];
        assert Retire(g.chains[1..]) == [];
      }
    } else if |g.chains| == 1 {
      assert g.chains[1..] == [];
    }
    assert |r| == 1 ==> r[0].attempting && !r[0].live by {
      if |r| == 1 {
        assert r[0] in r;
      }
    }
  }

  /** A whole run of events from a single-flight state. */
  function Run(g: Guard, evs: seq<Event>): (g': Guard)
    requires SingleFlight(g)
    decreases |evs|
  {
    if |evs| == 0 then g else Run(Step(g, evs[0]), evs[1..])
  }

  /** However the events interleave, attempts included, at most one attempt writes the
      form at a time and at most one chain is live. */
  lemma {:induction false} RunKeepsSingleFlight(g: Guard, evs: seq<Event>)
    requires SingleFlight(g)
    ensures SingleFlight(Run(g, evs))
    ensures var chains := Run(g, evs).chains;
      forall i, j | 0 <= i < j < |chains| :: !(chains[i].attempting && chains[j].attempting)
    decreases |evs|
  {
    if |evs| > 0 {
      RunKeepsSingleFlight(Step(g, evs[0]), evs[1..]);
    }
    SingleFlightMeans(Run(g, evs));
  }

  /** Once a fill is done, timers, attempts and mutations never start another until the
      route changes. */
  lemma DoneIsFinal(g: Guard, ev: Event)
    requires SingleFlight(g) && g.done && !ev.RouteEvent?
    ensures Step(g, ev).done && !Step(g, ev).running
  {
  }

  /** As written, a route change from one form page to another while a fill runs leaves
      the old tick chain pending next to the new one: two fills are in flight. */
  lemma StaleChainSurvivesRouteChange()
    ensures var first := FORM_SEGMENT + "1";
      var second := FORM_SEGMENT + "2";
      var g1 := Schedule(Initial(first), first, 0);
      var g2 := RouteChangeAsWritten(g1, second, 100);
      SingleFlight(g1) && !SingleFlight(g2) && |g2.chains| == 2
  {
    var first := FORM_SEGMENT + "1";
    var second := FORM_SEGMENT + "2";
    assert IsFormPage(first) by {
      assert FORM_SEGMENT <= first[0..];
    }
    assert IsFormPage(second) by {
      assert FORM_SEGMENT <= second[0..];
    }
    assert first != second by {
      assert first[|FORM_SEGMENT|] != second[|FORM_SEGMENT|];
    }
  }

  /** As written, the two chains then run their attempts side by side: both write the
      form at the same time. */
  lemma StaleAttemptRunsBesideLive()
    ensures var first := FORM_SEGMENT + "1";
      var second := FORM_SEGMENT + "2";
      var g2 := RouteChangeAsWritten(Schedule(Initial(first), first, 0), second, 100);
      |g2.chains| == 2 && !g2.done
      && var g3 := TickStartAsWritten(TickStartAsWritten(g2, 0), 1);
      g3.chains[0].attempting && g3.chains[1].attempting
  {
    StaleChainSurvivesRouteChange();
  }

  /** As written, when the stale chain then times out it lowers the guard under the
      running fill, and the next mutation starts a third chain. */
  lemma StaleTimeoutStartsThirdChain()
    ensures var first := FORM_SEGMENT + "1";
      var second := FORM_SEGMENT + "2";
      var g2 := RouteChangeAsWritten(Schedule(Initial(first), first, 0), second, 100);
      |g2.chains| == 2 && !g2.done
      && var g3 := TickEnd(TickStartAsWritten(g2, 0), 0, false, MAX_WAIT_MS);
      !g3.running && |g3.chains| == 1 && |Mutation(g3, second, MAX_WAIT_MS).chains| == 2
  {
    StaleChainSurvivesRouteChange();
    var second := FORM_SEGMENT + "2";
    assert IsFormPage(second) by {
      assert FORM_SEGMENT <= second[0..];
    }
  }
}
