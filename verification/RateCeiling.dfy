/**
 How far the issuance ceilings really reach. The check (src/ratelimit.rs) reads
 its counts in calls of their own, before the reservation, so the ceiling is a
 concurrency bound: max - 1 + K, with K the number of threads that may be
 between their count and their reservation, on runs whose clock never goes
 back. The runs that meet the bound, and those that break it when the clock does
 go back, are in CeilingRuns.
 */
module RateCeiling {
  import opened Sets
  import opened IssuanceLedger
  import opened Issuance

  /** Past the count for this scope and not yet reserved or refused. */
  predicate PastCheck(scope: Scope, th: Thread) {
    match scope
    case Global => th.pc.GlobalPassed? || th.pc.Allowed?
    case Participant(p) => th.slot.participantId == p && th.pc.Allowed?
  }

  function Racing(s: State, scope: Scope): set<nat> {
    set t | t in s.threads && PastCheck(scope, s.threads[t])
  }

  /** The rows in the window that ends now. */
  function Recent(lim: Limits, s: State, scope: Scope): set<int> {
    RowsSince(s.ledger, scope, s.clock - lim.window)
  }

  /** The rows in the inclusive window [x, x + window]. */
  function Span(lim: Limits, s: State, scope: Scope, x: int): set<int> {
    set id | id in s.ledger.rows && InScope(scope, s.ledger.rows[id].slot) && x <= s.ledger.rows[id].issuedAt <= x + lim.window
  }

  /** No row is stamped in the future and no window start was computed from a later clock. */
  ghost predicate ClockInv(lim: Limits, s: State) {
    && (forall id :: id in s.ledger.rows ==> s.ledger.rows[id].issuedAt <= s.clock)
    && (forall t :: t in s.threads ==>
         ((s.threads[t].pc.ClockRead? || s.threads[t].pc.GlobalPassed?) ==> s.threads[t].pc.since <= s.clock - lim.window))
  }

  /** The step does not set the clock back. */
  predicate Forward(s: State, step: Step) {
    step.Tick? ==> step.now >= s.clock
  }

  ghost predicate NeverBack(ss: seq<State>, steps: seq<Step>) {
    |ss| == |steps| + 1 && forall i :: 0 <= i < |steps| ==> Forward(ss[i], steps[i])
  }

  lemma ClockInvPreserved(lim: Limits, s: State, step: Step)
    requires ClockInv(lim, s) && Enabled(s, step) && Forward(s, step)
    ensures ClockInv(lim, Do(lim, s, step))
  {
  }

  /** The step that moves its thread past the check for `scope`. */
  predicate Passes(lim: Limits, scope: Scope, s: State, step: Step)
    requires Enabled(s, step)
  {
    match scope
    case Global => step.CountGlobal? && Do(lim, s, step).threads[step.t].pc.GlobalPassed?
    case Participant(p) => step.CountParticipant? && PastCheck(scope, Do(lim, s, step).threads[step.t])
  }

  /** A thread that passes saw fewer than `max` rows over a window at least as long as the current one. */
  lemma PassSawRoom(lim: Limits, scope: Scope, s: State, step: Step)
    requires ClockInv(lim, s) && Enabled(s, step) && Passes(lim, scope, s, step)
    ensures |Recent(lim, s, scope)| < lim.Max(scope)
    ensures Recent(lim, Do(lim, s, step), scope) == Recent(lim, s, scope)
  {
    var since := s.threads[step.t].pc.since;
    SaturationIsExact(s.ledger, scope, since, lim.Max(scope));
    SubsetSize(Recent(lim, s, scope), RowsSince(s.ledger, scope, since));
  }

  /** A reservation trades one racing thread for one row. */
  lemma ReserveTrades(lim: Limits, scope: Scope, s: State, step: Step)
    requires Enabled(s, step) && step.ReserveRow? && Do(lim, s, step).ledger != s.ledger
    requires IssuanceLedger.WellFormed(s.ledger)
    ensures var s' := Do(lim, s, step);
      |Recent(lim, s', scope)| + |Racing(s', scope)| <= |Recent(lim, s, scope)| + |Racing(s, scope)|
  {
    var s' := Do(lim, s, step);
    SizeAfter(Recent(lim, s, scope), Recent(lim, s', scope), s.ledger.lastId + 1);
    SizeAfter(Racing(s, scope), Racing(s', scope), step.t);
  }

  lemma CeilingStep(lim: Limits, k: nat, bound: int, scope: Scope, s: State, step: Step)
    requires ClockInv(lim, s) && Enabled(s, step) && Forward(s, step) && IssuanceLedger.WellFormed(s.ledger)
    requires bound >= lim.Max(scope) - 1 + k
    requires |Recent(lim, s, scope)| + |Racing(s, scope)| <= bound
    requires |Racing(Do(lim, s, step), scope)| <= k
    ensures var s' := Do(lim, s, step); |Recent(lim, s', scope)| + |Racing(s', scope)| <= bound
  {
    var s' := Do(lim, s, step);
    if Passes(lim, scope, s, step) {
      PassSawRoom(lim, scope, s, step);
    } else if step.ReserveRow? && s'.ledger != s.ledger {
      ReserveTrades(lim, scope, s, step);
    } else {
      RecentShrinks(lim, scope, s, step);
      RacingShrinks(lim, scope, s, step);
    }
  }

  lemma RecentShrinks(lim: Limits, scope: Scope, s: State, step: Step)
    requires Enabled(s, step) && Forward(s, step) && !(step.ReserveRow? && Do(lim, s, step).ledger != s.ledger)
    ensures |Recent(lim, Do(lim, s, step), scope)| <= |Recent(lim, s, scope)|
  {
    SubsetSize(Recent(lim, Do(lim, s, step), scope), Recent(lim, s, scope));
  }

  lemma RacingShrinks(lim: Limits, scope: Scope, s: State, step: Step)
    requires Enabled(s, step) && !Passes(lim, scope, s, step)
    ensures |Racing(Do(lim, s, step), scope)| <= |Racing(s, scope)|
  {
    SubsetSize(Racing(Do(lim, s, step), scope), Racing(s, scope));
  }

  lemma SpanStep(lim: Limits, scope: Scope, s: State, step: Step, x: int)
    requires ClockInv(lim, s) && Enabled(s, step) && Forward(s, step)
    ensures var s' := Do(lim, s, step);
      |Span(lim, s', scope, x)| <= |Span(lim, s, scope, x)| || |Span(lim, s', scope, x)| <= |Recent(lim, s', scope)|
  {
    var s' := Do(lim, s, step);
    ClockInvPreserved(lim, s, step);
    if step.ReserveRow? && s'.ledger != s.ledger && x <= s.clock <= x + lim.window {
      SubsetSize(Span(lim, s', scope, x), Recent(lim, s', scope));
    } else {
      SubsetSize(Span(lim, s', scope, x), Span(lim, s, scope, x));
    }
  }

  /** The ledger a run starts on: nothing from the future, and no window over `bound`. */
  ghost predicate StartsWithin(lim: Limits, bound: int, scope: Scope, s: State) {
    && (forall id :: id in s.ledger.rows ==> s.ledger.rows[id].issuedAt <= s.clock)
    && |Recent(lim, s, scope)| <= bound
    && forall x :: |Span(lim, s, scope, x)| <= bound
  }

  lemma RacingWithin(s: State, scope: Scope)
    ensures |Racing(s, scope)| <= |Racing(s, Global)|
  {
    SubsetSize(Racing(s, scope), Racing(s, Global));
  }

  /** At most `k` threads are ever between their count and their reservation. */
  ghost predicate AtMostRacing(ss: seq<State>, scope: Scope, k: nat) {
    forall i :: 0 <= i < |ss| ==> |Racing(ss[i], scope)| <= k
  }

  /**
   The ceiling, globally and per participant, on every run whose clock does not
   go back, over whatever ledger earlier processes left: recent rows plus racing threads, and every inclusive window
   of the configured length, stay at or below the larger of max - 1 + k and
   what was there at the start.
   */
  lemma {:induction false} CeilingHolds(lim: Limits, k: nat, bound: int, scope: Scope, ss: seq<State>, steps: seq<Step>, i: nat, x: int)
    requires IsRun(lim, ss, steps) && NeverBack(ss, steps) && i < |ss| && AtMostRacing(ss, scope, k)
    requires bound >= lim.Max(scope) - 1 + k && StartsWithin(lim, bound, scope, ss[0])
    ensures ClockInv(lim, ss[i])
    ensures |Recent(lim, ss[i], scope)| + |Racing(ss[i], scope)| <= bound
    ensures |Span(lim, ss[i], scope, x)| <= bound
  {
    if i == 0 {
      assert Racing(ss[0], scope) == {};
    } else {
      CeilingHolds(lim, k, bound, scope, ss, steps, i - 1, x);
      LedgerWellFormed(lim, ss, steps, i - 1);
      var s, step := ss[i - 1], steps[i - 1];
      assert StepAt(lim, ss, steps, i - 1);
      assert |Racing(ss[i], scope)| <= k;
      ClockInvPreserved(lim, s, step);
      CeilingStep(lim, k, bound, scope, s, step);
      SpanStep(lim, scope, s, step, x);
    }
  }

  /** From a fresh database the ceiling is max - 1 + k; with k = 1 that is the configured max. */
  lemma FreshCeiling(lim: Limits, k: nat, scope: Scope, ss: seq<State>, steps: seq<Step>, i: nat, x: int)
    requires IsRun(lim, ss, steps) && NeverBack(ss, steps) && i < |ss| && AtMostRacing(ss, scope, k) && k >= 1
    requires ss[0].ledger.rows == map[]
    ensures |Recent(lim, ss[i], scope)| + |Racing(ss[i], scope)| <= lim.Max(scope) - 1 + k
    ensures |Span(lim, ss[i], scope, x)| <= lim.Max(scope) - 1 + k
  {
    assert Recent(lim, ss[0], scope) == {} && forall y :: Span(lim, ss[0], scope, y) == {};
    CeilingHolds(lim, k, lim.Max(scope) - 1 + k, scope, ss, steps, i, x);
  }

  lemma LedgerWellFormed(lim: Limits, ss: seq<State>, steps: seq<Step>, i: nat)
    requires IsRun(lim, ss, steps) && i < |ss|
    ensures IssuanceLedger.WellFormed(ss[i].ledger)
  {
    RunInv(lim, ss, steps, i);
  }
}
