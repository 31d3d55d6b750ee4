/**
 Runs of the issuance protocol that show the bound of RateCeiling to be exact:
 racing threads reach it on every configuration, and every step back of the
 wall clock lets a run go over it. The requests of these runs carry ids that
 `validate_id` (src/handlers.rs) accepts; EnoughSlots says how many there are.
 */
module CeilingRuns {
  import opened Bytes
  import opened Sets
  import opened IssuanceLedger
  import opened Issuance
  import opened RateCeiling

  const MAX_ID_LEN: nat := 256

  predicate ValidId(id: Text) {
    1 <= |id| <= MAX_ID_LEN
  }

  /** What `sign` demands of a request before it reaches `sign_blocking`. */
  predicate ValidSlot(slot: Slot) {
    ValidId(slot.groupId) && ValidId(slot.participantId) && ValidId(slot.versionId)
  }

  /** Distinct requests that press on one ceiling: all of one participant, or each of another. */
  ghost predicate Press(scope: Scope, slots: seq<Slot>) {
    && (forall i, j :: 0 <= i < j < |slots| ==> Apart(scope, slots[i], slots[j]))
    && (scope.Participant? ==> forall i :: 0 <= i < |slots| ==> InScope(scope, slots[i]))
  }

  predicate Apart(scope: Scope, a: Slot, b: Slot) {
    a != b && (scope.Global? ==> a.participantId != b.participantId)
  }

  /** The limits under which that ceiling is the one that decides. */
  predicate Decides(lim: Limits, scope: Scope) {
    1 <= lim.participantMax && 1 <= lim.globalMax && (scope.Participant? ==> lim.participantMax <= lim.globalMax)
  }

  // ----- there are enough valid requests

  /** How many ids `width` decimal digits give. */
  function Ids(width: nat): nat {
    if width == 0 then 1 else 10 * Ids(width - 1)
  }

  /** `n` in `width` ASCII digits. */
  function Decimal(n: nat, width: nat): (r: Text)
    ensures |r| == width
  {
    if width == 0 then [] else Decimal(n / 10, width - 1) + [48 + n % 10]
  }

  lemma {:induction false} DecimalInjective(m: nat, n: nat, width: nat)
    requires m < Ids(width) && n < Ids(width) && Decimal(m, width) == Decimal(n, width)
    ensures m == n
  {
    if width > 0 {
      var a, b := Decimal(m, width), Decimal(n, width);
      assert a[..width - 1] == Decimal(m / 10, width - 1) && a[width - 1] == 48 + m % 10;
      assert b[..width - 1] == Decimal(n / 10, width - 1) && b[width - 1] == 48 + n % 10;
      DecimalInjective(m / 10, n / 10, width - 1);
    }
  }

  /** Request number `n` in group "g": a version of its own for one participant, or a participant of its own. */
  function Numbered(scope: Scope, width: nat, n: nat): Slot {
    match scope
    case Participant(p) => Slot([103], p, Decimal(n, width))
    case Global => Slot([103], Decimal(n, width), [118])
  }

  /** Up to ten to the 256th valid requests can press on one ceiling. */
  lemma EnoughSlots(scope: Scope, width: nat, n: nat) returns (slots: seq<Slot>)
    requires 1 <= width <= MAX_ID_LEN && n <= Ids(width)
    requires scope.Participant? ==> ValidId(scope.id)
    ensures |slots| == n && Press(scope, slots)
    ensures forall i :: 0 <= i < n ==> ValidSlot(slots[i])
  {
    slots := seq(n, i requires 0 <= i < n => Numbered(scope, width, i));
    forall i, j | 0 <= i < j < n
      ensures Apart(scope, slots[i], slots[j])
    {
      if Decimal(i, width) == Decimal(j, width) { DecimalInjective(i, j, width); }
    }
  }

  // ----- runs under construction

  /** What stays fixed while a run is built: at most `k` racing threads, and at most one kind of step back. */
  datatype Plan = Plan(lim: Limits, scope: Scope, slots: seq<Slot>, k: nat, before: int, after: int, floor: int)
  {
    ghost predicate Valid() {
      Press(scope, slots) && Decides(lim, scope) && k >= 1
    }

    predicate Permits(s: State, step: Step) {
      step.Tick? ==> step.now >= floor && (step.now >= s.clock || (s.clock == before && step.now == after))
    }
  }

  /** The clock goes back only from `before` to `after`, and never below `floor`. */
  ghost predicate BackOnly(ss: seq<State>, steps: seq<Step>, before: int, after: int, floor: int) {
    && |ss| == |steps| + 1
    && (forall i :: 0 <= i < |ss| ==> ss[i].clock >= floor)
    && (forall i :: 0 <= i < |steps| ==> Forward(ss[i], steps[i]) || (ss[i].clock == before && steps[i] == Tick(after)))
  }

  ghost predicate CalmAt(p: Plan, ss: seq<State>, i: nat)
    requires i < |ss|
  {
    |Racing(ss[i], Global)| <= p.k && ss[i].clock >= p.floor
  }

  ghost predicate MoveAt(p: Plan, ss: seq<State>, steps: seq<Step>, i: nat)
    requires i < |steps| < |ss|
  {
    StepAt(p.lim, ss, steps, i) && p.Permits(ss[i], steps[i])
  }

  ghost predicate ReachesBy(p: Plan, s: State, ss: seq<State>, steps: seq<Step>) {
    && |ss| == |steps| + 1 && Init(ss[0]) && ss[0].ledger.rows == map[] && ss[|ss| - 1] == s
    && (forall i :: 0 <= i < |ss| ==> CalmAt(p, ss, i))
    && (forall i :: 0 <= i < |steps| ==> MoveAt(p, ss, steps, i))
  }

  ghost predicate Reaches(p: Plan, s: State) {
    exists ss, steps :: ReachesBy(p, s, ss, steps)
  }

  lemma Start(p: Plan, s: State)
    requires Init(s) && s.ledger.rows == map[] && s.clock >= p.floor
    ensures Reaches(p, s)
  {
    assert Racing(s, Global) == {};
    assert CalmAt(p, [s], 0);
    assert ReachesBy(p, s, [s], []);
  }

  lemma Extend(p: Plan, s: State, step: Step, s': State)
    requires Reaches(p, s) && Enabled(s, step) && s' == Do(p.lim, s, step) && |Racing(s', Global)| <= p.k
    requires p.Permits(s, step)
    ensures Reaches(p, s')
  {
    var ss, steps :| ReachesBy(p, s, ss, steps);
    var ss', steps' := ss + [s'], steps + [step];
    forall i | 0 <= i < |steps'| ensures MoveAt(p, ss', steps', i) {
      assert i < |steps| ==> MoveAt(p, ss, steps, i);
    }
    forall i | 0 <= i < |ss'| ensures CalmAt(p, ss', i) {
      assert CalmAt(p, ss, if i < |ss| then i else i - 1);
    }
    assert ReachesBy(p, s', ss', steps');
  }

  /** A constructed run, as the theorems speak of it. */
  lemma TheRun(p: Plan, s: State) returns (ss: seq<State>, steps: seq<Step>)
    requires Reaches(p, s)
    ensures IsRun(p.lim, ss, steps) && ss[0].ledger.rows == map[] && ss[|ss| - 1] == s
    ensures AtMostRacing(ss, Global, p.k) && AtMostRacing(ss, p.scope, p.k)
    ensures BackOnly(ss, steps, p.before, p.after, p.floor)
  {
    ss, steps :| ReachesBy(p, s, ss, steps);
    forall i | 0 <= i < |steps|
      ensures StepAt(p.lim, ss, steps, i) && (Forward(ss[i], steps[i]) || (ss[i].clock == p.before && steps[i] == Tick(p.after)))
    {
      assert MoveAt(p, ss, steps, i);
    }
    forall i | 0 <= i < |ss|
      ensures |Racing(ss[i], p.scope)| <= |Racing(ss[i], Global)| <= p.k && ss[i].clock >= p.floor
    {
      assert CalmAt(p, ss, i);
      RacingWithin(ss[i], p.scope);
    }
  }

  /** The rows of the first |stamps| requests. */
  function Rows(slots: seq<Slot>, stamps: seq<int>): Ledger
    requires |stamps| <= |slots|
  {
    Ledger(map id: int | 1 <= id <= |stamps| :: RowAt(slots, stamps, id), |stamps|)
  }

  function RowAt(slots: seq<Slot>, stamps: seq<int>, id: int): Row
    requires 1 <= id <= |stamps| <= |slots|
  {
    Row(slots[id - 1], stamps[id - 1])
  }

  /** The first |stamps| requests have reserved at those times, the next `j` were let through. */
  function Stage(slots: seq<Slot>, stamps: seq<int>, j: nat, clock: int): State
    requires |stamps| + j <= |slots|
  {
    State(Rows(slots, stamps),
          map t: nat | t < |stamps| + j :: Thread(slots[t], if t < |stamps| then Reserved(t + 1) else Allowed),
          clock, [], {})
  }

  /** The stage with one further thread on its way in. */
  function Entering(slots: seq<Slot>, stamps: seq<int>, j: nat, clock: int, pc: Pc): State
    requires |stamps| + j < |slots|
  {
    var s, t := Stage(slots, stamps, j, clock), |stamps| + j;
    s.(threads := s.threads[t := Thread(slots[t], pc)])
  }

  lemma {:induction false} RangeSize(lo: int, n: nat, s: set<int>)
    requires forall t :: t in s <==> lo <= t < lo + n
    ensures |s| == n
  {
    if n == 0 {
      assert forall x :: x in s ==> lo <= x < lo;
      assert s == {};
    } else {
      RangeSize(lo, n - 1, s - {lo + n - 1});
    }
  }

  lemma StageRacing(slots: seq<Slot>, stamps: seq<int>, j: nat, clock: int)
    requires |stamps| + j <= |slots|
    ensures |Racing(Stage(slots, stamps, j, clock), Global)| == j
  {
    RangeSize(|stamps|, j, Racing(Stage(slots, stamps, j, clock), Global));
  }

  lemma EnteringRacing(slots: seq<Slot>, stamps: seq<int>, j: nat, clock: int, pc: Pc)
    requires |stamps| + j < |slots|
    ensures |Racing(Entering(slots, stamps, j, clock, pc), Global)| <= j + 1
  {
    StageRacing(slots, stamps, j, clock);
    SizeAfter(Racing(Stage(slots, stamps, j, clock), Global), Racing(Entering(slots, stamps, j, clock, pc), Global), |stamps| + j);
  }

  /** Fewer visible rows than the deciding ceiling: both counts let the next request through. */
  lemma Room(p: Plan, stamps: seq<int>, t: nat, since: int)
    requires p.Valid() && |stamps| <= t < |p.slots|
    requires |RowsSince(Rows(p.slots, stamps), Global, since)| < p.lim.Max(p.scope)
    ensures CountSince(Rows(p.slots, stamps), Global, since) < p.lim.globalMax
    ensures CountSince(Rows(p.slots, stamps), Participant(p.slots[t].participantId), since) < p.lim.participantMax
  {
    var l, mine := Rows(p.slots, stamps), Participant(p.slots[t].participantId);
    if p.scope.Participant? {
      SubsetSize(RowsSince(l, mine, since), RowsSince(l, Global, since));
    } else {
      forall id | id in l.rows ensures !InScope(mine, l.rows[id].slot) { assert Apart(p.scope, p.slots[id - 1], p.slots[t]); }
      assert RowsSince(l, mine, since) == {};
    }
  }

  lemma EnteringGoto(slots: seq<Slot>, stamps: seq<int>, j: nat, clock: int, pc: Pc, pc': Pc)
    requires |stamps| + j < |slots|
    ensures Goto(Entering(slots, stamps, j, clock, pc), |stamps| + j, pc') == Entering(slots, stamps, j, clock, pc')
  {
    var s, t := Entering(slots, stamps, j, clock, pc), |stamps| + j;
    assert s.threads[t := s.threads[t].(pc := pc')] == Entering(slots, stamps, j, clock, pc').threads;
  }

  lemma EnterSteps(p: Plan, stamps: seq<int>, j: nat, clock: int)
    requires |stamps| + j < |p.slots|
    ensures var t, since := |stamps| + j, clock - p.lim.window;
      && Do(p.lim, Stage(p.slots, stamps, j, clock), Arrive(t, p.slots[t])) == Entering(p.slots, stamps, j, clock, Arrived)
      && Do(p.lim, Entering(p.slots, stamps, j, clock, Arrived), ReadClock(t)) == Entering(p.slots, stamps, j, clock, ClockRead(since))
  {
    EnteringGoto(p.slots, stamps, j, clock, Arrived, ClockRead(clock - p.lim.window));
  }

  lemma CountSteps(p: Plan, stamps: seq<int>, j: nat, clock: int)
    requires p.Valid() && |stamps| + j < |p.slots|
    requires |RowsSince(Rows(p.slots, stamps), Global, clock - p.lim.window)| < p.lim.Max(p.scope)
    ensures var t, since := |stamps| + j, clock - p.lim.window;
      && Do(p.lim, Entering(p.slots, stamps, j, clock, ClockRead(since)), CountGlobal(t, false))
         == Entering(p.slots, stamps, j, clock, GlobalPassed(since))
      && Do(p.lim, Entering(p.slots, stamps, j, clock, GlobalPassed(since)), CountParticipant(t, false))
         == Entering(p.slots, stamps, j, clock, Allowed)
  {
    var t, since := |stamps| + j, clock - p.lim.window;
    Room(p, stamps, t, since);
    EnteringGoto(p.slots, stamps, j, clock, ClockRead(since), GlobalPassed(since));
    EnteringGoto(p.slots, stamps, j, clock, GlobalPassed(since), Allowed);
  }

  lemma EnteredStage(slots: seq<Slot>, stamps: seq<int>, j: nat, clock: int)
    requires |stamps| + j < |slots|
    ensures Entering(slots, stamps, j, clock, Allowed) == Stage(slots, stamps, j + 1, clock)
  {
    assert Entering(slots, stamps, j, clock, Allowed).threads == Stage(slots, stamps, j + 1, clock).threads;
  }

  lemma ReadIn(p: Plan, stamps: seq<int>, j: nat, clock: int)
    requires |stamps| + j < |p.slots| && j < p.k && Reaches(p, Stage(p.slots, stamps, j, clock))
    ensures Reaches(p, Entering(p.slots, stamps, j, clock, ClockRead(clock - p.lim.window)))
  {
    var t, since := |stamps| + j, clock - p.lim.window;
    EnterSteps(p, stamps, j, clock);
    EnteringRacing(p.slots, stamps, j, clock, Arrived);
    EnteringRacing(p.slots, stamps, j, clock, ClockRead(since));
    Extend(p, Stage(p.slots, stamps, j, clock), Arrive(t, p.slots[t]), Entering(p.slots, stamps, j, clock, Arrived));
    Extend(p, Entering(p.slots, stamps, j, clock, Arrived), ReadClock(t), Entering(p.slots, stamps, j, clock, ClockRead(since)));
  }

  lemma PassGlobal(p: Plan, stamps: seq<int>, j: nat, clock: int)
    requires p.Valid() && |stamps| + j < |p.slots| && j < p.k
    requires Reaches(p, Stage(p.slots, stamps, j, clock))
    requires |RowsSince(Rows(p.slots, stamps), Global, clock - p.lim.window)| < p.lim.Max(p.scope)
    ensures Reaches(p, Entering(p.slots, stamps, j, clock, GlobalPassed(clock - p.lim.window)))
  {
    var t, since := |stamps| + j, clock - p.lim.window;
    ReadIn(p, stamps, j, clock);
    CountSteps(p, stamps, j, clock);
    EnteringRacing(p.slots, stamps, j, clock, GlobalPassed(since));
    Extend(p, Entering(p.slots, stamps, j, clock, ClockRead(since)), CountGlobal(t, false), Entering(p.slots, stamps, j, clock, GlobalPassed(since)));
  }

  /** One more thread gets through both counts while fewer than max rows are visible. */
  lemma Admit(p: Plan, stamps: seq<int>, j: nat, clock: int)
    requires p.Valid() && |stamps| + j < |p.slots| && j < p.k
    requires Reaches(p, Stage(p.slots, stamps, j, clock))
    requires |RowsSince(Rows(p.slots, stamps), Global, clock - p.lim.window)| < p.lim.Max(p.scope)
    ensures Reaches(p, Stage(p.slots, stamps, j + 1, clock))
  {
    var t, since := |stamps| + j, clock - p.lim.window;
    PassGlobal(p, stamps, j, clock);
    CountSteps(p, stamps, j, clock);
    EnteredStage(p.slots, stamps, j, clock);
    EnteringRacing(p.slots, stamps, j, clock, Allowed);
    Extend(p, Entering(p.slots, stamps, j, clock, GlobalPassed(since)), CountParticipant(t, false), Stage(p.slots, stamps, j + 1, clock));
  }

  lemma NextSlotIsFree(p: Plan, stamps: seq<int>)
    requires p.Valid() && |stamps| < |p.slots|
    ensures !Taken(Rows(p.slots, stamps), p.slots[|stamps|])
  {
    var l := Rows(p.slots, stamps);
    forall id | id in l.rows ensures l.rows[id].slot != p.slots[|stamps|] {
      assert Apart(p.scope, p.slots[id - 1], p.slots[|stamps|]);
    }
  }

  lemma RowsSnoc(slots: seq<Slot>, stamps: seq<int>, at: int)
    requires |stamps| < |slots|
    ensures Rows(slots, stamps + [at]) == Ledger(Rows(slots, stamps).rows[|stamps| + 1 := Row(slots[|stamps|], at)], |stamps| + 1)
  {
    var l, l', n := Rows(slots, stamps).rows, Rows(slots, stamps + [at]).rows, |stamps| + 1;
    forall id | id in l ensures l'[id] == l[id] { assert (stamps + [at])[id - 1] == stamps[id - 1]; }
    assert l' == l[n := Row(slots[n - 1], at)];
  }

  lemma ThreadsSettle(slots: seq<Slot>, stamps: seq<int>, j: nat, clock: int)
    requires |stamps| + j < |slots|
    ensures Stage(slots, stamps + [clock], j, clock).threads ==
            Stage(slots, stamps, j + 1, clock).threads[|stamps| := Thread(slots[|stamps|], Reserved(|stamps| + 1))]
  {
  }

  lemma SettleStep(p: Plan, stamps: seq<int>, j: nat, clock: int)
    requires p.Valid() && |stamps| + j < |p.slots|
    ensures Enabled(Stage(p.slots, stamps, j + 1, clock), ReserveRow(|stamps|, false))
    ensures Do(p.lim, Stage(p.slots, stamps, j + 1, clock), ReserveRow(|stamps|, false)) == Stage(p.slots, stamps + [clock], j, clock)
  {
    NextSlotIsFree(p, stamps);
    RowsSnoc(p.slots, stamps, clock);
    ThreadsSettle(p.slots, stamps, j, clock);
  }

  /** A thread that was let through makes its reservation, however many rows there are by now. */
  lemma Settle(p: Plan, stamps: seq<int>, j: nat, clock: int)
    requires p.Valid() && |stamps| + j < |p.slots| && j <= p.k && Reaches(p, Stage(p.slots, stamps, j + 1, clock))
    ensures Reaches(p, Stage(p.slots, stamps + [clock], j, clock))
  {
    SettleStep(p, stamps, j, clock);
    StageRacing(p.slots, stamps + [clock], j, clock);
    Extend(p, Stage(p.slots, stamps, j + 1, clock), ReserveRow(|stamps|, false), Stage(p.slots, stamps + [clock], j, clock));
  }

  lemma SetClock(p: Plan, stamps: seq<int>, j: nat, clock: int, now: int)
    requires |stamps| + j <= |p.slots| && j <= p.k && Reaches(p, Stage(p.slots, stamps, j, clock))
    requires p.Permits(Stage(p.slots, stamps, j, clock), Tick(now))
    ensures Reaches(p, Stage(p.slots, stamps, j, now))
  {
    StageRacing(p.slots, stamps, j, now);
    Extend(p, Stage(p.slots, stamps, j, clock), Tick(now), Stage(p.slots, stamps, j, now));
  }

  function Copies(x: int, n: nat): (r: seq<int>)
    ensures |r| == n
  {
    seq(n, _ => x)
  }

  lemma OneMore(x: int, n: nat)
    ensures Copies(x, n) + [x] == Copies(x, n + 1)
  {
  }

  lemma StampOneMore(stamps: seq<int>, x: int, n: nat)
    ensures stamps + Copies(x, n) + [x] == stamps + Copies(x, n + 1)
  {
  }

  lemma VisibleAtMost(p: Plan, stamps: seq<int>, since: int)
    requires |stamps| <= |p.slots|
    ensures |RowsSince(Rows(p.slots, stamps), Global, since)| <= |stamps|
    ensures (forall i :: 0 <= i < |stamps| ==> stamps[i] < since) ==> RowsSince(Rows(p.slots, stamps), Global, since) == {}
  {
    var all := Rows(p.slots, stamps).rows.Keys;
    RangeSize(1, |stamps|, all);
    SubsetSize(RowsSince(Rows(p.slots, stamps), Global, since), all);
  }

  lemma EmptyStage(p: Plan, at: int)
    requires at >= p.floor
    ensures Reaches(p, Stage(p.slots, Copies(at, 0), 0, at))
  {
    var s := Stage(p.slots, Copies(at, 0), 0, at);
    assert s.threads == map[] && s.ledger.rows == map[];
    Start(p, s);
  }

  /** One request from arrival to reservation. */
  lemma Serve(p: Plan, stamps: seq<int>, at: int)
    requires p.Valid() && |stamps| < |p.slots| && |stamps| < p.lim.Max(p.scope) && Reaches(p, Stage(p.slots, stamps, 0, at))
    ensures Reaches(p, Stage(p.slots, stamps + [at], 0, at))
  {
    VisibleAtMost(p, stamps, at - p.lim.window);
    Admit(p, stamps, 0, at);
    Settle(p, stamps, 0, at);
  }

  /** One thread at a time, `n` rows at one instant, as far as the ceiling lets it. */
  lemma {:induction false} Fill(p: Plan, n: nat, at: int)
    requires p.Valid() && n <= |p.slots| && n <= p.lim.Max(p.scope) && at >= p.floor
    ensures Reaches(p, Stage(p.slots, Copies(at, n), 0, at))
  {
    if n == 0 {
      EmptyStage(p, at);
    } else {
      Fill(p, n - 1, at);
      Serve(p, Copies(at, n - 1), at);
      OneMore(at, n - 1);
    }
  }

  /** Further threads are let through by the same count. */
  lemma {:induction false} Crowd(p: Plan, stamps: seq<int>, j: nat, clock: int)
    requires p.Valid() && |stamps| + j <= |p.slots| && j <= p.k && Reaches(p, Stage(p.slots, stamps, 0, clock))
    requires |RowsSince(Rows(p.slots, stamps), Global, clock - p.lim.window)| < p.lim.Max(p.scope)
    ensures Reaches(p, Stage(p.slots, stamps, j, clock))
  {
    if j > 0 {
      Crowd(p, stamps, j - 1, clock);
      Admit(p, stamps, j - 1, clock);
    }
  }

  /** They reserve one after the other. */
  lemma {:induction false} Drain(p: Plan, stamps: seq<int>, j: nat, clock: int, n: nat)
    requires p.Valid() && n <= j <= p.k && |stamps| + j <= |p.slots| && Reaches(p, Stage(p.slots, stamps, j, clock))
    ensures Reaches(p, Stage(p.slots, stamps + Copies(clock, n), j - n, clock))
  {
    if n == 0 {
      assert stamps + Copies(clock, 0) == stamps;
    } else {
      Drain(p, stamps, j, clock, n - 1);
      Settle(p, stamps + Copies(clock, n - 1), j - n, clock);
      StampOneMore(stamps, clock, n - 1);
    }
  }

  /** When every stamp lies in one window, that window holds every request, in the ceiling's own scope. */
  lemma StageSpan(p: Plan, stamps: seq<int>, j: nat, clock: int, x: int)
    requires p.Valid() && |stamps| + j <= |p.slots|
    requires forall i :: 0 <= i < |stamps| ==> x <= stamps[i] <= x + p.lim.window
    ensures |Span(p.lim, Stage(p.slots, stamps, j, clock), p.scope, x)| == |stamps|
  {
    RangeSize(1, |stamps|, Span(p.lim, Stage(p.slots, stamps, j, clock), p.scope, x));
  }

  /** The run made exactly the listed requests. */
  ghost predicate Served(s: State, slots: seq<Slot>) {
    forall t: nat :: (t in s.threads <==> t < |slots|) && (t < |slots| ==> s.threads[t].slot == slots[t])
  }

  // ----- what the runs show

  /** One row short of the ceiling, and `k` threads that have seen it so. */
  lemma FullHouse(p: Plan)
    requires p.Valid() && p.floor == 0 && |p.slots| == p.lim.Max(p.scope) - 1 + p.k
    ensures Reaches(p, Stage(p.slots, Copies(0, p.lim.Max(p.scope) - 1), p.k, 0))
  {
    var n := p.lim.Max(p.scope) - 1;
    Fill(p, n, 0);
    VisibleAtMost(p, Copies(0, n), 0 - p.lim.window);
    Crowd(p, Copies(0, n), p.k, 0);
  }

  /**
   No smaller bound than max - 1 + k is true: whatever the limits under which
   that ceiling decides, and whatever distinct requests press on it, some run
   with at most k racing threads, a clock that never goes back and an empty
   ledger to start with reserves max - 1 + k of them within one window. So the
   configured max is a real ceiling only for k = 1.
   */
  lemma CeilingIsMet(lim: Limits, scope: Scope, k: nat, slots: seq<Slot>) returns (ss: seq<State>, steps: seq<Step>)
    requires Press(scope, slots) && Decides(lim, scope) && k >= 1 && |slots| == lim.Max(scope) - 1 + k
    ensures IsRun(lim, ss, steps) && ss[0].ledger.rows == map[]
    ensures AtMostRacing(ss, Global, k) && AtMostRacing(ss, scope, k) && NeverBack(ss, steps)
    ensures Served(ss[|ss| - 1], slots)
    ensures |Span(lim, ss[|ss| - 1], scope, 0)| == |Recent(lim, ss[|ss| - 1], scope)| == lim.Max(scope) - 1 + k
  {
    var p, n := Plan(lim, scope, slots, k, 0, 0, 0), lim.Max(scope) - 1;
    FullHouse(p);
    Drain(p, Copies(0, n), k, 0, k);
    var stamps := Copies(0, n) + Copies(0, k);
    StageSpan(p, stamps, 0, 0, 0);
    assert Recent(lim, Stage(slots, stamps, 0, 0), scope) == Span(lim, Stage(slots, stamps, 0, 0), scope, 0);
    ss, steps := TheRun(p, Stage(slots, stamps, 0, 0));
  }

  /** A count made after a jump forward overlooks a full window of rows. */
  lemma Overlook(p: Plan)
    requires p.Valid() && p.after < p.before && p.floor == p.after - p.lim.window && |p.slots| == p.lim.Max(p.scope) + p.k
    ensures Reaches(p, Stage(p.slots, Copies(p.floor, p.lim.Max(p.scope)), p.k, p.before))
  {
    var early := Copies(p.floor, p.lim.Max(p.scope));
    Fill(p, p.lim.Max(p.scope), p.floor);
    SetClock(p, early, 0, p.floor, p.before);
    VisibleAtMost(p, early, p.before - p.lim.window);
    Crowd(p, early, p.k, p.before);
  }

  /**
   The clock hypothesis cannot be dropped for any step back, however small:
   for every pair of clock values a later one of which is lower, and every k,
   a run that goes back only from the one to the other puts max + k requests
   into one window, one more than RateCeiling allows. Its clock never reads
   less than one window before the lower value.
   */
  lemma EveryStepBackBreaksTheCeiling(lim: Limits, scope: Scope, k: nat, slots: seq<Slot>, before: int, after: int)
    returns (ss: seq<State>, steps: seq<Step>)
    requires Press(scope, slots) && Decides(lim, scope) && k >= 1 && |slots| == lim.Max(scope) + k
    requires after < before
    ensures IsRun(lim, ss, steps) && ss[0].ledger.rows == map[]
    ensures AtMostRacing(ss, Global, k) && AtMostRacing(ss, scope, k)
    ensures BackOnly(ss, steps, before, after, after - lim.window)
    ensures Served(ss[|ss| - 1], slots)
    ensures |Span(lim, ss[|ss| - 1], scope, after - lim.window)| == lim.Max(scope) + k
  {
    var x := after - lim.window;
    var p := Plan(lim, scope, slots, k, before, after, x);
    var early := Copies(x, lim.Max(scope));
    Overlook(p);
    SetClock(p, early, k, before, after);
    Drain(p, early, k, after, k);
    var stamps := early + Copies(after, k);
    StageSpan(p, stamps, 0, after, x);
    ss, steps := TheRun(p, Stage(slots, stamps, 0, after));
  }

  /** Count in the future, reserve in the past: the rows of the past are out of sight. */
  lemma ServeInThePast(p: Plan, stamps: seq<int>)
    requires p.Valid() && |stamps| < |p.slots| && p.floor == p.after && p.before > p.after + p.lim.window
    requires forall i :: 0 <= i < |stamps| ==> stamps[i] == p.after
    requires Reaches(p, Stage(p.slots, stamps, 0, p.after))
    ensures Reaches(p, Stage(p.slots, stamps + [p.after], 0, p.after))
  {
    SetClock(p, stamps, 0, p.after, p.before);
    VisibleAtMost(p, stamps, p.before - p.lim.window);
    Admit(p, stamps, 0, p.before);
    SetClock(p, stamps, 1, p.before, p.after);
    Settle(p, stamps, 0, p.after);
  }

  lemma {:induction false} Refill(p: Plan, n: nat)
    requires p.Valid() && n <= |p.slots| && p.floor == p.after && p.before > p.after + p.lim.window
    ensures Reaches(p, Stage(p.slots, Copies(p.after, n), 0, p.after))
  {
    if n == 0 {
      EmptyStage(p, p.after);
    } else {
      Refill(p, n - 1);
      ServeInThePast(p, Copies(p.after, n - 1));
      OneMore(p.after, n - 1);
    }
  }

  /** Going back by more than one window, again and again, leaves no bound: one racing thread, any number of rows at one instant. */
  lemma LongStepsBackLeaveNoCeiling(lim: Limits, scope: Scope, slots: seq<Slot>, before: int, after: int)
    returns (ss: seq<State>, steps: seq<Step>)
    requires Press(scope, slots) && Decides(lim, scope) && before > after + lim.window
    ensures IsRun(lim, ss, steps) && ss[0].ledger.rows == map[]
    ensures AtMostRacing(ss, Global, 1) && AtMostRacing(ss, scope, 1) && BackOnly(ss, steps, before, after, after)
    ensures Served(ss[|ss| - 1], slots)
    ensures |Span(lim, ss[|ss| - 1], scope, after)| == |slots|
  {
    var p := Plan(lim, scope, slots, 1, before, after, after);
    Refill(p, |slots|);
    StageSpan(p, Copies(after, |slots|), 0, after, after);
    ss, steps := TheRun(p, Stage(slots, Copies(after, |slots|), 0, after));
  }
}
