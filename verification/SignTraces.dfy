/**
 What a `/sign` thread does, told by its own steps alone (src/handlers.rs,
 `sign_blocking`): which step may come next after which outcome, and which
 steps a signature is made of.
 */
module SignTraces {
  import opened IssuanceLedger
  import opened Issuance

  /** The step belongs to thread `t`. */
  predicate By(step: Step, t: nat) {
    !step.Tick? && step.t == t
  }

  lemma ThreadUntouched(lim: Limits, s: State, step: Step, t: nat)
    requires Enabled(s, step) && !By(step, t)
    ensures var s' := Do(lim, s, step);
      (t in s'.threads <==> t in s.threads) && (t in s.threads ==> s'.threads[t] == s.threads[t])
  {
  }

  /** No step of thread `t` from `i` up to `j`. */
  ghost predicate Silent(steps: seq<Step>, i: nat, j: nat, t: nat)
    requires j <= |steps|
  {
    forall k :: i <= k < j ==> !By(steps[k], t)
  }

  lemma {:induction false} SilentKeeps(lim: Limits, ss: seq<State>, steps: seq<Step>, i: nat, j: nat, t: nat)
    requires IsRun(lim, ss, steps) && i <= j < |ss| && Silent(steps, i, j, t) && t in ss[i].threads
    ensures t in ss[j].threads && ss[j].threads[t] == ss[i].threads[t]
  {
    if i < j {
      SilentKeeps(lim, ss, steps, i, j - 1, t);
      assert StepAt(lim, ss, steps, j - 1);
      ThreadUntouched(lim, ss[j - 1], steps[j - 1], t);
    }
  }

  // ----- which step comes next

  /** How far a thread is. */
  function Rank(pc: Pc): nat {
    match pc
    case Arrived => 0
    case ClockRead(_) => 1
    case GlobalPassed(_) => 2
    case Allowed => 3
    case Reserved(_) => 4
    case KeyLoaded(_) => 5
    case RollingBack(_) => 6
    case Signed(_) => 7
    case Refused => 8
    case Crashed => 9
  }

  /** Below its ceiling, by the rows themselves. */
  predicate Room(l: Ledger, scope: Scope, since: int, max: int) {
    |RowsSince(l, scope, since)| < max
  }

  /** `next` may follow `last` on the same thread, where `last` was taken in state `s`. */
  predicate Follows(lim: Limits, s: State, last: Step, next: Step)
    requires Enabled(s, last) && !last.Tick?
  {
    match last
    case Arrive(_, _) => next.ReadClock? || next.Crash?
    case ReadClock(_) => next.CountGlobal? || next.Crash?
    case CountGlobal(t, fault) =>
      !fault && Room(s.ledger, Global, s.threads[t].pc.since, lim.globalMax) && (next.CountParticipant? || next.Crash?)
    case CountParticipant(t, fault) =>
      && !fault && Room(s.ledger, Participant(s.threads[t].slot.participantId), s.threads[t].pc.since, lim.participantMax)
      && (next.ReserveRow? || next.Crash?)
    case ReserveRow(t, fault) => !fault && !Taken(s.ledger, s.threads[t].slot) && (next.LoadKey? || next.Crash?)
    case LoadKey(_, ok) => next.Crash? || if ok then next.BlindSign? else next.Rollback?
    case BlindSign(_, ok) => next.Crash? || (!ok && next.Rollback?)
    case Rollback(_, _) => false
    case Crash(_) => false
  }

  lemma EnabledAfter(lim: Limits, s: State, last: Step, next: Step)
    requires Enabled(s, last) && !last.Tick? && By(next, last.t)
    ensures Enabled(Do(lim, s, last), next) <==> Follows(lim, s, last, next)
    ensures last.t in Do(lim, s, last).threads
  {
    if last.CountGlobal? {
      SaturationIsExact(s.ledger, Global, s.threads[last.t].pc.since, lim.globalMax);
    } else if last.CountParticipant? {
      SaturationIsExact(s.ledger, Participant(s.threads[last.t].slot.participantId), s.threads[last.t].pc.since, lim.participantMax);
    }
  }

  lemma EnabledByThread(s: State, s': State, next: Step)
    requires !next.Tick? && next.t in s.threads && next.t in s'.threads && s'.threads[next.t] == s.threads[next.t]
    ensures Enabled(s', next) <==> Enabled(s, next)
  {
  }

  /**
   The protocol, exactly: after a thread's own step `i`, and until its next one,
   the steps open to it are those that may follow that step with the outcome it
   had. A loaded key is signed with, a failed load or signature is rolled back,
   a refusal ends the request.
   */
  lemma NextSteps(lim: Limits, ss: seq<State>, steps: seq<Step>, i: nat, j: nat, next: Step)
    requires IsRun(lim, ss, steps) && i < j < |ss| && !steps[i].Tick? && By(next, steps[i].t)
    requires Silent(steps, i + 1, j, steps[i].t)
    ensures Enabled(ss[i], steps[i])
    ensures Enabled(ss[j], next) <==> Follows(lim, ss[i], steps[i], next)
  {
    assert StepAt(lim, ss, steps, i);
    EnabledAfter(lim, ss[i], steps[i], next);
    SilentKeeps(lim, ss, steps, i + 1, j, steps[i].t);
    EnabledByThread(ss[i + 1], ss[j], next);
  }

  lemma RankStep(lim: Limits, s: State, step: Step, t: nat)
    requires Enabled(s, step) && t in s.threads
    ensures var s' := Do(lim, s, step);
      && t in s'.threads && s'.threads[t].slot == s.threads[t].slot
      && Rank(s'.threads[t].pc) >= Rank(s.threads[t].pc) + if By(step, t) then 1 else 0
  {
  }

  lemma {:induction false} RankGrows(lim: Limits, ss: seq<State>, steps: seq<Step>, i: nat, j: nat, t: nat)
    requires IsRun(lim, ss, steps) && i <= j < |ss| && t in ss[i].threads
    ensures t in ss[j].threads && ss[j].threads[t].slot == ss[i].threads[t].slot
    ensures Rank(ss[j].threads[t].pc) >= Rank(ss[i].threads[t].pc)
  {
    if i < j {
      RankGrows(lim, ss, steps, i, j - 1, t);
      assert StepAt(lim, ss, steps, j - 1);
      RankStep(lim, ss[j - 1], steps[j - 1], t);
    }
  }

  /** The step kinds, so that two steps can be compared without their outcomes. */
  predicate SameKind(a: Step, b: Step) {
    || (a.Arrive? && b.Arrive?) || (a.ReadClock? && b.ReadClock?) || (a.CountGlobal? && b.CountGlobal?)
    || (a.CountParticipant? && b.CountParticipant?) || (a.ReserveRow? && b.ReserveRow?) || (a.LoadKey? && b.LoadKey?)
    || (a.BlindSign? && b.BlindSign?) || (a.Rollback? && b.Rollback?)
  }

  /** Everything but crashing is done at most once by a thread. */
  lemma EachStepOnce(lim: Limits, ss: seq<State>, steps: seq<Step>, i: nat, j: nat, t: nat)
    requires IsRun(lim, ss, steps) && i < |steps| && j < |steps|
    requires By(steps[i], t) && By(steps[j], t) && SameKind(steps[i], steps[j])
    ensures i == j
  {
    if i < j { NotTwice(lim, ss, steps, i, j, t); }
    if j < i { NotTwice(lim, ss, steps, j, i, t); }
  }

  lemma NotTwice(lim: Limits, ss: seq<State>, steps: seq<Step>, i: nat, j: nat, t: nat)
    requires IsRun(lim, ss, steps) && i < j < |steps| && By(steps[i], t) && By(steps[j], t)
    ensures !SameKind(steps[i], steps[j])
  {
    assert StepAt(lim, ss, steps, i) && StepAt(lim, ss, steps, j);
    if !steps[i].Arrive? { RankStep(lim, ss[i], steps[i], t); }
    RankGrows(lim, ss, steps, i + 1, j, t);
  }

  // ----- what a signature is made of

  /** Thread `t` arrived for `slot` at step `k`. */
  ghost predicate ArrivedAt(steps: seq<Step>, k: nat, t: nat, slot: Slot) {
    k < |steps| && steps[k] == Arrive(t, slot)
  }

  /** Step `k` inserted row `id` for thread `t`. */
  ghost predicate TookAt(ss: seq<State>, steps: seq<Step>, k: nat, t: nat, slot: Slot, id: int) {
    k < |steps| < |ss| && steps[k] == ReserveRow(t, false) && id == ss[k].ledger.lastId + 1 && !Taken(ss[k].ledger, slot)
  }

  ghost predicate LoadedAt(steps: seq<Step>, k: nat, t: nat) {
    k < |steps| && steps[k] == LoadKey(t, true)
  }

  ghost predicate SignedAt(steps: seq<Step>, k: nat, t: nat) {
    k < |steps| && steps[k] == BlindSign(t, true)
  }

  /** The way to a signature: arrive, reserve, load the key, sign. */
  ghost predicate Way(ss: seq<State>, steps: seq<Step>, j: nat, t: nat, slot: Slot, id: int, k0: nat, k1: nat, k2: nat, k3: nat) {
    k0 < k1 < k2 < k3 < j && ArrivedAt(steps, k0, t, slot) && TookAt(ss, steps, k1, t, slot, id) && LoadedAt(steps, k2, t) && SignedAt(steps, k3, t)
  }

  /** The row a thread holds or has signed for. */
  predicate OnRow(pc: Pc, id: int) {
    pc == Reserved(id) || pc == KeyLoaded(id) || pc == RollingBack(id) || pc == Signed(id)
  }

  lemma {:induction false} WhenArrived(lim: Limits, ss: seq<State>, steps: seq<Step>, i: nat, t: nat) returns (k: nat)
    requires IsRun(lim, ss, steps) && i < |ss| && t in ss[i].threads
    ensures k < i && ArrivedAt(steps, k, t, ss[i].threads[t].slot)
  {
    assert StepAt(lim, ss, steps, i - 1);
    if t in ss[i - 1].threads {
      k := WhenArrived(lim, ss, steps, i - 1, t);
      RankStep(lim, ss[i - 1], steps[i - 1], t);
    } else {
      k := i - 1;
    }
  }

  lemma {:induction false} WhenTaken(lim: Limits, ss: seq<State>, steps: seq<Step>, i: nat, t: nat, id: int) returns (k: nat)
    requires IsRun(lim, ss, steps) && i < |ss| && t in ss[i].threads && OnRow(ss[i].threads[t].pc, id)
    ensures k < i && t in ss[k].threads && TookAt(ss, steps, k, t, ss[i].threads[t].slot, id)
  {
    assert StepAt(lim, ss, steps, i - 1);
    if t in ss[i - 1].threads && OnRow(ss[i - 1].threads[t].pc, id) {
      k := WhenTaken(lim, ss, steps, i - 1, t, id);
    } else {
      k := i - 1;
    }
  }

  lemma {:induction false} WhenLoaded(lim: Limits, ss: seq<State>, steps: seq<Step>, i: nat, t: nat) returns (k: nat)
    requires IsRun(lim, ss, steps) && i < |ss| && t in ss[i].threads && ss[i].threads[t].pc.KeyLoaded?
    ensures k < i && LoadedAt(steps, k, t) && t in ss[k].threads && ss[k].threads[t].pc == Reserved(ss[i].threads[t].pc.id)
  {
    assert StepAt(lim, ss, steps, i - 1);
    if t in ss[i - 1].threads && ss[i - 1].threads[t].pc.KeyLoaded? {
      k := WhenLoaded(lim, ss, steps, i - 1, t);
    } else {
      k := i - 1;
    }
  }

  /** The steps behind a thread that has its key loaded. */
  lemma WayToTheKey(lim: Limits, ss: seq<State>, steps: seq<Step>, i: nat, t: nat) returns (k0: nat, k1: nat, k2: nat)
    requires IsRun(lim, ss, steps) && i < |ss| && t in ss[i].threads && ss[i].threads[t].pc.KeyLoaded?
    ensures k0 < k1 < k2 < i && ArrivedAt(steps, k0, t, ss[i].threads[t].slot)
    ensures TookAt(ss, steps, k1, t, ss[i].threads[t].slot, ss[i].threads[t].pc.id) && LoadedAt(steps, k2, t)
  {
    k2 := WhenLoaded(lim, ss, steps, i, t);
    RankGrows(lim, ss, steps, k2, i, t);
    k1 := WhenTaken(lim, ss, steps, k2, t, ss[i].threads[t].pc.id);
    RankGrows(lim, ss, steps, k1, k2, t);
    k0 := WhenArrived(lim, ss, steps, k1, t);
  }

  ghost predicate HasSignature(s: State, t: nat, slot: Slot, id: int) {
    exists a :: 0 <= a < |s.signatures| && s.signatures[a] == Signature(t, slot, id)
  }

  /** Signing adds this signature; nothing else adds or removes any. */
  lemma SigningStep(lim: Limits, s: State, step: Step, t: nat, slot: Slot, id: int)
    requires Enabled(s, step)
    ensures HasSignature(Do(lim, s, step), t, slot, id) <==>
            HasSignature(s, t, slot, id) || (step == BlindSign(t, true) && s.threads[t].slot == slot && s.threads[t].pc.id == id)
  {
    var s' := Do(lim, s, step);
    if HasSignature(s, t, slot, id) {
      var a :| 0 <= a < |s.signatures| && s.signatures[a] == Signature(t, slot, id);
      assert s'.signatures[a] == Signature(t, slot, id);
    }
    if step == BlindSign(t, true) && s.threads[t].slot == slot && s.threads[t].pc.id == id {
      assert s'.signatures[|s.signatures|] == Signature(t, slot, id);
    }
  }

  lemma {:induction false} SignatureHasItsWay(lim: Limits, ss: seq<State>, steps: seq<Step>, j: nat, t: nat, slot: Slot, id: int)
    returns (k0: nat, k1: nat, k2: nat, k3: nat)
    requires IsRun(lim, ss, steps) && j < |ss| && HasSignature(ss[j], t, slot, id)
    ensures Way(ss, steps, j, t, slot, id, k0, k1, k2, k3)
  {
    assert j > 0;
    assert StepAt(lim, ss, steps, j - 1);
    SigningStep(lim, ss[j - 1], steps[j - 1], t, slot, id);
    if HasSignature(ss[j - 1], t, slot, id) {
      k0, k1, k2, k3 := SignatureHasItsWay(lim, ss, steps, j - 1, t, slot, id);
    } else {
      k3 := j - 1;
      k0, k1, k2 := WayToTheKey(lim, ss, steps, k3, t);
    }
  }

  lemma WayMakesSignature(lim: Limits, ss: seq<State>, steps: seq<Step>, j: nat, t: nat, slot: Slot, id: int, k0: nat, k1: nat, k2: nat, k3: nat)
    requires IsRun(lim, ss, steps) && j < |ss| && Way(ss, steps, j, t, slot, id, k0, k1, k2, k3)
    ensures HasSignature(ss[j], t, slot, id)
  {
    assert StepAt(lim, ss, steps, k3);
    var n0, n1, n2 := WayToTheKey(lim, ss, steps, k3, t);
    EachStepOnce(lim, ss, steps, k0, n0, t);
    EachStepOnce(lim, ss, steps, k1, n1, t);
    SigningStep(lim, ss[k3], steps[k3], t, slot, id);
    SignatureStays(lim, ss, steps, k3 + 1, j, t, slot, id);
  }

  lemma {:induction false} SignatureStays(lim: Limits, ss: seq<State>, steps: seq<Step>, i: nat, j: nat, t: nat, slot: Slot, id: int)
    requires IsRun(lim, ss, steps) && i <= j < |ss| && HasSignature(ss[i], t, slot, id)
    ensures HasSignature(ss[j], t, slot, id)
  {
    if i < j {
      SignatureStays(lim, ss, steps, i, j - 1, t, slot, id);
      assert StepAt(lim, ss, steps, j - 1);
      SigningStep(lim, ss[j - 1], steps[j - 1], t, slot, id);
    }
  }

  /**
   A signature of thread `t` for `slot` under row `id` exists if and only if `t`
   arrived for that slot, inserted that row, then loaded the key, then signed,
   each successfully and in this order.
   */
  lemma SignatureIsItsSteps(lim: Limits, ss: seq<State>, steps: seq<Step>, j: nat, t: nat, slot: Slot, id: int)
    requires IsRun(lim, ss, steps) && j < |ss|
    ensures HasSignature(ss[j], t, slot, id) <==> exists k0, k1, k2, k3 :: Way(ss, steps, j, t, slot, id, k0, k1, k2, k3)
  {
    if HasSignature(ss[j], t, slot, id) {
      var k0, k1, k2, k3 := SignatureHasItsWay(lim, ss, steps, j, t, slot, id);
    }
    if k0, k1, k2, k3 :| Way(ss, steps, j, t, slot, id, k0, k1, k2, k3) {
      WayMakesSignature(lim, ss, steps, j, t, slot, id, k0, k1, k2, k3);
    }
  }

  /** A thread whose key load or signing failed never signs, before or after. */
  lemma FailedThreadNeverSigns(lim: Limits, ss: seq<State>, steps: seq<Step>, i: nat, j: nat, t: nat, slot: Slot, id: int)
    requires IsRun(lim, ss, steps) && i < |steps| && j < |ss| && (steps[i] == LoadKey(t, false) || steps[i] == BlindSign(t, false))
    ensures !HasSignature(ss[j], t, slot, id)
  {
    if HasSignature(ss[j], t, slot, id) {
      var k0, k1, k2, k3 := SignatureHasItsWay(lim, ss, steps, j, t, slot, id);
      EachStepOnce(lim, ss, steps, i, if steps[i].LoadKey? then k2 else k3, t);
    }
  }

  lemma SignedByStep(lim: Limits, s: State, step: Step, t: nat, id: int)
    requires Enabled(s, step) && t in Do(lim, s, step).threads && Do(lim, s, step).threads[t].pc == Signed(id)
    ensures t in s.threads && s.threads[t].slot == Do(lim, s, step).threads[t].slot
    ensures s.threads[t].pc == Signed(id) || (step == BlindSign(t, true) && s.threads[t].pc == KeyLoaded(id))
  {
  }

  /** A thread counts as having signed only with a signature of its own, for its slot and row. */
  lemma {:induction false} SignedThreadHasSignature(lim: Limits, ss: seq<State>, steps: seq<Step>, i: nat, t: nat, id: int)
    requires IsRun(lim, ss, steps) && i < |ss| && t in ss[i].threads && ss[i].threads[t].pc == Signed(id)
    ensures HasSignature(ss[i], t, ss[i].threads[t].slot, id)
  {
    assert i > 0;
    assert StepAt(lim, ss, steps, i - 1);
    SignedByStep(lim, ss[i - 1], steps[i - 1], t, id);
    SigningStep(lim, ss[i - 1], steps[i - 1], t, ss[i].threads[t].slot, id);
    if ss[i - 1].threads[t].pc == Signed(id) { SignedThreadHasSignature(lim, ss, steps, i - 1, t, id); }
  }

  /** The window a thread counts over starts one window before the clock it read. */
  lemma {:induction false} CountsFromItsClock(lim: Limits, ss: seq<State>, steps: seq<Step>, i: nat, t: nat) returns (k: nat)
    requires IsRun(lim, ss, steps) && i < |ss| && t in ss[i].threads
    requires ss[i].threads[t].pc.ClockRead? || ss[i].threads[t].pc.GlobalPassed?
    ensures k < i && steps[k] == ReadClock(t) && ss[i].threads[t].pc.since == ss[k].clock - lim.window
  {
    assert StepAt(lim, ss, steps, i - 1);
    if t in ss[i - 1].threads && (ss[i - 1].threads[t].pc.ClockRead? || ss[i - 1].threads[t].pc.GlobalPassed?) {
      k := CountsFromItsClock(lim, ss, steps, i - 1, t);
    } else {
      k := i - 1;
    }
  }
}
