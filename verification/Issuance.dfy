/**
 The issuance protocol of `/sign` (src/handlers.rs, `sign_blocking`) as a state
 machine. One step is one mutex-guarded database call, one signing attempt or
 one clock read; any number of threads interleave, calls and rollbacks may
 fail, a thread may die at any point, and the wall clock may be set to anything
 at any time.
 */
module Issuance {
  import opened Wrappers
  import opened Sets
  import opened IssuanceLedger

  datatype Pc =
    | Arrived
    | ClockRead(since: int)      // RateLimiter::check has computed its window start
    | GlobalPassed(since: int)   // below the global ceiling
    | Allowed                    // Decision::Allow, not yet reserved
    | Reserved(id: int)          // issuance row inserted
    | KeyLoaded(id: int)
    | RollingBack(id: int)       // key load or signing failed; delete_issuance is next
    | Signed(id: int)            // blind_sign returned a signature
    | Refused                    // the request ended without a signature
    | Crashed

  datatype Thread = Thread(slot: Slot, pc: Pc)

  /** History: a signature that left `blind_sign`, with the reservation it was made under. */
  datatype Signature = Signature(thread: nat, slot: Slot, row: int)

  /** `orphans` is history too: reservations whose thread died or whose rollback failed. */
  datatype State = State(ledger: Ledger, threads: map<nat, Thread>, clock: int, signatures: seq<Signature>, orphans: set<int>)

  datatype Step =
    | Tick(now: int)
    | Arrive(t: nat, slot: Slot)
    | ReadClock(t: nat)
    | CountGlobal(t: nat, fault: bool)
    | CountParticipant(t: nat, fault: bool)
    | ReserveRow(t: nat, fault: bool)
    | LoadKey(t: nat, ok: bool)
    | BlindSign(t: nat, ok: bool)
    | Rollback(t: nat, fault: bool)
    | Crash(t: nat)

  predicate Enabled(s: State, step: Step) {
    match step
    case Tick(_) => true
    case Arrive(t, _) => t !in s.threads
    case ReadClock(t) => t in s.threads && s.threads[t].pc.Arrived?
    case CountGlobal(t, _) => t in s.threads && s.threads[t].pc.ClockRead?
    case CountParticipant(t, _) => t in s.threads && s.threads[t].pc.GlobalPassed?
    case ReserveRow(t, _) => t in s.threads && s.threads[t].pc.Allowed?
    case LoadKey(t, _) => t in s.threads && s.threads[t].pc.Reserved?
    case BlindSign(t, _) => t in s.threads && s.threads[t].pc.KeyLoaded?
    case Rollback(t, _) => t in s.threads && s.threads[t].pc.RollingBack?
    case Crash(t) => t in s.threads && !s.threads[t].pc.Refused? && !s.threads[t].pc.Crashed?
  }

  function Goto(s: State, t: nat, pc: Pc): State
    requires t in s.threads
  {
    s.(threads := s.threads[t := s.threads[t].(pc := pc)])
  }

  /** The reservation a thread still has to sign for or roll back. */
  function Unsettled(pc: Pc): Option<int> {
    match pc
    case Reserved(id) => Some(id)
    case KeyLoaded(id) => Some(id)
    case RollingBack(id) => Some(id)
    case _ => None
  }

  function Do(lim: Limits, s: State, step: Step): State
    requires Enabled(s, step)
  {
    match step
    case Tick(now) => s.(clock := now)
    case Arrive(t, slot) => s.(threads := s.threads[t := Thread(slot, Arrived)])
    case ReadClock(t) => Goto(s, t, ClockRead(s.clock - lim.window))
    case CountGlobal(t, fault) =>
      var since := s.threads[t].pc.since;
      if fault || CountSince(s.ledger, Global, since) >= lim.globalMax then Goto(s, t, Refused)
      else Goto(s, t, GlobalPassed(since))
    case CountParticipant(t, fault) =>
      var Thread(slot, pc) := s.threads[t];
      if fault || CountSince(s.ledger, Participant(slot.participantId), pc.since) >= lim.participantMax then Goto(s, t, Refused)
      else Goto(s, t, Allowed)
    case ReserveRow(t, fault) =>
      var (ledger, r) := Reserve(s.ledger, s.threads[t].slot, s.clock);
      if fault || r.None? then Goto(s, t, Refused)
      else Goto(s, t, Reserved(r.value)).(ledger := ledger)
    case LoadKey(t, ok) =>
      var id := s.threads[t].pc.id;
      Goto(s, t, if ok then KeyLoaded(id) else RollingBack(id))
    case BlindSign(t, ok) =>
      var Thread(slot, pc) := s.threads[t];
      if !ok then Goto(s, t, RollingBack(pc.id))
      else Goto(s, t, Signed(pc.id)).(signatures := s.signatures + [Signature(t, slot, pc.id)])
    case Rollback(t, fault) =>
      var id := s.threads[t].pc.id;
      if fault then Goto(s, t, Refused).(orphans := s.orphans + {id})
      else Goto(s, t, Refused).(ledger := Delete(s.ledger, id))
    case Crash(t) =>
      var held := Unsettled(s.threads[t].pc);
      Goto(s, t, Crashed).(orphans := s.orphans + if held.Some? then {held.value} else {})
  }

  /** A process starts with no threads, over whatever ledger earlier processes left. */
  ghost predicate Init(s: State) {
    WellFormed(s.ledger) && s.threads == map[] && s.signatures == [] && s.orphans == {}
  }

  ghost predicate IsRun(lim: Limits, ss: seq<State>, steps: seq<Step>) {
    && |ss| == |steps| + 1
    && Init(ss[0])
    && forall i :: 0 <= i < |steps| ==> StepAt(lim, ss, steps, i)
  }

  ghost predicate StepAt(lim: Limits, ss: seq<State>, steps: seq<Step>, i: nat)
    requires i < |steps| < |ss|
  {
    Enabled(ss[i], steps[i]) && ss[i + 1] == Do(lim, ss[i], steps[i])
  }

  // ----- the inductive invariant

  function Held(s: State, t: nat): Option<int> {
    if t in s.threads then Unsettled(s.threads[t].pc) else None
  }

  ghost predicate Holds(s: State, t: nat, id: int) {
    Held(s, t) == Some(id)
  }

  ghost predicate IsSigned(s: State, id: int) {
    exists i :: 0 <= i < |s.signatures| && s.signatures[i].row == id
  }

  /** Every unsettled reservation is a live row of its own thread, for its own slot. */
  ghost predicate HeldInv(s: State) {
    && (forall t, id :: Holds(s, t, id) ==> id in s.ledger.rows && s.ledger.rows[id].slot == s.threads[t].slot)
    && (forall t, id :: Holds(s, t, id) ==> !IsSigned(s, id) && id !in s.orphans)
    && (forall t, u, id :: Holds(s, t, id) && Holds(s, u, id) ==> t == u)
  }

  /** Every signature sits on a row of its own. */
  ghost predicate SignedInv(s: State) {
    && (forall i :: 0 <= i < |s.signatures| ==>
         && s.signatures[i].row in s.ledger.rows
         && s.ledger.rows[s.signatures[i].row].slot == s.signatures[i].slot
         && s.signatures[i].row !in s.orphans)
    && (forall i, j :: 0 <= i < j < |s.signatures| ==> s.signatures[i].row != s.signatures[j].row)
    && (forall id :: id in s.orphans ==> id in s.ledger.rows)
  }

  /** Rows of earlier processes stay; every newer row is held, signed for, or orphaned. */
  ghost predicate AccountInv(initial: Ledger, s: State) {
    && initial.lastId <= s.ledger.lastId
    && (forall id :: id in initial.rows ==> id in s.ledger.rows && s.ledger.rows[id] == initial.rows[id])
    && (forall t, id :: Holds(s, t, id) ==> id > initial.lastId)
    && (forall i :: 0 <= i < |s.signatures| ==> s.signatures[i].row > initial.lastId)
    && (forall id :: id in s.orphans ==> id > initial.lastId)
    && (forall id :: id in s.ledger.rows ==>
         id in initial.rows || (exists t :: Holds(s, t, id)) || IsSigned(s, id) || id in s.orphans)
  }

  ghost predicate Inv(initial: Ledger, s: State) {
    WellFormed(initial) && WellFormed(s.ledger) && HeldInv(s) && SignedInv(s) && AccountInv(initial, s)
  }

  /** Everything a step can do to reservations, signatures and orphans. */
  datatype Change =
    | Quiet
    | Took(t: nat, id: int)      // inserted a row and holds it
    | Signs(t: nat, id: int)   // made a signature under the held row
    | Freed(t: nat, id: int)     // deleted the held row
    | Lost(t: nat, id: int)      // let go of the held row and left it behind

  function ChangeOf(s: State, step: Step): Change
    requires Enabled(s, step)
  {
    match step
    case ReserveRow(t, fault) => if fault || Taken(s.ledger, s.threads[t].slot) then Quiet else Took(t, s.ledger.lastId + 1)
    case BlindSign(t, ok) => if ok then Signs(t, s.threads[t].pc.id) else Quiet
    case Rollback(t, fault) => if fault then Lost(t, s.threads[t].pc.id) else Freed(t, s.threads[t].pc.id)
    case Crash(t) => if Unsettled(s.threads[t].pc).Some? then Lost(t, Unsettled(s.threads[t].pc).value) else Quiet
    case _ => Quiet
  }

  ghost predicate Changed(s: State, s': State, ch: Change) {
    && (forall t :: t in s.threads ==> t in s'.threads && s'.threads[t].slot == s.threads[t].slot)
    && (ch.Quiet? || ch.t in s.threads)
    && (ch.Quiet? || ch.Took? || Holds(s, ch.t, ch.id))
    && (forall t :: Held(s', t) == if ch.Quiet? || t != ch.t then Held(s, t) else if ch.Took? then Some(ch.id) else None)
    && (if ch.Took? then ch.id == s.ledger.lastId + 1 && !Taken(s.ledger, s.threads[ch.t].slot)
                         && s'.ledger == Ledger(s.ledger.rows[ch.id := Row(s.threads[ch.t].slot, s.clock)], ch.id)
        else s'.ledger == if ch.Freed? then Delete(s.ledger, ch.id) else s.ledger)
    && s'.signatures == (if ch.Signs? then s.signatures + [Signature(ch.t, s.threads[ch.t].slot, ch.id)] else s.signatures)
    && s'.orphans == (if ch.Lost? then s.orphans + {ch.id} else s.orphans)
  }

  lemma ReserveChanges(lim: Limits, s: State, step: Step)
    requires Enabled(s, step) && step.ReserveRow?
    ensures Changed(s, Do(lim, s, step), ChangeOf(s, step))
  {
  }

  lemma SettleChanges(lim: Limits, s: State, step: Step)
    requires Enabled(s, step) && (step.BlindSign? || step.Rollback?)
    ensures Changed(s, Do(lim, s, step), ChangeOf(s, step))
  {
  }

  lemma CheckChanges(lim: Limits, s: State, step: Step)
    requires Enabled(s, step) && (step.ReadClock? || step.CountGlobal? || step.CountParticipant?)
    ensures Changed(s, Do(lim, s, step), ChangeOf(s, step))
  {
  }

  lemma StepChanges(lim: Limits, s: State, step: Step)
    requires Enabled(s, step)
    ensures Changed(s, Do(lim, s, step), ChangeOf(s, step))
  {
    if step.ReserveRow? { ReserveChanges(lim, s, step); }
    else if step.BlindSign? || step.Rollback? { SettleChanges(lim, s, step); }
    else if step.ReadClock? || step.CountGlobal? || step.CountParticipant? { CheckChanges(lim, s, step); }
  }

  lemma HoldersAfter(s: State, s': State, ch: Change)
    requires Changed(s, s', ch)
    ensures forall t, id :: Holds(s', t, id) <==>
              (ch.Took? && t == ch.t && id == ch.id) || (Holds(s, t, id) && (ch.Quiet? || t != ch.t))
  {
  }

  lemma HeldPreserved(initial: Ledger, s: State, s': State, ch: Change)
    requires Inv(initial, s) && Changed(s, s', ch)
    ensures WellFormed(s'.ledger) && HeldInv(s')
  {
    HoldersAfter(s, s', ch);
    forall id | IsSigned(s', id) ensures IsSigned(s, id) || (ch.Signs? && id == ch.id) {}
  }

  lemma SignedPreserved(initial: Ledger, s: State, s': State, ch: Change)
    requires Inv(initial, s) && Changed(s, s', ch)
    ensures SignedInv(s')
  {
  }

  lemma AccountPreserved(initial: Ledger, s: State, s': State, ch: Change)
    requires Inv(initial, s) && Changed(s, s', ch)
    ensures AccountInv(initial, s')
  {
    HoldersAfter(s, s', ch);
    forall id | id in s'.ledger.rows
      ensures id in initial.rows || (exists t :: Holds(s', t, id)) || IsSigned(s', id) || id in s'.orphans
    {
      if id !in s.ledger.rows {
        assert Holds(s', ch.t, id);
      } else if t :| Holds(s, t, id) {
        if !Holds(s', t, id) && ch.Signs? { assert s'.signatures[|s.signatures|].row == id; }
      } else if IsSigned(s, id) {
        var i :| 0 <= i < |s.signatures| && s.signatures[i].row == id;
        assert s'.signatures[i].row == id;
      }
    }
  }

  /** The change made by step `i` of a run. */
  lemma RunChange(lim: Limits, ss: seq<State>, steps: seq<Step>, i: nat) returns (ch: Change)
    requires IsRun(lim, ss, steps) && i < |steps|
    ensures Changed(ss[i], ss[i + 1], ch)
    ensures ch.Freed? ==> steps[i] == Rollback(ch.t, false)
    ensures ch.Took? ==> steps[i] == ReserveRow(ch.t, false)
  {
    assert StepAt(lim, ss, steps, i);
    StepChanges(lim, ss[i], steps[i]);
    ch := ChangeOf(ss[i], steps[i]);
  }

  lemma InvPreserved(initial: Ledger, s: State, s': State, ch: Change)
    requires Inv(initial, s) && Changed(s, s', ch)
    ensures Inv(initial, s')
  {
    HeldPreserved(initial, s, s', ch);
    SignedPreserved(initial, s, s', ch);
    AccountPreserved(initial, s, s', ch);
  }

  lemma {:induction false} RunInv(lim: Limits, ss: seq<State>, steps: seq<Step>, i: nat)
    requires IsRun(lim, ss, steps) && i < |ss|
    ensures Inv(ss[0].ledger, ss[i])
  {
    if i > 0 {
      RunInv(lim, ss, steps, i - 1);
      var ch := RunChange(lim, ss, steps, i - 1);
      InvPreserved(ss[0].ledger, ss[i - 1], ss[i], ch);
    }
  }

  // ----- what holds over whole runs

  /**
   One signature per (group, participant, version), in every reachable state of
   every interleaving, and none for a slot an earlier process already used.
   */
  lemma AtMostOneSignature(lim: Limits, ss: seq<State>, steps: seq<Step>, i: nat)
    requires IsRun(lim, ss, steps) && i < |ss|
    ensures forall a, b :: 0 <= a < b < |ss[i].signatures| ==> ss[i].signatures[a].slot != ss[i].signatures[b].slot
    ensures forall a, id :: 0 <= a < |ss[i].signatures| && id in ss[0].ledger.rows ==>
              ss[0].ledger.rows[id].slot != ss[i].signatures[a].slot
  {
    RunInv(lim, ss, steps, i);
  }

  lemma SignedRowKept(initial: Ledger, s: State, s': State, ch: Change, a: nat)
    requires Inv(initial, s) && Changed(s, s', ch) && a < |s.signatures|
    ensures a < |s'.signatures| && s'.signatures[a] == s.signatures[a]
    ensures s.signatures[a].row in s'.ledger.rows && s'.ledger.rows[s.signatures[a].row] == s.ledger.rows[s.signatures[a].row]
  {
    assert IsSigned(s, s.signatures[a].row);
  }

  lemma SignedRowKeptAt(lim: Limits, ss: seq<State>, steps: seq<Step>, i: nat, a: nat)
    requires IsRun(lim, ss, steps) && i < |steps| && a < |ss[i].signatures|
    ensures a < |ss[i + 1].signatures| && ss[i + 1].signatures[a] == ss[i].signatures[a]
    ensures var row := ss[i].signatures[a].row;
      row in ss[i].ledger.rows && row in ss[i + 1].ledger.rows && ss[i + 1].ledger.rows[row] == ss[i].ledger.rows[row]
  {
    RunInv(lim, ss, steps, i);
    var ch := RunChange(lim, ss, steps, i);
    SignedRowKept(ss[0].ledger, ss[i], ss[i + 1], ch, a);
  }

  /** A signature, once made, keeps its row (slot and time) in every later state. */
  lemma {:induction false} SignedRowIsNeverDeleted(lim: Limits, ss: seq<State>, steps: seq<Step>, i: nat, j: nat, a: nat)
    requires IsRun(lim, ss, steps) && i <= j < |ss| && a < |ss[i].signatures|
    ensures a < |ss[j].signatures| && ss[j].signatures[a] == ss[i].signatures[a]
    ensures var row := ss[i].signatures[a].row;
      row in ss[i].ledger.rows && row in ss[j].ledger.rows && ss[j].ledger.rows[row] == ss[i].ledger.rows[row]
  {
    if i == j {
      RunInv(lim, ss, steps, i);
    } else {
      SignedRowIsNeverDeleted(lim, ss, steps, i, j - 1, a);
      SignedRowKeptAt(lim, ss, steps, j - 1, a);
    }
  }

  /** A held reservation is the row its own thread inserted earlier in the run. */
  lemma {:induction false} HeldMeansInserted(lim: Limits, ss: seq<State>, steps: seq<Step>, i: nat, t: nat, id: int)
    returns (k: nat)
    requires IsRun(lim, ss, steps) && i < |ss| && Holds(ss[i], t, id)
    ensures k < i && steps[k] == ReserveRow(t, false)
    ensures id == ss[k].ledger.lastId + 1 && id !in ss[k].ledger.rows && id in ss[k + 1].ledger.rows
    ensures t in ss[i].threads && ss[k + 1].ledger.rows[id] == Row(ss[i].threads[t].slot, ss[k].clock)
  {
    var ch := RunChange(lim, ss, steps, i - 1);
    if Holds(ss[i - 1], t, id) {
      k := HeldMeansInserted(lim, ss, steps, i - 1, t, id);
    } else {
      k := i - 1;
      RunInv(lim, ss, steps, k);
      NewlyHeld(ss[k], ss[i], ch, t, id);
    }
  }

  lemma NewlyHeld(s: State, s': State, ch: Change, t: nat, id: int)
    requires WellFormed(s.ledger) && Changed(s, s', ch) && Holds(s', t, id) && !Holds(s, t, id)
    ensures ch == Took(t, id) && id == s.ledger.lastId + 1 && id !in s.ledger.rows
    ensures t in s'.threads && id in s'.ledger.rows && s'.ledger.rows[id] == Row(s'.threads[t].slot, s.clock)
  {
  }

  /**
   The only way a row ever disappears is a successful rollback, by the thread
   that inserted it; the slot is then free to be requested again.
   */
  lemma RollbackRemovesOnlyItsOwn(lim: Limits, ss: seq<State>, steps: seq<Step>, i: nat, id: int) returns (k: nat)
    requires IsRun(lim, ss, steps) && i < |steps|
    requires id in ss[i].ledger.rows && id !in ss[i + 1].ledger.rows
    ensures steps[i].Rollback? && !steps[i].fault
    ensures k < i && steps[k] == ReserveRow(steps[i].t, false) && id == ss[k].ledger.lastId + 1
    ensures ss[i + 1].ledger.rows == ss[i].ledger.rows - {id}
    ensures !IsSigned(ss[i + 1], id)
    ensures !Taken(ss[i + 1].ledger, ss[i].ledger.rows[id].slot)
  {
    RunInv(lim, ss, steps, i);
    var ch := RunChange(lim, ss, steps, i);
    k := HeldMeansInserted(lim, ss, steps, i, ch.t, id);
  }

  ghost predicate Clean(steps: seq<Step>, i: nat) {
    forall k :: 0 <= k < i && k < |steps| ==> !steps[k].Crash? && !(steps[k].Rollback? && steps[k].fault)
  }

  lemma {:induction false} CleanLeavesNoOrphans(lim: Limits, ss: seq<State>, steps: seq<Step>, i: nat)
    requires IsRun(lim, ss, steps) && i < |ss| && Clean(steps, i)
    ensures ss[i].orphans == {}
  {
    if i > 0 {
      CleanLeavesNoOrphans(lim, ss, steps, i - 1);
      assert StepAt(lim, ss, steps, i - 1);
    }
  }

  lemma {:induction false} DistinctRows(sigs: seq<Signature>)
    requires forall i, j :: 0 <= i < j < |sigs| ==> sigs[i].row != sigs[j].row
    ensures |set i | 0 <= i < |sigs| :: sigs[i].row| == |sigs|
  {
    if sigs != [] {
      var n := |sigs| - 1;
      DistinctRows(sigs[..n]);
      var before := set i | 0 <= i < n :: sigs[..n][i].row;
      assert (set i | 0 <= i < |sigs| :: sigs[i].row) == before + {sigs[n].row};
    }
  }

  /** Threads with a reservation still to be signed for or rolled back. */
  function Holding(s: State): set<nat> {
    set t | t in s.threads && Unsettled(s.threads[t].pc).Some?
  }

  function HeldRows(s: State): set<int> {
    set t | t in Holding(s) :: Unsettled(s.threads[t].pc).value
  }

  function SignedRows(s: State): set<int> {
    set i | 0 <= i < |s.signatures| :: s.signatures[i].row
  }

  lemma HeldRowsAre(s: State)
    requires HeldInv(s)
    ensures |HeldRows(s)| == |Holding(s)|
    ensures forall id :: id in HeldRows(s) <==> IsHeld(s, id)
  {
    var f := (t: nat) => if t in s.threads && Unsettled(s.threads[t].pc).Some? then Unsettled(s.threads[t].pc).value else 0;
    forall t, u | t in Holding(s) && u in Holding(s) && f(t) == f(u) ensures t == u {
      assert Holds(s, t, f(t)) && Holds(s, u, f(t));
    }
    BijectionSize(Holding(s), HeldRows(s), f);
    forall id ensures id in HeldRows(s) <==> IsHeld(s, id) {
      if t :| Holds(s, t, id) { assert t in Holding(s); }
      if id in HeldRows(s) {
        var t :| t in Holding(s) && Unsettled(s.threads[t].pc).value == id;
        assert Holds(s, t, id);
      }
    }
  }

  lemma SignedRowsAre(s: State)
    ensures forall id :: id in SignedRows(s) <==> IsSigned(s, id)
  {
  }

  ghost predicate IsHeld(s: State, id: int) {
    exists t :: Holds(s, t, id)
  }

  lemma OnePart(initial: Ledger, s: State, id: int)
    requires Inv(initial, s)
    ensures id in s.ledger.rows <==> id in initial.rows || IsSigned(s, id) || id in s.orphans || IsHeld(s, id)
    ensures id in initial.rows ==> !IsSigned(s, id) && id !in s.orphans && !IsHeld(s, id)
    ensures IsSigned(s, id) ==> id !in s.orphans && !IsHeld(s, id)
    ensures id in s.orphans ==> !IsHeld(s, id)
  {
  }

  /** `id` is in `all` through exactly one of the parts, or in none of them. */
  ghost predicate Parted(all: set<int>, a: set<int>, b: set<int>, c: set<int>, d: set<int>, id: int) {
    && (id in all <==> id in a || id in b || id in c || id in d)
    && (id in a ==> id !in b && id !in c && id !in d)
    && (id in b ==> id !in c && id !in d)
    && (id in c ==> id !in d)
  }

  lemma PartedSize(all: set<int>, a: set<int>, b: set<int>, c: set<int>, d: set<int>)
    requires forall id :: Parted(all, a, b, c, d, id)
    ensures |all| == |a| + |b| + |c| + |d|
  {
    forall id ensures id in all <==> id in a + b + c + d { assert Parted(all, a, b, c, d, id); }
    forall id | id in a ensures id !in b && id !in c && id !in d { assert Parted(all, a, b, c, d, id); }
    forall id | id in b ensures id !in c && id !in d { assert Parted(all, a, b, c, d, id); }
    forall id | id in c ensures id !in d { assert Parted(all, a, b, c, d, id); }
    assert all == a + b + c + d;
    assert |a + b + c + d| == |a + b + c| + |d|;
    assert |a + b + c| == |a + b| + |c|;
  }

  lemma RowParted(initial: Ledger, s: State, id: int)
    requires Inv(initial, s)
    ensures Parted(s.ledger.rows.Keys, initial.rows.Keys, SignedRows(s), s.orphans, HeldRows(s), id)
  {
    HeldRowsAre(s);
    SignedRowsAre(s);
    OnePart(initial, s, id);
  }

  /** The rows fall into four parts: earlier ones, signed ones, orphans and held ones. */
  lemma FourParts(initial: Ledger, s: State)
    requires Inv(initial, s)
    ensures |s.ledger.rows| == |initial.rows| + |SignedRows(s)| + |s.orphans| + |HeldRows(s)|
  {
    forall id ensures Parted(s.ledger.rows.Keys, initial.rows.Keys, SignedRows(s), s.orphans, HeldRows(s), id) {
      RowParted(initial, s, id);
    }
    PartedSize(s.ledger.rows.Keys, initial.rows.Keys, SignedRows(s), s.orphans, HeldRows(s));
  }

  /**
   Conservation, in every reachable state: the ledger has one row more than at
   the start for each signature, each reservation that a crash or a failed
   rollback left behind, and each request still in progress.
   */
  lemma LedgerCountsSignatures(lim: Limits, ss: seq<State>, steps: seq<Step>, i: nat)
    requires IsRun(lim, ss, steps) && i < |ss|
    ensures |ss[i].ledger.rows| == |ss[0].ledger.rows| + |ss[i].signatures| + |ss[i].orphans| + |Holding(ss[i])|
    ensures forall id :: id in ss[i].ledger.rows <==>
              id in ss[0].ledger.rows || IsSigned(ss[i], id) || id in ss[i].orphans || IsHeld(ss[i], id)
  {
    var s, initial := ss[i], ss[0].ledger;
    RunInv(lim, ss, steps, i);
    FourParts(initial, s);
    HeldRowsAre(s);
    DistinctRows(s.signatures);
    forall id ensures id in s.ledger.rows <==> id in initial.rows || IsSigned(s, id) || id in s.orphans || IsHeld(s, id) {
      OnePart(initial, s, id);
    }
  }

  /** So without crashes and failed rollbacks, and with no request in progress, it grew by exactly one row per signature. */
  lemma QuietLedgerCountsSignatures(lim: Limits, ss: seq<State>, steps: seq<Step>, i: nat)
    requires IsRun(lim, ss, steps) && i < |ss| && Clean(steps, i)
    requires forall t :: t in ss[i].threads ==> Unsettled(ss[i].threads[t].pc).None?
    ensures |ss[i].ledger.rows| == |ss[0].ledger.rows| + |ss[i].signatures|
    ensures forall id :: id in ss[i].ledger.rows <==> id in ss[0].ledger.rows || IsSigned(ss[i], id)
  {
    LedgerCountsSignatures(lim, ss, steps, i);
    CleanLeavesNoOrphans(lim, ss, steps, i);
    assert Holding(ss[i]) == {};
    assert forall id :: !IsHeld(ss[i], id);
  }
}
