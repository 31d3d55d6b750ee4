/**
 What the keygen pool answers, and that it does answer (src/keygen.rs, `ensure`,
 `wait_ready`, `spawn_worker`): a request for a group that has a key goes
 straight to it, every other answer has its reason in the run, and neither a
 request nor a worker can go on for ever or get stuck.
 */
module KeygenAnswers {
  import opened Bytes
  import opened KeyRows
  import opened KeygenPool

  /** The step belongs to request `c`. */
  predicate Of(step: Step, c: nat) {
    (step.Arrive? || step.Ensure? || step.Advance? || step.Timeout?) && step.c == c
  }

  /** A database call of the step fails. */
  predicate Faulty(step: Step) {
    (step.Ensure? || step.Advance?) && step.fault
  }

  lemma RequestUntouched(v: Vault, s: State, step: Step, c: nat)
    requires Enabled(s, step) && !Of(step, c)
    ensures var s' := Do(v, s, step);
      (c in s'.clients <==> c in s.clients) && (c in s.clients ==> s'.clients[c] == s.clients[c])
  {
  }

  /** How many steps request `c` takes from `i` up to `j`. */
  function Turns(steps: seq<Step>, i: nat, j: nat, c: nat): nat
    requires i <= j <= |steps|
  {
    if i == j then 0 else Turns(steps, i, j - 1, c) + if Of(steps[j - 1], c) then 1 else 0
  }

  ghost predicate Faultless(steps: seq<Step>, i: nat, j: nat, c: nat)
    requires j <= |steps|
  {
    forall k :: i <= k < j ==> !(Of(steps[k], c) && Faulty(steps[k]))
  }

  // ----- a group with a key is served

  /** The first check and the load, for a group that has a key: nothing else happens to the request. */
  function Straight(autoCreate: bool, turns: nat): ClientPc {
    if turns == 0 then (if autoCreate then EnsureFast else PlainCheck) else if turns == 1 then Loading else Loaded
  }

  lemma StraightStep(v: Vault, s: State, step: Step, c: nat, g: Text, autoCreate: bool, turns: nat)
    requires Enabled(s, step) && c in s.clients && HasActive(s.table, g) && !(Of(step, c) && Faulty(step))
    requires turns <= 2 && s.clients[c] == Client(g, autoCreate, Straight(autoCreate, turns))
    ensures Of(step, c) ==> turns < 2
    ensures c in Do(v, s, step).clients
    ensures Do(v, s, step).clients[c] == Client(g, autoCreate, Straight(autoCreate, if Of(step, c) then turns + 1 else turns))
  {
    if !Of(step, c) { RequestUntouched(v, s, step, c); }
  }

  /**
   A request that arrives for a group with an active key, and whose own database
   calls do not fail, has its key after two steps; until then it can always take
   the next one, and neither of them waits for anybody.
   */
  lemma {:induction false} ReadyGroupIsServed(v: Vault, max: nat, ss: seq<State>, steps: seq<Step>, i: nat, j: nat, c: nat)
    requires KeygenPool.IsRun(v, max, ss, steps) && i < j < |ss| && steps[i].Arrive? && steps[i].c == c
    requires HasActive(ss[i].table, steps[i].groupId) && Faultless(steps, i + 1, j, c)
    ensures var turns := Turns(steps, i + 1, j, c);
      && turns <= 2 && c in ss[j].clients
      && ss[j].clients[c] == Client(steps[i].groupId, steps[i].autoCreate, Straight(steps[i].autoCreate, turns))
      && (turns < 2 ==> Enabled(ss[j], Advance(c, false)))
  {
    assert KeygenPool.StepAt(v, ss, steps, j - 1);
    if j > i + 1 {
      ReadyGroupIsServed(v, max, ss, steps, i, j - 1, c);
      KeyIsForever(v, max, ss, steps, i, j - 1, steps[i].groupId);
      StraightStep(v, ss[j - 1], steps[j - 1], c, steps[i].groupId, steps[i].autoCreate, Turns(steps, i + 1, j - 1, c));
    }
  }

  // ----- every answer has its reason

  /** Some create worker of the group has published a failure. */
  ghost predicate FailurePublished(s: State, g: Text) {
    exists t :: t in s.tasks && s.tasks[t].kind == Creating && s.tasks[t].groupId == g && s.tasks[t].sent == Failed
  }

  /** The group's channel, if there is one, still says Pending. */
  ghost predicate ChannelPending(s: State, g: Text) {
    g in s.inflight ==> s.inflight[g] in s.tasks && s.tasks[s.inflight[g]].sent == Pending
  }

  /** Step `k` looked for the group's channel and found none. */
  ghost predicate NoChannelAt(ss: seq<State>, steps: seq<Step>, k: nat, c: nat, g: Text) {
    k < |steps| < |ss| && steps[k].Advance? && steps[k].c == c && g !in ss[k].inflight
  }

  /** Step `k` asked the database for the group's key and found none. */
  ghost predicate NoKeyAt(ss: seq<State>, steps: seq<Step>, k: nat, c: nat, g: Text) {
    k < |steps| < |ss| && steps[k] == Advance(c, false) && !HasActive(ss[k].table, g)
  }

  /** A failure is reported for a fault of the request's own, for a published failure, or for a missing key it may not create. */
  ghost predicate FailedFor(ss: seq<State>, steps: seq<Step>, k: nat, c: nat, g: Text, autoCreate: bool) {
    && k < |steps| < |ss| && Of(steps[k], c)
    && (|| Faulty(steps[k]) || (steps[k] == Advance(c, false) && FailurePublished(ss[k], g)) || (!autoCreate && NoKeyAt(ss, steps, k, c, g)))
  }

  /** Pending is reported at the deadline, or when first the channel and then the key was missing and no news came since. */
  ghost predicate PendingFor(ss: seq<State>, steps: seq<Step>, k: nat, c: nat, g: Text, k0: nat, k1: nat) {
    && k < |steps| < |ss|
    && (steps[k] == Timeout(c) ||
        (k0 < k1 < k && NoChannelAt(ss, steps, k0, c, g) && NoKeyAt(ss, steps, k1, c, g) && steps[k].Advance? && steps[k].c == c && ChannelPending(ss[k], g)))
  }

  /** What a request that has just been given `pc` was told, in terms of the step that told it. */
  lemma ReasonStep(v: Vault, max: nat, s: State, step: Step, c: nat)
    requires Inv(s, max) && Enabled(s, step) && Of(step, c) && c in s.clients
    ensures var cl := Do(v, s, step).clients[c];
      && cl.groupId == s.clients[c].groupId && cl.autoCreate == s.clients[c].autoCreate
      && (cl.pc == Answered(Failed) ==>
           || Faulty(step) || (step == Advance(c, false) && FailurePublished(s, cl.groupId))
           || (s.clients[c].pc.PlainCheck? && step == Advance(c, false) && !HasActive(s.table, cl.groupId)))
      && (cl.pc == Answered(Pending) ==> step == Timeout(c) || (s.clients[c].pc.StatusMap? && step.Advance? && ChannelPending(s, cl.groupId)))
      && (cl.pc.StatusMap? ==> s.clients[c].pc.StatusDb? && step == Advance(c, false) && !HasActive(s.table, cl.groupId))
      && (cl.pc.StatusDb? ==> s.clients[c].pc.GrabReceiver? && step.Advance? && cl.groupId !in s.inflight)
      && !cl.pc.PlainCheck?
  {
    var cl := s.clients[c];
    assert ClientOk(s, cl);
    if cl.pc.ReadValue? || cl.pc.Parked? { assert TaskOk(s.table, s.tasks[cl.pc.task]); }
    if cl.pc.StatusMap? && cl.groupId in s.inflight { assert TaskOk(s.table, s.tasks[s.inflight[cl.groupId]]); }
  }

  /** The request is the one that arrived, with the same group and mode. */
  lemma {:induction false} PlainCheckIsPlain(v: Vault, max: nat, ss: seq<State>, steps: seq<Step>, j: nat, c: nat)
    requires KeygenPool.IsRun(v, max, ss, steps) && j < |ss| && c in ss[j].clients
    ensures ss[j].clients[c].pc.PlainCheck? ==> !ss[j].clients[c].autoCreate
  {
    if j > 0 {
      assert KeygenPool.StepAt(v, ss, steps, j - 1);
      if c in ss[j - 1].clients {
        PlainCheckIsPlain(v, max, ss, steps, j - 1, c);
        RunInv(v, max, ss, steps, j - 1);
        if Of(steps[j - 1], c) { ReasonStep(v, max, ss[j - 1], steps[j - 1], c); }
        else { RequestUntouched(v, ss[j - 1], steps[j - 1], c); }
      }
    }
  }

  lemma {:induction false} WhyStatusDb(v: Vault, max: nat, ss: seq<State>, steps: seq<Step>, j: nat, c: nat) returns (k: nat)
    requires KeygenPool.IsRun(v, max, ss, steps) && j < |ss| && c in ss[j].clients && ss[j].clients[c].pc.StatusDb?
    ensures k < j && NoChannelAt(ss, steps, k, c, ss[j].clients[c].groupId)
  {
    assert KeygenPool.StepAt(v, ss, steps, j - 1);
    RunInv(v, max, ss, steps, j - 1);
    if Of(steps[j - 1], c) {
      if c in ss[j - 1].clients { ReasonStep(v, max, ss[j - 1], steps[j - 1], c); }
      k := j - 1;
    } else {
      RequestUntouched(v, ss[j - 1], steps[j - 1], c);
      k := WhyStatusDb(v, max, ss, steps, j - 1, c);
    }
  }

  lemma {:induction false} WhyStatusMap(v: Vault, max: nat, ss: seq<State>, steps: seq<Step>, j: nat, c: nat) returns (k0: nat, k1: nat)
    requires KeygenPool.IsRun(v, max, ss, steps) && j < |ss| && c in ss[j].clients && ss[j].clients[c].pc.StatusMap?
    ensures k0 < k1 < j && NoChannelAt(ss, steps, k0, c, ss[j].clients[c].groupId) && NoKeyAt(ss, steps, k1, c, ss[j].clients[c].groupId)
  {
    assert KeygenPool.StepAt(v, ss, steps, j - 1);
    RunInv(v, max, ss, steps, j - 1);
    if Of(steps[j - 1], c) {
      if c in ss[j - 1].clients { ReasonStep(v, max, ss[j - 1], steps[j - 1], c); }
      k1 := j - 1;
      k0 := WhyStatusDb(v, max, ss, steps, k1, c);
    } else {
      RequestUntouched(v, ss[j - 1], steps[j - 1], c);
      k0, k1 := WhyStatusMap(v, max, ss, steps, j - 1, c);
    }
  }

  /** No request is told Failed without cause. */
  lemma {:induction false} FailedHasItsReason(v: Vault, max: nat, ss: seq<State>, steps: seq<Step>, j: nat, c: nat) returns (k: nat)
    requires KeygenPool.IsRun(v, max, ss, steps) && j < |ss| && c in ss[j].clients && ss[j].clients[c].pc == Answered(Failed)
    ensures k < j && FailedFor(ss, steps, k, c, ss[j].clients[c].groupId, ss[j].clients[c].autoCreate)
  {
    assert KeygenPool.StepAt(v, ss, steps, j - 1);
    RunInv(v, max, ss, steps, j - 1);
    if Of(steps[j - 1], c) {
      k := j - 1;
      if c in ss[k].clients {
        ReasonStep(v, max, ss[k], steps[k], c);
        PlainCheckIsPlain(v, max, ss, steps, k, c);
      }
    } else {
      RequestUntouched(v, ss[j - 1], steps[j - 1], c);
      k := FailedHasItsReason(v, max, ss, steps, j - 1, c);
    }
  }

  /** No request is told Pending while it could have waited longer, unless worker and key were both gone when it looked. */
  lemma {:induction false} PendingHasItsReason(v: Vault, max: nat, ss: seq<State>, steps: seq<Step>, j: nat, c: nat) returns (k: nat, k0: nat, k1: nat)
    requires KeygenPool.IsRun(v, max, ss, steps) && j < |ss| && c in ss[j].clients && ss[j].clients[c].pc == Answered(Pending)
    ensures k < j && PendingFor(ss, steps, k, c, ss[j].clients[c].groupId, k0, k1)
  {
    assert KeygenPool.StepAt(v, ss, steps, j - 1);
    RunInv(v, max, ss, steps, j - 1);
    if Of(steps[j - 1], c) {
      k, k0, k1 := j - 1, 0, 0;
      if c in ss[k].clients {
        ReasonStep(v, max, ss[k], steps[k], c);
        if steps[k] != Timeout(c) { k0, k1 := WhyStatusMap(v, max, ss, steps, k, c); }
      }
    } else {
      RequestUntouched(v, ss[j - 1], steps[j - 1], c);
      k, k0, k1 := PendingHasItsReason(v, max, ss, steps, j - 1, c);
    }
  }

  /** A failing database call ends the request, and only as Failed. */
  lemma FaultFails(v: Vault, max: nat, ss: seq<State>, steps: seq<Step>, i: nat, c: nat)
    requires KeygenPool.IsRun(v, max, ss, steps) && i < |steps| && Of(steps[i], c) && Faulty(steps[i])
    ensures c in ss[i + 1].clients && ss[i + 1].clients[c].pc == Answered(Failed)
    ensures ss[i + 1].tasks == ss[i].tasks && ss[i + 1].inflight == ss[i].inflight
  {
    assert KeygenPool.StepAt(v, ss, steps, i);
  }

  /** The step asks the database whether the group has a key. */
  predicate LooksUp(s: State, step: Step, c: nat) {
    && Of(step, c) && c in s.clients
    && (|| (step.Ensure? && s.clients[c].groupId !in s.inflight)
        || (step.Advance? && (s.clients[c].pc.EnsureFast? || s.clients[c].pc.StatusDb? || s.clients[c].pc.PlainCheck?)))
  }

  /** Every lookup that finds the key tells the request Ready there and then; no lookup that finds none does. */
  lemma LookupDecides(v: Vault, max: nat, ss: seq<State>, steps: seq<Step>, i: nat, c: nat)
    requires KeygenPool.IsRun(v, max, ss, steps) && i < |steps| && LooksUp(ss[i], steps[i], c) && !Faulty(steps[i])
    ensures c in ss[i + 1].clients
    ensures ss[i + 1].clients[c].pc.Loading? <==> HasActive(ss[i].table, ss[i].clients[c].groupId)
  {
    assert KeygenPool.StepAt(v, ss, steps, i);
  }

  /**
   The section under the inflight lock, exactly: a worker is spawned if and only
   if the group has neither a worker nor a key, and whoever was not told Ready
   leaves with a live worker for its group.
   */
  lemma EnsureLeavesAWorker(v: Vault, max: nat, ss: seq<State>, steps: seq<Step>, i: nat, c: nat)
    requires KeygenPool.IsRun(v, max, ss, steps) && i < |steps| && Of(steps[i], c) && steps[i].Ensure? && !Faulty(steps[i])
    ensures c in ss[i].clients && c in ss[i + 1].clients
    ensures var g := ss[i].clients[c].groupId;
      && (steps[i].spawned in ss[i + 1].tasks <==> g !in ss[i].inflight && !HasActive(ss[i].table, g))
      && (steps[i].spawned in ss[i + 1].tasks ==>
           g in ss[i + 1].inflight && ss[i + 1].inflight[g] == steps[i].spawned && ss[i + 1].tasks[steps[i].spawned] == Task(Creating, g, Queued, Pending))
      && (!ss[i + 1].clients[c].pc.Loading? ==>
           g in ss[i + 1].inflight && ss[i + 1].inflight[g] in ss[i + 1].tasks && LiveCreate(ss[i + 1].tasks[ss[i + 1].inflight[g]]))
  {
    assert KeygenPool.StepAt(v, ss, steps, i);
    RunInv(v, max, ss, steps, i);
  }

  // ----- requests end

  /** The most steps a request can still take. */
  function Patience(s: State, cl: Client): nat
  {
    match cl.pc
    case EnsureFast => 8
    case EnsureLocked => 7
    case GrabReceiver => 6
    case ReadValue(t) => if t in s.tasks && s.tasks[t].sent == Pending then 5 else 2
    case Parked(_) => 4
    case StatusDb => 3
    case StatusMap => 2
    case PlainCheck => 2
    case Loading => 1
    case Loaded | CreatingInline | NoKey | Answered(_) => 0
  }

  /** A published status is never taken back. */
  lemma SentIsFinal(v: Vault, max: nat, s: State, step: Step, t: nat)
    requires Inv(s, max) && Enabled(s, step) && t in s.tasks && s.tasks[t].kind == Creating && s.tasks[t].sent != Pending
    ensures t in Do(v, s, step).tasks && Do(v, s, step).tasks[t].sent == s.tasks[t].sent && Do(v, s, step).tasks[t].kind == Creating
  {
    assert TaskOk(s.table, s.tasks[t]);
  }

  lemma PatienceStep(v: Vault, max: nat, s: State, step: Step, c: nat)
    requires Inv(s, max) && Enabled(s, step) && c in s.clients
    ensures c in Do(v, s, step).clients
    ensures Patience(Do(v, s, step), Do(v, s, step).clients[c]) + (if Of(step, c) then 1 else 0) <= Patience(s, s.clients[c])
  {
    var cl := s.clients[c];
    assert ClientOk(s, cl);
    if Of(step, c) {
      if cl.pc.Parked? { assert TaskOk(s.table, s.tasks[cl.pc.task]); }
    } else {
      RequestUntouched(v, s, step, c);
      if cl.pc.ReadValue? && s.tasks[cl.pc.task].sent != Pending { SentIsFinal(v, max, s, step, cl.pc.task); }
    }
  }

  /** A waiting request that has been sent `status`: it wakes, reads it, and goes by it. */
  function News(task: nat, status: Status, turns: nat): ClientPc {
    if turns == 0 then Parked(task) else if turns == 1 then ReadValue(task) else OnStatus(status)
  }

  lemma NewsStep(v: Vault, max: nat, s: State, step: Step, c: nat, t: nat, status: Status, turns: nat)
    requires Inv(s, max) && Enabled(s, step) && c in s.clients && t in s.tasks && s.tasks[t].sent == status != Pending
    requires turns < 2 && s.clients[c].pc == News(t, status, turns) && !(Of(step, c) && step.Timeout?)
    ensures c in Do(v, s, step).clients && t in Do(v, s, step).tasks
    ensures Do(v, s, step).tasks[t].sent == status && Do(v, s, step).tasks[t].kind == Creating
    ensures Do(v, s, step).clients[c].pc == News(t, status, if Of(step, c) then turns + 1 else turns)
  {
    assert ClientOk(s, s.clients[c]);
    SentIsFinal(v, max, s, step, t);
    if !Of(step, c) { RequestUntouched(v, s, step, c); }
  }

  /**
   A published status reaches everyone who waits for it: unless its deadline
   comes first, a waiting request is woken, and its second step from then on
   goes to the key for Ready and ends it for Failed.
   */
  lemma {:induction false} NewsIsDelivered(v: Vault, max: nat, ss: seq<State>, steps: seq<Step>, i: nat, j: nat, c: nat, t: nat)
    requires KeygenPool.IsRun(v, max, ss, steps) && i <= j < |ss| && c in ss[i].clients && ss[i].clients[c].pc == Parked(t)
    requires t in ss[i].tasks && ss[i].tasks[t].sent != Pending
    requires (forall k :: i <= k < j ==> steps[k] != Timeout(c)) && Turns(steps, i, j, c) <= 2
    ensures c in ss[j].clients && t in ss[j].tasks && ss[j].tasks[t].sent == ss[i].tasks[t].sent && ss[j].tasks[t].kind == Creating
    ensures ss[j].clients[c].pc == News(t, ss[i].tasks[t].sent, Turns(steps, i, j, c))
    ensures Turns(steps, i, j, c) < 2 ==> Enabled(ss[j], Advance(c, false))
  {
    if i < j {
      NewsIsDelivered(v, max, ss, steps, i, j - 1, c, t);
      RunInv(v, max, ss, steps, j - 1);
      assert KeygenPool.StepAt(v, ss, steps, j - 1);
      var turns := Turns(steps, i, j - 1, c);
      if turns < 2 {
        NewsStep(v, max, ss[j - 1], steps[j - 1], c, t, ss[i].tasks[t].sent, turns);
      } else {
        RequestUntouched(v, ss[j - 1], steps[j - 1], c);
        SentIsFinal(v, max, ss[j - 1], steps[j - 1], t);
      }
    } else {
      JoinedWorker(v, max, ss, steps, i, c);
    }
    if Turns(steps, i, j, c) < 2 { RunInv(v, max, ss, steps, j); }
  }

  lemma JoinedWorker(v: Vault, max: nat, ss: seq<State>, steps: seq<Step>, i: nat, c: nat)
    requires KeygenPool.IsRun(v, max, ss, steps) && i < |ss| && c in ss[i].clients && ss[i].clients[c].pc.Parked?
    ensures var t := ss[i].clients[c].pc.task;
      t in ss[i].tasks && ss[i].tasks[t].kind == Creating && ss[i].tasks[t].groupId == ss[i].clients[c].groupId
  {
    RunInv(v, max, ss, steps, i);
    assert ClientOk(ss[i], ss[i].clients[c]);
  }

  /** A request takes at most eight steps after its arrival, whatever the others do. */
  lemma {:induction false} RequestsEnd(v: Vault, max: nat, ss: seq<State>, steps: seq<Step>, i: nat, j: nat, c: nat)
    requires KeygenPool.IsRun(v, max, ss, steps) && i <= j < |ss| && c in ss[i].clients
    ensures c in ss[j].clients
    ensures Turns(steps, i, j, c) + Patience(ss[j], ss[j].clients[c]) <= Patience(ss[i], ss[i].clients[c]) <= 8
  {
    if i < j {
      RequestsEnd(v, max, ss, steps, i, j - 1, c);
      RunInv(v, max, ss, steps, j - 1);
      assert KeygenPool.StepAt(v, ss, steps, j - 1);
      PatienceStep(v, max, ss[j - 1], steps[j - 1], c);
    }
  }

  /** A request either has its key, or has its answer, or can take a step of its own: at the latest when its deadline passes. */
  lemma RequestsAreNeverStuck(v: Vault, max: nat, ss: seq<State>, steps: seq<Step>, i: nat, c: nat, spare: nat)
    requires KeygenPool.IsRun(v, max, ss, steps) && i < |ss| && c in ss[i].clients && spare !in ss[i].tasks
    ensures var pc := ss[i].clients[c].pc;
      || pc.Loaded? || pc == Answered(Failed) || pc == Answered(Pending)
      || Enabled(ss[i], Advance(c, false)) || Enabled(ss[i], Ensure(c, spare, false)) || Enabled(ss[i], Timeout(c))
  {
    RunInv(v, max, ss, steps, i);
    CanGoOn(ss[i], max, c, spare);
  }

  lemma CanGoOn(s: State, max: nat, c: nat, spare: nat)
    requires Inv(s, max) && c in s.clients && spare !in s.tasks
    ensures var pc := s.clients[c].pc;
      || pc.Loaded? || pc == Answered(Failed) || pc == Answered(Pending)
      || ClientEnabled(s, Advance(c, false)) || ClientEnabled(s, Ensure(c, spare, false)) || ClientEnabled(s, Timeout(c))
  {
    var cl := s.clients[c];
    assert ClientOk(s, cl);
    if cl.pc.Answered? { assert cl.pc.status == Failed || cl.pc.status == Pending; }
    else if !cl.pc.EnsureLocked? && !cl.pc.Parked? && !cl.pc.Loaded? { assert CanAdvance(s, cl); }
  }

  // ----- what workers publish

  /** Step `k` ran the keygen of task `t`, and its transaction went through without a panic. */
  ghost predicate StoredAt(v: Vault, ss: seq<State>, steps: seq<Step>, k: nat, t: nat) {
    && k < |steps| < |ss| && steps[k].Generate? && steps[k].t == t && !steps[k].panic
    && KeyRows.Apply(v, ss[k].table, steps[k].op).1.Some?
  }

  ghost predicate PanickedAt(ss: seq<State>, steps: seq<Step>, k: nat, t: nat) {
    k < |steps| < |ss| && steps[k].Generate? && steps[k].t == t && steps[k].panic
  }

  /** Step `k` ran the keygen of task `t`, and its transaction was rolled back. */
  ghost predicate RolledBackAt(v: Vault, ss: seq<State>, steps: seq<Step>, k: nat, t: nat) {
    && k < |steps| < |ss| && steps[k].Generate? && steps[k].t == t && !steps[k].panic
    && KeyRows.Apply(v, ss[k].table, steps[k].op).1.None?
  }

  /** Step `k` looked, after a failed keygen, whether the group has a key anyway. */
  ghost predicate ResolvedAt(ss: seq<State>, steps: seq<Step>, k: nat, t: nat, g: Text, found: bool) {
    && k < |steps| < |ss| && steps[k].Resolve? && steps[k].t == t
    && (found <==> !steps[k].fault && HasActive(ss[k].table, g))
  }

  /** The verdict a create worker is carrying to its channel, or has put there. */
  predicate Carries(task: Task, status: Status) {
    task.kind == Creating && (task.pc == Publishing(status) || (task.sent == status && status != Pending))
  }

  lemma VerdictStep(v: Vault, s: State, step: Step, t: nat, status: Status)
    requires Enabled(s, step) && t in Do(v, s, step).tasks && Carries(Do(v, s, step).tasks[t], status)
    ensures t in s.tasks && s.tasks[t].groupId == Do(v, s, step).tasks[t].groupId && s.tasks[t].kind == Creating
    ensures Carries(s.tasks[t], status)
            || (step == DropPermit(t) && s.tasks[t].pc == Returned(Stored) && status == Ready)
            || (step == DropPermit(t) && s.tasks[t].pc == Returned(Panicked) && status == Failed)
            || (step.Resolve? && step.t == t && status == if !step.fault && HasActive(s.table, s.tasks[t].groupId) then Ready else Failed)
  {
  }

  lemma {:induction false} WhenReturned(v: Vault, max: nat, ss: seq<State>, steps: seq<Step>, i: nat, t: nat) returns (k: nat)
    requires KeygenPool.IsRun(v, max, ss, steps) && i < |ss| && t in ss[i].tasks && ss[i].tasks[t].pc.Returned?
    ensures k < i && (ss[i].tasks[t].pc.result == Stored ==> StoredAt(v, ss, steps, k, t))
    ensures ss[i].tasks[t].pc.result == Panicked ==> PanickedAt(ss, steps, k, t)
    ensures ss[i].tasks[t].pc.result == Errored ==> RolledBackAt(v, ss, steps, k, t)
  {
    assert KeygenPool.StepAt(v, ss, steps, i - 1);
    if t in ss[i - 1].tasks && ss[i - 1].tasks[t].pc.Returned? {
      k := WhenReturned(v, max, ss, steps, i - 1, t);
    } else {
      k := i - 1;
    }
  }

  /** A second look is only ever taken after a transaction that was rolled back. */
  lemma {:induction false} WhyResolving(v: Vault, max: nat, ss: seq<State>, steps: seq<Step>, i: nat, t: nat) returns (k: nat)
    requires KeygenPool.IsRun(v, max, ss, steps) && i < |ss| && t in ss[i].tasks && ss[i].tasks[t].pc.Resolving?
    ensures k < i && RolledBackAt(v, ss, steps, k, t)
  {
    assert KeygenPool.StepAt(v, ss, steps, i - 1);
    if t in ss[i - 1].tasks && ss[i - 1].tasks[t].pc.Resolving? {
      k := WhyResolving(v, max, ss, steps, i - 1, t);
    } else {
      k := WhenReturned(v, max, ss, steps, i - 1, t);
    }
  }

  /**
   What a create worker tells its waiters: Ready for a stored key, or one found
   on the second look after its own was rolled back; Failed for a panic, or when
   that look found none (or failed itself).
   */
  lemma {:induction false} VerdictHasItsReason(v: Vault, max: nat, ss: seq<State>, steps: seq<Step>, i: nat, t: nat, status: Status)
    returns (k: nat, k0: nat)
    requires KeygenPool.IsRun(v, max, ss, steps) && i < |ss| && t in ss[i].tasks && Carries(ss[i].tasks[t], status)
    ensures k < i && status != Pending
    ensures status == Ready ==> StoredAt(v, ss, steps, k, t) || ResolvedAt(ss, steps, k, t, ss[i].tasks[t].groupId, true)
    ensures status == Failed ==> PanickedAt(ss, steps, k, t) || ResolvedAt(ss, steps, k, t, ss[i].tasks[t].groupId, false)
    ensures k < |steps| && steps[k].Resolve? ==> k0 < k && RolledBackAt(v, ss, steps, k0, t)
  {
    assert KeygenPool.StepAt(v, ss, steps, i - 1);
    VerdictStep(v, ss[i - 1], steps[i - 1], t, status);
    if Carries(ss[i - 1].tasks[t], status) {
      k, k0 := VerdictHasItsReason(v, max, ss, steps, i - 1, t, status);
    } else if steps[i - 1].Resolve? {
      k := i - 1;
      k0 := WhyResolving(v, max, ss, steps, k, t);
    } else {
      k := WhenReturned(v, max, ss, steps, i - 1, t);
      k0 := 0;
    }
  }

  // ----- the pool goes on

  /** The most steps a task can still take. */
  function Work(pc: TaskPc): nat {
    match pc
    case Queued => 7
    case Running => 6
    case Detached => 1
    case Returned(_) => 5
    case Resolving => 4
    case Publishing(_) => 3
    case Published => 2
    case Finished => 0
  }

  predicate OfTask(step: Step, t: nat) {
    !step.Arrive? && !step.Ensure? && !step.Advance? && !step.Timeout? && step.t == t
  }

  /** Every step of a task brings it nearer to its end; no other step moves it. */
  lemma WorkStep(v: Vault, s: State, step: Step, t: nat)
    requires Enabled(s, step) && t in s.tasks
    ensures t in Do(v, s, step).tasks
    ensures Work(Do(v, s, step).tasks[t].pc) + (if OfTask(step, t) then 1 else 0) <= Work(s.tasks[t].pc)
  {
  }

  /** A task that is not finished and not queueing can take its next step at once. */
  predicate CanMove(s: State, t: nat, op: Op)
    requires t in s.tasks
  {
    || TaskEnabled(s, Acquire(t)) || TaskEnabled(s, Generate(t, op, false)) || TaskEnabled(s, DropPermit(t))
    || TaskEnabled(s, Resolve(t, false)) || TaskEnabled(s, Publish(t)) || TaskEnabled(s, Deregister(t))
  }

  lemma MovesUnlessQueued(s: State, t: nat, op: Op)
    requires t in s.tasks && !s.tasks[t].pc.Finished? && OpFor(s.tasks[t], op)
    requires s.tasks[t].pc.Queued? ==> s.permits > 0
    ensures CanMove(s, t, op)
  {
  }

  /** The transaction a task would run. */
  function SomeOp(task: Task): (op: Op)
    ensures OpFor(task, op)
  {
    if task.kind == Rotating then Rotate(task.groupId, [], [], [], false) else Create(task.groupId, [], [], [], false)
  }

  /** No deadlock on permits: while any task is unfinished, some task can move. */
  lemma PoolIsNeverStuck(v: Vault, max: nat, ss: seq<State>, steps: seq<Step>, i: nat, t: nat) returns (u: nat)
    requires max >= 1 && KeygenPool.IsRun(v, max, ss, steps) && i < |ss| && t in ss[i].tasks && !ss[i].tasks[t].pc.Finished?
    ensures u in ss[i].tasks && CanMove(ss[i], u, SomeOp(ss[i].tasks[u]))
  {
    RunInv(v, max, ss, steps, i);
    u := t;
    if ss[i].tasks[t].pc.Queued? && ss[i].permits == 0 {
      assert |Holders(ss[i])| == max;
      u :| u in Holders(ss[i]);
    }
    MovesUnlessQueued(ss[i], u, SomeOp(ss[i].tasks[u]));
  }

  /** A create worker never replaces a key that is there; a rotation that goes through always installs a new one. */
  lemma OnlyRotationReplaces(v: Vault, max: nat, ss: seq<State>, steps: seq<Step>, i: nat, g: Text, id: int)
    requires KeygenPool.IsRun(v, max, ss, steps) && i < |steps| && ActiveRow(ss[i].table, g, id)
    ensures !ActiveRow(ss[i + 1].table, g, id) ==>
      && steps[i].Generate? && steps[i].t in ss[i].tasks
      && ss[i].tasks[steps[i].t].kind == Rotating && ss[i].tasks[steps[i].t].groupId == g
    ensures steps[i].Generate? && steps[i].t in ss[i].tasks && ss[i].tasks[steps[i].t].kind == Rotating && ss[i].tasks[steps[i].t].groupId == g
            && KeyRows.Apply(v, ss[i].table, steps[i].op).1.Some? ==>
      !ActiveRow(ss[i + 1].table, g, id) && ActiveRow(ss[i + 1].table, g, ss[i + 1].table.lastId)
  {
    assert KeygenPool.StepAt(v, ss, steps, i);
    TableGood(v, max, ss, steps, i);
    if steps[i].Generate? {
      ApplyContract(v, ss[i].table, steps[i].op);
      assert HasActive(ss[i].table, g);
    }
  }
}
