/**
 The bounded keygen pool (src/keygen.rs) with the requests that wait on it
 (src/handlers.rs, `sign` and `/key`) and the rotations that share its permits.
 One step is one database call, one `inflight` lock section, one permit
 operation or one watch-channel operation; everything interleaves.
 */
module KeygenPool {
  import opened Bytes
  import opened Sets
  import opened Keystore
  import opened KeyRows

  datatype Status = Ready | Pending | Failed
  datatype Kind = Creating | Rotating

  /** How the blocking keygen call ended: key stored, an error, or a panic. */
  datatype Result = Stored | Errored | Panicked

  datatype TaskPc =
    | Queued                      // waiting for a permit
    | Running                     // permit held, keygen and its transaction on a blocking thread
    | Detached                    // rotate only: its future was dropped, permit and all, while the thread runs on
    | Returned(result: Result)    // blocking thread done, permit still held
    | Resolving                   // create failed: about to look whether a key exists anyway
    | Publishing(status: Status)  // about to send on the watch channel
    | Published                   // sent; the inflight entry is still there
    | Finished

  /** `sent` is the current value of the task's watch channel. */
  datatype Task = Task(kind: Kind, groupId: Text, pc: TaskPc, sent: Status)

  datatype ClientPc =
    | EnsureFast                  // ensure: the lookup before the lock
    | EnsureLocked                // ensure: the section under the inflight lock
    | GrabReceiver                // wait_ready: pick up the group's channel
    | ReadValue(task: nat)        // wait_ready: top of its loop
    | Parked(task: nat)           // wait_ready: in select!
    | StatusDb | StatusMap        // status
    | PlainCheck                  // sign with auto-create off
    | Loading                     // told Ready: about to read the active key
    | Loaded
    | CreatingInline              // the create branch of get_or_create_key: keygen outside the pool
    | NoKey                       // its "no key" branch
    | Answered(status: Status)    // ended before needing the key

  datatype Client = Client(groupId: Text, autoCreate: bool, pc: ClientPc)

  datatype State = State(table: Table, inflight: map<Text, nat>, tasks: map<nat, Task>, permits: nat, clients: map<nat, Client>)

  datatype Step =
    | Arrive(c: nat, groupId: Text, autoCreate: bool)
    | Ensure(c: nat, spawned: nat, fault: bool)
    | Advance(c: nat, fault: bool)
    | Timeout(c: nat)
    | AskRotate(t: nat, groupId: Text)
    | CancelRotate(t: nat)
    | Acquire(t: nat)
    | Generate(t: nat, op: Op, panic: bool)
    | DropPermit(t: nat)
    | Resolve(t: nat, fault: bool)
    | Publish(t: nat)
    | Deregister(t: nat)

  /** The transaction a keygen thread runs: its task's own kind and group. */
  predicate OpFor(task: Task, op: Op) {
    op.groupId == task.groupId && (op.Rotate? <==> task.kind == Rotating)
  }

  /** A request that is not waiting for its channel and has not ended. */
  predicate CanAdvance(s: State, cl: Client) {
    match cl.pc
    case EnsureLocked => false
    case ReadValue(t) => t in s.tasks
    case Parked(t) => t in s.tasks && (s.tasks[t].sent != Pending || s.tasks[t].pc.Finished?)
    case StatusMap => cl.groupId in s.inflight ==> s.inflight[cl.groupId] in s.tasks
    case Loaded | CreatingInline | NoKey | Answered(_) => false
    case _ => true
  }

  /** The next step of the request is a database call, which can fail. */
  predicate AsksDb(pc: ClientPc) {
    pc.EnsureFast? || pc.StatusDb? || pc.PlainCheck? || pc.Loading?
  }

  predicate ClientEnabled(s: State, step: Step) {
    match step
    case Arrive(c, _, _) => c !in s.clients
    case Ensure(c, spawned, fault) =>
      c in s.clients && s.clients[c].pc.EnsureLocked? && spawned !in s.tasks && (fault ==> s.clients[c].groupId !in s.inflight)
    case Advance(c, fault) => c in s.clients && CanAdvance(s, s.clients[c]) && (fault ==> AsksDb(s.clients[c].pc))
    case Timeout(c) => c in s.clients && s.clients[c].pc.Parked?
    case _ => false
  }

  predicate TaskEnabled(s: State, step: Step) {
    match step
    case AskRotate(t, _) => t !in s.tasks
    case CancelRotate(t) => t in s.tasks && s.tasks[t].kind == Rotating && !s.tasks[t].pc.Finished? && !s.tasks[t].pc.Detached?
    case Acquire(t) => t in s.tasks && s.tasks[t].pc.Queued? && s.permits > 0
    case Generate(t, op, _) => t in s.tasks && (s.tasks[t].pc.Running? || s.tasks[t].pc.Detached?) && OpFor(s.tasks[t], op)
    case DropPermit(t) => t in s.tasks && s.tasks[t].pc.Returned?
    case Resolve(t, _) => t in s.tasks && s.tasks[t].pc.Resolving?
    case Publish(t) => t in s.tasks && s.tasks[t].pc.Publishing?
    case Deregister(t) => t in s.tasks && s.tasks[t].pc.Published?
    case _ => false
  }

  predicate Enabled(s: State, step: Step) {
    ClientEnabled(s, step) || TaskEnabled(s, step)
  }

  /** Where a known status takes a waiting request. */
  function OnStatus(status: Status): ClientPc {
    if status == Ready then Loading else Answered(status)
  }

  function NextPc(s: State, cl: Client, fault: bool): ClientPc
    requires cl.pc.ReadValue? || cl.pc.Parked? ==> cl.pc.task in s.tasks
    requires cl.pc.StatusMap? && cl.groupId in s.inflight ==> s.inflight[cl.groupId] in s.tasks
  {
    var active := HasActive(s.table, cl.groupId);
    match cl.pc
    case EnsureFast => if fault then Answered(Failed) else if active then Loading else EnsureLocked
    case GrabReceiver => if cl.groupId in s.inflight then ReadValue(s.inflight[cl.groupId]) else StatusDb
    case ReadValue(t) => if s.tasks[t].sent == Pending then Parked(t) else OnStatus(s.tasks[t].sent)
    case Parked(t) => if s.tasks[t].sent != Pending then ReadValue(t) else StatusDb
    case StatusDb => if fault then Answered(Failed) else if active then Loading else StatusMap
    case StatusMap => OnStatus(if cl.groupId in s.inflight then s.tasks[s.inflight[cl.groupId]].sent else Pending)
    case PlainCheck => if fault || !active then Answered(Failed) else Loading
    case Loading => if fault then Answered(Failed) else if active then Loaded else if cl.autoCreate then CreatingInline else NoKey
    case _ => cl.pc
  }

  function GotoClient(s: State, c: nat, pc: ClientPc): State
    requires c in s.clients
  {
    s.(clients := s.clients[c := s.clients[c].(pc := pc)])
  }

  function GotoTask(s: State, t: nat, pc: TaskPc): State
    requires t in s.tasks
  {
    s.(tasks := s.tasks[t := s.tasks[t].(pc := pc)])
  }

  function DoClient(s: State, step: Step): State
    requires ClientEnabled(s, step)
  {
    match step
    case Arrive(c, g, auto) => s.(clients := s.clients[c := Client(g, auto, if auto then EnsureFast else PlainCheck)])
    case Ensure(c, spawned, fault) =>
      var g := s.clients[c].groupId;
      if g in s.inflight then GotoClient(s, c, GrabReceiver)
      else if fault then GotoClient(s, c, Answered(Failed))
      else if HasActive(s.table, g) then GotoClient(s, c, Loading)
      else GotoClient(s, c, GrabReceiver).(inflight := s.inflight[g := spawned], tasks := s.tasks[spawned := Task(Creating, g, Queued, Pending)])
    case Advance(c, fault) => GotoClient(s, c, NextPc(s, s.clients[c], fault))
    case Timeout(c) => GotoClient(s, c, Answered(Pending))
  }

  /** What a create worker does with the outcome once its permit is back. */
  function OnResult(result: Result): TaskPc {
    match result
    case Stored => Publishing(Ready)
    case Errored => Resolving
    case Panicked => Publishing(Failed)
  }

  function DoTask(v: Vault, s: State, step: Step): State
    requires TaskEnabled(s, step)
  {
    match step
    case AskRotate(t, g) => s.(tasks := s.tasks[t := Task(Rotating, g, Queued, Pending)])
    case CancelRotate(t) =>
      var pc := s.tasks[t].pc;
      GotoTask(s, t, if pc.Running? then Detached else Finished).(permits := s.permits + if HoldsPermit(s.tasks[t]) then 1 else 0)
    case Acquire(t) => GotoTask(s, t, Running).(permits := s.permits - 1)
    case Generate(t, op, panic) =>
      var (table, r) := KeyRows.Apply(v, s.table, op);
      var pc := if s.tasks[t].pc.Detached? then Finished
                else Returned(if panic then Panicked else if r.Some? then Stored else Errored);
      GotoTask(s, t, pc).(table := table)
    case DropPermit(t) =>
      GotoTask(s, t, if s.tasks[t].kind == Rotating then Finished else OnResult(s.tasks[t].pc.result)).(permits := s.permits + 1)
    case Resolve(t, fault) => GotoTask(s, t, Publishing(if !fault && HasActive(s.table, s.tasks[t].groupId) then Ready else Failed))
    case Publish(t) => s.(tasks := s.tasks[t := s.tasks[t].(pc := Published, sent := s.tasks[t].pc.status)])
    case Deregister(t) => GotoTask(s, t, Finished).(inflight := s.inflight - {s.tasks[t].groupId})
  }

  function Do(v: Vault, s: State, step: Step): State
    requires Enabled(s, step)
  {
    if ClientEnabled(s, step) then DoClient(s, step) else DoTask(v, s, step)
  }

  ghost predicate Init(s: State, max: nat) {
    WellFormed(s.table) && s.inflight == map[] && s.tasks == map[] && s.clients == map[] && s.permits == max
  }

  ghost predicate IsRun(v: Vault, max: nat, ss: seq<State>, steps: seq<Step>) {
    && |ss| == |steps| + 1 && Init(ss[0], max)
    && forall i :: 0 <= i < |steps| ==> StepAt(v, ss, steps, i)
  }

  ghost predicate StepAt(v: Vault, ss: seq<State>, steps: seq<Step>, i: nat)
    requires i < |steps| < |ss|
  {
    Enabled(ss[i], steps[i]) && ss[i + 1] == Do(v, ss[i], steps[i])
  }

  // ----- the invariant

  predicate LiveCreate(task: Task) {
    task.kind == Creating && !task.pc.Finished?
  }

  predicate HoldsPermit(task: Task) {
    task.pc.Running? || task.pc.Returned?
  }

  function Holders(s: State): set<nat> {
    set t | t in s.tasks && HoldsPermit(s.tasks[t])
  }

  /** The inflight map and the live create workers name each other. */
  ghost predicate InflightInv(s: State) {
    && (forall g :: g in s.inflight ==>
         s.inflight[g] in s.tasks && LiveCreate(s.tasks[s.inflight[g]]) && s.tasks[s.inflight[g]].groupId == g)
    && (forall t :: t in s.tasks && LiveCreate(s.tasks[t]) ==>
         s.tasks[t].groupId in s.inflight && s.inflight[s.tasks[t].groupId] == t)
  }

  /** A worker says Ready only over an existing key, and never ends without saying something. */
  ghost predicate TaskOk(table: Table, task: Task) {
    && (task.kind == Creating && (task.pc == Returned(Stored) || task.pc == Publishing(Ready) || task.sent == Ready) ==>
         HasActive(table, task.groupId))
    && (task.kind == Creating ==> !task.pc.Detached? && task.pc != Publishing(Pending))
    && (task.kind == Creating ==> (task.pc.Published? || task.pc.Finished? <==> task.sent != Pending))
    && (task.kind == Rotating ==> !task.pc.Published? && !task.pc.Publishing? && !task.pc.Resolving?)
  }

  ghost predicate ClientOk(s: State, cl: Client) {
    && (cl.pc.Loading? || cl.pc.Loaded? ==> HasActive(s.table, cl.groupId))
    && (cl.pc.ReadValue? || cl.pc.Parked? ==>
         cl.pc.task in s.tasks && s.tasks[cl.pc.task].kind == Creating && s.tasks[cl.pc.task].groupId == cl.groupId)
    && !cl.pc.CreatingInline? && !cl.pc.NoKey? && cl.pc != Answered(Ready)
  }

  ghost predicate Inv(s: State, max: nat) {
    && WellFormed(s.table) && InflightInv(s)
    && (forall t :: t in s.tasks ==> TaskOk(s.table, s.tasks[t]))
    && (forall c :: c in s.clients ==> ClientOk(s, s.clients[c]))
    && s.permits + |Holders(s)| == max
  }

  /** What every step does for everyone but its own task and client: keys stay, tasks stay, kinds and groups stay. */
  ghost predicate Grows(s: State, s': State) {
    && (forall g :: HasActive(s.table, g) ==> HasActive(s'.table, g))
    && (forall t :: t in s.tasks ==> t in s'.tasks && s'.tasks[t].kind == s.tasks[t].kind && s'.tasks[t].groupId == s.tasks[t].groupId)
  }

  /** The table after a task's transaction. */
  lemma GenerateGrows(v: Vault, table: Table, op: Op)
    requires WellFormed(table)
    ensures WellFormed(KeyRows.Apply(v, table, op).0)
    ensures forall g :: HasActive(table, g) ==> HasActive(KeyRows.Apply(v, table, op).0, g)
    ensures KeyRows.Apply(v, table, op).1.Some? ==> HasActive(KeyRows.Apply(v, table, op).0, op.groupId)
  {
    ApplyContract(v, table, op);
    forall g | HasActive(table, g) ensures HasActive(KeyRows.Apply(v, table, op).0, g) { ActiveIsForever(v, table, op, g); }
  }

  lemma TaskStepGrows(v: Vault, s: State, step: Step)
    requires WellFormed(s.table) && TaskEnabled(s, step)
    ensures Grows(s, DoTask(v, s, step)) && WellFormed(DoTask(v, s, step).table)
    ensures DoTask(v, s, step).clients == s.clients
    ensures forall t :: t in DoTask(v, s, step).tasks && t != step.t ==> t in s.tasks && DoTask(v, s, step).tasks[t] == s.tasks[t]
  {
    if step.Generate? { GenerateGrows(v, s.table, step.op); }
  }

  lemma ClientStepGrows(s: State, step: Step)
    requires ClientEnabled(s, step)
    ensures Grows(s, DoClient(s, step)) && DoClient(s, step).table == s.table
    ensures forall t :: t in s.tasks ==> DoClient(s, step).tasks[t] == s.tasks[t]
    ensures forall t :: t in DoClient(s, step).tasks && t !in s.tasks ==>
              DoClient(s, step).tasks[t].pc == Queued && DoClient(s, step).tasks[t].sent == Pending && DoClient(s, step).tasks[t].kind == Creating
    ensures forall c :: c in DoClient(s, step).clients && c != step.c ==> c in s.clients && DoClient(s, step).clients[c] == s.clients[c]
  {
  }

  lemma ClientInflight(s: State, step: Step)
    requires InflightInv(s) && ClientEnabled(s, step)
    ensures InflightInv(DoClient(s, step))
  {
  }

  lemma TaskInflight(v: Vault, s: State, step: Step)
    requires InflightInv(s) && TaskEnabled(s, step)
    requires step.t in s.tasks ==> TaskOk(s.table, s.tasks[step.t])
    ensures InflightInv(DoTask(v, s, step))
  {
    if step.Deregister? {
      assert LiveCreate(s.tasks[step.t]);
    } else {
      TaskKeepsLiveness(v, s, step);
    }
  }

  /** Only deregistering ends a create worker; no task step starts one. */
  lemma TaskKeepsLiveness(v: Vault, s: State, step: Step)
    requires TaskEnabled(s, step) && !step.Deregister?
    requires step.t in s.tasks ==> TaskOk(s.table, s.tasks[step.t])
    ensures DoTask(v, s, step).inflight == s.inflight
    ensures forall t :: t in s.tasks ==> t in DoTask(v, s, step).tasks && DoTask(v, s, step).tasks[t].groupId == s.tasks[t].groupId
    ensures forall t :: t in DoTask(v, s, step).tasks ==> (LiveCreate(DoTask(v, s, step).tasks[t]) <==> t in s.tasks && LiveCreate(s.tasks[t]))
  {
  }

  lemma MovedTaskOk(v: Vault, s: State, step: Step)
    requires WellFormed(s.table) && TaskEnabled(s, step)
    requires step.t in s.tasks ==> TaskOk(s.table, s.tasks[step.t])
    ensures TaskOk(DoTask(v, s, step).table, DoTask(v, s, step).tasks[step.t])
  {
    if step.Generate? { GenerateGrows(v, s.table, step.op); }
  }

  lemma MovedClientOk(s: State, step: Step)
    requires InflightInv(s) && ClientEnabled(s, step)
    requires forall t :: t in s.tasks ==> TaskOk(s.table, s.tasks[t])
    requires step.c in s.clients ==> ClientOk(s, s.clients[step.c])
    ensures ClientOk(DoClient(s, step), DoClient(s, step).clients[step.c])
  {
    if step.Advance? { NextPcOk(s, s.clients[step.c], step.fault); }
  }

  /** Only a Ready that is backed by a key sends a request on to load it. */
  lemma NextPcOk(s: State, cl: Client, fault: bool)
    requires InflightInv(s) && CanAdvance(s, cl) && ClientOk(s, cl)
    requires forall t :: t in s.tasks ==> TaskOk(s.table, s.tasks[t])
    ensures ClientOk(s, cl.(pc := NextPc(s, cl, fault)))
  {
  }

  lemma PermitsConserved(v: Vault, max: nat, s: State, step: Step)
    requires s.permits + |Holders(s)| == max && TaskEnabled(s, step)
    ensures DoTask(v, s, step).permits + |Holders(DoTask(v, s, step))| == max
  {
    SizeAfter(Holders(s), Holders(DoTask(v, s, step)), step.t);
  }

  lemma {:induction false} RunInv(v: Vault, max: nat, ss: seq<State>, steps: seq<Step>, i: nat)
    requires IsRun(v, max, ss, steps) && i < |ss|
    ensures Inv(ss[i], max)
  {
    if i == 0 {
      assert Holders(ss[0]) == {};
    } else {
      RunInv(v, max, ss, steps, i - 1);
      assert StepAt(v, ss, steps, i - 1);
      InvPreserved(v, max, ss[i - 1], steps[i - 1]);
    }
  }

  lemma InvAfterTask(v: Vault, max: nat, s: State, step: Step)
    requires Inv(s, max) && TaskEnabled(s, step)
    ensures Inv(DoTask(v, s, step), max)
  {
    var s' := DoTask(v, s, step);
    TaskStepGrows(v, s, step);
    TaskInflight(v, s, step);
    MovedTaskOk(v, s, step);
    forall t | t in s'.tasks ensures TaskOk(s'.table, s'.tasks[t]) {}
    forall c | c in s'.clients ensures ClientOk(s', s'.clients[c]) { assert ClientOk(s, s.clients[c]); }
    PermitsConserved(v, max, s, step);
  }

  lemma InvAfterClient(max: nat, s: State, step: Step)
    requires Inv(s, max) && ClientEnabled(s, step)
    ensures Inv(DoClient(s, step), max)
  {
    var s' := DoClient(s, step);
    ClientStepGrows(s, step);
    ClientInflight(s, step);
    MovedClientOk(s, step);
    forall t | t in s'.tasks ensures TaskOk(s'.table, s'.tasks[t]) {}
    forall c | c in s'.clients ensures ClientOk(s', s'.clients[c]) { assert c != step.c ==> ClientOk(s, s.clients[c]); }
    assert Holders(s') == Holders(s);
  }

  lemma InvPreserved(v: Vault, max: nat, s: State, step: Step)
    requires Inv(s, max) && Enabled(s, step)
    ensures Inv(Do(v, s, step), max)
  {
    if ClientEnabled(s, step) { InvAfterClient(max, s, step); } else { InvAfterTask(v, max, s, step); }
  }

  // ----- what holds over whole runs

  /** In every reachable state each inflight entry is one live create worker of its group, and each such worker has its entry. */
  lemma InflightIsTheLiveWorkers(v: Vault, max: nat, ss: seq<State>, steps: seq<Step>, i: nat)
    requires IsRun(v, max, ss, steps) && i < |ss|
    ensures forall g :: g in ss[i].inflight ==>
              ss[i].inflight[g] in ss[i].tasks && LiveCreate(ss[i].tasks[ss[i].inflight[g]]) && ss[i].tasks[ss[i].inflight[g]].groupId == g
    ensures forall t :: t in ss[i].tasks && LiveCreate(ss[i].tasks[t]) ==>
              ss[i].tasks[t].groupId in ss[i].inflight && ss[i].inflight[ss[i].tasks[t].groupId] == t
  {
    RunInv(v, max, ss, steps, i);
  }

  /** In-flight dedup: a group never has two live create workers. */
  lemma OneWorkerPerGroup(v: Vault, max: nat, ss: seq<State>, steps: seq<Step>, i: nat, t: nat, u: nat)
    requires IsRun(v, max, ss, steps) && i < |ss| && t in ss[i].tasks && u in ss[i].tasks
    requires LiveCreate(ss[i].tasks[t]) && LiveCreate(ss[i].tasks[u])
    ensures ss[i].tasks[t].groupId == ss[i].tasks[u].groupId ==> t == u
  {
    InflightIsTheLiveWorkers(v, max, ss, steps, i);
  }

  /** A further worker is spawned for a group only when every earlier one has ended and published a failure. */
  lemma RespawnOnlyAfterFailure(v: Vault, max: nat, ss: seq<State>, steps: seq<Step>, i: nat, t: nat)
    requires IsRun(v, max, ss, steps) && i < |steps| && steps[i].Ensure? && steps[i].spawned in ss[i + 1].tasks
    requires t in ss[i].tasks && ss[i].tasks[t].kind == Creating
    requires ss[i].tasks[t].groupId == ss[i + 1].tasks[steps[i].spawned].groupId
    ensures ss[i].tasks[t].pc == Finished && ss[i].tasks[t].sent == Failed
    ensures !HasActive(ss[i].table, ss[i].tasks[t].groupId)
  {
    RunInv(v, max, ss, steps, i);
    assert StepAt(v, ss, steps, i) && ss[i + 1] == DoClient(ss[i], steps[i]);
    assert TaskOk(ss[i].table, ss[i].tasks[t]);
  }

  lemma TableGood(v: Vault, max: nat, ss: seq<State>, steps: seq<Step>, i: nat)
    requires IsRun(v, max, ss, steps) && i < |ss|
    ensures WellFormed(ss[i].table)
  {
    RunInv(v, max, ss, steps, i);
  }

  lemma KeptByStep(v: Vault, s: State, step: Step, g: Text)
    requires WellFormed(s.table) && Enabled(s, step) && HasActive(s.table, g)
    ensures HasActive(Do(v, s, step).table, g)
  {
    if ClientEnabled(s, step) { ClientStepGrows(s, step); } else { TaskStepGrows(v, s, step); }
  }

  lemma KeptAt(v: Vault, ss: seq<State>, steps: seq<Step>, i: nat, g: Text)
    requires i < |steps| < |ss| && StepAt(v, ss, steps, i) && WellFormed(ss[i].table) && HasActive(ss[i].table, g)
    ensures HasActive(ss[i + 1].table, g)
  {
    KeptByStep(v, ss[i], steps[i], g);
  }

  /** Once a group has an active key it has one in every later state. */
  lemma {:induction false} KeyIsForever(v: Vault, max: nat, ss: seq<State>, steps: seq<Step>, i: nat, j: nat, g: Text)
    requires IsRun(v, max, ss, steps) && i <= j < |ss| && HasActive(ss[i].table, g)
    ensures HasActive(ss[j].table, g)
  {
    if i < j {
      KeyIsForever(v, max, ss, steps, i, j - 1, g);
      TableGood(v, max, ss, steps, j - 1);
      KeptAt(v, ss, steps, j - 1, g);
    }
  }

  /**
   A request that was told Ready finds the key, then and at any later time: on
   no run does `get_or_create_key` reach its create branch or its "no key"
   branch, so every keygen goes through the permit pool.
   */
  lemma ReadyIsBackedByAKey(v: Vault, max: nat, ss: seq<State>, steps: seq<Step>, i: nat, j: nat, c: nat)
    requires IsRun(v, max, ss, steps) && i <= j < |ss| && c in ss[i].clients
    ensures !ss[i].clients[c].pc.CreatingInline? && !ss[i].clients[c].pc.NoKey?
    ensures ss[i].clients[c].pc.Loading? || ss[i].clients[c].pc.Loaded? ==> HasActive(ss[j].table, ss[i].clients[c].groupId)
  {
    RunInv(v, max, ss, steps, i);
    assert ClientOk(ss[i], ss[i].clients[c]);
    if ss[i].clients[c].pc.Loading? || ss[i].clients[c].pc.Loaded? {
      KeyIsForever(v, max, ss, steps, i, j, ss[i].clients[c].groupId);
    }
  }

  lemma {:induction false} TableSealed(v: Vault, max: nat, ss: seq<State>, steps: seq<Step>, i: nat)
    requires IsRun(v, max, ss, steps) && i < |ss| && AllSealed(v, ss[0].table)
    ensures AllSealed(v, ss[i].table)
  {
    if i > 0 {
      TableSealed(v, max, ss, steps, i - 1);
      TableGood(v, max, ss, steps, i - 1);
      assert StepAt(v, ss, steps, i - 1);
      if steps[i - 1].Generate? { SealedPreserved(v, ss[i - 1].table, steps[i - 1].op); }
    }
  }

  /** And the key it finds decrypts: no wait that ended in Ready is followed by a key that cannot be opened. */
  lemma ReadyKeyOpens(v: Vault, max: nat, ss: seq<State>, steps: seq<Step>, i: nat, c: nat) returns (id: int)
    requires v.aead.Ideal() && IsRun(v, max, ss, steps) && i < |ss| && AllSealed(v, ss[0].table)
    requires c in ss[i].clients && ss[i].clients[c].pc.Loading?
    ensures ActiveRow(ss[i].table, ss[i].clients[c].groupId, id) && IsI64(id)
    ensures Open(v.aead, v.kek, ss[i].clients[c].groupId, id, ss[i].table.rows[id].sealed).Some?
  {
    ReadyIsBackedByAKey(v, max, ss, steps, i, i, c);
    TableGood(v, max, ss, steps, i);
    TableSealed(v, max, ss, steps, i);
    var g := ss[i].clients[c].groupId;
    id :| id in ss[i].table.rows && ActiveRow(ss[i].table, g, id);
    SealedOpensOnlyAsRow(v, ss[i].table, id, g, id);
  }

  /** A worker never drops its channel unanswered, so a waiter is never woken by a bare disconnect. */
  lemma WaitersAreAnswered(v: Vault, max: nat, ss: seq<State>, steps: seq<Step>, i: nat, c: nat)
    requires IsRun(v, max, ss, steps) && i < |ss| && c in ss[i].clients && ss[i].clients[c].pc.Parked?
    ensures var t := ss[i].clients[c].pc.task;
      t in ss[i].tasks && (ss[i].tasks[t].pc.Finished? ==> ss[i].tasks[t].sent != Pending)
  {
    RunInv(v, max, ss, steps, i);
    assert ClientOk(ss[i], ss[i].clients[c]);
    assert TaskOk(ss[i].table, ss[i].tasks[ss[i].clients[c].pc.task]);
  }

  /** Keygens handed to the blocking pool that have not returned. */
  function Busy(s: State): set<nat> {
    set t | t in s.tasks && (s.tasks[t].pc.Running? || s.tasks[t].pc.Detached?)
  }

  /** Those whose rotate future, and with it the permit, is gone. */
  function Loose(s: State): set<nat> {
    set t | t in s.tasks && s.tasks[t].pc.Detached?
  }

  /** Those that have ended but not yet handed the permit back. */
  function Idle(s: State): set<nat> {
    set t | t in s.tasks && s.tasks[t].pc.Returned?
  }

  /**
   Permit accounting in every reachable state, exactly: busy threads, ended
   holders and free permits add up to max plus the rotations cancelled in
   flight. The cap is broken exactly when those outnumber what is spare, and
   every permit is back once nobody holds one.
   */
  lemma PermitAccount(v: Vault, max: nat, ss: seq<State>, steps: seq<Step>, i: nat)
    requires IsRun(v, max, ss, steps) && i < |ss|
    ensures |Busy(ss[i])| + |Idle(ss[i])| + ss[i].permits == max + |Loose(ss[i])|
    ensures |Busy(ss[i])| <= max + |Loose(ss[i])|
    ensures |Busy(ss[i])| > max <==> |Loose(ss[i])| > |Idle(ss[i])| + ss[i].permits
    ensures Holders(ss[i]) == {} ==> ss[i].permits == max
  {
    RunInv(v, max, ss, steps, i);
    var s := ss[i];
    var attached := Busy(s) - Loose(s);
    assert Busy(s) == attached + Loose(s) && Holders(s) == attached + Idle(s);
    assert |Busy(s)| == |attached| + |Loose(s)|;
    assert |Holders(s)| == |attached| + |Idle(s)|;
  }

  /** A cancellation that catches a rotation while its thread runs. */
  predicate Strands(s: State, step: Step) {
    step.CancelRotate? && step.t in s.tasks && s.tasks[step.t].pc.Running?
  }

  lemma OnlyStrandingDetaches(v: Vault, s: State, step: Step)
    requires Enabled(s, step) && !Strands(s, step)
    ensures Loose(Do(v, s, step)) <= Loose(s)
  {
  }

  /** Without such a cancellation the cap holds in every state. */
  lemma {:induction false} CapHoldsWithoutCancellation(v: Vault, max: nat, ss: seq<State>, steps: seq<Step>, i: nat)
    requires IsRun(v, max, ss, steps) && i < |ss|
    requires forall k :: 0 <= k < i ==> !Strands(ss[k], steps[k])
    ensures Loose(ss[i]) == {} && |Busy(ss[i])| <= max
  {
    if i > 0 {
      CapHoldsWithoutCancellation(v, max, ss, steps, i - 1);
      assert StepAt(v, ss, steps, i - 1);
      OnlyStrandingDetaches(v, ss[i - 1], steps[i - 1]);
    }
    PermitAccount(v, max, ss, steps, i);
  }

  /** `n` rotations of one group, all cancelled while running; every permit is back. */
  function Abandoned(max: nat, g: Text, n: nat): State {
    State(Table(map[], 0), map[], map t: nat | t < n :: AbandonedTask(g, t), max, map[])
  }

  function AbandonedTask(g: Text, t: nat): Task {
    Task(Rotating, g, Detached, Pending)
  }

  lemma AbandonOneMore(v: Vault, max: nat, g: Text, n: nat)
    requires max >= 1
    ensures Enabled(Abandoned(max, g, n), AskRotate(n, g)) && Enabled(Do(v, Abandoned(max, g, n), AskRotate(n, g)), Acquire(n))
    ensures var s := Do(v, Do(v, Abandoned(max, g, n), AskRotate(n, g)), Acquire(n));
      Enabled(s, CancelRotate(n)) && Do(v, s, CancelRotate(n)) == Abandoned(max, g, n + 1)
  {
    var s := Do(v, Do(v, Do(v, Abandoned(max, g, n), AskRotate(n, g)), Acquire(n)), CancelRotate(n));
    assert s.tasks == Abandoned(max, g, n + 1).tasks;
  }

  lemma ExtendRun(v: Vault, max: nat, ss: seq<State>, steps: seq<Step>, step: Step)
    requires IsRun(v, max, ss, steps) && Enabled(ss[|ss| - 1], step)
    ensures IsRun(v, max, ss + [Do(v, ss[|ss| - 1], step)], steps + [step])
  {
    var ss', steps' := ss + [Do(v, ss[|ss| - 1], step)], steps + [step];
    forall i | 0 <= i < |steps'| ensures StepAt(v, ss', steps', i) {
      assert i < |steps| ==> StepAt(v, ss, steps, i);
    }
  }

  lemma {:induction false} AbandonedCount(max: nat, g: Text, n: nat)
    ensures |Busy(Abandoned(max, g, n))| == n && Loose(Abandoned(max, g, n)) == Busy(Abandoned(max, g, n))
  {
    if n == 0 {
      assert Busy(Abandoned(max, g, 0)) == {};
    } else {
      AbandonedCount(max, g, n - 1);
      assert Busy(Abandoned(max, g, n)) == Busy(Abandoned(max, g, n - 1)) + {n - 1};
    }
  }

  /**
   With such cancellations no number bounds the unfinished keygens: for every
   permit count, every group name and every n some run has n of them, all
   detached, and every permit free.
   */
  lemma {:induction false} CancellationBreaksTheCap(v: Vault, max: nat, g: Text, n: nat) returns (ss: seq<State>, steps: seq<Step>)
    requires max >= 1
    ensures IsRun(v, max, ss, steps) && ss[|ss| - 1] == Abandoned(max, g, n)
    ensures |Busy(ss[|ss| - 1])| == |Loose(ss[|ss| - 1])| == n && ss[|ss| - 1].permits == max
  {
    AbandonedCount(max, g, n);
    if n == 0 {
      ss, steps := [Abandoned(max, g, 0)], [];
      assert Abandoned(max, g, 0).tasks == map[];
    } else {
      ss, steps := CancellationBreaksTheCap(v, max, g, n - 1);
      AbandonOneMore(v, max, g, n - 1);
      ExtendRun(v, max, ss, steps, AskRotate(n - 1, g));
      ss, steps := ss + [Do(v, ss[|ss| - 1], AskRotate(n - 1, g))], steps + [AskRotate(n - 1, g)];
      ExtendRun(v, max, ss, steps, Acquire(n - 1));
      ss, steps := ss + [Do(v, ss[|ss| - 1], Acquire(n - 1))], steps + [Acquire(n - 1)];
      ExtendRun(v, max, ss, steps, CancelRotate(n - 1));
      ss, steps := ss + [Do(v, ss[|ss| - 1], CancelRotate(n - 1))], steps + [CancelRotate(n - 1)];
    }
  }

  /** `c` abandoned rotations, and `m` more that run with a permit. */
  function Crowded(max: nat, g: Text, c: nat, m: nat): State
    requires m <= max
  {
    State(Table(map[], 0), map[], map t: nat | t < c + m :: CrowdedTask(g, c, t), max - m, map[])
  }

  function CrowdedTask(g: Text, c: nat, t: nat): Task {
    Task(Rotating, g, if t < c then Detached else Running, Pending)
  }

  lemma CrowdOneMore(v: Vault, max: nat, g: Text, c: nat, m: nat)
    requires m < max
    ensures var t, s := c + m, Crowded(max, g, c, m);
      && Enabled(s, AskRotate(t, g)) && Enabled(Do(v, s, AskRotate(t, g)), Acquire(t))
      && Do(v, Do(v, s, AskRotate(t, g)), Acquire(t)) == Crowded(max, g, c, m + 1)
  {
    var t, s := c + m, Crowded(max, g, c, m);
    assert Do(v, Do(v, s, AskRotate(t, g)), Acquire(t)).tasks == Crowded(max, g, c, m + 1).tasks;
  }

  lemma {:induction false} CrowdedRun(v: Vault, max: nat, g: Text, c: nat, m: nat) returns (ss: seq<State>, steps: seq<Step>)
    requires max >= 1 && m <= max
    ensures IsRun(v, max, ss, steps) && ss[|ss| - 1] == Crowded(max, g, c, m)
  {
    if m == 0 {
      ss, steps := CancellationBreaksTheCap(v, max, g, c);
      assert Abandoned(max, g, c).tasks == Crowded(max, g, c, 0).tasks;
    } else {
      var t := c + m - 1;
      ss, steps := CrowdedRun(v, max, g, c, m - 1);
      CrowdOneMore(v, max, g, c, m - 1);
      ExtendRun(v, max, ss, steps, AskRotate(t, g));
      ss, steps := ss + [Do(v, ss[|ss| - 1], AskRotate(t, g))], steps + [AskRotate(t, g)];
      ExtendRun(v, max, ss, steps, Acquire(t));
      ss, steps := ss + [Do(v, ss[|ss| - 1], Acquire(t))], steps + [Acquire(t)];
    }
  }

  lemma {:induction false} FirstTasks(n: nat, s: set<nat>)
    requires forall t: nat :: t in s <==> t < n
    ensures |s| == n
  {
    if n == 0 {
      assert s == {};
    } else {
      FirstTasks(n - 1, s - {n - 1});
    }
  }

  /** The bound of PermitAccount is met: max running keygens on top of any number of cancelled ones. */
  lemma PermitBoundIsMet(v: Vault, max: nat, g: Text, c: nat) returns (ss: seq<State>, steps: seq<Step>)
    requires max >= 1
    ensures IsRun(v, max, ss, steps)
    ensures |Loose(ss[|ss| - 1])| == c && |Busy(ss[|ss| - 1])| == max + c
  {
    ss, steps := CrowdedRun(v, max, g, c, max);
    FirstTasks(c, Loose(Crowded(max, g, c, max)));
    FirstTasks(max + c, Busy(Crowded(max, g, c, max)));
  }
}
