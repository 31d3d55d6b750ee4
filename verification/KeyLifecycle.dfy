/**
 Init, seal and boot calls on one database, interleaved at database-call
 granularity (src/dedup.rs, src/main.rs): any number of processes, failing
 calls, and a process may die between any two calls.
 */
module KeyLifecycle {
  import opened Bytes
  import opened Wrappers
  import opened ServiceKeys

  datatype Proc =
    | InitStart(pinned: bool, importing: bool, seed: seq<byte>, nonce: seq<byte>) // before init's own lookup
    | SealStart(seed: seq<byte>, nonce: seq<byte>)                                // before seal_master_seed's lookup
    | SealInsert(seed: seq<byte>, pk: string, blob: seq<byte>)                    // before its insert
    | InitDone(answer: Option<string>, seed: seq<byte>)
    | BootStart(args: Args, nonce: seq<byte>)                                     // before the seed lookup
    | BootSeeded(args: Args, nonce: seq<byte>, pin: string, seed: seq<byte>)      // before the pairwise lookup
    | BootInsert(args: Args, keys: Keys, blob: seq<byte>)                         // before the import's insert
    | BootDone(args: Args, boot: Boot)
    | Dead

  /** `minted` is history: the processes whose insert of a master seed was accepted. */
  datatype State = State(store: Store, procs: map<nat, Proc>, minted: seq<nat>)

  datatype Step = Start(t: nat, p: Proc) | Call(t: nat, fault: bool) | Die(t: nat)

  predicate CanStart(p: Proc) {
    ((p.InitStart? || p.SealStart?) && |p.seed| == MASTER_SEED_LEN) || p.BootStart?
  }

  predicate Running(p: Proc) {
    !p.InitDone? && !p.BootDone? && !p.Dead?
  }

  predicate Enabled(s: State, step: Step) {
    match step
    case Start(t, p) => t !in s.procs && CanStart(p)
    case Call(t, _) => t in s.procs && Running(s.procs[t])
    case Die(t) => t in s.procs
  }

  /** One database call of a process, and what it computes up to the next one. */
  function Advance(env: Env, store: Store, p: Proc): (Store, Proc)
    requires Running(p)
  {
    match p
    case InitStart(pinned, importing, seed, nonce) =>
      (store, if !InitAllowed(pinned, importing) || MASTER_SEED_PURPOSE in store then InitDone(None, seed) else SealStart(seed, nonce))
    case SealStart(seed, nonce) =>
      var pk, blob := env.publicKey(seed), Sealed(env, MASTER_SEED_PURPOSE, nonce, seed);
      (store, if MASTER_SEED_PURPOSE in store || pk.None? || blob.None? then InitDone(None, seed) else SealInsert(seed, pk.value, blob.value))
    case SealInsert(seed, pk, blob) =>
      if MASTER_SEED_PURPOSE in store then (store, InitDone(None, seed))
      else (store[MASTER_SEED_PURPOSE := blob], InitDone(Some(pk), seed))
    case BootStart(args, nonce) =>
      (store,
       match OnSeed(env, args, Get(store, MASTER_SEED_PURPOSE))
       case Stop(boot) => BootDone(args, boot)
       case Go(pin, seed) => BootSeeded(args, nonce, pin, seed))
    case BootSeeded(args, nonce, pin, seed) =>
      (store,
       match OnPairwise(env, args, nonce, pin, seed, Get(store, PAIRWISE_HMAC_PURPOSE))
       case Finish(boot) => BootDone(args, boot)
       case Import(keys, blob) => BootInsert(args, keys, blob))
    case BootInsert(args, keys, blob) =>
      if PAIRWISE_HMAC_PURPOSE in store then (store, BootDone(args, Refused))
      else (store[PAIRWISE_HMAC_PURPOSE := blob], BootDone(args, ServiceKeys.Enabled(keys)))
  }

  function Failed(p: Proc): Proc
    requires Running(p)
  {
    if p.InitStart? || p.SealStart? || p.SealInsert? then InitDone(None, p.seed) else BootDone(p.args, Refused)
  }

  function Do(env: Env, s: State, step: Step): State
    requires Enabled(s, step)
  {
    match step
    case Start(t, p) => s.(procs := s.procs[t := p])
    case Call(t, fault) =>
      if fault then s.(procs := s.procs[t := Failed(s.procs[t])])
      else
        var (store, p) := Advance(env, s.store, s.procs[t]);
        State(store, s.procs[t := p], if p.InitDone? && p.answer.Some? then s.minted + [t] else s.minted)
    case Die(t) => s.(procs := s.procs[t := Dead])
  }

  ghost predicate IsRun(env: Env, ss: seq<State>, steps: seq<Step>) {
    && |ss| == |steps| + 1 && ss[0].procs == map[] && ss[0].minted == []
    && env.vault.aead.Ideal()
    && forall i :: 0 <= i < |steps| ==> StepAt(env, ss, steps, i)
  }

  ghost predicate StepAt(env: Env, ss: seq<State>, steps: seq<Step>, i: nat)
    requires i < |steps| < |ss|
  {
    Enabled(ss[i], steps[i]) && ss[i + 1] == Do(env, ss[i], steps[i])
  }

  // ----- the invariant

  /** Keys that match the pin of their boot and come from the stored seed. */
  ghost predicate MatchesPin(env: Env, store: Store, args: Args, keys: Keys) {
    && args.pin.Some? && keys.publicKey == Trim(args.pin.value)
    && env.publicKey(keys.seed) == Some(keys.publicKey)
    && Stores(env, store, MASTER_SEED_PURPOSE, keys.seed)
    && (args.importPairwise.Some? ==> keys.pairwise == args.importPairwise)
  }

  ghost predicate ProcInv(env: Env, s: State, t: nat)
    requires t in s.procs
  {
    match s.procs[t]
    case SealInsert(seed, pk, blob) => env.publicKey(seed) == Some(pk) && Opened(env, MASTER_SEED_PURPOSE, blob) == Some(seed)
    case InitDone(pk, seed) =>
      pk.Some? ==> s.minted == [t] && Stores(env, s.store, MASTER_SEED_PURPOSE, seed) && env.publicKey(seed) == pk
    case BootSeeded(args, _, pin, seed) =>
      args.pin.Some? && pin == Trim(args.pin.value) && Stores(env, s.store, MASTER_SEED_PURPOSE, seed)
    case BootInsert(args, keys, blob) =>
      && MatchesPin(env, s.store, args, keys) && args.importPairwise.Some?
      && Opened(env, PAIRWISE_HMAC_PURPOSE, blob) == args.importPairwise
    case BootDone(args, boot) =>
      boot.Enabled? ==>
        && MatchesPin(env, s.store, args, boot.keys)
        && (boot.keys.pairwise.Some? ==> Stores(env, s.store, PAIRWISE_HMAC_PURPOSE, boot.keys.pairwise.value))
    case _ => true
  }

  ghost predicate Inv(env: Env, initial: Store, s: State) {
    && (forall t :: t in s.procs ==> ProcInv(env, s, t))
    && |s.minted| <= 1
    && (MASTER_SEED_PURPOSE in s.store <==> MASTER_SEED_PURPOSE in initial || s.minted != [])
    && (MASTER_SEED_PURPOSE in initial ==> s.minted == [])
  }

  /** No call ever replaces or removes a stored blob. */
  lemma StoreOnlyGrows(env: Env, s: State, step: Step)
    requires Enabled(s, step)
    ensures forall p :: p in s.store ==> p in Do(env, s, step).store && Do(env, s, step).store[p] == s.store[p]
  {
  }

  lemma MovedProcInv(env: Env, initial: Store, s: State, step: Step)
    requires env.vault.aead.Ideal() && Inv(env, initial, s) && Enabled(s, step)
    ensures ProcInv(env, Do(env, s, step), step.t)
  {
    if step.Call? && !step.fault {
      match s.procs[step.t]
      case SealStart(seed, nonce) =>
        if Sealed(env, MASTER_SEED_PURPOSE, nonce, seed).Some? { SealedOpens(env, MASTER_SEED_PURPOSE, nonce, seed); }
      case BootSeeded(args, nonce, pin, seed) =>
        if args.importPairwise.Some? && Sealed(env, PAIRWISE_HMAC_PURPOSE, nonce, args.importPairwise.value).Some? {
          SealedOpens(env, PAIRWISE_HMAC_PURPOSE, nonce, args.importPairwise.value);
        }
      case _ =>
    }
  }

  lemma InvPreserved(env: Env, initial: Store, s: State, step: Step)
    requires env.vault.aead.Ideal() && Inv(env, initial, s) && Enabled(s, step)
    ensures Inv(env, initial, Do(env, s, step))
  {
    var s' := Do(env, s, step);
    StoreOnlyGrows(env, s, step);
    forall t | t in s'.procs ensures ProcInv(env, s', t) {
      if t == step.t { MovedProcInv(env, initial, s, step); }
      else { assert s'.procs[t] == s.procs[t] && ProcInv(env, s, t); }
    }
  }

  lemma {:induction false} RunInv(env: Env, ss: seq<State>, steps: seq<Step>, i: nat)
    requires IsRun(env, ss, steps) && i < |ss|
    ensures Inv(env, ss[0].store, ss[i])
  {
    if i > 0 {
      RunInv(env, ss, steps, i - 1);
      assert StepAt(env, ss, steps, i - 1);
      InvPreserved(env, ss[0].store, ss[i - 1], steps[i - 1]);
    }
  }

  // ----- what holds over whole histories

  /** Key material is never overwritten or lost, whatever init, seal and boot calls follow. */
  lemma {:induction false} WriteOnce(env: Env, ss: seq<State>, steps: seq<Step>, i: nat, j: nat, purpose: Text)
    requires IsRun(env, ss, steps) && i <= j < |ss| && purpose in ss[i].store
    ensures purpose in ss[j].store && ss[j].store[purpose] == ss[i].store[purpose]
  {
    if i < j {
      WriteOnce(env, ss, steps, i, j - 1, purpose);
      assert StepAt(env, ss, steps, j - 1);
      StoreOnlyGrows(env, ss[j - 1], steps[j - 1]);
    }
  }

  /**
   One mint: at most one init or seal call in a whole history returns a public
   key, none does if a seed was there before, and that key is derived from the
   seed that is stored from then on.
   */
  lemma OnlyTheWinnerReturnsAKey(env: Env, ss: seq<State>, steps: seq<Step>, i: nat, t: nat, u: nat)
    requires IsRun(env, ss, steps) && i < |ss| && t in ss[i].procs && u in ss[i].procs
    requires ss[i].procs[t].InitDone? && ss[i].procs[t].answer.Some?
    ensures MASTER_SEED_PURPOSE !in ss[0].store
    ensures Stores(env, ss[i].store, MASTER_SEED_PURPOSE, ss[i].procs[t].seed)
    ensures env.publicKey(ss[i].procs[t].seed) == ss[i].procs[t].answer
    ensures ss[i].procs[u].InitDone? && ss[i].procs[u].answer.Some? ==> u == t
  {
    RunInv(env, ss, steps, i);
    assert ProcInv(env, ss[i], t) && ProcInv(env, ss[i], u);
  }

  /** On a node that is pinned, or is given an import, an init call mints nothing however it is scheduled. */
  lemma {:induction false} GuardedInitNeverMints(env: Env, ss: seq<State>, steps: seq<Step>, i: nat, j: nat, t: nat)
    requires IsRun(env, ss, steps) && i <= j < |ss| && t in ss[i].procs
    requires ss[i].procs[t].InitStart? && (ss[i].procs[t].pinned || ss[i].procs[t].importing)
    ensures t in ss[j].procs
    ensures ss[j].procs[t] == ss[i].procs[t] || ss[j].procs[t].Dead? || (ss[j].procs[t].InitDone? && ss[j].procs[t].answer.None?)
  {
    if i < j {
      GuardedInitNeverMints(env, ss, steps, i, j - 1, t);
      assert StepAt(env, ss, steps, j - 1);
    }
  }

  /** A seed appears only by a winning insert, and at most one insert ever wins. */
  lemma SeedAppearsByOneInsert(env: Env, ss: seq<State>, steps: seq<Step>, i: nat)
    requires IsRun(env, ss, steps) && i < |ss|
    ensures |ss[i].minted| <= 1
    ensures MASTER_SEED_PURPOSE in ss[i].store && MASTER_SEED_PURPOSE !in ss[0].store <==> ss[i].minted != []
  {
    RunInv(env, ss, steps, i);
  }

  /**
   The key-fork guard: any two boots that ever come up on this database, at any
   two times, serve the same seed and public key, each equal to its own trimmed
   pin, and whatever pairwise secrets they hold are the same.
   */
  lemma EnabledBootsAgree(env: Env, ss: seq<State>, steps: seq<Step>, i: nat, j: nat, t: nat, u: nat)
    requires IsRun(env, ss, steps) && i <= j < |ss| && t in ss[i].procs && u in ss[j].procs
    requires ss[i].procs[t].BootDone? && ss[i].procs[t].boot.Enabled?
    requires ss[j].procs[u].BootDone? && ss[j].procs[u].boot.Enabled?
    ensures var (a, b) := (ss[i].procs[t], ss[j].procs[u]);
      && a.args.pin.Some? && b.args.pin.Some?
      && a.boot.keys.publicKey == Trim(a.args.pin.value) == Trim(b.args.pin.value) == b.boot.keys.publicKey
      && a.boot.keys.seed == b.boot.keys.seed
      && (a.boot.keys.pairwise.Some? && b.boot.keys.pairwise.Some? ==> a.boot.keys.pairwise == b.boot.keys.pairwise)
  {
    RunInv(env, ss, steps, i);
    RunInv(env, ss, steps, j);
    assert ProcInv(env, ss[i], t) && ProcInv(env, ss[j], u);
    WriteOnce(env, ss, steps, i, j, MASTER_SEED_PURPOSE);
    if ss[i].procs[t].boot.keys.pairwise.Some? { WriteOnce(env, ss, steps, i, j, PAIRWISE_HMAC_PURPOSE); }
  }

  /** A boot writes at most once, as its last call, adding only the pairwise secret, and only by coming up. */
  lemma RefusingBootWritesNothing(env: Env, ss: seq<State>, steps: seq<Step>, i: nat)
    requires IsRun(env, ss, steps) && i < |steps| && steps[i].Call? && ss[i + 1].store != ss[i].store
    ensures steps[i].t in ss[i + 1].procs
    ensures var p := ss[i + 1].procs[steps[i].t];
      && (p.BootDone? ==> p.boot.Enabled? && ss[i + 1].store.Keys == ss[i].store.Keys + {PAIRWISE_HMAC_PURPOSE})
      && (p.InitDone? ==> p.answer.Some? && ss[i + 1].store.Keys == ss[i].store.Keys + {MASTER_SEED_PURPOSE})
      && (p.BootDone? || p.InitDone?)
  {
    assert StepAt(env, ss, steps, i);
  }

  /** Still on its way, or ended the way a boot on a node with a stored secret must. */
  ghost predicate Late(s: State, t: nat, secret: Option<seq<byte>>) {
    t in s.procs && s.procs[t].BootDone? && s.procs[t].boot.Enabled? ==>
      s.procs[t].args.importPairwise.None? && s.procs[t].boot.keys.pairwise == secret
  }

  lemma LateStep(env: Env, s: State, step: Step, t: nat)
    requires Enabled(s, step) && PAIRWISE_HMAC_PURPOSE in s.store
    requires Late(s, t, Opened(env, PAIRWISE_HMAC_PURPOSE, s.store[PAIRWISE_HMAC_PURPOSE]))
    ensures Late(Do(env, s, step), t, Opened(env, PAIRWISE_HMAC_PURPOSE, s.store[PAIRWISE_HMAC_PURPOSE]))
  {
  }

  /**
   The import is one-shot: once a boot came up with an imported secret, every
   boot that is not over by then, even one about to insert a secret of its own,
   either refuses or serves the same pairwise function on every input, and one
   that tries to import refuses.
   */
  lemma {:induction false} LaterBootsServeTheImport(env: Env, ss: seq<State>, steps: seq<Step>, i: nat, j: nat, t: nat, u: nat)
    requires IsRun(env, ss, steps) && i <= j < |ss| && t in ss[i].procs
    requires ss[i].procs[t].BootDone? && ss[i].procs[t].boot.Enabled? && ss[i].procs[t].boot.keys.pairwise.Some?
    requires u in ss[i].procs ==> !ss[i].procs[u].BootDone?
    ensures Late(ss[j], u, ss[i].procs[t].boot.keys.pairwise)
    ensures u in ss[j].procs && ss[j].procs[u].BootDone? && ss[j].procs[u].boot.Enabled? ==>
              && ss[j].procs[u].args.importPairwise.None?
              && forall x :: Pairwise(env, ss[j].procs[u].boot.keys, x) == Pairwise(env, ss[i].procs[t].boot.keys, x)
  {
    RunInv(env, ss, steps, i);
    assert ProcInv(env, ss[i], t);
    if i < j {
      LaterBootsServeTheImport(env, ss, steps, i, j - 1, t, u);
      WriteOnce(env, ss, steps, i, j - 1, PAIRWISE_HMAC_PURPOSE);
      assert StepAt(env, ss, steps, j - 1);
      LateStep(env, ss[j - 1], steps[j - 1], u);
    }
  }
}
