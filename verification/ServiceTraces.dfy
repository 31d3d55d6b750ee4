/**
 How init, seal and boot calls end, told by what their own database calls saw
 (src/dedup.rs): for every interleaving with other processes, the exact
 condition under which a process mints, comes up, stays off or refuses.
 */
module ServiceTraces {
  import opened Bytes
  import opened Wrappers
  import opened ServiceKeys
  import opened KeyLifecycle

  /** Between `i` and `j` process `t` is neither killed nor hit by a database failure. */
  ghost predicate Undisturbed(steps: seq<Step>, i: nat, j: nat, t: nat)
    requires j <= |steps|
  {
    forall k :: i <= k < j ==> steps[k].t == t ==> steps[k] == Call(t, false)
  }

  /** The tables that the calls of process `t` found, in order. */
  function Seen(ss: seq<State>, steps: seq<Step>, i: nat, j: nat, t: nat): seq<Store>
    requires i <= j <= |steps| < |ss|
  {
    if i == j then [] else Seen(ss, steps, i, j - 1, t) + if steps[j - 1].t == t then [ss[j - 1].store] else []
  }

  /** None of them held a master seed. */
  ghost predicate NoSeedIn(seen: seq<Store>) {
    forall k :: 0 <= k < |seen| ==> MASTER_SEED_PURPOSE !in seen[k]
  }

  lemma OtherProcess(env: Env, s: State, step: Step, t: nat)
    requires KeyLifecycle.Enabled(s, step) && step.t != t
    ensures (t in Do(env, s, step).procs <==> t in s.procs) && (t in s.procs ==> Do(env, s, step).procs[t] == s.procs[t])
  {
  }

  lemma OwnCall(env: Env, s: State, step: Step, t: nat)
    requires KeyLifecycle.Enabled(s, step) && step == Call(t, false)
    ensures t in s.procs && Running(s.procs[t]) && t in Do(env, s, step).procs
    ensures Do(env, s, step).procs[t] == Advance(env, s.store, s.procs[t]).1
    ensures Do(env, s, step).store == Advance(env, s.store, s.procs[t]).0
  {
  }

  /** A failing call changes nothing and ends its process empty-handed: no key, no service. */
  lemma FailingCallRefuses(env: Env, ss: seq<State>, steps: seq<Step>, i: nat, t: nat)
    requires IsRun(env, ss, steps) && i < |steps| && steps[i] == Call(t, true)
    ensures ss[i + 1].store == ss[i].store && t in ss[i + 1].procs
    ensures var p := ss[i + 1].procs[t]; if p.InitDone? then p.answer == None else p.BootDone? && p.boot == Refused
  {
    assert StepAt(env, ss, steps, i);
  }

  // ----- minting

  /** What minting needs besides an empty store: a derivable key and a seed that can be sealed. */
  ghost predicate Mintable(env: Env, nonce: seq<byte>, seed: seq<byte>) {
    env.publicKey(seed).Some? && Sealable(env, MASTER_SEED_PURPOSE, nonce, seed)
  }

  /** Where a mint is after some calls; init looks once more than seal does. */
  ghost predicate MintAt(env: Env, start: Proc, seen: seq<Store>, p: Proc)
    requires start.InitStart? || start.SealStart?
  {
    var allowed := start.InitStart? ==> !start.pinned && !start.importing;
    var calls := |seen| + if start.InitStart? then 0 else 1;
    if seen == [] then p == start
    else if calls == 1 && allowed && NoSeedIn(seen) then p == SealStart(start.seed, start.nonce)
    else if calls == 2 && allowed && NoSeedIn(seen) && Mintable(env, start.nonce, start.seed) then
      && p.SealInsert? && p.seed == start.seed && Some(p.pk) == env.publicKey(start.seed)
      && Sealed(env, MASTER_SEED_PURPOSE, start.nonce, start.seed) == Some(p.blob)
    else if calls == 3 && allowed && NoSeedIn(seen) && Mintable(env, start.nonce, start.seed) then
      p == InitDone(env.publicKey(start.seed), start.seed)
    else calls <= 3 && p == InitDone(None, start.seed)
  }

  lemma MintStep(env: Env, start: Proc, seen: seq<Store>, p: Proc, store: Store)
    requires start.InitStart? || start.SealStart?
    requires MintAt(env, start, seen, p) && Running(p)
    ensures MintAt(env, start, seen + [store], Advance(env, store, p).1)
  {
    SealableIsSealed(env, MASTER_SEED_PURPOSE, start.nonce, start.seed);
    assert NoSeedIn(seen + [store]) <==> NoSeedIn(seen) && MASTER_SEED_PURPOSE !in store by {
      assert (seen + [store])[|seen|] == store;
      assert forall k :: 0 <= k < |seen| ==> (seen + [store])[k] == seen[k];
    }
  }

  lemma {:induction false} MintTrace(env: Env, ss: seq<State>, steps: seq<Step>, i: nat, j: nat, t: nat)
    requires IsRun(env, ss, steps) && i <= j < |ss| && t in ss[i].procs && (ss[i].procs[t].InitStart? || ss[i].procs[t].SealStart?)
    requires Undisturbed(steps, i, j, t)
    ensures t in ss[j].procs && MintAt(env, ss[i].procs[t], Seen(ss, steps, i, j, t), ss[j].procs[t])
  {
    if i < j {
      MintTrace(env, ss, steps, i, j - 1, t);
      assert StepAt(env, ss, steps, j - 1);
      if steps[j - 1].t == t {
        OwnCall(env, ss[j - 1], steps[j - 1], t);
        MintStep(env, ss[i].procs[t], Seen(ss, steps, i, j - 1, t), ss[j - 1].procs[t], ss[j - 1].store);
      } else {
        OtherProcess(env, ss[j - 1], steps[j - 1], t);
        assert Seen(ss, steps, i, j, t) == Seen(ss, steps, i, j - 1, t);
      }
    }
  }

  /**
   An undisturbed init or seal call returns a public key if and only if it has
   made all its database calls, is allowed on this node, found no seed at any of
   them, and its seed can be derived from and sealed; the seed is stored then.
   It is still under way only while all of that held so far.
   */
  lemma MintOutcome(env: Env, ss: seq<State>, steps: seq<Step>, i: nat, j: nat, t: nat)
    requires IsRun(env, ss, steps) && i <= j < |ss| && t in ss[i].procs && (ss[i].procs[t].InitStart? || ss[i].procs[t].SealStart?)
    requires Undisturbed(steps, i, j, t)
    ensures var start, seen := ss[i].procs[t], Seen(ss, steps, i, j, t);
      var allowed := start.InitStart? ==> !start.pinned && !start.importing;
      var all := if start.InitStart? then 3 else 2;
      && t in ss[j].procs && |seen| <= all
      && (ss[j].procs[t].InitDone? && ss[j].procs[t].answer.Some? <==>
           |seen| == all && allowed && NoSeedIn(seen) && Mintable(env, start.nonce, start.seed))
      && (Running(ss[j].procs[t]) ==>
           |seen| < all && (seen == [] || (allowed && NoSeedIn(seen))) && (|seen| == all - 1 ==> Mintable(env, start.nonce, start.seed)))
      && (ss[j].procs[t].InitDone? && ss[j].procs[t].answer.Some? ==>
           ss[j].procs[t].answer == env.publicKey(start.seed) && Stores(env, ss[j].store, MASTER_SEED_PURPOSE, start.seed))
  {
    MintTrace(env, ss, steps, i, j, t);
    RunInv(env, ss, steps, j);
    assert ProcInv(env, ss[j], t);
  }

  // ----- booting

  /** The stored seed opens, and the node is configured to serve it. */
  ghost predicate SeedServes(env: Env, args: Args, store: Store) {
    && args.clientsConfigured && args.pin.Some? && MASTER_SEED_PURPOSE in store
    && var seed := Opened(env, MASTER_SEED_PURPOSE, store[MASTER_SEED_PURPOSE]);
    seed.Some? && |seed.value| == MASTER_SEED_LEN
  }

  /** It derives the pinned key. */
  ghost predicate PinMatches(env: Env, args: Args, store: Store)
    requires SeedServes(env, args, store)
  {
    env.publicKey(Opened(env, MASTER_SEED_PURPOSE, store[MASTER_SEED_PURPOSE]).value) == Some(Trim(args.pin.value))
  }

  /** An import finds the place free and can be sealed; without one, a stored secret opens. */
  ghost predicate PairwiseServes(env: Env, args: Args, nonce: seq<byte>, store: Store) {
    if args.importPairwise.Some? then
      PAIRWISE_HMAC_PURPOSE !in store && Sealable(env, PAIRWISE_HMAC_PURPOSE, nonce, args.importPairwise.value)
    else PAIRWISE_HMAC_PURPOSE in store ==> Opened(env, PAIRWISE_HMAC_PURPOSE, store[PAIRWISE_HMAC_PURPOSE]).Some?
  }

  /** The keys a boot that found these tables serves with. */
  ghost predicate ServesWith(env: Env, args: Args, seen: seq<Store>, keys: Keys)
    requires |seen| >= 2 && SeedServes(env, args, seen[0])
  {
    && Opened(env, MASTER_SEED_PURPOSE, seen[0][MASTER_SEED_PURPOSE]) == Some(keys.seed) && keys.publicKey == Trim(args.pin.value)
    && keys.pairwise ==
       if args.importPairwise.Some? then args.importPairwise
       else if PAIRWISE_HMAC_PURPOSE in seen[1] then Opened(env, PAIRWISE_HMAC_PURPOSE, seen[1][PAIRWISE_HMAC_PURPOSE]) else None
  }

  ghost predicate StaysOff(args: Args, store: Store) {
    MASTER_SEED_PURPOSE !in store && !args.clientsConfigured && args.pin.None? && args.importPairwise.None?
  }

  /** Both lookups were passed. */
  ghost predicate LookupsPass(env: Env, args: Args, nonce: seq<byte>, seen: seq<Store>) {
    |seen| >= 2 && SeedServes(env, args, seen[0]) && PinMatches(env, args, seen[0]) && PairwiseServes(env, args, nonce, seen[1])
  }

  /** A boot goes on to its next call only if what it saw so far passed. */
  ghost predicate GoesOn(env: Env, args: Args, nonce: seq<byte>, seen: seq<Store>) {
    && |seen| <= 3 && (|seen| >= 2 ==> SeedServes(env, args, seen[0]))
    && (|seen| == 3 ==> LookupsPass(env, args, nonce, seen) && args.importPairwise.Some?)
  }

  /** Where a boot is after some calls. */
  ghost predicate BootAt(env: Env, args: Args, nonce: seq<byte>, seen: seq<Store>, p: Proc) {
    GoesOn(env, args, nonce, seen) &&
    if seen == [] then p == BootStart(args, nonce)
    else if |seen| == 1 && SeedServes(env, args, seen[0]) then
      p == BootSeeded(args, nonce, Trim(args.pin.value), Opened(env, MASTER_SEED_PURPOSE, seen[0][MASTER_SEED_PURPOSE]).value)
    else if |seen| == 2 && LookupsPass(env, args, nonce, seen) && args.importPairwise.Some? then
      && p.BootInsert? && p.args == args && ServesWith(env, args, seen, p.keys)
      && Sealed(env, PAIRWISE_HMAC_PURPOSE, nonce, args.importPairwise.value) == Some(p.blob)
    else if |seen| == 2 && LookupsPass(env, args, nonce, seen) then
      p.BootDone? && p.args == args && p.boot.Enabled? && ServesWith(env, args, seen, p.boot.keys)
    else if |seen| == 3 && LookupsPass(env, args, nonce, seen) && args.importPairwise.Some? && PAIRWISE_HMAC_PURPOSE !in seen[2] then
      p.BootDone? && p.args == args && p.boot.Enabled? && ServesWith(env, args, seen, p.boot.keys)
    else p == BootDone(args, if StaysOff(args, seen[0]) then Disabled else Refused)
  }

  lemma BootStep(env: Env, args: Args, nonce: seq<byte>, seen: seq<Store>, p: Proc, store: Store)
    requires BootAt(env, args, nonce, seen, p) && Running(p)
    ensures BootAt(env, args, nonce, seen + [store], Advance(env, store, p).1)
  {
    if args.importPairwise.Some? { SealableIsSealed(env, PAIRWISE_HMAC_PURPOSE, nonce, args.importPairwise.value); }
    var after := seen + [store];
    assert after[|seen|] == store;
    if |seen| >= 1 { assert after[0] == seen[0]; }
    if |seen| >= 2 { assert after[1] == seen[1]; }
  }

  lemma {:induction false} BootTrace(env: Env, ss: seq<State>, steps: seq<Step>, i: nat, j: nat, t: nat)
    requires IsRun(env, ss, steps) && i <= j < |ss| && t in ss[i].procs && ss[i].procs[t].BootStart?
    requires Undisturbed(steps, i, j, t)
    ensures t in ss[j].procs && BootAt(env, ss[i].procs[t].args, ss[i].procs[t].nonce, Seen(ss, steps, i, j, t), ss[j].procs[t])
  {
    if i < j {
      BootTrace(env, ss, steps, i, j - 1, t);
      assert StepAt(env, ss, steps, j - 1);
      if steps[j - 1].t == t {
        OwnCall(env, ss[j - 1], steps[j - 1], t);
        BootStep(env, ss[i].procs[t].args, ss[i].procs[t].nonce, Seen(ss, steps, i, j - 1, t), ss[j - 1].procs[t], ss[j - 1].store);
      } else {
        OtherProcess(env, ss[j - 1], steps[j - 1], t);
        assert Seen(ss, steps, i, j, t) == Seen(ss, steps, i, j - 1, t);
      }
    }
  }

  /**
   An undisturbed boot comes up if and only if its two lookups passed and, when
   it imports, its insert found the place still free; it stays off exactly on an
   unconfigured node without keys; it is under way only while what it saw so far
   passed. Everything else is a refusal.
   */
  lemma BootOutcome(env: Env, ss: seq<State>, steps: seq<Step>, i: nat, j: nat, t: nat)
    requires IsRun(env, ss, steps) && i <= j < |ss| && t in ss[i].procs && ss[i].procs[t].BootStart?
    requires Undisturbed(steps, i, j, t)
    ensures var args, nonce, seen := ss[i].procs[t].args, ss[i].procs[t].nonce, Seen(ss, steps, i, j, t);
      && t in ss[j].procs && |seen| <= 3
      && (ss[j].procs[t].BootDone? && ss[j].procs[t].boot.Enabled? <==>
           LookupsPass(env, args, nonce, seen) && (args.importPairwise.Some? ==> |seen| == 3 && PAIRWISE_HMAC_PURPOSE !in seen[2]))
      && (ss[j].procs[t].BootDone? && ss[j].procs[t].boot.Enabled? ==> ServesWith(env, args, seen, ss[j].procs[t].boot.keys))
      && (ss[j].procs[t].BootDone? && ss[j].procs[t].boot.Disabled? <==> |seen| >= 1 && StaysOff(args, seen[0]))
      && (Running(ss[j].procs[t]) <==>
           || seen == [] || (|seen| == 1 && SeedServes(env, args, seen[0]))
           || (|seen| == 2 && LookupsPass(env, args, nonce, seen) && args.importPairwise.Some?))
  {
    BootTrace(env, ss, steps, i, j, t);
    BootMeans(env, ss[i].procs[t].args, ss[i].procs[t].nonce, Seen(ss, steps, i, j, t), ss[j].procs[t]);
  }

  lemma BootMeans(env: Env, args: Args, nonce: seq<byte>, seen: seq<Store>, p: Proc)
    requires BootAt(env, args, nonce, seen, p)
    ensures |seen| <= 3
    ensures p.BootDone? && p.boot.Enabled? <==>
      LookupsPass(env, args, nonce, seen) && (args.importPairwise.Some? ==> |seen| == 3 && PAIRWISE_HMAC_PURPOSE !in seen[2])
    ensures p.BootDone? && p.boot.Enabled? ==> ServesWith(env, args, seen, p.boot.keys)
    ensures p.BootDone? && p.boot.Disabled? <==> |seen| >= 1 && StaysOff(args, seen[0])
    ensures Running(p) <==>
      || seen == [] || (|seen| == 1 && SeedServes(env, args, seen[0]))
      || (|seen| == 2 && LookupsPass(env, args, nonce, seen) && args.importPairwise.Some?)
  {
  }
}
