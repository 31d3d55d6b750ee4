/**
 The in-memory sliding-window limiter of the key and PRF endpoints
 (src/ratelimit.rs, `KeyRateLimiter`), against a reference limiter that never
 forgets. Instants are naturals counted from the earliest representable one.
 */
module KeyRateLimit {
  import opened Bytes
  import opened Wrappers

  datatype Ceilings = Ceilings(identityMax: u32, globalMax: u32, window: nat)
  datatype Decision = Allow | DenyIdentity | DenyGlobal
  datatype Log = Log(perIdentity: map<Text, seq<nat>>, global: seq<nat>)

  const EMPTY_LOG := Log(map[], [])

  /** The stamps later than `x`, in order. */
  function Retain(times: seq<nat>, x: int): seq<nat> {
    if times == [] then []
    else
      var n := |times| - 1;
      Retain(times[..n], x) + if times[n] > x then [times[n]] else []
  }

  /** `now.checked_sub(window)`. */
  function Cutoff(c: Ceilings, now: nat): Option<nat> {
    if now >= c.window then Some(now - c.window) else None
  }

  function Prune(times: seq<nat>, cutoff: Option<nat>): seq<nat> {
    if cutoff.Some? then Retain(times, cutoff.value) else times
  }

  function Bucket(log: Log, identity: Text): seq<nat> {
    if identity in log.perIdentity then log.perIdentity[identity] else []
  }

  /** What one `check_at` does to the logs, and what it answers. */
  function Check(c: Ceilings, log: Log, identity: Text, now: nat): (Log, Decision) {
    var global := Prune(log.global, Cutoff(c, now));
    if |global| >= c.globalMax then (log.(global := global), DenyGlobal)
    else
      var bucket := Prune(Bucket(log, identity), Cutoff(c, now));
      if |bucket| >= c.identityMax then (Log(log.perIdentity[identity := bucket], global), DenyIdentity)
      else (Log(log.perIdentity[identity := bucket + [now]], global + [now]), Allow)
  }

  class KeyRateLimiter {
    const ceilings: Ceilings
    var perIdentity: map<Text, seq<nat>>
    var global: seq<nat>

    function Value(): Log
      reads this
    {
      Log(perIdentity, global)
    }

    constructor (ceilings: Ceilings)
      ensures this.ceilings == ceilings && Value() == EMPTY_LOG
    {
      this.ceilings := ceilings;
      perIdentity, global := map[], [];
    }

    /** Map entries are only ever added: an emptied bucket keeps its key. */
    method CheckAt(identity: Text, now: nat) returns (d: Decision)
      modifies this
      ensures (Value(), d) == Check(ceilings, old(Value()), identity, now)
      ensures old(perIdentity).Keys <= perIdentity.Keys
      ensures forall other :: other != identity ==> Bucket(Value(), other) == Bucket(old(Value()), other)
    {
      var cutoff := Cutoff(ceilings, now);
      global := Prune(global, cutoff);
      if |global| >= ceilings.globalMax { return DenyGlobal; }
      if identity !in perIdentity { perIdentity := perIdentity[identity := []]; }
      perIdentity := perIdentity[identity := Prune(perIdentity[identity], cutoff)];
      if |perIdentity[identity]| >= ceilings.identityMax {
        assert perIdentity == old(perIdentity)[identity := perIdentity[identity]];
        return DenyIdentity;
      }
      perIdentity := perIdentity[identity := perIdentity[identity] + [now]];
      global := global + [now];
      assert perIdentity == old(perIdentity)[identity := perIdentity[identity]];
      return Allow;
    }
  }

  // ----- the reference limiter: a full history of grants

  datatype Request = Request(identity: Text, at: nat)
  datatype Scope = Everyone | Identity(id: Text)

  predicate InScope(scope: Scope, r: Request) {
    scope.Everyone? || r.identity == scope.id
  }

  function Max(c: Ceilings, scope: Scope): u32 {
    if scope.Everyone? then c.globalMax else c.identityMax
  }

  /** How many requests in `h` fall in the half-open window (lo, hi]. */
  function CountIn(h: seq<Request>, scope: Scope, lo: int, hi: int): nat {
    if h == [] then 0
    else
      var n := |h| - 1;
      CountIn(h[..n], scope, lo, hi) + if InScope(scope, h[n]) && lo < h[n].at <= hi then 1 else 0
  }

  /** How many requests in `h` come after `lo`. */
  function CountAfter(h: seq<Request>, scope: Scope, lo: int): nat {
    if h == [] then 0
    else
      var n := |h| - 1;
      CountAfter(h[..n], scope, lo) + if InScope(scope, h[n]) && h[n].at > lo then 1 else 0
  }

  /** Decide from the whole history: each ceiling against the grants of the last window. */
  function Decide(c: Ceilings, granted: seq<Request>, r: Request): Decision {
    if CountAfter(granted, Everyone, r.at - c.window) >= c.globalMax then DenyGlobal
    else if CountAfter(granted, Identity(r.identity), r.at - c.window) >= c.identityMax then DenyIdentity
    else Allow
  }

  /** The pruned limiter over a request sequence, with the grants it made. */
  function Serve(c: Ceilings, reqs: seq<Request>): (Log, seq<Request>) {
    if reqs == [] then (EMPTY_LOG, [])
    else
      var r := reqs[|reqs| - 1];
      var (log, granted) := Serve(c, reqs[..|reqs| - 1]);
      var (log', d) := Check(c, log, r.identity, r.at);
      (log', if d.Allow? then granted + [r] else granted)
  }

  /** The grants the reference limiter makes on the same sequence. */
  function Reference(c: Ceilings, reqs: seq<Request>): seq<Request> {
    if reqs == [] then []
    else
      var r := reqs[|reqs| - 1];
      var granted := Reference(c, reqs[..|reqs| - 1]);
      if Decide(c, granted, r).Allow? then granted + [r] else granted
  }

  function Latest(reqs: seq<Request>): nat {
    if reqs == [] then 0
    else
      var before, at := Latest(reqs[..|reqs| - 1]), reqs[|reqs| - 1].at;
      if at > before then at else before
  }

  ghost predicate NonDecreasing(reqs: seq<Request>) {
    forall i, j :: 0 <= i < j < |reqs| ==> reqs[i].at <= reqs[j].at
  }

  function Times(h: seq<Request>, scope: Scope): seq<nat> {
    if h == [] then []
    else
      var n := |h| - 1;
      Times(h[..n], scope) + if InScope(scope, h[n]) then [h[n].at] else []
  }

  // ----- filtering facts

  lemma RetainSnoc(s: seq<nat>, t: nat, x: int)
    ensures Retain(s + [t], x) == Retain(s, x) + if t > x then [t] else []
  {
    assert (s + [t])[..|s|] == s;
  }

  lemma {:induction false} RetainTwice(s: seq<nat>, x: int, y: int)
    requires x <= y
    ensures Retain(Retain(s, x), y) == Retain(s, y)
  {
    if s != [] {
      var n := |s| - 1;
      RetainTwice(s[..n], x, y);
      if s[n] > x { RetainSnoc(Retain(s[..n], x), s[n], y); }
      else { assert Retain(s, x) == Retain(s[..n], x); }
    }
  }

  lemma {:induction false} RetainAll(s: seq<nat>, x: int)
    requires x < 0
    ensures Retain(s, x) == s
  {
    if s != [] { RetainAll(s[..|s| - 1], x); }
  }

  lemma PruneIsRetain(c: Ceilings, s: seq<nat>, now: nat)
    ensures Prune(s, Cutoff(c, now)) == Retain(s, now - c.window)
  {
    if now < c.window { RetainAll(s, now - c.window); }
  }

  lemma {:induction false} RetainCounts(h: seq<Request>, scope: Scope, x: int)
    ensures |Retain(Times(h, scope), x)| == CountAfter(h, scope, x)
  {
    if h != [] {
      var n := |h| - 1;
      RetainCounts(h[..n], scope, x);
      if InScope(scope, h[n]) { RetainSnoc(Times(h[..n], scope), h[n].at, x); }
      else { assert Times(h, scope) == Times(h[..n], scope); }
    }
  }

  // ----- the pruned logs agree with the history beyond the latest cutoff

  function LogOf(log: Log, scope: Scope): seq<nat> {
    if scope.Everyone? then log.global else Bucket(log, scope.id)
  }

  ghost predicate AgreesAt(log: Log, granted: seq<Request>, scope: Scope, x: int) {
    Retain(LogOf(log, scope), x) == Retain(Times(granted, scope), x)
  }

  /** How a check moves one log: a grant in scope appends to the pruned log, anything else at most prunes. */
  ghost predicate Moved(c: Ceilings, r: Request, scope: Scope, allow: bool, l: seq<nat>, l': seq<nat>) {
    var pruned := Retain(l, r.at - c.window);
    if allow && InScope(scope, r) then l' == pruned + [r.at] && |pruned| < Max(c, scope)
    else l' == l || l' == pruned
  }

  lemma CheckMoves(c: Ceilings, log: Log, r: Request, scope: Scope)
    ensures Moved(c, r, scope, Check(c, log, r.identity, r.at).1.Allow?,
                  LogOf(log, scope), LogOf(Check(c, log, r.identity, r.at).0, scope))
  {
    PruneIsRetain(c, log.global, r.at);
    PruneIsRetain(c, Bucket(log, r.identity), r.at);
  }

  lemma TimesSnoc(h: seq<Request>, r: Request, scope: Scope)
    ensures Times(h + [r], scope) == if InScope(scope, r) then Times(h, scope) + [r.at] else Times(h, scope)
  {
    assert (h + [r])[..|h|] == h;
  }

  /** Two stamp lists that agree after `x` still do once one is pruned at or before `x` and both are appended to. */
  lemma AppendAgrees(l: seq<nat>, full: seq<nat>, cutoff: int, at: nat, x: int)
    requires cutoff <= x && Retain(l, x) == Retain(full, x)
    ensures Retain(Retain(l, cutoff) + [at], x) == Retain(full + [at], x)
  {
    RetainTwice(l, cutoff, x);
    RetainSnoc(Retain(l, cutoff), at, x);
    RetainSnoc(full, at, x);
  }

  lemma MoveAgrees(c: Ceilings, r: Request, scope: Scope, allow: bool, l: seq<nat>, l': seq<nat>, full: seq<nat>, x: int)
    requires Moved(c, r, scope, allow, l, l') && x >= r.at - c.window
    requires Retain(l, x) == Retain(full, x)
    ensures Retain(l', x) == Retain(if allow && InScope(scope, r) then full + [r.at] else full, x)
  {
    if allow && InScope(scope, r) {
      AppendAgrees(l, full, r.at - c.window, r.at, x);
    } else if l' != l {
      RetainTwice(l, r.at - c.window, x);
    }
  }

  lemma ServeSnoc(c: Ceilings, before: seq<Request>, r: Request)
    ensures var (log, granted) := Serve(c, before); var (log', d) := Check(c, log, r.identity, r.at);
      Serve(c, before + [r]) == (log', if d.Allow? then granted + [r] else granted)
  {
    assert (before + [r])[..|before|] == before;
  }

  /** One request of a run moves every log, and records exactly the grants. */
  lemma ServeMoves(c: Ceilings, reqs: seq<Request>, scope: Scope) returns (allow: bool)
    requires reqs != []
    ensures var before, r := reqs[..|reqs| - 1], reqs[|reqs| - 1];
      && Moved(c, r, scope, allow, LogOf(Serve(c, before).0, scope), LogOf(Serve(c, reqs).0, scope))
      && Serve(c, reqs).1 == if allow then Serve(c, before).1 + [r] else Serve(c, before).1
  {
    var before, r := reqs[..|reqs| - 1], reqs[|reqs| - 1];
    CheckMoves(c, Serve(c, before).0, r, scope);
    allow := Check(c, Serve(c, before).0, r.identity, r.at).1.Allow?;
  }

  lemma {:induction false} LogsAgree(c: Ceilings, reqs: seq<Request>, scope: Scope, x: int)
    requires x >= Latest(reqs) - c.window
    ensures AgreesAt(Serve(c, reqs).0, Serve(c, reqs).1, scope, x)
  {
    if reqs != [] {
      var before, r := reqs[..|reqs| - 1], reqs[|reqs| - 1];
      LogsAgree(c, before, scope, x);
      var allow := ServeMoves(c, reqs, scope);
      var full := Times(Serve(c, before).1, scope);
      MoveAgrees(c, r, scope, allow, LogOf(Serve(c, before).0, scope), LogOf(Serve(c, reqs).0, scope), full, x);
      TimesSnoc(Serve(c, before).1, r, scope);
    }
  }

  lemma MoveBounded(c: Ceilings, r: Request, scope: Scope, allow: bool, l: seq<nat>, l': seq<nat>)
    requires Moved(c, r, scope, allow, l, l') && |l| <= Max(c, scope)
    ensures |l'| <= Max(c, scope)
  {
    RetainNoLonger(l, r.at - c.window);
  }

  lemma {:induction false} LogsBounded(c: Ceilings, reqs: seq<Request>, scope: Scope)
    ensures |LogOf(Serve(c, reqs).0, scope)| <= Max(c, scope)
  {
    if reqs != [] {
      var before, r := reqs[..|reqs| - 1], reqs[|reqs| - 1];
      LogsBounded(c, before, scope);
      var allow := ServeMoves(c, reqs, scope);
      MoveBounded(c, r, scope, allow, LogOf(Serve(c, before).0, scope), LogOf(Serve(c, reqs).0, scope));
    }
  }

  /**
   Arrival in any order: from the latest time seen minus the window on, every
   log holds exactly the grants, in grant order, and never more stamps than its
   ceiling.
   */
  lemma LogsKeepTheWindow(c: Ceilings, reqs: seq<Request>, scope: Scope, x: int)
    requires x >= Latest(reqs) - c.window
    ensures var (log, granted) := Serve(c, reqs);
      && Retain(LogOf(log, scope), x) == Retain(Times(granted, scope), x)
      && CountAfter(granted, scope, x) <= |LogOf(log, scope)| <= Max(c, scope)
  {
    LogsAgree(c, reqs, scope, x);
    LogsBounded(c, reqs, scope);
    AgreeingCounts(Serve(c, reqs).0, Serve(c, reqs).1, scope, x);
  }

  lemma AgreeingCounts(log: Log, granted: seq<Request>, scope: Scope, x: int)
    requires AgreesAt(log, granted, scope, x)
    ensures CountAfter(granted, scope, x) <= |LogOf(log, scope)|
  {
    RetainCounts(granted, scope, x);
    RetainNoLonger(LogOf(log, scope), x);
  }

  lemma {:induction false} RetainNoLonger(s: seq<nat>, x: int)
    ensures |Retain(s, x)| <= |s|
  {
    if s != [] { RetainNoLonger(s[..|s| - 1], x); }
  }

  // ----- the logs against each other

  /** After `x`, the global log and every bucket are the projections of one tagged history. */
  ghost predicate Interleaves(log: Log, tagged: seq<Request>, x: int) {
    forall scope :: AgreesAt(log, tagged, scope, x)
  }

  lemma LogsInterleave(c: Ceilings, reqs: seq<Request>, x: int)
    requires x >= Latest(reqs) - c.window
    ensures Interleaves(Serve(c, reqs).0, Serve(c, reqs).1, x)
  {
    forall scope ensures AgreesAt(Serve(c, reqs).0, Serve(c, reqs).1, scope, x) {
      LogsAgree(c, reqs, scope, x);
    }
  }

  ghost function Pick(ids: set<Text>): (id: Text)
    requires ids != {}
    ensures id in ids
  {
    var id :| id in ids; id
  }

  /** The multiset sum, over `ids`, of the stamps later than `x` in their buckets. */
  ghost function Pooled(buckets: map<Text, seq<nat>>, ids: set<Text>, x: int): multiset<nat>
    requires ids <= buckets.Keys
  {
    if ids == {} then multiset{}
    else Pooled(buckets, ids - {Pick(ids)}, x) + multiset(Retain(buckets[Pick(ids)], x))
  }

  /** Any bucket can be taken out of the sum first. */
  lemma {:induction false} PooledSplit(buckets: map<Text, seq<nat>>, ids: set<Text>, id: Text, x: int)
    requires ids <= buckets.Keys && id in ids
    ensures Pooled(buckets, ids, x) == Pooled(buckets, ids - {id}, x) + multiset(Retain(buckets[id], x))
  {
    var first := Pick(ids);
    if id != first {
      PooledSplit(buckets, ids - {first}, id, x);
      PooledSplit(buckets, ids - {id}, first, x);
      assert ids - {first} - {id} == ids - {id} - {first};
    }
  }

  lemma {:induction false} PooledCongruent(a: map<Text, seq<nat>>, b: map<Text, seq<nat>>, ids: set<Text>, x: int)
    requires ids <= a.Keys && ids <= b.Keys
    requires forall id :: id in ids ==> Retain(a[id], x) == Retain(b[id], x)
    ensures Pooled(a, ids, x) == Pooled(b, ids, x)
  {
    if ids != {} { PooledCongruent(a, b, ids - {Pick(ids)}, x); }
  }

  function ByIdentity(h: seq<Request>, ids: set<Text>): map<Text, seq<nat>> {
    map id | id in ids :: Times(h, Identity(id))
  }

  ghost predicate Covers(ids: set<Text>, h: seq<Request>) {
    forall i :: 0 <= i < |h| ==> h[i].identity in ids
  }

  lemma {:induction false} NothingPooled(ids: set<Text>, pool: set<Text>, x: int)
    requires pool <= ids
    ensures Pooled(ByIdentity([], ids), pool, x) == multiset{}
  {
    if pool != {} { NothingPooled(ids, pool - {Pick(pool)}, x); }
  }

  /** One more request of a tagged history adds its stamp to the pool, as it does to the whole. */
  lemma PoolSnoc(h: seq<Request>, r: Request, ids: set<Text>, x: int)
    requires r.identity in ids
    ensures Pooled(ByIdentity(h + [r], ids), ids, x) ==
            Pooled(ByIdentity(h, ids), ids, x) + if r.at > x then multiset{r.at} else multiset{}
  {
    var a, b, id := ByIdentity(h, ids), ByIdentity(h + [r], ids), r.identity;
    PooledSplit(a, ids, id, x);
    PooledSplit(b, ids, id, x);
    forall other | other in ids - {id} ensures b[other] == a[other] { TimesSnoc(h, r, Identity(other)); }
    PooledCongruent(a, b, ids - {id}, x);
    TimesSnoc(h, r, Identity(id));
    RetainSnoc(Times(h, Identity(id)), r.at, x);
  }

  lemma {:induction false} HistoryPools(h: seq<Request>, ids: set<Text>, x: int)
    requires Covers(ids, h)
    ensures multiset(Retain(Times(h, Everyone), x)) == Pooled(ByIdentity(h, ids), ids, x)
  {
    if h == [] {
      NothingPooled(ids, ids, x);
    } else {
      var before, r := h[..|h| - 1], h[|h| - 1];
      assert h == before + [r];
      HistoryPools(before, ids, x);
      PoolSnoc(before, r, ids, x);
      TimesSnoc(before, r, Everyone);
      RetainSnoc(Times(before, Everyone), r.at, x);
    }
  }

  lemma {:induction false} GrantsHaveBuckets(c: Ceilings, reqs: seq<Request>)
    ensures Covers(Serve(c, reqs).0.perIdentity.Keys, Serve(c, reqs).1)
  {
    if reqs != [] { GrantsHaveBuckets(c, reqs[..|reqs| - 1]); }
  }

  /**
   In any arrival order: past the latest cutoff the global log is, as a
   multiset, the union of all identity buckets.
   */
  lemma GlobalLogIsTheUnion(c: Ceilings, reqs: seq<Request>, x: int)
    requires x >= Latest(reqs) - c.window
    ensures var log := Serve(c, reqs).0;
      multiset(Retain(log.global, x)) == Pooled(log.perIdentity, log.perIdentity.Keys, x)
  {
    var (log, granted) := Serve(c, reqs);
    var ids := log.perIdentity.Keys;
    LogsInterleave(c, reqs, x);
    assert AgreesAt(log, granted, Everyone, x);
    GrantsHaveBuckets(c, reqs);
    HistoryPools(granted, ids, x);
    forall id | id in ids ensures Retain(log.perIdentity[id], x) == Retain(ByIdentity(granted, ids)[id], x) {
      assert AgreesAt(log, granted, Identity(id), x);
    }
    PooledCongruent(log.perIdentity, ByIdentity(granted, ids), ids, x);
  }

  /**
   Whenever the last request is the latest one, as it always is on arrival in
   order, and the window is at least one tick, the whole global log is that union.
   */
  lemma InOrderGlobalLog(c: Ceilings, reqs: seq<Request>, log: Log, x: int)
    requires c.window >= 1 && (reqs == [] || reqs[|reqs| - 1].at == Latest(reqs))
    requires log == Serve(c, reqs).0 && x == Latest(reqs) - c.window
    ensures multiset(log.global) == Pooled(log.perIdentity, log.perIdentity.Keys, x)
  {
    GlobalLogIsTheUnion(c, reqs, x);
    GlobalIsLive(c, reqs, x);
    assert Retain(log.global, x) == log.global;
  }

  lemma GlobalIsLive(c: Ceilings, reqs: seq<Request>, x: int)
    requires c.window >= 1 && (reqs == [] || x == reqs[|reqs| - 1].at - c.window)
    ensures Retain(Serve(c, reqs).0.global, x) == Serve(c, reqs).0.global
  {
    if reqs != [] {
      var before, r := reqs[..|reqs| - 1], reqs[|reqs| - 1];
      assert reqs == before + [r];
      LastIsPruned(c, before, r);
    }
  }

  lemma LastIsPruned(c: Ceilings, before: seq<Request>, r: Request)
    requires c.window >= 1
    ensures Retain(Serve(c, before + [r]).0.global, r.at - c.window) == Serve(c, before + [r]).0.global
  {
    ServeSnoc(c, before, r);
    GlobalIsPruned(c, Serve(c, before).0, r);
  }

  /** Every check leaves nothing in the global log that its own window excludes. */
  lemma GlobalIsPruned(c: Ceilings, log: Log, r: Request)
    requires c.window >= 1
    ensures var global := Check(c, log, r.identity, r.at).0.global; Retain(global, r.at - c.window) == global
  {
    PrunedIsLive(log.global, r.at, r.at - c.window);
    PruneIsRetain(c, log.global, r.at);
  }

  lemma PrunedIsLive(s: seq<nat>, at: nat, x: int)
    requires at > x
    ensures var pruned := Retain(s, x); Retain(pruned, x) == pruned && Retain(pruned + [at], x) == pruned + [at]
  {
    RetainTwice(s, x, x);
    RetainSnoc(Retain(s, x), at, x);
  }

  /** The answer to request number `i`. */
  function Answer(c: Ceilings, reqs: seq<Request>, i: nat): Decision
    requires i < |reqs|
  {
    Check(c, Serve(c, reqs[..i]).0, reqs[i].identity, reqs[i].at).1
  }

  /** No bucket is ever taken out of the map: it has one for every identity that once got past the global ceiling. */
  lemma {:induction false} KeysAreExact(c: Ceilings, reqs: seq<Request>, id: Text)
    ensures id in Serve(c, reqs).0.perIdentity <==> exists i :: 0 <= i < |reqs| && Enters(c, reqs, i, id)
  {
    if reqs != [] {
      var n := |reqs| - 1;
      KeysAreExact(c, reqs[..n], id);
      KeysAfter(c, reqs, id);
      forall i | 0 <= i < n ensures Enters(c, reqs[..n], i, id) <==> Enters(c, reqs, i, id) {
        assert reqs[..n][..i] == reqs[..i];
      }
    }
  }

  ghost predicate Enters(c: Ceilings, reqs: seq<Request>, i: nat, id: Text)
    requires i < |reqs|
  {
    reqs[i].identity == id && Answer(c, reqs, i) != DenyGlobal
  }

  lemma KeysAfter(c: Ceilings, reqs: seq<Request>, id: Text)
    requires reqs != []
    ensures var n := |reqs| - 1;
      id in Serve(c, reqs).0.perIdentity <==> id in Serve(c, reqs[..n]).0.perIdentity || Enters(c, reqs, n, id)
  {
  }

  /** A request no older than the latest one is decided as if nothing had ever been forgotten. */
  lemma InOrderDecision(c: Ceilings, reqs: seq<Request>, r: Request)
    requires r.at >= Latest(reqs) || Latest(reqs) < c.window
    ensures Check(c, Serve(c, reqs).0, r.identity, r.at).1 == Decide(c, Serve(c, reqs).1, r)
  {
    ScopeCount(c, reqs, r, Everyone);
    ScopeCount(c, reqs, r, Identity(r.identity));
  }

  lemma ScopeCount(c: Ceilings, reqs: seq<Request>, r: Request, scope: Scope)
    requires r.at >= Latest(reqs) || Latest(reqs) < c.window
    ensures |Prune(LogOf(Serve(c, reqs).0, scope), Cutoff(c, r.at))| == CountAfter(Serve(c, reqs).1, scope, r.at - c.window)
  {
    var l, granted, x := LogOf(Serve(c, reqs).0, scope), Serve(c, reqs).1, r.at - c.window;
    PruneIsRetain(c, l, r.at);
    RetainCounts(granted, scope, x);
    if r.at >= Latest(reqs) {
      LogsAgree(c, reqs, scope, x);
    } else {
      NothingForgotten(c, reqs, scope);
    }
  }

  /** Before one whole window has passed nothing is ever dropped. */
  lemma NothingForgotten(c: Ceilings, reqs: seq<Request>, scope: Scope)
    requires Latest(reqs) < c.window
    ensures LogOf(Serve(c, reqs).0, scope) == Times(Serve(c, reqs).1, scope)
  {
    LogsAgree(c, reqs, scope, -1);
    RetainAll(LogOf(Serve(c, reqs).0, scope), -1);
    RetainAll(Times(Serve(c, reqs).1, scope), -1);
  }

  lemma {:induction false} LatestIsLast(reqs: seq<Request>)
    requires NonDecreasing(reqs) && reqs != []
    ensures Latest(reqs) == reqs[|reqs| - 1].at
  {
    var before := reqs[..|reqs| - 1];
    if before != [] { LatestIsLast(before); }
  }

  /** Request `i` comes at or after the latest one before it, or before a whole window has passed. */
  ghost predicate TimelyAt(c: Ceilings, reqs: seq<Request>, i: nat)
    requires i < |reqs|
  {
    reqs[i].at >= Latest(reqs[..i]) || Latest(reqs[..i]) < c.window
  }

  ghost predicate Timely(c: Ceilings, reqs: seq<Request>) {
    forall i :: 0 <= i < |reqs| ==> TimelyAt(c, reqs, i)
  }

  lemma TimelyPrefix(c: Ceilings, reqs: seq<Request>)
    requires Timely(c, reqs) && reqs != []
    ensures Timely(c, reqs[..|reqs| - 1]) && TimelyAt(c, reqs, |reqs| - 1)
  {
    var before := reqs[..|reqs| - 1];
    forall i | 0 <= i < |before| ensures TimelyAt(c, before, i) {
      assert TimelyAt(c, reqs, i) && before[..i] == reqs[..i];
    }
  }

  /** Arrival in order is timely. */
  lemma NonDecreasingIsTimely(c: Ceilings, reqs: seq<Request>)
    requires NonDecreasing(reqs)
    ensures Timely(c, reqs)
  {
    forall i | 0 <= i < |reqs| ensures TimelyAt(c, reqs, i) {
      if i > 0 { LatestIsLast(reqs[..i]); }
    }
  }

  /** Refinement: on every timely sequence the pruned limiter grants exactly what the reference grants. */
  lemma {:induction false} PrunedRefinesReference(c: Ceilings, reqs: seq<Request>)
    requires Timely(c, reqs)
    ensures Serve(c, reqs).1 == Reference(c, reqs)
  {
    if reqs != [] {
      var before, r := reqs[..|reqs| - 1], reqs[|reqs| - 1];
      TimelyPrefix(c, reqs);
      PrunedRefinesReference(c, before);
      InOrderDecision(c, before, r);
    }
  }

  // ----- what the grants look like

  lemma {:induction false} CountInBelow(h: seq<Request>, scope: Scope, lo: int, lo': int, hi: int)
    requires lo' <= lo
    ensures CountIn(h, scope, lo, hi) <= CountAfter(h, scope, lo')
  {
    if h != [] { CountInBelow(h[..|h| - 1], scope, lo, lo', hi); }
  }

  /** A grant finds room in every window it falls into. */
  lemma GrantFits(c: Ceilings, granted: seq<Request>, r: Request, scope: Scope, x: int)
    requires Decide(c, granted, r).Allow? && CountIn(granted, scope, x, x + c.window) <= Max(c, scope)
    ensures CountIn(granted + [r], scope, x, x + c.window) <= Max(c, scope)
  {
    assert (granted + [r])[..|granted|] == granted;
    if InScope(scope, r) && x < r.at <= x + c.window {
      CountInBelow(granted, scope, x, r.at - c.window, x + c.window);
    }
  }

  lemma {:induction false} ScopeWithin(h: seq<Request>, scope: Scope, lo: int, hi: int)
    ensures CountIn(h, scope, lo, hi) <= CountIn(h, Everyone, lo, hi)
    ensures CountAfter(h, scope, lo) <= CountAfter(h, Everyone, lo)
  {
    if h != [] { ScopeWithin(h[..|h| - 1], scope, lo, hi); }
  }

  lemma {:induction false} WindowBelowMax(c: Ceilings, reqs: seq<Request>, scope: Scope, x: int)
    requires Timely(c, reqs)
    ensures CountIn(Serve(c, reqs).1, scope, x, x + c.window) <= Max(c, scope)
  {
    if reqs != [] {
      var before, r := reqs[..|reqs| - 1], reqs[|reqs| - 1];
      TimelyPrefix(c, reqs);
      WindowBelowMax(c, before, scope, x);
      InOrderDecision(c, before, r);
      var granted := Serve(c, before).1;
      if Decide(c, granted, r).Allow? { GrantFits(c, granted, r, scope, x); }
    }
  }

  /** What both ceilings together leave to a scope. */
  function Bound(c: Ceilings, scope: Scope): u32 {
    if scope.Everyone? || c.globalMax < c.identityMax then c.globalMax else c.identityMax
  }

  /**
   On every timely sequence, so on every non-decreasing one, each half-open
   window of the configured length holds at most the ceiling, per identity and
   overall.
   */
  lemma WindowsAreBounded(c: Ceilings, reqs: seq<Request>, scope: Scope, x: int)
    requires Timely(c, reqs)
    ensures CountIn(Serve(c, reqs).1, scope, x, x + c.window) <= Bound(c, scope) <= Max(c, scope)
  {
    WindowBelowMax(c, reqs, scope, x);
    WindowBelowMax(c, reqs, Everyone, x);
    ScopeWithin(Serve(c, reqs).1, scope, x, x + c.window);
  }
}
