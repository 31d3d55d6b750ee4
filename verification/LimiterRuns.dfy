/**
 Histories of the sliding-window limiter that show where its documentation or
 its windows give way: buckets that outlive every stamp in them, one request
 out of order that breaks a ceiling, and stale requests granted without limit.
 */
module LimiterRuns {
  import opened Bytes
  import opened KeyRateLimit

  ghost predicate Distinct(ids: seq<Text>) {
    forall i, j :: 0 <= i < j < |ids| ==> Differ(ids, i, j)
  }

  predicate Differ(ids: seq<Text>, i: nat, j: nat)
    requires i < |ids| && j < |ids|
  {
    ids[i] != ids[j]
  }

  function Names(ids: seq<Text>): set<Text> {
    set id | id in ids
  }

  lemma NamesSnoc(ids: seq<Text>)
    requires ids != [] && Distinct(ids)
    ensures var n := |ids| - 1;
      Names(ids) == Names(ids[..n]) + {ids[n]} && ids[n] !in Names(ids[..n]) && Distinct(ids[..n])
  {
    var n := |ids| - 1;
    assert ids == ids[..n] + [ids[n]];
    forall i, j | 0 <= i < j < n ensures Differ(ids[..n], i, j) { assert Differ(ids, i, j); }
    forall i | 0 <= i < n ensures ids[..n][i] != ids[n] { assert Differ(ids, i, n); }
  }

  ghost predicate ServeIs(c: Ceilings, reqs: seq<Request>, log: Log, granted: seq<Request>) {
    Serve(c, reqs) == (log, granted)
  }

  /** A history ends with these logs and grants; said of a bound history, so that it opens only where ServeIs is asked for. */
  ghost predicate Leads(c: Ceilings, reqs: seq<Request>, log: Log, granted: seq<Request>) {
    forall h :: h == reqs ==> ServeIs(c, h, log, granted)
  }

  ghost predicate CheckIs(c: Ceilings, log: Log, r: Request, log': Log, d: Decision) {
    Check(c, log, r.identity, r.at) == (log', d)
  }

  /** A request is granted and leaves these logs; stated in the same way. */
  ghost predicate Grants(c: Ceilings, log: Log, r: Request, log': Log) {
    forall q :: q == r ==> CheckIs(c, log, q, log', Allow)
  }

  lemma NoHistory(c: Ceilings)
    ensures Leads(c, [], EMPTY_LOG, [])
  {
  }

  /** One more request of a history. */
  lemma Served(c: Ceilings, reqs: seq<Request>, log: Log, granted: seq<Request>, r: Request, log': Log)
    requires Leads(c, reqs, log, granted) && Grants(c, log, r, log')
    ensures Leads(c, reqs + [r], log', granted + [r])
  {
    assert ServeIs(c, reqs, log, granted) && CheckIs(c, log, r, log', Allow);
    ServeSnoc(c, reqs, r);
  }

  lemma Opened(c: Ceilings, reqs: seq<Request>, log: Log, granted: seq<Request>)
    requires Leads(c, reqs, log, granted)
    ensures Serve(c, reqs) == (log, granted)
  {
    assert ServeIs(c, reqs, log, granted);
  }

  /** What a grant makes of the logs. */
  function Pushed(c: Ceilings, log: Log, id: Text, at: nat): Log {
    Log(log.perIdentity[id := Retain(Bucket(log, id), at - c.window) + [at]], Retain(log.global, at - c.window) + [at])
  }

  /** A request with room under both ceilings. */
  lemma Grant(c: Ceilings, log: Log, id: Text, at: nat)
    requires |Retain(log.global, at - c.window)| < c.globalMax && |Retain(Bucket(log, id), at - c.window)| < c.identityMax
    ensures Grants(c, log, Request(id, at), Pushed(c, log, id, at))
  {
    PruneIsRetain(c, log.global, at);
    PruneIsRetain(c, Bucket(log, id), at);
    assert CheckIs(c, log, Request(id, at), Pushed(c, log, id, at), Allow);
  }

  lemma RetainOne(t: nat, x: int)
    ensures Retain([t], x) == if t > x then [t] else []
  {
    RetainSnoc([], t, x);
    assert [] + [t] == [t];
  }

  // ----- buckets are kept for good

  /** One visit by a stranger, a window after the last stamp. */
  lemma Visit(c: Ceilings, log: Log, latest: nat, id: Text)
    requires c.identityMax >= 1 && c.globalMax >= 1 && id !in log.perIdentity && (log.global == [] || log.global == [latest])
    ensures Grants(c, log, Request(id, latest + c.window), Log(log.perIdentity[id := [latest + c.window]], [latest + c.window]))
  {
    RetainOne(latest, latest);
    Grant(c, log, id, latest + c.window);
    assert [] + [latest + c.window] == [latest + c.window];
  }

  /** Each identity called once and has a bucket with that one stamp; the global log has the latest. */
  ghost predicate Lined(log: Log, ids: seq<Text>, reqs: seq<Request>, latest: nat) {
    && |reqs| == |ids|
    && log.global == (if ids == [] then [] else [latest])
    && log.perIdentity.Keys == Names(ids)
    && (forall i :: 0 <= i < |ids| ==> LineAt(log, ids, reqs, i))
  }

  ghost predicate LineAt(log: Log, ids: seq<Text>, reqs: seq<Request>, i: nat)
    requires i < |ids| == |reqs|
  {
    reqs[i].identity == ids[i] && ids[i] in log.perIdentity && log.perIdentity[ids[i]] == [reqs[i].at]
  }

  /** The calls are at least a window apart. */
  ghost predicate Spaced(c: Ceilings, reqs: seq<Request>, latest: nat) {
    && (forall i, j :: 0 <= i < j < |reqs| ==> GapAt(c, reqs, i, j))
    && (reqs == [] || latest == reqs[|reqs| - 1].at)
  }

  ghost predicate GapAt(c: Ceilings, reqs: seq<Request>, i: nat, j: nat)
    requires i < |reqs| && j < |reqs|
  {
    reqs[i].at + c.window <= reqs[j].at
  }

  lemma LinedSnoc(log: Log, ids: seq<Text>, reqs: seq<Request>, latest: nat, at: nat)
    requires ids != [] && Distinct(ids) && Lined(log, ids[..|ids| - 1], reqs, latest)
    ensures var id := ids[|ids| - 1]; Lined(Log(log.perIdentity[id := [at]], [at]), ids, reqs + [Request(id, at)], at)
  {
    var n := |ids| - 1;
    var log' := Log(log.perIdentity[ids[n] := [at]], [at]);
    NamesSnoc(ids);
    forall i | 0 <= i <= n ensures LineAt(log', ids, reqs + [Request(ids[n], at)], i) {
      if i < n { assert LineAt(log, ids[..n], reqs, i) && Differ(ids, i, n); }
    }
  }

  lemma SpacedSnoc(c: Ceilings, reqs: seq<Request>, latest: nat, id: Text)
    requires Spaced(c, reqs, latest)
    ensures Spaced(c, reqs + [Request(id, latest + c.window)], latest + c.window)
  {
    var reqs', n := reqs + [Request(id, latest + c.window)], |reqs|;
    forall i, j | 0 <= i < j <= n ensures GapAt(c, reqs', i, j) {
      if j < n { assert GapAt(c, reqs, i, j); }
      else if i < n - 1 { assert GapAt(c, reqs, i, n - 1); }
    }
  }

  lemma {:induction false} OneByOne(c: Ceilings, ids: seq<Text>) returns (reqs: seq<Request>, log: Log, granted: seq<Request>, latest: nat)
    requires c.identityMax >= 1 && c.globalMax >= 1 && Distinct(ids)
    ensures Leads(c, reqs, log, granted) && Lined(log, ids, reqs, latest) && Spaced(c, reqs, latest)
  {
    if ids == [] {
      reqs, log, granted, latest := [], EMPTY_LOG, [], 0;
      NoHistory(c);
    } else {
      var id := ids[|ids| - 1];
      NamesSnoc(ids);
      reqs, log, granted, latest := OneByOne(c, ids[..|ids| - 1]);
      var at := latest + c.window;
      Visit(c, log, latest, id);
      LinedSnoc(log, ids, reqs, latest, at);
      SpacedSnoc(c, reqs, latest, id);
      Served(c, reqs, log, granted, Request(id, at), Log(log.perIdentity[id := [at]], [at]));
      granted := granted + [Request(id, at)];
      reqs, log, latest := reqs + [Request(id, at)], Log(log.perIdentity[id := [at]], [at]), at;
    }
  }

  /**
   The map does grow without bound, whatever the ceilings: any number of
   distinct identities can call in order, a window apart, and then each has a
   bucket although in all but the last of them every stamp has expired.
   */
  lemma BucketsOutliveTheirStamps(c: Ceilings, ids: seq<Text>) returns (reqs: seq<Request>, log: Log, latest: nat)
    requires c.identityMax >= 1 && c.globalMax >= 1 && Distinct(ids)
    ensures NonDecreasing(reqs) && log == Serve(c, reqs).0 && latest == Latest(reqs)
    ensures log.perIdentity.Keys == Names(ids)
    ensures |log.global| <= 1
    ensures forall i :: 0 <= i < |ids| - 1 ==> ids[i] in log.perIdentity && Retain(log.perIdentity[ids[i]], latest - c.window) == []
  {
    var granted;
    reqs, log, granted, latest := OneByOne(c, ids);
    Opened(c, reqs, log, granted);
    AllExpired(c, log, ids, reqs, latest);
    if reqs != [] { LatestIsLast(reqs); } else { latest := 0; }
  }

  lemma AllExpired(c: Ceilings, log: Log, ids: seq<Text>, reqs: seq<Request>, latest: nat)
    requires Lined(log, ids, reqs, latest) && Spaced(c, reqs, latest)
    ensures NonDecreasing(reqs)
    ensures forall i :: 0 <= i < |ids| - 1 ==> ids[i] in log.perIdentity && Retain(log.perIdentity[ids[i]], latest - c.window) == []
  {
    forall i, j | 0 <= i < j < |reqs| ensures reqs[i].at <= reqs[j].at { assert GapAt(c, reqs, i, j); }
    forall i | 0 <= i < |ids| - 1 ensures ids[i] in log.perIdentity && Retain(log.perIdentity[ids[i]], latest - c.window) == [] {
      assert LineAt(log, ids, reqs, i) && GapAt(c, reqs, i, |reqs| - 1);
      assert Retain([reqs[i].at], latest - c.window) == [];
    }
  }

  // ----- one request out of order

  /** Callers that press on one ceiling: each another identity, or all the same. */
  ghost predicate Press(scope: Scope, ids: seq<Text>) {
    if scope.Everyone? then Distinct(ids) else Names(ids) <= {scope.id}
  }

  /** The ceilings under which more than one grant is possible in a window, overall or for one identity. */
  predicate Exposed(c: Ceilings, scope: Scope) {
    c.globalMax >= 2 && c.identityMax >= if scope.Everyone? then 1 else 2
  }

  lemma PressSnoc(scope: Scope, ids: seq<Text>)
    requires ids != [] && Press(scope, ids)
    ensures var n := |ids| - 1;
      && Names(ids) == Names(ids[..n]) + {ids[n]} && Press(scope, ids[..n])
      && (if scope.Everyone? then ids[n] !in Names(ids[..n]) else ids[n] == scope.id)
  {
    var n := |ids| - 1;
    if scope.Everyone? { NamesSnoc(ids); }
    else {
      assert ids == ids[..n] + [ids[n]];
      assert ids[n] in Names(ids);
    }
  }

  /** At most `k` stamps, none later than `e`. */
  ghost predicate UpTo(s: seq<nat>, e: nat, k: nat) {
    Retain(s, e) == [] && |s| <= k
  }

  lemma UpToSnoc(s: seq<nat>, x: int, e: nat, k: nat)
    requires UpTo(s, e, k) && x <= e
    ensures UpTo(Retain(s, x) + [e], e, k + 1) && |Retain(s, x)| <= k
  {
    RetainTwice(s, x, e);
    RetainSnoc(Retain(s, x), e, e);
    RetainNoLonger(s, x);
  }

  lemma UpToExpires(s: seq<nat>, e: nat, k: nat, x: int)
    requires UpTo(s, e, k) && x >= e
    ensures Retain(s, x) == []
  {
    RetainTwice(s, e, x);
  }

  /** After `k` calls by `names`, all at `e` or before. */
  ghost predicate Settled(log: Log, scope: Scope, names: set<Text>, e: nat, k: nat) {
    && log.perIdentity.Keys == names && UpTo(log.global, e, k)
    && (scope.Identity? ==> UpTo(Bucket(log, scope.id), e, k))
  }

  /** The caller is new, or the one identity under pressure. */
  predicate Next(scope: Scope, names: set<Text>, id: Text) {
    if scope.Everyone? then id !in names else id == scope.id
  }

  lemma BurstStep(c: Ceilings, scope: Scope, log: Log, names: set<Text>, id: Text, e: nat, k: nat) returns (log': Log)
    requires Settled(log, scope, names, e, k) && Next(scope, names, id) && k < Bound(c, scope) && c.identityMax >= 1
    ensures Grants(c, log, Request(id, e), log') && Settled(log', scope, names + {id}, e, k + 1)
  {
    UpToSnoc(log.global, e - c.window, e, k);
    if scope.Identity? { UpToSnoc(Bucket(log, id), e - c.window, e, k); }
    Grant(c, log, id, e);
    log' := Pushed(c, log, id, e);
  }

  lemma LaterVisit(c: Ceilings, scope: Scope, log: Log, names: set<Text>, id: Text, e: nat, k: nat, latest: nat) returns (log': Log)
    requires Settled(log, scope, names, e, k) && Next(scope, names, id) && c.identityMax >= 1 && c.globalMax >= 1 && e + c.window <= latest
    ensures Grants(c, log, Request(id, latest), log')
    ensures log' == Log(log.perIdentity[id := [latest]], [latest])
  {
    UpToExpires(log.global, e, k, latest - c.window);
    if scope.Identity? { UpToExpires(Bucket(log, id), e, k, latest - c.window); }
    Grant(c, log, id, latest);
    log' := Pushed(c, log, id, latest);
    assert [] + [latest] == [latest];
  }

  lemma StaleVisit(c: Ceilings, log: Log, id: Text, latest: nat, now: nat) returns (log': Log)
    requires c.globalMax >= 2 && now < latest && log.global == [latest]
    requires (Bucket(log, id) == [] && c.identityMax >= 1) || (Bucket(log, id) == [latest] && c.identityMax >= 2)
    ensures Grants(c, log, Request(id, now), log')
    ensures log' == Log(log.perIdentity[id := Bucket(log, id) + [now]], [latest] + [now])
  {
    RetainOne(latest, now - c.window);
    Grant(c, log, id, now);
    log' := Pushed(c, log, id, now);
  }

  /** Every call is in scope and at `e`. */
  ghost predicate AllAt(reqs: seq<Request>, scope: Scope, e: nat) {
    forall i :: 0 <= i < |reqs| ==> CallAt(reqs, i, scope, e)
  }

  ghost predicate CallAt(reqs: seq<Request>, i: nat, scope: Scope, e: nat)
    requires i < |reqs|
  {
    InScope(scope, reqs[i]) && reqs[i].at == e
  }

  lemma AllAtSnoc(reqs: seq<Request>, r: Request, scope: Scope, e: nat)
    requires AllAt(reqs, scope, e) && InScope(scope, r) && r.at == e
    ensures AllAt(reqs + [r], scope, e)
  {
    forall i | 0 <= i <= |reqs| ensures CallAt(reqs + [r], i, scope, e) {
      if i < |reqs| { assert CallAt(reqs, i, scope, e); }
    }
  }

  lemma {:induction false} CountAllAt(reqs: seq<Request>, scope: Scope, e: nat, lo: int, hi: int)
    requires AllAt(reqs, scope, e) && lo < e
    ensures CountAfter(reqs, scope, lo) == |reqs|
    ensures e <= hi ==> CountIn(reqs, scope, lo, hi) == |reqs|
  {
    if reqs != [] {
      var n := |reqs| - 1;
      forall i | 0 <= i < n ensures CallAt(reqs[..n], i, scope, e) { assert CallAt(reqs, i, scope, e); }
      assert CallAt(reqs, n, scope, e);
      CountAllAt(reqs[..n], scope, e, lo, hi);
    }
  }

  /** As many calls at one instant as the ceilings leave: all are granted. */
  lemma {:induction false} Burst(c: Ceilings, scope: Scope, ids: seq<Text>, e: nat) returns (reqs: seq<Request>, log: Log)
    requires Press(scope, ids) && |ids| <= Bound(c, scope) && c.identityMax >= 1
    ensures Leads(c, reqs, log, reqs) && |reqs| == |ids| && AllAt(reqs, scope, e)
    ensures Settled(log, scope, Names(ids), e, |ids|)
  {
    if ids == [] {
      reqs, log := [], EMPTY_LOG;
      NoHistory(c);
    } else {
      var n := |ids| - 1;
      PressSnoc(scope, ids);
      var before, mid := Burst(c, scope, ids[..n], e);
      log := BurstStep(c, scope, mid, Names(ids[..n]), ids[n], e, n);
      Served(c, before, mid, before, Request(ids[n], e), log);
      reqs := before + [Request(ids[n], e)];
      AllAtSnoc(before, Request(ids[n], e), scope, e);
    }
  }

  lemma InOrderSnoc(burst: seq<Request>, scope: Scope, e: nat, r: Request)
    requires AllAt(burst, scope, e) && e <= r.at
    ensures NonDecreasing(burst + [r]) && Latest(burst + [r]) == r.at
  {
    var reqs := burst + [r];
    forall i, j | 0 <= i < j < |reqs| ensures reqs[i].at <= reqs[j].at {
      assert CallAt(burst, i, scope, e);
      assert j < |burst| ==> CallAt(burst, j, scope, e);
    }
    LatestIsLast(reqs);
  }

  /** A burst and, a window or more later, one call that makes the limiter forget it. */
  lemma Forgotten(c: Ceilings, scope: Scope, ids: seq<Text>, e: nat, latest: nat) returns (burst: seq<Request>, r: Request, log: Log)
    requires ids != [] && Press(scope, ids) && |ids| - 1 <= Bound(c, scope) && c.identityMax >= 1 && c.globalMax >= 1
    requires e + c.window <= latest
    ensures |burst| == |ids| - 1 && AllAt(burst, scope, e) && r == Request(ids[|ids| - 1], latest)
    ensures Leads(c, burst + [r], log, burst + [r]) && log.global == [latest] && log.perIdentity.Keys == Names(ids)
    ensures scope.Identity? ==> Bucket(log, scope.id) == [latest]
    ensures NonDecreasing(burst + [r]) && Latest(burst + [r]) == latest
  {
    var n, mid := |ids| - 1, EMPTY_LOG;
    PressSnoc(scope, ids);
    burst, mid := Burst(c, scope, ids[..n], e);
    r := Request(ids[n], latest);
    log := LaterVisit(c, scope, mid, Names(ids[..n]), ids[n], e, n, latest);
    Served(c, burst, mid, burst, r, log);
    InOrderSnoc(burst, scope, e, r);
  }

  lemma CountSnoc(h: seq<Request>, r: Request, scope: Scope, lo: int, hi: int)
    ensures CountIn(h + [r], scope, lo, hi) == CountIn(h, scope, lo, hi) + if InScope(scope, r) && lo < r.at <= hi then 1 else 0
    ensures CountAfter(h + [r], scope, lo) == CountAfter(h, scope, lo) + if InScope(scope, r) && lo < r.at then 1 else 0
  {
    assert (h + [r])[..|h|] == h;
  }

  /**
   The exact reach of WindowsAreBounded: for every window, every latest time a
   whole window or more after the start and every earlier time, however little
   behind, one request at that time after a history in order puts one grant too
   many into a window, overall and per identity, under all ceilings but the
   smallest.
   */
  lemma OneStaleRequestBreaksTheWindow(c: Ceilings, scope: Scope, latest: nat, now: nat, ids: seq<Text>)
    returns (reqs: seq<Request>, r: Request)
    requires 1 <= c.window <= latest && now < latest && Exposed(c, scope)
    requires Press(scope, ids) && |ids| == Bound(c, scope) + 2
    ensures NonDecreasing(reqs) && Latest(reqs) == latest && r.at == now
    ensures CountIn(Serve(c, reqs + [r]).1, scope, now - c.window, now) == Bound(c, scope) + 1
  {
    var e := if now <= latest - c.window then now else latest - c.window;
    var burst, last, stale, log := BurstAndStale(c, scope, ids, e, latest, now);
    reqs, r := burst + [last], stale;
    Opened(c, reqs + [r], log, reqs + [r]);
    CountOverflow(burst, last, r, scope, e, c.window);
  }

  lemma BurstAndStale(c: Ceilings, scope: Scope, ids: seq<Text>, e: nat, latest: nat, now: nat)
    returns (burst: seq<Request>, last: Request, r: Request, log: Log)
    requires Exposed(c, scope) && Press(scope, ids) && |ids| == Bound(c, scope) + 2 && e + c.window <= latest && now < latest
    ensures |burst| == Bound(c, scope) && AllAt(burst, scope, e) && last.at == latest && r.at == now && InScope(scope, r)
    ensures Leads(c, burst + [last] + [r], log, burst + [last] + [r])
    ensures NonDecreasing(burst + [last]) && Latest(burst + [last]) == latest
  {
    var n, mid := |ids| - 1, EMPTY_LOG;
    PressSnoc(scope, ids);
    burst, last, mid := Forgotten(c, scope, ids[..n], e, latest);
    r := Request(ids[n], now);
    log := StaleVisit(c, mid, ids[n], latest, now);
    Served(c, burst + [last], mid, burst + [last], r, log);
  }

  lemma CountOverflow(burst: seq<Request>, last: Request, r: Request, scope: Scope, e: nat, window: nat)
    requires AllAt(burst, scope, e) && r.at - window < e <= r.at < last.at && InScope(scope, r) && window >= 1
    ensures CountIn(burst + [last] + [r], scope, r.at - window, r.at) == |burst| + 1
  {
    CountAllAt(burst, scope, e, r.at - window, r.at);
    CountSnoc(burst, last, scope, r.at - window, r.at);
    CountSnoc(burst + [last], r, scope, r.at - window, r.at);
  }

  /** An identity for every number. */
  function Name(i: nat): (r: Text)
    ensures |r| == i + 1
  {
    seq(i + 1, _ => 97)
  }

  lemma SomeNames(n: nat) returns (ids: seq<Text>)
    ensures |ids| == n && Distinct(ids) && [] !in Names(ids)
  {
    ids := seq(n, i requires 0 <= i < n => Name(i));
    forall i, j | 0 <= i < j < n ensures Differ(ids, i, j) {
      assert |ids[i]| == i + 1 && |ids[j]| == j + 1;
    }
    forall id | id in ids ensures id != [] { var i :| 0 <= i < n && ids[i] == id; }
  }

  /**
   The exact reach of InOrderDecision: for every window, every stale time and
   all ceilings but the smallest, a history in order after which the pruned
   limiter lets a request through that the full history denies.
   */
  lemma StaleDecisionDiffers(c: Ceilings, latest: nat, now: nat) returns (reqs: seq<Request>, r: Request)
    requires now < latest && latest >= c.window && c.identityMax >= 1 && c.globalMax >= 2
    ensures NonDecreasing(reqs) && Latest(reqs) == latest && r.at == now
    ensures Check(c, Serve(c, reqs).0, r.identity, r.at).1 == Allow && Decide(c, Serve(c, reqs).1, r) == DenyGlobal
  {
    var ids := SomeNames(c.globalMax + 2);
    reqs, r := StaleDecisionOf(c, latest, now, ids);
  }

  lemma StaleDecisionOf(c: Ceilings, latest: nat, now: nat, ids: seq<Text>) returns (reqs: seq<Request>, r: Request)
    requires now < latest && latest >= c.window && c.identityMax >= 1 && c.globalMax >= 2
    requires Distinct(ids) && |ids| == c.globalMax + 2
    ensures NonDecreasing(reqs) && Latest(reqs) == latest && r.at == now
    ensures Check(c, Serve(c, reqs).0, r.identity, r.at).1 == Allow && Decide(c, Serve(c, reqs).1, r) == DenyGlobal
  {
    var n, e := |ids| - 1, latest - c.window;
    NamesSnoc(ids);
    var burst, last, log := Forgotten(c, Everyone, ids[..n], e, latest);
    reqs, r := burst + [last], Request(ids[n], now);
    var log' := StaleVisit(c, log, ids[n], latest, now);
    Opened(c, reqs, log, reqs);
    assert CheckIs(c, log, r, log', Allow);
    DeniedInFull(c, burst, e, last, r);
  }

  lemma DeniedInFull(c: Ceilings, burst: seq<Request>, e: nat, last: Request, r: Request)
    requires AllAt(burst, Everyone, e) && e > r.at - c.window && |burst| >= c.globalMax
    ensures Decide(c, burst + [last], r) == DenyGlobal
  {
    CountAllAt(burst, Everyone, e, r.at - c.window, e);
    CountSnoc(burst, last, Everyone, r.at - c.window, e);
  }

  // ----- stale requests without limit

  /** The host called last, at `t`; what was there before has been forgotten. */
  ghost predicate Hosted(log: Log, host: Text, t: nat) {
    log.global == [t] && host in log.perIdentity && log.perIdentity[host] == [t]
  }

  /** Strangers, each of another identity; or the host itself. */
  ghost predicate Guests(scope: Scope, host: Text, ids: seq<Text>) {
    Press(scope, ids) && if scope.Everyone? then host !in Names(ids) else host == scope.id
  }

  /** One guest with a stale time, and then the host, a window on, whose visit drops the guest's stamp. */
  lemma Turn(c: Ceilings, scope: Scope, log: Log, host: Text, t: nat, id: Text, now: nat) returns (mid: Log, log': Log)
    requires Exposed(c, scope) && Hosted(log, host, t) && now < t
    requires if scope.Everyone? then id !in log.perIdentity else id == host
    ensures Grants(c, log, Request(id, now), mid) && Grants(c, mid, Request(host, t + c.window), log')
    ensures Hosted(log', host, t + c.window) && log'.perIdentity.Keys == log.perIdentity.Keys + {id}
  {
    mid := StaleVisit(c, log, id, t, now);
    log' := HostReturns(c, mid, host, t, now);
  }

  lemma BothExpire(t: nat, now: nat)
    requires now <= t
    ensures Retain([t] + [now], t) == [] && Retain([t], t) == []
  {
    RetainSnoc([t], now, t);
    RetainOne(t, t);
  }

  lemma HostReturns(c: Ceilings, log: Log, host: Text, t: nat, now: nat) returns (log': Log)
    requires c.identityMax >= 1 && c.globalMax >= 1 && now <= t && log.global == [t] + [now]
    requires host in log.perIdentity && (log.perIdentity[host] == [t] || log.perIdentity[host] == [t] + [now])
    ensures Grants(c, log, Request(host, t + c.window), log')
    ensures Hosted(log', host, t + c.window) && log'.perIdentity.Keys == log.perIdentity.Keys
  {
    BothExpire(t, now);
    Grant(c, log, host, t + c.window);
    log' := Pushed(c, log, host, t + c.window);
    assert [] + [t + c.window] == [t + c.window];
  }

  /** Calls at the stale time, or at a time of the host. */
  ghost predicate NowOrLate(reqs: seq<Request>, now: nat, latest: nat) {
    forall i :: 0 <= i < |reqs| ==> NowOrLateAt(reqs, i, now, latest)
  }

  predicate NowOrLateAt(reqs: seq<Request>, i: nat, now: nat, latest: nat)
    requires i < |reqs|
  {
    reqs[i].at == now || reqs[i].at >= latest
  }

  lemma NowOrLateSnoc(reqs: seq<Request>, r: Request, now: nat, latest: nat)
    requires NowOrLate(reqs, now, latest) && (r.at == now || r.at >= latest)
    ensures NowOrLate(reqs + [r], now, latest)
  {
    forall i | 0 <= i <= |reqs| ensures NowOrLateAt(reqs + [r], i, now, latest) {
      if i < |reqs| { assert NowOrLateAt(reqs, i, now, latest); }
    }
  }

  lemma HostArrives(c: Ceilings, host: Text, latest: nat) returns (reqs: seq<Request>, log: Log)
    requires c.identityMax >= 1 && c.globalMax >= 1
    ensures reqs == [Request(host, latest)] && Leads(c, reqs, log, reqs)
    ensures Hosted(log, host, latest) && log.perIdentity.Keys == {host}
  {
    var log0, none := EMPTY_LOG, [];
    NoHistory(c);
    Grant(c, log0, host, latest);
    log := Pushed(c, log0, host, latest);
    assert [] + [latest] == [latest];
    Served(c, none, log0, none, Request(host, latest), log);
    reqs := [Request(host, latest)];
    assert none + [Request(host, latest)] == reqs;
  }

  lemma {:induction false} Flood(c: Ceilings, scope: Scope, host: Text, latest: nat, ids: seq<Text>, now: nat)
    returns (reqs: seq<Request>, log: Log, granted: seq<Request>, t: nat)
    requires Exposed(c, scope) && Guests(scope, host, ids) && c.window >= 1 && now < latest
    ensures Leads(c, reqs, log, granted) && NowOrLate(reqs, now, latest)
    ensures t >= latest && Hosted(log, host, t) && log.perIdentity.Keys == Names(ids) + {host}
    ensures CountIn(granted, scope, now - c.window, now) == |ids|
  {
    if ids == [] {
      reqs, log := HostArrives(c, host, latest);
      granted, t := reqs, latest;
      NowOrLateSnoc([], Request(host, latest), now, latest);
      CountSnoc([], Request(host, latest), scope, now - c.window, now);
      assert [] + [Request(host, latest)] == reqs;
    } else {
      var n := |ids| - 1;
      PressSnoc(scope, ids);
      var before, was, some, at := Flood(c, scope, host, latest, ids[..n], now);
      reqs, log, granted := NextTurn(c, scope, host, latest, now, before, was, some, at, ids[n]);
      t := at + c.window;
    }
  }

  lemma NextTurn(c: Ceilings, scope: Scope, host: Text, latest: nat, now: nat,
                 reqs: seq<Request>, log: Log, granted: seq<Request>, t: nat, id: Text)
    returns (reqs': seq<Request>, log': Log, granted': seq<Request>)
    requires Exposed(c, scope) && c.window >= 1 && now < latest <= t
    requires Leads(c, reqs, log, granted) && NowOrLate(reqs, now, latest) && Hosted(log, host, t)
    requires if scope.Everyone? then id !in log.perIdentity else id == host == scope.id
    ensures Leads(c, reqs', log', granted') && NowOrLate(reqs', now, latest)
    ensures Hosted(log', host, t + c.window) && log'.perIdentity.Keys == log.perIdentity.Keys + {id}
    ensures CountIn(granted', scope, now - c.window, now) == CountIn(granted, scope, now - c.window, now) + 1
  {
    var guest, again := Request(id, now), Request(host, t + c.window);
    NowOrLateSnoc(reqs, guest, now, latest);
    NowOrLateSnoc(reqs + [guest], again, now, latest);
    CountSnoc(granted, guest, scope, now - c.window, now);
    CountSnoc(granted + [guest], again, scope, now - c.window, now);
    var mid;
    mid, log' := Turn(c, scope, log, host, t, id, now);
    Served(c, reqs, log, granted, guest, mid);
    Served(c, reqs + [guest], mid, granted + [guest], again, log');
    reqs', granted' := reqs + [guest] + [again], granted + [guest] + [again];
  }

  /**
   Out of order there is no ceiling at all: under all ceilings but the smallest
   any number of requests is granted at one instant, overall and to one
   identity. A host calls in order, a window apart; after each of its calls one
   guest with the stale time is let in, and the next call of the host drops the
   guest's stamp.
   */
  lemma StaleGrantsKnowNoCeiling(c: Ceilings, scope: Scope, host: Text, latest: nat, ids: seq<Text>, now: nat) returns (reqs: seq<Request>)
    requires Exposed(c, scope) && Guests(scope, host, ids) && c.window >= 1 && now < latest
    ensures NowOrLate(reqs, now, latest)
    ensures CountIn(Serve(c, reqs).1, scope, now - c.window, now) == |ids|
  {
    var log, granted, t;
    reqs, log, granted, t := Flood(c, scope, host, latest, ids, now);
    Opened(c, reqs, log, granted);
  }
}
