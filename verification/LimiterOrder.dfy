/**
 The one configuration in which the sliding-window limiter keeps its windows in
 every arrival order: a ceiling of one. Together with the histories of
 LimiterRuns this settles for every configuration whether order matters.
 */
module LimiterOrder {
  import opened Bytes
  import opened KeyRateLimit
  import opened LimiterRuns

  /** Nothing after `t`, so nothing after any later time, nor at all if `t` is before every stamp. */
  lemma {:induction false} NoneAfter(h: seq<Request>, scope: Scope, t: int, lo: int)
    requires CountAfter(h, scope, t) == 0 && (t <= lo || t < 0)
    ensures CountAfter(h, scope, lo) == 0
  {
    if h != [] { NoneAfter(h[..|h| - 1], scope, t, lo); }
  }

  /** A log never holds anything but grants: pruned or not, it has no more stamps after `x` than were granted. */
  lemma {:induction false} LogsAreGrants(c: Ceilings, reqs: seq<Request>, scope: Scope, x: int)
    ensures |Retain(LogOf(Serve(c, reqs).0, scope), x)| <= CountAfter(Serve(c, reqs).1, scope, x)
  {
    if reqs != [] {
      var before, r := reqs[..|reqs| - 1], reqs[|reqs| - 1];
      LogsAreGrants(c, before, scope, x);
      var allow := ServeMoves(c, reqs, scope);
      MovedIsGrants(c, r, scope, allow, LogOf(Serve(c, before).0, scope), LogOf(Serve(c, reqs).0, scope), Serve(c, before).1, x);
    }
  }

  lemma MovedIsGrants(c: Ceilings, r: Request, scope: Scope, allow: bool, l: seq<nat>, l': seq<nat>, granted: seq<Request>, x: int)
    requires Moved(c, r, scope, allow, l, l') && |Retain(l, x)| <= CountAfter(granted, scope, x)
    ensures |Retain(l', x)| <= CountAfter(if allow then granted + [r] else granted, scope, x)
  {
    CountSnoc(granted, r, scope, x, x);
    if allow && InScope(scope, r) { PushRetains(l, r.at - c.window, r.at, x); }
    else { PrunedRetains(l, r.at - c.window, x); }
  }

  lemma PushRetains(s: seq<nat>, cutoff: int, at: nat, x: int)
    ensures |Retain(Retain(s, cutoff) + [at], x)| <= |Retain(s, x)| + if at > x then 1 else 0
  {
    PrunedRetains(s, cutoff, x);
    RetainSnoc(Retain(s, cutoff), at, x);
  }

  lemma {:induction false} PrunedRetains(s: seq<nat>, x: int, y: int)
    ensures |Retain(Retain(s, x), y)| <= |Retain(s, y)|
  {
    if s != [] {
      var n := |s| - 1;
      PrunedRetains(s[..n], x, y);
      if s[n] > x { RetainSnoc(Retain(s[..n], x), s[n], y); }
      else { assert Retain(s, x) == Retain(s[..n], x); }
    }
  }

  /** The ceiling that matters to this scope is one. */
  predicate One(c: Ceilings, scope: Scope) {
    c.identityMax >= 1 && c.globalMax >= 1 && Max(c, scope) == 1
  }

  /** The log has the last grant in scope, and no other was later. */
  ghost predicate Single(l: seq<nat>, granted: seq<Request>, scope: Scope) {
    |l| <= 1 && CountAfter(granted, scope, if l == [] then -1 else l[0]) == 0
  }

  /** What a request does to a log of at most one stamp: it replaces an expired one by a grant, or leaves the log alone. */
  ghost predicate SingleMove(c: Ceilings, r: Request, scope: Scope, allow: bool, l: seq<nat>, l': seq<nat>) {
    if allow && InScope(scope, r) then l' == [r.at] && (l == [] || l[0] <= r.at - c.window)
    else l' == l
  }

  lemma PruneSingle(l: seq<nat>, x: int)
    requires |l| <= 1
    ensures Retain(l, x) == if l == [] || l[0] <= x then [] else l
  {
    if l != [] { assert l == [l[0]]; RetainOne(l[0], x); }
  }

  lemma SingleIdentityMoves(c: Ceilings, log: Log, r: Request, scope: Scope)
    requires scope.Identity? && One(c, scope) && |Bucket(log, scope.id)| <= 1
    ensures SingleMove(c, r, scope, Check(c, log, r.identity, r.at).1.Allow?,
                       LogOf(log, scope), LogOf(Check(c, log, r.identity, r.at).0, scope))
  {
    PruneIsRetain(c, Bucket(log, r.identity), r.at);
    if InScope(scope, r) { PruneSingle(Bucket(log, r.identity), r.at - c.window); }
  }

  /** With a global ceiling of one, an identity's own bucket never stands in the way. */
  lemma SingleGlobalMoves(c: Ceilings, log: Log, r: Request)
    requires One(c, Everyone) && |log.global| <= 1
    requires Retain(log.global, r.at - c.window) == [] ==> Retain(Bucket(log, r.identity), r.at - c.window) == []
    ensures SingleMove(c, r, Everyone, Check(c, log, r.identity, r.at).1.Allow?,
                       log.global, Check(c, log, r.identity, r.at).0.global)
  {
    PruneIsRetain(c, log.global, r.at);
    PruneIsRetain(c, Bucket(log, r.identity), r.at);
    PruneSingle(log.global, r.at - c.window);
  }

  lemma BucketIsEmpty(c: Ceilings, reqs: seq<Request>, id: Text, x: int)
    requires Single(Serve(c, reqs).0.global, Serve(c, reqs).1, Everyone)
    ensures Retain(Serve(c, reqs).0.global, x) == [] ==> Retain(Bucket(Serve(c, reqs).0, id), x) == []
  {
    var l, granted := Serve(c, reqs).0.global, Serve(c, reqs).1;
    PruneSingle(l, x);
    if Retain(l, x) == [] {
      NoneAfter(granted, Everyone, if l == [] then -1 else l[0], x);
      LogsAreGrants(c, reqs, Identity(id), x);
      ScopeWithin(granted, Identity(id), x, x);
    }
  }

  lemma LastMoves(c: Ceilings, before: seq<Request>, r: Request, scope: Scope) returns (allow: bool)
    requires One(c, scope) && Single(LogOf(Serve(c, before).0, scope), Serve(c, before).1, scope)
    ensures SingleMove(c, r, scope, allow, LogOf(Serve(c, before).0, scope), LogOf(Serve(c, before + [r]).0, scope))
    ensures Serve(c, before + [r]).1 == if allow then Serve(c, before).1 + [r] else Serve(c, before).1
  {
    var log := Serve(c, before).0;
    ServeSnoc(c, before, r);
    allow := Check(c, log, r.identity, r.at).1.Allow?;
    if scope.Identity? {
      SingleIdentityMoves(c, log, r, scope);
    } else {
      BucketIsEmpty(c, before, r.identity, r.at - c.window);
      SingleGlobalMoves(c, log, r);
    }
  }

  lemma SingleKept(c: Ceilings, r: Request, scope: Scope, allow: bool, l: seq<nat>, l': seq<nat>, granted: seq<Request>, x: int)
    requires Single(l, granted, scope) && SingleMove(c, r, scope, allow, l, l')
    requires CountIn(granted, scope, x, x + c.window) <= 1
    ensures var granted' := if allow then granted + [r] else granted;
      Single(l', granted', scope) && CountIn(granted', scope, x, x + c.window) <= 1
  {
    var t := if l == [] then -1 else l[0];
    CountSnoc(granted, r, scope, x, x + c.window);
    CountSnoc(granted, r, scope, if l' == [] then -1 else l'[0], x);
    if allow && InScope(scope, r) {
      NoneAfter(granted, scope, t, r.at);
      if x < r.at <= x + c.window {
        NoneAfter(granted, scope, t, x);
        CountInBelow(granted, scope, x, x, x + c.window);
      }
    }
  }

  /** In any order of arrival, a ceiling of one keeps every two grants a window apart. */
  lemma {:induction false} OneAtATime(c: Ceilings, reqs: seq<Request>, scope: Scope, x: int)
    requires One(c, scope)
    ensures Single(LogOf(Serve(c, reqs).0, scope), Serve(c, reqs).1, scope)
    ensures CountIn(Serve(c, reqs).1, scope, x, x + c.window) <= 1
  {
    if reqs != [] {
      var before, r := reqs[..|reqs| - 1], reqs[|reqs| - 1];
      assert reqs == before + [r];
      OneAtATime(c, before, scope, x);
      var allow := LastMoves(c, before, r, scope);
      SingleKept(c, r, scope, allow, LogOf(Serve(c, before).0, scope), LogOf(Serve(c, reqs).0, scope), Serve(c, before).1, x);
    }
  }

  lemma {:induction false} ZeroGrantsNothing(c: Ceilings, reqs: seq<Request>)
    requires c.identityMax == 0 || c.globalMax == 0
    ensures Serve(c, reqs).1 == []
  {
    if reqs != [] { ZeroGrantsNothing(c, reqs[..|reqs| - 1]); }
  }

  /** The grants in scope in the window that starts after `x`. */
  function WindowCount(c: Ceilings, reqs: seq<Request>, scope: Scope, x: int): nat {
    CountIn(Serve(c, reqs).1, scope, x, x + c.window)
  }

  lemma SmallestHoldsInAnyOrder(c: Ceilings, reqs: seq<Request>, scope: Scope, x: int)
    requires !Exposed(c, scope)
    ensures WindowCount(c, reqs, scope, x) <= Bound(c, scope)
  {
    if c.identityMax == 0 || c.globalMax == 0 {
      ZeroGrantsNothing(c, reqs);
    } else if c.globalMax == 1 {
      OneAtATime(c, reqs, Everyone, x);
      ScopeWithin(Serve(c, reqs).1, scope, x, x + c.window);
    } else {
      OneAtATime(c, reqs, scope, x);
    }
  }

  /**
   Order matters exactly under all ceilings but the smallest: the windows of a
   scope are bounded in every arrival order if and only if the ceilings leave it
   at most one grant a window.
   */
  lemma OrderMatters(c: Ceilings, scope: Scope)
    requires c.window >= 1
    ensures (forall reqs, x :: WindowCount(c, reqs, scope, x) <= Max(c, scope)) <==> !Exposed(c, scope)
  {
    if Exposed(c, scope) {
      var reqs := TooMany(c, scope);
      assert WindowCount(c, reqs, scope, 0 - c.window) > Max(c, scope);
    } else {
      forall reqs, x ensures WindowCount(c, reqs, scope, x) <= Max(c, scope) {
        SmallestHoldsInAnyOrder(c, reqs, scope, x);
      }
    }
  }

  lemma TooMany(c: Ceilings, scope: Scope) returns (reqs: seq<Request>)
    requires c.window >= 1 && Exposed(c, scope)
    ensures WindowCount(c, reqs, scope, 0 - c.window) == Max(c, scope) + 1
  {
    var host, ids := SomeGuests(scope, Max(c, scope) + 1);
    reqs := StaleGrantsKnowNoCeiling(c, scope, host, 1, ids, 0);
  }

  lemma SomeGuests(scope: Scope, n: nat) returns (host: Text, ids: seq<Text>)
    ensures Guests(scope, host, ids) && |ids| == n
  {
    if scope.Everyone? {
      host := [];
      ids := SomeNames(n);
    } else {
      host, ids := scope.id, seq(n, _ => scope.id);
    }
  }

  // ----- whether pruning can change a decision

  ghost predicate SameDecision(c: Ceilings, reqs: seq<Request>, r: Request) {
    Check(c, Serve(c, reqs).0, r.identity, r.at).1 == Decide(c, Serve(c, reqs).1, r)
  }

  lemma SingleDecision(c: Ceilings, log: Log, granted: seq<Request>, r: Request)
    requires One(c, Everyone) && Single(log.global, granted, Everyone)
    requires |Retain(log.global, r.at - c.window)| <= CountAfter(granted, Everyone, r.at - c.window)
    requires Retain(log.global, r.at - c.window) == [] ==> Retain(Bucket(log, r.identity), r.at - c.window) == []
    ensures Check(c, log, r.identity, r.at).1 == Decide(c, granted, r)
  {
    var l, x := log.global, r.at - c.window;
    PruneIsRetain(c, l, r.at);
    PruneIsRetain(c, Bucket(log, r.identity), r.at);
    PruneSingle(l, x);
    if Retain(l, x) == [] {
      NoneAfter(granted, Everyone, if l == [] then -1 else l[0], x);
      ScopeWithin(granted, Identity(r.identity), x, x);
    }
  }

  lemma SmallestDecidesInAnyOrder(c: Ceilings, reqs: seq<Request>, r: Request)
    requires !Exposed(c, Everyone)
    ensures SameDecision(c, reqs, r)
  {
    var log, granted, x := Serve(c, reqs).0, Serve(c, reqs).1, r.at - c.window;
    LogsAreGrants(c, reqs, Everyone, x);
    if c.identityMax == 0 || c.globalMax == 0 {
      ZeroGrantsNothing(c, reqs);
      ZeroDecision(c, log, r);
    } else {
      OneAtATime(c, reqs, Everyone, x);
      BucketIsEmpty(c, reqs, r.identity, x);
      SingleDecision(c, log, granted, r);
    }
  }

  lemma ZeroDecision(c: Ceilings, log: Log, r: Request)
    requires (c.identityMax == 0 || c.globalMax == 0) && Retain(log.global, r.at - c.window) == []
    ensures Check(c, log, r.identity, r.at).1 == Decide(c, [], r)
  {
    PruneIsRetain(c, log.global, r.at);
  }

  /** The pruned limiter answers every request after every history as the full history would, if and only if order does not matter overall. */
  lemma PruningMatters(c: Ceilings)
    ensures (forall reqs, r :: SameDecision(c, reqs, r)) <==> !Exposed(c, Everyone)
  {
    if Exposed(c, Everyone) {
      var reqs, r := StaleDecisionDiffers(c, c.window + 1, 0);
      assert !SameDecision(c, reqs, r);
    } else {
      forall reqs, r ensures SameDecision(c, reqs, r) {
        SmallestDecidesInAnyOrder(c, reqs, r);
      }
    }
  }
}
