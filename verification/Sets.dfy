/** Counting facts about finite sets. */
module Sets {
  lemma {:induction false} SubsetSize<T>(a: set<T>, b: set<T>)
    requires a <= b
    ensures |a| <= |b|
  {
    if a != {} {
      var x :| x in a;
      SubsetSize(a - {x}, b - {x});
    }
  }

  /** Two sets that a function maps one to one have the same size. */
  lemma {:induction false} BijectionSize<A, B>(a: set<A>, b: set<B>, f: A -> B)
    requires forall x :: x in a ==> f(x) in b
    requires forall x, y :: x in a && y in a && f(x) == f(y) ==> x == y
    requires forall z :: z in b ==> exists x :: x in a && f(x) == z
    ensures |a| == |b|
  {
    if a == {} {
      assert b == {};
    } else {
      var x :| x in a;
      BijectionSize(a - {x}, b - {f(x)}, f);
    }
  }

  /** Two sets that agree everywhere but at `x` differ in size by what happens at `x`. */
  lemma SizeAfter<T>(a: set<T>, b: set<T>, x: T)
    requires forall y :: y != x ==> (y in a <==> y in b)
    ensures x in a && x !in b ==> |b| == |a| - 1
    ensures x !in a && x in b ==> |b| == |a| + 1
    ensures (x in a <==> x in b) ==> a == b
  {
    if x in a && x !in b {
      assert b == a - {x};
    } else if x !in a && x in b {
      assert b == a + {x};
    }
  }
}
