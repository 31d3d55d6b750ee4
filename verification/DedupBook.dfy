/**
 What the dedup ledger means: a plain map from value to its entry, on which
 each call has the same effect and the same answer as on the table; and what
 an account merge can rely on when it repeats or reverses a batch.
 */
module DedupBook {
  import opened Bytes
  import opened Sets
  import opened DedupLedger

  // ----- the reassign batch undoes and repeats as an account merge needs

  lemma ListedIsAcceptable(t: Table, refs: seq<Text>, from: Text, to: Text)
    requires AllAcceptable(t, refs, from, to)
    ensures forall ref :: ref in refs ==> Acceptable(t, ref, from, to)
  {
    forall ref | ref in refs ensures Acceptable(t, ref, from, to) {
      var i :| 0 <= i < |refs| && refs[i] == ref;
    }
  }

  /** A retry of a batch that went through moves nothing and changes nothing. */
  lemma ReassignRetry(t: Table, refs: seq<Text>, from: Text, to: Text)
    requires from != to && DedupLedger.Reassign(t, refs, from, to).1.Moved?
    ensures var t' := DedupLedger.Reassign(t, refs, from, to).0;
      DedupLedger.Reassign(t', refs, from, to) == (t', Moved(0))
  {
    var t' := DedupLedger.Reassign(t, refs, from, to).0;
    ListedIsAcceptable(t, refs, from, to);
    assert OwnedBy(t', refs, from) == {};
    assert Retag(t', refs, to) == t';
  }

  lemma {:induction false} SubsetEqual(a: set<Text>, b: set<Text>)
    requires a <= b
    ensures |a| <= |b| && (|a| == |b| ==> a == b)
  {
    if x :| x in a {
      SubsetEqual(a - {x}, b - {x});
      assert a - {x} == b - {x} ==> a == b;
    }
  }

  /**
   The reverse merge always goes through and moves every distinct ref; it
   restores the original ledger exactly when the forward merge had moved every
   distinct ref too.
   */
  lemma ReassignReverse(t: Table, refs: seq<Text>, from: Text, to: Text)
    requires from != to && DedupLedger.Reassign(t, refs, from, to).1.Moved?
    ensures var (t', r) := DedupLedger.Reassign(t, refs, from, to);
      && DedupLedger.Reassign(t', refs, to, from).1 == Moved(|Distinct(refs)|)
      && (DedupLedger.Reassign(t', refs, to, from).0 == t <==> r.moved == |Distinct(refs)|)
  {
    var (t', r) := DedupLedger.Reassign(t, refs, from, to);
    ListedIsAcceptable(t, refs, from, to);
    assert OwnedBy(t', refs, to) == Distinct(refs);
    var t'' := Retag(t', refs, from);
    var owned := OwnedBy(t, refs, from);
    SubsetEqual(owned, Distinct(refs));
    if owned == Distinct(refs) {
      forall ref | ref in t ensures t''[ref] == t[ref] {
        assert ref in refs ==> ref in owned;
      }
      assert t'' == t;
    } else {
      var ref :| ref in Distinct(refs) && ref !in owned;
      assert t''[ref].owner == from != t[ref].owner;
    }
  }

  // ----- the plain map

  datatype Entry = Entry(ref: Text, owner: Text, badge: Text)
  type Book = map<Text, Entry>

  function Values(t: Table): set<Text> {
    set ref | ref in t :: t[ref].value
  }

  /** `b` lists each row once, under its value. */
  ghost predicate Lists(b: Book, t: Table) {
    && (forall ref :: ref in t ==> t[ref].value in b && b[t[ref].value] == Entry(ref, t[ref].owner, t[ref].badge))
    && (forall v :: v in b ==> b[v].ref in t && t[b[v].ref] == Row(v, b[v].owner, b[v].badge))
  }

  function BookOf(t: Table): Book
    requires Unique(t)
  {
    map v | v in Values(t) :: var ref := RefOf(t, v); Entry(ref, t[ref].owner, t[ref].badge)
  }

  /** Every table that keeps UNIQUE(value) has a book. */
  lemma BookLists(t: Table)
    requires Unique(t)
    ensures Lists(BookOf(t), t)
  {
  }

  /** Listing is one to one: a table has one book and a book one table. */
  lemma ListsIsBijective(b1: Book, t1: Table, b2: Book, t2: Table)
    requires Lists(b1, t1) && Lists(b2, t2)
    ensures b1 == b2 <==> t1 == t2
  {
    if b1 == b2 {
      forall ref | ref in t1 ensures ref in t2 && t2[ref] == t1[ref] { assert b1[t1[ref].value].ref == ref; }
      forall ref | ref in t2 ensures ref in t1 { assert b1[t2[ref].value].ref == ref; }
    }
    if t1 == t2 {
      forall v | v in b1 ensures v in b2 && b2[v] == b1[v] { assert t1[b1[v].ref].value == v; }
      forall v | v in b2 ensures v in b1 { assert t1[b2[v].ref].value == v; }
    }
  }

  predicate RefUsed(b: Book, ref: Text) {
    exists v :: v in b && b[v].ref == ref
  }

  function BookRegister(b: Book, ref: Text, value: Text, owner: Text, badge: Text): (Book, Registered) {
    if value in b then (b, if b[value].owner == owner then AlreadyYours(b[value].ref) else Taken)
    else if RefUsed(b, ref) then (b, RefCollision)
    else (b[value := Entry(ref, owner, badge)], Fresh(ref))
  }

  predicate HeldBy(b: Book, ref: Text, owner: Text) {
    exists v :: v in b && b[v].ref == ref && b[v].owner == owner
  }

  function BookRelease(b: Book, ref: Text, owner: Text): (Book, Released) {
    if !RefUsed(b, ref) then (b, NothingToRelease)
    else if !HeldBy(b, ref, owner) then (b, NotTheOwner)
    else (map v | v in b && b[v].ref != ref :: b[v], Released)
  }

  predicate HeldByEither(b: Book, ref: Text, from: Text, to: Text) {
    HeldBy(b, ref, from) || HeldBy(b, ref, to)
  }

  function BookRetag(b: Book, refs: seq<Text>, to: Text): Book {
    map v | v in b :: if b[v].ref in refs then b[v].(owner := to) else b[v]
  }

  /** The values listed for the batch that are the source's. */
  function BookOwned(b: Book, refs: seq<Text>, from: Text): set<Text> {
    set v | v in b && b[v].ref in refs && b[v].owner == from
  }

  /** The verdict on the first ref neither side holds. */
  function BookRefusal(b: Book, refs: seq<Text>, from: Text, to: Text): Reassigned {
    if refs == [] then NotFound
    else if HeldByEither(b, refs[0], from, to) then BookRefusal(b, refs[1..], from, to)
    else if RefUsed(b, refs[0]) then OwnerMismatch else NotFound
  }

  /** All listed values change hands or none does; the count is of values that did. */
  function BookReassign(b: Book, refs: seq<Text>, from: Text, to: Text): (Book, Reassigned) {
    if forall i :: 0 <= i < |refs| ==> HeldByEither(b, refs[i], from, to) then
      (BookRetag(b, refs, to), Moved(if from == to then |refs| else |BookOwned(b, refs, from)|))
    else (b, BookRefusal(b, refs, from, to))
  }

  lemma FreshLists(b: Book, t: Table, ref: Text, value: Text, owner: Text, badge: Text)
    requires Lists(b, t) && ref !in t && !HasValue(t, value)
    ensures Lists(b[value := Entry(ref, owner, badge)], t[ref := Row(value, owner, badge)])
  {
  }

  lemma RetagLists(b: Book, t: Table, refs: seq<Text>, to: Text)
    requires Lists(b, t)
    ensures Lists(BookRetag(b, refs, to), Retag(t, refs, to))
  {
  }

  lemma RegisterRefines(b: Book, t: Table, ref: Text, value: Text, owner: Text, badge: Text)
    requires Unique(t) && Lists(b, t)
    ensures Lists(BookRegister(b, ref, value, owner, badge).0, DedupLedger.Register(t, ref, value, owner, badge).0)
    ensures BookRegister(b, ref, value, owner, badge).1 == DedupLedger.Register(t, ref, value, owner, badge).1
  {
    if HasValue(t, value) {
      assert b[t[RefOf(t, value)].value].ref == RefOf(t, value);
    } else if ref in t {
      assert b[t[ref].value].ref == ref;
    } else {
      FreshLists(b, t, ref, value, owner, badge);
      assert value !in b && !RefUsed(b, ref);
    }
  }

  lemma HeldInBook(b: Book, t: Table, ref: Text, owner: Text)
    requires Lists(b, t)
    ensures HeldBy(b, ref, owner) <==> ref in t && t[ref].owner == owner
    ensures RefUsed(b, ref) <==> ref in t
  {
    if ref in t { assert b[t[ref].value].ref == ref; }
  }

  lemma RemoveLists(b: Book, t: Table, ref: Text)
    requires Lists(b, t)
    ensures Lists(map v | v in b && b[v].ref != ref :: b[v], t - {ref})
  {
  }

  lemma ReleaseRefines(b: Book, t: Table, ref: Text, owner: Text)
    requires Lists(b, t)
    ensures Lists(BookRelease(b, ref, owner).0, DedupLedger.Release(t, ref, owner).0)
    ensures BookRelease(b, ref, owner).1 == DedupLedger.Release(t, ref, owner).1
  {
    HeldInBook(b, t, ref, owner);
    RemoveLists(b, t, ref);
  }

  lemma AcceptableInBook(b: Book, t: Table, ref: Text, from: Text, to: Text)
    requires Lists(b, t)
    ensures Acceptable(t, ref, from, to) <==> HeldByEither(b, ref, from, to)
  {
    HeldInBook(b, t, ref, from);
    HeldInBook(b, t, ref, to);
  }

  lemma {:induction false} RefusalRefines(b: Book, t: Table, refs: seq<Text>, from: Text, to: Text)
    requires Lists(b, t)
    ensures BookRefusal(b, refs, from, to) == Refusal(t, refs, from, to)
  {
    if refs != [] {
      AcceptableInBook(b, t, refs[0], from, to);
      HeldInBook(b, t, refs[0], from);
      RefusalRefines(b, t, refs[1..], from, to);
    }
  }

  /** Values of the source in the map and refs of the source in the table are equally many. */
  lemma CountRefines(b: Book, t: Table, refs: seq<Text>, from: Text)
    requires Lists(b, t)
    ensures |BookOwned(b, refs, from)| == |OwnedBy(t, refs, from)|
  {
    var rows, values := OwnedBy(t, refs, from), BookOwned(b, refs, from);
    var f := (ref: Text) => if ref in t then t[ref].value else [];
    forall v | v in values ensures b[v].ref in rows && f(b[v].ref) == v {}
    BijectionSize(rows, values, f);
  }

  lemma ReassignRefines(b: Book, t: Table, refs: seq<Text>, from: Text, to: Text)
    requires Lists(b, t)
    ensures Lists(BookReassign(b, refs, from, to).0, DedupLedger.Reassign(t, refs, from, to).0)
    ensures BookReassign(b, refs, from, to).1 == DedupLedger.Reassign(t, refs, from, to).1
  {
    forall i | 0 <= i < |refs| ensures Acceptable(t, refs[i], from, to) <==> HeldByEither(b, refs[i], from, to) {
      AcceptableInBook(b, t, refs[i], from, to);
    }
    RetagLists(b, t, refs, to);
    RefusalRefines(b, t, refs, from, to);
    CountRefines(b, t, refs, from);
  }
}
