/**
 The credential dedup ledger (src/db.rs, `dedup_entries`): rows keyed by an
 opaque ref, with a second unique column that holds the PRF value. The simple
 form it refines is a plain map from value to (ref, owner, badge).
 */
module DedupLedger {
  import opened Bytes
  import opened Wrappers

  datatype Row = Row(value: Text, owner: Text, badge: Text)

  /** The table by primary key `entry_ref`. */
  type Table = map<Text, Row>

  datatype Registered = Fresh(entryRef: Text) | AlreadyYours(entryRef: Text) | Taken | RefCollision
  datatype Released = Released | NothingToRelease | NotTheOwner
  datatype Reassigned = Moved(moved: nat) | NotFound | OwnerMismatch | DbError

  predicate HasValue(t: Table, value: Text) {
    exists ref :: ref in t && t[ref].value == value
  }

  /** UNIQUE(value). */
  ghost predicate Unique(t: Table) {
    forall r1, r2 :: r1 in t && r2 in t && t[r1].value == t[r2].value ==> r1 == r2
  }

  // ----- the calls as functions of the table

  function RefOf(t: Table, value: Text): (ref: Text)
    requires Unique(t) && HasValue(t, value)
    ensures ref in t && t[ref].value == value
  {
    var ref :| ref in t && t[ref].value == value;
    ref
  }

  function Register(t: Table, ref: Text, value: Text, owner: Text, badge: Text): (Table, Registered)
    requires Unique(t)
  {
    if HasValue(t, value) then
      var existing := RefOf(t, value);
      (t, if t[existing].owner == owner then AlreadyYours(existing) else Taken)
    else if ref in t then (t, RefCollision)
    else (t[ref := Row(value, owner, badge)], Fresh(ref))
  }

  function Release(t: Table, ref: Text, owner: Text): (Table, Released) {
    if ref !in t then (t, NothingToRelease)
    else if t[ref].owner != owner then (t, NotTheOwner)
    else (t - {ref}, Released)
  }

  /** A listed ref the batch accepts: it exists and belongs to the source or already to the target. */
  predicate Acceptable(t: Table, ref: Text, from: Text, to: Text) {
    ref in t && (t[ref].owner == from || t[ref].owner == to)
  }

  predicate AllAcceptable(t: Table, refs: seq<Text>, from: Text, to: Text) {
    forall i :: 0 <= i < |refs| ==> Acceptable(t, refs[i], from, to)
  }

  /** Give every listed ref to `to`. */
  function Retag(t: Table, refs: seq<Text>, to: Text): Table {
    map ref | ref in t :: if ref in refs then t[ref].(owner := to) else t[ref]
  }

  /** The distinct listed refs that `from` owns. */
  function OwnedBy(t: Table, refs: seq<Text>, from: Text): set<Text> {
    set ref | ref in refs && ref in t && t[ref].owner == from
  }

  function Distinct(refs: seq<Text>): set<Text> {
    set ref | ref in refs
  }

  /** A repeated ref moves once, unless source and target coincide: then every listed ref is counted. */
  function CountMoved(t: Table, refs: seq<Text>, from: Text, to: Text): nat {
    if from == to then |refs| else |OwnedBy(t, refs, from)|
  }

  /** The verdict on the first ref that is not acceptable. */
  function Refusal(t: Table, refs: seq<Text>, from: Text, to: Text): (r: Reassigned)
    ensures r.NotFound? || r.OwnerMismatch?
  {
    if refs == [] then NotFound
    else if Acceptable(t, refs[0], from, to) then Refusal(t, refs[1..], from, to)
    else if refs[0] in t then OwnerMismatch else NotFound
  }

  function Reassign(t: Table, refs: seq<Text>, from: Text, to: Text): (Table, Reassigned) {
    if AllAcceptable(t, refs, from, to) then (Retag(t, refs, to), Moved(CountMoved(t, refs, from, to)))
    else (t, Refusal(t, refs, from, to))
  }

  class DedupTable {
    var rows: Table

    constructor ()
      ensures rows == map[] && Unique(rows)
    {
      rows := map[];
    }

    /** INSERT first; on a constraint violation the existing row, if any, decides the answer. */
    method RegisterDedup(ref: Text, value: Text, owner: Text, badge: Text) returns (r: Registered)
      requires Unique(rows)
      modifies this
      ensures Unique(rows)
      ensures (rows, r) == Register(old(rows), ref, value, owner, badge)
    {
      if ref !in rows && !HasValue(rows, value) {
        rows := rows[ref := Row(value, owner, badge)];
        return Fresh(ref);
      }
      if !HasValue(rows, value) { return RefCollision; }
      var existing := RefOf(rows, value);
      if rows[existing].owner == owner { return AlreadyYours(existing); }
      return Taken;
    }

    method ReleaseDedup(ref: Text, owner: Text) returns (r: Released)
      requires Unique(rows)
      modifies this
      ensures Unique(rows)
      ensures (rows, r) == Release(old(rows), ref, owner)
    {
      if ref !in rows { return NothingToRelease; }
      if rows[ref].owner != owner { return NotTheOwner; }
      rows := rows - {ref};
      return Released;
    }

    /**
     All or nothing over a list that may repeat refs; `failAt` is the index at
     which the database fails (`|refs|` is the commit).
     */
    method ReassignDedup(refs: seq<Text>, from: Text, to: Text, failAt: Option<nat>) returns (r: Reassigned)
      requires Unique(rows)
      modifies this
      ensures Unique(rows)
      ensures (rows, r) == Reassign(old(rows), refs, from, to) || (failAt.Some? && rows == old(rows) && r == DbError)
    {
      var tx := rows;
      var moved := 0;
      var i := 0;
      while i < |refs|
        invariant 0 <= i <= |refs| && rows == old(rows)
        invariant Progress(rows, refs, i, from, to, tx, moved)
      {
        var ref := refs[i];
        if failAt == Some(i) { return DbError; }
        if Acceptable(rows, ref, from, to) { Advance(rows, refs, i, from, to, tx, moved); }
        else { Refuse(rows, refs, i, from, to, tx, moved); }
        if ref !in tx { return NotFound; }
        if tx[ref].owner == from {
          tx := tx[ref := tx[ref].(owner := to)];
          moved := moved + 1;
        } else if tx[ref].owner == to {
        } else {
          return OwnerMismatch;
        }
        i := i + 1;
      }
      assert refs[..|refs|] == refs;
      if failAt == Some(|refs|) { return DbError; }
      rows := tx;
      return Moved(moved);
    }
  }

  /** The transaction after `i` refs: all of them acceptable, retagged and counted. */
  ghost predicate Progress(t: Table, refs: seq<Text>, i: nat, from: Text, to: Text, tx: Table, moved: nat) {
    && i <= |refs|
    && AllAcceptable(t, refs[..i], from, to)
    && tx == Retag(t, refs[..i], to)
    && moved == CountMoved(t, refs[..i], from, to)
  }

  lemma Advance(t: Table, refs: seq<Text>, i: nat, from: Text, to: Text, tx: Table, moved: nat)
    requires i < |refs| && Progress(t, refs, i, from, to, tx, moved) && Acceptable(t, refs[i], from, to)
    ensures refs[i] in tx && (tx[refs[i]].owner == from || tx[refs[i]].owner == to)
    ensures tx[refs[i]].owner == from ==> Progress(t, refs, i + 1, from, to, tx[refs[i] := tx[refs[i]].(owner := to)], moved + 1)
    ensures tx[refs[i]].owner != from ==> Progress(t, refs, i + 1, from, to, tx, moved)
  {
    var ref := refs[i];
    assert refs[..i + 1] == refs[..i] + [ref];
    RetagSnoc(t, refs[..i], ref, to);
    OwnedBySnoc(t, refs[..i], ref, from);
    assert ref in refs[..i] ==> tx[ref] == t[ref].(owner := to);
    assert tx[ref].owner != from ==> tx[ref := t[ref].(owner := to)] == tx;
  }

  lemma Refuse(t: Table, refs: seq<Text>, i: nat, from: Text, to: Text, tx: Table, moved: nat)
    requires i < |refs| && Progress(t, refs, i, from, to, tx, moved) && !Acceptable(t, refs[i], from, to)
    ensures Reassign(t, refs, from, to) == (t, if refs[i] in tx then OwnerMismatch else NotFound)
    ensures refs[i] in tx ==> tx[refs[i]].owner != from && tx[refs[i]].owner != to
  {
    FirstRefusal(t, refs, i, from, to);
    assert refs[i] !in refs[..i];
  }

  lemma {:induction false} FirstRefusal(t: Table, refs: seq<Text>, i: nat, from: Text, to: Text)
    requires i < |refs| && AllAcceptable(t, refs[..i], from, to) && !Acceptable(t, refs[i], from, to)
    ensures Refusal(t, refs, from, to) == if refs[i] in t then OwnerMismatch else NotFound
  {
    if i > 0 {
      assert refs[..i][0] == refs[0];
      assert refs[1..][..i - 1] == refs[..i][1..];
      FirstRefusal(t, refs[1..], i - 1, from, to);
    }
  }

  lemma RetagSnoc(t: Table, refs: seq<Text>, ref: Text, to: Text)
    requires ref in t
    ensures Retag(t, refs + [ref], to) == Retag(t, refs, to)[ref := t[ref].(owner := to)]
  {
  }

  lemma OwnedBySnoc(t: Table, refs: seq<Text>, ref: Text, from: Text)
    ensures |OwnedBy(t, refs + [ref], from)| ==
            |OwnedBy(t, refs, from)| + if ref in t && t[ref].owner == from && ref !in refs then 1 else 0
  {
    if ref in t && t[ref].owner == from && ref !in refs {
      assert OwnedBy(t, refs + [ref], from) == OwnedBy(t, refs, from) + {ref};
    } else {
      assert OwnedBy(t, refs + [ref], from) == OwnedBy(t, refs, from);
    }
  }
}
