/**
 The `group_keys` table (src/db.rs): insert-then-reseal and rotate, each inside
 one transaction, with every statement and the sealing step able to fail.
 */
module KeyRows {
  import opened Bytes
  import opened Wrappers
  import opened Keystore

  datatype KeyRow = KeyRow(groupId: Text, spki: Text, sealed: seq<byte>, retired: bool)

  /** Rows by AUTOINCREMENT id; `lastId` is the sequence counter, which a rollback restores. */
  datatype Table = Table(rows: map<int, KeyRow>, lastId: int)

  predicate ActiveRow(t: Table, g: Text, id: int) {
    id in t.rows && t.rows[id].groupId == g && !t.rows[id].retired
  }

  predicate HasActive(t: Table, g: Text) {
    exists id :: id in t.rows && ActiveRow(t, g, id)
  }

  /** What the schema and the sequence counter keep: one active row a group, ids in 1..lastId. */
  ghost predicate WellFormed(t: Table) {
    && (forall id :: id in t.rows ==> 1 <= id <= t.lastId && IsI64(id))
    && (forall g, a, b :: ActiveRow(t, g, a) && ActiveRow(t, g, b) ==> a == b)
    && t.lastId >= 0
  }

  /** UPDATE group_keys SET retired_at = now WHERE group_id = g AND retired_at IS NULL. */
  function Retire(t: Table, g: Text): Table {
    t.(rows := map id | id in t.rows :: if t.rows[id].groupId == g then t.rows[id].(retired := true) else t.rows[id])
  }

  /** The outcome of one keyed transaction: committed with a new id, or rolled back. */
  function Inserted(t: Table, g: Text, spki: Text, seal: int -> Option<seq<byte>>): Option<Table> {
    var id := t.lastId + 1;
    if !IsI64(id) || HasActive(t, g) || id < 1 || seal(id).None? then None
    else Some(Table(t.rows[id := KeyRow(g, spki, seal(id).value, false)], id))
  }

  /** `insert_key_sealed` and `rotate_key_sealed` over the class state; `faultAt` is the statement SQLite fails, if any. */
  class KeyTable {
    var rows: map<int, KeyRow>
    var lastId: int

    function Value(): Table
      reads this
    {
      Table(rows, lastId)
    }

    constructor ()
      ensures Value() == Table(map[], 0)
    {
      rows, lastId := map[], 0;
    }

    /** Works on the transaction's own copy; the caller commits it or drops it. */
    static method InsertActiveKeyResealed(tx: Table, g: Text, spki: Text, seal: int -> Option<seq<byte>>, faultAt: Option<nat>)
      returns (tx': Table, r: Option<int>)
      ensures r.Some? <==>
        && faultAt !in {Some(1), Some(2)} && !HasActive(tx, g)
        && tx.lastId >= 0 && IsI64(tx.lastId + 1) && seal(tx.lastId + 1).Some?
      ensures r.Some? ==> r.value == tx.lastId + 1 == tx'.lastId && tx'.rows == tx.rows[r.value := KeyRow(g, spki, seal(r.value).value, false)]
      ensures r.Some? ==> Inserted(tx, g, spki, seal) == Some(tx')
      ensures r.None? <==> faultAt in {Some(1), Some(2)} || Inserted(tx, g, spki, seal).None?
    {
      tx' := tx;
      if faultAt == Some(1) || HasActive(tx, g) || !IsI64(tx.lastId + 1) { return tx', None; }
      var id := tx.lastId + 1;
      tx' := Table(tx.rows[id := KeyRow(g, spki, [], false)], id);
      if id < 1 { return tx', None; }
      var sealed := seal(id);
      if sealed.None? { return tx', None; }
      if faultAt == Some(2) { return tx', None; }
      tx' := tx'.(rows := tx'.rows[id := tx'.rows[id].(sealed := sealed.value)]);
      assert tx'.rows == tx.rows[id := KeyRow(g, spki, sealed.value, false)];
      return tx', Some(id);
    }

    method InsertKeySealed(g: Text, spki: Text, seal: int -> Option<seq<byte>>, faultAt: Option<nat>) returns (r: Option<int>)
      modifies this
      ensures r.Some? <==>
        && faultAt !in {Some(1), Some(2), Some(3)} && !HasActive(old(Value()), g)
        && old(lastId) >= 0 && IsI64(old(lastId) + 1) && seal(old(lastId) + 1).Some?
      ensures (Value(), r) == Commit(old(Value()), faultAt in {Some(1), Some(2), Some(3)}, Inserted(old(Value()), g, spki, seal))
    {
      var tx := Table(rows, lastId);
      tx, r := InsertActiveKeyResealed(tx, g, spki, seal, faultAt);
      if r.None? { return; }
      if faultAt == Some(3) { return None; }
      rows, lastId := tx.rows, tx.lastId;
    }

    method RotateKeySealed(g: Text, spki: Text, seal: int -> Option<seq<byte>>, faultAt: Option<nat>) returns (r: Option<int>)
      modifies this
      ensures r.Some? <==>
        && faultAt !in {Some(0), Some(1), Some(2), Some(3)}
        && old(lastId) >= 0 && IsI64(old(lastId) + 1) && seal(old(lastId) + 1).Some?
      ensures (Value(), r) == Commit(old(Value()), faultAt in {Some(0), Some(1), Some(2), Some(3)},
                                     Inserted(Retire(old(Value()), g), g, spki, seal))
    {
      var tx := Table(rows, lastId);
      if faultAt == Some(0) { return None; }
      tx := Retire(tx, g);
      tx, r := InsertActiveKeyResealed(tx, g, spki, seal, faultAt);
      if r.None? { return; }
      if faultAt == Some(3) { return None; }
      rows, lastId := tx.rows, tx.lastId;
    }
  }

  /** All or nothing: the new table and its id, or the table the transaction began from. */
  function Commit(before: Table, fault: bool, attempt: Option<Table>): (Table, Option<int>) {
    if fault || attempt.None? then (before, None) else (attempt.value, Some(attempt.value.lastId))
  }

  /** The process-wide AEAD and key-encryption key. */
  datatype Vault = Vault(aead: Aead, kek: seq<byte>)

  /** One call of `create_key` or `rotate_key`, with the material keygen produced and where the database fails. */
  datatype Op =
    | Create(groupId: Text, spki: Text, pkcs8: seq<byte>, nonce: seq<byte>, fault: bool)
    | Rotate(groupId: Text, spki: Text, pkcs8: seq<byte>, nonce: seq<byte>, fault: bool)

  function SealFor(v: Vault, op: Op): int -> Option<seq<byte>> {
    (id: int) => if IsI64(id) && |op.nonce| == NONCE_LEN then Seal(v.aead, v.kek, op.nonce, op.groupId, id, op.pkcs8) else None
  }

  function Apply(v: Vault, t: Table, op: Op): (Table, Option<int>) {
    var base := if op.Rotate? then Retire(t, op.groupId) else t;
    Commit(t, op.fault, Inserted(base, op.groupId, op.spki, SealFor(v, op)))
  }

  /** A stored blob is some plaintext sealed under the row's own group and id. */
  ghost predicate SealedAs(v: Vault, g: Text, id: int, blob: seq<byte>, pkcs8: seq<byte>) {
    IsI64(id) && exists nonce: seq<byte> :: |nonce| == NONCE_LEN && Seal(v.aead, v.kek, nonce, g, id, pkcs8) == Some(blob)
  }

  ghost predicate AllSealed(v: Vault, t: Table) {
    forall id :: id in t.rows ==> exists pkcs8 :: SealedAs(v, t.rows[id].groupId, id, t.rows[id].sealed, pkcs8)
  }

  lemma RetireKeeps(t: Table, g: Text)
    requires WellFormed(t)
    ensures WellFormed(Retire(t, g)) && !HasActive(Retire(t, g), g)
    ensures forall h, id :: h != g ==> (ActiveRow(Retire(t, g), h, id) <==> ActiveRow(t, h, id))
  {
    var t' := Retire(t, g);
    forall h, id ensures ActiveRow(t', h, id) <==> h != g && ActiveRow(t, h, id) {}
  }

  /**
   One call, whatever fails inside it. A failure changes nothing. A success
   takes a fresh, larger id, makes exactly that row the group's active key,
   retires nothing but the group's own previous key, and touches no blob.
   */
  lemma ApplyContract(v: Vault, t: Table, op: Op)
    requires WellFormed(t)
    ensures var (t', r) := Apply(v, t, op);
      && WellFormed(t')
      && (r.None? ==> t' == t)
      && (r.Some? ==>
           && r.value > t.lastId && t'.lastId == r.value && t'.rows.Keys == t.rows.Keys + {r.value}
           && ActiveRow(t', op.groupId, r.value) && t'.rows[r.value].spki == op.spki
           && SealedAs(v, op.groupId, r.value, t'.rows[r.value].sealed, op.pkcs8)
           && (op.Create? ==> !HasActive(t, op.groupId)))
      && (forall id :: id in t.rows ==>
           id in t'.rows && t'.rows[id].(retired := false) == t.rows[id].(retired := false))
      && (forall g, id :: g != op.groupId && id in t.rows ==> (ActiveRow(t', g, id) <==> ActiveRow(t, g, id)))
  {
    if op.Rotate? { RetireKeeps(t, op.groupId); }
    var base := if op.Rotate? then Retire(t, op.groupId) else t;
    var (t', r) := Apply(v, t, op);
    if r.Some? {
      forall g, a, b | ActiveRow(t', g, a) && ActiveRow(t', g, b) ensures a == b {
        assert a != r.value ==> ActiveRow(base, g, a);
        assert b != r.value ==> ActiveRow(base, g, b);
      }
    }
  }

  /**
   When a call succeeds, exactly: no statement fails, the next id fits, the
   secret can be encrypted under the identity of that id, and a create finds no
   active key. On a fresh table that id is 1.
   */
  lemma ApplySucceeds(v: Vault, t: Table, op: Op)
    requires WellFormed(t)
    ensures Apply(v, t, op).1.Some? <==>
      && !op.fault && IsI64(t.lastId + 1) && |op.nonce| == NONCE_LEN
      && v.aead.encrypt(v.kek, op.nonce, AssociatedData(op.groupId, t.lastId + 1), op.pkcs8).Some?
      && (op.Create? ==> !HasActive(t, op.groupId))
    ensures Apply(v, t, op).1.Some? ==> Apply(v, t, op).1.value == t.lastId + 1
  {
    if op.Rotate? { RetireKeeps(t, op.groupId); }
  }

  lemma ActiveIsForever(v: Vault, t: Table, op: Op, g: Text)
    requires WellFormed(t) && HasActive(t, g)
    ensures HasActive(Apply(v, t, op).0, g)
  {
    ApplyContract(v, t, op);
    var id :| id in t.rows && ActiveRow(t, g, id);
    var (t', r) := Apply(v, t, op);
    assert if g == op.groupId && r.Some? then ActiveRow(t', g, r.value) else ActiveRow(t', g, id);
  }

  /** A history of the table: each state is the previous one after one call. */
  ghost predicate IsRun(v: Vault, ts: seq<Table>, ops: seq<Op>) {
    && |ts| == |ops| + 1
    && WellFormed(ts[0]) && AllSealed(v, ts[0])
    && forall i :: 0 <= i < |ops| ==> StepAt(v, ts, ops, i)
  }

  ghost predicate StepAt(v: Vault, ts: seq<Table>, ops: seq<Op>, i: nat)
    requires i < |ops| < |ts|
  {
    ts[i + 1] == Apply(v, ts[i], ops[i]).0
  }

  lemma SealedPreserved(v: Vault, t: Table, op: Op)
    requires WellFormed(t) && AllSealed(v, t)
    ensures AllSealed(v, Apply(v, t, op).0)
  {
    ApplyContract(v, t, op);
    var (t', r) := Apply(v, t, op);
    forall id | id in t'.rows ensures exists pkcs8 :: SealedAs(v, t'.rows[id].groupId, id, t'.rows[id].sealed, pkcs8) {
      if id in t.rows {
        var pkcs8 :| SealedAs(v, t.rows[id].groupId, id, t.rows[id].sealed, pkcs8);
        assert SealedAs(v, t'.rows[id].groupId, id, t'.rows[id].sealed, pkcs8);
      } else {
        assert SealedAs(v, t'.rows[id].groupId, id, t'.rows[id].sealed, op.pkcs8);
      }
    }
  }

  lemma {:induction false} RunInvariant(v: Vault, ts: seq<Table>, ops: seq<Op>, i: nat)
    requires IsRun(v, ts, ops) && i < |ts|
    ensures WellFormed(ts[i]) && AllSealed(v, ts[i])
  {
    if i > 0 {
      RunInvariant(v, ts, ops, i - 1);
      assert StepAt(v, ts, ops, i - 1);
      ApplyContract(v, ts[i - 1], ops[i - 1]);
      SealedPreserved(v, ts[i - 1], ops[i - 1]);
    }
  }

  /** Committed rows are permanent: over any later calls only the retired mark can change, and ids only grow. */
  lemma {:induction false} RowsPersist(v: Vault, ts: seq<Table>, ops: seq<Op>, i: nat, j: nat, id: int)
    requires IsRun(v, ts, ops) && i <= j < |ts|
    requires id in ts[i].rows
    ensures id in ts[j].rows && ts[j].rows[id].(retired := false) == ts[i].rows[id].(retired := false)
  {
    if i < j {
      RowsPersist(v, ts, ops, i, j - 1, id);
      RunInvariant(v, ts, ops, j - 1);
      assert StepAt(v, ts, ops, j - 1);
      ApplyContract(v, ts[j - 1], ops[j - 1]);
    }
  }

  /** The id a call returns is the table's new high-water mark. */
  lemma SuccessId(v: Vault, ts: seq<Table>, ops: seq<Op>, i: nat)
    requires IsRun(v, ts, ops) && i < |ops|
    ensures ts[i + 1].lastId >= ts[i].lastId
    ensures Apply(v, ts[i], ops[i]).1.Some? ==> ts[i].lastId < Apply(v, ts[i], ops[i]).1.value == ts[i + 1].lastId
  {
    RunInvariant(v, ts, ops, i);
    assert StepAt(v, ts, ops, i);
    ApplyContract(v, ts[i], ops[i]);
  }

  lemma {:induction false} IdsGrow(v: Vault, ts: seq<Table>, ops: seq<Op>, i: nat, j: nat)
    requires IsRun(v, ts, ops) && i <= j < |ts|
    ensures ts[j].lastId >= ts[i].lastId
  {
    if i < j {
      IdsGrow(v, ts, ops, i, j - 1);
      SuccessId(v, ts, ops, j - 1);
    }
  }

  /** Successful calls return strictly increasing ids over the whole run. */
  lemma KeyIdsStrictlyIncrease(v: Vault, ts: seq<Table>, ops: seq<Op>, i: nat, j: nat)
    requires IsRun(v, ts, ops) && i < j < |ops|
    requires Apply(v, ts[i], ops[i]).1.Some? && Apply(v, ts[j], ops[j]).1.Some?
    ensures Apply(v, ts[i], ops[i]).1.value < Apply(v, ts[j], ops[j]).1.value
  {
    SuccessId(v, ts, ops, i);
    IdsGrow(v, ts, ops, i + 1, j);
    SuccessId(v, ts, ops, j);
  }

  /**
   A key once returned is never bricked: in every later state its row still
   opens, under its own group and id and no other, to the secret of the call
   that made it, however many rotations and failed calls came in between.
   */
  lemma CommittedKeyOpensForever(v: Vault, ts: seq<Table>, ops: seq<Op>, i: nat, j: nat, g: Text, id: int)
    requires v.aead.Ideal()
    requires IsRun(v, ts, ops) && i < |ops| && i < j < |ts|
    requires Apply(v, ts[i], ops[i]).1.Some? && IsI64(id)
    ensures var own := Apply(v, ts[i], ops[i]).1.value;
      && own in ts[j].rows && ts[j].rows[own].groupId == ops[i].groupId
      && Open(v.aead, v.kek, g, id, ts[j].rows[own].sealed) ==
         (if g == ops[i].groupId && id == own then Some(ops[i].pkcs8) else None)
  {
    var own := Apply(v, ts[i], ops[i]).1.value;
    RunInvariant(v, ts, ops, i);
    assert StepAt(v, ts, ops, i);
    ApplyContract(v, ts[i], ops[i]);
    RowsPersist(v, ts, ops, i + 1, j, own);
    var blob := ts[i + 1].rows[own].sealed;
    var nonce: seq<byte> :| |nonce| == NONCE_LEN && Seal(v.aead, v.kek, nonce, ops[i].groupId, own, ops[i].pkcs8) == Some(blob);
    SealedOpensOnlyAsItself(v.aead, v.kek, nonce, ops[i].groupId, own, ops[i].pkcs8, blob, v.kek, g, id);
  }

  /** The key id that service keys seal under; row ids start at 1. */
  const SERVICE_KEY_ID: int := 0

  lemma SealedOpensOnlyAsRow(v: Vault, t: Table, row: int, g: Text, id: int)
    requires v.aead.Ideal() && AllSealed(v, t) && row in t.rows && IsI64(id)
    ensures Open(v.aead, v.kek, g, id, t.rows[row].sealed).Some? <==> g == t.rows[row].groupId && id == row
  {
    var r := t.rows[row];
    var pkcs8 :| SealedAs(v, r.groupId, row, r.sealed, pkcs8);
    var nonce: seq<byte> :| |nonce| == NONCE_LEN && Seal(v.aead, v.kek, nonce, r.groupId, row, pkcs8) == Some(r.sealed);
    SealedOpensOnlyAsItself(v.aead, v.kek, nonce, r.groupId, row, pkcs8, r.sealed, v.kek, g, id);
  }

  /**
   Identity of stored blobs: in any reachable table a row's blob opens as that
   row and as nothing else, so it is never a service key, even for a group
   that is named like a service purpose.
   */
  lemma NoBlobSwap(v: Vault, ts: seq<Table>, ops: seq<Op>, i: nat, row: int, g: Text, id: int)
    requires v.aead.Ideal()
    requires IsRun(v, ts, ops) && i < |ts| && row in ts[i].rows && IsI64(id)
    ensures Open(v.aead, v.kek, g, id, ts[i].rows[row].sealed).Some? <==> g == ts[i].rows[row].groupId && id == row
    ensures Open(v.aead, v.kek, g, SERVICE_KEY_ID, ts[i].rows[row].sealed).None?
  {
    RunInvariant(v, ts, ops, i);
    SealedOpensOnlyAsRow(v, ts[i], row, g, id);
    SealedOpensOnlyAsRow(v, ts[i], row, g, SERVICE_KEY_ID);
  }
}
