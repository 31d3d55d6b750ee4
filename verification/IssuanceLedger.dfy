/** The `issuances` table (src/db.rs) and the ceilings read off it (src/ratelimit.rs). */
module IssuanceLedger {
  import opened Bytes
  import opened Wrappers

  /** The tuple that may be signed for once. */
  datatype Slot = Slot(groupId: Text, participantId: Text, versionId: Text)
  datatype Row = Row(slot: Slot, issuedAt: int)

  /** Rows by AUTOINCREMENT id; `lastId` never goes back, so ids are not reused. */
  datatype Ledger = Ledger(rows: map<int, Row>, lastId: int)

  /** What a ceiling counts over: every row, or one participant's. */
  datatype Scope = Global | Participant(id: Text)

  const U32_MAX: nat := 0xFFFF_FFFF

  datatype Limits = Limits(participantMax: u32, globalMax: u32, window: nat)
  {
    function Max(scope: Scope): u32 {
      if scope.Global? then globalMax else participantMax
    }
  }

  predicate InScope(scope: Scope, slot: Slot) {
    scope.Global? || slot.participantId == scope.id
  }

  predicate Taken(l: Ledger, slot: Slot) {
    exists id :: id in l.rows && l.rows[id].slot == slot
  }

  /** UNIQUE(group_id, participant_id, version_id) and the sequence counter. */
  ghost predicate WellFormed(l: Ledger) {
    && (forall id :: id in l.rows ==> 1 <= id <= l.lastId)
    && (forall a, b :: a in l.rows && b in l.rows && l.rows[a].slot == l.rows[b].slot ==> a == b)
    && l.lastId >= 0
  }

  /** INSERT, refused by the unique index when the slot is taken. */
  function Reserve(l: Ledger, slot: Slot, now: int): (Ledger, Option<int>) {
    if Taken(l, slot) then (l, None)
    else (Ledger(l.rows[l.lastId + 1 := Row(slot, now)], l.lastId + 1), Some(l.lastId + 1))
  }

  function Delete(l: Ledger, id: int): Ledger {
    l.(rows := l.rows - {id})
  }

  /** The rows a ceiling sees from `since` on. */
  function RowsSince(l: Ledger, scope: Scope, since: int): set<int> {
    set id | id in l.rows && InScope(scope, l.rows[id].slot) && l.rows[id].issuedAt >= since
  }

  /** COUNT(*) as the `u32` the limiter compares, saturating instead of wrapping. */
  function CountSince(l: Ledger, scope: Scope, since: int): u32 {
    var n := |RowsSince(l, scope, since)|;
    if n > U32_MAX then U32_MAX else n
  }

  /** Saturation never flips a decision: the limiter denies exactly when the true count has reached the ceiling. */
  lemma SaturationIsExact(l: Ledger, scope: Scope, since: int, max: u32)
    ensures CountSince(l, scope, since) >= max <==> |RowsSince(l, scope, since)| >= max
  {
  }

  datatype Decision = Allow | DenyParticipant | DenyGlobal

  class IssuanceTable {
    var rows: map<int, Row>
    var lastId: int

    function Value(): Ledger
      reads this
    {
      Ledger(rows, lastId)
    }

    constructor ()
      ensures Value() == Ledger(map[], 0)
    {
      rows, lastId := map[], 0;
    }

    /** Record-first reservation; `None` is `AlreadyIssued`. */
    method ReserveIssuance(slot: Slot, now: int) returns (r: Option<int>)
      requires WellFormed(Value())
      modifies this
      ensures WellFormed(Value())
      ensures (Value(), r) == Reserve(old(Value()), slot, now)
      ensures r.None? <==> exists id :: id in old(rows) && old(rows)[id].slot == slot
    {
      if Taken(Ledger(rows, lastId), slot) { return None; }
      lastId := lastId + 1;
      rows := rows[lastId := Row(slot, now)];
      return Some(lastId);
    }

    method DeleteIssuance(id: int)
      requires WellFormed(Value())
      modifies this`rows
      ensures WellFormed(Value())
      ensures Value() == Delete(old(Value()), id)
      ensures rows.Keys == old(rows).Keys - {id}
    {
      rows := rows - {id};
    }

    /** `RateLimiter::check` run alone: the global ceiling first, then the participant's. */
    method Check(lim: Limits, participantId: Text, now: int) returns (d: Decision)
      ensures d == DenyGlobal <==> |RowsSince(Value(), Global, now - lim.window)| >= lim.globalMax
      ensures d == Allow <==>
        && |RowsSince(Value(), Global, now - lim.window)| < lim.globalMax
        && |RowsSince(Value(), Participant(participantId), now - lim.window)| < lim.participantMax
    {
      var since := now - lim.window;
      SaturationIsExact(Value(), Global, since, lim.globalMax);
      SaturationIsExact(Value(), Participant(participantId), since, lim.participantMax);
      if CountSince(Ledger(rows, lastId), Global, since) >= lim.globalMax { return DenyGlobal; }
      if CountSince(Ledger(rows, lastId), Participant(participantId), since) >= lim.participantMax { return DenyParticipant; }
      return Allow;
    }
  }

  datatype Response = Issued(row: int) | RateLimited | AlreadyIssued | SigningFailed

  /**
   `sign_blocking` run alone, with what key loading, signing and the rollback
   do as inputs. A signature costs exactly one row; a refusal costs none,
   except that a failed rollback leaves the reservation behind.
   */
  method SignBlocking(table: IssuanceTable, lim: Limits, slot: Slot, now: int, keyLoads: bool, signs: bool, rollbackWorks: bool)
    returns (r: Response)
    requires WellFormed(table.Value())
    modifies table
    ensures WellFormed(table.Value())
    ensures r.RateLimited? <==> AtCeiling(old(table.Value()), lim, slot.participantId, now)
    ensures r.AlreadyIssued? <==> !AtCeiling(old(table.Value()), lim, slot.participantId, now) && Taken(old(table.Value()), slot)
    ensures r.Issued? <==>
      !AtCeiling(old(table.Value()), lim, slot.participantId, now) && !Taken(old(table.Value()), slot) && keyLoads && signs
    ensures r.Issued? ==> r.row !in old(table.rows) && table.rows == old(table.rows)[r.row := Row(slot, now)]
    ensures !r.Issued? && (rollbackWorks || !r.SigningFailed?) ==> table.rows == old(table.rows)
    ensures r.SigningFailed? && !rollbackWorks ==>
      old(table.lastId) + 1 !in old(table.rows) && table.rows == old(table.rows)[old(table.lastId) + 1 := Row(slot, now)]
  {
    var d := table.Check(lim, slot.participantId, now);
    if d != Allow { return RateLimited; }
    var reserved := table.ReserveIssuance(slot, now);
    if reserved.None? { return AlreadyIssued; }
    if !(keyLoads && signs) {
      if rollbackWorks { table.DeleteIssuance(reserved.value); }
      return SigningFailed;
    }
    return Issued(reserved.value);
  }

  predicate AtCeiling(l: Ledger, lim: Limits, participantId: Text, now: int) {
    || |RowsSince(l, Global, now - lim.window)| >= lim.globalMax
    || |RowsSince(l, Participant(participantId), now - lim.window)| >= lim.participantMax
  }
}
