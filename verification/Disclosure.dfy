/**
 Runs of the dedup endpoints and the nullifiers they disclose
 (src/handlers.rs, `prf_disclose` and the dedup handlers; src/prf.rs,
 `PrfKeys::disclose`). HKDF, HMAC and base64url are parameters.
 */
module Disclosure {
  import opened Bytes
  import opened Wrappers
  import opened Framing
  import opened DedupLedger
  import Book = DedupBook

  const ENTRY_REF_LEN: nat := 16
  const MAX_OWNER_HANDLE_LEN: nat := 128
  const MAX_REASSIGN_REFS: nat := 256
  const NULLIFIER_PREFIX: Text := [109, 110, 118, 49, 58] // mnv1:

  /** One call of a dedup endpoint, with the decoded fields, the minted ref and a possible database failure. */
  datatype Op =
    | Register(ref: Text, value: Text, owner: Text, badge: Text)
    | Release(ref: Text, owner: Text)
    | Reassign(refs: seq<Text>, from: Text, to: Text, fault: bool)
    | Disclose(ref: Text, owner: Text, clientId: Text)

  predicate ValidText(s: Text, max: nat) {
    1 <= |s| <= max
  }

  /** The handlers' own checks; anything else is answered 400 before the ledger is touched. */
  predicate Admitted(op: Op) {
    match op
    case Register(ref, value, owner, badge) =>
      && |ref| == ENTRY_REF_LEN && |value| == DEDUP_VALUE_LEN
      && ValidText(owner, MAX_OWNER_HANDLE_LEN) && ValidText(badge, MAX_BADGE_TYPE_LEN)
    case Release(ref, owner) => |ref| == ENTRY_REF_LEN && ValidText(owner, MAX_OWNER_HANDLE_LEN)
    case Reassign(refs, from, to, _) =>
      && 1 <= |refs| <= MAX_REASSIGN_REFS && (forall i :: 0 <= i < |refs| ==> |refs[i]| == ENTRY_REF_LEN)
      && ValidText(from, MAX_OWNER_HANDLE_LEN) && ValidText(to, MAX_OWNER_HANDLE_LEN) && from != to
    case Disclose(ref, owner, clientId) =>
      |ref| == ENTRY_REF_LEN && ValidText(owner, MAX_OWNER_HANDLE_LEN) && ValidText(clientId, MAX_CLIENT_ID_LEN)
  }

  /** Which decoded calls are answered 400, field by field. */
  lemma AdmittedIsExact(op: Op)
    ensures !Admitted(op) <==>
      match op
      case Register(ref, value, owner, badge) =>
        |ref| != 16 || |value| != 64 || owner == [] || |owner| > 128 || badge == [] || |badge| > 64
      case Release(ref, owner) => |ref| != 16 || owner == [] || |owner| > 128
      case Reassign(refs, from, to, _) =>
        || refs == [] || |refs| > 256 || (exists i :: 0 <= i < |refs| && |refs[i]| != 16)
        || from == [] || |from| > 128 || to == [] || |to| > 128 || from == to
      case Disclose(ref, owner, clientId) => |ref| != 16 || owner == [] || |owner| > 128 || clientId == [] || |clientId| > 256
  {
  }

  function Apply(t: Table, op: Op): Table
    requires Unique(t)
  {
    if !Admitted(op) then t
    else
      match op
      case Register(ref, value, owner, badge) => DedupLedger.Register(t, ref, value, owner, badge).0
      case Release(ref, owner) => DedupLedger.Release(t, ref, owner).0
      case Reassign(refs, from, to, fault) => if fault then t else DedupLedger.Reassign(t, refs, from, to).0
      case Disclose(_, _, _) => t
  }

  /** The owner handles a call names. */
  function Handles(op: Op): set<Text> {
    match op
    case Register(_, _, owner, _) => {owner}
    case Release(_, owner) => {owner}
    case Reassign(_, from, to, _) => {from, to}
    case Disclose(_, owner, _) => {owner}
  }

  ghost predicate Good(t: Table) {
    Unique(t) && forall ref :: ref in t ==> |ref| == ENTRY_REF_LEN && |t[ref].value| == DEDUP_VALUE_LEN
  }

  /**
   What one call may do: it keeps the two unique columns and the sizes, never
   changes an entry whose owner it does not name, never rebinds a ref that
   stays to another value, and adds nothing but what `register` asked for.
   */
  ghost predicate Respects(t: Table, op: Op, t': Table) {
    && Good(t')
    && (forall ref :: ref in t && t[ref].owner !in Handles(op) ==> ref in t' && t'[ref] == t[ref])
    && (forall ref :: ref in t && ref in t' ==> t'[ref].value == t[ref].value && t'[ref].badge == t[ref].badge)
    && (forall ref :: ref in t' && ref !in t ==> op == Register(ref, t'[ref].value, t'[ref].owner, t'[ref].badge))
  }

  lemma ApplyContract(t: Table, op: Op)
    requires Good(t)
    ensures Respects(t, op, Apply(t, op))
  {
    if Admitted(op) {
      match op
      case Register(ref, value, owner, badge) => RegisterContract(t, ref, value, owner, badge);
      case Release(ref, owner) =>
      case Reassign(refs, from, to, fault) => ReassignContract(t, refs, from, to, fault);
      case Disclose(_, _, _) =>
    }
  }

  lemma RegisterContract(t: Table, ref: Text, value: Text, owner: Text, badge: Text)
    requires Good(t) && |ref| == ENTRY_REF_LEN && |value| == DEDUP_VALUE_LEN
    ensures Respects(t, Register(ref, value, owner, badge), DedupLedger.Register(t, ref, value, owner, badge).0)
  {
    var t' := DedupLedger.Register(t, ref, value, owner, badge).0;
    if !HasValue(t, value) && ref !in t {
      assert t' == t[ref := Row(value, owner, badge)];
      assert Unique(t');
    }
  }

  lemma ReassignContract(t: Table, refs: seq<Text>, from: Text, to: Text, fault: bool)
    requires Good(t)
    ensures Respects(t, Reassign(refs, from, to, fault), DedupLedger.Reassign(t, refs, from, to).0)
  {
    if AllAcceptable(t, refs, from, to) {
      Book.ListedIsAcceptable(t, refs, from, to);
    }
  }

  /** The call is defined on tables that keep UNIQUE(value); that every table of a run does is proved, not asked. */
  ghost predicate Follows(t: Table, op: Op, t': Table) {
    Unique(t) ==> t' == Apply(t, op)
  }

  ghost predicate IsRun(ts: seq<Table>, ops: seq<Op>) {
    && |ts| == |ops| + 1 && Good(ts[0])
    && forall i :: 0 <= i < |ops| ==> Follows(ts[i], ops[i], ts[i + 1])
  }

  lemma {:induction false} RunGood(ts: seq<Table>, ops: seq<Op>, i: nat)
    requires IsRun(ts, ops) && i < |ts|
    ensures Good(ts[i])
  {
    if i > 0 {
      RunGood(ts, ops, i - 1);
      ApplyContract(ts[i - 1], ops[i - 1]);
    }
  }

  /** What a call is answered; a disclosure is answered with the value its nullifier is made from. */
  datatype Answer =
    | BadRequest
    | Failed
    | Registering(r: Registered)
    | Releasing(l: Released)
    | Reassigning(m: Reassigned)
    | Disclosing(value: Text)
    | NoSuchEntry
    | Forbidden

  function AnswerOf(t: Table, op: Op): Answer
    requires Unique(t)
  {
    if !Admitted(op) then BadRequest
    else
      match op
      case Register(ref, value, owner, badge) => Registering(DedupLedger.Register(t, ref, value, owner, badge).1)
      case Release(ref, owner) => Releasing(DedupLedger.Release(t, ref, owner).1)
      case Reassign(refs, from, to, fault) => if fault then Failed else Reassigning(DedupLedger.Reassign(t, refs, from, to).1)
      case Disclose(ref, owner, _) =>
        if ref !in t then NoSuchEntry else if t[ref].owner != owner then Forbidden else Disclosing(t[ref].value)
  }

  /** The same calls on the plain map. */
  function BookApply(b: Book.Book, op: Op): Book.Book {
    if !Admitted(op) then b
    else
      match op
      case Register(ref, value, owner, badge) => Book.BookRegister(b, ref, value, owner, badge).0
      case Release(ref, owner) => Book.BookRelease(b, ref, owner).0
      case Reassign(refs, from, to, fault) => if fault then b else Book.BookReassign(b, refs, from, to).0
      case Disclose(_, _, _) => b
  }

  /** `a` is the map's answer to the call. */
  ghost predicate BookAnswers(b: Book.Book, op: Op, a: Answer) {
    if !Admitted(op) then a == BadRequest
    else
      match op
      case Register(ref, value, owner, badge) => a == Registering(Book.BookRegister(b, ref, value, owner, badge).1)
      case Release(ref, owner) => a == Releasing(Book.BookRelease(b, ref, owner).1)
      case Reassign(refs, from, to, fault) => a == if fault then Failed else Reassigning(Book.BookReassign(b, refs, from, to).1)
      case Disclose(ref, owner, _) =>
        && (a == NoSuchEntry <==> !Book.RefUsed(b, ref))
        && (a == Forbidden <==> Book.RefUsed(b, ref) && !Book.HeldBy(b, ref, owner))
        && (Book.HeldBy(b, ref, owner) <==> a.Disclosing? && a.value in b && b[a.value].ref == ref && b[a.value].owner == owner)
  }

  lemma ApplyRefines(b: Book.Book, t: Table, op: Op)
    requires Unique(t) && Book.Lists(b, t)
    ensures Book.Lists(BookApply(b, op), Apply(t, op))
    ensures BookAnswers(b, op, AnswerOf(t, op))
  {
    if Admitted(op) {
      match op
      case Register(ref, value, owner, badge) => Book.RegisterRefines(b, t, ref, value, owner, badge);
      case Release(ref, owner) => Book.ReleaseRefines(b, t, ref, owner);
      case Reassign(refs, from, to, _) => Book.ReassignRefines(b, t, refs, from, to);
      case Disclose(ref, owner, _) => Book.HeldInBook(b, t, ref, owner);
    }
  }

  ghost predicate IsBookRun(bs: seq<Book.Book>, ops: seq<Op>) {
    |bs| == |ops| + 1 && forall i :: 0 <= i < |ops| ==> bs[i + 1] == BookApply(bs[i], ops[i])
  }

  /**
   Refinement over whole runs: the two-column table and the plain map go
   through the same states and give every call the same answer.
   */
  lemma {:induction false} RunRefinesBook(ts: seq<Table>, bs: seq<Book.Book>, ops: seq<Op>, i: nat)
    requires IsRun(ts, ops) && IsBookRun(bs, ops) && i < |ts|
    requires Book.Lists(bs[0], ts[0])
    ensures Good(ts[i]) && Book.Lists(bs[i], ts[i])
    ensures i < |ops| ==> BookAnswers(bs[i], ops[i], AnswerOf(ts[i], ops[i]))
  {
    RunGood(ts, ops, i);
    if i > 0 {
      RunRefinesBook(ts, bs, ops, i - 1);
      assert Follows(ts[i - 1], ops[i - 1], ts[i]);
      ApplyRefines(bs[i - 1], ts[i - 1], ops[i - 1]);
    }
    if i < |ops| { ApplyRefines(bs[i], ts[i], ops[i]); }
  }

  ghost predicate Owns(t: Table, owner: Text, value: Text) {
    exists ref :: ref in t && t[ref].value == value && t[ref].owner == owner
  }

  /** A call that gives a value up, made in the owner's own name. */
  predicate GivesUp(op: Op, owner: Text) {
    (op.Release? && op.owner == owner) || (op.Reassign? && op.from == owner)
  }

  lemma OwnerKeeps(t: Table, op: Op, owner: Text, value: Text)
    requires Good(t) && Owns(t, owner, value) && !GivesUp(op, owner)
    ensures Owns(Apply(t, op), owner, value)
  {
    var ref :| ref in t && t[ref].value == value && t[ref].owner == owner;
    ApplyContract(t, op);
    assert ref in Apply(t, op) && Apply(t, op)[ref].value == value;
    assert Apply(t, op)[ref].owner == owner;
  }

  /** A value changes hands only through a call that names the owner losing it. */
  lemma {:induction false} HandoverNeedsTheOwner(ts: seq<Table>, ops: seq<Op>, i: nat, j: nat, owner: Text, value: Text) returns (k: nat)
    requires IsRun(ts, ops) && i <= j < |ts|
    requires Owns(ts[i], owner, value) && !Owns(ts[j], owner, value)
    ensures i <= k < j && GivesUp(ops[k], owner)
  {
    if Owns(ts[j - 1], owner, value) {
      RunGood(ts, ops, j - 1);
      if !GivesUp(ops[j - 1], owner) { OwnerKeeps(ts[j - 1], ops[j - 1], owner, value); }
      k := j - 1;
    } else {
      k := HandoverNeedsTheOwner(ts, ops, i, j - 1, owner, value);
    }
  }

  // ----- nullifiers

  datatype Primitives = Primitives(
    hkdf: (seq<byte>, seq<byte>) -> seq<byte>,
    hmac: (seq<byte>, seq<byte>) -> seq<byte>,
    base64url: seq<byte> -> Text)
  {
    /** No two messages share a tag, whatever their keys; the text encoding loses nothing. */
    ghost predicate CollisionFree() {
      && (forall k, m, k', m' :: hmac(k, m) == hmac(k', m') ==> m == m')
      && (forall a, b :: base64url(a) == base64url(b) ==> a == b)
    }

    /** A tag also tells its key. */
    ghost predicate KeyedCollisionFree() {
      CollisionFree() && forall k, m, k', m' :: hmac(k, m) == hmac(k', m') ==> k == k'
    }
  }

  /** The hypothesis is satisfiable, also in its keyed form. */
  lemma CollisionFreeExists() returns (p: Primitives)
    ensures p.CollisionFree() && p.KeyedCollisionFree()
  {
    p := Primitives((seed, info) => info, WriteDown, bytes => bytes);
    forall k: seq<byte>, m: seq<byte>, k': seq<byte>, m': seq<byte> | p.hmac(k, m) == p.hmac(k', m') ensures k == k' && m == m' {
      WriteDownInjective(k, m, k', m');
    }
  }

  /** A tag that spells out its key, byte by byte behind a mark, and then the message. */
  function WriteDown(key: seq<byte>, message: seq<byte>): seq<byte> {
    if key == [] then [0] + message else [1, key[0]] + WriteDown(key[1..], message)
  }

  lemma {:induction false} WriteDownInjective(k: seq<byte>, m: seq<byte>, k': seq<byte>, m': seq<byte>)
    requires WriteDown(k, m) == WriteDown(k', m')
    ensures k == k' && m == m'
  {
    var a, b := WriteDown(k, m), WriteDown(k', m');
    assert a[0] == b[0];
    if k == [] {
      assert a[1..] == m && b[1..] == m';
    } else {
      assert a[2..] == WriteDown(k[1..], m) && b[2..] == WriteDown(k'[1..], m') && a[1] == b[1];
      WriteDownInjective(k[1..], m, k'[1..], m');
      assert k == [k[0]] + k[1..] && k' == [k'[0]] + k'[1..];
    }
  }

  function Nullifier(p: Primitives, seed: seq<byte>, value: Text, clientId: Text): Text
    requires |value| <= MAX_FIELD && |clientId| <= MAX_FIELD
  {
    NULLIFIER_PREFIX + p.base64url(p.hmac(p.hkdf(seed, DiscloseInfo(clientId)), DiscloseMessage(value, clientId)))
  }

  /** `prf_disclose` on a validated request: the nullifier of the stored value, for its owner only. */
  function DiscloseFor(p: Primitives, seed: seq<byte>, t: Table, ref: Text, owner: Text, clientId: Text): Option<Text>
    requires |clientId| <= MAX_CLIENT_ID_LEN && (ref in t ==> |t[ref].value| == DEDUP_VALUE_LEN)
  {
    if ref !in t || t[ref].owner != owner then None
    else Some(Nullifier(p, seed, t[ref].value, clientId))
  }

  /** Only the stored owner is served, and a caller is refused for exactly one of two reasons: the handler's answers, and their nullifiers. */
  lemma DisclosureIsExact(p: Primitives, seed: seq<byte>, t: Table, ref: Text, owner: Text, clientId: Text)
    requires Good(t) && Admitted(Disclose(ref, owner, clientId))
    ensures var got, answer := DiscloseFor(p, seed, t, ref, owner, clientId), AnswerOf(t, Disclose(ref, owner, clientId));
      && (got.Some? <==> ref in t && t[ref].owner == owner)
      && (got.Some? <==> answer.Disclosing?)
      && (answer.Disclosing? ==> got == Some(Nullifier(p, seed, answer.value, clientId)) && answer.value == t[ref].value)
      && (answer == NoSuchEntry <==> ref !in t)
      && (answer == Forbidden <==> ref in t && t[ref].owner != owner)
  {
  }

  /** In a reachable state two callers who both get a nullifier get the same one only as the same owner of the same entry. */
  lemma OneOwnerDiscloses(p: Primitives, seed: seq<byte>, ts: seq<Table>, ops: seq<Op>, i: nat,
                          ref1: Text, owner1: Text, client1: Text, ref2: Text, owner2: Text, client2: Text)
    requires p.CollisionFree() && IsRun(ts, ops) && i < |ts|
    requires |client1| <= MAX_CLIENT_ID_LEN && |client2| <= MAX_CLIENT_ID_LEN
    requires ref1 in ts[i] ==> |ts[i][ref1].value| == DEDUP_VALUE_LEN
    requires ref2 in ts[i] ==> |ts[i][ref2].value| == DEDUP_VALUE_LEN
    requires DiscloseFor(p, seed, ts[i], ref1, owner1, client1) == DiscloseFor(p, seed, ts[i], ref2, owner2, client2) != None
    ensures ref1 == ref2 && owner1 == owner2 && client1 == client2
    ensures ref1 in ts[i] && ts[i][ref1].owner == owner1
  {
    RunGood(ts, ops, i);
    NullifierIdentifies(p, seed, ts[i][ref1].value, client1, ts[i][ref2].value, client2);
  }

  /** A nullifier stands for one (value, client) pair and no other; the proof asks nothing of HKDF. */
  lemma NullifierIdentifies(p: Primitives, seed: seq<byte>, value1: Text, client1: Text, value2: Text, client2: Text)
    requires p.CollisionFree()
    requires |value1| <= MAX_FIELD && |client1| <= MAX_FIELD && |value2| <= MAX_FIELD && |client2| <= MAX_FIELD
    ensures Nullifier(p, seed, value1, client1) == Nullifier(p, seed, value2, client2) <==> value1 == value2 && client1 == client2
  {
    var n1, n2 := Nullifier(p, seed, value1, client1), Nullifier(p, seed, value2, client2);
    if n1 == n2 {
      var k1, k2 := p.hkdf(seed, DiscloseInfo(client1)), p.hkdf(seed, DiscloseInfo(client2));
      var m1, m2 := DiscloseMessage(value1, client1), DiscloseMessage(value2, client2);
      var b1, b2 := p.base64url(p.hmac(k1, m1)), p.base64url(p.hmac(k2, m2));
      assert n1[|NULLIFIER_PREFIX|..] == b1 && n2[|NULLIFIER_PREFIX|..] == b2;
      DiscloseMessageInjective(value1, client1, value2, client2);
    }
  }

  /** The disclosing key is the per-client HKDF output of the node's seed: two nodes agree on a nullifier exactly when they agree on that. */
  lemma NullifierKeyIsTheClientKey(p: Primitives, seed1: seq<byte>, seed2: seq<byte>, value: Text, clientId: Text)
    requires p.KeyedCollisionFree() && |value| <= MAX_FIELD && |clientId| <= MAX_FIELD
    ensures Nullifier(p, seed1, value, clientId) == Nullifier(p, seed2, value, clientId) <==>
            p.hkdf(seed1, DiscloseInfo(clientId)) == p.hkdf(seed2, DiscloseInfo(clientId))
  {
    var n1, n2 := Nullifier(p, seed1, value, clientId), Nullifier(p, seed2, value, clientId);
    var k1, k2, m := p.hkdf(seed1, DiscloseInfo(clientId)), p.hkdf(seed2, DiscloseInfo(clientId)), DiscloseMessage(value, clientId);
    assert n1[|NULLIFIER_PREFIX|..] == p.base64url(p.hmac(k1, m)) && n2[|NULLIFIER_PREFIX|..] == p.base64url(p.hmac(k2, m));
  }

  /**
   Over any run: two disclosures give the same nullifier exactly when they are
   for the same credential value and the same client. At one moment that means
   the same ref and the same owner; across time a different owner means that
   the earlier owner gave the value up in between.
   */
  lemma SameNullifier(p: Primitives, seed: seq<byte>, ts: seq<Table>, ops: seq<Op>, i: nat, j: nat,
                      ref1: Text, owner1: Text, client1: Text, ref2: Text, owner2: Text, client2: Text)
    returns (k: nat)
    requires p.CollisionFree() && IsRun(ts, ops) && i <= j < |ts|
    requires |client1| <= MAX_CLIENT_ID_LEN && |client2| <= MAX_CLIENT_ID_LEN
    requires ref1 in ts[i] && ts[i][ref1].owner == owner1 && ref2 in ts[j] && ts[j][ref2].owner == owner2
    requires |ts[i][ref1].value| == DEDUP_VALUE_LEN && |ts[j][ref2].value| == DEDUP_VALUE_LEN
    ensures DiscloseFor(p, seed, ts[i], ref1, owner1, client1) == DiscloseFor(p, seed, ts[j], ref2, owner2, client2)
            <==> ts[i][ref1].value == ts[j][ref2].value && client1 == client2
    ensures i == j && ts[i][ref1].value == ts[j][ref2].value ==> ref1 == ref2 && owner1 == owner2
    ensures ts[i][ref1].value == ts[j][ref2].value && owner1 != owner2 ==> i <= k < j && GivesUp(ops[k], owner1)
  {
    var v1, v2 := ts[i][ref1].value, ts[j][ref2].value;
    NullifierIdentifies(p, seed, v1, client1, v2, client2);
    RunGood(ts, ops, i);
    RunGood(ts, ops, j);
    k := 0;
    if v1 == v2 && owner1 != owner2 {
      assert Owns(ts[i], owner1, v1);
      assert !Owns(ts[j], owner1, v1);
      k := HandoverNeedsTheOwner(ts, ops, i, j, owner1, v1);
    }
  }
}
