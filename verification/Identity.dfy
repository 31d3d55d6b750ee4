/**
 Identity pinning (src/identity.rs, `IdentityPolicy::classify`) and the
 two-layer PRF gate behind it (src/handlers.rs, `require_prf`).
 */
module Identity {
  import opened Bytes
  import opened Wrappers
  import opened KeyRateLimit

  datatype Role = Client | Admin | Prf
  datatype ClientIdentity = ClientIdentity(name: Text, role: Role, prfAllowed: bool)
  {
    predicate IsAdmin() { role == Admin }
    predicate MaySign() { role == Client || role == Admin }
    predicate MayPrf() { prfAllowed }
  }

  datatype Policy = Policy(allowedClients: set<Text>, admins: set<Text>, prfClients: set<Text>)

  const UNNAMED_CLIENT: Text := [60, 117, 110, 110, 97, 109, 101, 100, 45, 99, 108, 105, 101, 110, 116, 62] // <unnamed-client>

  /** `iter().find(|c| set.contains(c))`: the first candidate on the list. */
  function Find(candidates: seq<Text>, list: set<Text>): (r: Option<Text>)
    ensures r.None? <==> forall i :: 0 <= i < |candidates| ==> candidates[i] !in list
    ensures r.Some? ==> exists i :: IsFirst(candidates, list, i) && candidates[i] == r.value
  {
    if candidates == [] then None
    else if candidates[0] in list then
      assert IsFirst(candidates, list, 0);
      Some(candidates[0])
    else
      var r := Find(candidates[1..], list);
      assert forall i :: IsFirst(candidates[1..], list, i) ==> IsFirst(candidates, list, i + 1);
      r
  }

  predicate IsFirst(candidates: seq<Text>, list: set<Text>, i: int) {
    && 0 <= i < |candidates| && candidates[i] in list
    && forall j :: 0 <= j < i ==> candidates[j] !in list
  }

  function Classify(p: Policy, candidates: seq<Text>): Option<ClientIdentity> {
    var prf := Find(candidates, p.prfClients);
    var prfAllowed := prf.Some?;
    var admin := Find(candidates, p.admins);
    if admin.Some? then Some(ClientIdentity(admin.value, Admin, prfAllowed))
    else if p.allowedClients == {} then
      Some(ClientIdentity(if candidates == [] then UNNAMED_CLIENT else candidates[0], Client, prfAllowed))
    else
      var client := Find(candidates, p.allowedClients);
      if client.Some? then Some(ClientIdentity(client.value, Client, prfAllowed))
      else if prfAllowed then Some(ClientIdentity(prf.value, Prf, prfAllowed))
      else None
  }

  /** Both layers of `require_prf`: the connection's flag, then the pinned name against the handler's own copy of the list. */
  predicate PassesGate(identity: ClientIdentity, allowList: set<Text>) {
    identity.MayPrf() && identity.name in allowList
  }

  predicate PrfAdmitted(p: Policy, candidates: seq<Text>) {
    var identity := Classify(p, candidates);
    identity.Some? && PassesGate(identity.value, p.prfClients)
  }

  /** The certificate name that decides: the first admin name, else the first client name, else the first PRF name. */
  ghost predicate Decides(p: Policy, candidates: seq<Text>, i: int) {
    if exists j :: IsFirst(candidates, p.admins, j) then IsFirst(candidates, p.admins, i)
    else if p.allowedClients == {} then i == 0 < |candidates|
    else if exists j :: IsFirst(candidates, p.allowedClients, j) then IsFirst(candidates, p.allowedClients, i)
    else IsFirst(candidates, p.prfClients, i)
  }

  lemma FirstExists(candidates: seq<Text>, list: set<Text>)
    ensures (exists i :: IsFirst(candidates, list, i)) <==> Find(candidates, list).Some?
  {
  }

  /**
   Who reaches the PRF surface, for every policy and certificate: exactly those
   whose deciding name is itself on the PRF list. The placeholder name of an
   unnamed client never does, even if an operator lists it.
   */
  lemma PrfAdmissionIsExact(p: Policy, candidates: seq<Text>)
    ensures PrfAdmitted(p, candidates) <==> exists i :: Decides(p, candidates, i) && candidates[i] in p.prfClients
    ensures PrfAdmitted(p, candidates) ==> Classify(p, candidates).value.name in candidates
  {
    FirstExists(candidates, p.admins);
    FirstExists(candidates, p.allowedClients);
    FirstExists(candidates, p.prfClients);
    if PrfAdmitted(p, candidates) {
      var name := Classify(p, candidates).value.name;
      assert exists i :: Decides(p, candidates, i) && candidates[i] == name;
    }
  }

  predicate Lists(candidates: seq<Text>, list: set<Text>) {
    exists i :: 0 <= i < |candidates| && candidates[i] in list
  }

  /** Which certificates get which role: admin outranks client, an empty client list admits everyone, the PRF list alone admits to PRF only. */
  lemma RolesAreExact(p: Policy, candidates: seq<Text>)
    ensures var r := Classify(p, candidates);
      && (r.Some? && r.value.role == Admin <==> Lists(candidates, p.admins))
      && (r.Some? && r.value.role == Client <==> !Lists(candidates, p.admins) && (p.allowedClients == {} || Lists(candidates, p.allowedClients)))
      && (r.Some? && r.value.role == Prf <==>
           !Lists(candidates, p.admins) && p.allowedClients != {} && !Lists(candidates, p.allowedClients) && Lists(candidates, p.prfClients))
      && (r.Some? ==> (r.value.prfAllowed <==> Lists(candidates, p.prfClients)))
  {
  }

  /** Who may use the signing surface and who may rotate, by the certificate and the lists alone. */
  lemma SigningIsExact(p: Policy, candidates: seq<Text>)
    ensures var r := Classify(p, candidates);
      && (r.Some? && r.value.MaySign() <==> Lists(candidates, p.admins) || p.allowedClients == {} || Lists(candidates, p.allowedClients))
      && (r.Some? && r.value.IsAdmin() <==> Lists(candidates, p.admins))
      && (r.None? <==> !Lists(candidates, p.admins) && p.allowedClients != {} && !Lists(candidates, p.allowedClients) && !Lists(candidates, p.prfClients))
  {
    RolesAreExact(p, candidates);
  }

  /** The name an admitted caller is known by: the deciding one, or the placeholder of a nameless certificate under an open list. */
  lemma PinnedNameIsExact(p: Policy, candidates: seq<Text>)
    requires Classify(p, candidates).Some?
    ensures var name := Classify(p, candidates).value.name;
      if candidates == [] then name == UNNAMED_CLIENT else exists i :: 0 <= i < |candidates| && Decides(p, candidates, i) && candidates[i] == name
  {
    FirstExists(candidates, p.admins);
    FirstExists(candidates, p.allowedClients);
    FirstExists(candidates, p.prfClients);
    if candidates != [] && p.allowedClients == {} && Find(candidates, p.admins).None? {
      assert Decides(p, candidates, 0);
    }
  }

  /** No certificate without a PRF-listed name of its own ever passes, however open the client list is. */
  lemma OpenListNeverGrantsPrf(p: Policy, candidates: seq<Text>)
    requires forall i :: 0 <= i < |candidates| ==> candidates[i] !in p.prfClients
    ensures !PrfAdmitted(p, candidates)
  {
  }

  /** The PRF list and the blind-RSA surface do not interact: changing it never changes who may sign or rotate. */
  lemma PrfListNeverWidensSigning(p: Policy, prfClients: set<Text>, candidates: seq<Text>)
    ensures var before, after := Classify(p, candidates), Classify(p.(prfClients := prfClients), candidates);
      && (before.Some? && before.value.MaySign() <==> after.Some? && after.value.MaySign())
      && (before.Some? && before.value.IsAdmin() <==> after.Some? && after.value.IsAdmin())
  {
  }

  datatype Gate = Served | Unavailable | Forbidden | RateLimited

  /** `require_prf`: authorization first, so a refused caller never spends rate budget. `None` is a surface that is not mounted. */
  method RequirePrf(allowList: Option<set<Text>>, limiter: KeyRateLimiter, identity: ClientIdentity, now: nat) returns (g: Gate)
    modifies limiter
    ensures g == Unavailable <==> allowList.None?
    ensures g == Forbidden <==> allowList.Some? && !PassesGate(identity, allowList.value)
    ensures g == Unavailable || g == Forbidden ==> limiter.Value() == old(limiter.Value())
    ensures g == Served || g == RateLimited ==>
              (limiter.Value(), g == Served) ==
              (Check(limiter.ceilings, old(limiter.Value()), identity.name, now).0,
               Check(limiter.ceilings, old(limiter.Value()), identity.name, now).1.Allow?)
  {
    if allowList.None? { return Unavailable; }
    if !identity.MayPrf() { return Forbidden; }
    if identity.name !in allowList.value { return Forbidden; }
    var d := limiter.CheckAt(identity.name, now);
    if d.Allow? { return Served; }
    return RateLimited;
  }
}
