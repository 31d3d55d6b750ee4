/**
 The write-once `service_keys` table (src/db.rs) and the fail-closed boot
 policy over it (src/dedup.rs), one call at a time. Key derivation is a
 parameter; so are the seed and the nonces the OS supplies.
 */
module ServiceKeys {
  import opened Bytes
  import opened Wrappers
  import opened Keystore
  import opened KeyRows

  const MASTER_SEED_PURPOSE: Text := [109, 97, 115, 116, 101, 114, 45, 115, 101, 101, 100, 45, 118, 49]             // master-seed-v1
  const PAIRWISE_HMAC_PURPOSE: Text := [112, 97, 105, 114, 119, 105, 115, 101, 45, 104, 109, 97, 99, 45, 118, 49]   // pairwise-hmac-v1
  const MASTER_SEED_LEN: nat := 32

  /** Sealed blobs by purpose. */
  type Store = map<Text, seq<byte>>

  /** `publicKey` is the key schedule up to the pin encoding (it may fail); `hmac` is the pairwise oracle. */
  datatype Env = Env(vault: Vault, publicKey: seq<byte> -> Option<string>, hmac: (seq<byte>, seq<byte>) -> Text)

  datatype Args = Args(clientsConfigured: bool, pin: Option<string>, importPairwise: Option<seq<byte>>)
  datatype Keys = Keys(seed: seq<byte>, publicKey: string, pairwise: Option<seq<byte>>)
  datatype Boot = Disabled | Enabled(keys: Keys) | Refused

  function Sealed(env: Env, purpose: Text, nonce: seq<byte>, secret: seq<byte>): Option<seq<byte>> {
    if |nonce| == NONCE_LEN then Seal(env.vault.aead, env.vault.kek, nonce, purpose, SERVICE_KEY_ID, secret) else None
  }

  function Opened(env: Env, purpose: Text, blob: seq<byte>): Option<seq<byte>> {
    Open(env.vault.aead, env.vault.kek, purpose, SERVICE_KEY_ID, blob)
  }

  /** A secret can be sealed for a purpose: the nonce has its length and encryption under (purpose, 0) succeeds. */
  predicate Sealable(env: Env, purpose: Text, nonce: seq<byte>, secret: seq<byte>) {
    |nonce| == NONCE_LEN && env.vault.aead.encrypt(env.vault.kek, nonce, AssociatedData(purpose, 0), secret).Some?
  }

  lemma SealableIsSealed(env: Env, purpose: Text, nonce: seq<byte>, secret: seq<byte>)
    ensures Sealed(env, purpose, nonce, secret).Some? <==> Sealable(env, purpose, nonce, secret)
  {
  }

  lemma SealedOpens(env: Env, purpose: Text, nonce: seq<byte>, secret: seq<byte>)
    requires env.vault.aead.Ideal() && Sealed(env, purpose, nonce, secret).Some?
    ensures Opened(env, purpose, Sealed(env, purpose, nonce, secret).value) == Some(secret)
  {
    var blob := Sealed(env, purpose, nonce, secret).value;
    SealedOpensOnlyAsItself(env.vault.aead, env.vault.kek, nonce, purpose, SERVICE_KEY_ID, secret, blob,
                            env.vault.kek, purpose, SERVICE_KEY_ID);
  }

  // ----- str::trim

  /** The Unicode White_Space property. */
  predicate IsWhite(c: char) {
    var n := c as int;
    9 <= n <= 13 || n == 0x20 || n == 0x85 || n == 0xA0 || n == 0x1680 || 0x2000 <= n <= 0x200A
    || n == 0x2028 || n == 0x2029 || n == 0x202F || n == 0x205F || n == 0x3000
  }

  predicate AllWhite(s: string) {
    forall i :: 0 <= i < |s| ==> IsWhite(s[i])
  }

  function Trim(s: string): string
    decreases |s|
  {
    if s == [] then []
    else if IsWhite(s[0]) then Trim(s[1..])
    else if IsWhite(s[|s| - 1]) then Trim(s[..|s| - 1])
    else s
  }

  /** Trimming takes off white space at both ends and nothing else, so a padded pin reads as the pin. */
  lemma {:induction false} TrimPadded(before: string, pin: string, after: string)
    requires AllWhite(before) && AllWhite(after)
    requires pin != [] ==> !IsWhite(pin[0]) && !IsWhite(pin[|pin| - 1])
    ensures Trim(before + pin + after) == pin
    decreases |before| + |after|
  {
    var s := before + pin + after;
    if before != [] {
      assert s[1..] == before[1..] + pin + after;
      TrimPadded(before[1..], pin, after);
    } else if after != [] {
      assert s == pin + after;
      if pin == [] {
        assert s[1..] == [] + pin + after[1..];
        TrimPadded([], pin, after[1..]);
      } else {
        assert s[..|s| - 1] == [] + pin + after[..|after| - 1];
        TrimPadded([], pin, after[..|after| - 1]);
      }
    } else {
      assert s == pin;
    }
  }

  /** The characters of the pin encoding (base64url without padding). */
  predicate IsPinChar(c: char) {
    'A' <= c <= 'Z' || 'a' <= c <= 'z' || '0' <= c <= '9' || c == '-' || c == '_'
  }

  /** Blanks, tabs and line breaks around a pin never matter, and no character of a pin is ever taken off. */
  lemma PinSurvivesPadding(before: string, pin: string, after: string)
    requires forall i :: 0 <= i < |pin| ==> IsPinChar(pin[i])
    requires forall i :: 0 <= i < |before| ==> before[i] in " \t\r\n"
    requires forall i :: 0 <= i < |after| ==> after[i] in " \t\r\n"
    ensures Trim(before + pin + after) == pin
  {
    TrimPadded(before, pin, after);
  }

  // ----- the boot decisions between database calls

  /** What the boot policy concludes from the sealed seed: an answer, or the pin and seed to go on with. */
  datatype SeedVerdict = Stop(boot: Boot) | Go(pin: string, seed: seq<byte>)

  function OnSeed(env: Env, args: Args, sealed: Option<seq<byte>>): SeedVerdict {
    match (sealed, args.clientsConfigured)
    case (None, false) => Stop(if args.importPairwise.Some? || args.pin.Some? then Refused else Disabled)
    case (Some(_), false) => Stop(Refused)
    case (None, true) => Stop(Refused)
    case (Some(blob), true) =>
      if args.pin.None? then Stop(Refused)
      else
        var seed := Opened(env, MASTER_SEED_PURPOSE, blob);
        if seed.None? || |seed.value| != MASTER_SEED_LEN then Stop(Refused) else Go(Trim(args.pin.value), seed.value)
  }

  /** What it concludes from the sealed pairwise secret: an answer, or an import still to be written. */
  datatype PairwiseVerdict = Finish(boot: Boot) | Import(keys: Keys, blob: seq<byte>)

  function OnPairwise(env: Env, args: Args, nonce: seq<byte>, pin: string, seed: seq<byte>, sealed: Option<seq<byte>>): PairwiseVerdict {
    if args.importPairwise.Some? && sealed.Some? then Finish(Refused)
    else
      var stored := if sealed.Some? then Opened(env, PAIRWISE_HMAC_PURPOSE, sealed.value) else None;
      if sealed.Some? && stored.None? then Finish(Refused)
      else
        var pairwise := if args.importPairwise.Some? then args.importPairwise else stored;
        var pk := env.publicKey(seed);
        if pk.None? || pk.value != pin then Finish(Refused)
        else
          var keys := Keys(seed, pk.value, pairwise);
          if args.importPairwise.None? then Finish(Enabled(keys))
          else
            var blob := Sealed(env, PAIRWISE_HMAC_PURPOSE, nonce, args.importPairwise.value);
            if blob.None? then Finish(Refused) else Import(keys, blob.value)
  }

  /** The pairwise oracle of a booted service; `None` until a secret was imported. */
  function Pairwise(env: Env, keys: Keys, input: seq<byte>): Option<Text> {
    if keys.pairwise.None? then None else Some(env.hmac(keys.pairwise.value, input))
  }

  function Get(s: Store, purpose: Text): Option<seq<byte>> {
    if purpose in s then Some(s[purpose]) else None
  }

  /** `purpose` is stored and its blob opens to `secret`. */
  ghost predicate Stores(env: Env, store: Store, purpose: Text, secret: seq<byte>) {
    purpose in store && Opened(env, purpose, store[purpose]) == Some(secret)
  }

  /** A configured node whose sealed seed derives the pinned key and whose pairwise secret, if any, opens. */
  predicate ReadyToServe(env: Env, s: Store, args: Args) {
    && args.clientsConfigured && args.pin.Some? && MASTER_SEED_PURPOSE in s
    && var seed := Opened(env, MASTER_SEED_PURPOSE, s[MASTER_SEED_PURPOSE]);
    && seed.Some? && |seed.value| == MASTER_SEED_LEN && env.publicKey(seed.value) == Some(Trim(args.pin.value))
    && (PAIRWISE_HMAC_PURPOSE in s ==> Opened(env, PAIRWISE_HMAC_PURPOSE, s[PAIRWISE_HMAC_PURPOSE]).Some?)
  }

  predicate InitAllowed(pinConfigured: bool, importConfigured: bool) {
    !pinConfigured && !importConfigured
  }

  class ServiceKeyTable {
    var sealed: Store

    constructor ()
      ensures sealed == map[]
    {
      sealed := map[];
    }

    /** Write-once: `false` and no change when the purpose is taken. */
    method InsertServiceKey(purpose: Text, blob: seq<byte>) returns (inserted: bool)
      modifies this
      ensures inserted <==> purpose !in old(sealed)
      ensures sealed == if inserted then old(sealed)[purpose := blob] else old(sealed)
    {
      inserted := purpose !in sealed;
      if inserted { sealed := sealed[purpose := blob]; }
    }

    /** Seals a given seed when none is there; the answer is the public key of the seed now stored. */
    method SealMasterSeed(env: Env, seed: seq<byte>, nonce: seq<byte>) returns (pk: Option<string>)
      requires env.vault.aead.Ideal()
      modifies this
      ensures pk.Some? <==>
        MASTER_SEED_PURPOSE !in old(sealed) && env.publicKey(seed).Some? && Sealable(env, MASTER_SEED_PURPOSE, nonce, seed)
      ensures pk.None? ==> sealed == old(sealed)
      ensures pk.Some? ==>
        && MASTER_SEED_PURPOSE !in old(sealed) && sealed.Keys == old(sealed).Keys + {MASTER_SEED_PURPOSE}
        && (forall p :: p in old(sealed) ==> sealed[p] == old(sealed)[p])
        && Opened(env, MASTER_SEED_PURPOSE, sealed[MASTER_SEED_PURPOSE]) == Some(seed) && env.publicKey(seed) == pk
    {
      if MASTER_SEED_PURPOSE in sealed { return None; }
      pk := env.publicKey(seed);
      if pk.None? { return; }
      var blob := Sealed(env, MASTER_SEED_PURPOSE, nonce, seed);
      if blob.None? { return None; }
      SealedOpens(env, MASTER_SEED_PURPOSE, nonce, seed);
      var inserted := InsertServiceKey(MASTER_SEED_PURPOSE, blob.value);
      if !inserted { return None; }
    }

    /** The one-shot init: guarded by the node's configuration, then a freshly drawn seed. */
    method InitServiceKeys(env: Env, pinConfigured: bool, importConfigured: bool, seed: seq<byte>, nonce: seq<byte>)
      returns (pk: Option<string>)
      requires env.vault.aead.Ideal()
      modifies this
      ensures pk.Some? <==>
        && !pinConfigured && !importConfigured && MASTER_SEED_PURPOSE !in old(sealed)
        && env.publicKey(seed).Some? && Sealable(env, MASTER_SEED_PURPOSE, nonce, seed)
      ensures pk.None? ==> sealed == old(sealed)
      ensures pk.Some? ==>
        && sealed.Keys == old(sealed).Keys + {MASTER_SEED_PURPOSE}
        && Opened(env, MASTER_SEED_PURPOSE, sealed[MASTER_SEED_PURPOSE]) == Some(seed) && env.publicKey(seed) == pk
    {
      if !InitAllowed(pinConfigured, importConfigured) { return None; }
      if MASTER_SEED_PURPOSE in sealed { return None; }
      pk := SealMasterSeed(env, seed, nonce);
    }

    /** The whole boot matrix, run alone: what enables it, what it may write, and that a refusal writes nothing. */
    method PreparePrfBoot(env: Env, args: Args, nonce: seq<byte>) returns (boot: Boot)
      requires env.vault.aead.Ideal()
      modifies this
      ensures !boot.Enabled? ==> sealed == old(sealed)
      ensures boot.Disabled? <==> MASTER_SEED_PURPOSE !in old(sealed) && !args.clientsConfigured && args.importPairwise.None? && args.pin.None?
      ensures boot.Enabled? <==>
        && ReadyToServe(env, old(sealed), args)
        && (args.importPairwise.Some? ==>
             PAIRWISE_HMAC_PURPOSE !in old(sealed) && Sealed(env, PAIRWISE_HMAC_PURPOSE, nonce, args.importPairwise.value).Some?)
      ensures boot.Enabled? ==>
        && args.clientsConfigured && args.pin.Some? && boot.keys.publicKey == Trim(args.pin.value)
        && MASTER_SEED_PURPOSE in old(sealed) && Opened(env, MASTER_SEED_PURPOSE, old(sealed)[MASTER_SEED_PURPOSE]) == Some(boot.keys.seed)
        && env.publicKey(boot.keys.seed) == Some(boot.keys.publicKey)
        && (args.importPairwise.Some? ==> PAIRWISE_HMAC_PURPOSE !in old(sealed) && boot.keys.pairwise == args.importPairwise)
        && (forall p :: p in old(sealed) ==> p in sealed && sealed[p] == old(sealed)[p])
        && boot.keys.pairwise == (if PAIRWISE_HMAC_PURPOSE in sealed then Opened(env, PAIRWISE_HMAC_PURPOSE, sealed[PAIRWISE_HMAC_PURPOSE]) else None)
        && (forall input :: Pairwise(env, boot.keys, input).Some? <==> PAIRWISE_HMAC_PURPOSE in sealed)
        && (forall secret, input :: Stores(env, sealed, PAIRWISE_HMAC_PURPOSE, secret) ==> Pairwise(env, boot.keys, input) == Some(env.hmac(secret, input)))
    {
      var onSeed := OnSeed(env, args, Get(sealed, MASTER_SEED_PURPOSE));
      if onSeed.Stop? { return onSeed.boot; }
      var onPairwise := OnPairwise(env, args, nonce, onSeed.pin, onSeed.seed, Get(sealed, PAIRWISE_HMAC_PURPOSE));
      if onPairwise.Finish? { return onPairwise.boot; }
      SealedOpens(env, PAIRWISE_HMAC_PURPOSE, nonce, args.importPairwise.value);
      var inserted := InsertServiceKey(PAIRWISE_HMAC_PURPOSE, onPairwise.blob);
      if !inserted { return Refused; }
      return Enabled(onPairwise.keys);
    }
  }
}
