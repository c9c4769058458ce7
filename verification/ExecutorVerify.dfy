/** verify of x_mcp_verify.js: which requests the executor takes for signed ones.

    Digest, MAC and parseInt are library functions. A field that is absent or null is missing from the
    received actor; received fields are strings, or the number issued_at as its text. (Of the null time
    stamp the script would read the text "null": neither that nor an absent one parses, so both are
    refused as stale.) */
module ExecutorVerify {
  import opened Utf8
  import opened CanonicalActor
  import opened Wrappers

  datatype Library = Library(
    sha256Base64: Utf16 -> Utf16,
    hmacBase64: (Utf16, Utf16) -> Option<Utf16>,
    parseInt: Utf16 -> Option<int>)

  /** The secrets the installer put in; empty where it put none. */
  datatype Secrets = Secrets(current: Utf16, previous: Utf16)

  const FRESHNESS_MS := 120 * 1000

  const INSTANCE := 3
  const SCRIPT_SHA256 := 5
  const NONCE := 7

  const DOT: CodeUnit := 0x2E

  predicate InstanceMatches(name: Utf16, claimed: Utf16) {
    name != [] && claimed != [] && (claimed == name || name + [DOT] <= claimed)
  }

  predicate MacMatches(lib: Library, key: Utf16, message: Utf16, sig: Utf16) {
    key != [] && lib.hmacBase64(key, message) == Some(sig)
  }

  predicate FreshText(lib: Library, text: Utf16, now: int) {
    lib.parseInt(text).Some? && -FRESHNESS_MS <= now - lib.parseInt(text).value <= FRESHNESS_MS
  }

  /** The accumulating comparison: no early exit, and null never equals anything. */
  method ConstantTimeEquals(a: Option<Utf16>, b: Option<Utf16>) returns (same: bool)
    ensures same <==> a.Some? && b.Some? && a.value == b.value
  {
    if a.None? || b.None? {
      return false;
    }
    if |a.value| != |b.value| {
      return false;
    }
    var diff := false;
    for i := 0 to |a.value|
      invariant diff <==> exists j :: 0 <= j < i && a.value[j] != b.value[j]
    {
      diff := diff || a.value[i] != b.value[i];
    }
    same := !diff;
  }

  /** A field other than the time stamp. */
  function Field(keys: Nine, actor: Received, k: nat): Utf16
    requires k < 9
  {
    if keys[k] in actor then actor[keys[k]] else []
  }

  /** One installed verifier. */
  datatype Installation = Installation(lib: Library, keys: Nine, secrets: Secrets, instanceName: Utf16)

  /** The signature is the MAC of this message under one of the installed secrets. */
  predicate SignatureOf(inst: Installation, message: Utf16, sig: Utf16) {
    MacMatches(inst.lib, inst.secrets.current, message, sig) || MacMatches(inst.lib, inst.secrets.previous, message, sig)
  }

  /** A request is taken exactly when it is bound to the script and to this instance, fresh, carries a
      nonce, and its signature is that of the rebuilt string. */
  predicate Accepts(inst: Installation, script: Utf16, actor: Received, sig: Utf16, now: int) {
    && inst.lib.sha256Base64(script) == Field(inst.keys, actor, SCRIPT_SHA256)
    && InstanceMatches(inst.instanceName, Field(inst.keys, actor, INSTANCE))
    && FreshText(inst.lib, TextAt(inst.keys, actor, ISSUED_AT), now)
    && Field(inst.keys, actor, NONCE) != []
    && sig != [] && SignatureOf(inst, Canonical(inst.keys, ReceivedTexts(inst.keys, actor)), sig)
  }

  /** The signature is the MAC of the message under this installed secret. */
  predicate MacUnder(inst: Installation, secret: Utf16, message: Utf16, sig: Utf16) {
    secret in {inst.secrets.current, inst.secrets.previous} && secret != [] && inst.lib.hmacBase64(secret, message) == Some(sig)
  }

  /** The request is not forged: if its signature checks out, the string was signed by the host. (The MAC
      of any other string exists as a value, but no one without a secret can present it.) */
  ghost predicate Genuine(inst: Installation, signed: iset<SignedActorPayload>, actor: Received, sig: Utf16) {
    (exists secret :: MacUnder(inst, secret, Canonical(inst.keys, ReceivedTexts(inst.keys, actor)), sig)) ==>
      exists p :: p in signed && Canonical(inst.keys, ReceivedTexts(inst.keys, actor)) == Canonical(inst.keys, Texts(p))
  }

  /** The time stamps the host signs are read back as they were. */
  ghost predicate StampsReadBack(inst: Installation, signed: iset<SignedActorPayload>) {
    forall p :: p in signed ==> inst.lib.parseInt(IntText(p.issued_at)) == Some(p.issued_at)
  }

  /** The payload is for this script on this instance, names a nonce, and was issued within two minutes of
      this time. */
  predicate BindsTo(inst: Installation, p: SignedActorPayload, script: Utf16, now: int) {
    && inst.lib.sha256Base64(script) == p.script_sha256
    && inst.instanceName != [] && (p.instance == inst.instanceName || inst.instanceName + [0x2E] <= p.instance)
    && -120_000 <= now - p.issued_at <= 120_000
    && p.nonce != []
  }

  /** The actor carries this payload, and the signature is that of the payload under an installed secret. */
  ghost predicate Carries(inst: Installation, actor: Received, sig: Utf16, p: SignedActorPayload) {
    && ReceivedTexts(inst.keys, actor) == Texts(p)
    && sig != [] && exists secret :: MacUnder(inst, secret, Canonical(inst.keys, Texts(p)), sig)
  }

  method Verify(inst: Installation, script: Utf16, actor: Received, sig: Utf16, now: int) returns (verified: bool)
    ensures verified <==> Accepts(inst, script, actor, sig, now)
    ensures forall signed: iset<SignedActorPayload> :: Genuine(inst, signed, actor, sig) && StampsReadBack(inst, signed) ==>
      (verified <==> exists p :: p in signed && Carries(inst, actor, sig, p) && BindsTo(inst, p, script, now))
  {
    VerifiedExactly(inst, script, actor, sig, now);
    if sig == [] {
      return false;
    }
    if inst.lib.sha256Base64(script) != Field(inst.keys, actor, SCRIPT_SHA256) {
      return false;
    }
    if !InstanceMatches(inst.instanceName, Field(inst.keys, actor, INSTANCE)) {
      return false;
    }
    var issued := inst.lib.parseInt(TextAt(inst.keys, actor, ISSUED_AT));
    if issued.None? || now - issued.value > FRESHNESS_MS || issued.value - now > FRESHNESS_MS {
      return false;
    }
    if Field(inst.keys, actor, NONCE) == [] {
      return false;
    }
    var canonical := ExecutorCanonical(inst.keys, actor);
    verified := false;
    if inst.secrets.current != [] {
      verified := ConstantTimeEquals(inst.lib.hmacBase64(inst.secrets.current, canonical), Some(sig));
    }
    if !verified && inst.secrets.previous != [] {
      verified := ConstantTimeEquals(inst.lib.hmacBase64(inst.secrets.previous, canonical), Some(sig));
    }
  }

  lemma FieldText(keys: Nine, actor: Received, t: Nine, k: nat)
    requires k < 9 && ReceivedTexts(keys, actor) == t
    ensures TextAt(keys, actor, k) == t[k] && (k != ISSUED_AT ==> Field(keys, actor, k) == t[k])
  {
    assert ReceivedTexts(keys, actor)[k] == TextAt(keys, actor, k);
  }

  lemma SignedTexts(keys: Nine, t: Nine, m: Utf16, p: SignedActorPayload)
    requires m == Canonical(keys, t) && m == Canonical(keys, Texts(p))
    ensures t == Texts(p)
  {
    CanonicalInjective(keys, t, Texts(p));
  }

  lemma TextsOf(p: SignedActorPayload)
    ensures Texts(p)[ISSUED_AT] == IntText(p.issued_at) && Texts(p)[NONCE] == p.nonce
    ensures Texts(p)[SCRIPT_SHA256] == p.script_sha256 && Texts(p)[INSTANCE] == p.instance
  {
  }

  /** A request whose signature checks out is, field by field, a payload the host signed, and the time
      that is checked is the time that was signed. */
  lemma VerifiedIsSigned(inst: Installation, actor: Received, sig: Utf16, m: Utf16, signed: iset<SignedActorPayload>)
    returns (p: SignedActorPayload)
    requires Genuine(inst, signed, actor, sig) && StampsReadBack(inst, signed)
    requires m == Canonical(inst.keys, ReceivedTexts(inst.keys, actor)) && SignatureOf(inst, m, sig)
    ensures p in signed && ReceivedTexts(inst.keys, actor) == Texts(p)
    ensures inst.lib.parseInt(TextAt(inst.keys, actor, ISSUED_AT)) == Some(p.issued_at)
    ensures Field(inst.keys, actor, NONCE) == p.nonce && Field(inst.keys, actor, SCRIPT_SHA256) == p.script_sha256
    ensures Field(inst.keys, actor, INSTANCE) == p.instance
  {
    assert MacUnder(inst, inst.secrets.current, m, sig) || MacUnder(inst, inst.secrets.previous, m, sig);
    p :| p in signed && m == Canonical(inst.keys, Texts(p));
    SignedTexts(inst.keys, ReceivedTexts(inst.keys, actor), m, p);
    TextsOf(p);
    FieldText(inst.keys, actor, Texts(p), ISSUED_AT);
    FieldText(inst.keys, actor, Texts(p), NONCE);
    FieldText(inst.keys, actor, Texts(p), SCRIPT_SHA256);
    FieldText(inst.keys, actor, Texts(p), INSTANCE);
  }

  /** A request that is taken carries a payload the host signed for this very script and this instance, not
      two minutes ago. */
  lemma AcceptedIsBound(inst: Installation, signed: iset<SignedActorPayload>, script: Utf16, actor: Received, sig: Utf16, now: int)
    returns (p: SignedActorPayload)
    requires Genuine(inst, signed, actor, sig) && StampsReadBack(inst, signed)
    requires Accepts(inst, script, actor, sig, now)
    ensures p in signed && Carries(inst, actor, sig, p) && BindsTo(inst, p, script, now)
  {
    var m := Canonical(inst.keys, ReceivedTexts(inst.keys, actor));
    p := VerifiedIsSigned(inst, actor, sig, m, signed);
    assert MacUnder(inst, inst.secrets.current, m, sig) || MacUnder(inst, inst.secrets.previous, m, sig);
  }

  /** A payload signed under either installed secret, for this script and instance, fresh and with a nonce,
      is taken. */
  lemma BoundIsAccepted(inst: Installation, script: Utf16, actor: Received, sig: Utf16, now: int, p: SignedActorPayload)
    requires Carries(inst, actor, sig, p) && BindsTo(inst, p, script, now)
    requires inst.lib.parseInt(IntText(p.issued_at)) == Some(p.issued_at)
    ensures Accepts(inst, script, actor, sig, now)
  {
    var secret :| MacUnder(inst, secret, Canonical(inst.keys, Texts(p)), sig);
    TextsOf(p);
    FieldText(inst.keys, actor, Texts(p), ISSUED_AT);
    FieldText(inst.keys, actor, Texts(p), NONCE);
    FieldText(inst.keys, actor, Texts(p), SCRIPT_SHA256);
    FieldText(inst.keys, actor, Texts(p), INSTANCE);
  }

  lemma VerifiedExactly(inst: Installation, script: Utf16, actor: Received, sig: Utf16, now: int)
    ensures forall signed: iset<SignedActorPayload> :: Genuine(inst, signed, actor, sig) && StampsReadBack(inst, signed) ==>
      (Accepts(inst, script, actor, sig, now) <==>
       exists p :: p in signed && Carries(inst, actor, sig, p) && BindsTo(inst, p, script, now))
  {
    forall signed: iset<SignedActorPayload> | Genuine(inst, signed, actor, sig) && StampsReadBack(inst, signed)
      ensures Accepts(inst, script, actor, sig, now) <==>
        exists p :: p in signed && Carries(inst, actor, sig, p) && BindsTo(inst, p, script, now)
    {
      if Accepts(inst, script, actor, sig, now) {
        var p := AcceptedIsBound(inst, signed, script, actor, sig, now);
      } else if p :| p in signed && Carries(inst, actor, sig, p) && BindsTo(inst, p, script, now) {
        BoundIsAccepted(inst, script, actor, sig, now, p);
      }
    }
  }

  ghost predicate DistinctNonces(signed: iset<SignedActorPayload>) {
    forall p, q :: p in signed && q in signed && p.nonce == q.nonce ==> p == q
  }

  /** All the times at which genuine requests with one nonce are accepted lie within twice the freshness. */
  lemma AcceptedBriefly(inst: Installation, signed: iset<SignedActorPayload>,
                        script: Utf16, actor: Received, sig: Utf16, t: int,
                        script2: Utf16, actor2: Received, sig2: Utf16, u: int)
    requires Genuine(inst, signed, actor, sig) && Genuine(inst, signed, actor2, sig2)
    requires StampsReadBack(inst, signed) && DistinctNonces(signed)
    requires Accepts(inst, script, actor, sig, t) && Accepts(inst, script2, actor2, sig2, u)
    requires Field(inst.keys, actor, NONCE) == Field(inst.keys, actor2, NONCE)
    ensures t - u <= 2 * FRESHNESS_MS
  {
    var p := VerifiedIsSigned(inst, actor, sig, Canonical(inst.keys, ReceivedTexts(inst.keys, actor)), signed);
    var q := VerifiedIsSigned(inst, actor2, sig2, Canonical(inst.keys, ReceivedTexts(inst.keys, actor2)), signed);
    assert p == q;
  }
}
