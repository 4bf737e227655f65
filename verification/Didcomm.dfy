/**
 The DIDComm envelope: one content key wrapped for each recipient under a key
 agreed by Diffie-Hellman, and the holder's search for a recipient entry it can
 open (sections 5.1 and 5.2 of RFC 7516).

 The primitives the code imports (X25519, SHA-256, XChaCha20-Poly1305, AES,
 base64url, JSON) are a parameter, `Primitives`; `Lawful` lists what is asked of
 them.  What the code draws at random is a parameter too.
 */
module Didcomm {
  import opened Results
  import opened Sequences
  import opened KeyWrap
  import opened ByteCodes
  import opened KeyDerivation

  const MEDIA_TYPE_ENCRYPTED := "application/didcomm-encrypted+json"
  const ALG_ANONCRYPT := "ECDH-ES+A256KW"
  const ALG_AUTHCRYPT := "ECDH-1PU+A256KW"
  const ENC_XC20P := "XC20P"
  const TAG_SIZE := 16
  const NONCE_SIZE := 24

  datatype Recipient = Recipient(kid: string, pubKey: Bytes)
  datatype Header = Header(typ: string, alg: string, enc: string, skid: string, apu: string, apv: string)
  datatype Epk = Epk(kty: string, crv: string, x: string)
  datatype JweRecipient = JweRecipient(kid: string, epk: Option<Epk>, encryptedKey: string)
  datatype Envelope = Envelope(prot: string, recipients: seq<JweRecipient>, iv: string, ciphertext: string, tag: string)

  datatype Primitives = Primitives(
    cipher: Cipher,
    // scalar and point; None for the points the library rejects
    x25519: (Bytes, Bytes) -> Option<Bytes>,
    basepoint: Bytes,
    sha256: Bytes -> Bytes,
    // key, nonce, text, additional data
    seal: (Bytes, Bytes, Bytes, Bytes) -> Bytes,
    open: (Bytes, Bytes, Bytes, Bytes) -> Option<Bytes>,
    toBase64: Bytes -> string,
    fromBase64: string -> Option<Bytes>,
    utf8: string -> Bytes,
    sortStrings: seq<string> -> seq<string>,
    headerJson: Header -> Bytes,
    parseHeader: Bytes -> Option<Header>,
    envelopeJson: Envelope -> Bytes,
    parseEnvelope: Bytes -> Option<Envelope>)

  // Whether the scalar is the private key of the public key.
  predicate KeyPair(p: Primitives, priv: Bytes, pub: Bytes) {
    p.x25519(priv, p.basepoint) == Some(pub)
  }

  ghost predicate DhLaw(p: Primitives) {
    && (forall a, pa, b, pb :: KeyPair(p, a, pa) && KeyPair(p, b, pb) ==> p.x25519(a, pb) == p.x25519(b, pa))
    && (forall a, q :: p.x25519(a, q).Some? ==> |p.x25519(a, q).value| == 32)
  }

  ghost predicate AeadLaw(p: Primitives) {
    forall k, n, m, aad :: |p.seal(k, n, m, aad)| >= TAG_SIZE && p.open(k, n, p.seal(k, n, m, aad), aad) == Some(m)
  }

  ghost predicate CodecLaw(p: Primitives) {
    && (forall b :: p.fromBase64(p.toBase64(b)) == Some(b) && (p.toBase64(b) == "" ==> b == []))
    && (forall h :: p.parseHeader(p.headerJson(h)) == Some(h))
    && (forall e :: p.parseEnvelope(p.envelopeJson(e)) == Some(e))
  }

  // Sorting rearranges, and forgets the order.
  ghost predicate SortLaw(p: Primitives) {
    && (forall s :: multiset(p.sortStrings(s)) == multiset(s))
    && (forall s, t :: multiset(s) == multiset(t) ==> p.sortStrings(s) == p.sortStrings(t))
  }

  // The names of the two algorithms are plain ASCII.
  ghost predicate AsciiLaw(p: Primitives) {
    |p.utf8(ALG_ANONCRYPT)| == |ALG_ANONCRYPT| && |p.utf8(ALG_AUTHCRYPT)| == |ALG_AUTHCRYPT|
  }

  ghost predicate Lawful(p: Primitives) {
    && CipherLaw(p.cipher) && DhLaw(p) && AeadLaw(p) && CodecLaw(p)
    && (forall b :: |p.sha256(b)| == 32) && AsciiLaw(p) && SortLaw(p)
  }

  // ----- key derivation (section 4.6.2 of RFC 7518) -----

  // Optional party information: absent, or its decoded bytes.
  function PartyInfo(p: Primitives, b64: string): Option<Bytes> {
    if b64 == "" then Some([]) else p.fromBase64(b64)
  }

  // What a key is derived from, and the key.
  function KdfText(p: Primitives, z: Bytes, alg: string, apuB64: string, apvB64: string): Option<Bytes> {
    match (PartyInfo(p, apuB64), PartyInfo(p, apvB64))
    case (Some(apu), Some(apv)) => Some(KdfInput(z, p.utf8(alg), apu, apv))
    case _ => None
  }

  function ConcatKdf(p: Primitives, z: Bytes, alg: string, apuB64: string, apvB64: string): Option<Bytes> {
    match KdfText(p, z, alg, apuB64, apvB64)
    case Some(h) => Some(p.sha256(h))
    case None => None
  }

  // ----- key agreement -----

  function EsKekSender(p: Primitives, ephPriv: Bytes, recipPub: Bytes, alg: string, apv: string): Option<Bytes> {
    match p.x25519(ephPriv, recipPub)
    case Some(z) => ConcatKdf(p, z, alg, "", apv)
    case None => None
  }

  function EsKekRecipient(p: Primitives, recipPriv: Bytes, ephPub: Bytes, alg: string, apv: string): Option<Bytes> {
    match p.x25519(recipPriv, ephPub)
    case Some(z) => ConcatKdf(p, z, alg, "", apv)
    case None => None
  }

  function OnePuKekSender(p: Primitives, ephPriv: Bytes, senderPriv: Bytes, recipPub: Bytes,
                          alg: string, apu: string, apv: string): Option<Bytes> {
    match (p.x25519(ephPriv, recipPub), p.x25519(senderPriv, recipPub))
    case (Some(ze), Some(zs)) => ConcatKdf(p, ze + zs, alg, apu, apv)
    case _ => None
  }

  function OnePuKekRecipient(p: Primitives, ephPub: Bytes, recipPriv: Bytes, senderPub: Bytes,
                             alg: string, apu: string, apv: string): Option<Bytes> {
    match (p.x25519(recipPriv, ephPub), p.x25519(recipPriv, senderPub))
    case (Some(ze), Some(zs)) => ConcatKdf(p, ze + zs, alg, apu, apv)
    case _ => None
  }

  // ----- packing -----

  // What packing draws at random: content key, one scalar per recipient, nonce.
  datatype Randomness = Randomness(cek: Bytes, scalars: seq<Bytes>, iv: Bytes)

  ghost predicate RandomnessOk(rnd: Randomness, n: nat) {
    && |rnd.cek| == 32 && |rnd.iv| == NONCE_SIZE && |rnd.scalars| == n
    && forall i :: 0 <= i < n ==> |rnd.scalars[i]| == 32
  }

  // The clamping of a random scalar (section 5 of RFC 7748).
  function Clamp(raw: Bytes): Bytes
    requires |raw| == 32
  {
    raw[0 := raw[0] & 248][31 := (raw[31] & 127) | 64]
  }

  function Kids(recipients: seq<Recipient>): seq<string> {
    seq(|recipients|, i requires 0 <= i < |recipients| => recipients[i].kid)
  }

  // The recipients' key IDs, sorted.
  function RecipientList(p: Primitives, recipients: seq<Recipient>): string {
    Join(p.sortStrings(Kids(recipients)), ".")
  }

  function Apv(p: Primitives, recipients: seq<Recipient>): string {
    p.toBase64(p.sha256(p.utf8(RecipientList(p, recipients))))
  }

  function HeaderFor(p: Primitives, recipients: seq<Recipient>, senderKid: string, senderPriv: Option<Bytes>): Header {
    match senderPriv
    case None => Header(MEDIA_TYPE_ENCRYPTED, ALG_ANONCRYPT, ENC_XC20P, "", "", Apv(p, recipients))
    case Some(_) =>
      var apu := p.toBase64(p.utf8(senderKid));
      Header(MEDIA_TYPE_ENCRYPTED, ALG_AUTHCRYPT, ENC_XC20P, senderKid, apu, Apv(p, recipients))
  }

  function SenderKek(p: Primitives, h: Header, senderPriv: Option<Bytes>, scalar: Bytes, r: Recipient): Option<Bytes> {
    match senderPriv
    case None => EsKekSender(p, scalar, r.pubKey, h.alg, h.apv)
    case Some(s) => OnePuKekSender(p, scalar, s, r.pubKey, h.alg, h.apu, h.apv)
  }

  function EntryFor(p: Primitives, h: Header, senderPriv: Option<Bytes>, cek: Bytes, scalar: Bytes,
                    r: Recipient): Result<JweRecipient> {
    match p.x25519(scalar, p.basepoint)
    case None => Err("ephemeral key")
    case Some(ephPub) =>
      match SenderKek(p, h, senderPriv, scalar, r)
      case None => Err("kek")
      case Some(kek) =>
        match Wrapped(p.cipher, kek, cek)
        case Err(e) => Err(e)
        case Ok(wrapped) => Ok(JweRecipient(r.kid, Some(Epk("OKP", "X25519", p.toBase64(ephPub))), p.toBase64(wrapped)))
  }

  // The entries for the first k recipients, or the first error.
  function Entries(p: Primitives, h: Header, senderPriv: Option<Bytes>, rnd: Randomness, recipients: seq<Recipient>,
                   k: nat): Result<seq<JweRecipient>>
    requires k <= |recipients| && RandomnessOk(rnd, |recipients|)
  {
    if k == 0 then Ok([]) else
    match Entries(p, h, senderPriv, rnd, recipients, k - 1)
    case Err(e) => Err(e)
    case Ok(es) =>
      match EntryFor(p, h, senderPriv, rnd.cek, Clamp(rnd.scalars[k - 1]), recipients[k - 1])
      case Err(e) => Err(e)
      case Ok(entry) => Ok(es + [entry])
  }

  function Sealed(p: Primitives, prot: string, es: seq<JweRecipient>, rnd: Randomness, msg: Bytes): Envelope
    requires AeadLaw(p)
  {
    var sealed := p.seal(rnd.cek, rnd.iv, msg, p.utf8(prot));
    var tagOff := |sealed| - TAG_SIZE;
    Envelope(prot, es, p.toBase64(rnd.iv), p.toBase64(sealed[..tagOff]), p.toBase64(sealed[tagOff..]))
  }

  function Packed(p: Primitives, msg: Bytes, recipients: seq<Recipient>, senderKid: string, senderPriv: Option<Bytes>,
                  rnd: Randomness): Result<Bytes>
    requires AeadLaw(p) && RandomnessOk(rnd, |recipients|)
  {
    if recipients == [] then Err("at least one recipient required") else
    var h := HeaderFor(p, recipients, senderKid, senderPriv);
    match Entries(p, h, senderPriv, rnd, recipients, |recipients|)
    case Err(e) => Err(e)
    case Ok(es) => Ok(p.envelopeJson(Sealed(p, p.toBase64(p.headerJson(h)), es, rnd, msg)))
  }

  /** Packing: the per-recipient loop, then the content encryption. */
  method PackEnvelope(p: Primitives, msg: Bytes, recipients: seq<Recipient>, senderKid: string,
                      senderPriv: Option<Bytes>, rnd: Randomness)
      returns (r: Result<Bytes>)
    requires AeadLaw(p) && RandomnessOk(rnd, |recipients|)
    ensures r == Packed(p, msg, recipients, senderKid, senderPriv, rnd)
  {
    hide AeadLaw, HeaderFor, EntryFor, Sealed;
    if recipients == [] {
      return Err("at least one recipient required");
    }
    var h := HeaderFor(p, recipients, senderKid, senderPriv);
    var es := [];
    for i := 0 to |recipients|
      invariant Entries(p, h, senderPriv, rnd, recipients, i) == Ok(es)
      invariant forall k :: 0 <= k < i ==> EntryFor(p, h, senderPriv, rnd.cek, Clamp(rnd.scalars[k]), recipients[k]).Ok?
    {
      var entry := EntryFor(p, h, senderPriv, rnd.cek, Clamp(rnd.scalars[i]), recipients[i]);
      if entry.Err? {
        EntriesStopAtError(p, h, senderPriv, rnd, recipients, i, |recipients|);
        return Err(entry.reason);
      }
      es := es + [entry.value];
    }
    return Ok(p.envelopeJson(Sealed(p, p.toBase64(p.headerJson(h)), es, rnd, msg)));
  }

  lemma {:induction false} EntriesStopAtError(p: Primitives, h: Header, senderPriv: Option<Bytes>, rnd: Randomness,
                                              recipients: seq<Recipient>, i: nat, k: nat)
    requires i < k <= |recipients| && RandomnessOk(rnd, |recipients|)
    requires Entries(p, h, senderPriv, rnd, recipients, i).Ok?
    requires EntryFor(p, h, senderPriv, rnd.cek, Clamp(rnd.scalars[i]), recipients[i]).Err?
    ensures Entries(p, h, senderPriv, rnd, recipients, k)
         == Err(EntryFor(p, h, senderPriv, rnd.cek, Clamp(rnd.scalars[i]), recipients[i]).reason)
    decreases k
  {
    hide EntryFor;
    if k > i + 1 {
      EntriesStopAtError(p, h, senderPriv, rnd, recipients, i, k - 1);
    }
  }

  // ----- unpacking -----

  type KeyFn = string -> Option<Bytes>

  const ZERO_KEY: Bytes := seq(32, _ => 0)

  // The content key one entry yields to a holder, if it can be opened.
  function TryEntry(p: Primitives, h: Header, senderPub: Bytes, recipKeyFn: KeyFn, e: JweRecipient): Option<Bytes> {
    match recipKeyFn(e.kid)
    case None => None
    case Some(priv) =>
      if e.epk.None? then None else
      match p.fromBase64(e.epk.value.x)
      case None => None
      case Some(ephPub) =>
        if |ephPub| != 32 then None else
        match RecipientKek(p, h, senderPub, priv, ephPub)
        case None => None
        case Some(kek) =>
          match p.fromBase64(e.encryptedKey)
          case None => None
          case Some(encKey) =>
            match Unwrapped(p.cipher, kek, encKey)
            case Err(_) => None
            case Ok(cek) => if |cek| != 32 then None else Some(cek)
  }

  function RecipientKek(p: Primitives, h: Header, senderPub: Bytes, priv: Bytes, ephPub: Bytes): Option<Bytes> {
    if h.alg == ALG_ANONCRYPT then EsKekRecipient(p, priv, ephPub, h.alg, h.apv)
    else if h.alg == ALG_AUTHCRYPT then OnePuKekRecipient(p, ephPub, priv, senderPub, h.alg, h.apu, h.apv)
    else None
  }

  // The content key from the first entry, at or after k, that opens.
  function FirstCek(p: Primitives, h: Header, senderPub: Bytes, recipKeyFn: KeyFn, es: seq<JweRecipient>,
                    k: nat): Option<Bytes>
    requires k <= |es|
    decreases |es| - k
  {
    if k == |es| then None
    else if TryEntry(p, h, senderPub, recipKeyFn, es[k]).Some? then TryEntry(p, h, senderPub, recipKeyFn, es[k])
    else FirstCek(p, h, senderPub, recipKeyFn, es, k + 1)
  }

  function SenderKey(h: Header, senderPubFn: Option<KeyFn>): Result<Bytes> {
    if h.skid == "" then Ok(ZERO_KEY)
    else match senderPubFn
      case None => Err("authcrypt envelope requires senderPubFn")
      case Some(f) => if f(h.skid).Some? then Ok(f(h.skid).value) else Err("resolve sender key")
  }

  datatype Opened = Opened(msg: Bytes, senderKid: string)

  function OpenContent(p: Primitives, env: Envelope, cek: Bytes, skid: string): Result<Opened> {
    match (p.fromBase64(env.iv), p.fromBase64(env.ciphertext), p.fromBase64(env.tag))
    case (Some(iv), Some(ct), Some(tag)) =>
      if |iv| != NONCE_SIZE then Err("panic: bad nonce length") else
      (match p.open(cek, iv, ct + tag, p.utf8(env.prot))
       case None => Err("decrypt content")
       case Some(m) => Ok(Opened(m, skid)))
    case _ => Err("decode")
  }

  function Unpacked(p: Primitives, wire: Bytes, recipKeyFn: KeyFn, senderPubFn: Option<KeyFn>): Result<Opened> {
    match p.parseEnvelope(wire)
    case None => Err("parse envelope")
    case Some(env) =>
      match p.fromBase64(env.prot)
      case None => Err("decode protected header")
      case Some(json) =>
        match p.parseHeader(json)
        case None => Err("parse protected header")
        case Some(h) => UnpackedWith(p, env, h, recipKeyFn, senderPubFn)
  }

  function UnpackedWith(p: Primitives, env: Envelope, h: Header, recipKeyFn: KeyFn,
                        senderPubFn: Option<KeyFn>): Result<Opened> {
    match SenderKey(h, senderPubFn)
    case Err(e) => Err(e)
    case Ok(senderPub) =>
      match FirstCek(p, h, senderPub, recipKeyFn, env.recipients, 0)
      case None => Err("no matching recipient key found")
      case Some(cek) => OpenContent(p, env, cek, h.skid)
  }

  /** Unpacking: the search loop over the recipient entries, then the decryption. */
  method UnpackEnvelope(p: Primitives, wire: Bytes, recipKeyFn: KeyFn, senderPubFn: Option<KeyFn>)
      returns (r: Result<Opened>)
    ensures r == Unpacked(p, wire, recipKeyFn, senderPubFn)
  {
    hide TryEntry, OpenContent, SenderKey;
    var env := p.parseEnvelope(wire);
    if env.None? {
      return Err("parse envelope");
    }
    var json := p.fromBase64(env.value.prot);
    if json.None? {
      return Err("decode protected header");
    }
    var h := p.parseHeader(json.value);
    if h.None? {
      return Err("parse protected header");
    }
    var senderPub := SenderKey(h.value, senderPubFn);
    if senderPub.Err? {
      return Err(senderPub.reason);
    }
    var es := env.value.recipients;
    for i := 0 to |es|
      invariant FirstCek(p, h.value, senderPub.value, recipKeyFn, es, 0)
             == FirstCek(p, h.value, senderPub.value, recipKeyFn, es, i)
    {
      var cek := TryEntry(p, h.value, senderPub.value, recipKeyFn, es[i]);
      if cek.Some? {
        return OpenContent(p, env.value, cek.value, h.value.skid);
      }
    }
    return Err("no matching recipient key found");
  }
}
