/**
 What the DIDComm envelope guarantees: what a packed envelope contains and what its keys
 are derived from, exactly which entries open, and the round trip.
 */
module DidcommOpening {
  import opened Results
  import opened Sequences
  import opened KeyWrap
  import opened ByteCodes
  import opened KeyDerivation
  import opened Didcomm

  // ----- the round trip -----

  // The sender is anonymous, or named and resolvable to the key that packed.
  ghost predicate SenderResolves(p: Primitives, senderKid: string, senderPriv: Option<Bytes>,
                                 senderPubFn: Option<KeyFn>) {
    match senderPriv
    case None => senderKid == ""
    case Some(s) => senderKid != "" && senderPubFn.Some? && senderPubFn.value(senderKid).Some?
                    && KeyPair(p, s, senderPubFn.value(senderKid).value)
  }

  // Sender and recipient derive the same key-encryption key.
  lemma KeksAgree(p: Primitives, h: Header, senderPriv: Option<Bytes>, senderPub: Bytes, scalar: Bytes, ephPub: Bytes,
                  priv: Bytes, r: Recipient)
    requires DhLaw(p) && KeyPair(p, scalar, ephPub) && KeyPair(p, priv, r.pubKey)
    requires senderPriv.Some? ==> KeyPair(p, senderPriv.value, senderPub) && h.alg == ALG_AUTHCRYPT
    requires senderPriv.None? ==> h.alg == ALG_ANONCRYPT
    ensures SenderKek(p, h, senderPriv, scalar, r) == RecipientKek(p, h, senderPub, priv, ephPub)
  {
    assert p.x25519(scalar, r.pubKey) == p.x25519(priv, ephPub);
    if senderPriv.Some? {
      assert p.x25519(senderPriv.value, r.pubKey) == p.x25519(priv, senderPub);
    }
    assert ALG_ANONCRYPT != ALG_AUTHCRYPT by { assert |ALG_ANONCRYPT| != |ALG_AUTHCRYPT|; }
  }

  lemma KekSize(p: Primitives, h: Header, senderPriv: Option<Bytes>, scalar: Bytes, r: Recipient)
    requires Lawful(p) && SenderKek(p, h, senderPriv, scalar, r).Some?
    ensures |SenderKek(p, h, senderPriv, scalar, r).value| == 32
  {
    hide DhLaw, AeadLaw, CodecLaw, SortLaw, CipherLaw, KdfInput;
  }

  // A matching holder opens the entry made for it.
  lemma EntryOpens(p: Primitives, h: Header, senderPriv: Option<Bytes>, senderPub: Bytes, cek: Bytes, scalar: Bytes,
                   priv: Bytes, r: Recipient, keyFn: KeyFn)
    requires Lawful(p) && |cek| == 32 && keyFn(r.kid) == Some(priv) && KeyPair(p, priv, r.pubKey)
    requires senderPriv.Some? ==> KeyPair(p, senderPriv.value, senderPub) && h.alg == ALG_AUTHCRYPT
    requires senderPriv.None? ==> h.alg == ALG_ANONCRYPT
    requires EntryFor(p, h, senderPriv, cek, scalar, r).Ok?
    ensures TryEntry(p, h, senderPub, keyFn, EntryFor(p, h, senderPriv, cek, scalar, r).value) == Some(cek)
  {
    hide AeadLaw, SortLaw, Wrapped, Unwrapped, SenderKek, RecipientKek;
    var ephPub := p.x25519(scalar, p.basepoint).value;
    KeksAgree(p, h, senderPriv, senderPub, scalar, ephPub, priv, r);
    var kek := SenderKek(p, h, senderPriv, scalar, r).value;
    KekSize(p, h, senderPriv, scalar, r);
    UnwrapInvertsWrap(p.cipher, kek, cek);
  }

  lemma {:induction false} EntryAt(p: Primitives, h: Header, senderPriv: Option<Bytes>, rnd: Randomness,
                                   recipients: seq<Recipient>, k: nat, i: nat)
    requires i < k <= |recipients| && RandomnessOk(rnd, |recipients|)
    requires Entries(p, h, senderPriv, rnd, recipients, k).Ok?
    ensures |Entries(p, h, senderPriv, rnd, recipients, k).value| == k
    ensures EntryFor(p, h, senderPriv, rnd.cek, Clamp(rnd.scalars[i]), recipients[i])
         == Ok(Entries(p, h, senderPriv, rnd, recipients, k).value[i])
    ensures Entries(p, h, senderPriv, rnd, recipients, k).value[i].kid == recipients[i].kid
    decreases k
  {
    hide SenderKek, Wrapped;
    if k > 1 {
      EntryAt(p, h, senderPriv, rnd, recipients, k - 1, if i < k - 1 then i else 0);
    }
  }

  // ----- which entries open -----

  lemma RecipientKekSize(p: Primitives, h: Header, senderPub: Bytes, priv: Bytes, ephPub: Bytes)
    requires Lawful(p) && RecipientKek(p, h, senderPub, priv, ephPub).Some?
    ensures |RecipientKek(p, h, senderPub, priv, ephPub).value| == 32
  {
    hide DhLaw, AeadLaw, CodecLaw, SortLaw, CipherLaw, KdfInput;
  }

  /**
   An entry opens to a content key exactly when its key ID is known, it carries a
   32-byte ephemeral key, and its encrypted key is the wrap of that 32-byte content key
   under the key derived from the two.
   */
  lemma EntryOpensExactlyWhen(p: Primitives, h: Header, senderPub: Bytes, keyFn: KeyFn, e: JweRecipient, cek: Bytes)
    requires Lawful(p)
    ensures TryEntry(p, h, senderPub, keyFn, e) == Some(cek) <==>
            && |cek| == 32 && keyFn(e.kid).Some? && e.epk.Some?
            && p.fromBase64(e.epk.value.x).Some? && |p.fromBase64(e.epk.value.x).value| == 32
            && var kek := RecipientKek(p, h, senderPub, keyFn(e.kid).value, p.fromBase64(e.epk.value.x).value);
            && kek.Some? && p.fromBase64(e.encryptedKey).Some?
            && Wrapped(p.cipher, kek.value, cek) == Ok(p.fromBase64(e.encryptedKey).value)
  {
    hide DhLaw, AeadLaw, CodecLaw, SortLaw, CipherLaw, Wrapped, Unwrapped, RecipientKek, Lawful;
    if keyFn(e.kid).Some? && e.epk.Some? && p.fromBase64(e.epk.value.x).Some? && p.fromBase64(e.encryptedKey).Some? {
      var priv, ephPub := keyFn(e.kid).value, p.fromBase64(e.epk.value.x).value;
      if RecipientKek(p, h, senderPub, priv, ephPub).Some? && |cek| == 32 {
        WrapsAgree(p, h, senderPub, priv, ephPub, cek, p.fromBase64(e.encryptedKey).value);
      }
    }
  }

  lemma WrapsAgree(p: Primitives, h: Header, senderPub: Bytes, priv: Bytes, ephPub: Bytes, cek: Bytes, wrapped: Bytes)
    requires Lawful(p) && |cek| == 32 && RecipientKek(p, h, senderPub, priv, ephPub).Some?
    ensures var kek := RecipientKek(p, h, senderPub, priv, ephPub).value;
      Unwrapped(p.cipher, kek, wrapped) == Ok(cek) <==> Wrapped(p.cipher, kek, cek) == Ok(wrapped)
  {
    hide DhLaw, AeadLaw, CodecLaw, SortLaw, CipherLaw, Wrapped, Unwrapped, RecipientKek;
    var kek := RecipientKek(p, h, senderPub, priv, ephPub).value;
    RecipientKekSize(p, h, senderPub, priv, ephPub);
    UnwrapInvertsWrap(p.cipher, kek, cek);
    if Unwrapped(p.cipher, kek, wrapped) == Ok(cek) {
      WrapInvertsUnwrap(p.cipher, kek, wrapped);
    }
  }

  // Entry f opens, and none of those from k on before it does.
  predicate FirstToOpen(p: Primitives, h: Header, senderPub: Bytes, keyFn: KeyFn, es: seq<JweRecipient>, k: nat,
                        f: nat) {
    && k <= f < |es| && TryEntry(p, h, senderPub, keyFn, es[f]).Some?
    && forall i :: k <= i < f ==> TryEntry(p, h, senderPub, keyFn, es[i]).None?
  }

  /** The search finds a content key exactly when some entry opens, and takes the first such entry's. */
  lemma {:induction false} FirstCekExactlyWhen(p: Primitives, h: Header, senderPub: Bytes, keyFn: KeyFn,
                                               es: seq<JweRecipient>, k: nat)
    requires k <= |es|
    ensures FirstCek(p, h, senderPub, keyFn, es, k).Some?
       <==> exists i :: k <= i < |es| && TryEntry(p, h, senderPub, keyFn, es[i]).Some?
    ensures forall f: nat :: FirstToOpen(p, h, senderPub, keyFn, es, k, f) ==>
              FirstCek(p, h, senderPub, keyFn, es, k) == TryEntry(p, h, senderPub, keyFn, es[f])
    ensures FirstCek(p, h, senderPub, keyFn, es, k).Some? ==>
              exists f: nat :: FirstToOpen(p, h, senderPub, keyFn, es, k, f)
    decreases |es| - k
  {
    hide TryEntry;
    if k < |es| {
      FirstCekExactlyWhen(p, h, senderPub, keyFn, es, k + 1);
      if TryEntry(p, h, senderPub, keyFn, es[k]).Some? {
        assert FirstToOpen(p, h, senderPub, keyFn, es, k, k);
      } else {
        forall f: nat
          ensures FirstToOpen(p, h, senderPub, keyFn, es, k, f) <==> FirstToOpen(p, h, senderPub, keyFn, es, k + 1, f)
        {
          assert FirstToOpen(p, h, senderPub, keyFn, es, k, f) ==> f != k;
        }
        if FirstCek(p, h, senderPub, keyFn, es, k + 1).Some? {
          var f: nat :| FirstToOpen(p, h, senderPub, keyFn, es, k + 1, f);
          assert FirstToOpen(p, h, senderPub, keyFn, es, k, f);
        }
      }
    }
  }

  lemma UnknownEntry(p: Primitives, h: Header, senderPub: Bytes, keyFn: KeyFn, e: JweRecipient)
    requires keyFn(e.kid).None?
    ensures TryEntry(p, h, senderPub, keyFn, e) == None
  {}

  // The content of an envelope decrypts, under its own header, to the message.
  ghost predicate ContentIs(p: Primitives, env: Envelope, cek: Bytes, msg: Bytes) {
    exists iv, ct, tag ::
      && p.fromBase64(env.iv) == Some(iv) && p.fromBase64(env.ciphertext) == Some(ct)
      && p.fromBase64(env.tag) == Some(tag)
      && |iv| == NONCE_SIZE && p.open(cek, iv, ct + tag, p.utf8(env.prot)) == Some(msg)
  }

  /**
   What unpacking returns for any envelope with a readable header: a message exactly
   when the sender's key is found, some entry opens, and the content decrypts under the
   key of the first one that does.
   */
  lemma UnpackExactlyWhen(p: Primitives, wire: Bytes, env: Envelope, h: Header, keyFn: KeyFn,
                          senderPubFn: Option<KeyFn>,
                          msg: Bytes, kid: string)
    requires p.parseEnvelope(wire) == Some(env) && p.fromBase64(env.prot).Some?
    requires p.parseHeader(p.fromBase64(env.prot).value) == Some(h)
    ensures Unpacked(p, wire, keyFn, senderPubFn) == Ok(Opened(msg, kid)) <==>
            && kid == h.skid && SenderKey(h, senderPubFn).Ok?
            && exists f: nat :: FirstToOpen(p, h, SenderKey(h, senderPubFn).value, keyFn, env.recipients, 0, f)
                 && ContentIs(p, env,
                              TryEntry(p, h, SenderKey(h, senderPubFn).value, keyFn, env.recipients[f]).value, msg)
  {
    hide TryEntry, FirstCek, SenderKey, OpenContent, FirstToOpen, ContentIs;
    if SenderKey(h, senderPubFn).Ok? {
      FirstCekExactlyWhen(p, h, SenderKey(h, senderPubFn).value, keyFn, env.recipients, 0);
      forall cek
        ensures OpenContent(p, env, cek, h.skid) == Ok(Opened(msg, kid))
           <==> kid == h.skid && ContentIs(p, env, cek, msg)
      {
        ContentExactlyWhen(p, env, cek, h.skid, msg, kid);
      }
      forall f: nat | FirstToOpen(p, h, SenderKey(h, senderPubFn).value, keyFn, env.recipients, 0, f)
        ensures f < |env.recipients| && TryEntry(p, h, SenderKey(h, senderPubFn).value, keyFn, env.recipients[f]).Some?
      {
        FirstInRange(p, h, SenderKey(h, senderPubFn).value, keyFn, env.recipients, f);
      }
    }
  }

  lemma FirstInRange(p: Primitives, h: Header, senderPub: Bytes, keyFn: KeyFn, es: seq<JweRecipient>, f: nat)
    requires FirstToOpen(p, h, senderPub, keyFn, es, 0, f)
    ensures f < |es| && TryEntry(p, h, senderPub, keyFn, es[f]).Some?
  {}

  lemma ContentExactlyWhen(p: Primitives, env: Envelope, cek: Bytes, skid: string, msg: Bytes, kid: string)
    ensures OpenContent(p, env, cek, skid) == Ok(Opened(msg, kid)) <==> kid == skid && ContentIs(p, env, cek, msg)
  {}

  // ----- the round trip -----

  function PackedEntries(p: Primitives, recipients: seq<Recipient>, senderKid: string, senderPriv: Option<Bytes>,
                         rnd: Randomness): seq<JweRecipient>
    requires RandomnessOk(rnd, |recipients|)
  {
    var es := Entries(p, HeaderFor(p, recipients, senderKid, senderPriv), senderPriv, rnd, recipients, |recipients|);
    if es.Ok? then es.value else []
  }

  // The holder can open the entry made for recipient i: unknown key IDs and keys that do not unwrap it cannot.
  predicate CanOpen(p: Primitives, recipients: seq<Recipient>, senderKid: string, senderPriv: Option<Bytes>,
                    rnd: Randomness, keyFn: KeyFn, senderPubFn: Option<KeyFn>, i: nat)
    requires RandomnessOk(rnd, |recipients|)
  {
    var h := HeaderFor(p, recipients, senderKid, senderPriv);
    var es := PackedEntries(p, recipients, senderKid, senderPriv, rnd);
    && i < |es| && SenderKey(h, senderPubFn).Ok?
    && TryEntry(p, h, SenderKey(h, senderPubFn).value, keyFn, es[i]).Some?
  }

  /**
   The round trip.  Any envelope that packing produces opens, for any holder that has
   the matching private key of some recipient and cannot open an entry before that
   one's, to the packed message and the sender's key ID (empty for an anonymous
   sender).
   */
  lemma UnpackInvertsPack(p: Primitives, msg: Bytes, recipients: seq<Recipient>, senderKid: string,
                          senderPriv: Option<Bytes>, rnd: Randomness, keyFn: KeyFn, senderPubFn: Option<KeyFn>, f: nat)
    requires Lawful(p) && RandomnessOk(rnd, |recipients|)
    requires Packed(p, msg, recipients, senderKid, senderPriv, rnd).Ok?
    requires SenderResolves(p, senderKid, senderPriv, senderPubFn)
    requires f < |recipients| && keyFn(recipients[f].kid).Some?
    requires KeyPair(p, keyFn(recipients[f].kid).value, recipients[f].pubKey)
    requires forall i :: 0 <= i < f ==> !CanOpen(p, recipients, senderKid, senderPriv, rnd, keyFn, senderPubFn, i)
    ensures Unpacked(p, Packed(p, msg, recipients, senderKid, senderPriv, rnd).value, keyFn, senderPubFn)
         == Ok(Opened(msg, senderKid))
  {
    hide EntryFor, TryEntry, OpenContent, Sealed, AeadLaw, DhLaw, SortLaw, CipherLaw, FirstCek;
    var h := HeaderFor(p, recipients, senderKid, senderPriv);
    var prot := p.toBase64(p.headerJson(h));
    var es := PackedEntries(p, recipients, senderKid, senderPriv, rnd);
    var env := Sealed(p, prot, es, rnd, msg);
    SealedFields(p, prot, es, rnd, msg);
    var senderPub := SenderKey(h, senderPubFn).value;
    EntryAt(p, h, senderPriv, rnd, recipients, |recipients|, f);
    var priv := keyFn(recipients[f].kid).value;
    EntryOpens(p, h, senderPriv, senderPub, rnd.cek, Clamp(rnd.scalars[f]), priv, recipients[f], keyFn);
    assert FirstToOpen(p, h, senderPub, keyFn, es, 0, f) by {
      forall i | 0 <= i < f ensures TryEntry(p, h, senderPub, keyFn, es[i]).None? {
        assert !CanOpen(p, recipients, senderKid, senderPriv, rnd, keyFn, senderPubFn, i);
      }
    }
    FirstCekExactlyWhen(p, h, senderPub, keyFn, es, 0);
    ContentOpens(p, prot, es, rnd, msg, h.skid);
  }

  // A holder cannot open the entry of a recipient it does not know.
  lemma UnknownCannotOpen(p: Primitives, recipients: seq<Recipient>, senderKid: string, senderPriv: Option<Bytes>,
                          rnd: Randomness, keyFn: KeyFn, senderPubFn: Option<KeyFn>, i: nat)
    requires RandomnessOk(rnd, |recipients|) && i < |recipients| && keyFn(recipients[i].kid).None?
    ensures !CanOpen(p, recipients, senderKid, senderPriv, rnd, keyFn, senderPubFn, i)
  {
    hide TryEntry, EntryFor, HeaderFor, SenderKey;
    var h := HeaderFor(p, recipients, senderKid, senderPriv);
    var es := PackedEntries(p, recipients, senderKid, senderPriv, rnd);
    if i < |es| && SenderKey(h, senderPubFn).Ok? {
      EntryAt(p, h, senderPriv, rnd, recipients, |recipients|, i);
      UnknownEntry(p, h, SenderKey(h, senderPubFn).value, keyFn, es[i]);
    }
  }

  lemma SealedFields(p: Primitives, prot: string, es: seq<JweRecipient>, rnd: Randomness, msg: Bytes)
    requires AeadLaw(p)
    ensures Sealed(p, prot, es, rnd, msg).prot == prot && Sealed(p, prot, es, rnd, msg).recipients == es
  {}

  lemma ContentOpens(p: Primitives, prot: string, es: seq<JweRecipient>, rnd: Randomness, msg: Bytes, skid: string)
    requires AeadLaw(p) && CodecLaw(p) && |rnd.iv| == NONCE_SIZE
    ensures OpenContent(p, Sealed(p, prot, es, rnd, msg), rnd.cek, skid) == Ok(Opened(msg, skid))
  {
    var sealed := p.seal(rnd.cek, rnd.iv, msg, p.utf8(prot));
    var tagOff := |sealed| - TAG_SIZE;
    assert sealed[..tagOff] + sealed[tagOff..] == sealed;
  }

  /**
   An authcrypt sender must not be nameless: with an empty sender key ID the
   envelope packs, but no holder can open it.
   */
  lemma NamelessSenderCannotBeOpened(p: Primitives, msg: Bytes, recipients: seq<Recipient>, senderPriv: Bytes,
                                     rnd: Randomness, keyFn: KeyFn, senderPubFn: Option<KeyFn>)
    requires Lawful(p) && RandomnessOk(rnd, |recipients|)
    requires forall a :: p.x25519(a, ZERO_KEY) == None
    requires Packed(p, msg, recipients, "", Some(senderPriv), rnd).Ok?
    ensures Unpacked(p, Packed(p, msg, recipients, "", Some(senderPriv), rnd).value, keyFn, senderPubFn)
         == Err("no matching recipient key found")
  {
    hide EntryFor, OpenContent, AeadLaw, DhLaw, SortLaw, CipherLaw, Sealed, TryEntry;
    var h := HeaderFor(p, recipients, "", Some(senderPriv));
    var prot := p.toBase64(p.headerJson(h));
    var es := Entries(p, h, Some(senderPriv), rnd, recipients, |recipients|).value;
    SealedFields(p, prot, es, rnd, msg);
    ZeroKeyOpensNothing(p, h, keyFn, es, 0);
  }

  lemma {:induction false} ZeroKeyOpensNothing(p: Primitives, h: Header, keyFn: KeyFn, es: seq<JweRecipient>, k: nat)
    requires k <= |es| && h.alg == ALG_AUTHCRYPT
    requires forall a :: p.x25519(a, ZERO_KEY) == None
    ensures FirstCek(p, h, ZERO_KEY, keyFn, es, k) == None
    decreases |es| - k
  {
    hide TryEntry;
    if k < |es| {
      ZeroKeyOpensNothing(p, h, keyFn, es, k + 1);
      ZeroKeyEntry(p, h, keyFn, es[k]);
    }
  }

  lemma ZeroKeyEntry(p: Primitives, h: Header, keyFn: KeyFn, e: JweRecipient)
    requires h.alg == ALG_AUTHCRYPT
    requires forall a :: p.x25519(a, ZERO_KEY) == None
    ensures TryEntry(p, h, ZERO_KEY, keyFn, e) == None
  {
    hide Unwrapped, ConcatKdf;
    assert ALG_ANONCRYPT != ALG_AUTHCRYPT by { assert |ALG_ANONCRYPT| != |ALG_AUTHCRYPT|; }
  }

  // The holder has the matching key of recipient f and cannot open an entry before that one's.
  ghost predicate OpensAt(p: Primitives, recipients: seq<Recipient>, senderKid: string, senderPriv: Option<Bytes>,
                          rnd: Randomness, keyFn: KeyFn, senderPubFn: Option<KeyFn>, f: nat)
    requires RandomnessOk(rnd, |recipients|)
  {
    && f < |recipients| && keyFn(recipients[f].kid).Some?
    && KeyPair(p, keyFn(recipients[f].kid).value, recipients[f].pubKey)
    && forall i :: 0 <= i < f ==> !CanOpen(p, recipients, senderKid, senderPriv, rnd, keyFn, senderPubFn, i)
  }

  /**
   Such a holder opens every envelope whose sender resolves, except that an authcrypt
   sender needs a name: it is opened exactly when the sender is anonymous or its key
   ID is not empty.
   */
  lemma OpensExactlyWhen(p: Primitives, msg: Bytes, recipients: seq<Recipient>, senderKid: string,
                         senderPriv: Option<Bytes>, rnd: Randomness, keyFn: KeyFn, senderPubFn: Option<KeyFn>, f: nat)
    requires Lawful(p) && RandomnessOk(rnd, |recipients|)
    requires OpensAt(p, recipients, senderKid, senderPriv, rnd, keyFn, senderPubFn, f)
    requires forall a :: p.x25519(a, ZERO_KEY) == None
    requires Packed(p, msg, recipients, senderKid, senderPriv, rnd).Ok?
    requires senderPriv.None? || senderKid != "" ==> SenderResolves(p, senderKid, senderPriv, senderPubFn)
    ensures Unpacked(p, Packed(p, msg, recipients, senderKid, senderPriv, rnd).value, keyFn, senderPubFn)
         == if senderPriv.None? || senderKid != "" then Ok(Opened(msg, senderKid))
            else Err("no matching recipient key found")
  {
    hide Packed, Unpacked, Lawful, AeadLaw, RandomnessOk, SenderResolves, CanOpen;
    if senderPriv.None? || senderKid != "" {
      UnpackInvertsPack(p, msg, recipients, senderKid, senderPriv, rnd, keyFn, senderPubFn, f);
    } else {
      NamelessSenderCannotBeOpened(p, msg, recipients, senderPriv.value, rnd, keyFn, senderPubFn);
    }
  }

  /** A holder that knows a recipient, and has the matching key of the first one it knows, is such a holder. */
  lemma FirstKnownOpens(p: Primitives, recipients: seq<Recipient>, senderKid: string, senderPriv: Option<Bytes>,
                        rnd: Randomness, keyFn: KeyFn, senderPubFn: Option<KeyFn>, f: nat)
    requires RandomnessOk(rnd, |recipients|) && f < |recipients| && keyFn(recipients[f].kid).Some?
    requires KeyPair(p, keyFn(recipients[f].kid).value, recipients[f].pubKey)
    requires forall i :: 0 <= i < f ==> keyFn(recipients[i].kid).None?
    ensures OpensAt(p, recipients, senderKid, senderPriv, rnd, keyFn, senderPubFn, f)
  {
    hide CanOpen, RandomnessOk;
    forall i | 0 <= i < f ensures !CanOpen(p, recipients, senderKid, senderPriv, rnd, keyFn, senderPubFn, i) {
      UnknownCannotOpen(p, recipients, senderKid, senderPriv, rnd, keyFn, senderPubFn, i);
    }
  }

  // ----- what a packed envelope contains -----

  /** The clamped scalar is a multiple of eight with bit 254 set and bit 255 clear; all other bits are kept. */
  lemma ClampedScalar(raw: Bytes)
    requires |raw| == 32
    ensures |Clamp(raw)| == 32 && Clamp(raw)[1..31] == raw[1..31]
    ensures Clamp(raw)[0] & 7 == 0 && Clamp(raw)[0] & 248 == raw[0] & 248
    ensures Clamp(raw)[31] & 0x80 == 0 && Clamp(raw)[31] & 0x40 == 0x40 && Clamp(raw)[31] & 0x3F == raw[31] & 0x3F
  {}

  /**
   The envelope's header, nonce and content: the message sealed under the content key
   with the header as additional data.
   */
  lemma PackedContent(p: Primitives, msg: Bytes, recipients: seq<Recipient>, senderKid: string,
                      senderPriv: Option<Bytes>, rnd: Randomness)
    requires Lawful(p) && RandomnessOk(rnd, |recipients|) && Packed(p, msg, recipients, senderKid, senderPriv, rnd).Ok?
    ensures var env := p.parseEnvelope(Packed(p, msg, recipients, senderKid, senderPriv, rnd).value);
      && env.Some? && env.value.recipients == PackedEntries(p, recipients, senderKid, senderPriv, rnd)
      && p.fromBase64(env.value.prot).Some?
      && p.parseHeader(p.fromBase64(env.value.prot).value) == Some(HeaderFor(p, recipients, senderKid, senderPriv))
      && p.fromBase64(env.value.iv) == Some(rnd.iv)
      && p.fromBase64(env.value.ciphertext).Some? && p.fromBase64(env.value.tag).Some?
      && |p.fromBase64(env.value.tag).value| == TAG_SIZE
      && p.fromBase64(env.value.ciphertext).value + p.fromBase64(env.value.tag).value
         == p.seal(rnd.cek, rnd.iv, msg, p.utf8(env.value.prot))
  {
    hide CipherLaw, DhLaw, SortLaw, HeaderFor, EntryFor;
    var prot := p.toBase64(p.headerJson(HeaderFor(p, recipients, senderKid, senderPriv)));
    var sealed := p.seal(rnd.cek, rnd.iv, msg, p.utf8(prot));
    var tagOff := |sealed| - TAG_SIZE;
    assert sealed[..tagOff] + sealed[tagOff..] == sealed;
  }

  /**
   The header: algorithm and sender by mode, the sender's key ID as apu, and as apv the
   digest of the recipients' key IDs, which does not depend on their order.
   */
  lemma PackedHeader(p: Primitives, recipients: seq<Recipient>, senderKid: string, senderPriv: Option<Bytes>)
    requires Lawful(p)
    ensures var h := HeaderFor(p, recipients, senderKid, senderPriv);
      && h.typ == "application/didcomm-encrypted+json" && h.enc == "XC20P"
      && h.alg == (if senderPriv.None? then "ECDH-ES+A256KW" else "ECDH-1PU+A256KW")
      && h.skid == (if senderPriv.None? then "" else senderKid)
      && PartyInfo(p, h.apu) == Some(if senderPriv.None? then [] else p.utf8(senderKid))
      && PartyInfo(p, h.apv) == Some(p.sha256(p.utf8(RecipientList(p, recipients))))
    ensures forall rs: seq<Recipient> :: multiset(Kids(rs)) == multiset(Kids(recipients)) ==>
              HeaderFor(p, rs, senderKid, senderPriv) == HeaderFor(p, recipients, senderKid, senderPriv)
  {
    hide CipherLaw, DhLaw, AeadLaw, Kids, Join;
  }

  /** The recipients' key IDs can be read off the list that is digested, if none contains the separator. */
  lemma RecipientListReads(p: Primitives, recipients: seq<Recipient>)
    requires SortLaw(p) && recipients != [] && forall r :: r in recipients ==> '.' !in r.kid
    ensures multiset(Split(RecipientList(p, recipients), '.')) == multiset(Kids(recipients))
  {
    var kids := Kids(recipients);
    var sorted := p.sortStrings(kids);
    assert multiset(sorted) == multiset(kids);
    assert sorted != [] by {
      assert kids[0] in multiset(kids);
    }
    forall k | k in sorted ensures '.' !in k {
      assert k in multiset(kids);
    }
    SplitInvertsJoin(sorted, '.');
  }

  // What packing needs of the keys: every agreement it computes succeeds.
  ghost predicate AgreementsOk(p: Primitives, recipients: seq<Recipient>, senderPriv: Option<Bytes>, rnd: Randomness)
    requires RandomnessOk(rnd, |recipients|)
  {
    forall i :: 0 <= i < |recipients| ==>
      && p.x25519(Clamp(rnd.scalars[i]), p.basepoint).Some?
      && p.x25519(Clamp(rnd.scalars[i]), recipients[i].pubKey).Some?
      && (senderPriv.Some? ==> p.x25519(senderPriv.value, recipients[i].pubKey).Some?)
  }

  /** Packing succeeds exactly when there is a recipient and no key agreement is rejected. */
  lemma PackSucceedsExactlyWhen(p: Primitives, msg: Bytes, recipients: seq<Recipient>, senderKid: string,
                                senderPriv: Option<Bytes>, rnd: Randomness)
    requires Lawful(p) && RandomnessOk(rnd, |recipients|)
    ensures Packed(p, msg, recipients, senderKid, senderPriv, rnd).Ok? <==>
            recipients != [] && AgreementsOk(p, recipients, senderPriv, rnd)
  {
    hide EntryFor, Sealed, Clamp, AeadLaw, DhLaw, SortLaw, CipherLaw;
    var h := HeaderFor(p, recipients, senderKid, senderPriv);
    forall i | 0 <= i < |recipients|
      ensures EntryFor(p, h, senderPriv, rnd.cek, Clamp(rnd.scalars[i]), recipients[i]).Ok? <==>
              && p.x25519(Clamp(rnd.scalars[i]), p.basepoint).Some?
              && p.x25519(Clamp(rnd.scalars[i]), recipients[i].pubKey).Some?
              && (senderPriv.Some? ==> p.x25519(senderPriv.value, recipients[i].pubKey).Some?)
    {
      EntrySucceeds(p, h, senderPriv, rnd.cek, Clamp(rnd.scalars[i]), recipients[i]);
    }
    EntriesSucceed(p, h, senderPriv, rnd, recipients, |recipients|);
  }

  lemma EntrySucceeds(p: Primitives, h: Header, senderPriv: Option<Bytes>, cek: Bytes, scalar: Bytes, r: Recipient)
    requires Lawful(p) && |cek| == 32 && PartyInfo(p, h.apu).Some? && PartyInfo(p, h.apv).Some?
    ensures EntryFor(p, h, senderPriv, cek, scalar, r).Ok? <==>
            && p.x25519(scalar, p.basepoint).Some? && p.x25519(scalar, r.pubKey).Some?
            && (senderPriv.Some? ==> p.x25519(senderPriv.value, r.pubKey).Some?)
  {
    hide AeadLaw, DhLaw, CodecLaw, SortLaw, Wrapped, CipherLaw, KdfInput;
    var kek := SenderKek(p, h, senderPriv, scalar, r);
    if kek.Some? {
      KekSize(p, h, senderPriv, scalar, r);
      UnwrapInvertsWrap(p.cipher, kek.value, cek);
    }
  }

  lemma {:induction false} EntriesSucceed(p: Primitives, h: Header, senderPriv: Option<Bytes>, rnd: Randomness,
                                          recipients: seq<Recipient>, k: nat)
    requires k <= |recipients| && RandomnessOk(rnd, |recipients|)
    ensures Entries(p, h, senderPriv, rnd, recipients, k).Ok? <==>
            forall i :: 0 <= i < k ==> EntryFor(p, h, senderPriv, rnd.cek, Clamp(rnd.scalars[i]), recipients[i]).Ok?
    decreases k
  {
    hide EntryFor, Clamp;
    if k > 0 {
      EntriesSucceed(p, h, senderPriv, rnd, recipients, k - 1);
    }
  }

  // ----- what keys are derived from -----

  // The shared secret packing agrees on with a recipient: one agreement, or two in a row.
  function SenderSecret(p: Primitives, senderPriv: Option<Bytes>, scalar: Bytes, r: Recipient): Option<Bytes> {
    match (p.x25519(scalar, r.pubKey), senderPriv)
    case (Some(z), None) => Some(z)
    case (Some(ze), Some(s)) =>
      (match p.x25519(s, r.pubKey)
       case Some(zs) => Some(ze + zs)
       case None => None)
    case _ => None
  }

  // What packing derives a recipient's key from.
  function SenderText(p: Primitives, h: Header, senderPriv: Option<Bytes>, scalar: Bytes, r: Recipient): Option<Bytes> {
    match SenderSecret(p, senderPriv, scalar, r)
    case Some(z) => KdfText(p, z, h.alg, if senderPriv.None? then "" else h.apu, h.apv)
    case None => None
  }

  lemma SenderKekHashesText(p: Primitives, h: Header, senderPriv: Option<Bytes>, scalar: Bytes, r: Recipient)
    ensures SenderKek(p, h, senderPriv, scalar, r)
         == match SenderText(p, h, senderPriv, scalar, r) case Some(t) => Some(p.sha256(t)) case None => None
  {
    hide KdfText;
  }

  /**
   Entry i: the recipient's key ID, the public key of its clamped scalar, and the content
   key wrapped under the digest of the text its key is derived from.
   */
  lemma PackedEntry(p: Primitives, msg: Bytes, recipients: seq<Recipient>, senderKid: string,
                    senderPriv: Option<Bytes>, rnd: Randomness, i: nat)
    requires Lawful(p) && RandomnessOk(rnd, |recipients|) && i < |recipients|
    requires Packed(p, msg, recipients, senderKid, senderPriv, rnd).Ok?
    ensures var es, scalar := PackedEntries(p, recipients, senderKid, senderPriv, rnd), Clamp(rnd.scalars[i]);
      var text := SenderText(p, HeaderFor(p, recipients, senderKid, senderPriv), senderPriv, scalar, recipients[i]);
      && |es| == |recipients| && es[i].kid == recipients[i].kid && es[i].epk.Some?
      && es[i].epk.value.kty == "OKP" && es[i].epk.value.crv == "X25519"
      && p.fromBase64(es[i].epk.value.x) == p.x25519(scalar, p.basepoint)
      && text.Some? && p.fromBase64(es[i].encryptedKey).Some?
      && Wrapped(p.cipher, p.sha256(text.value), rnd.cek) == Ok(p.fromBase64(es[i].encryptedKey).value)
  {
    hide CipherLaw, DhLaw, AeadLaw, SortLaw, HeaderFor, Wrapped, SenderKek, SenderText, Clamp;
    var h := HeaderFor(p, recipients, senderKid, senderPriv);
    EntryAt(p, h, senderPriv, rnd, recipients, |recipients|, i);
    SenderKekHashesText(p, h, senderPriv, Clamp(rnd.scalars[i]), recipients[i]);
  }

  /**
   What packing derives a recipient's key from reads back as round one, the secret, the
   algorithm's name, the sender's key ID, the digest of the recipients, 256 bits; the
   secret is the ephemeral agreement, followed by the sender's own when there is one.
   */
  lemma SenderTextReads(p: Primitives, rs: seq<Recipient>, senderKid: string, senderPriv: Option<Bytes>, scalar: Bytes,
                        r: Recipient)
    requires Lawful(p) && |p.utf8(senderKid)| < TWO_32
    requires SenderText(p, HeaderFor(p, rs, senderKid, senderPriv), senderPriv, scalar, r).Some?
    ensures var z := p.x25519(scalar, r.pubKey);
      var t := SenderText(p, HeaderFor(p, rs, senderKid, senderPriv), senderPriv, scalar, r).value;
      && z.Some? && |z.value| == 32 && (senderPriv.Some? ==> p.x25519(senderPriv.value, r.pubKey).Some?)
      && ReadKdf(t, if senderPriv.None? then 32 else 64)
         == Some(Parts(1, if senderPriv.None? then z.value else z.value + p.x25519(senderPriv.value, r.pubKey).value,
                       p.utf8(if senderPriv.None? then "ECDH-ES+A256KW" else "ECDH-1PU+A256KW"),
                       if senderPriv.None? then [] else p.utf8(senderKid),
                       p.sha256(p.utf8(RecipientList(p, rs))), 256))
  {
    hide CipherLaw, AeadLaw, SortLaw, KdfInput, ReadKdf, RecipientList;
    PackedHeader(p, rs, senderKid, senderPriv);
    var h := HeaderFor(p, rs, senderKid, senderPriv);
    var z := SenderSecret(p, senderPriv, scalar, r).value;
    KdfInputReads(z, p.utf8(h.alg), if senderPriv.None? then [] else p.utf8(senderKid), PartyInfo(p, h.apv).value);
  }

  /**
   An anonymous and an authenticated packing never derive a key from the same text,
   whatever the recipients, keys, scalars and sender key ID: the recipient fields are
   digests of one length, and everything else of the authenticated text is longer.
   */
  lemma ModesDifferInInput(p: Primitives, rs: seq<Recipient>, scalar: Bytes, r: Recipient,
                           rs': seq<Recipient>, senderKid: string, senderPriv: Bytes, scalar': Bytes, r': Recipient)
    requires Lawful(p)
    ensures var anon := SenderText(p, HeaderFor(p, rs, "", None), None, scalar, r);
      var auth := SenderText(p, HeaderFor(p, rs', senderKid, Some(senderPriv)), Some(senderPriv), scalar', r');
      anon.Some? && auth.Some? ==> anon.value != auth.value
  {
    hide CipherLaw, AeadLaw, SortLaw, KdfInput, Apv;
    var h, h' := HeaderFor(p, rs, "", None), HeaderFor(p, rs', senderKid, Some(senderPriv));
    ApvInfo(p, rs);
    ApvInfo(p, rs');
    var z, z' := SenderSecret(p, None, scalar, r), SenderSecret(p, Some(senderPriv), scalar', r');
    if z.Some? && z'.Some? {
      var apv, apv' := PartyInfo(p, h.apv).value, PartyInfo(p, h'.apv).value;
      KdfInputSize(z.value, p.utf8(h.alg), [], apv);
      if PartyInfo(p, h'.apu).Some? {
        KdfInputSize(z'.value, p.utf8(h'.alg), PartyInfo(p, h'.apu).value, apv');
      }
    }
  }

  lemma ApvInfo(p: Primitives, rs: seq<Recipient>)
    requires Lawful(p)
    ensures PartyInfo(p, Apv(p, rs)).Some? && |PartyInfo(p, Apv(p, rs)).value| == 32
  {
    hide CipherLaw, AeadLaw, DhLaw, SortLaw;
  }
}
