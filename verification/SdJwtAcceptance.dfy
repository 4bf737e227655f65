/**
 When SD-JWT presentations are accepted, and what they disclose: the exact condition
 for every issued token, completeness, soundness, and tokens at which the code does
 something a reader may not expect.
 */
module SdJwtAcceptance {
  import opened Results
  import opened Sequences
  import opened SdJwt

  // ----- lists of claims -----

  // The claims a list of disclosures stands for; later entries win.
  function ClaimsOf(ds: seq<Disclosure>): Claims {
    if ds == [] then map[] else ClaimsOf(ds[..|ds| - 1])[ds[|ds| - 1].key := ds[|ds| - 1].value]
  }

  // The claims a list of pairs stands for: the map the issuer was given.
  function AsMap(pairs: seq<(string, Json)>): Claims {
    if pairs == [] then map[] else AsMap(pairs[..|pairs| - 1])[pairs[|pairs| - 1].0 := pairs[|pairs| - 1].1]
  }

  lemma {:induction false} IssuedClaims(selective: seq<(string, Json)>, salts: seq<string>)
    requires |salts| == |selective|
    ensures ClaimsOf(DisclosuresFor(selective, salts)) == AsMap(selective)
    decreases |selective|
  {
    if selective != [] {
      var n := |selective| - 1;
      IssuedClaims(selective[..n], salts[..n]);
      var ds := DisclosuresFor(selective, salts);
      assert ds[..n] == DisclosuresFor(selective[..n], salts[..n]);
    }
  }

  lemma {:induction false} SelectedClaim(ds: seq<Disclosure>, want: set<string>, k: string)
    ensures k in ClaimsOf(Selected(ds, want)) <==> k in ClaimsOf(ds) && k in want
    ensures k in ClaimsOf(ds) && k in want ==> ClaimsOf(Selected(ds, want))[k] == ClaimsOf(ds)[k]
    decreases |ds|
  {
    if ds != [] {
      var before, d := ds[..|ds| - 1], ds[|ds| - 1];
      SelectedClaim(before, want, k);
      var s := Selected(before, want);
      assert (s + [d])[..|s|] == s;
    }
  }

  lemma {:induction false} SelectedMembers(ds: seq<Disclosure>, want: set<string>)
    ensures forall d :: d in Selected(ds, want) ==> d in ds
    decreases |ds|
  {
    if ds != [] {
      SelectedMembers(ds[..|ds| - 1], want);
    }
  }

  lemma SelectedClaims(ds: seq<Disclosure>, want: set<string>)
    ensures ClaimsOf(Selected(ds, want)) == (map k | k in ClaimsOf(ds) && k in want :: ClaimsOf(ds)[k])
    ensures forall d :: d in Selected(ds, want) ==> d in ds
  {
    hide ClaimsOf, Selected;
    SelectedMembers(ds, want);
    forall k
      ensures k in ClaimsOf(Selected(ds, want)) <==> k in ClaimsOf(ds) && k in want
      ensures k in ClaimsOf(ds) && k in want ==> ClaimsOf(Selected(ds, want))[k] == ClaimsOf(ds)[k]
    {
      SelectedClaim(ds, want, k);
    }
  }

  // The disclosures of a list as they are read.
  function AllAsRead(lib: Library, ds: seq<Disclosure>): seq<Disclosure> {
    seq(|ds|, i requires 0 <= i < |ds| => AsRead(lib, ds[i]))
  }

  // A disclosure that is read and whose digest then is among the signed ones.
  predicate Recognised(lib: Library, signed: set<string>, d: Disclosure) {
    lib.norm(d.value).Some? && Digest(lib, AsRead(lib, d)) in signed
  }

  /** Presented disclosures are accepted exactly when each is recognised, and then stand for their values as read. */
  lemma {:induction false} DisclosedExactlyWhen(lib: Library, signed: set<string>, ds: seq<Disclosure>, k: nat)
    requires TextLaw(lib) && k <= |ds|
    ensures Disclosed(lib, signed, Encodings(lib, ds), k).Ok?
       <==> forall i :: 0 <= i < k ==> Recognised(lib, signed, ds[i])
    ensures Disclosed(lib, signed, Encodings(lib, ds), k).Ok? ==>
              Disclosed(lib, signed, Encodings(lib, ds), k).value == ClaimsOf(AllAsRead(lib, ds)[..k])
    decreases k
  {
    hide ParseDisclosure, Digest, TextLaw, AsRead, ClaimsOf, AllAsRead, Encodings;
    ListsAt(lib, ds, k);
    if k > 0 {
      DisclosedExactlyWhen(lib, signed, ds, k - 1);
      ParseInvertsEncode(lib, ds[k - 1]);
    }
  }

  // The first k encodings, and the claims of the first k disclosures as read.
  lemma ListsAt(lib: Library, ds: seq<Disclosure>, k: nat)
    requires k <= |ds|
    ensures |Encodings(lib, ds)| == |ds| == |AllAsRead(lib, ds)|
    ensures k == 0 ==> ClaimsOf(AllAsRead(lib, ds)[..k]) == map[]
    ensures k > 0 ==> Encodings(lib, ds)[k - 1] == Encode(lib, ds[k - 1])
    ensures k > 0 ==>
              var d := AsRead(lib, ds[k - 1]);
              ClaimsOf(AllAsRead(lib, ds)[..k]) == ClaimsOf(AllAsRead(lib, ds)[..k - 1])[d.key := d.value]
  {
    hide AsRead, Encode;
    if k > 0 {
      assert AllAsRead(lib, ds)[..k][..k - 1] == AllAsRead(lib, ds)[..k - 1];
    }
  }

  function ValueAsRead(lib: Library, j: Json): Json {
    if lib.norm(j).Some? then lib.norm(j).value else j
  }

  lemma {:induction false} ClaimAsRead(lib: Library, ds: seq<Disclosure>, k: string)
    ensures k in ClaimsOf(AllAsRead(lib, ds)) <==> k in ClaimsOf(ds)
    ensures k in ClaimsOf(ds) ==> ClaimsOf(AllAsRead(lib, ds))[k] == ValueAsRead(lib, ClaimsOf(ds)[k])
    decreases |ds|
  {
    if ds != [] {
      var n := |ds| - 1;
      ClaimAsRead(lib, ds[..n], k);
      assert AllAsRead(lib, ds)[..n] == AllAsRead(lib, ds[..n]);
    }
  }

  lemma {:induction false} SortedDisclosures(jwt: string, encs: seq<string>)
    requires forall i :: 0 <= i < |encs| ==> encs[i] != "" && CountDots(encs[i]) == 0
    ensures Sorted(jwt, encs) == Parsed(jwt, encs, "")
    decreases |encs|
  {
    if encs != [] {
      SortedDisclosures(jwt, encs[..|encs| - 1]);
    }
  }

  lemma {:induction false} NoDots(s: string)
    requires '.' !in s
    ensures CountDots(s) == 0
    decreases |s|
  {
    if s != "" {
      NoDots(s[1..]);
    }
  }

  lemma EncodingClean(lib: Library, d: Disclosure)
    requires TextLaw(lib)
    ensures Encode(lib, d) != "" && '~' !in Encode(lib, d) && '.' !in Encode(lib, d)
  {}

  /**
   Parsing a serialized token, followed by a key-binding JWT or nothing, gives back its
   JWT, its encoded disclosures and the key binding.
   */
  lemma ParseInvertsSerialize(lib: Library, jwt: string, ds: seq<Disclosure>, kb: string)
    requires TextLaw(lib) && '~' !in jwt && '~' !in kb && (kb == "" || CountDots(kb) == 2)
    ensures ParsedToken(SerializeWith(lib, jwt, ds) + kb) == Ok(Parsed(jwt, Encodings(lib, ds), kb))
  {
    hide Split, Join, CountDots, TextLaw, Encode;
    var encs := Encodings(lib, ds);
    forall i | 0 <= i < |encs| ensures encs[i] != "" && '~' !in encs[i] && CountDots(encs[i]) == 0 {
      EncodingClean(lib, ds[i]);
      NoDots(encs[i]);
    }
    var parts := [jwt] + encs;
    JoinSnoc(parts, kb, "~");
    SplitInvertsJoin(parts + [kb], '~');
    assert SerializeWith(lib, jwt, ds) + kb == Join(parts + [kb], "~");
    assert (parts + [kb])[1..] == encs + [kb];
    SortedDisclosures(jwt, encs);
    assert (encs + [kb])[..|encs|] == encs;
  }

  // ----- what the verifier reads -----

  // What the payload says under a key: always-visible claims win.
  function Claimed(o: Options, key: string, issued: Json): Json {
    if key in o.always then o.always[key] else issued
  }

  predicate Readable(lib: Library, c: Claims) { forall k :: k in c ==> lib.norm(c[k]).Some? }

  lemma PayloadAt(lib: Library, o: Options, ds: seq<Disclosure>, now: Seconds, key: string)
    ensures var c := Payload(lib, o, ds, now);
      && (key in o.always ==> key in c && c[key] == o.always[key])
      && (key !in o.always && key in c ==>
            c[key].Str? || c[key] in {Arr(Digests(lib, ds)), Int(now), Int(now + Lifetime(o))})
  {
    hide Digests;
  }

  lemma PayloadHeader(lib: Library, o: Options, ds: seq<Disclosure>, now: Seconds)
    ensures var c := Payload(lib, o, ds, now);
      && "iss" in c && c["iss"] == Claimed(o, "iss", Str(o.issuerDid))
      && "sub" in c && c["sub"] == Claimed(o, "sub", Str(o.subjectDid))
      && "exp" in c && c["exp"] == Claimed(o, "exp", Int(now + Lifetime(o)))
      && "_sd" in c && c["_sd"] == Claimed(o, "_sd", Arr(Digests(lib, ds)))
  {
    hide Digests;
  }

  // The issued parts can always be read, so the payload can if the always-visible claims can.
  lemma PayloadReadable(lib: Library, o: Options, ds: seq<Disclosure>, now: Seconds)
    requires NormLaw(lib)
    ensures Readable(lib, Payload(lib, o, ds, now)) <==> Readable(lib, o.always)
  {
    hide Payload;
    var c := Payload(lib, o, ds, now);
    forall k ensures k in c && k !in o.always ==> lib.norm(c[k]).Some? {
      PayloadAt(lib, o, ds, now, k);
      DigestsAreTexts(lib, ds);
    }
    forall k | k in o.always ensures k in c && c[k] == o.always[k] {
      PayloadAt(lib, o, ds, now, k);
    }
  }

  // The digests that count as signed: those issued, unless a claim "_sd" takes their place.
  function CountedDigests(lib: Library, o: Options, ds: seq<Disclosure>): set<string> {
    if "_sd" in o.always then ListedTexts(ValueAsRead(lib, o.always["_sd"])) else (set d | d in ds :: Digest(lib, d))
  }

  lemma ListedDigests(lib: Library, ds: seq<Disclosure>)
    ensures ListedTexts(Arr(Digests(lib, ds))) == set d | d in ds :: Digest(lib, d)
  {
    hide Digest;
    var items := Digests(lib, ds);
    forall x | x in ListedTexts(Arr(items)) ensures exists d :: d in ds && x == Digest(lib, d) {
      var i :| 0 <= i < |items| && items[i] == Str(x);
      assert ds[i] in ds;
    }
    forall d | d in ds ensures Digest(lib, d) in ListedTexts(Arr(items)) {
      var i :| 0 <= i < |ds| && ds[i] == d;
      var j := items[i];
      assert j in items && j.s == Digest(lib, d);
    }
  }

  /** What the verifier takes from the payload: issuer, expiry and digests, as the always-visible claims leave them. */
  lemma ReadPayload(lib: Library, o: Options, ds: seq<Disclosure>, now: Seconds)
    requires NormLaw(lib)
    ensures Read(lib, Payload(lib, o, ds, now)).Some? <==> Readable(lib, o.always)
    ensures Readable(lib, o.always) ==>
      var c := Read(lib, Payload(lib, o, ds, now)).value;
      && "iss" in c && c["iss"] == ValueAsRead(lib, Claimed(o, "iss", Str(o.issuerDid)))
      && "exp" in c && c["exp"] == ValueAsRead(lib, Claimed(o, "exp", Int(now + Lifetime(o))))
      && SignedDigests(c) == CountedDigests(lib, o, ds)
  {
    hide Payload, Digests, Digest;
    PayloadReadable(lib, o, ds, now);
    PayloadHeader(lib, o, ds, now);
    DigestsAreTexts(lib, ds);
    ListedDigests(lib, ds);
  }

  lemma DigestsAreTexts(lib: Library, ds: seq<Disclosure>)
    requires NormLaw(lib)
    ensures lib.norm(Arr(Digests(lib, ds))) == Some(Arr(Digests(lib, ds)))
  {
    assert AllTexts(Digests(lib, ds));
  }

  // ----- acceptance -----

  // The issuer the token names resolves to a key under which it verifies.
  predicate IssuerTrusted(lib: Library, jwt: string, iss: Json) {
    iss.Str? && iss.s != "" && lib.resolve(iss.s).Some? && lib.signatureOk(jwt, lib.resolve(iss.s).value)
  }

  // Only a number expires, and it does so as 64-bit seconds.
  predicate Unexpired(lib: Library, exp: Json, now: int) { exp.Num? ==> now <= lib.int64Of(exp.x) }

  // What the issuer's side of a token needs to be accepted at a given time.
  predicate TokenGood(lib: Library, o: Options, jwt: string, issuedAt: Seconds, now: int) {
    && Readable(lib, o.always)
    && IssuerTrusted(lib, jwt, ValueAsRead(lib, Claimed(o, "iss", Str(o.issuerDid))))
    && Unexpired(lib, ValueAsRead(lib, Claimed(o, "exp", Int(issuedAt + Lifetime(o)))), now)
  }

  function Shown(o: Options, salts: seq<string>, shown: seq<string>): seq<Disclosure>
    requires |salts| == |o.selective|
  {
    Selected(DisclosuresFor(o.selective, salts), KeySet(shown))
  }

  // The verification of what the holder presents of an issued token.
  function Outcome(lib: Library, o: Options, salts: seq<string>, issuedAt: Seconds, shown: seq<string>,
                   now: int): Result<Verified>
    requires |salts| == |o.selective| && OptionsError(lib, o).None?
  {
    VerifiedToken(lib, Presentation(lib, Issued(lib, o, salts, issuedAt).value, shown), "", "", now)
  }

  function JwtOf(lib: Library, o: Options, salts: seq<string>, issuedAt: Seconds): string
    requires |salts| == |o.selective| && OptionsError(lib, o).None?
  {
    Issued(lib, o, salts, issuedAt).value.jwt
  }

  // The outcome in terms of what the token's parts are read as.
  lemma OutcomeParts(lib: Library, o: Options, salts: seq<string>, issuedAt: Seconds, shown: seq<string>, now: int)
    requires Lawful(lib) && |salts| == |o.selective| && OptionsError(lib, o).None?
    ensures var p := Parsed(JwtOf(lib, o, salts, issuedAt), Encodings(lib, Shown(o, salts, shown)), "");
      var payload := Read(lib, Payload(lib, o, DisclosuresFor(o.selective, salts), issuedAt));
      Outcome(lib, o, salts, issuedAt, shown, now)
        == if payload.None? then Err("parse payload") else VerifiedParts(lib, p, payload.value, "", "", now)
  {
    hide Payload, SerializeWith, TextLaw, NormLaw, Selected, KeySet, Read, VerifiedParts, ParsedToken;
    IssuerKeyKnown(lib, o);
    ParseInvertsSerialize(lib, JwtOf(lib, o, salts, issuedAt), Shown(o, salts, shown), "");
    assert Presentation(lib, Issued(lib, o, salts, issuedAt).value, shown) + ""
        == Presentation(lib, Issued(lib, o, salts, issuedAt).value, shown);
  }

  /**
   When a presentation is accepted, whatever the claims.  Always-visible claims are
   written over the payload, so they decide under which issuer the token is checked,
   when and whether it expires (a claim "exp" that is no number switches the check
   off), and which digests count as signed.  Disclosures are hashed as they are read.
   */
  lemma AcceptedExactlyWhen(lib: Library, o: Options, salts: seq<string>, issuedAt: Seconds, shown: seq<string>,
                            now: int)
    requires Lawful(lib) && |salts| == |o.selective| && OptionsError(lib, o).None?
    ensures Outcome(lib, o, salts, issuedAt, shown, now).Ok? <==>
            && TokenGood(lib, o, JwtOf(lib, o, salts, issuedAt), issuedAt, now)
            && forall d :: d in Shown(o, salts, shown) ==>
                 Recognised(lib, CountedDigests(lib, o, DisclosuresFor(o.selective, salts)), d)
    ensures Outcome(lib, o, salts, issuedAt, shown, now).Ok? ==>
              Outcome(lib, o, salts, issuedAt, shown, now).value.disclosed
              == ClaimsOf(AllAsRead(lib, Shown(o, salts, shown)))
  {
    hide Payload, TextLaw, NormLaw, SignLaw, AlwaysVisible, SignedDigests, CountedDigests, Shown, Disclosed,
         Recognised, Read, Outcome, JwtOf, OptionsError, Readable;
    var ds, sel := DisclosuresFor(o.selective, salts), Shown(o, salts, shown);
    OutcomeParts(lib, o, salts, issuedAt, shown, now);
    ReadPayload(lib, o, ds, issuedAt);
    var signed := CountedDigests(lib, o, ds);
    DisclosedExactlyWhen(lib, signed, sel, |sel|);
    assert |Encodings(lib, sel)| == |sel| == |AllAsRead(lib, sel)|;
    assert AllAsRead(lib, sel)[..|sel|] == AllAsRead(lib, sel);
    assert (forall i :: 0 <= i < |sel| ==> Recognised(lib, signed, sel[i]))
      <==> (forall d :: d in sel ==> Recognised(lib, signed, d));
  }

  // ----- completeness -----

  // No two disclosures are for the same key: the issuer was given a map.
  ghost predicate KeysDiffer(ds: seq<Disclosure>) {
    forall i, j :: 0 <= i < j < |ds| ==> ds[i].key != ds[j].key
  }

  // The disclosure as read and an issued one have different encodings with the same digest.
  ghost predicate Collides(lib: Library, ds: seq<Disclosure>, d: Disclosure, e: Disclosure) {
    && d in ds && e in ds && Encode(lib, AsRead(lib, d)) != Encode(lib, e)
    && Digest(lib, AsRead(lib, d)) == Digest(lib, e)
  }

  ghost predicate NoCollision(lib: Library, ds: seq<Disclosure>) {
    forall d, e :: !Collides(lib, ds, d, e)
  }

  // Among issued digests, recognised means reproduced.
  lemma RecognisedExactlyWhen(lib: Library, ds: seq<Disclosure>, d: Disclosure)
    requires TextLaw(lib) && d in ds && KeysDiffer(ds) && NoCollision(lib, ds)
    ensures Recognised(lib, set e | e in ds :: Digest(lib, e), d) <==> Reproduced(lib, d)
  {
    hide TextLaw, Encode, NoCollision, KeysDiffer;
    var signed := set e | e in ds :: Digest(lib, e);
    assert Digest(lib, d) in signed;
    assert Reproduced(lib, d) ==> Digest(lib, AsRead(lib, d)) == Digest(lib, d);
    if Recognised(lib, signed, d) {
      var e :| e in ds && Digest(lib, e) == Digest(lib, AsRead(lib, d));
      SameText(lib, ds, d, e);
      ParseInvertsEncode(lib, d);
      ParsedIsStable(lib, Encode(lib, d));
      EncodeInjective(lib, AsRead(lib, d), e);
      SameKey(ds, d, e);
    }
  }

  lemma SameText(lib: Library, ds: seq<Disclosure>, d: Disclosure, e: Disclosure)
    requires NoCollision(lib, ds) && d in ds && e in ds && Digest(lib, e) == Digest(lib, AsRead(lib, d))
    ensures Encode(lib, AsRead(lib, d)) == Encode(lib, e)
  {
    assert !Collides(lib, ds, d, e);
  }

  lemma SameKey(ds: seq<Disclosure>, d: Disclosure, e: Disclosure)
    requires KeysDiffer(ds) && d in ds && e in ds && d.key == e.key
    ensures d == e
  {
    var i :| 0 <= i < |ds| && ds[i] == d;
    var j :| 0 <= j < |ds| && ds[j] == e;
    assert !(i < j) && !(j < i);
  }

  /**
   Without an always-visible "_sd" and without a digest collision, what decides about
   the disclosures shown is that parsing and encoding each of them again gives the
   same text.
   */
  lemma AcceptedWhenReproduced(lib: Library, o: Options, salts: seq<string>, issuedAt: Seconds, shown: seq<string>,
                               now: int)
    requires Lawful(lib) && |salts| == |o.selective| && OptionsError(lib, o).None? && "_sd" !in o.always
    requires KeysDiffer(DisclosuresFor(o.selective, salts)) && NoCollision(lib, DisclosuresFor(o.selective, salts))
    ensures Outcome(lib, o, salts, issuedAt, shown, now).Ok? <==>
            && TokenGood(lib, o, JwtOf(lib, o, salts, issuedAt), issuedAt, now)
            && forall d :: d in Shown(o, salts, shown) ==> Reproduced(lib, d)
  {
    hide TextLaw, NormLaw, SignLaw, Outcome, JwtOf, TokenGood, OptionsError, Recognised, Reproduced, NoCollision,
         KeysDiffer, Selected, KeySet;
    AcceptedExactlyWhen(lib, o, salts, issuedAt, shown, now);
    var ds := DisclosuresFor(o.selective, salts);
    SelectedMembers(ds, KeySet(shown));
    forall d | d in ds ensures Recognised(lib, CountedDigests(lib, o, ds), d) <==> Reproduced(lib, d) {
      RecognisedExactlyWhen(lib, ds, d);
    }
  }

  // The payload keys an always-visible claim must not take.
  const RESERVED := {"iss", "sub", "exp", "_sd"}

  // Who a token without overriding claims is from and about.
  lemma PayloadParties(lib: Library, o: Options, ds: seq<Disclosure>, now: Seconds)
    requires NormLaw(lib) && Readable(lib, o.always) && "iss" !in o.always && "sub" !in o.always
    ensures var c := Read(lib, Payload(lib, o, ds, now));
      c.Some? && StringClaim(c.value, "iss") == o.issuerDid && StringClaim(c.value, "sub") == o.subjectDid
  {
    hide Payload;
    PayloadReadable(lib, o, ds, now);
    PayloadHeader(lib, o, ds, now);
  }

  lemma PayloadVisible(lib: Library, o: Options, ds: seq<Disclosure>, now: Seconds)
    requires NormLaw(lib) && Readable(lib, o.always)
    ensures Read(lib, Payload(lib, o, ds, now)).Some?
    ensures AlwaysVisible(Read(lib, Payload(lib, o, ds, now)).value) == AlwaysVisible(Read(lib, o.always).value)
  {
    hide Payload, NormLaw;
    PayloadReadable(lib, o, ds, now);
    VisibleIsAlways(lib, o, ds, now);
  }

  lemma VisibleAsRead(lib: Library, always: Claims)
    requires Readable(lib, always)
    ensures AlwaysVisible(Read(lib, always).value)
         == (map k | k in always && k !in {"iss", "sub", "iat", "exp", "_sd", "_sd_alg", "vct", "cnf"} ::
               ValueAsRead(lib, always[k]))
  {}

  lemma VisibleIsAlways(lib: Library, o: Options, ds: seq<Disclosure>, now: Seconds)
    ensures var c := Payload(lib, o, ds, now);
      && (forall k :: k in c && k !in SKIPPED ==> k in o.always)
      && (forall k :: k in o.always ==> k in c && c[k] == o.always[k])
  {
    hide Digests;
  }

  /**
   Completeness.  Whatever the holder chooses to show of a token issued without
   reserved always-visible claims, if the values shown are reproduced, verifying the
   unexpired presentation yields the issuer, the subject, exactly the selective claims
   chosen, and the always-visible claims, all as read from JSON.
   */
  lemma PresentationVerifies(lib: Library, o: Options, salts: seq<string>, issuedAt: Seconds, shown: seq<string>,
                             now: int)
    requires Lawful(lib) && |salts| == |o.selective| && OptionsError(lib, o).None?
    requires o.always.Keys !! RESERVED && Readable(lib, o.always)
    requires lib.resolve(o.issuerDid) == Some(lib.publicKey(o.issuerKey.value))
    requires now <= lib.int64Of(lib.float64Of(issuedAt + Lifetime(o)))
    requires forall d :: d in Shown(o, salts, shown) ==> Reproduced(lib, d)
    ensures var r := Outcome(lib, o, salts, issuedAt, shown, now);
      && r.Ok? && r.value.issuerDid == o.issuerDid && r.value.subjectDid == o.subjectDid && !r.value.keyBindingVerified
      && r.value.disclosed
           == (map k | k in AsMap(o.selective) && k in shown :: ValueAsRead(lib, AsMap(o.selective)[k]))
      && r.value.always
           == (map k | k in o.always && k !in {"iss", "sub", "iat", "exp", "_sd", "_sd_alg", "vct", "cnf"} ::
                 ValueAsRead(lib, o.always[k]))
  {
    hide TextLaw, Outcome, Payload, Read, Recognised, Reproduced, Selected, ClaimsOf, AsMap, AlwaysVisible, Digest,
         SignedDigests, Disclosed, ValueAsRead, AllAsRead;
    var ds, sel := DisclosuresFor(o.selective, salts), Shown(o, salts, shown);
    SelectedClaims(ds, KeySet(shown));
    forall d | d in sel ensures Recognised(lib, CountedDigests(lib, o, ds), d) {
      ReproducedIsRecognised(lib, o, ds, d);
    }
    assert TokenGood(lib, o, JwtOf(lib, o, salts, issuedAt), issuedAt, now) by {
      IssuedIsGood(lib, o, salts, issuedAt, now);
    }
    AcceptedExactlyWhen(lib, o, salts, issuedAt, shown, now);
    OutcomeParts(lib, o, salts, issuedAt, shown, now);
    ReadPayload(lib, o, ds, issuedAt);
    PayloadParties(lib, o, ds, issuedAt);
    PayloadVisible(lib, o, ds, issuedAt);
    VisibleAsRead(lib, o.always);
    IssuedClaims(o.selective, salts);
    forall k
      ensures k in ClaimsOf(AllAsRead(lib, sel)) <==> k in AsMap(o.selective) && k in shown
      ensures k in AsMap(o.selective) && k in shown ==>
                ClaimsOf(AllAsRead(lib, sel))[k] == ValueAsRead(lib, AsMap(o.selective)[k])
    {
      ClaimAsRead(lib, sel, k);
    }
  }

  lemma PayloadDates(lib: Library, o: Options, ds: seq<Disclosure>, now: Seconds)
    ensures var c := Payload(lib, o, ds, now);
      && "iat" in c && c["iat"] == Claimed(o, "iat", Int(now))
      && "_sd_alg" in c && c["_sd_alg"] == Claimed(o, "_sd_alg", Str("sha-256"))
      && ("vct" in c <==> "vct" in o.always || (o.schemaId != "" && lib.schemaVersion(o.schemaId).Some?))
      && ("vct" in o.always ==> c["vct"] == o.always["vct"])
      && ("vct" in c && "vct" !in o.always ==> c["vct"] == Str(lib.schemaVersion(o.schemaId).value))
  {
    hide Digests;
  }

  // A date claim as the verifier reports it.
  function DateOf(lib: Library, j: Json): Option<int> { if j.Num? then Some(lib.int64Of(j.x)) else None }

  function TextOf(j: Json): string { if j.Str? then j.s else "" }

  /**
   The dates and the schema that an accepted presentation is reported with: those issued,
   unless an always-visible claim takes their place.
   */
  lemma ReportedDates(lib: Library, o: Options, salts: seq<string>, issuedAt: Seconds, shown: seq<string>, now: int)
    requires Lawful(lib) && |salts| == |o.selective| && OptionsError(lib, o).None?
    requires Outcome(lib, o, salts, issuedAt, shown, now).Ok?
    ensures var r := Outcome(lib, o, salts, issuedAt, shown, now).value;
      && r.issuedAt == DateOf(lib, ValueAsRead(lib, Claimed(o, "iat", Int(issuedAt))))
      && r.expiresAt == DateOf(lib, ValueAsRead(lib, Claimed(o, "exp", Int(issuedAt + Lifetime(o)))))
      && r.schemaId == (if "vct" in o.always then TextOf(ValueAsRead(lib, o.always["vct"]))
                        else if o.schemaId == "" then "" else lib.schemaVersion(o.schemaId).value)
  {
    hide Outcome, Payload, TextLaw, SignLaw, AlwaysVisible, SignedDigests, CountedDigests, Shown, Disclosed, JwtOf;
    var ds := DisclosuresFor(o.selective, salts);
    OutcomeParts(lib, o, salts, issuedAt, shown, now);
    ReadPayload(lib, o, ds, issuedAt);
    PayloadDates(lib, o, ds, issuedAt);
  }

  /**
   Key binding: a token that carries a key-binding JWT is accepted only if that verifies,
   and is then reported as bound; one that carries none is accepted only if neither a
   nonce nor an audience is expected.
   */
  lemma KeyBindingDecides(lib: Library, token: string, nonce: string, audience: string, now: int)
    requires VerifiedToken(lib, token, nonce, audience, now).Ok?
    ensures ParsedToken(token).Ok? && lib.payloadOf(ParsedToken(token).value.jwt).Some?
    ensures var p, c := ParsedToken(token).value, lib.payloadOf(ParsedToken(token).value.jwt).value;
      && VerifiedToken(lib, token, nonce, audience, now).value.keyBindingVerified == (p.kbToken != "")
      && (p.kbToken != "" ==> lib.keyBindingOk(c, p, nonce, audience))
      && (p.kbToken == "" ==> nonce == "" && audience == "")
  {
    hide Disclosed, SignedDigests, AlwaysVisible, ParsedToken;
  }

  lemma ReproducedIsRecognised(lib: Library, o: Options, ds: seq<Disclosure>, d: Disclosure)
    requires "_sd" !in o.always && d in ds && Reproduced(lib, d)
    ensures Recognised(lib, CountedDigests(lib, o, ds), d)
  {
    assert Digest(lib, AsRead(lib, d)) == Digest(lib, d);
  }

  lemma IssuedIsGood(lib: Library, o: Options, salts: seq<string>, issuedAt: Seconds, now: int)
    requires Lawful(lib) && |salts| == |o.selective| && OptionsError(lib, o).None?
    requires "iss" !in o.always && "exp" !in o.always && Readable(lib, o.always)
    requires lib.resolve(o.issuerDid) == Some(lib.publicKey(o.issuerKey.value))
    requires now <= lib.int64Of(lib.float64Of(issuedAt + Lifetime(o)))
    ensures TokenGood(lib, o, JwtOf(lib, o, salts, issuedAt), issuedAt, now)
  {
    hide TextLaw, Payload, Readable;
    IssuerKeyKnown(lib, o);
  }

  /** Expiry times up to 2^53 seconds are read as they were issued. */
  lemma ExpiryIsExact(lib: Library, n: int)
    requires NormLaw(lib) && -TWO_53 <= n <= TWO_53
    ensures lib.int64Of(lib.float64Of(n)) == n
  {
    var x := n as real;
    assert lib.float64Of(n) == x;
    assert -TWO_63 as real <= x < TWO_63 as real;
    assert x.Floor == n && (-x).Floor == -n;
  }

  // ----- soundness -----

  lemma {:induction false} DisclosedAreSigned(lib: Library, signed: set<string>, encs: seq<string>, k: nat, key: string)
      returns (d: Disclosure, enc: string)
    requires k <= |encs| && Disclosed(lib, signed, encs, k).Ok? && key in Disclosed(lib, signed, encs, k).value
    ensures d.key == key && d.value == Disclosed(lib, signed, encs, k).value[key] && Digest(lib, d) in signed
    ensures enc in encs && ParseDisclosure(lib, enc) == Ok(d)
    decreases k
  {
    hide ParseDisclosure, Digest;
    enc := encs[k - 1];
    d := ParseDisclosure(lib, enc).value;
    if d.key != key {
      d, enc := DisclosedAreSigned(lib, signed, encs, k - 1, key);
    }
  }

  /**
   Soundness.  Any presentation accepted over the issuer's JWT discloses only issued
   keys, each with an issued value as it is read; failing that, the presented
   disclosure d of the pair and an issued one e have different encodings with the same
   digest.
   */
  lemma OnlyIssuedClaimsAreDisclosed(lib: Library, o: Options, salts: seq<string>, issuedAt: Seconds,
                                     token: string, nonce: string, audience: string, now: int, key: string)
      returns (d: Disclosure, e: Disclosure, enc: string)
    requires Lawful(lib) && |salts| == |o.selective| && "_sd" !in o.always && OptionsError(lib, o).None?
    requires ParsedToken(token).Ok? && ParsedToken(token).value.jwt == JwtOf(lib, o, salts, issuedAt)
    requires VerifiedToken(lib, token, nonce, audience, now).Ok?
    requires key in VerifiedToken(lib, token, nonce, audience, now).value.disclosed
    ensures d.key == key && d.value == VerifiedToken(lib, token, nonce, audience, now).value.disclosed[key]
    ensures enc in ParsedToken(token).value.disclosures && ParseDisclosure(lib, enc) == Ok(d)
    ensures e in DisclosuresFor(o.selective, salts)
    ensures || ((key, e.value) in o.selective && e.key == key && lib.norm(e.value) == Some(d.value))
            || (Encode(lib, d) != Encode(lib, e) && lib.digest(Encode(lib, d)) == lib.digest(Encode(lib, e)))
  {
    hide Payload, TextLaw, AlwaysVisible, SignedDigests, ParsedToken, Disclosed, Encode, Read, ParseDisclosure;
    IssuerKeyKnown(lib, o);
    var ds := DisclosuresFor(o.selective, salts);
    var encs := ParsedToken(token).value.disclosures;
    assert lib.payloadOf(ParsedToken(token).value.jwt) == Read(lib, Payload(lib, o, ds, issuedAt));
    ReadPayload(lib, o, ds, issuedAt);
    d, enc := DisclosedAreSigned(lib, CountedDigests(lib, o, ds), encs, |encs|, key);
    e :| e in ds && Digest(lib, e) == Digest(lib, d);
    if Encode(lib, d) == Encode(lib, e) {
      ParsedIsStable(lib, enc);
      EncodeInjective(lib, d, e);
      var i :| 0 <= i < |ds| && ds[i] == e;
      assert o.selective[i] == (e.key, e.value);
    }
  }

  // ----- concrete tokens -----

  const ISSUER := "did:web:issuer"

  // One selective claim, issued with the given always-visible claims.
  function OneClaim(key: nat, claim: string, value: Json, always: Claims): Options {
    Options(ISSUER, Some(key), "key-1", "did:web:holder", "", [(claim, value)], always, 0)
  }

  lemma PlainOptions(lib: Library, key: nat, claim: string, value: Json, always: Claims)
    ensures OptionsError(lib, OneClaim(key, claim, value, always)).None?
  {
    PrefixAt(DID_KEY, ISSUER, 4);
    assert ISSUER[4] != DID_KEY[4];
    assert |ISSUER| > 0 && |"did:web:holder"| > 0;
  }

  lemma PrefixAt(p: string, s: string, i: nat)
    requires i < |p| && i < |s|
    ensures p <= s ==> s[i] == p[i]
  {}

  lemma OneShown(key: nat, claim: string, value: Json, always: Claims, salt: string)
    ensures var d := Disclosure(salt, claim, value);
      && DisclosuresFor(OneClaim(key, claim, value, always).selective, [salt]) == [d]
      && Shown(OneClaim(key, claim, value, always), [salt], [claim]) == [d]
  {
    var d := Disclosure(salt, claim, value);
    assert DisclosuresFor([(claim, value)], [salt]) == [d];
    assert [d][..0] == [];
    assert claim in [claim];
    assert Selected([d], KeySet([claim])) == [d];
  }

  // Whether showing the one claim is accepted.
  predicate Accepts(lib: Library, key: nat, claim: string, value: Json, always: Claims, salt: string, now: int)
    requires OptionsError(lib, OneClaim(key, claim, value, always)).None?
  {
    Outcome(lib, OneClaim(key, claim, value, always), [salt], 0, [claim], now).Ok?
  }

  // How integers are written: those a float can hold exactly like that float, different ones differently.
  ghost predicate IntegerLaw(lib: Library) {
    && (forall s, k, n :: -TWO_53 <= n <= TWO_53 ==>
          lib.toText(Triple(s, k, Int(n))) == lib.toText(Triple(s, k, Num(n as real))))
    && (forall s, k, m, n :: m != n ==> lib.toText(Triple(s, k, Int(m))) != lib.toText(Triple(s, k, Int(n))))
    && lib.float64Of(TWO_53 + 1) == TWO_53 as real
  }

  /** Integers up to 2^53 are reproduced; the next one is not. */
  lemma IntegersReproduced(lib: Library, salt: string, key: string, n: int)
    requires NormLaw(lib) && IntegerLaw(lib)
    ensures -TWO_53 <= n <= TWO_53 ==> Reproduced(lib, Disclosure(salt, key, Int(n)))
    ensures !Reproduced(lib, Disclosure(salt, key, Int(TWO_53 + 1)))
  {
    assert lib.norm(Int(n)) == Some(Num(lib.float64Of(n))) || !(-TWO_53 <= n <= TWO_53);
    assert lib.norm(Int(TWO_53 + 1)) == Some(Num(TWO_53 as real));
    assert lib.toText(Triple(salt, key, Int(TWO_53))) == lib.toText(Triple(salt, key, Num(TWO_53 as real)));
  }

  /** An issued 2^53 + 1 is refused when shown, short of a digest collision. */
  lemma LargeIntegerRefused(lib: Library, key: nat, salt: string, now: int)
    requires Lawful(lib) && IntegerLaw(lib) && NoCollision(lib, [Disclosure(salt, "id", Int(TWO_53 + 1))])
    ensures OptionsError(lib, OneClaim(key, "id", Int(TWO_53 + 1), map[])).None?
    ensures !Accepts(lib, key, "id", Int(TWO_53 + 1), map[], salt, now)
  {
    hide TextLaw, NormLaw, SignLaw, IntegerLaw, Outcome, TokenGood, OptionsError, Reproduced, NoCollision, Shown,
         DisclosuresFor;
    var v := Int(TWO_53 + 1);
    PlainOptions(lib, key, "id", v, map[]);
    OneShown(key, "id", v, map[], salt);
    AcceptedWhenReproduced(lib, OneClaim(key, "id", v, map[]), [salt], 0, ["id"], now);
    IntegersReproduced(lib, salt, "id", 0);
    var d := Disclosure(salt, "id", v);
    assert d in [d];
  }

  /** With "_sd" set to a text no claim can be shown. */
  lemma ReplacedDigestsHide(lib: Library, key: nat, claim: string, value: Json, salt: string, now: int)
    requires Lawful(lib)
    ensures OptionsError(lib, OneClaim(key, claim, value, map["_sd" := Str("")])).None?
    ensures !Accepts(lib, key, claim, value, map["_sd" := Str("")], salt, now)
  {
    hide TextLaw, SignLaw, Outcome, TokenGood, OptionsError, Shown, DisclosuresFor, Digest;
    var o := OneClaim(key, claim, value, map["_sd" := Str("")]);
    PlainOptions(lib, key, claim, value, o.always);
    OneShown(key, claim, value, o.always, salt);
    AcceptedExactlyWhen(lib, o, [salt], 0, [claim], now);
    assert CountedDigests(lib, o, DisclosuresFor(o.selective, [salt])) == {};
    var d := Disclosure(salt, claim, value);
    assert d in [d];
  }

  /** With "exp" set to a text a reproduced claim can be shown at any time. */
  lemma TextualExpiryLasts(lib: Library, key: nat, claim: string, value: Json, salt: string, now: int)
    requires Lawful(lib) && lib.resolve(ISSUER) == Some(lib.publicKey(key))
    requires Reproduced(lib, Disclosure(salt, claim, value))
    ensures OptionsError(lib, OneClaim(key, claim, value, map["exp" := Str("never")])).None?
    ensures Accepts(lib, key, claim, value, map["exp" := Str("never")], salt, now)
  {
    hide TextLaw, Outcome, OptionsError, Shown, DisclosuresFor, Digest, Payload, Reproduced, Recognised, CountedDigests;
    var o := OneClaim(key, claim, value, map["exp" := Str("never")]);
    PlainOptions(lib, key, claim, value, o.always);
    OneShown(key, claim, value, o.always, salt);
    AcceptedExactlyWhen(lib, o, [salt], 0, [claim], now);
    OtherKeys();
    var d := Disclosure(salt, claim, value);
    assert d in [d];
    ReproducedIsRecognised(lib, o, [d], d);
    assert |ISSUER| > 0;
  }

  lemma OtherKeys()
    ensures "exp" != "iss" && "exp" != "_sd"
  {
    assert "exp"[0] != "iss"[0] && "exp"[0] != "_sd"[0];
  }

  /** With "exp" set to 2^63, on a platform that converts it to the least integer, the token has expired. */
  lemma HugeExpiryHasPassed(lib: Library, key: nat, claim: string, value: Json, salt: string, now: int)
    requires Lawful(lib) && lib.norm(Num(TWO_63 as real)) == Some(Num(TWO_63 as real))
    requires lib.int64Of(TWO_63 as real) == -TWO_63 < now
    ensures OptionsError(lib, OneClaim(key, claim, value, map["exp" := Num(TWO_63 as real)])).None?
    ensures !Accepts(lib, key, claim, value, map["exp" := Num(TWO_63 as real)], salt, now)
  {
    hide TextLaw, NormLaw, SignLaw, Outcome, OptionsError, Shown, DisclosuresFor, Recognised, CountedDigests,
         IssuerTrusted;
    var o := OneClaim(key, claim, value, map["exp" := Num(TWO_63 as real)]);
    PlainOptions(lib, key, claim, value, o.always);
    AcceptedExactlyWhen(lib, o, [salt], 0, [claim], now);
  }
}
