/**
 SD-JWT selective disclosure (sections 4.2 and 7.1 of RFC 9901): the issuer signs the
 digests of salted claims, the holder presents a subset of them, the verifier
 checks each presented one against the signed digests.

 Base64url over JSON, the digest, the JWT signature, the resolver and the
 key-binding check are parameters.  The digest is not assumed to be injective, and
 JSON is not assumed to give back what was put in: `norm` is what becomes of a value
 that is written and parsed again.
 */
module SdJwt {
  import opened Results
  import opened Sequences

  // Values as the issuer holds them.  Parsing yields no Int and no Struct: numbers come
  // back as floats, fields without their order.
  datatype Json =
    | Null
    | Bool(b: bool)
    | Int(n: int)
    | Num(x: real)
    | Str(s: string)
    | Arr(items: seq<Json>)
    | Obj(fields: map<string, Json>)
    | Struct(ordered: seq<(string, Json)>)

  type Claims = map<string, Json>

  datatype Disclosure = Disclosure(salt: string, key: string, value: Json)

  datatype Parsed = Parsed(jwt: string, disclosures: seq<string>, kbToken: string)

  datatype Library = Library(
    toText: Json -> string,
    fromText: string -> Option<Json>,
    // a value written as JSON and parsed; None when that fails
    norm: Json -> Option<Json>,
    // the float nearest to an integer, and the conversion of a float to 64 bits
    float64Of: int -> real,
    int64Of: real -> int,
    digest: string -> string,
    // key, key ID, payload
    sign: (nat, string, Claims) -> string,
    payloadOf: string -> Option<Claims>,
    // JWT, public key
    signatureOk: (string, nat) -> bool,
    publicKey: nat -> nat,
    resolve: string -> Option<nat>,
    schemaVersion: string -> Option<string>,
    // payload, presentation, expected nonce and audience
    keyBindingOk: (Claims, Parsed, string, string) -> bool)

  function Triple(salt: string, key: string, value: Json): Json { Arr([Str(salt), Str(key), value]) }

  // base64url: not empty for JSON text, and free of the separators.  A disclosure parses
  // to its salt, its key and what becomes of its value; what was parsed stays as it is.
  ghost predicate TextLaw(lib: Library) {
    && (forall j :: lib.toText(j) != "" && '~' !in lib.toText(j) && '.' !in lib.toText(j))
    && (forall s, k, v :: lib.fromText(lib.toText(Triple(s, k, v))) == Reparsed(lib, s, k, v))
    && (forall t, s, k, v :: lib.fromText(t) == Some(Triple(s, k, v)) ==> lib.norm(v) == Some(v))
  }

  function Reparsed(lib: Library, salt: string, key: string, value: Json): Option<Json> {
    if lib.norm(value).Some? then Some(Triple(salt, key, lib.norm(value).value)) else None
  }

  const TWO_53 := 0x20_0000_0000_0000
  const TWO_63 := 0x8000_0000_0000_0000

  predicate AllTexts(items: seq<Json>) { forall j :: j in items ==> j.Str? }

  function Truncated(x: real): int { if x >= 0.0 then x.Floor else -(-x).Floor }

  // Texts and lists of texts come back unchanged, 64-bit integers as the nearest float.
  // What becomes of a float beyond 64 bits is left to the platform.
  ghost predicate NormLaw(lib: Library) {
    && (forall s :: lib.norm(Str(s)) == Some(Str(s)))
    && (forall items :: AllTexts(items) ==> lib.norm(Arr(items)) == Some(Arr(items)))
    && (forall n :: -TWO_63 <= n < TWO_63 ==> lib.norm(Int(n)) == Some(Num(lib.float64Of(n))))
    && (forall n :: -TWO_53 <= n <= TWO_53 ==> lib.float64Of(n) == n as real)
    && (forall x :: -TWO_63 as real <= x < TWO_63 as real ==> lib.int64Of(x) == Truncated(x))
  }

  // The payload that is read from a signed token.
  function Read(lib: Library, c: Claims): Option<Claims> {
    if forall k :: k in c ==> lib.norm(c[k]).Some? then Some(map k | k in c :: lib.norm(c[k]).value) else None
  }

  ghost predicate SignLaw(lib: Library) {
    forall k, kid, c ::
      && lib.payloadOf(lib.sign(k, kid, c)) == Read(lib, c)
      && lib.signatureOk(lib.sign(k, kid, c), lib.publicKey(k)) && '~' !in lib.sign(k, kid, c)
  }

  ghost predicate Lawful(lib: Library) { TextLaw(lib) && NormLaw(lib) && SignLaw(lib) }

  // ----- disclosures -----

  function Encode(lib: Library, d: Disclosure): string {
    lib.toText(Triple(d.salt, d.key, d.value))
  }

  function Digest(lib: Library, d: Disclosure): string {
    lib.digest(Encode(lib, d))
  }

  function ParseDisclosure(lib: Library, encoded: string): Result<Disclosure> {
    match lib.fromText(encoded)
    case Some(Arr(items)) =>
      if |items| != 3 then Err("disclosure must have 3 elements")
      else if !items[0].Str? then Err("disclosure salt must be a string")
      else if !items[1].Str? then Err("disclosure key must be a string")
      else Ok(Disclosure(items[0].s, items[1].s, items[2]))
    case _ => Err("decode disclosure")
  }

  // A disclosure as it is read back.
  function AsRead(lib: Library, d: Disclosure): Disclosure {
    if lib.norm(d.value).Some? then d.(value := lib.norm(d.value).value) else d
  }

  // Whether parsing and encoding a disclosure again gives the text that was hashed.
  predicate Reproduced(lib: Library, d: Disclosure) {
    lib.norm(d.value).Some? && Encode(lib, AsRead(lib, d)) == Encode(lib, d)
  }

  /** An encoded disclosure parses to its salt, its key and its value as read, or not at all. */
  lemma ParseInvertsEncode(lib: Library, d: Disclosure)
    requires TextLaw(lib)
    ensures ParseDisclosure(lib, Encode(lib, d)).Ok? <==> lib.norm(d.value).Some?
    ensures lib.norm(d.value).Some? ==> ParseDisclosure(lib, Encode(lib, d)) == Ok(AsRead(lib, d))
  {
    assert lib.fromText(lib.toText(Triple(d.salt, d.key, d.value))) == Reparsed(lib, d.salt, d.key, d.value);
  }

  // What is parsed is read as it is.
  lemma ParsedIsStable(lib: Library, enc: string)
    requires TextLaw(lib) && ParseDisclosure(lib, enc).Ok?
    ensures lib.norm(ParseDisclosure(lib, enc).value.value) == Some(ParseDisclosure(lib, enc).value.value)
  {
    var d := ParseDisclosure(lib, enc).value;
    var items := lib.fromText(enc).value.items;
    assert items == [items[0], items[1], items[2]];
    assert lib.fromText(enc) == Some(Triple(d.salt, d.key, d.value));
  }

  lemma EncodeInjective(lib: Library, d: Disclosure, e: Disclosure)
    requires TextLaw(lib) && Encode(lib, d) == Encode(lib, e)
    ensures lib.norm(d.value) == lib.norm(e.value)
    ensures lib.norm(d.value).Some? ==> d.salt == e.salt && d.key == e.key
  {
    hide TextLaw, ParseDisclosure, Encode;
    ParseInvertsEncode(lib, d);
    ParseInvertsEncode(lib, e);
  }

  // ----- issuing -----

  datatype Token = Token(jwt: string, disclosures: seq<Disclosure>)

  // Times in Unix seconds, far from the 64-bit limits.
  type Seconds = t: int | -TWO_63 / 2 <= t < TWO_63 / 2

  // `selective` lists the claims in the order the map was walked.
  datatype Options = Options(issuerDid: string, issuerKey: Option<nat>, methodId: string, subjectDid: string,
                             schemaId: string, selective: seq<(string, Json)>, always: Claims, validFor: Seconds)

  const DAY := 24 * 60 * 60
  const DID_KEY := "did:key:"

  function DisclosuresFor(selective: seq<(string, Json)>, salts: seq<string>): seq<Disclosure>
    requires |salts| == |selective|
  {
    seq(|selective|, i requires 0 <= i < |selective| => Disclosure(salts[i], selective[i].0, selective[i].1))
  }

  function Digests(lib: Library, ds: seq<Disclosure>): seq<Json> {
    seq(|ds|, i requires 0 <= i < |ds| => Str(Digest(lib, ds[i])))
  }

  function Lifetime(o: Options): Seconds { if o.validFor <= 0 then DAY else o.validFor }

  // The signed payload; always-visible claims are written last and win.
  function Payload(lib: Library, o: Options, ds: seq<Disclosure>, now: Seconds): Claims {
    var base := map["iss" := Str(o.issuerDid), "sub" := Str(o.subjectDid),
                    "iat" := Int(now), "exp" := Int(now + Lifetime(o)),
                    "_sd_alg" := Str("sha-256"), "_sd" := Arr(Digests(lib, ds))];
    var typed := if o.schemaId != "" && lib.schemaVersion(o.schemaId).Some?
                 then base["vct" := Str(lib.schemaVersion(o.schemaId).value)] else base;
    typed + o.always
  }

  function OptionsError(lib: Library, o: Options): Option<string> {
    if DID_KEY <= o.issuerDid then Some("ephemeral issuer")
    else if o.issuerDid == "" || o.issuerKey.None? then Some("issuer DID and key are required")
    else if o.subjectDid == "" then Some("subject DID is required")
    else if o.schemaId != "" && lib.schemaVersion(o.schemaId).None? then Some("unknown schema")
    else None
  }

  function Issued(lib: Library, o: Options, salts: seq<string>, now: Seconds): Result<Token>
    requires |salts| == |o.selective|
  {
    if OptionsError(lib, o).Some? then Err(OptionsError(lib, o).value)
    else
      var ds := DisclosuresFor(o.selective, salts);
      Ok(Token(lib.sign(o.issuerKey.value, o.methodId, Payload(lib, o, ds, now)), ds))
  }

  /** Issuing: one salted disclosure and one digest per selective claim. */
  method IssueSdJwt(lib: Library, o: Options, salts: seq<string>, now: Seconds) returns (r: Result<Token>)
    requires |salts| == |o.selective|
    ensures r == Issued(lib, o, salts, now)
    ensures r.Ok? <==> && !("did:key:" <= o.issuerDid) && o.issuerDid != "" && o.issuerKey.Some? && o.subjectDid != ""
                       && (o.schemaId == "" || lib.schemaVersion(o.schemaId).Some?)
    ensures r.Ok? ==> |r.value.disclosures| == |o.selective| && forall i :: 0 <= i < |salts| ==>
                        r.value.disclosures[i] == Disclosure(salts[i], o.selective[i].0, o.selective[i].1)
  {
    hide Payload;
    var error := OptionsError(lib, o);
    if error.Some? {
      return Err(error.value);
    }
    assert o.issuerKey.Some? by { IssuerKeyKnown(lib, o); }
    var ds: seq<Disclosure> := [];
    for i := 0 to |o.selective|
      invariant ds == DisclosuresFor(o.selective, salts)[..i]
    {
      var (k, v) := o.selective[i];
      ds := ds + [Disclosure(salts[i], k, v)];
    }
    assert ds == DisclosuresFor(o.selective, salts);
    return Ok(Token(lib.sign(o.issuerKey.value, o.methodId, Payload(lib, o, ds, now)), ds));
  }

  lemma IssuerKeyKnown(lib: Library, o: Options)
    requires OptionsError(lib, o).None?
    ensures o.issuerKey.Some? && o.issuerDid != ""
  {}

  // ----- presenting -----

  function Selected(ds: seq<Disclosure>, want: set<string>): seq<Disclosure> {
    if ds == [] then []
    else
      var before := Selected(ds[..|ds| - 1], want);
      var d := ds[|ds| - 1];
      if d.key in want then before + [d] else before
  }

  function Encodings(lib: Library, ds: seq<Disclosure>): seq<string> {
    seq(|ds|, i requires 0 <= i < |ds| => Encode(lib, ds[i]))
  }

  function SerializeWith(lib: Library, jwt: string, ds: seq<Disclosure>): string {
    Join([jwt] + Encodings(lib, ds), "~") + "~"
  }

  function KeySet(keys: seq<string>): set<string> { set k | k in keys }

  function Presentation(lib: Library, t: Token, shown: seq<string>): string {
    SerializeWith(lib, t.jwt, Selected(t.disclosures, KeySet(shown)))
  }

  /** Presenting: the disclosures whose keys are to be revealed. */
  method Present(lib: Library, t: Token, shown: seq<string>) returns (s: string)
    ensures s == Presentation(lib, t, shown)
  {
    hide SerializeWith;
    var want := {};
    for i := 0 to |shown|
      invariant want == KeySet(shown[..i])
    {
      assert shown[..i + 1] == shown[..i] + [shown[i]];
      want := want + {shown[i]};
    }
    assert shown[..|shown|] == shown;
    var selected := [];
    var ds := t.disclosures;
    for i := 0 to |ds|
      invariant selected == Selected(ds[..i], want)
    {
      assert ds[..i + 1][..i] == ds[..i];
      if ds[i].key in want {
        selected := selected + [ds[i]];
      }
    }
    assert ds[..|ds|] == ds;
    s := SerializeWith(lib, t.jwt, selected);
  }

  // ----- parsing -----

  function CountDots(s: string): nat {
    if s == "" then 0 else CountDots(s[1..]) + if s[0] == '.' then 1 else 0
  }

  // The parts after the JWT, sorted into disclosures and a key-binding token.
  function Sorted(jwt: string, parts: seq<string>): Parsed {
    if parts == [] then Parsed(jwt, [], "")
    else
      var before := Sorted(jwt, parts[..|parts| - 1]);
      var p := parts[|parts| - 1];
      if p == "" then before
      else if CountDots(p) == 2 then before.(kbToken := p)
      else before.(disclosures := before.disclosures + [p])
  }

  function ParsedToken(token: string): Result<Parsed> {
    if token == "" then Err("empty token")
    else
      var parts := Split(token, '~');
      if |parts| < 2 then Err("missing ~ separator") else Ok(Sorted(parts[0], parts[1..]))
  }

  /** Parsing: the loop over the separated parts. */
  method ParseSdJwt(token: string) returns (r: Result<Parsed>)
    ensures r == ParsedToken(token)
  {
    hide CountDots, Split;
    if token == "" {
      return Err("empty token");
    }
    var parts := Split(token, '~');
    if |parts| < 2 {
      return Err("missing ~ separator");
    }
    var rest := parts[1..];
    var result := Parsed(parts[0], [], "");
    for i := 0 to |rest|
      invariant result == Sorted(parts[0], rest[..i])
    {
      assert rest[..i + 1][..i] == rest[..i];
      var p := rest[i];
      if p != "" {
        if CountDots(p) == 2 {
          result := result.(kbToken := p);
        } else {
          result := result.(disclosures := result.disclosures + [p]);
        }
      }
    }
    assert rest[..|rest|] == rest;
    return Ok(result);
  }

  // ----- verifying -----

  datatype Verified = Verified(issuerDid: string, subjectDid: string, schemaId: string, disclosed: Claims,
                               always: Claims,
                               issuedAt: Option<int>, expiresAt: Option<int>, keyBindingVerified: bool)

  function StringClaim(c: Claims, k: string): string {
    if k in c && c[k].Str? then c[k].s else ""
  }

  // A number claim as 64-bit seconds.
  function NumClaim(lib: Library, c: Claims, k: string): Option<int> {
    if k in c && c[k].Num? then Some(lib.int64Of(c[k].x)) else None
  }

  function ListedTexts(j: Json): set<string> {
    if j.Arr? then (set i | i in j.items && i.Str? :: i.s) else {}
  }

  // The digests the issuer signed.
  function SignedDigests(c: Claims): set<string> {
    if "_sd" in c then ListedTexts(c["_sd"]) else {}
  }

  // The claims of the first k presented disclosures, or the first refusal.
  function Disclosed(lib: Library, signed: set<string>, encs: seq<string>, k: nat): Result<Claims>
    requires k <= |encs|
  {
    if k == 0 then Ok(map[]) else
    match Disclosed(lib, signed, encs, k - 1)
    case Err(e) => Err(e)
    case Ok(before) =>
      match ParseDisclosure(lib, encs[k - 1])
      case Err(e) => Err(e)
      case Ok(d) =>
        if Digest(lib, d) in signed then Ok(before[d.key := d.value]) else Err("disclosure not in _sd hashes")
  }

  const SKIPPED := {"iss", "sub", "iat", "exp", "_sd", "_sd_alg", "vct", "cnf"}

  function AlwaysVisible(c: Claims): Claims {
    map k | k in c && k !in SKIPPED :: c[k]
  }

  // The key-binding outcome: refused, absent, or verified.
  function KeyBinding(lib: Library, c: Claims, p: Parsed, nonce: string, audience: string): Result<bool> {
    if p.kbToken != "" then (if lib.keyBindingOk(c, p, nonce, audience) then Ok(true) else Err("kb-jwt"))
    else if nonce != "" || audience != "" then Err("key binding JWT required")
    else Ok(false)
  }

  function VerifiedToken(lib: Library, token: string, nonce: string, audience: string, now: int): Result<Verified> {
    match ParsedToken(token)
    case Err(e) => Err(e)
    case Ok(p) =>
      match lib.payloadOf(p.jwt)
      case None => Err("parse payload")
      case Some(c) => VerifiedParts(lib, p, c, nonce, audience, now)
  }

  function VerifiedParts(lib: Library, p: Parsed, c: Claims, nonce: string, audience: string,
                         now: int): Result<Verified> {
    var issuer := StringClaim(c, "iss");
    if issuer == "" then Err("missing iss claim")
    else if lib.resolve(issuer).None? then Err("resolve issuer key")
    else if !lib.signatureOk(p.jwt, lib.resolve(issuer).value) then Err("invalid signature")
    else if NumClaim(lib, c, "exp").Some? && now > NumClaim(lib, c, "exp").value then Err("credential expired")
    else
      match Disclosed(lib, SignedDigests(c), p.disclosures, |p.disclosures|)
      case Err(e) => Err(e)
      case Ok(claims) =>
        match KeyBinding(lib, c, p, nonce, audience)
        case Err(e) => Err(e)
        case Ok(kb) =>
          Ok(Verified(issuer, StringClaim(c, "sub"), StringClaim(c, "vct"), claims, AlwaysVisible(c),
                      NumClaim(lib, c, "iat"), NumClaim(lib, c, "exp"), kb))
  }

  /** Verifying: signature and expiry, then the loop over the presented disclosures. */
  method Verify(lib: Library, token: string, nonce: string, audience: string, now: int) returns (r: Result<Verified>)
    ensures r == VerifiedToken(lib, token, nonce, audience, now)
  {
    hide ParseDisclosure, Digest, KeyBinding, AlwaysVisible, SignedDigests;
    var parsed := ParseSdJwt(token);
    if parsed.Err? {
      return Err(parsed.reason);
    }
    var p := parsed.value;
    var payload := lib.payloadOf(p.jwt);
    if payload.None? {
      return Err("parse payload");
    }
    var c := payload.value;
    var issuer := StringClaim(c, "iss");
    if issuer == "" {
      return Err("missing iss claim");
    }
    var pub := lib.resolve(issuer);
    if pub.None? {
      return Err("resolve issuer key");
    }
    if !lib.signatureOk(p.jwt, pub.value) {
      return Err("invalid signature");
    }
    var exp := NumClaim(lib, c, "exp");
    if exp.Some? && now > exp.value {
      return Err("credential expired");
    }
    var signed := SignedDigests(c);
    var disclosed: Claims := map[];
    for i := 0 to |p.disclosures|
      invariant Disclosed(lib, signed, p.disclosures, i) == Ok(disclosed)
    {
      var d := ParseDisclosure(lib, p.disclosures[i]);
      if d.Err? || Digest(lib, d.value) !in signed {
        RefusalStays(lib, signed, p.disclosures, i + 1, |p.disclosures|);
        return Err(Disclosed(lib, signed, p.disclosures, i + 1).reason);
      }
      disclosed := disclosed[d.value.key := d.value.value];
    }
    var kb := KeyBinding(lib, c, p, nonce, audience);
    if kb.Err? {
      return Err(kb.reason);
    }
    return Ok(Verified(issuer, StringClaim(c, "sub"), StringClaim(c, "vct"), disclosed, AlwaysVisible(c),
                       NumClaim(lib, c, "iat"), exp, kb.value));
  }

  lemma {:induction false} RefusalStays(lib: Library, signed: set<string>, encs: seq<string>, i: nat, k: nat)
    requires i <= k <= |encs| && Disclosed(lib, signed, encs, i).Err?
    ensures Disclosed(lib, signed, encs, k) == Disclosed(lib, signed, encs, i)
    decreases k
  {
    hide ParseDisclosure, Digest;
    if i < k {
      RefusalStays(lib, signed, encs, i, k - 1);
    }
  }
}
