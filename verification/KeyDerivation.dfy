/**
 The input of the Concat KDF (section 4.6.2 of RFC 7518): a round number, the shared
 secret, three length-prefixed fields and the key length, and its reading back.
 */
module KeyDerivation {
  import opened Results
  import opened ByteCodes

  type Bytes = seq<bv8>

  const TWO_32: nat := 0x1_0000_0000

  // The big-endian bytes of a 32-bit number.
  function Be32(n: nat): Bytes {
    var n1 := Shifted(n);
    var n2 := Shifted(n1);
    [ToByte(Shifted(n2)), ToByte(n2), ToByte(n1), ToByte(n)]
  }

  function KdfInput(z: Bytes, alg: Bytes, apu: Bytes, apv: Bytes): Bytes {
    Be32(1) + z + Be32(|alg|) + alg + Be32(|apu|) + apu + Be32(|apv|) + apv + Be32(256)
  }

  lemma Remainder32(n: nat, q: nat, r: nat)
    requires n == TWO_32 * q + r && r < TWO_32
    ensures n % TWO_32 == r
  {}

  lemma Be32Value(n: nat)
    ensures |Be32(n)| == 4 && BigEndian(Be32(n)) == n % TWO_32
  {
    hide ToByte, Value, Shifted, BigEndian;
    var n1 := Shifted(n);
    var n2 := Shifted(n1);
    var n3 := Shifted(n2);
    LastByte(n);
    LastByte(n1);
    LastByte(n2);
    LastByte(n3);
    FourBytes(Be32(n));
    assert Be32(n)[..4] == Be32(n);
    Remainder32(n, Shifted(n3), BigEndian(Be32(n)));
  }

  // ----- reading -----

  datatype Field = Field(content: Bytes, rest: Bytes)

  // A field preceded by its length in four bytes, and what follows it.
  function ReadField(b: Bytes): Option<Field> {
    if |b| < 4 then None
    else
      var n := BigEndian(b[..4]);
      if |b| - 4 < n then None else Some(Field(b[4..4 + n], b[4 + n..]))
  }

  datatype Parts = Parts(round: nat, secret: Bytes, alg: Bytes, apu: Bytes, apv: Bytes, keyBits: nat)

  // The parts of an input for a secret of the given length.
  function ReadKdf(input: Bytes, secretSize: nat): Option<Parts> {
    if |input| < 4 + secretSize then None
    else
      match ReadField(input[4 + secretSize..])
      case None => None
      case Some(alg) =>
        match ReadField(alg.rest)
        case None => None
        case Some(apu) =>
          match ReadField(apu.rest)
          case None => None
          case Some(apv) =>
            Some(Parts(BigEndian(input[..4]), input[4..4 + secretSize],
                       alg.content, apu.content, apv.content, BigEndian(apv.rest)))
  }

  lemma FieldReads(a: Bytes, rest: Bytes)
    requires |a| < TWO_32
    ensures ReadField(Be32(|a|) + a + rest) == Some(Field(a, rest))
  {
    hide Be32, BigEndian;
    Be32Value(|a|);
    var b := Be32(|a|) + a + rest;
    assert b[..4] == Be32(|a|);
    assert |a| % TWO_32 == |a|;
    assert b[4..4 + |a|] == a && b[4 + |a|..] == rest;
  }

  // The fields whose lengths the input carries in 32 bits.
  predicate FieldsFit(alg: Bytes, apu: Bytes, apv: Bytes) {
    |alg| < TWO_32 && |apu| < TWO_32 && |apv| < TWO_32
  }

  lemma KdfInputNested(z: Bytes, alg: Bytes, apu: Bytes, apv: Bytes, g: Bytes, u: Bytes, v: Bytes)
    requires v == Be32(|apv|) + apv + Be32(256) && u == Be32(|apu|) + apu + v && g == Be32(|alg|) + alg + u
    ensures KdfInput(z, alg, apu, apv) == Be32(1) + z + g
  {
    hide Be32;
  }

  /** The input reads back: round one, the secret, the algorithm, the two parties, a key of 256 bits. */
  lemma KdfInputReads(z: Bytes, alg: Bytes, apu: Bytes, apv: Bytes)
    requires FieldsFit(alg, apu, apv)
    ensures ReadKdf(KdfInput(z, alg, apu, apv), |z|) == Some(Parts(1, z, alg, apu, apv, 256))
  {
    hide Be32, KdfInput, ReadField, BigEndian;
    Be32Value(1);
    Be32Value(256);
    var v := Be32(|apv|) + apv + Be32(256);
    var u := Be32(|apu|) + apu + v;
    var g := Be32(|alg|) + alg + u;
    KdfInputNested(z, alg, apu, apv, g, u, v);
    var input := Be32(1) + z + g;
    assert input[..4] == Be32(1) && input[4..4 + |z|] == z && input[4 + |z|..] == g;
    FieldReads(alg, u);
    FieldReads(apu, v);
    FieldReads(apv, Be32(256));
  }

  /**
   Equal inputs to the key derivation come from equal secrets, algorithms and party
   fields, exactly when the secrets are equally long: the length of the secret is
   the one length the input does not carry.
   */
  lemma KdfInputUnambiguous(z: Bytes, alg: Bytes, apu: Bytes, apv: Bytes, z': Bytes, alg': Bytes, apu': Bytes,
                            apv': Bytes)
    requires FieldsFit(alg, apu, apv) && FieldsFit(alg', apu', apv')
    requires KdfInput(z, alg, apu, apv) == KdfInput(z', alg', apu', apv')
    ensures (z == z' && alg == alg' && apu == apu' && apv == apv') <==> |z| == |z'|
  {
    hide KdfInput, ReadKdf;
    KdfInputReads(z, alg, apu, apv);
    KdfInputReads(z', alg', apu', apv');
  }

  /**
   Secrets of different lengths can share an input: a longer secret may continue
   with what, after the shorter one, reads as its algorithm and party fields.
   */
  lemma KdfInputShared(z: Bytes, alg: Bytes, pad: Bytes, alg': Bytes, apu': Bytes, apv': Bytes)
      returns (apv: Bytes, z': Bytes)
    ensures |z'| == |z| + 12 + |alg| + |pad|
    ensures KdfInput(z, alg, [], apv) == KdfInput(z', alg', apu', apv')
  {
    hide Be32, BigEndian;
    var rest := Be32(|alg'|) + alg' + Be32(|apu'|) + apu' + Be32(|apv'|) + apv';
    apv := pad + rest;
    z' := z + Be32(|alg|) + alg + Be32(0) + Be32(|apv|) + pad;
    Be32Value(0);
    Be32Value(|alg|);
    Be32Value(|apv|);
    assert KdfInput(z', alg', apu', apv') == Be32(1) + z' + rest + Be32(256);
    assert KdfInput(z, alg, [], apv)
      == Be32(1) + z + Be32(|alg|) + alg + Be32(0) + Be32(|apv|) + pad + rest + Be32(256);
  }

  lemma KdfInputSize(z: Bytes, alg: Bytes, apu: Bytes, apv: Bytes)
    ensures |KdfInput(z, alg, apu, apv)| == 20 + |z| + |alg| + |apu| + |apv|
  {}
}
