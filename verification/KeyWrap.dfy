/**
 AES key wrap (sections 2.2.1 and 2.2.2 of RFC 3394) as the DIDComm envelope code
 runs it: two nested loops that rewrite the integrity register A and the
 registers R in place, forwards to wrap and backwards to unwrap.

 The block cipher is a parameter; all that is asked of it is that encryption and
 decryption of a block undo each other.
 */
module KeyWrap {
  import opened Results
  import opened ByteCodes

  type Bytes = seq<bv8>

  // Eight bytes; a cipher block is two of them.
  datatype Semi = Semi(b0: bv8, b1: bv8, b2: bv8, b3: bv8, b4: bv8, b5: bv8, b6: bv8, b7: bv8)
  datatype Block = Block(hi: Semi, lo: Semi)

  datatype Cipher = Cipher(encrypt: (Bytes, Block) -> Block, decrypt: (Bytes, Block) -> Block)

  predicate KeySizeOk(key: Bytes) { |key| == 16 || |key| == 24 || |key| == 32 }

  ghost predicate CipherLaw(c: Cipher) {
    forall key: Bytes, block: Block :: KeySizeOk(key) ==>
      c.decrypt(key, c.encrypt(key, block)) == block && c.encrypt(key, c.decrypt(key, block)) == block
  }

  const DEFAULT_IV := Semi(0xA6, 0xA6, 0xA6, 0xA6, 0xA6, 0xA6, 0xA6, 0xA6)

  // The big-endian bytes of a 64-bit counter.
  function Counter(t: nat): Semi {
    var t1 := Shifted(t);
    var t2 := Shifted(t1);
    var t3 := Shifted(t2);
    var t4 := Shifted(t3);
    var t5 := Shifted(t4);
    var t6 := Shifted(t5);
    var t7 := Shifted(t6);
    Semi(ToByte(t7), ToByte(t6), ToByte(t5), ToByte(t4), ToByte(t3), ToByte(t2), ToByte(t1), ToByte(t))
  }

  const TWO_64: nat := 0x1_0000_0000_0000_0000

  // The number eight bytes stand for, first byte first.
  function Number(s: Semi): nat {
    Push(Push(Push(Push(Push(Push(Push(Push(0, s.b0), s.b1), s.b2), s.b3), s.b4), s.b5), s.b6), s.b7)
  }

  lemma Remainder64(t: nat, q: nat, r: nat)
    requires t == TWO_64 * q + r && r < TWO_64
    ensures t % TWO_64 == r
  {}

  /** The counter's bytes, read as one number, are the step modulo 2^64. */
  lemma CounterNumber(t: nat)
    ensures Number(Counter(t)) == t % TWO_64
  {
    hide ToByte, Value, Shifted;
    var t1 := Shifted(t);
    var t2 := Shifted(t1);
    var t3 := Shifted(t2);
    var t4 := Shifted(t3);
    var t5 := Shifted(t4);
    var t6 := Shifted(t5);
    var t7 := Shifted(t6);
    LastByte(t);
    LastByte(t1);
    LastByte(t2);
    LastByte(t3);
    LastByte(t4);
    LastByte(t5);
    LastByte(t6);
    LastByte(t7);
    Remainder64(t, Shifted(t7), Number(Counter(t)));
  }

  /** Eight bytes are determined by their number. */
  lemma NumberInjective(s: Semi, r: Semi)
    requires Number(s) == Number(r)
    ensures s == r
  {
    hide Push;
    var x0, y0 := Push(0, s.b0), Push(0, r.b0);
    var x1, y1 := Push(x0, s.b1), Push(y0, r.b1);
    var x2, y2 := Push(x1, s.b2), Push(y1, r.b2);
    var x3, y3 := Push(x2, s.b3), Push(y2, r.b3);
    var x4, y4 := Push(x3, s.b4), Push(y3, r.b4);
    var x5, y5 := Push(x4, s.b5), Push(y4, r.b5);
    var x6, y6 := Push(x5, s.b6), Push(y5, r.b6);
    PushInjective(x6, s.b7, y6, r.b7);
    PushInjective(x5, s.b6, y5, r.b6);
    PushInjective(x4, s.b5, y4, r.b5);
    PushInjective(x3, s.b4, y3, r.b4);
    PushInjective(x2, s.b3, y2, r.b3);
    PushInjective(x1, s.b2, y1, r.b2);
    PushInjective(x0, s.b1, y0, r.b1);
    PushInjective(0, s.b0, 0, r.b0);
  }

  function XorByte(a: bv8, b: bv8): bv8 { a ^ b }

  function Xor(a: Semi, b: Semi): Semi {
    Semi(XorByte(a.b0, b.b0), XorByte(a.b1, b.b1), XorByte(a.b2, b.b2), XorByte(a.b3, b.b3),
         XorByte(a.b4, b.b4), XorByte(a.b5, b.b5), XorByte(a.b6, b.b6), XorByte(a.b7, b.b7))
  }

  lemma XorByteTwice(a: bv8, b: bv8)
    ensures XorByte(XorByte(a, b), b) == a
  {}

  lemma XorByteLaws(a: bv8, b: bv8, c: bv8)
    ensures XorByte(a, b) == XorByte(b, a) && XorByte(a, 0) == a
    ensures XorByte(XorByte(a, b), c) == XorByte(a, XorByte(b, c))
  {}

  /** Exclusive or of semi-blocks is a commutative group operation whose unit is the zero counter. */
  lemma XorLaws(a: Semi, b: Semi, c: Semi)
    ensures Xor(a, b) == Xor(b, a) && Xor(Xor(a, b), c) == Xor(a, Xor(b, c))
    ensures Xor(a, Semi(0, 0, 0, 0, 0, 0, 0, 0)) == a
  {
    hide XorByte;
    XorByteLaws(a.b0, b.b0, c.b0);
    XorByteLaws(a.b1, b.b1, c.b1);
    XorByteLaws(a.b2, b.b2, c.b2);
    XorByteLaws(a.b3, b.b3, c.b3);
    XorByteLaws(a.b4, b.b4, c.b4);
    XorByteLaws(a.b5, b.b5, c.b5);
    XorByteLaws(a.b6, b.b6, c.b6);
    XorByteLaws(a.b7, b.b7, c.b7);
  }

  lemma XorTwice(a: Semi, b: Semi)
    ensures Xor(Xor(a, b), b) == a
  {
    hide XorByte;
    XorByteTwice(a.b0, b.b0);
    XorByteTwice(a.b1, b.b1);
    XorByteTwice(a.b2, b.b2);
    XorByteTwice(a.b3, b.b3);
    XorByteTwice(a.b4, b.b4);
    XorByteTwice(a.b5, b.b5);
    XorByteTwice(a.b6, b.b6);
    XorByteTwice(a.b7, b.b7);
  }

  // ----- one step, and the loops as recursions -----

  datatype Registers = Registers(a: Semi, r: seq<Semi>)

  function WrapStep(c: Cipher, key: Bytes, s: Registers, i: nat, t: nat): Registers
    requires i < |s.r|
  {
    var buf := c.encrypt(key, Block(s.a, s.r[i]));
    Registers(Xor(buf.hi, Counter(t)), s.r[i := buf.lo])
  }

  function UnwrapStep(c: Cipher, key: Bytes, s: Registers, i: nat, t: nat): Registers
    requires i < |s.r|
  {
    var buf := c.decrypt(key, Block(Xor(s.a, Counter(t)), s.r[i]));
    Registers(buf.hi, s.r[i := buf.lo])
  }

  // The first i steps of round j, and the first j rounds.
  function WrapRow(c: Cipher, key: Bytes, s: Registers, j: nat, i: nat): (s': Registers)
    requires i <= |s.r|
    ensures |s'.r| == |s.r|
    decreases i
  {
    hide Counter, Xor;
    if i == 0 then s else WrapStep(c, key, WrapRow(c, key, s, j, i - 1), i - 1, |s.r| * j + i)
  }

  function WrapRounds(c: Cipher, key: Bytes, s: Registers, j: nat): (s': Registers)
    ensures |s'.r| == |s.r|
    decreases j
  {
    if j == 0 then s else WrapRow(c, key, WrapRounds(c, key, s, j - 1), j - 1, |s.r|)
  }

  // Steps i-1 .. 0 of round j undone, and rounds j-1 .. 0 undone.
  function UnwrapRow(c: Cipher, key: Bytes, s: Registers, j: nat, i: nat): (s': Registers)
    requires i <= |s.r|
    ensures |s'.r| == |s.r|
    decreases i
  {
    hide Counter, Xor;
    if i == 0 then s else UnwrapRow(c, key, UnwrapStep(c, key, s, i - 1, |s.r| * j + i), j, i - 1)
  }

  function UnwrapRounds(c: Cipher, key: Bytes, s: Registers, j: nat): (s': Registers)
    ensures |s'.r| == |s.r|
    decreases j
  {
    if j == 0 then s else UnwrapRounds(c, key, UnwrapRow(c, key, s, j - 1, |s.r|), j - 1)
  }

  // ----- each step undoes its counterpart, hence each row, hence all rounds -----

  lemma StepInverse(c: Cipher, key: Bytes, s: Registers, i: nat, t: nat)
    requires CipherLaw(c) && KeySizeOk(key) && i < |s.r|
    ensures UnwrapStep(c, key, WrapStep(c, key, s, i, t), i, t) == s
    ensures WrapStep(c, key, UnwrapStep(c, key, s, i, t), i, t) == s
  {
    hide Xor, Counter;
    XorTwice(c.encrypt(key, Block(s.a, s.r[i])).hi, Counter(t));
    XorTwice(s.a, Counter(t));
  }

  lemma {:induction false} RowInverse(c: Cipher, key: Bytes, s: Registers, j: nat, i: nat)
    requires CipherLaw(c) && KeySizeOk(key) && i <= |s.r|
    ensures UnwrapRow(c, key, WrapRow(c, key, s, j, i), j, i) == s
    ensures WrapRow(c, key, UnwrapRow(c, key, s, j, i), j, i) == s
    decreases i
  {
    hide CipherLaw, WrapStep, UnwrapStep;
    if i > 0 {
      var t := |s.r| * j + i;
      StepInverse(c, key, WrapRow(c, key, s, j, i - 1), i - 1, t);
      RowInverse(c, key, s, j, i - 1);
      StepKeepsLength(c, key, s, i - 1, t);
      RowInverse(c, key, UnwrapStep(c, key, s, i - 1, t), j, i - 1);
      StepInverse(c, key, s, i - 1, t);
    }
  }

  lemma StepKeepsLength(c: Cipher, key: Bytes, s: Registers, i: nat, t: nat)
    requires i < |s.r|
    ensures |WrapStep(c, key, s, i, t).r| == |s.r| == |UnwrapStep(c, key, s, i, t).r|
  {}

  lemma {:induction false} RoundsInverse(c: Cipher, key: Bytes, s: Registers, j: nat)
    requires CipherLaw(c) && KeySizeOk(key)
    ensures UnwrapRounds(c, key, WrapRounds(c, key, s, j), j) == s
    ensures WrapRounds(c, key, UnwrapRounds(c, key, s, j), j) == s
    decreases j
  {
    hide CipherLaw, WrapRow, UnwrapRow;
    if j > 0 {
      RowInverse(c, key, WrapRounds(c, key, s, j - 1), j - 1, |s.r|);
      RoundsInverse(c, key, s, j - 1);
      RoundsInverse(c, key, UnwrapRow(c, key, s, j - 1, |s.r|), j - 1);
      RowInverse(c, key, s, j - 1, |s.r|);
    }
  }

  // ----- the shifting form -----

  // One step of section 2.2.1 of RFC 3394 as a queue: the front register is wrapped and goes to the back.
  function ShiftStep(c: Cipher, key: Bytes, s: Registers, t: nat): Registers
    requires s.r != []
  {
    var buf := c.encrypt(key, Block(s.a, s.r[0]));
    Registers(Xor(buf.hi, Counter(t)), s.r[1..] + [buf.lo])
  }

  // Steps 1 .. t, without rounds.
  function ShiftSteps(c: Cipher, key: Bytes, s: Registers, t: nat): (s': Registers)
    requires s.r != []
    ensures |s'.r| == |s.r|
  {
    hide Counter, Xor;
    if t == 0 then s else ShiftStep(c, key, ShiftSteps(c, key, s, t - 1), t)
  }

  // The queue when i registers of the row have been done.
  function Turned(s: Registers, i: nat): Registers
    requires i <= |s.r|
  {
    Registers(s.a, s.r[i..] + s.r[..i])
  }

  lemma TurnedStep(c: Cipher, key: Bytes, s: Registers, i: nat, t: nat)
    requires i < |s.r|
    ensures ShiftStep(c, key, Turned(s, i), t) == Turned(WrapStep(c, key, s, i, t), i + 1)
  {
    hide Counter, Xor;
    var q := Turned(s, i).r;
    assert q[0] == s.r[i];
    var buf := c.encrypt(key, Block(s.a, s.r[i]));
    var r := s.r[i := buf.lo];
    assert r[i + 1..] + r[..i + 1] == q[1..] + [buf.lo];
  }

  lemma {:induction false} RowShifts(c: Cipher, key: Bytes, s0: Registers, s: Registers, j: nat, i: nat)
    requires s0.r != [] && |s.r| == |s0.r| && i <= |s.r| && ShiftSteps(c, key, s0, |s.r| * j) == s
    ensures ShiftSteps(c, key, s0, |s.r| * j + i) == Turned(WrapRow(c, key, s, j, i), i)
    decreases i
  {
    hide WrapStep, ShiftStep;
    if i == 0 {
      assert s.r[0..] + s.r[..0] == s.r;
    } else {
      RowShifts(c, key, s0, s, j, i - 1);
      TurnedStep(c, key, WrapRow(c, key, s, j, i - 1), i - 1, |s.r| * j + i);
    }
  }

  lemma NoSteps(c: Cipher, key: Bytes, s: Registers, t: nat)
    requires s.r != [] && t == 0
    ensures ShiftSteps(c, key, s, t) == s
  {}

  lemma {:induction false} RoundsShift(c: Cipher, key: Bytes, s: Registers, j: nat)
    requires s.r != []
    ensures ShiftSteps(c, key, s, |s.r| * j) == WrapRounds(c, key, s, j)
    decreases j
  {
    hide WrapRow, ShiftSteps;
    var n := |s.r|;
    if j == 0 {
      NoSteps(c, key, s, n * 0);
    } else {
      RoundsShift(c, key, s, j - 1);
      var before := WrapRounds(c, key, s, j - 1);
      RowShifts(c, key, s, before, j - 1, n);
      var row := WrapRow(c, key, before, j - 1, n);
      assert row.r[n..] + row.r[..n] == row.r;
      assert n * (j - 1) + n == n * j;
    }
  }

  // ----- byte strings and registers -----

  function Pack(b: Bytes, i: nat): Semi
    requires 8 * i + 8 <= |b|
  {
    Semi(b[8 * i], b[8 * i + 1], b[8 * i + 2], b[8 * i + 3], b[8 * i + 4], b[8 * i + 5], b[8 * i + 6], b[8 * i + 7])
  }

  function Unpack(s: Semi): Bytes { [s.b0, s.b1, s.b2, s.b3, s.b4, s.b5, s.b6, s.b7] }

  function Chunks(b: Bytes): seq<Semi>
    requires |b| % 8 == 0
  {
    seq(|b| / 8, i requires 0 <= i < |b| / 8 => Pack(b, i))
  }

  function Flat(r: seq<Semi>): Bytes {
    seq(8 * |r|, k requires 0 <= k < 8 * |r| => Unpack(r[k / 8])[k % 8])
  }

  /** The bytes of a semi-block in order are its number in big-endian notation. */
  lemma UnpackNumber(s: Semi)
    ensures BigEndian(Unpack(s)) == Number(s)
  {
    hide Push, BigEndian;
    EightBytes(Unpack(s));
  }

  lemma FlatChunks(b: Bytes)
    requires |b| % 8 == 0
    ensures Flat(Chunks(b)) == b
  {
    forall k | 0 <= k < |b| ensures Flat(Chunks(b))[k] == b[k] {
      assert k == 8 * (k / 8) + k % 8;
      assert k % 8 in {0, 1, 2, 3, 4, 5, 6, 7};
    }
  }

  lemma FlatAt(r: seq<Semi>, i: nat, m: nat)
    requires i < |r| && m < 8
    ensures 8 * i + m < 8 * |r| && Flat(r)[8 * i + m] == Unpack(r[i])[m]
  {
    var k := 8 * i + m;
    assert k / 8 == i && k % 8 == m;
  }

  lemma PackFlat(r: seq<Semi>, i: nat)
    requires i < |r| && |Flat(r)| == 8 * |r|
    ensures Pack(Flat(r), i) == r[i]
  {
    hide Flat;
    FlatAt(r, i, 0);
    FlatAt(r, i, 1);
    FlatAt(r, i, 2);
    FlatAt(r, i, 3);
    FlatAt(r, i, 4);
    FlatAt(r, i, 5);
    FlatAt(r, i, 6);
    FlatAt(r, i, 7);
  }

  lemma FlatLength(r: seq<Semi>)
    ensures |Flat(r)| == 8 * |r|
  {}

  lemma ChunksFlat(r: seq<Semi>)
    ensures |Flat(r)| % 8 == 0 && Chunks(Flat(r)) == r
  {
    hide Flat, Pack;
    FlatLength(r);
    forall i | 0 <= i < |r| ensures Pack(Flat(r), i) == r[i] {
      PackFlat(r, i);
    }
  }

  // ----- the two operations -----

  function Wrapped(c: Cipher, key: Bytes, plaintext: Bytes): Result<Bytes> {
    if |plaintext| < 16 || |plaintext| % 8 != 0 then Err("plaintext length")
    else if !KeySizeOk(key) then Err("key size")
    else
      var s := WrapRounds(c, key, Registers(DEFAULT_IV, Chunks(plaintext)), 6);
      Ok(Unpack(s.a) + Flat(s.r))
  }

  function Unwrapped(c: Cipher, key: Bytes, ciphertext: Bytes): Result<Bytes> {
    if |ciphertext| < 24 || |ciphertext| % 8 != 0 then Err("ciphertext length")
    else if !KeySizeOk(key) then Err("key size")
    else
      var s := UnwrapRounds(c, key, Registers(Pack(ciphertext, 0), Chunks(ciphertext[8..])), 6);
      if s.a != DEFAULT_IV then Err("integrity check failed") else Ok(Flat(s.r))
  }

  /** Wrapping: six forward passes over the registers. */
  method Wrap(c: Cipher, key: Bytes, plaintext: Bytes) returns (r: Result<Bytes>)
    ensures r == Wrapped(c, key, plaintext)
  {
    hide Xor, Counter, Flat, Pack;
    if |plaintext| < 16 || |plaintext| % 8 != 0 {
      return Err("plaintext length");
    }
    if !KeySizeOk(key) {
      return Err("key size");
    }
    var n := |plaintext| / 8;
    ghost var s0 := Registers(DEFAULT_IV, Chunks(plaintext));
    var regs := new Semi[n](i requires 0 <= i < n => Pack(plaintext, i));
    var a := DEFAULT_IV;
    assert regs[..] == s0.r;
    for j := 0 to 6
      invariant Registers(a, regs[..]) == WrapRounds(c, key, s0, j)
    {
      ghost var sj := Registers(a, regs[..]);
      for i := 0 to n
        invariant Registers(a, regs[..]) == WrapRow(c, key, sj, j, i)
      {
        var buf := c.encrypt(key, Block(a, regs[i]));
        var t := n * j + i + 1;
        a := Xor(buf.hi, Counter(t));
        regs[i] := buf.lo;
      }
    }
    return Ok(Unpack(a) + Flat(regs[..]));
  }

  // One backward pass over the registers.
  method UnwrapPass(c: Cipher, key: Bytes, a0: Semi, regs: array<Semi>, j: nat) returns (a: Semi)
    modifies regs
    ensures Registers(a, regs[..]) == UnwrapRow(c, key, Registers(a0, old(regs[..])), j, regs.Length)
  {
    hide Xor, Counter;
    var n := regs.Length;
    a := a0;
    var i := n;
    while i > 0
      invariant 0 <= i <= n
      invariant UnwrapRow(c, key, Registers(a, regs[..]), j, i) == UnwrapRow(c, key, Registers(a0, old(regs[..])), j, n)
    {
      i := i - 1;
      ghost var s := Registers(a, regs[..]);
      var t := n * j + i + 1;
      var buf := c.decrypt(key, Block(Xor(a, Counter(t)), regs[i]));
      a := buf.hi;
      regs[i] := buf.lo;
      assert Registers(a, regs[..]) == UnwrapStep(c, key, s, i, t);
    }
  }

  /** Unwrapping: the same steps backwards, then the integrity check. */
  method Unwrap(c: Cipher, key: Bytes, ciphertext: Bytes) returns (r: Result<Bytes>)
    ensures r == Unwrapped(c, key, ciphertext)
  {
    hide Xor, Counter, Flat, Pack, UnwrapRow;
    if |ciphertext| < 24 || |ciphertext| % 8 != 0 {
      return Err("ciphertext length");
    }
    if !KeySizeOk(key) {
      return Err("key size");
    }
    var n := |ciphertext| / 8 - 1;
    ghost var s0 := Registers(Pack(ciphertext, 0), Chunks(ciphertext[8..]));
    var rest := ciphertext[8..];
    var regs := new Semi[n](i requires 0 <= i < n => Pack(rest, i));
    var a := Pack(ciphertext, 0);
    assert regs[..] == s0.r;
    var j := 6;
    while j > 0
      invariant 0 <= j <= 6
      invariant UnwrapRounds(c, key, Registers(a, regs[..]), j) == UnwrapRounds(c, key, s0, 6)
    {
      j := j - 1;
      a := UnwrapPass(c, key, a, regs, j);
    }
    if a != DEFAULT_IV {
      return Err("integrity check failed");
    }
    return Ok(Flat(regs[..]));
  }

  lemma Sizes(r: seq<Semi>, a: Semi, b: Bytes)
    ensures |Flat(r)| == 8 * |r|
    ensures |Unpack(a)| == 8
    ensures |b| >= 8 && b[..8] == Unpack(a) ==> Pack(b, 0) == a
    ensures |b| >= 8 ==> Unpack(Pack(b, 0)) == b[..8]
    ensures |b| % 8 == 0 ==> |Chunks(b)| == |b| / 8
  {
    if |b| >= 8 && b[..8] == Unpack(a) {
      assert forall m :: 0 <= m < 8 ==> b[m] == b[..8][m];
    }
  }

  /** Unwrapping undoes wrapping, for every key the cipher takes and every plaintext that can be wrapped. */
  lemma UnwrapInvertsWrap(c: Cipher, key: Bytes, plaintext: Bytes)
    requires CipherLaw(c) && KeySizeOk(key) && |plaintext| >= 16 && |plaintext| % 8 == 0
    ensures Wrapped(c, key, plaintext).Ok? && |Wrapped(c, key, plaintext).value| == |plaintext| + 8
    ensures Unwrapped(c, key, Wrapped(c, key, plaintext).value) == Ok(plaintext)
  {
    hide CipherLaw, WrapRounds, UnwrapRounds, Flat, Chunks, Pack, Unpack;
    var s0 := Registers(DEFAULT_IV, Chunks(plaintext));
    var s := WrapRounds(c, key, s0, 6);
    var w := Unpack(s.a) + Flat(s.r);
    RoundsInverse(c, key, s0, 6);
    Sizes(s.r, s.a, plaintext);
    Sizes(s.r, s.a, w);
    ChunksFlat(s.r);
    FlatChunks(plaintext);
    assert w[..8] == Unpack(s.a) && w[8..] == Flat(s.r);
  }

  /** Everything unwrapping accepts is the wrap of what it returns. */
  lemma WrapInvertsUnwrap(c: Cipher, key: Bytes, ciphertext: Bytes)
    requires CipherLaw(c) && Unwrapped(c, key, ciphertext).Ok?
    ensures Wrapped(c, key, Unwrapped(c, key, ciphertext).value) == Ok(ciphertext)
  {
    hide CipherLaw, WrapRounds, UnwrapRounds, Flat, Chunks, Pack, Unpack;
    var s0 := Registers(Pack(ciphertext, 0), Chunks(ciphertext[8..]));
    var s := UnwrapRounds(c, key, s0, 6);
    RoundsInverse(c, key, s0, 6);
    Sizes(s.r, s.a, ciphertext[8..]);
    Sizes(s.r, s.a, ciphertext);
    ChunksFlat(s.r);
    FlatChunks(ciphertext[8..]);
    assert ciphertext[..8] + ciphertext[8..] == ciphertext;
  }

  /** Wrapping n registers is 6n steps of the shifting form, numbered from one. */
  lemma WrappedIsShifted(c: Cipher, key: Bytes, plaintext: Bytes)
    requires KeySizeOk(key) && |plaintext| >= 16 && |plaintext| % 8 == 0
    ensures var s := ShiftSteps(c, key, Registers(DEFAULT_IV, Chunks(plaintext)), 6 * (|plaintext| / 8));
      Wrapped(c, key, plaintext) == Ok(Unpack(s.a) + Flat(s.r))
  {
    hide WrapRounds, ShiftSteps, Flat, Pack, Unpack;
    RoundsShift(c, key, Registers(DEFAULT_IV, Chunks(plaintext)), 6);
  }

  /** So unwrapping accepts exactly the wraps made under the same key. */
  lemma AcceptsExactlyWraps(c: Cipher, key: Bytes, ciphertext: Bytes)
    requires CipherLaw(c)
    ensures Unwrapped(c, key, ciphertext).Ok? <==> exists p :: Wrapped(c, key, p) == Ok(ciphertext)
  {
    hide CipherLaw, WrapRounds, UnwrapRounds, Flat, Chunks, Pack, Unpack;
    if Unwrapped(c, key, ciphertext).Ok? {
      WrapInvertsUnwrap(c, key, ciphertext);
    }
    if exists p :: Wrapped(c, key, p) == Ok(ciphertext) {
      var p :| Wrapped(c, key, p) == Ok(ciphertext);
      UnwrapInvertsWrap(c, key, p);
    }
  }
}
