/**
 The field GF(256) as the guardian-recovery code computes in it: bytes, addition
 by exclusive or, multiplication by shift-and-add reduced modulo
 x^8 + x^4 + x^3 + x + 1, inversion by Fermat's exponent 254.

 The field laws are not taken for granted: they are derived for the loops
 themselves.  Commutativity and associativity come from one exchange law, proved
 by following the multiplication loop; the inverse law comes from squaring being
 additive, so that squaring eight times is the identity.

 Lemmas that reason algebraically start with `hide *`, which keeps the
 bit-vector definitions out of their proofs.
 */
module Gf256 {

  type Elem = bv8

  function Add(x: Elem, y: Elem): Elem { x ^ y }

  // Multiplication by x: shift left, fold the carried-out bit back in.
  function Xtime(a: Elem): Elem {
    if a & 0x80 != 0 then (a << 1) ^ 0x1b else a << 1
  }

  // What one round of the multiplication loop contributes.
  function Term(a: Elem, b: Elem): Elem { if b & 1 != 0 then a else 0 }

  function Half(b: Elem): Elem { b >> 1 }

  // What k rounds of the multiplication loop add to the accumulator.
  function MulSteps(a: Elem, b: Elem, k: nat): Elem
    decreases k
  {
    if k == 0 then 0 else Add(Term(a, b), MulSteps(Xtime(a), Half(b), k - 1))
  }

  function Mul(a: Elem, b: Elem): Elem {
    MulSteps(a, b, 8)
  }

  // ----- addition -----

  lemma AddComm(x: Elem, y: Elem)
    ensures Add(x, y) == Add(y, x)
  {}

  lemma AddAssoc(x: Elem, y: Elem, z: Elem)
    ensures Add(Add(x, y), z) == Add(x, Add(y, z))
  {}

  lemma AddSwap(w: Elem, x: Elem, y: Elem, z: Elem)
    ensures Add(Add(w, x), Add(y, z)) == Add(Add(w, y), Add(x, z))
  {
    hide Add;
    AddAssoc(w, x, Add(y, z));
    AddAssoc(x, y, z);
    AddComm(x, y);
    AddAssoc(y, x, z);
    AddAssoc(w, y, Add(x, z));
  }

  // Every element is its own negative.
  lemma AddCancel(x: Elem, y: Elem)
    ensures Add(x, y) == 0 <==> x == y
    ensures Add(x, 0) == x == Add(0, x)
    ensures Add(x, Add(x, y)) == y
  {}

  // ----- the multiplication loop -----

  // The loop from accumulator p with k rounds to go.
  function MulFrom(p: Elem, a: Elem, b: Elem, k: nat): Elem
    decreases k
  {
    if k == 0 then p else MulFrom(Add(p, Term(a, b)), Xtime(a), Half(b), k - 1)
  }

  lemma {:induction false} MulFromIsSum(p: Elem, a: Elem, b: Elem, k: nat)
    ensures MulFrom(p, a, b, k) == Add(p, MulSteps(a, b, k))
    decreases k
  {
    hide Add, Xtime, Term, Half;
    if k == 0 {
      AddCancel(p, 0);
    } else {
      MulFromIsSum(Add(p, Term(a, b)), Xtime(a), Half(b), k - 1);
      AddAssoc(p, Term(a, b), MulSteps(Xtime(a), Half(b), k - 1));
    }
  }

  /** The multiplication loop computes the field product. */
  method MulLoop(a0: Elem, b0: Elem) returns (p: Elem)
    ensures p == Mul(a0, b0)
  {
    var a, b := a0, b0;
    p := 0;
    for i := 0 to 8
      invariant MulFrom(p, a, b, 8 - i) == MulFrom(0, a0, b0, 8)
    {
      ghost var q := Add(p, Term(a, b));
      ghost var d := Xtime(a);
      if b & 1 != 0 {
        p := p ^ a;
      }
      assert p == q;
      var hi := a & 0x80;
      a := a << 1;
      if hi != 0 {
        a := a ^ 0x1b;
      }
      assert a == d;
      b := b >> 1;
    }
    MulFromIsSum(0, a0, b0, 8);
    AddCancel(Mul(a0, b0), 0);
  }

  // ----- multiplication is bilinear and commutes with the shift -----

  lemma ShiftXor(x: Elem, y: Elem)
    ensures (x ^ y) & 0x80 == (x & 0x80) ^ (y & 0x80)
    ensures (x ^ y) << 1 == (x << 1) ^ (y << 1)
    ensures x & 0x80 == 0 || x & 0x80 == 0x80
  {}

  lemma XtimeAdd(x: Elem, y: Elem)
    ensures Xtime(Add(x, y)) == Add(Xtime(x), Xtime(y))
  {
    ShiftXor(x, y);
    ShiftXor(y, x);
  }

  lemma TermAdd(x: Elem, y: Elem, b: Elem)
    ensures Term(Add(x, y), b) == Add(Term(x, b), Term(y, b))
    ensures Term(0, b) == 0 && Term(Xtime(x), b) == Xtime(Term(x, b))
  {
    assert Xtime(0) == 0;
  }

  lemma {:induction false} StepsAdd(x: Elem, y: Elem, b: Elem, k: nat)
    ensures MulSteps(Add(x, y), b, k) == Add(MulSteps(x, b, k), MulSteps(y, b, k))
    decreases k
  {
    hide Add, Xtime, Term, Half;
    if k == 0 {
      AddCancel(0, 0);
    } else {
      XtimeAdd(x, y);
      TermAdd(x, y, b);
      StepsAdd(Xtime(x), Xtime(y), Half(b), k - 1);
      AddSwap(Term(x, b), Term(y, b), MulSteps(Xtime(x), Half(b), k - 1), MulSteps(Xtime(y), Half(b), k - 1));
    }
  }

  lemma {:induction false} StepsZero(b: Elem, k: nat)
    ensures MulSteps(0, b, k) == 0
    decreases k
  {
    hide Add, Term, Half;
    if k > 0 {
      assert Xtime(0) == 0;
      TermAdd(0, 0, b);
      StepsZero(Half(b), k - 1);
      AddCancel(0, 0);
    }
  }

  lemma {:induction false} StepsXtime(a: Elem, b: Elem, k: nat)
    ensures MulSteps(Xtime(a), b, k) == Xtime(MulSteps(a, b, k))
    decreases k
  {
    if k == 0 {
      assert Xtime(0) == 0;
    } else {
      hide Add, Xtime, Term, Half;
      StepsXtime(Xtime(a), Half(b), k - 1);
      TermAdd(a, a, b);
      XtimeAdd(Term(a, b), MulSteps(Xtime(a), Half(b), k - 1));
    }
  }

  // The loop over b may be run before or after multiplying by c.
  lemma {:induction false} StepsExchange(a: Elem, b: Elem, c: Elem, k: nat)
    ensures Mul(MulSteps(a, b, k), c) == MulSteps(Mul(a, c), b, k)
    decreases k
  {
    hide Add, Xtime, Half;
    StepsZero(c, 8);
    if k > 0 {
      StepsAdd(Term(a, b), MulSteps(Xtime(a), Half(b), k - 1), c, 8);
      assert Mul(Term(a, b), c) == Term(Mul(a, c), b);
      StepsExchange(Xtime(a), Half(b), c, k - 1);
      StepsXtime(a, c, 8);
    }
  }

  // The first four rounds of the loop written out, then the rest.
  function FourRounds(a: Elem, b: Elem, rest: Elem): Elem {
    Add(Term(a, b), Add(Term(Xtime(a), Half(b)), Add(Term(Xtime(Xtime(a)), Half(Half(b))),
      Add(Term(Xtime(Xtime(Xtime(a))), Half(Half(Half(b)))), rest))))
  }

  function EightRounds(a: Elem, b: Elem): Elem {
    FourRounds(a, b, FourRounds(Xtime(Xtime(Xtime(Xtime(a)))), Half(Half(Half(Half(b)))), 0))
  }

  lemma UnrollFour(a: Elem, b: Elem, k: nat)
    requires k >= 4
    ensures MulSteps(a, b, k) ==
      FourRounds(a, b, MulSteps(Xtime(Xtime(Xtime(Xtime(a)))), Half(Half(Half(Half(b)))), k - 4))
  {
    hide Add, Xtime, Term, Half;
    assert MulSteps(Xtime(Xtime(a)), Half(Half(b)), k - 2) == Add(Term(Xtime(Xtime(a)), Half(Half(b))),
      Add(Term(Xtime(Xtime(Xtime(a))), Half(Half(Half(b)))),
      MulSteps(Xtime(Xtime(Xtime(Xtime(a)))), Half(Half(Half(Half(b)))), k - 4)));
  }

  lemma MulUnrolled(a: Elem, b: Elem)
    ensures Mul(a, b) == EightRounds(a, b)
  {
    hide FourRounds, Add, Xtime, Term, Half;
    UnrollFour(a, b, 8);
    UnrollFour(Xtime(Xtime(Xtime(Xtime(a)))), Half(Half(Half(Half(b)))), 4);
  }

  lemma MulOneLeft(b: Elem)
    ensures Mul(1, b) == b
  {
    hide MulSteps, Mul;
    MulUnrolled(1, b);
  }

  /** Multiplication is commutative. */
  lemma MulComm(a: Elem, b: Elem)
    ensures Mul(a, b) == Mul(b, a)
  {
    hide Add, Xtime, Term, Half;
    MulOneLeft(a);
    MulOneLeft(b);
    StepsExchange(1, a, b, 8);
  }

  /** Multiplication is associative. */
  lemma MulAssoc(a: Elem, b: Elem, c: Elem)
    ensures Mul(Mul(a, b), c) == Mul(a, Mul(b, c))
  {
    hide Add, Xtime, Term, Half;
    MulComm(a, b);
    StepsExchange(b, a, c, 8);
    MulComm(Mul(b, c), a);
  }

  /** Multiplication distributes over addition. */
  lemma MulAdd(a: Elem, b: Elem, c: Elem)
    ensures Mul(Add(a, b), c) == Add(Mul(a, c), Mul(b, c))
    ensures Mul(c, Add(a, b)) == Add(Mul(c, a), Mul(c, b))
  {
    hide Add, Xtime, Term, Half;
    StepsAdd(a, b, c, 8);
    MulComm(Add(a, b), c);
    MulComm(a, c);
    MulComm(b, c);
  }

  lemma MulUnits(a: Elem)
    ensures Mul(1, a) == a == Mul(a, 1)
    ensures Mul(0, a) == 0 == Mul(a, 0)
  {
    hide Add, Xtime, Term, Half;
    MulOneLeft(a);
    MulComm(1, a);
    StepsZero(a, 8);
    MulComm(0, a);
  }

  // ----- squaring and inversion -----

  // k-fold squaring.
  function Sq(a: Elem, k: nat): Elem {
    if k == 0 then a else Mul(Sq(a, k - 1), Sq(a, k - 1))
  }

  lemma {:induction false} SqAdd(x: Elem, y: Elem, k: nat)
    ensures Sq(Add(x, y), k) == Add(Sq(x, k), Sq(y, k))
    decreases k
  {
    hide Add, Mul;
    if k > 0 {
      SqAdd(x, y, k - 1);
      var u, v := Sq(x, k - 1), Sq(y, k - 1);
      MulAdd(u, v, Add(u, v));
      MulAdd(u, v, u);
      MulAdd(u, v, v);
      MulComm(u, v);
      AddSwap(Mul(u, u), Mul(u, v), Mul(u, v), Mul(v, v));
      AddAssoc(Mul(u, u), Mul(u, v), Add(Mul(u, v), Mul(v, v)));
      AddCancel(Mul(u, v), Mul(v, v));
    }
  }

  lemma {:induction false} SqMul(x: Elem, y: Elem, k: nat)
    ensures Sq(Mul(x, y), k) == Mul(Sq(x, k), Sq(y, k))
    decreases k
  {
    hide Mul;
    if k > 0 {
      SqMul(x, y, k - 1);
      MulSwap(Sq(x, k - 1), Sq(y, k - 1), Sq(x, k - 1), Sq(y, k - 1));
    }
  }

  lemma MulSwap(w: Elem, x: Elem, y: Elem, z: Elem)
    ensures Mul(Mul(w, x), Mul(y, z)) == Mul(Mul(w, y), Mul(x, z))
  {
    hide Mul;
    MulAssoc(w, x, Mul(y, z));
    MulAssoc(x, y, z);
    MulComm(x, y);
    MulAssoc(y, x, z);
    MulAssoc(w, y, Mul(x, z));
  }

  // Squaring a given byte, evaluated.
  lemma SquareOf(a: Elem, r: Elem)
    requires EightRounds(a, a) == r
    ensures Mul(a, a) == r
  {
    hide *;
    MulUnrolled(a, a);
  }

  lemma SqX()
    ensures Sq(2, 8) == 2
  {
    hide Mul;
    SquareOf(0x02, 0x04);
    SquareOf(0x04, 0x10);
    SquareOf(0x10, 0x1b);
    SquareOf(0x1b, 0x5e);
    SquareOf(0x5e, 0xe4);
    SquareOf(0xe4, 0x4d);
    SquareOf(0x4d, 0xfa);
    SquareOf(0xfa, 0x02);
    assert Sq(2, 2) == 0x10;
    assert Sq(2, 4) == 0x5e;
    assert Sq(2, 6) == 0x4d;
  }

  lemma {:induction false} SqUnits(k: nat)
    ensures Sq(0, k) == 0 && Sq(1, k) == 1
  {
    hide Mul;
    MulUnits(0);
    MulUnits(1);
    if k > 0 {
      SqUnits(k - 1);
    }
  }

  lemma XtimeIsMul(a: Elem)
    ensures Xtime(a) == Mul(2, a)
  {
    hide *;
    assert Xtime(1) == 2 by { XtimeOne(); }
    MulOneLeft(a);
    StepsXtime(1, a, 8);
    MulDef(1, a);
    MulDef(2, a);
  }

  lemma XtimeOne()
    ensures Xtime(1) == 2
  {}

  lemma MulDef(a: Elem, b: Elem)
    ensures Mul(a, b) == MulSteps(a, b, 8)
  {}

  // Squaring eight times is additive and fixes x, so it passes through the loop.
  lemma {:induction false} SqSteps(p: Elem, b: Elem, k: nat)
    ensures Sq(MulSteps(p, b, k), 8) == MulSteps(Sq(p, 8), b, k)
    decreases k
  {
    hide Add, Mul, Xtime, Half, Sq;
    SqUnits(8);
    if k > 0 {
      SqAdd(Term(p, b), MulSteps(Xtime(p), Half(b), k - 1), 8);
      SqSteps(Xtime(p), Half(b), k - 1);
      XtimeIsMul(p);
      SqMul(2, p, 8);
      SqX();
      XtimeIsMul(Sq(p, 8));
    }
  }

  /** a^256 == a for every byte. */
  lemma SqEight(a: Elem)
    ensures Sq(a, 8) == a
  {
    hide *;
    SqSteps(1, a, 8);
    SqUnits(8);
    MulDef(1, a);
    MulOneLeft(a);
  }

  // The inversion loop from the given accumulator, base and exponent.
  function PowFrom(result: Elem, a: Elem, exp: nat): Elem
    decreases exp
  {
    if exp == 0 then result
    else PowFrom(if exp % 2 == 1 then Mul(result, a) else result, Mul(a, a), exp / 2)
  }

  function Inv(a: Elem): Elem {
    if a == 0 then 0 else PowFrom(1, a, 254)
  }

  /** The inversion loop. */
  method InvLoop(a0: Elem) returns (result: Elem)
    ensures result == Inv(a0)
  {
    hide Mul;
    if a0 == 0 {
      return 0;
    }
    var a, exp := a0, 254;
    result := 1;
    while exp > 0
      invariant exp >= 0 && PowFrom(result, a, exp) == PowFrom(1, a0, 254)
    {
      if exp % 2 == 1 {
        result := MulLoop(result, a);
      }
      a := MulLoop(a, a);
      exp := exp / 2;
    }
  }

  lemma {:induction false} PowFromScale(r: Elem, a: Elem, exp: nat)
    ensures PowFrom(r, a, exp) == Mul(r, PowFrom(1, a, exp))
    decreases exp
  {
    hide Mul;
    MulUnits(r);
    MulUnits(a);
    if exp > 0 {
      var s := Mul(a, a);
      PowFromScale(Mul(r, a), s, exp / 2);
      PowFromScale(r, s, exp / 2);
      PowFromScale(a, s, exp / 2);
      MulAssoc(r, a, PowFrom(1, s, exp / 2));
    }
  }

  // 2^k - 1
  function AllOnes(k: nat): nat { if k == 0 then 0 else 2 * AllOnes(k - 1) + 1 }

  lemma {:induction false} SqSquare(a: Elem, k: nat)
    ensures Sq(Mul(a, a), k) == Sq(a, k + 1)
    decreases k
  {
    hide Mul;
    if k > 0 {
      SqSquare(a, k - 1);
    }
  }

  // a * a^(2^k - 1) == a^(2^k), for the exponentiation the loop performs.
  lemma {:induction false} PowAllOnes(a: Elem, k: nat)
    ensures Mul(a, PowFrom(1, a, AllOnes(k))) == Sq(a, k)
    decreases k
  {
    hide Mul;
    MulUnits(a);
    if k > 0 {
      var s, e := Mul(a, a), AllOnes(k - 1);
      assert AllOnes(k) % 2 == 1 && AllOnes(k) / 2 == e;
      PowFromScale(a, s, e);
      MulAssoc(a, a, PowFrom(1, s, e));
      PowAllOnes(s, k - 1);
      SqSquare(a, k - 1);
    }
  }

  lemma OnlyTrivialIdempotents(e: Elem)
    requires Mul(e, e) == e
    ensures e == 0 || e == 1
  {
    hide Mul;
    MulUnrolled(e, e);
  }

  /** Every nonzero byte times its computed inverse is one. */
  lemma InvLaw(a: Elem)
    requires a != 0
    ensures Mul(a, Inv(a)) == 1 && Inv(a) != 0
  {
    hide Mul, Sq, Add;
    var s, i := Mul(a, a), Inv(a);
    assert AllOnes(7) == 127 by {
      assert AllOnes(4) == 15;
    }
    assert i == PowFrom(1, s, 127);
    PowAllOnes(s, 7);
    SqSquare(a, 7);
    SqEight(a);
    var e := Mul(a, i);
    assert Mul(a, e) == a by { MulAssoc(a, a, i); }
    assert Mul(e, e) == e by {
      MulAssoc(e, a, i);
      MulComm(e, a);
    }
    OnlyTrivialIdempotents(e);
    MulUnits(a);
  }

  /** There are no zero divisors. */
  lemma MulNonzero(a: Elem, b: Elem)
    requires a != 0 && b != 0
    ensures Mul(a, b) != 0
  {
    hide *;
    InvLaw(a);
    MulComm(a, Inv(a));
    MulAssoc(Inv(a), a, b);
    MulUnits(b);
    MulUnits(Inv(a));
  }

  /** Inverses are unique, so inversion distributes over products. */
  lemma InvUnique(a: Elem, b: Elem)
    requires Mul(a, b) == 1
    ensures b == Inv(a) && a != 0
  {
    hide *;
    MulUnits(b);
    InvLaw(a);
    MulUnits(Inv(a));
    MulComm(a, b);
    MulAssoc(b, a, Inv(a));
  }

  lemma InvMul(a: Elem, b: Elem)
    requires a != 0 && b != 0
    ensures Inv(Mul(a, b)) == Mul(Inv(a), Inv(b))
  {
    hide *;
    InvLaw(a);
    InvLaw(b);
    MulSwap(a, b, Inv(a), Inv(b));
    MulUnits(1);
    InvUnique(Mul(a, b), Mul(Inv(a), Inv(b)));
  }

  /** Inverting twice gives every byte back, zero included. */
  lemma InvInvolution(a: Elem)
    ensures Inv(Inv(a)) == a
  {
    if a != 0 {
      hide *;
      InvLaw(a);
      MulComm(a, Inv(a));
      InvUnique(Inv(a), a);
    }
  }

  // ----- which field -----

  /** Multiplying by x doubles, and replaces x^8 by x^4 + x^3 + x + 1. */
  lemma TimesX(a: Elem)
    ensures Mul(2, a) == if a & 0x80 == 0 then a << 1 else (a << 1) ^ 0x1b
  {
    hide Mul;
    XtimeIsMul(a);
  }

  // A commutative, associative, additive product with unit one.
  ghost predicate RingProduct(f: (Elem, Elem) -> Elem) {
    && (forall a, b :: f(a, b) == f(b, a)) && (forall a, b, c :: f(f(a, b), c) == f(a, f(b, c)))
    && (forall a, b, c :: f(Add(a, b), c) == Add(f(a, c), f(b, c))) && (forall a :: f(1, a) == a)
  }

  lemma SplitLowBit(b: Elem)
    ensures b == Add(if b & 1 != 0 then 1 else 0, Xtime(Half(b)))
  {}

  lemma ZeroTimes(f: (Elem, Elem) -> Elem, a: Elem)
    requires RingProduct(f)
    ensures f(0, a) == 0
  {
    hide Add, RingProduct;
    AddCancel(0, 0);
    RingLaws(f, 0, 0, a);
    AddCancel(f(0, a), f(0, a));
  }

  // The first k bits of b.
  ghost predicate Below(b: Elem, k: nat) { if k == 0 then b == 0 else Below(Half(b), k - 1) }

  lemma HalvedEightTimes(b: Elem)
    ensures Half(Half(Half(Half(Half(Half(Half(Half(b)))))))) == 0
  {}

  lemma AllBelow(b: Elem)
    ensures Below(b, 8)
  {
    hide Half;
    HalvedEightTimes(b);
    assert Below(Half(Half(Half(Half(Half(Half(Half(Half(b)))))))), 0);
    assert Below(Half(Half(Half(Half(Half(Half(b)))))), 2);
    assert Below(Half(Half(Half(Half(b)))), 4);
    assert Below(Half(Half(b)), 6);
  }

  lemma RingLaws(f: (Elem, Elem) -> Elem, a: Elem, b: Elem, c: Elem)
    requires RingProduct(f)
    ensures f(a, b) == f(b, a) && f(f(a, b), c) == f(a, f(b, c))
    ensures f(Add(a, b), c) == Add(f(a, c), f(b, c)) && f(1, a) == a
  {}

  // What one round contributes.
  lemma LowBitTimes(f: (Elem, Elem) -> Elem, a: Elem, b: Elem)
    requires RingProduct(f)
    ensures f(if b & 1 != 0 then 1 else 0, a) == Term(a, b)
  {
    hide RingProduct;
    ZeroTimes(f, a);
    RingLaws(f, a, a, a);
  }

  lemma {:induction false} ProductSteps(f: (Elem, Elem) -> Elem, a: Elem, b: Elem, k: nat)
    requires RingProduct(f) && (forall c :: f(2, c) == Xtime(c)) && Below(b, k)
    ensures f(b, a) == MulSteps(a, b, k)
    decreases k
  {
    hide Add, Xtime, Half, RingProduct, Term;
    if k == 0 {
      ZeroTimes(f, a);
    } else {
      var h, low := Half(b), if b & 1 != 0 then 1 else 0;
      ProductSteps(f, Xtime(a), h, k - 1);
      SplitLowBit(b);
      LowBitTimes(f, a, b);
      RingLaws(f, low, Xtime(h), a);
      assert f(Xtime(h), a) == f(h, Xtime(a)) by {
        RingLaws(f, 2, h, a);
        RingLaws(f, h, 2, a);
      }
    }
  }

  /** The product is the only one of the kind in which x times x^7 is x^4 + x^3 + x + 1. */
  lemma OnlyProduct(f: (Elem, Elem) -> Elem, a: Elem, b: Elem)
    requires RingProduct(f) && forall c :: f(2, c) == if c & 0x80 == 0 then c << 1 else (c << 1) ^ 0x1b
    ensures f(a, b) == Mul(a, b)
  {
    hide Add, MulSteps, RingProduct;
    forall c ensures f(2, c) == Xtime(c) {}
    AllBelow(a);
    ProductSteps(f, b, a, 8);
    MulComm(a, b);
  }
}
