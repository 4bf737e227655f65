/**
 Polynomials over GF(256): Horner evaluation, division by a linear factor, and
 Lagrange interpolation at zero, for every number of points.
 */
module Interpolation {
  import opened Gf256
  import opened Sequences

  // The polynomial with the given coefficients, constant first, at x.
  function Eval(coeffs: seq<Elem>, x: Elem): Elem {
    if coeffs == [] then 0 else Add(Mul(Eval(coeffs[1..], x), x), coeffs[0])
  }

  /** Horner's rule, from the highest coefficient down. */
  method PolyEval(coeffs: seq<Elem>, x: Elem) returns (result: Elem)
    ensures result == Eval(coeffs, x)
  {
    hide Mul;
    result := 0;
    var i := |coeffs|;
    while i > 0
      invariant 0 <= i <= |coeffs| && result == Eval(coeffs[i..], x)
    {
      i := i - 1;
      var p := MulLoop(result, x);
      result := p ^ coeffs[i];
      assert coeffs[i..][1..] == coeffs[i + 1..];
    }
    assert coeffs[0..] == coeffs;
  }

  // Products over the indices below k other than i.
  function Num(xs: seq<Elem>, i: nat, k: nat): Elem
    requires k <= |xs|
  {
    if k == 0 then 1
    else if k - 1 == i then Num(xs, i, k - 1)
    else Mul(Num(xs, i, k - 1), xs[k - 1])
  }

  function Den(xs: seq<Elem>, i: nat, k: nat): Elem
    requires i < |xs| && k <= |xs|
  {
    if k == 0 then 1
    else if k - 1 == i then Den(xs, i, k - 1)
    else Mul(Den(xs, i, k - 1), Add(xs[i], xs[k - 1]))
  }

  function Basis(xs: seq<Elem>, i: nat): Elem
    requires i < |xs|
  {
    Mul(Num(xs, i, |xs|), Inv(Den(xs, i, |xs|)))
  }

  // The sum of the first k weighted values.
  function Weighted(xs: seq<Elem>, ys: seq<Elem>, k: nat): Elem
    requires k <= |xs| == |ys|
  {
    if k == 0 then 0 else Add(Weighted(xs, ys, k - 1), Mul(ys[k - 1], Basis(xs, k - 1)))
  }

  function Lagrange(xs: seq<Elem>, ys: seq<Elem>): Elem
    requires |xs| == |ys|
  {
    Weighted(xs, ys, |xs|)
  }

  /** The nested interpolation loops. */
  method LagrangeLoop(xs: seq<Elem>, ys: seq<Elem>) returns (result: Elem)
    requires |xs| == |ys|
    ensures result == Lagrange(xs, ys)
  {
    hide Mul, Inv;
    result := 0;
    for i := 0 to |xs|
      invariant result == Weighted(xs, ys, i)
    {
      var num, den := 1, 1;
      for j := 0 to |xs|
        invariant num == Num(xs, i, j) && den == Den(xs, i, j)
      {
        if i != j {
          num := MulLoop(num, xs[j]);
          den := MulLoop(den, xs[i] ^ xs[j]);
        }
      }
      var inv := InvLoop(den);
      var basis := MulLoop(num, inv);
      var term := MulLoop(ys[i], basis);
      result := result ^ term;
    }
  }

  /** A point that occurs twice has no weight: its value does not matter. */
  lemma {:induction false} RepeatedPointHasNoWeight(xs: seq<Elem>, i: nat, j: nat, k: nat)
    requires i < |xs| && j < k <= |xs| && i != j && xs[i] == xs[j]
    ensures Den(xs, i, k) == 0 && Basis(xs, i) == 0
    decreases k
  {
    hide Add, Mul;
    if k - 1 == j {
      AddCancel(xs[i], xs[j]);
      MulUnits(Den(xs, i, j));
    } else {
      RepeatedPointHasNoWeight(xs, i, j, k - 1);
      if k - 1 != i {
        MulUnits(Add(xs[i], xs[k - 1]));
      }
    }
    if k < |xs| {
      DenStaysZero(xs, i, k, |xs|);
    }
    MulUnits(Num(xs, i, |xs|));
  }

  lemma {:induction false} DenStaysZero(xs: seq<Elem>, i: nat, k: nat, l: nat)
    requires i < |xs| && k <= l <= |xs| && Den(xs, i, k) == 0
    ensures Den(xs, i, l) == 0
    decreases l
  {
    hide Add, Mul;
    if k < l {
      DenStaysZero(xs, i, k, l - 1);
      if l - 1 != i {
        MulUnits(Add(xs[i], xs[l - 1]));
      }
    }
  }

  // ----- weights as products of ratios -----

  function Ratio(x: Elem, u: Elem): Elem { Mul(u, Inv(Add(x, u))) }

  // The product of the ratios of x to each of the others.
  function Ratios(x: Elem, others: seq<Elem>): Elem {
    if others == [] then 1
    else Mul(Ratios(x, others[..|others| - 1]), Ratio(x, others[|others| - 1]))
  }

  lemma {:induction false} DenNonzero(xs: seq<Elem>, i: nat, k: nat)
    requires NoDuplicates(xs) && i < |xs| && k <= |xs|
    ensures Den(xs, i, k) != 0
    decreases k
  {
    hide Add, Mul;
    if k > 0 {
      DenNonzero(xs, i, k - 1);
      if k - 1 != i {
        AddCancel(xs[i], xs[k - 1]);
        MulNonzero(Den(xs, i, k - 1), Add(xs[i], xs[k - 1]));
      }
    }
  }

  // One more point multiplies a weight by one more ratio.
  lemma WeightStep(n: Elem, d: Elem, x: Elem, u: Elem)
    requires x != u && d != 0
    ensures Mul(Mul(n, u), Inv(Mul(d, Add(x, u)))) == Mul(Mul(n, Inv(d)), Ratio(x, u))
  {
    hide Add, Mul, Inv;
    AddCancel(x, u);
    InvMul(d, Add(x, u));
    MulSwap(n, u, Inv(d), Inv(Add(x, u)));
  }

  // The points below k other than the i-th.
  function Others(xs: seq<Elem>, i: nat, k: nat): seq<Elem>
    requires k <= |xs|
  {
    if k <= i then xs[..k] else xs[..i] + xs[i + 1..k]
  }

  lemma OthersStep(xs: seq<Elem>, i: nat, k: nat)
    requires 0 < k <= |xs|
    ensures Others(xs, i, k) == if k - 1 == i then Others(xs, i, k - 1) else Others(xs, i, k - 1) + [xs[k - 1]]
  {}

  lemma {:induction false} WeightsAreRatios(xs: seq<Elem>, i: nat, k: nat)
    requires NoDuplicates(xs) && i < |xs| && k <= |xs|
    ensures Mul(Num(xs, i, k), Inv(Den(xs, i, k))) == Ratios(xs[i], Others(xs, i, k))
    decreases k
  {
    hide Add, Mul, Inv, Ratio, Ratios, Others;
    if k == 0 {
      MulUnits(1);
      InvUnique(1, 1);
      OthersNone(xs, i);
      RatiosNone(xs[i], Others(xs, i, 0));
    } else {
      WeightsAreRatios(xs, i, k - 1);
      DenNonzero(xs, i, k - 1);
      OthersStep(xs, i, k);
      if k - 1 != i {
        RatiosSnoc(xs[i], Others(xs, i, k - 1), xs[k - 1]);
        WeightStep(Num(xs, i, k - 1), Den(xs, i, k - 1), xs[i], xs[k - 1]);
      }
    }
  }

  lemma OthersNone(xs: seq<Elem>, i: nat)
    ensures Others(xs, i, 0) == []
  {}

  lemma RatiosNone(x: Elem, others: seq<Elem>)
    requires others == []
    ensures Ratios(x, others) == 1
  {}

  lemma BasisIsRatios(xs: seq<Elem>, i: nat)
    requires NoDuplicates(xs) && i < |xs|
    ensures Basis(xs, i) == Ratios(xs[i], xs[..i] + xs[i + 1..])
  {
    hide Add, Mul, Inv, Ratio, Ratios;
    WeightsAreRatios(xs, i, |xs|);
    assert Others(xs, i, |xs|) == xs[..i] + xs[i + 1..];
  }

  lemma RatiosSnoc(x: Elem, others: seq<Elem>, u: Elem)
    ensures Ratios(x, others + [u]) == Mul(Ratios(x, others), Ratio(x, u))
  {
    hide Mul, Ratio;
    assert (others + [u])[..|others|] == others;
  }

  // Adding a point u multiplies the weight of every other point by its ratio to u.
  lemma BasisSnoc(p: seq<Elem>, u: Elem, i: nat)
    requires NoDuplicates(p + [u]) && i < |p|
    ensures Basis(p + [u], i) == Mul(Basis(p, i), Ratio(p[i], u)) && NoDuplicates(p)
  {
    hide Mul, Ratio, Ratios, Basis;
    var xs := p + [u];
    assert forall a, b :: 0 <= a < b < |p| ==> p[a] == xs[a] && p[b] == xs[b];
    BasisIsRatios(xs, i);
    BasisIsRatios(p, i);
    assert xs[..i] + xs[i + 1..] == (p[..i] + p[i + 1..]) + [u];
    RatiosSnoc(p[i], p[..i] + p[i + 1..], u);
  }

  lemma BasisLast(p: seq<Elem>, u: Elem)
    requires NoDuplicates(p + [u])
    ensures Basis(p + [u], |p|) == Ratios(u, p)
  {
    hide Mul, Ratio, Ratios, Basis;
    BasisIsRatios(p + [u], |p|);
    assert (p + [u])[..|p|] + (p + [u])[|p| + 1..] == p;
  }

  lemma RatioClear(x: Elem, u: Elem)
    requires x != u
    ensures Mul(Add(x, u), Ratio(x, u)) == u
  {
    hide Add, Mul, Inv;
    AddCancel(x, u);
    var s := Add(x, u);
    InvLaw(s);
    MulComm(u, Inv(s));
    MulAssoc(s, Inv(s), u);
    MulUnits(u);
  }

  lemma PartialFraction(x: Elem, u: Elem, v: Elem)
    requires x != u && x != v
    ensures Mul(Add(u, v), Mul(Ratio(x, u), Ratio(x, v))) == Add(Mul(v, Ratio(x, u)), Mul(u, Ratio(x, v)))
  {
    hide Add, Mul, Inv, Ratio;
    var s, t, a, b := Add(x, u), Add(x, v), Ratio(x, u), Ratio(x, v);
    assert Add(u, v) == Add(s, t) by {
      AddSwap(x, u, x, v);
      AddCancel(x, x);
      AddCancel(Add(u, v), 0);
    }
    MulAdd(s, t, Mul(a, b));
    RatioClear(x, u);
    MulAssoc(s, a, b);
    RatioClear(x, v);
    MulComm(a, b);
    MulAssoc(t, b, a);
    AddComm(Mul(u, b), Mul(v, a));
  }

  // ----- the weights sum to one -----

  function WeightSum(xs: seq<Elem>, k: nat): Elem
    requires k <= |xs|
  {
    if k == 0 then 0 else Add(WeightSum(xs, k - 1), Basis(xs, k - 1))
  }

  // One summand of Neville's recurrence: B is the weight over p, a and b its ratios to u and v.
  lemma NevilleTerm(w: Elem, a: Elem, b: Elem, u: Elem, v: Elem)
    requires Mul(Add(u, v), Mul(a, b)) == Add(Mul(v, a), Mul(u, b))
    ensures Mul(Add(u, v), Mul(Mul(w, a), b)) == Add(Mul(v, Mul(w, a)), Mul(u, Mul(w, b)))
  {
    hide *;
    var s := Add(u, v);
    MulAssoc(w, a, b);
    MulComm(w, Mul(a, b));
    MulAssoc(s, Mul(a, b), w);
    MulAdd(Mul(v, a), Mul(u, b), w);
    MulAssoc(v, a, w);
    MulAssoc(u, b, w);
    MulComm(a, w);
    MulComm(b, w);
  }

  lemma DropLast(p: seq<Elem>, u: Elem, v: Elem)
    requires NoDuplicates(p + [u, v])
    ensures NoDuplicates(p + [u]) && NoDuplicates(p + [v]) && NoDuplicates(p + [u] + [v]) && u != v
    ensures p + [u, v] == p + [u] + [v]
  {
    var xs := p + [u, v];
    assert xs == p + [u] + [v];
    assert u == xs[|p|] && v == xs[|p| + 1];
    forall i, j | 0 <= i < j < |p| + 1
      ensures (p + [u])[i] != (p + [u])[j] && (p + [v])[i] != (p + [v])[j]
    {
      assert xs[i] == p[i];
      assert xs[j] == (p + [u])[j];
      if j == |p| {
        assert xs[i] != xs[j + 1];
      } else {
        assert xs[i] != xs[j];
      }
    }
  }

  // Neville's recurrence for the weight sums over p + [u, v].
  lemma {:induction false} Neville(p: seq<Elem>, u: Elem, v: Elem, k: nat)
    requires NoDuplicates(p + [u, v]) && k <= |p|
    ensures Mul(Add(u, v), WeightSum(p + [u, v], k))
         == Add(Mul(v, WeightSum(p + [u], k)), Mul(u, WeightSum(p + [v], k)))
    decreases k
  {
    hide Add, Mul, Ratio, Basis;
    var s, xs := Add(u, v), p + [u, v];
    if k == 0 {
      MulUnits(s);
      MulUnits(v);
      MulUnits(u);
      AddCancel(0, 0);
    } else {
      Neville(p, u, v, k - 1);
      DropLast(p, u, v);
      var x := p[k - 1];
      assert x == xs[k - 1] && u == xs[|p|] && v == xs[|p| + 1];
      BasisSnoc(p + [u], v, k - 1);
      BasisSnoc(p, u, k - 1);
      BasisSnoc(p, v, k - 1);
      PartialFraction(x, u, v);
      NevilleTerm(Basis(p, k - 1), Ratio(x, u), Ratio(x, v), u, v);
      var a0, a1 := WeightSum(p + [u], k - 1), Basis(p + [u], k - 1);
      var b0, b1 := WeightSum(p + [v], k - 1), Basis(p + [v], k - 1);
      MulAdd(WeightSum(xs, k - 1), Basis(xs, k - 1), s);
      AddSwap(Mul(v, a0), Mul(u, b0), Mul(v, a1), Mul(u, b1));
      MulAdd(a0, a1, v);
      MulAdd(b0, b1, u);
    }
  }

  // The weight of one of the two last points, cleared of its denominator.
  lemma NevilleEnd(a: Elem, u: Elem, v: Elem)
    requires u != v
    ensures Mul(Add(u, v), Mul(a, Ratio(u, v))) == Mul(v, a)
  {
    hide Add, Mul, Inv, Ratio;
    var s, r := Add(u, v), Ratio(u, v);
    RatioClear(u, v);
    MulComm(a, r);
    MulAssoc(s, r, a);
  }

  /** The interpolation weights at zero of any distinct points sum to one. */
  lemma {:induction false} WeightsSumToOne(xs: seq<Elem>)
    requires NoDuplicates(xs) && xs != []
    ensures WeightSum(xs, |xs|) == 1
    decreases |xs|
  {
    hide Add, Mul, Ratio, Ratios, Basis;
    if |xs| == 1 {
      BasisIsRatios(xs, 0);
      RatiosNone(xs[0], xs[..0] + xs[1..]);
      AddCancel(1, 0);
      assert WeightSum(xs, 1) == Add(WeightSum(xs, 0), Basis(xs, 0));
    } else {
      var p, u, v := xs[..|xs| - 2], xs[|xs| - 2], xs[|xs| - 1];
      assert xs == p + [u, v];
      DropLast(p, u, v);
      var s, a, b := Add(u, v), Ratios(u, p), Ratios(v, p);
      WeightsSumToOne(p + [u]);
      WeightsSumToOne(p + [v]);
      BasisLast(p, u);
      BasisLast(p, v);
      Neville(p, u, v, |p|);
      BasisSnoc(p + [u], v, |p|);
      BasisLast(p + [u], v);
      RatiosSnoc(v, p, u);
      var w, wu, wv := WeightSum(xs, |p|), WeightSum(p + [u], |p|), WeightSum(p + [v], |p|);
      var bu, bv := Mul(a, Ratio(u, v)), Mul(b, Ratio(v, u));
      assert WeightSum(xs, |xs|) == Add(Add(w, bu), bv);
      NevilleEnd(a, u, v);
      NevilleEnd(b, v, u);
      AddComm(v, u);
      SumOfEnds(s, w, bu, bv, u, v, wu, wv, a, b);
    }
  }

  lemma SumOfEnds(s: Elem, w: Elem, bu: Elem, bv: Elem, u: Elem, v: Elem, wu: Elem, wv: Elem, a: Elem, b: Elem)
    requires s == Add(u, v) && u != v
    requires Mul(s, w) == Add(Mul(v, wu), Mul(u, wv))
    requires Mul(s, bu) == Mul(v, a) && Mul(s, bv) == Mul(u, b)
    requires Add(wu, a) == 1 && Add(wv, b) == 1
    ensures Add(Add(w, bu), bv) == 1
  {
    hide *;
    var sum := Add(Add(w, bu), bv);
    MulAdd(Add(w, bu), bv, s);
    MulAdd(w, bu, s);
    AddAssoc(Mul(s, w), Mul(s, bu), Mul(s, bv));
    AddSwap(Mul(v, wu), Mul(u, wv), Mul(v, a), Mul(u, b));
    MulAdd(wu, a, v);
    MulAdd(wv, b, u);
    MulUnits(u);
    MulUnits(v);
    AddComm(u, v);
    assert Mul(s, sum) == s;
    AddCancel(u, v);
    MulUnits(s);
    MulCancel(s, sum, 1);
  }

  // ----- division by a linear factor -----

  // The quotient of the polynomial by (x - u).
  function Quotient(coeffs: seq<Elem>, u: Elem): seq<Elem> {
    if |coeffs| <= 1 then [] else [Eval(coeffs[1..], u)] + Quotient(coeffs[1..], u)
  }

  /** f(x) == f(u) + (x - u) * q(x), where q has one coefficient fewer. */
  lemma {:induction false} Division(c: seq<Elem>, u: Elem, x: Elem)
    ensures |Quotient(c, u)| == if c == [] then 0 else |c| - 1
    ensures Eval(c, x) == Add(Eval(c, u), Mul(Add(x, u), Eval(Quotient(c, u), x)))
    decreases |c|
  {
    hide Add, Mul;
    if |c| <= 1 {
      MulUnits(Add(x, u));
      MulUnits(x);
      MulUnits(u);
      AddCancel(Eval(c, u), 0);
    } else {
      var g := c[1..];
      Division(g, u, x);
      var q, d, gu := Quotient(g, u), Add(x, u), Eval(g, u);
      assert Quotient(c, u)[1..] == q;
      var qx := Eval(q, x);
      assert Eval(Quotient(c, u), x) == Add(Mul(qx, x), gu);
      DivisionStep(gu, d, qx, x, u, c[0]);
    }
  }

  // (gu + d*q)*x + c == (gu*u + c) + d*(q*x + gu), for d == x + u
  lemma DivisionStep(gu: Elem, d: Elem, q: Elem, x: Elem, u: Elem, c: Elem)
    requires d == Add(x, u)
    ensures Add(Mul(Add(gu, Mul(d, q)), x), c) == Add(Add(Mul(gu, u), c), Mul(d, Add(Mul(q, x), gu)))
  {
    hide *;
    MulAdd(gu, Mul(d, q), x);
    MulAssoc(d, q, x);
    var t := Mul(d, Mul(q, x));
    MulAdd(Mul(q, x), gu, d);
    MulAdd(x, u, gu);
    MulComm(x, gu);
    MulComm(u, gu);
    var gx, gu' := Mul(gu, x), Mul(gu, u);
    // left: (gx + t) + c;  right: (gu' + c) + (t + (gx + gu'))
    AddComm(t, Add(gx, gu'));
    AddAssoc(Add(gu', c), Add(gx, gu'), t);
    AddComm(gx, gu');
    AddSwap(gu', c, gu', gx);
    AddCancel(gu', gu');
    AddCancel(Add(c, gx), 0);
    AddComm(c, gx);
    AddAssoc(gx, c, t);
    AddComm(c, t);
    AddAssoc(gx, t, c);
  }

  // ----- interpolation -----

  // One summand: y*(B*r) with y == fu + (x+u)*h and (x+u)*r == u.
  lemma SplitTerm(fu: Elem, d: Elem, h: Elem, b: Elem, r: Elem, u: Elem)
    requires Mul(d, r) == u
    ensures Mul(Add(fu, Mul(d, h)), Mul(b, r)) == Add(Mul(fu, Mul(b, r)), Mul(u, Mul(h, b)))
  {
    hide *;
    MulAdd(fu, Mul(d, h), Mul(b, r));
    MulComm(b, r);
    MulSwap(d, h, r, b);
  }

  lemma {:induction false} WeightedSplit(p: seq<Elem>, u: Elem, c: seq<Elem>, ys: seq<Elem>, hs: seq<Elem>, k: nat)
    requires NoDuplicates(p + [u]) && k <= |p| == |hs| && |ys| == |p| + 1
    requires forall i :: 0 <= i < |p| ==> ys[i] == Eval(c, p[i]) && hs[i] == Eval(Quotient(c, u), p[i])
    ensures Weighted(p + [u], ys, k) == Add(Mul(Eval(c, u), WeightSum(p + [u], k)), Mul(u, Weighted(p, hs, k)))
    decreases k
  {
    hide Add, Mul, Ratio, Basis, Eval, Quotient;
    var fu, xs := Eval(c, u), p + [u];
    if k == 0 {
      MulUnits(fu);
      MulUnits(u);
      AddCancel(0, 0);
    } else {
      WeightedSplit(p, u, c, ys, hs, k - 1);
      var x := p[k - 1];
      assert xs[k - 1] == x && xs[|p|] == u;
      Division(c, u, x);
      BasisSnoc(p, u, k - 1);
      RatioClear(x, u);
      var b := Basis(p, k - 1);
      SplitTerm(fu, Add(x, u), hs[k - 1], b, Ratio(x, u), u);
      var ws, wp := WeightSum(xs, k - 1), Weighted(p, hs, k - 1);
      var bs, hb := Basis(xs, k - 1), Mul(hs[k - 1], b);
      AddSwap(Mul(fu, ws), Mul(u, wp), Mul(fu, bs), Mul(u, hb));
      MulAdd(ws, bs, fu);
      MulAdd(wp, hb, u);
    }
  }

  lemma EvalAtZero(c: seq<Elem>)
    ensures Eval(c, 0) == if c == [] then 0 else c[0]
  {
    hide Add, Mul;
    if c != [] {
      MulUnits(Eval(c[1..], 0));
      AddCancel(c[0], 0);
    }
  }

  /**
   Lagrange interpolation at zero recovers the constant coefficient of any
   polynomial from its values at any distinct points, at least as many as it
   has coefficients.
   */
  lemma {:induction false} LagrangeRecovers(xs: seq<Elem>, ys: seq<Elem>, c: seq<Elem>)
    requires NoDuplicates(xs) && |c| <= |xs| == |ys|
    requires forall i :: 0 <= i < |xs| ==> ys[i] == Eval(c, xs[i])
    ensures Lagrange(xs, ys) == Eval(c, 0)
    decreases |xs|
  {
    hide Add, Mul, Ratio, Basis, Eval, Quotient;
    if xs == [] {
      EvalAtZero(c);
    } else {
      var n := |xs| - 1;
      var p, u := xs[..n], xs[n];
      assert xs == p + [u];
      var q := Quotient(c, u);
      var hs := seq(n, i requires 0 <= i < n => Eval(q, p[i]));
      Division(c, u, 0);
      LagrangeRecovers(p, hs, q);
      WeightedSplit(p, u, c, ys, hs, n);
      WeightsSumToOne(xs);
      var fu, ws, bl, w := Eval(c, u), WeightSum(xs, n), Basis(xs, n), Mul(u, Eval(q, 0));
      assert Lagrange(xs, ys) == Add(Add(Mul(fu, ws), w), Mul(fu, bl));
      AddAssoc(Mul(fu, ws), w, Mul(fu, bl));
      AddComm(w, Mul(fu, bl));
      AddAssoc(Mul(fu, ws), Mul(fu, bl), w);
      MulAdd(ws, bl, fu);
      MulUnits(fu);
      AddCancel(u, 0);
    }
  }

  // ----- polynomials through given points -----

  // The coefficients of y + (x - u) * h(x).
  function Lift(h: seq<Elem>, u: Elem, y: Elem): seq<Elem> {
    if h == [] then [y] else [Add(y, Mul(u, h[0]))] + Lift(h[1..], u, h[0])
  }

  lemma {:induction false} LiftEval(h: seq<Elem>, u: Elem, y: Elem, x: Elem)
    ensures |Lift(h, u, y)| == |h| + 1
    ensures Eval(Lift(h, u, y), x) == Add(y, Mul(Add(x, u), Eval(h, x)))
    decreases |h|
  {
    hide Add, Mul;
    if h == [] {
      MulUnits(x);
      MulUnits(Add(x, u));
      AddCancel(y, 0);
      assert Lift(h, u, y)[1..] == [];
    } else {
      var t, h0, d := h[1..], h[0], Add(x, u);
      LiftEval(t, u, h0, x);
      assert Lift(h, u, y)[1..] == Lift(t, u, h0);
      LiftStep(h0, d, Eval(t, x), x, u, y);
    }
  }

  // (h + d*e)*x + (y + u*h) == y + d*(e*x + h), for d == x + u
  lemma LiftStep(h: Elem, d: Elem, e: Elem, x: Elem, u: Elem, y: Elem)
    requires d == Add(x, u)
    ensures Add(Mul(Add(h, Mul(d, e)), x), Add(y, Mul(u, h))) == Add(y, Mul(d, Add(Mul(e, x), h)))
  {
    hide *;
    MulAdd(h, Mul(d, e), x);
    MulAssoc(d, e, x);
    var t := Mul(d, Mul(e, x));
    MulAdd(Mul(e, x), h, d);
    MulAdd(x, u, h);
    MulComm(h, x);
    var xh, uh := Mul(x, h), Mul(u, h);
    // left: (xh + t) + (y + uh);  right: y + (t + (xh + uh))
    AddComm(xh, t);
    AddComm(y, uh);
    AddAssoc(t, xh, Add(uh, y));
    AddAssoc(xh, uh, y);
    AddAssoc(t, Add(xh, uh), y);
    AddComm(Add(t, Add(xh, uh)), y);
  }

  lemma MulCancel(s: Elem, x: Elem, y: Elem)
    requires s != 0 && Mul(s, x) == Mul(s, y)
    ensures x == y
  {
    hide *;
    InvLaw(s);
    MulComm(s, Inv(s));
    MulAssoc(Inv(s), s, x);
    MulAssoc(Inv(s), s, y);
    MulUnits(x);
    MulUnits(y);
  }

  /** A polynomial with as many coefficients as there are points, through all of them. */
  lemma {:induction false} Interpolant(xs: seq<Elem>, ys: seq<Elem>) returns (c: seq<Elem>)
    requires NoDuplicates(xs) && |xs| == |ys|
    ensures |c| == |xs|
    ensures forall i :: 0 <= i < |xs| ==> Eval(c, xs[i]) == ys[i]
    decreases |xs|
  {
    hide Add, Mul, Inv, Lift, Eval;
    if xs == [] {
      c := [];
    } else {
      var n := |xs| - 1;
      var u, y := xs[n], ys[n];
      var slopes := seq(n, i requires 0 <= i < n => Mul(Add(ys[i], y), Inv(Add(xs[i], u))));
      var h := Interpolant(xs[..n], slopes);
      c := Lift(h, u, y);
      LiftEval(h, u, y, u);
      forall i | 0 <= i < |xs| ensures Eval(c, xs[i]) == ys[i] {
        LiftEval(h, u, y, xs[i]);
        var d := Add(xs[i], u);
        AddCancel(xs[i], u);
        if i < n {
          assert xs[..n][i] == xs[i];
          InvLaw(d);
          MulComm(Add(ys[i], y), Inv(d));
          MulAssoc(d, Inv(d), Add(ys[i], y));
          MulUnits(Add(ys[i], y));
          AddComm(ys[i], y);
          AddCancel(y, ys[i]);
        } else {
          MulUnits(Eval(h, u));
          AddCancel(y, 0);
        }
      }
    }
  }

  // A polynomial with no more coefficients than distinct nonzero roots of its
  // difference to another is that other one.
  lemma {:induction false} SamePolynomial(xs: seq<Elem>, c: seq<Elem>, d: seq<Elem>)
    requires NoDuplicates(xs) && 0 !in xs && |c| == |d| <= |xs|
    requires forall i :: 0 <= i < |xs| ==> Eval(c, xs[i]) == Eval(d, xs[i])
    ensures c == d
    decreases |c|
  {
    hide Add, Mul, Lagrange;
    if c != [] {
      var ys := seq(|xs|, i requires 0 <= i < |xs| => Eval(c, xs[i]));
      LagrangeRecovers(xs, ys, c);
      LagrangeRecovers(xs, ys, d);
      EvalAtZero(c);
      EvalAtZero(d);
      forall i | 0 <= i < |xs| ensures Eval(c[1..], xs[i]) == Eval(d[1..], xs[i]) {
        var x, e, f, k := xs[i], Eval(c[1..], xs[i]), Eval(d[1..], xs[i]), c[0];
        AddComm(Mul(e, x), k);
        AddComm(Mul(f, x), k);
        AddCancel(k, Mul(e, x));
        AddCancel(k, Mul(f, x));
        MulComm(e, x);
        MulComm(f, x);
        MulCancel(x, e, f);
      }
      SamePolynomial(xs, c[1..], d[1..]);
      assert c == [c[0]] + c[1..] && d == [d[0]] + d[1..];
    }
  }

  lemma {:induction false} EvalPadded(c: seq<Elem>, x: Elem, k: nat)
    ensures Eval(c + seq(k, _ => 0), x) == Eval(c, x)
    decreases |c|, k
  {
    hide Add, Mul;
    var padded := c + seq(k, _ => 0);
    if c != [] {
      EvalPadded(c[1..], x, k);
      assert padded[1..] == c[1..] + seq(k, _ => 0);
    } else if k > 0 {
      EvalPadded([], x, k - 1);
      assert padded[1..] == [] + seq(k - 1, _ => 0);
      MulUnits(x);
      AddCancel(0, 0);
    } else {
      assert padded == [];
    }
  }
}
