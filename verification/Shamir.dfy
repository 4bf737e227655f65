/**
 Guardian recovery: splitting a secret into n shares, any threshold of which
 give it back, and combining shares again.
 */
module Shamir {
  import opened Gf256
  import opened Sequences
  import opened Interpolation
  import opened Results
  import opened ByteCodes

  datatype Share = Share(index: Elem, value: seq<Elem>)

  // One read from the random source: the bytes it filled in, or its failure.
  datatype Read = Filled(bytes: seq<Elem>) | Failed

  function Index(i: nat): Elem
    requires i < 255
  {
    ToByte(i + 1)
  }

  /** Shares are numbered from one. */
  lemma IndexNumber(i: nat)
    requires i < 255
    ensures Value(Index(i)) == i + 1 && Index(i) != 0
  {
    hide ToByte;
    ToByteValue(i + 1);
    ZeroValue(Index(i));
  }

  lemma ZeroValue(b: bv8)
    ensures Value(b) == 0 <==> b == 0
  {}

  lemma IndexInjective(i: nat, j: nat)
    requires i < 255 && j < 255
    ensures Index(i) == Index(j) ==> i == j
    ensures Index(i) != 0
  {
    hide Index, Value;
    IndexNumber(i);
    IndexNumber(j);
  }

  // The polynomial that hides byte b of the secret.
  function Polynomial(secret: seq<Elem>, random: seq<seq<Elem>>, b: nat): seq<Elem>
    requires b < |secret| == |random|
  {
    [secret[b]] + random[b]
  }

  function ShareOf(secret: seq<Elem>, random: seq<seq<Elem>>, i: nat): Share
    requires |secret| == |random| && i < 255
  {
    Share(Index(i), seq(|secret|, b requires 0 <= b < |secret| => Eval(Polynomial(secret, random, b), Index(i))))
  }

  function Shares(secret: seq<Elem>, random: seq<seq<Elem>>, n: nat): seq<Share>
    requires |secret| == |random| && n <= 255
  {
    seq(n, i requires 0 <= i < n => ShareOf(secret, random, i))
  }

  predicate ParametersOk(secret: seq<Elem>, threshold: int, n: int) {
    secret != [] && 2 <= threshold <= n <= 255
  }

  // The random coefficients a run of Split draws: threshold - 1 for each byte.
  ghost predicate Draws(secret: seq<Elem>, threshold: int, random: seq<seq<Elem>>) {
    |random| == |secret| && forall b :: 0 <= b < |random| ==> |random[b]| == threshold - 1
  }

  function Bytes(drawn: seq<Read>): seq<seq<Elem>> {
    seq(|drawn|, b requires 0 <= b < |drawn| => if drawn[b].Filled? then drawn[b].bytes else [])
  }

  /**
   Splitting.  The random source is a parameter: `drawn[b]` is what it delivers
   for byte b.  Fails on the parameters the source refuses and on a failed read;
   otherwise the shares are the values of the byte polynomials at 1..n.
   */
  method Split(secret: seq<Elem>, threshold: int, n: int, drawn: seq<Read>) returns (r: Result<seq<Share>>)
    requires |drawn| == |secret|
    requires ParametersOk(secret, threshold, n) ==>
               forall b :: 0 <= b < |drawn| && drawn[b].Filled? ==> |drawn[b].bytes| == threshold - 1
    ensures r.Ok? <==> secret != [] && 2 <= threshold <= n <= 255 && Failed !in drawn
    ensures r.Ok? ==> Draws(secret, threshold, Bytes(drawn)) && r.value == Shares(secret, Bytes(drawn), n)
    ensures r.Ok? ==> |r.value| == n && forall i :: 0 <= i < n ==> Value(r.value[i].index) == i + 1
  {
    hide Eval, Index, Value;
    if |secret| == 0 {
      return Err("secret must not be empty");
    }
    if threshold < 2 || threshold > n || n > 255 {
      return Err("invalid parameters");
    }
    var values := new Elem[n, |secret|];
    var coefficients := new Elem[threshold];
    for b := 0 to |secret|
      invariant Failed !in drawn[..b]
      invariant forall i, a :: 0 <= i < n && 0 <= a < b ==>
                  values[i, a] == Eval(Polynomial(secret, Bytes(drawn), a), Index(i))
    {
      coefficients[0] := secret[b];
      if drawn[b] == Failed {
        return Err("generate coefficients");
      }
      forall k | 1 <= k < threshold {
        coefficients[k] := drawn[b].bytes[k - 1];
      }
      assert coefficients[..] == Polynomial(secret, Bytes(drawn), b);
      FillColumn(values, b, coefficients[..]);
    }
    assert drawn[..|secret|] == drawn;
    var shares := seq(n, i requires 0 <= i < n reads values =>
      Share(Index(i), seq(|secret|, b requires 0 <= b < |secret| reads values => values[i, b])));
    assert shares == Shares(secret, Bytes(drawn), n) by {
      forall i | 0 <= i < n ensures shares[i] == ShareOf(secret, Bytes(drawn), i) {
        assert shares[i].value == ShareOf(secret, Bytes(drawn), i).value;
      }
    }
    forall i | 0 <= i < n ensures Value(shares[i].index) == i + 1 {
      IndexNumber(i);
    }
    return Ok(shares);
  }

  // Writes byte b of every share.
  method FillColumn(values: array2<Elem>, b: nat, poly: seq<Elem>)
    requires b < values.Length1 && values.Length0 <= 255
    modifies values
    ensures forall i :: 0 <= i < values.Length0 ==> values[i, b] == Eval(poly, Index(i))
    ensures forall i, a :: 0 <= i < values.Length0 && 0 <= a < values.Length1 && a != b ==>
              values[i, a] == old(values[i, a])
  {
    hide Eval, Index;
    for i := 0 to values.Length0
      invariant forall j :: 0 <= j < i ==> values[j, b] == Eval(poly, Index(j))
      invariant forall j, a :: 0 <= j < values.Length0 && 0 <= a < values.Length1 && a != b ==>
                  values[j, a] == old(values[j, a])
    {
      var y := PolyEval(poly, Index(i));
      values[i, b] := y;
    }
  }

  function Column(shares: seq<Share>, b: nat): seq<Elem>
    requires forall s :: s in shares ==> b < |s.value|
  {
    seq(|shares|, i requires 0 <= i < |shares| => shares[i].value[b])
  }

  function Indices(shares: seq<Share>): seq<Elem> {
    seq(|shares|, i requires 0 <= i < |shares| => shares[i].index)
  }

  predicate SameLength(shares: seq<Share>)
    requires shares != []
  {
    forall s :: s in shares ==> |s.value| == |shares[0].value|
  }

  function Combined(shares: seq<Share>): Result<seq<Elem>> {
    if |shares| < 2 then Err("need at least 2 shares")
    else if !SameLength(shares) then Err("shares have inconsistent lengths")
    else
      var length := |shares[0].value|;
      Ok(seq(length, b requires 0 <= b < length => Lagrange(Indices(shares), Column(shares, b))))
  }

  /** Combining: interpolation at zero, byte by byte. */
  method Combine(shares: seq<Share>) returns (r: Result<seq<Elem>>)
    ensures r == Combined(shares)
    ensures r.Ok? <==> |shares| >= 2 && forall s :: s in shares ==> |s.value| == |shares[0].value|
    ensures r.Ok? ==> |r.value| == |shares[0].value|
  {
    hide Lagrange;
    if |shares| < 2 {
      return Err("need at least 2 shares");
    }
    var length := |shares[0].value|;
    for k := 1 to |shares|
      invariant forall j :: 0 <= j < k ==> |shares[j].value| == length
    {
      if |shares[k].value| != length {
        return Err("shares have inconsistent lengths");
      }
    }
    var secret := new Elem[length];
    for b := 0 to length
      invariant forall a :: 0 <= a < b ==> secret[a] == Lagrange(Indices(shares), Column(shares, a))
    {
      var xs := new Elem[|shares|];
      var ys := new Elem[|shares|];
      for i := 0 to |shares|
        modifies xs, ys
        invariant forall j :: 0 <= j < i ==> xs[j] == shares[j].index && ys[j] == shares[j].value[b]
      {
        xs[i] := shares[i].index;
        ys[i] := shares[i].value[b];
      }
      assert xs[..] == Indices(shares) && ys[..] == Column(shares, b);
      var byte := LagrangeLoop(xs[..], ys[..]);
      secret[b] := byte;
    }
    assert secret[..] == Combined(shares).value;
    return Ok(secret[..]);
  }

  /**
   Recovery.  Whatever the random coefficients, any selection of at least
   threshold shares with pairwise distinct indices combines to the secret.
   */
  lemma RecoversSecret(secret: seq<Elem>, threshold: int, n: int, random: seq<seq<Elem>>, held: seq<Share>)
    requires ParametersOk(secret, threshold, n) && Draws(secret, threshold, random)
    requires forall s :: s in held ==> s in Shares(secret, random, n)
    requires NoDuplicates(Indices(held)) && |held| >= threshold
    ensures Combined(held) == Ok(secret)
  {
    hide Eval, Lagrange;
    assert forall k :: 0 <= k < |held| ==> held[k] in held;
    assert SameLength(held);
    forall b | 0 <= b < |secret| ensures Lagrange(Indices(held), Column(held, b)) == secret[b] {
      var c := Polynomial(secret, random, b);
      LagrangeRecovers(Indices(held), Column(held, b), c);
      EvalAtZero(c);
    }
    assert |held[0].value| == |secret|;
    assert Combined(held).value == secret;
  }

  lemma PointsWithZero(idx: seq<nat>) returns (xs: seq<Elem>)
    requires forall k :: 0 <= k < |idx| ==> idx[k] < 255
    requires forall k, l :: 0 <= k < l < |idx| ==> idx[k] != idx[l]
    ensures |xs| == |idx| + 1 && NoDuplicates(xs) && xs[|idx|] == 0
    ensures NoDuplicates(xs[..|idx|]) && 0 !in xs[..|idx|]
    ensures forall k :: 0 <= k < |idx| ==> xs[k] == Index(idx[k])
  {
    hide Index;
    xs := seq(|idx|, k requires 0 <= k < |idx| => Index(idx[k])) + [0];
    forall k, l | 0 <= k < |idx| && 0 <= l < |idx|
      ensures xs[k] != 0 && (k != l ==> xs[k] != xs[l])
    {
      IndexInjective(idx[k], idx[l]);
    }
  }

  /**
   The threshold is tight.  Fewer than threshold shares are consistent with every
   other secret of the same length: some draw makes Split hand out exactly those
   shares for it.
   */
  lemma BelowThresholdAnySecretFits(secret: seq<Elem>, candidate: seq<Elem>, threshold: int, n: int,
                                    random: seq<seq<Elem>>, idx: seq<nat>)
      returns (forged: seq<seq<Elem>>)
    requires ParametersOk(secret, threshold, n) && Draws(secret, threshold, random)
    requires |candidate| == |secret| && |idx| < threshold
    requires forall k :: 0 <= k < |idx| ==> idx[k] < n
    requires forall k, l :: 0 <= k < l < |idx| ==> idx[k] != idx[l]
    ensures Draws(candidate, threshold, forged)
    ensures forall k :: 0 <= k < |idx| ==> Shares(candidate, forged, n)[idx[k]] == Shares(secret, random, n)[idx[k]]
  {
    hide Eval, Index;
    var xs := PointsWithZero(idx);
    forged := [];
    for b := 0 to |secret|
      invariant |forged| == b
      invariant forall a :: 0 <= a < b ==> |forged[a]| == threshold - 1
      invariant forall a, k :: 0 <= a < b && 0 <= k < |idx| ==>
                  Eval([candidate[a]] + forged[a], Index(idx[k])) == Eval([secret[a]] + random[a], Index(idx[k]))
    {
      var f := ForgeByte(secret[b], candidate[b], random[b], xs, threshold - 1);
      forall k | 0 <= k < |idx|
        ensures Eval([candidate[b]] + f, Index(idx[k])) == Eval([secret[b]] + random[b], Index(idx[k]))
      {
        assert xs[k] == Index(idx[k]);
      }
      forged := forged + [f];
    }
    forall k | 0 <= k < |idx| ensures ShareOf(candidate, forged, idx[k]) == ShareOf(secret, random, idx[k]) {
      var s, s' := ShareOf(secret, random, idx[k]), ShareOf(candidate, forged, idx[k]);
      assert forall a :: 0 <= a < |secret| ==> s'.value[a] == s.value[a];
    }
  }

  lemma ForgeByte(s: Elem, s': Elem, random: seq<Elem>, xs: seq<Elem>, m: nat) returns (f: seq<Elem>)
    requires |xs| > 0 && NoDuplicates(xs) && xs[|xs| - 1] == 0 && |xs| - 1 <= m
    ensures |f| == m
    ensures forall k :: 0 <= k < |xs| - 1 ==> Eval([s'] + f, xs[k]) == Eval([s] + random, xs[k])
  {
    hide Eval;
    var n := |xs| - 1;
    var ys := seq(n, k requires 0 <= k < n => Eval([s] + random, xs[k])) + [s'];
    var c := Interpolant(xs, ys);
    EvalAtZero(c);
    f := c[1..] + seq(m - n, _ => 0);
    forall k | 0 <= k < n ensures Eval([s'] + f, xs[k]) == Eval([s] + random, xs[k]) {
      EvalPadded(c, xs[k], m - n);
      assert [s'] + f == c + seq(m - n, _ => 0);
    }
  }

  /**
   Exactly threshold - 1 shares leave exactly one draw for each secret, so they
   favour no secret over another.
   */
  lemma OneDrawPerSecret(candidate: seq<Elem>, threshold: int, n: int, random1: seq<seq<Elem>>, random2: seq<seq<Elem>>,
                         idx: seq<nat>)
    requires ParametersOk(candidate, threshold, n)
    requires Draws(candidate, threshold, random1) && Draws(candidate, threshold, random2) && |idx| == threshold - 1
    requires forall k :: 0 <= k < |idx| ==> idx[k] < n
    requires forall k, l :: 0 <= k < l < |idx| ==> idx[k] != idx[l]
    requires forall k :: 0 <= k < |idx| ==>
               Shares(candidate, random1, n)[idx[k]] == Shares(candidate, random2, n)[idx[k]]
    ensures random1 == random2
  {
    hide Index;
    var xs := PointsWithZero(idx);
    forall b | 0 <= b < |candidate| ensures random1[b] == random2[b] {
      forall k | 0 <= k < |idx| ensures Eval(random1[b], xs[k]) == Eval(random2[b], xs[k]) {
        var x := Index(idx[k]);
        assert Shares(candidate, random1, n)[idx[k]].value[b] == Shares(candidate, random2, n)[idx[k]].value[b];
        assert Eval([candidate[b]] + random1[b], x) == Eval([candidate[b]] + random2[b], x);
        TailsAgree(candidate[b], random1[b], random2[b], x);
      }
      SamePolynomial(xs[..|idx|], random1[b], random2[b]);
    }
  }

  lemma TailsAgree(s: Elem, f: seq<Elem>, g: seq<Elem>, x: Elem)
    requires x != 0 && Eval([s] + f, x) == Eval([s] + g, x)
    ensures Eval(f, x) == Eval(g, x)
  {
    hide Add, Mul;
    assert ([s] + f)[1..] == f && ([s] + g)[1..] == g;
    var e, e' := Eval(f, x), Eval(g, x);
    AddComm(Mul(e, x), s);
    AddComm(Mul(e', x), s);
    AddCancel(s, Mul(e, x));
    AddCancel(s, Mul(e', x));
    MulComm(e, x);
    MulComm(e', x);
    MulCancel(x, e, e');
  }
}
