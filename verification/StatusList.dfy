/**
 The revocation bitstring: one bit per credential, lowest bit first within a byte,
 set and cleared in place, and read back from the published bytes.
 */
module StatusList {
  import opened Results
  import opened ByteCodes

  const STATUS_LIST_MIN_SIZE := 131_072

  function Mask(k: nat): bv8
    requires k < 8
  {
    1 << k
  }

  function SetBit(b: bv8, m: bv8): bv8 { b | m }

  function ClearBit(b: bv8, m: bv8): bv8 { b & !m }

  predicate TestBit(b: bv8, m: bv8) { b & m != 0 }

  predicate BitAt(bits: seq<bv8>, i: nat)
    requires i < 8 * |bits|
  {
    TestBit(bits[i / 8], Mask(i % 8))
  }

  // The set of indices the bytes stand for.
  ghost function Indices(bits: seq<bv8>): set<int> {
    set i | 0 <= i < 8 * |bits| && BitAt(bits, i)
  }

  function WithBit(bits: seq<bv8>, i: nat): seq<bv8>
    requires i < 8 * |bits|
  {
    bits[i / 8 := SetBit(bits[i / 8], Mask(i % 8))]
  }

  function WithoutBit(bits: seq<bv8>, i: nat): seq<bv8>
    requires i < 8 * |bits|
  {
    bits[i / 8 := ClearBit(bits[i / 8], Mask(i % 8))]
  }

  // The masks as literals.
  lemma MaskValue(k: nat)
    requires k < 8
    ensures Mask(k) == [1, 2, 4, 8, 16, 32, 64, 128][k]
  {
    assert k in {0, 1, 2, 3, 4, 5, 6, 7};
  }

  predicate IsMask(m: bv8) { m == 1 || m == 2 || m == 4 || m == 8 || m == 16 || m == 32 || m == 64 || m == 128 }

  // Setting or clearing one bit of a byte leaves the others.
  lemma BitOps(b: bv8, m: bv8, n: bv8)
    requires IsMask(m) && IsMask(n)
    ensures TestBit(SetBit(b, m), n) <==> m == n || TestBit(b, n)
    ensures TestBit(ClearBit(b, m), n) <==> m != n && TestBit(b, n)
  {}

  lemma MaskInjective(j: nat, k: nat)
    requires j < 8 && k < 8
    ensures IsMask(Mask(j)) && (Mask(j) == Mask(k) <==> j == k)
  {
    hide Mask;
    MaskValue(j);
    MaskValue(k);
  }

  lemma BitAfter(bits: seq<bv8>, i: nat, j: nat)
    requires i < 8 * |bits| && j < 8 * |bits|
    ensures BitAt(WithBit(bits, i), j) <==> i == j || BitAt(bits, j)
    ensures BitAt(WithoutBit(bits, i), j) <==> i != j && BitAt(bits, j)
  {
    hide Mask, IsMask, SetBit, ClearBit, TestBit;
    MaskInjective(i % 8, j % 8);
    MaskInjective(j % 8, i % 8);
    BitOps(bits[i / 8], Mask(i % 8), Mask(j % 8));
  }

  /** Setting a bit adds exactly its index to the set; clearing removes exactly it. */
  lemma SetRefined(bits: seq<bv8>, i: nat)
    requires i < 8 * |bits|
    ensures Indices(WithBit(bits, i)) == Indices(bits) + {i}
    ensures Indices(WithoutBit(bits, i)) == Indices(bits) - {i}
  {
    hide BitAt;
    assert |WithBit(bits, i)| == |bits| == |WithoutBit(bits, i)|;
    forall j: int | 0 <= j < 8 * |bits|
      ensures BitAt(WithBit(bits, i), j) <==> i == j || BitAt(bits, j)
      ensures BitAt(WithoutBit(bits, i), j) <==> i != j && BitAt(bits, j)
    {
      BitAfter(bits, i, j);
    }
  }

  function Pow2(k: nat): (w: nat)
    ensures w > 0
  {
    if k == 0 then 1 else 2 * Pow2(k - 1)
  }

  lemma MaskPower(k: nat)
    requires k < 8
    ensures Mask(k) as int == Pow2(k) && Pow2(k) in {1, 2, 4, 8, 16, 32, 64, 128}
  {
    MaskValue(k);
    assert Pow2(2) == 4 && Pow2(4) == 16 && Pow2(6) == 64;
  }

  /** Index i is digit i % 8, lowest first, of the number in byte i / 8. */
  lemma LowestBitFirst(bits: seq<bv8>, i: nat)
    requires i < 8 * |bits|
    ensures i in Indices(bits) <==> Value(bits[i / 8]) / Pow2(i % 8) % 2 == 1
  {
    hide Mask, Pow2, Value;
    MaskPower(i % 8);
    BitIsDigit(bits[i / 8], Mask(i % 8), Pow2(i % 8));
    assert BitAt(bits, i) <==> i in Indices(bits);
  }

  class List {
    const bits: array<bv8>
    const size: int

    ghost predicate Valid() { size == 8 * bits.Length && size >= STATUS_LIST_MIN_SIZE }

    constructor (requested: int)
      ensures Valid() && Indices(bits[..]) == {} && fresh(bits)
      ensures requested <= size && (requested >= STATUS_LIST_MIN_SIZE ==> size < requested + 8)
      ensures requested < STATUS_LIST_MIN_SIZE ==> size == STATUS_LIST_MIN_SIZE
    {
      var n := if requested < STATUS_LIST_MIN_SIZE then STATUS_LIST_MIN_SIZE else requested;
      var byteLen := (n + 7) / 8;
      bits := new bv8[byteLen](_ => 0);
      size := byteLen * 8;
    }

    predicate IndexOk(index: int) { 0 <= index < size }

    /** Revoking adds the index to the set, or refuses it and changes nothing. */
    method Revoke(index: int) returns (ok: bool)
      requires Valid()
      modifies bits
      ensures ok == IndexOk(index)
      ensures Indices(bits[..]) == old(Indices(bits[..])) + (if ok then {index} else {})
    {
      hide Mask;
      if !IndexOk(index) {
        return false;
      }
      SetRefined(bits[..], index);
      bits[index / 8] := bits[index / 8] | Mask(index % 8);
      assert bits[..] == WithBit(old(bits[..]), index);
      return true;
    }

    /** Unrevoking removes the index from the set. */
    method Unrevoke(index: int) returns (ok: bool)
      requires Valid()
      modifies bits
      ensures ok == IndexOk(index)
      ensures Indices(bits[..]) == old(Indices(bits[..])) - (if ok then {index} else {})
    {
      hide Mask;
      if !IndexOk(index) {
        return false;
      }
      SetRefined(bits[..], index);
      bits[index / 8] := bits[index / 8] & !Mask(index % 8);
      assert bits[..] == WithoutBit(old(bits[..]), index);
      return true;
    }

    /** Membership in the set; nothing for an index out of range. */
    method IsRevoked(index: int) returns (r: Option<bool>)
      requires Valid()
      ensures r == if IndexOk(index) then Some(index in Indices(bits[..])) else None
    {
      hide Mask;
      if !IndexOk(index) {
        return None;
      }
      r := Some(bits[index / 8] & Mask(index % 8) != 0);
      assert r.value <==> BitAt(bits[..], index);
    }
  }

  datatype Check = Valid | Revoked | OutOfRange | Panic

  // Division that truncates toward zero.
  function Quot(x: int, d: int): int
    requires d > 0
  {
    if x >= 0 then x / d else -(-x / d)
  }

  /** Checking a status entry against the published bytes, for any index a status may carry. */
  method CheckStatus(bits: seq<bv8>, status: Option<int>) returns (r: Check)
    ensures r == CheckResult(bits, status)
  {
    if status.None? {
      return Valid;
    }
    var idx := status.value;
    var byteIdx := Quot(idx, 8);
    var bitIdx := idx % 8;
    if byteIdx >= |bits| {
      return OutOfRange;
    }
    if byteIdx < 0 {
      return Panic;
    }
    if bits[byteIdx] & Mask(bitIdx) != 0 {
      return Revoked;
    }
    return Valid;
  }

  function CheckResult(bits: seq<bv8>, status: Option<int>): Check {
    if status.None? then Valid
    else
      var idx := status.value;
      var b := Quot(idx, 8);
      if b >= |bits| then OutOfRange else if b < 0 then Panic
      else if bits[b] & Mask(idx % 8) != 0 then Revoked else Valid
  }

  /**
   What a check reports.  For every index from zero up it agrees with membership, and
   refuses what lies beyond the bytes.  Negative indices are not refused: the last
   seven before zero read the bit eight further on, all lower ones index out of bounds.
   */
  lemma CheckAgreesExactlyWhen(bits: seq<bv8>, idx: int)
    ensures 0 <= idx < 8 * |bits| ==> CheckResult(bits, Some(idx)) == if idx in Indices(bits) then Revoked else Valid
    ensures idx >= 8 * |bits| ==> CheckResult(bits, Some(idx)) == OutOfRange
    ensures -8 < idx < 0 ==> CheckResult(bits, Some(idx)) == CheckResult(bits, Some(idx + 8))
    ensures idx <= -8 ==> CheckResult(bits, Some(idx)) == Panic
  {
    hide Mask;
    if 0 <= idx < 8 * |bits| {
      assert BitAt(bits, idx) <==> idx in Indices(bits);
    }
  }

  // ----- runs -----

  datatype Op = Revoke(index: int) | Unrevoke(index: int)

  function Run(bits: seq<bv8>, ops: seq<Op>): (after: seq<bv8>)
    ensures |after| == |bits|
    decreases |ops|
  {
    if ops == [] then bits
    else
      var before := Run(bits, ops[..|ops| - 1]);
      var op := ops[|ops| - 1];
      if !(0 <= op.index < 8 * |bits|) then before
      else if op.Revoke? then WithBit(before, op.index) else WithoutBit(before, op.index)
  }

  // An index is revoked when the last operation that names it is a revocation.
  function LastSays(ops: seq<Op>, i: int): bool {
    if ops == [] then false
    else if ops[|ops| - 1].index == i then ops[|ops| - 1].Revoke?
    else LastSays(ops[..|ops| - 1], i)
  }

  /**
   After any run from a fresh list an index is revoked, and reported so, exactly when
   it is in range and was last revoked.
   */
  lemma {:induction false} RunRefinesSet(bits: seq<bv8>, ops: seq<Op>, i: int)
    requires Indices(bits) == {}
    ensures i in Indices(Run(bits, ops)) <==> 0 <= i < 8 * |bits| && LastSays(ops, i)
    decreases |ops|
  {
    hide Indices, WithBit, WithoutBit;
    if ops == [] {
    } else {
      RunRefinesSet(bits, ops[..|ops| - 1], i);
      var before, op := Run(bits, ops[..|ops| - 1]), ops[|ops| - 1];
      if 0 <= op.index < 8 * |bits| {
        SetRefined(before, op.index);
      }
    }
  }
}
