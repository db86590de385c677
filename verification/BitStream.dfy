/** Bit strings, most significant bit first, and the buffer they are appended to. */
module BitStream {
  import opened Results

  type Bits = seq<bool>

  function Pow2(n: nat): (p: nat)
    ensures p > 0
  {
    if n == 0 then 1 else 2 * Pow2(n - 1)
  }

  /** The `len` low bits of `val`. */
  function BitsOf(val: nat, len: nat): (b: Bits)
    ensures |b| == len
  {
    if len == 0 then [] else BitsOf(val / 2, len - 1) + [val % 2 == 1]
  }

  function ValueOf(b: Bits): nat {
    if b == [] then 0 else 2 * ValueOf(b[..|b| - 1]) + (if b[|b| - 1] then 1 else 0)
  }

  /** A value that fits its field can be read back. */
  lemma {:induction false} ValueBack(val: nat, len: nat)
    requires val < Pow2(len)
    ensures ValueOf(BitsOf(val, len)) == val
  {
    if len > 0 {
      ValueBack(val / 2, len - 1);
      assert BitsOf(val, len)[..len - 1] == BitsOf(val / 2, len - 1);
    }
  }

  /** Bit `i` of `val`. */
  function BitAt(val: nat, i: nat): bool {
    val / Pow2(i) % 2 == 1
  }

  lemma {:induction false} BitsOfAt(val: nat, len: nat, i: nat)
    requires i < len
    ensures BitsOf(val, len)[len - 1 - i] == BitAt(val, i)
  {
    if i > 0 {
      BitsOfAt(val / 2, len - 1, i - 1);
      HalfThen(val, Pow2(i - 1));
    }
  }

  lemma HalfThen(val: nat, p: nat)
    requires p > 0
    ensures val / 2 / p == val / (2 * p)
  {
    var q, r := Divided(val / 2, p);
    TwiceTimes(p, q);
    QuotientIs(val, 2 * p, q, 2 * r + val % 2);
  }

  lemma Divided(a: nat, p: nat) returns (q: nat, r: nat)
    requires p > 0
    ensures q == a / p && a == p * q + r && r < p
  {
    q, r := a / p, a % p;
  }

  lemma TwiceTimes(p: nat, q: nat)
    ensures 2 * p * q == 2 * (p * q)
  {
  }

  lemma QuotientIs(a: nat, p: nat, q: nat, r: nat)
    requires a == p * q + r && r < p
    ensures a / p == q
  {
    var d := a / p - q;
    assert p * (a / p) <= a < p * (a / p) + p;
    assert p * (a / p) == p * q + p * d;
    TimesBounds(p, d);
  }

  lemma TimesBounds(p: nat, d: int)
    ensures d >= 1 ==> p * d >= p
    ensures d <= -1 ==> p * d + p <= 0
  {
  }

  class BitBuffer {
    var bits: Bits

    constructor ()
      ensures bits == []
    {
      bits := [];
    }

    method AppendBits(val: nat, len: int) returns (r: Result<()>)
      modifies this
      ensures r.Ok? <==> 0 <= len <= 31 && val < Pow2(len)
      ensures r.Ok? ==> bits == old(bits) + BitsOf(val, len)
      ensures r.Fail? ==> r.failure == DomainError && bits == old(bits)
    {
      if len < 0 || len > 31 || val / Pow2(len) != 0 {
        assert 0 <= len <= 31 ==> val >= Pow2(len) by { if 0 <= len <= 31 { QuotientZero(val, Pow2(len)); } }
        return Fail(DomainError);
      }
      QuotientZero(val, Pow2(len));
      ghost var all := BitsOf(val, len);
      for i := len downto 0
        invariant bits == old(bits) + all[..len - i]
      {
        BitsOfAt(val, len, i);
        bits := bits + [BitAt(val, i)];
      }
      r := Ok(());
    }

    method Append(more: Bits)
      modifies this
      ensures bits == old(bits) + more
    {
      bits := bits + more;
    }
  }

  lemma QuotientZero(a: nat, p: nat)
    requires p > 0
    ensures a / p == 0 <==> a < p
  {
    if a < p { QuotientIs(a, p, 0, a); }
    else { assert p * (a / p) <= a < p * (a / p) + p; }
  }
}
