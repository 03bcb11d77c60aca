/** The reference binary Merkle tree hash (RefHasher). The base hash is an arbitrary function. */
module BmtReference {

  newtype byte = x: int | 0 <= x < 256
  type Bytes = seq<byte>

  /** A legal span: twice the segment size times a power of two. */
  predicate IsSpan(size: nat, s: nat) {
    0 < size && (s == 2 * size || (s > 2 * size && s % 2 == 0 && IsSpan(size, s / 2)))
  }

  /** The halving loop of RefHasher.hash: the first of s, s/2, s/4, ... below `l`. */
  function Fit(s: nat, l: nat): nat
    requires 0 < l
  {
    if s >= l then Fit(s / 2, l) else s
  }

  /** For data longer than a section, the loop ends at the unique span `t` with t < l <= 2t. */
  lemma {:induction false} FitIsSpan(size: nat, s: nat, l: nat)
    requires IsSpan(size, s) && 2 * size < l <= 2 * s
    ensures IsSpan(size, Fit(s, l)) && Fit(s, l) < l <= 2 * Fit(s, l)
  {
    if s >= l {
      FitIsSpan(size, s / 2, l);
    }
  }

  lemma {:induction false} SpansDouble(size: nat, s: nat, t: nat)
    requires IsSpan(size, s) && IsSpan(size, t) && s < t
    ensures 2 * s <= t
    decreases s
  {
    if s > 2 * size {
      SpansDouble(size, s / 2, t / 2);
    } else {
      SpanAtLeastSection(size, t);
    }
  }

  lemma {:induction false} SpanAtLeastSection(size: nat, t: nat)
    requires IsSpan(size, t)
    ensures 2 * size <= t
    ensures t > 2 * size ==> 4 * size <= t
  {
    if t > 2 * size {
      SpanAtLeastSection(size, t / 2);
    }
  }

  /** RefHasher.hash as a function of the data and the span. */
  function RefHash(hash: Bytes -> Bytes, size: nat, d: Bytes, s: nat): Bytes
    requires IsSpan(size, s) && |d| <= 2 * s
    decreases |d|
  {
    if |d| > 2 * size then
      FitIsSpan(size, s, |d|);
      SpanAtLeastSection(size, Fit(s, |d|));
      var t := Fit(s, |d|);
      var left := RefHash(hash, size, d[..t], t);
      var right := if |d| - t > size then RefHash(hash, size, d[t..], t) else d[t..];
      hash(left + right)
    else
      hash(d + [])
  }

  /** The reference value does not depend on the span the recursion starts from. */
  lemma RefHashSpan(hash: Bytes -> Bytes, size: nat, d: Bytes, s: nat, w: nat)
    requires IsSpan(size, s) && |d| <= 2 * s
    requires IsSpan(size, w) && w < |d| <= 2 * w
    ensures 2 * size < |d| && Fit(s, |d|) == w
  {
    SpanAtLeastSection(size, w);
    FitIsSpan(size, s, |d|);
    var t := Fit(s, |d|);
    if t < w {
      SpansDouble(size, t, w);
    } else if w < t {
      SpansDouble(size, w, t);
    }
  }

  /** The stateful RefHasher: span, section and cap are fixed by the constructor. */
  class RefHasher {
    const hash: Bytes -> Bytes
    const size: nat
    const span: nat
    const section: nat
    const cap: nat

    ghost predicate Valid() {
      && IsSpan(size, span) && section == 2 * size && cap <= 2 * span
    }

    constructor (hash: Bytes -> Bytes, size: nat, count: nat)
      requires 0 < size
      ensures Valid() && this.hash == hash && this.size == size && cap == size * count
    {
      var c := 2;
      assert IsSpan(size, 2 * size);
      while c < count
        invariant IsSpan(size, c * size) && c % 2 == 0 && 2 <= c
        invariant c == 2 || (c / 2 < count && IsSpan(size, c / 2 * size))
        decreases count - c
      {
        DoubleSpan(size, c);
        assert 2 * c / 2 == c;
        c := c * 2;
      }
      ghost var top := c;
      if c > 2 {
        c := c / 2;
      }
      CoverSpan(size, count, top, c);
      this.hash := hash;
      this.size := size;
      this.section := 2 * size;
      this.span := c * size;
      this.cap := size * count;
    }

    /** RefHasher.Hash: over-long input is truncated to the capacity. */
    method Hash(d: Bytes) returns (r: Bytes)
      requires Valid()
      ensures r == RefHash(hash, size, if |d| > cap then d[..cap] else d, span)
    {
      var e := d;
      if |e| > cap {
        e := e[..cap];
      }
      r := HashSpan(e, span);
    }

    /** RefHasher.hash with its halving loop. */
    method HashSpan(d: Bytes, s0: nat) returns (r: Bytes)
      requires Valid() && IsSpan(size, s0) && |d| <= 2 * s0
      ensures r == RefHash(hash, size, d, s0)
      decreases |d|
    {
      var l := |d|;
      var left := d;
      var right: Bytes := [];
      if l > section {
        var s: nat := s0;
        while s >= l
          invariant IsSpan(size, s) && l <= 2 * s
          invariant Fit(s, l) == Fit(s0, l)
        {
          s := s / 2;
        }
        SpanAtLeastSection(size, s);
        left := HashSpan(d[..s], s);
        right := d[s..];
        if l - s > section / 2 {
          right := HashSpan(right, s);
        }
      }
      r := hash(left + right);
    }
  }

  lemma DoubleSpan(size: nat, c: nat)
    requires IsSpan(size, c * size)
    ensures IsSpan(size, (c * 2) * size)
  {
    SpanAtLeastSection(size, c * size);
    assert (c * 2) * size == 2 * (c * size);
    assert 2 * (c * size) / 2 == c * size;
  }

  lemma CoverSpan(size: nat, count: nat, top: nat, c: nat)
    requires 0 < size && count <= top && 2 <= top && top % 2 == 0
    requires c == if top > 2 then top / 2 else top
    ensures size * count <= 2 * (c * size)
  {
    assert top <= 2 * c;
    assert size * count <= size * (2 * c) by { MulMonotone(size, count, 2 * c); }
    assert size * (2 * c) == 2 * (c * size);
  }

  lemma MulMonotone(m: nat, x: nat, y: nat)
    ensures x <= y ==> m * x <= m * y && x * m <= y * m
  {
  }
}
