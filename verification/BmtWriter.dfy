/** The sequential half of the fast Hasher: cutting the written bytes into leaves. */
module BmtWriter {
  import opened BmtReference
  import opened BmtShape
  import opened BmtValue

  /** The depth of the tree over `n` segments (function depth). */
  method Depth(n: nat) returns (d: nat)
    requires 0 < n
    ensures n <= 2 * (Ones(d) + 1)
    ensures d > 0 ==> 2 * (Ones(d - 1) + 1) < n
  {
    d := 0;
    var l := (n - 1) / 2;
    while l > 0
      invariant l == Anc((n - 1) / 2, d)
      invariant d > 0 ==> 0 < Anc((n - 1) / 2, d - 1)
    {
      d := d + 1;
      l := l / 2;
    }
    OnesBound((n - 1) / 2, d);
    if d > 0 {
      OnesBound((n - 1) / 2, d - 1);
    }
  }

  lemma {:induction false} OnesBound(j: nat, h: nat)
    ensures Anc(j, h) == 0 <==> j <= Ones(h)
  {
    if h > 0 {
      AncHalf(j, h - 1);
      OnesBound(j / 2, h - 1);
    }
  }

  /** The write cursor of a Hasher. `launched` records the segments handed to goroutines so far,
      the i-th one by writeSegment(i, ...). */
  class Writer {
    const size: nat
    const count: nat
    var cur: nat
    var segment: Bytes
    var launched: seq<Bytes>

    ghost predicate Valid()
      reads this
    {
      && 0 < size && 0 < count
      && cur == |launched| && 2 * cur < count
      && IsSplit(size, Leaves())
      && |Content()| <= count * size
    }

    /** The leaves Sum will have written: the launched ones and the open one. */
    function Leaves(): seq<Bytes>
      reads this
    {
      launched + [segment]
    }

    function Content(): Bytes
      reads this
    {
      Flatten(Leaves())
    }

    constructor (size: nat, count: nat)
      requires 0 < size && 0 < count
      ensures Valid() && Content() == [] && this.size == size && this.count == count
    {
      this.size := size;
      this.count := count;
      cur, segment, launched := 0, [], [];
      new;
      assert Leaves() == [[]];
      NothingWritten(size, count);
    }

    /** Write: within the capacity every byte ends up, in order, in a leaf. */
    method Write(b: Bytes) returns (l: nat)
      requires Valid() && |Content()| + |b| <= count * size
      modifies this
      ensures Valid() && l == |b|
      ensures Content() == old(Content()) + b
      ensures old(launched) <= launched
    {
      l := |b|;
      if l == 0 {
        assert old(Content()) + b == old(Content());
        return;
      }
      ghost var before := Content();
      var need: int := count * size - cur * 2 * size;
      var step: int := size;
      if need > step {
        step := step * 2;
      }
      OpenSpace(this);
      if l < need {
        need := l;
      }
      var rest: int := step - |segment|;
      if need < rest {
        rest := need;
      }
      need := need - rest;
      need := Fill(b, rest, need, step);
      if need > 0 {
        NoSpaceLeft(this, need);
      }
    }

    /** The loop of Write: push every finished leaf while more bytes are needed. */
    method Fill(b: Bytes, rest0: nat, need0: int, step0: int) returns (need: int)
      requires 0 < size && cur == |launched| && 2 * cur < count && IsSplit(size, Leaves())
      requires rest0 <= |b| && need0 == |b| - rest0 && 0 < |segment| + rest0
      requires |segment| + rest0 <= step0 && step0 in {size, 2 * size}
      requires need0 > 0 ==> |segment| + rest0 == step0 == 2 * size
      modifies this
      ensures cur == |launched| && 2 * cur < count && IsSplit(size, Leaves())
      ensures need > 0 ==> 2 * cur + 2 >= count && |segment| == 2 * size && need <= |b|
      ensures Content() == old(Content()) + if need > 0 then b[..|b| - need] else b
      ensures old(launched) <= launched
    {
      ghost var before := Content();
      var rest, step, s, i := rest0, step0, segment + b[..rest0], cur;
      need := need0;
      AppendLast(launched, segment, b[..rest]);
      while need > 0 && i < (count + 1) / 2 - 1
        invariant 0 <= rest <= |b| && i == |launched| && 2 * i < count
        invariant IsSplit(size, launched + [s])
        invariant Flatten(launched + [s]) == before + b[..rest]
        invariant if need > 0 then need == |b| - rest && |s| == step == 2 * size else rest == |b|
        invariant old(launched) <= launched
      {
        ghost var pre, pushed := launched, s;
        launched := launched + [s];
        need := need - step;
        if need < 0 {
          step := step + need;
        }
        s := b[rest .. rest + step];
        PushLeaf(size, pre, pushed, before, b, rest, step);
        rest := rest + step;
        i := i + 1;
      }
      segment := s;
      cur := i;
      assert b[..|b|] == b;
    }
  }

  lemma NothingWritten(size: nat, count: nat)
    requires 0 < size
    ensures IsSplit(size, [[]]) && Flatten([[]]) == [] && 0 <= count * size
  {
    var none: seq<Bytes> := [[]];
    assert none[..0] == [];
    MulMonotone(size, 0, count);
  }

  /** What is left of the capacity counted from the start of the open leaf. */
  lemma OpenSpace(w: Writer)
    requires w.Valid()
    ensures var need := w.count * w.size - w.cur * 2 * w.size;
      && |w.segment| + (w.count * w.size - |w.Content()|) == need
      && (need > w.size ==> |w.segment| <= 2 * w.size)
  {
    FlattenLength(w.size, w.Leaves());
    assert w.cur * (2 * w.size) == w.cur * 2 * w.size;
  }

  /** A full last leaf uses up the capacity. */
  lemma NoSpaceLeft(w: Writer, need: int)
    requires 0 < w.size && w.cur == |w.launched| && 2 * w.cur + 2 >= w.count && IsSplit(w.size, w.Leaves())
    requires |w.segment| == 2 * w.size
    ensures |w.Content()| >= w.count * w.size
  {
    FlattenLength(w.size, w.Leaves());
    assert w.cur * (2 * w.size) + 2 * w.size == (2 * (w.cur + 1)) * w.size;
    MulMonotone(w.size, w.count, 2 * (w.cur + 1));
  }

  lemma AppendLast(pre: seq<Bytes>, s: Bytes, t: Bytes)
    ensures Flatten(pre + [s + t]) == Flatten(pre + [s]) + t
  {
    assert (pre + [s + t])[..|pre|] == pre == (pre + [s])[..|pre|];
  }

  /** Handing over a full leaf and opening the next one extends the content by the new bytes. */
  lemma PushLeaf(size: nat, pre: seq<Bytes>, s: Bytes, before: Bytes, b: Bytes, rest: nat, step: nat)
    requires IsSplit(size, pre + [s]) && |s| == 2 * size && 0 < step <= 2 * size && rest + step <= |b|
    requires Flatten(pre + [s]) == before + b[..rest]
    ensures IsSplit(size, pre + [s] + [b[rest .. rest + step]])
    ensures Flatten(pre + [s] + [b[rest .. rest + step]]) == before + b[..rest + step]
  {
    AppendLeaf(pre + [s], b[rest .. rest + step]);
    assert b[..rest] + b[rest .. rest + step] == b[..rest + step];
  }

  lemma AppendLeaf(pre: seq<Bytes>, s: Bytes)
    ensures Flatten(pre + [s]) == Flatten(pre) + s
  {
    assert (pre + [s])[..|pre|] == pre;
  }
}
