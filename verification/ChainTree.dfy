/** Headers stored by hash form a forest; the ancestry of a header is a line down to genesis. */
module ChainTree {

  /** Hashes are opaque identifiers; 0 is the zero hash that stands for "none". */
  type Hash = nat
  const ZERO: Hash := 0

  const MAX_UINT64: nat := 0xffff_ffff_ffff_ffff

  datatype Option<T> = None | Some(value: T)

  datatype Header = Header(hash: Hash, parent: Hash, number: nat, difficulty: nat)

  /** The header table. A header is stored under its own hash, so hashes do not collide; only
      genesis has no parent. */
  type Headers = map<Hash, Header>

  ghost predicate WellKeyed(hs: Headers) {
    forall h :: h in hs ==> KeyedBy(h, hs[h])
  }

  predicate KeyedBy(h: Hash, header: Header) {
    h != ZERO && header.hash == h && header.number < MAX_UINT64 && (0 < header.number ==> header.parent != ZERO)
  }

  /** The ancestry of `h` is stored completely, down to genesis at number 0. */
  ghost predicate Rooted(hs: Headers, genesis: Hash, h: Hash)
    decreases if h in hs then hs[h].number else 0
  {
    h in hs &&
    if hs[h].number == 0 then h == genesis
    else
      && hs[h].parent in hs && hs[hs[h].parent].number + 1 == hs[h].number
      && Rooted(hs, genesis, hs[h].parent)
  }

  /** The hashes from genesis to `h`, indexed by block number. */
  ghost function Line(hs: Headers, genesis: Hash, h: Hash): (line: seq<Hash>)
    requires Rooted(hs, genesis, h)
    ensures |line| == hs[h].number + 1
    decreases hs[h].number
  {
    if hs[h].number == 0 then [h] else Line(hs, genesis, hs[h].parent) + [h]
  }

  /** The total difficulty of a header: the sum over its ancestry. */
  ghost function TotalDifficulty(hs: Headers, genesis: Hash, h: Hash): nat
    requires Rooted(hs, genesis, h)
    decreases hs[h].number
  {
    if hs[h].number == 0 then hs[h].difficulty
    else hs[h].difficulty + TotalDifficulty(hs, genesis, hs[h].parent)
  }

  /** Each entry of a line is a stored header of that number, linked to the one before. */
  lemma {:induction false} LineLinks(hs: Headers, genesis: Hash, h: Hash, i: nat)
    requires Rooted(hs, genesis, h) && i <= hs[h].number
    ensures var line := Line(hs, genesis, h);
      && line[hs[h].number] == h && line[0] == genesis
      && line[i] in hs && hs[line[i]].number == i && Rooted(hs, genesis, line[i])
      && Line(hs, genesis, line[i]) == line[..i + 1]
      && (0 < i ==> hs[line[i]].parent == line[i - 1])
    decreases hs[h].number
  {
    var line := Line(hs, genesis, h);
    if i < hs[h].number {
      LineLinks(hs, genesis, hs[h].parent, i);
      assert Line(hs, genesis, hs[h].parent)[..i + 1] == line[..i + 1];
    } else {
      assert line[..i + 1] == line;
      if 0 < i {
        LineLinks(hs, genesis, hs[h].parent, 0);
        LineLinks(hs, genesis, hs[h].parent, i - 1);
      }
    }
  }

  /** Entry `i` of a line: a stored header of number `i`, linked to the entry before. */
  ghost predicate Entry(hs: Headers, line: seq<Hash>, i: nat)
    requires i < |line|
  {
    line[i] in hs && hs[line[i]].number == i && (0 < i ==> hs[line[i]].parent == line[i - 1])
  }

  ghost predicate IsLine(hs: Headers, line: seq<Hash>) {
    0 < |line| && forall i: nat :: i < |line| ==> Entry(hs, line, i)
  }

  lemma LineIsLine(hs: Headers, genesis: Hash, h: Hash)
    requires Rooted(hs, genesis, h)
    ensures var line := Line(hs, genesis, h);
      IsLine(hs, line) && line[0] == genesis && line[|line| - 1] == h
  {
    var line := Line(hs, genesis, h);
    LineLinks(hs, genesis, h, 0);
    forall i: nat | i < |line|
      ensures Entry(hs, line, i)
    {
      LineLinks(hs, genesis, h, i);
    }
  }

  /** Lines that meet at a number agree below it. */
  lemma {:induction false} LinesMeet(hs: Headers, a: seq<Hash>, b: seq<Hash>, i: nat)
    requires IsLine(hs, a) && IsLine(hs, b) && i < |a| && i < |b| && a[i] == b[i]
    ensures a[..i + 1] == b[..i + 1]
  {
    assert Entry(hs, a, i) && Entry(hs, b, i);
    if i > 0 {
      LinesMeet(hs, a, b, i - 1);
      assert a[..i + 1] == a[..i] + [a[i]];
    }
  }

  /** Storing further headers leaves existing ancestries alone. */
  lemma {:induction false} Extend(hs: Headers, hs': Headers, genesis: Hash, h: Hash)
    requires Rooted(hs, genesis, h)
    requires forall k :: k in hs ==> k in hs' && hs'[k] == hs[k]
    ensures Rooted(hs', genesis, h) && Line(hs', genesis, h) == Line(hs, genesis, h)
    ensures TotalDifficulty(hs', genesis, h) == TotalDifficulty(hs, genesis, h)
    decreases hs[h].number
  {
    if hs[h].number > 0 {
      Extend(hs, hs', genesis, hs[h].parent);
    }
  }

  ghost predicate Part(hs: Headers, hs': Headers) {
    forall k :: k in hs ==> k in hs' && hs'[k] == hs[k]
  }

  ghost predicate Stored(hs: Headers, line: seq<Hash>) {
    forall i: nat :: i < |line| ==> line[i] in hs
  }

  /** In part of a store a header is rooted exactly if its whole line is there. */
  lemma {:induction false} RootedIn(hs: Headers, all: Headers, genesis: Hash, h: Hash)
    requires Part(hs, all) && Rooted(all, genesis, h)
    ensures Rooted(hs, genesis, h) <==> Stored(hs, Line(all, genesis, h))
    decreases all[h].number
  {
    var line := Line(all, genesis, h);
    if all[h].number == 0 {
      assert line[0] == h;
    } else {
      var below := Line(all, genesis, all[h].parent);
      RootedIn(hs, all, genesis, all[h].parent);
      assert line[|below|] == h && forall i: nat :: i < |below| ==> line[i] == below[i];
    }
  }

  /** The canonical number index of a line. */
  ghost function IndexOf(line: seq<Hash>): map<nat, Hash> {
    map i: nat | i < |line| :: line[i]
  }

  /** Following parent links `k` times from header `h` of number `n`. */
  function Walk(hs: Headers, h: Hash, n: nat, k: nat): Option<Hash>
    decreases k
  {
    if k == 0 then Some(h)
    else if h in hs && hs[h].number == n && n > 0 then Walk(hs, hs[h].parent, n - 1, k - 1)
    else None
  }

  /** Walking on from where a walk has arrived. */
  lemma {:induction false} WalkOn(hs: Headers, h: Hash, n: nat, j: nat, k: nat)
    requires j <= n && Walk(hs, h, n, j).Some?
    ensures Walk(hs, h, n, j + k) == Walk(hs, Walk(hs, h, n, j).value, n - j, k)
    decreases j
  {
    if j > 0 {
      WalkOn(hs, hs[h].parent, n - 1, j - 1, k);
    }
  }

  /** On a rooted header, walking is indexing its line. */
  lemma {:induction false} WalkIsLine(hs: Headers, genesis: Hash, h: Hash, k: nat)
    requires Rooted(hs, genesis, h) && k <= hs[h].number
    ensures Walk(hs, h, hs[h].number, k) == Some(Line(hs, genesis, h)[hs[h].number - k])
    decreases k
  {
    LineLinks(hs, genesis, h, hs[h].number);
    if k > 0 {
      WalkIsLine(hs, genesis, hs[h].parent, k - 1);
    }
  }
}
