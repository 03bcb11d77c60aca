/** Ancestor lookups and the header queries served to peers. */
module HeaderQuery {
  import opened ChainTree
  import opened HeaderChain
  import opened HeaderStore

  /** Canonical entries are linked, so walking from one is reading the index. */
  lemma WalkCanonical(l: Ledger, n: nat, k: nat)
    requires Indexed(l) && n in l.canon && k <= n
    ensures n - k in l.canon && l.canon[n] in l.headers && l.headers[l.canon[n]].number == n
    ensures Walk(l.headers, l.canon[n], n, k) == Some(l.canon[n - k]) && l.canon[n - k] != ZERO
  {
    var line := Line(l.headers, l.genesis, l.head);
    LineLinks(l.headers, l.genesis, l.head, n);
    LineLinks(l.headers, l.genesis, l.head, n - k);
    WalkIsLine(l.headers, l.genesis, line[n], k);
  }

  /** The header `k` links below is canonical. */
  ghost predicate MeetsAt(l: Ledger, hash: Hash, number: nat, k: nat) {
    k <= number && number - k in l.canon && Walk(l.headers, hash, number, k) == Some(l.canon[number - k])
  }

  /** None of the headers less than `k` links below is canonical. */
  ghost predicate Aside(l: Ledger, hash: Hash, number: nat, k: nat) {
    forall i: nat :: i < k ==> !MeetsAt(l, hash, number, i)
  }

  /** The least number of links to a canonical header, or to the ancestor if that comes first. */
  ghost predicate Detour(l: Ledger, hash: Hash, number: nat, ancestor: nat, k: nat) {
    k <= ancestor && Aside(l, hash, number, k) && (k == ancestor || MeetsAt(l, hash, number, k))
  }

  lemma DetourExists(l: Ledger, hash: Hash, number: nat, ancestor: nat, j: nat) returns (k: nat)
    requires j <= ancestor && Aside(l, hash, number, j)
    ensures Detour(l, hash, number, ancestor, k) && j <= k
    decreases ancestor - j
  {
    if j == ancestor || MeetsAt(l, hash, number, j) {
      k := j;
    } else {
      k := DetourExists(l, hash, number, ancestor, j + 1);
    }
  }

  /** What is left of the budget, and whether it lasts. */
  ghost predicate Afforded(l: Ledger, hash: Hash, number: nat, ancestor: nat, budget: nat, h: Hash, rest: nat) {
    exists k: nat :: Detour(l, hash, number, ancestor, k) &&
      if k <= budget then Some(h) == Walk(l.headers, hash, number, ancestor) && rest == budget - k
      else h == ZERO && rest == 0
  }

  /** GetAncestor, with the budget of headers that may be read off the canonical chain. */
  method GetAncestor(s: Store, hash: Hash, number: nat, ancestor: nat, budget: nat)
      returns (h: Hash, n: nat, rest: nat)
    requires s.Valid()
    ensures rest <= budget
    // A non-zero answer is the one found by walking parent links one at a time.
    ensures hash != ZERO && h != ZERO ==>
      && ancestor <= number && n == number - ancestor && Walk(s.headers, hash, number, ancestor) == Some(h)
    // With enough budget, an ancestor that exists is found.
    ensures var found := Walk(s.headers, hash, number, ancestor);
      hash != ZERO && ancestor <= budget && ancestor <= number && found.Some? ==> Some(h) == found
    // It is found exactly if the budget lasts to the canonical chain, and that is what it costs.
    ensures hash != ZERO && ancestor != 1 && ancestor <= number && Walk(s.headers, hash, number, ancestor).Some? ==>
      Afforded(s.View(), hash, number, ancestor, budget, h, rest)
    // The parent is free.
    ensures ancestor == 1 ==>
      var parent := Walk(s.headers, hash, number, 1);
      rest == budget && (1 <= number && parent.Some? ==> Some(h) == parent)
    // From a canonical header the answer is read off the index, at no cost.
    ensures ancestor <= number && hash == s.ReadCanonical(number) != ZERO ==>
      Some(h) == Walk(s.headers, hash, number, ancestor) && rest == budget && h == s.ReadCanonical(number - ancestor)
    // The zero hash is taken for a canonical one above the head.
    ensures hash == ZERO && 2 <= ancestor <= number && number !in s.canon ==> h == s.ReadCanonical(number - ancestor)
  {
    hide Known, Indexed;
    rest := budget;
    if ancestor <= number && hash == s.ReadCanonical(number) != ZERO {
      WalkCanonical(s.View(), number, ancestor);
    }
    if ancestor > number {
      return ZERO, 0, rest;
    }
    if ancestor == 1 {
      var header := s.GetHeader(hash, number);
      if header.Some? {
        assert Walk(s.headers, hash, number, 1) == Walk(s.headers, header.value.parent, number - 1, 0);
        return header.value.parent, number - 1, rest;
      } else {
        return ZERO, 0, rest;
      }
    }
    var left: nat;
    h, n, left := hash, number, ancestor;
    while left != 0
      invariant left <= n && number - n == ancestor - left && budget - rest == ancestor - left
      invariant Walk(s.headers, hash, number, ancestor - left) == Some(h)
      invariant hash != ZERO ==> Aside(s.View(), hash, number, ancestor - left)
      invariant hash == s.ReadCanonical(number) != ZERO ==>
        h == hash && n == number && left == ancestor && rest == budget
      invariant (h == ZERO <==> hash == ZERO) && (hash == ZERO ==> n == number)
      invariant Walk(s.headers, h, n, left) == Walk(s.headers, hash, number, ancestor)
      decreases left
    {
      if s.ReadCanonical(n) == h {
        if n in s.canon {
          WalkCanonical(s.View(), n, left);
        }
        assert hash != ZERO ==> Detour(s.View(), hash, number, ancestor, ancestor - left);
        return s.ReadCanonical(n - left), n - left, rest;
      }
      if rest == 0 {
        if hash != ZERO {
          ghost var k := DetourExists(s.View(), hash, number, ancestor, budget + 1);
        }
        return ZERO, 0, rest;
      }
      WalkOn(s.headers, hash, number, ancestor - left, 1);
      rest, left := rest - 1, left - 1;
      var header := s.GetHeader(h, n);
      if header.None? {
        return ZERO, 0, rest;
      }
      StoredKeyed(s.View(), h);
      h, n := header.value.parent, n - 1;
    }
    assert hash != ZERO ==> Detour(s.View(), hash, number, ancestor, ancestor);
  }

  const MAX_HEADER_FETCH: nat := 192
  const SOFT_RESPONSE_LIMIT: nat := 2 * 1024 * 1024
  const EST_HEADER_RLP_SIZE: nat := 500

  /** uint64 addition. */
  function Add64(x: nat, y: nat): nat {
    (x + y) % (MAX_UINT64 + 1)
  }

  /** The conversion of a uint64 to int. */
  function ToInt(x: nat): int {
    if x <= MAX_UINT64 / 2 then x else x - MAX_UINT64 - 1
  }

  /** Two consecutive headers of a reply by hash: exactly skip + 1 generations apart on one line. */
  ghost predicate Apart(hs: Headers, skip: nat, reverse: bool, a: Header, b: Header) {
    if reverse then
      a.number == b.number + skip + 1 && Walk(hs, a.hash, a.number, skip + 1) == Some(b.hash)
    else
      b.number == a.number + skip + 1 && Walk(hs, b.hash, b.number, skip + 1) == Some(a.hash)
  }

  /** The overflow test of the forward traversal. */
  lemma NoWrap(current: nat, skip: nat)
    requires current <= MAX_UINT64 && skip <= MAX_UINT64
    ensures var next := Add64(Add64(current, skip), 1);
      if next > current then next == current + skip + 1 && Add64(skip, 1) == skip + 1
      else current + skip + 1 > MAX_UINT64
  {
  }

  /** What the index holds is stored, below the head, and without gaps. */
  lemma CanonicalEntry(l: Ledger, n: nat, m: nat)
    requires Indexed(l) && n in l.canon && m <= n
    ensures l.canon[n] in l.headers && l.headers[l.canon[n]].number == n < MAX_UINT64
    ensures m in l.canon && l.canon[m] != ZERO
  {
    LineLinks(l.headers, l.genesis, l.head, n);
    LineLinks(l.headers, l.genesis, l.head, m);
  }

  method NextAbove(s: Store, origin: Header, skip: nat, budget: nat) returns (h: Hash, n: nat, rest: nat)
    requires s.Valid() && skip <= MAX_UINT64 && origin.hash in s.headers && s.headers[origin.hash] == origin
    ensures h != ZERO <==> s.Canonical(origin) && s.ReadCanonical(origin.number + skip + 1) != ZERO
    ensures h != ZERO ==> h == s.ReadCanonical(n) && n == origin.number + skip + 1
    ensures h != ZERO ==> Walk(s.headers, h, n, skip + 1) == Some(origin.hash)
  {
    hide Known;
    h, n, rest := ZERO, 0, budget;
    var next := Add64(Add64(origin.number, skip), 1);
    NoWrap(origin.number, skip);
    ghost var above := origin.number + skip + 1;
    if above in s.canon {
      CanonicalEntry(s.View(), above, origin.number);
      WalkCanonical(s.View(), above, skip + 1);
    }
    if next > origin.number {
      var nextHash := s.ReadCanonical(next);
      if nextHash != ZERO && s.GetHeader(nextHash, next).Some? {
        var expected, _, left := GetAncestor(s, nextHash, next, Add64(skip, 1), budget);
        rest := left;
        if expected == origin.hash {
          h, n := nextHash, next;
        }
      }
    }
  }

  method NextBelow(s: Store, origin: Header, skip: nat, budget: nat) returns (h: Hash, n: nat, rest: nat)
    requires s.Valid() && skip <= MAX_UINT64 && origin.hash in s.headers && s.headers[origin.hash] == origin
    ensures h != ZERO ==> skip < origin.number && n == origin.number - skip - 1
    ensures h != ZERO ==> Walk(s.headers, origin.hash, origin.number, skip + 1) == Some(h)
    ensures s.Canonical(origin) && skip < origin.number ==> h == s.ReadCanonical(n) != ZERO
    ensures skip < origin.number && Walk(s.headers, origin.hash, origin.number, skip + 1).Some? ==>
      if skip == 0 then h == origin.parent && rest == budget
      else Afforded(s.View(), origin.hash, origin.number, skip + 1, budget, h, rest)
  {
    hide Known;
    h, n, rest := ZERO, 0, budget;
    var ancestor := Add64(skip, 1);
    if s.Canonical(origin) && skip < origin.number {
      CanonicalEntry(s.View(), origin.number, origin.number - skip - 1);
    }
    if ancestor != 0 {
      h, n, rest := GetAncestor(s, origin.hash, origin.number, ancestor, budget);
    }
  }

  /** One step towards genesis: it goes to the ancestor, unless that lies below genesis, is not known, or more
      budget would be needed to reach the canonical chain. */
  ghost predicate Downwards(l: Ledger, origin: Header, skip: nat, budget: nat, h: Hash, n: nat, rest: nat) {
    var found := Walk(l.headers, origin.hash, origin.number, skip + 1);
    && (h != ZERO ==> skip < origin.number && n == origin.number - skip - 1 && found == Some(h))
    && (skip < origin.number && found.Some? ==>
          if skip == 0 then Some(h) == found && rest == budget
          else Afforded(l, origin.hash, origin.number, skip + 1, budget, h, rest))
  }

  /** The next origin of a query by hash, or the zero hash. */
  method NextByHash(s: Store, origin: Header, skip: nat, reverse: bool, budget: nat)
      returns (h: Hash, n: nat, rest: nat)
    requires s.Valid() && skip <= MAX_UINT64 && origin.hash in s.headers && s.headers[origin.hash] == origin
    ensures h in s.headers && s.headers[h].number == n ==> Apart(s.headers, skip, reverse, origin, s.headers[h])
    ensures s.Canonical(origin) ==>
      if h != ZERO then h == s.ReadCanonical(n)
      else if reverse then origin.number <= skip else s.ReadCanonical(origin.number + skip + 1) == ZERO
    ensures !reverse && !s.Canonical(origin) ==> h == ZERO
    ensures reverse ==> Downwards(s.View(), origin, skip, budget, h, n, rest)
  {
    hide Known;
    if reverse {
      h, n, rest := NextBelow(s, origin, skip, budget);
    } else {
      h, n, rest := NextAbove(s, origin, skip, budget);
    }
  }

  function Limit(amount: nat): int {
    if ToInt(amount) < MAX_HEADER_FETCH then ToInt(amount) else MAX_HEADER_FETCH
  }

  const MAX_NON_CANONICAL: nat := 100

  /** So many links below the origin, either all the way was off the canonical chain and has been paid for, or the
      canonical chain was met within the budget. */
  ghost predicate Bearing(l: Ledger, hash: Hash, number: nat, links: nat, h: Hash, n: nat, budget: nat) {
    && links <= number && n == number - links && Walk(l.headers, hash, number, links) == Some(h)
    && ((Aside(l, hash, number, links) && budget + links == MAX_NON_CANONICAL) ||
        exists k: nat :: k <= links && k <= MAX_NON_CANONICAL && MeetsAt(l, hash, number, k))
  }

  /** The way to that header has more than the budget of links off the canonical chain. */
  ghost predicate Exhausted(l: Ledger, hash: Hash, number: nat, links: nat) {
    MAX_NON_CANONICAL < links && Aside(l, hash, number, MAX_NON_CANONICAL + 1)
  }

  lemma NotExhausted(l: Ledger, hash: Hash, number: nat, links: nat, h: Hash, n: nat, budget: nat)
    requires Bearing(l, hash, number, links, h, n, budget)
    ensures !Exhausted(l, hash, number, links)
  {
  }

  /** Meeting the canonical chain can be seen from further down. */
  lemma MeetsBelow(l: Ledger, hash: Hash, number: nat, links: nat, h: Hash, i: nat)
    requires links <= number && Walk(l.headers, hash, number, links) == Some(h)
    ensures MeetsAt(l, hash, number, links + i) <==> MeetsAt(l, h, number - links, i)
  {
    WalkOn(l.headers, hash, number, links, i);
  }

  lemma AsideOn(l: Ledger, hash: Hash, number: nat, links: nat, h: Hash, k: nat)
    requires links <= number && Walk(l.headers, hash, number, links) == Some(h)
    requires Aside(l, hash, number, links) && Aside(l, h, number - links, k)
    ensures Aside(l, hash, number, links + k)
  {
    forall i: nat | i < links + k
      ensures !MeetsAt(l, hash, number, i)
    {
      if links <= i {
        MeetsBelow(l, hash, number, links, h, i - links);
      }
    }
  }

  lemma {:induction false} WalkNonZero(l: Ledger, h: Hash, n: nat, k: nat)
    requires Indexed(l) && h != ZERO && Walk(l.headers, h, n, k).Some?
    ensures Walk(l.headers, h, n, k).value != ZERO
    decreases k
  {
    if k > 0 {
      WalkNonZero(l, l.headers[h].parent, n - 1, k - 1);
    }
  }

  /** Below a canonical header all are canonical. */
  lemma MeetsOn(l: Ledger, hash: Hash, number: nat, k: nat, links: nat)
    requires Indexed(l) && MeetsAt(l, hash, number, k) && k <= links <= number
    ensures MeetsAt(l, hash, number, links)
  {
    WalkCanonical(l, number - k, links - k);
    WalkOn(l.headers, hash, number, k, links - k);
  }

  /** A step down keeps the account, or the budget is exhausted. */
  lemma BearingOn(l: Ledger, hash: Hash, number: nat, links: nat, origin: Header, skip: nat, budget: nat, h: Hash,
                  n: nat, rest: nat)
    requires Indexed(l) && Bearing(l, hash, number, links, origin.hash, origin.number, budget) && 0 < skip
    requires Downwards(l, origin, skip, budget, h, n, rest) && skip < origin.number
    requires origin.hash != ZERO && Walk(l.headers, origin.hash, origin.number, skip + 1).Some?
    ensures if h != ZERO then Bearing(l, hash, number, links + skip + 1, h, n, rest)
      else Exhausted(l, hash, number, links + skip + 1)
  {
    hide Indexed, Aside, MeetsAt;
    var k: nat :| Detour(l, origin.hash, origin.number, skip + 1, k) &&
      if k <= budget then Some(h) == Walk(l.headers, origin.hash, origin.number, skip + 1) && rest == budget - k
      else h == ZERO && rest == 0;
    MeetsBelow(l, hash, number, links, origin.hash, 0);
    MeetsBelow(l, hash, number, links, origin.hash, k);
    WalkOn(l.headers, hash, number, links, skip + 1);
    WalkNonZero(l, origin.hash, origin.number, skip + 1);
    if Aside(l, hash, number, links) && budget + links == MAX_NON_CANONICAL {
      AsideOn(l, hash, number, links, origin.hash, k);
      if k > budget {
        AsideLess(l, hash, number, links + k, MAX_NON_CANONICAL + 1);
      }
    } else {
      var j: nat :| j <= links && j <= MAX_NON_CANONICAL && MeetsAt(l, hash, number, j);
      MeetsOn(l, hash, number, j, links);
      AsideFirst(l, origin.hash, origin.number, k);
    }
  }

  lemma AsideLess(l: Ledger, hash: Hash, number: nat, j: nat, k: nat)
    requires Aside(l, hash, number, j) && k <= j
    ensures Aside(l, hash, number, k)
  {
  }

  lemma AsideFirst(l: Ledger, hash: Hash, number: nat, k: nat)
    requires Aside(l, hash, number, k) && MeetsAt(l, hash, number, 0)
    ensures k == 0
  {
  }

  /** The links from the origin to the header that comes after `m` of them. */
  function Links(m: nat, skip: nat): nat {
    m * (skip + 1)
  }

  /** The next header on the way down is not stored. */
  ghost predicate Unknown(hs: Headers, last: Header, skip: nat) {
    var next := Walk(hs, last.hash, last.number, skip + 1);
    next.None? || next.value !in hs || hs[next.value].number + skip + 1 != last.number
  }

  /** The account of a reply on its way down: where the next header is to be found, or why there is none. */
  ghost predicate Descent(l: Ledger, hash: Hash, reply: seq<Header>, skip: nat, h: Hash, n: nat, budget: nat)
    requires 0 < |reply|
  {
    var first, last := reply[0], reply[|reply| - 1];
    && (h == ZERO ==>
          || last.number <= skip || Unknown(l.headers, last, skip)
          || (0 < skip && Exhausted(l, hash, first.number, Links(|reply|, skip))))
    && (h != ZERO ==>
          && skip < last.number && n == last.number - skip - 1
          && Walk(l.headers, last.hash, last.number, skip + 1) == Some(h)
          && (0 < skip ==> Bearing(l, hash, first.number, Links(|reply|, skip), h, n, budget)))
    && (1 < |reply| && 0 < skip ==> !Exhausted(l, hash, first.number, Links(|reply| - 1, skip)))
  }

  lemma DescentEnds(l: Ledger, hash: Hash, reply: seq<Header>, skip: nat, h: Hash, n: nat, budget: nat)
    requires 0 < |reply| && Descent(l, hash, reply, skip, h, n, budget)
    ensures h == ZERO ==>
      || reply[|reply| - 1].number <= skip || Unknown(l.headers, reply[|reply| - 1], skip)
      || (0 < skip && Exhausted(l, hash, reply[0].number, Links(|reply|, skip)))
    ensures 1 < |reply| && 0 < skip ==> !Exhausted(l, hash, reply[0].number, Links(|reply| - 1, skip))
  {
  }

  lemma DescentBreaks(l: Ledger, hash: Hash, reply: seq<Header>, skip: nat, h: Hash, n: nat, budget: nat)
    requires 0 < |reply| && Descent(l, hash, reply, skip, h, n, budget) && h != ZERO
    requires h !in l.headers || l.headers[h].number != n
    ensures Unknown(l.headers, reply[|reply| - 1], skip)
  {
  }

  lemma DescentOn(l: Ledger, hash: Hash, reply: seq<Header>, origin: Header, skip: nat, at: Hash, above: nat,
                  spare: nat, h: Hash, n: nat, budget: nat)
    requires Indexed(l) && origin.hash == at != ZERO && origin.number == above
    requires if reply == [] then hash == at && spare == MAX_NON_CANONICAL
      else Descent(l, hash, reply, skip, at, above, spare)
    requires Downwards(l, origin, skip, spare, h, n, budget)
    ensures Descent(l, hash, reply + [origin], skip, h, n, budget)
  {
    hide Indexed, Exhausted, Bearing, Afforded;
    var reply', links := reply + [origin], Links(|reply|, skip);
    assert Links(|reply'|, skip) == links + skip + 1;
    var first := reply'[0].number;
    if 0 < skip {
      if reply == [] {
        BearingFirst(l, hash, first);
      }
      NotExhausted(l, hash, first, links, at, above, spare);
      if skip < origin.number && Walk(l.headers, at, above, skip + 1).Some? {
        BearingOn(l, hash, first, links, origin, skip, spare, h, n, budget);
      }
    } else if skip < origin.number && Walk(l.headers, at, above, 1).Some? {
      WalkNonZero(l, at, above, 1);
    }
  }

  lemma StoredKeyed(l: Ledger, h: Hash)
    requires Indexed(l) && h in l.headers
    ensures l.headers[h].hash == h != ZERO && (0 < l.headers[h].number ==> l.headers[h].parent != ZERO)
  {
  }

  lemma BearingFirst(l: Ledger, hash: Hash, number: nat)
    ensures Bearing(l, hash, number, 0, hash, number, MAX_NON_CANONICAL)
  {
  }

  /** The reply to a header query whose origin is a hash. */
  method HeadersByHash(s: Store, hash: Hash, amount: nat, skip: nat, reverse: bool) returns (reply: seq<Header>)
    requires s.Valid() && hash != ZERO && amount <= MAX_UINT64 && skip <= MAX_UINT64
    ensures |reply| == 0 || |reply| <= Limit(amount)
    ensures forall i :: 0 <= i < |reply| ==> reply[i].hash in s.headers && s.headers[reply[i].hash] == reply[i]
    ensures |reply| > 0 ==> reply[0].hash == hash
    ensures forall i :: 0 < i < |reply| ==> Apart(s.headers, skip, reverse, reply[i - 1], reply[i])
    ensures |reply| > 0 <==> hash in s.headers && ToInt(amount) > 0
    // A reply from a canonical origin is only cut short by genesis or by the head.
    ensures 0 < |reply| < Limit(amount) && s.Canonical(reply[0]) ==>
      var last := reply[|reply| - 1];
      if reverse then last.number <= skip else s.ReadCanonical(last.number + skip + 1) == ZERO
    // From any other origin there is nothing above, and on the way down it is only cut short by genesis, a header
    // that is not stored, or more than the budget of links off the canonical chain.
    ensures 0 < |reply| && !reverse && !s.Canonical(reply[0]) ==> |reply| == 1
    ensures 0 < |reply| < Limit(amount) && reverse ==>
      var last := reply[|reply| - 1];
      || last.number <= skip || Unknown(s.headers, last, skip)
      || (0 < skip && Exhausted(s.View(), hash, reply[0].number, Links(|reply|, skip)))
    ensures 1 < |reply| && reverse && 0 < skip ==>
      !Exhausted(s.View(), hash, reply[0].number, Links(|reply| - 1, skip))
  {
    hide Known, Apart, Exhausted, Unknown, Downwards, Descent, Links, Indexed;
    reply := [];
    var h, n, budget, bytes, unknown := hash, 0, MAX_NON_CANONICAL, 0, false;
    while !unknown && |reply| < ToInt(amount) && bytes < SOFT_RESPONSE_LIMIT && |reply| < MAX_HEADER_FETCH
      invariant |reply| == 0 || |reply| <= Limit(amount)
      invariant forall i :: 0 <= i < |reply| ==> reply[i].hash in s.headers && s.headers[reply[i].hash] == reply[i]
      invariant forall i :: 0 < i < |reply| ==> Apart(s.headers, skip, reverse, reply[i - 1], reply[i])
      invariant if |reply| == 0 then h == hash else reply[0].hash == hash
      invariant |reply| == 0 ==> !unknown && bytes == 0 && budget == MAX_NON_CANONICAL
      invariant bytes == |reply| * EST_HEADER_RLP_SIZE
      invariant |reply| > 0 && s.Canonical(reply[0]) ==>
        var last := reply[|reply| - 1];
        && s.Canonical(last) && (h != ZERO ==> h == s.ReadCanonical(n))
        && (h == ZERO ==> if reverse then last.number <= skip else s.ReadCanonical(last.number + skip + 1) == ZERO)
      invariant unknown <==> h == ZERO
      invariant |reply| > 0 && !reverse && !s.Canonical(reply[0]) ==> |reply| == 1 && h == ZERO
      invariant |reply| > 0 && reverse ==> Descent(s.View(), hash, reply, skip, h, n, budget)
      invariant |reply| > 0 && h in s.headers && s.headers[h].number == n ==>
        Apart(s.headers, skip, reverse, reply[|reply| - 1], s.headers[h])
      decreases MAX_HEADER_FETCH - |reply|
    {
      if |reply| == 0 && h in s.headers {
        n := s.headers[h].number;
      }
      var origin := s.GetHeader(h, n);
      if n in s.canon {
        CanonicalEntry(s.View(), n, n);
      }
      if origin.None? {
        if |reply| > 0 && reverse {
          DescentBreaks(s.View(), hash, reply, skip, h, n, budget);
        }
        break;
      }
      StoredKeyed(s.View(), h);
      ghost var before, spare := reply, budget;
      reply := reply + [origin.value];
      bytes := bytes + EST_HEADER_RLP_SIZE;
      ghost var at, above := h, n;
      h, n, budget := NextByHash(s, origin.value, skip, reverse, budget);
      if reverse {
        DescentOn(s.View(), hash, before, origin.value, skip, at, above, spare, h, n, budget);
      }
      unknown := h == ZERO;
    }
    if |reply| > 0 && reverse {
      DescentEnds(s.View(), hash, reply, skip, h, n, budget);
    }
  }
}
