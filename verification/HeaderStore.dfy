/** The header chain as the code keeps it: tables updated in place, loop by loop. */
module HeaderStore {
  import opened ChainTree
  import opened HeaderChain

  /** Entry `k` of the line is not stored, and those above are. */
  ghost predicate LastMissing(hs: Headers, line: seq<Hash>, k: nat) {
    k < |line| && line[k] !in hs && forall i: nat :: k < i < |line| ==> line[i] in hs
  }

  /** The number index of `stale`, overwritten with the line from its end down to number `k`. */
  ghost function TornIndex(stale: seq<Hash>, line: seq<Hash>, k: nat): map<nat, Hash> {
    map i: nat | i <= |line| && (k <= i < |line| || i < |stale|) :: if k <= i < |line| then line[i] else stale[i]
  }

  /** The number index that a crash leaves behind, for a restart to find: rewritten down to the first header that
      is missing. */
  ghost predicate Torn(hs: Headers, canon: map<nat, Hash>, stale: seq<Hash>, line: seq<Hash>) {
    exists k: nat :: LastMissing(hs, line, k) && canon == TornIndex(stale, line, k)
  }

  /** It names a header that is not stored, so it is never right for the head, which is still the old one. The
      ancestry of the head is still in it if and only if a header is missing above the number of the head. */
  lemma TornIndexes(hs: Headers, canon: map<nat, Hash>, stale: seq<Hash>, line: seq<Hash>)
    requires Torn(hs, canon, stale, line) && Stored(hs, stale)
    ensures canon != IndexOf(stale) && exists i :: i in canon && canon[i] !in hs
    ensures (forall i: nat :: i < |stale| ==> i in canon && canon[i] == stale[i]) <==>
      exists i: nat :: |stale| <= i < |line| && line[i] !in hs
  {
    var k: nat :| LastMissing(hs, line, k) && canon == TornIndex(stale, line, k);
    assert k in canon && canon[k] == line[k];
    if k < |stale| {
      assert stale[k] in hs && IndexOf(stale)[k] == stale[k];
    } else {
      assert k !in IndexOf(stale);
    }
  }

  lemma NotTorn(canon: map<nat, Hash>, stale: seq<Hash>, line: seq<Hash>)
    requires canon == map i | i in IndexOf(stale) && i <= |line| :: stale[i]
    ensures canon == TornIndex(stale, line, |line|)
  {
  }

  lemma TornDown(stale: seq<Hash>, line: seq<Hash>, k: nat)
    requires k < |line|
    ensures TornIndex(stale, line, k + 1)[k := line[k]] == TornIndex(stale, line, k)
    ensures k < |stale| ==> k in TornIndex(stale, line, k + 1) && TornIndex(stale, line, k + 1)[k] == stale[k]
  {
  }

  lemma TornAt(hs: Headers, canon: map<nat, Hash>, stale: seq<Hash>, line: seq<Hash>, k: nat)
    requires k < |line| && line[k] !in hs && (forall i: nat :: k < i < |line| ==> line[i] in hs)
    requires canon == TornIndex(stale, line, k)
    ensures Torn(hs, canon, stale, line) && !Stored(hs, line)
  {
    assert LastMissing(hs, line, k);
  }

  /** A line that is found again below is found down to genesis. */
  lemma Mended(known: Headers, canon: map<nat, Hash>, stale: seq<Hash>, line: seq<Hash>, k: nat)
    requires IsLine(known, stale) && IsLine(known, line) && k < |line|
    requires canon == TornIndex(stale, line, k + 1) && k in canon && canon[k] == line[k]
    ensures forall i: nat :: i < |line| ==> i in canon && canon[i] == line[i]
    ensures forall i: nat :: i <= k ==> i < |stale| && stale[i] == line[i]
    ensures forall i :: i in canon ==> i <= |line|
  {
    LinesMeet(known, stale, line, k);
    assert forall i: nat :: i <= k ==> stale[..k + 1][i] == stale[i] && line[..k + 1][i] == line[i];
  }

  class Store {
    const genesis: Hash
    var headers: Headers
    var tds: map<Hash, nat>
    var canon: map<nat, Hash>
    var current: Header
    /** Every header ever stored. */
    ghost var known: Headers

    ghost function View(): Ledger
      reads this
    {
      Ledger(genesis, headers, tds, canon, current.hash)
    }

    ghost predicate Valid()
      reads this
    {
      Indexed(View()) && Known(View(), known) && headers[current.hash] == current
    }

    /** rawdb.ReadCanonicalHash: the zero hash stands for a missing entry. */
    function ReadCanonical(n: nat): Hash
      reads this
    {
      if n in canon then canon[n] else ZERO
    }

    predicate Canonical(header: Header)
      reads this
    {
      ReadCanonical(header.number) == header.hash
    }

    function GetHeader(h: Hash, n: nat): Option<Header>
      reads this
    {
      if h in headers && headers[h].number == n then Some(headers[h]) else None
    }

    constructor (header: Header)
      requires KeyedBy(header.hash, header) && header.number == 0
      ensures Valid() && Closed(View()) && Heaviest(View()) && current == header
      ensures known == headers == map[header.hash := header] && genesis == header.hash
      ensures tds == map[header.hash := header.difficulty]
    {
      genesis := header.hash;
      headers := map[header.hash := header];
      tds := map[header.hash := header.difficulty];
      canon := map[0 := header.hash];
      current := header;
      known := map[header.hash := header];
    }

    /** WriteHeader: the two loops turn the number index into the new head's ancestry. They run into a missing
        header exactly if the new one wins and an ancestor of it was deleted. */
    method WriteHeader(header: Header, coin: bool) returns (status: Status)
      requires Valid() && Fits(View(), known, Write(header, coin))
      modifies this
      ensures known == Learned(old(View()), old(known), header)
      ensures status == if header.parent !in old(tds) then NonStat
                        else if Crashes(old(View()), header, coin) then Crash
                        else if Wins(old(View()), header, coin) then Canon else Side
      ensures header.parent in old(tds) && old(current).hash in old(tds) ==>
        var td, top := old(tds)[header.parent] + header.difficulty, old(tds)[old(current).hash];
        && (td < top ==> status == Side) && (td > top ==> status == Canon || status == Crash)
        && (td == top ==> if coin then status == Canon || status == Crash else status == Side)
      ensures status != Crash ==> Valid() && View() == Written(old(View()), header, coin)
      ensures status == Crash ==>
        && headers == old(headers)[header.hash := header] && current == old(current)
        && tds == old(tds)[header.hash := old(tds)[header.parent] + header.difficulty]
        && Torn(headers, canon, Line(old(headers), genesis, old(current).hash),
                Line(old(known), genesis, header.parent))
    {
      hide Line, Indexed, Known, Rooted;
      ghost var before, all := View(), known;
      LedgerHolds(before, known);
      if header.parent !in tds {
        return NonStat;
      }
      var localTd := tds[current.hash];
      var externTd := tds[header.parent] + header.difficulty;
      tds := tds[header.hash := externTd];
      headers := headers[header.hash := header];
      known := known[header.hash := header];
      TwoLines(before, all, header);
      if externTd > localTd || (externTd == localTd && coin) {
        var ok := MakeCanonical(header, Line(before.headers, genesis, before.head), Line(all, genesis, header.parent));
        if !ok {
          return Crash;
        }
        status := Canon;
      } else {
        status := Side;
      }
      WriteKeepsKnown(before, all, header, coin);
    }

    /** Turn the number index of the line `stale` into that of `line` extended by the header, unless some header of
        that line is missing. */
    method MakeCanonical(header: Header, ghost stale: seq<Hash>, ghost line: seq<Hash>) returns (ok: bool)
      requires Part(headers, known) && IsLine(known, stale) && IsLine(known, line) && stale[0] == line[0]
      requires ZERO !in line && ZERO !in stale && Stored(headers, stale)
      requires header.number == |line| && header.parent == line[|line| - 1]
      requires canon == IndexOf(stale)
      modifies `canon, `current
      ensures ok <==> Stored(headers, line)
      ensures ok ==> canon == IndexOf(line + [header.hash]) && current == header
      ensures !ok ==> current == old(current) && Torn(headers, canon, stale, line)
    {
      DeleteAbove(header.number, |stale|);
      ok := RewriteBelow(header, stale, line);
      if !ok {
        return;
      }
      canon := canon[header.number := header.hash];
      current := header;
    }

    /** Delete the canonical numbers after `number`, up to the first gap, in one batch. */
    method DeleteAbove(number: nat, ghost top: nat)
      requires forall i: nat :: (i in canon <==> i < top) && (i in canon ==> canon[i] != ZERO)
      modifies `canon
      ensures canon == map i | i in old(canon) && i <= number :: old(canon)[i]
    {
      var batch: set<nat> := {};
      var i := number + 1;
      while ReadCanonical(i) != ZERO
        invariant number < i && canon == old(canon)
        invariant batch == set k | k in canon && number < k < i
        invariant forall k :: number < k < i ==> k in canon
        decreases top - i
      {
        batch := batch + {i};
        i := i + 1;
      }
      canon := canon - batch;
    }

    /** Overwrite stale entries from the parent downwards until the index already agrees. */
    method RewriteBelow(header: Header, ghost stale: seq<Hash>, ghost line: seq<Hash>) returns (ok: bool)
      requires Part(headers, known) && IsLine(known, stale) && IsLine(known, line) && stale[0] == line[0]
      requires ZERO !in line && Stored(headers, stale)
      requires header.number == |line| && header.parent == line[|line| - 1]
      requires canon == map i | i in IndexOf(stale) && i <= header.number :: stale[i]
      modifies `canon
      ensures ok <==> Stored(headers, line)
      ensures ok ==> forall i: nat :: i < |line| ==> i in canon && canon[i] == line[i]
      ensures ok ==> forall i :: i in canon ==> i <= header.number
      ensures !ok ==> Torn(headers, canon, stale, line)
    {
      hide TornIndex, Torn;
      var headHash, headNumber := header.parent, header.number - 1;
      NotTorn(canon, stale, line);
      while ReadCanonical(headNumber) != headHash
        invariant 0 <= headNumber < |line| && headHash == line[headNumber]
        invariant canon == TornIndex(stale, line, headNumber + 1)
        invariant forall i: nat :: headNumber < i < |line| ==> line[i] in headers
        decreases headNumber
      {
        assert Entry(known, line, headNumber);
        TornDown(stale, line, headNumber);
        canon := canon[headNumber := headHash];
        var headHeader := GetHeader(headHash, headNumber);
        if headHeader.None? {
          TornAt(headers, canon, stale, line, headNumber);
          return false;
        }
        headHash := headHeader.value.parent;
        headNumber := headHeader.value.number - 1;
      }
      ok := true;
      Mended(known, canon, stale, line, headNumber);
    }

    /** SetHead: delete the headers above `head` one by one, then their numbers, in one batch. */
    method SetHead(head: nat)
      requires Valid()
      modifies this
      ensures Valid() && View() == Rewound(old(View()), head) && known == old(known)
    {
      hide Line, Rooted, Known, Weighed, TotalDifficulty, Rewound;
      LedgerHolds(View(), known);
      RewindKeepsKnown(View(), known, head);
      RewoundIs(View(), head);
      ghost var line := Line(headers, genesis, current.hash);
      LineIsLine(headers, genesis, current.hash);
      var height := current.number;
      var batch := PopHeaders(head, line);
      headers := headers - batch;
      tds := tds - batch;
      DeleteNumbers(height, head);
    }

    /** Step the head back to number `head`, collecting the hashes to delete. */
    method PopHeaders(head: nat, ghost line: seq<Hash>) returns (batch: set<Hash>)
      requires WellKeyed(headers) && IsLine(headers, line)
      requires current.hash == line[|line| - 1] && current.hash in headers
      requires headers[current.hash] == current
      modifies `current
      ensures batch == set i: nat | head < i < |line| :: line[i]
      ensures current.hash == line[if head < |line| then head else |line| - 1]
      ensures current.hash in headers && headers[current.hash] == current && current.hash !in batch
    {
      batch := {};
      assert Entry(headers, line, |line| - 1);
      while current.number > head
        invariant current.number < |line| && current.hash == line[current.number]
        invariant current.hash in headers && headers[current.hash] == current
        invariant batch == set i: nat | current.number < i < |line| :: line[i]
        invariant current.number < |line| - 1 ==> head <= current.number
        decreases current.number
      {
        assert Entry(headers, line, current.number);
        assert Entry(headers, line, current.number - 1);
        batch := batch + {current.hash};
        var parent := GetHeader(current.parent, current.number - 1);
        current := parent.value;
      }
      forall i: nat | i < |line|
        ensures line[i] in headers && headers[line[i]].number == i
      {
        assert Entry(headers, line, i);
      }
    }

    method DeleteNumbers(height: nat, head: nat)
      modifies `canon
      ensures canon == map i | i in old(canon) && (i <= head || height < i) :: old(canon)[i]
    {
      var i := height;
      while i > head
        invariant i <= height
        invariant canon == map k | k in old(canon) && (k <= head || k <= i || height < k) :: old(canon)[k]
      {
        canon := canon - {i};
        i := i - 1;
      }
    }
  }

  /** A rewind in the terms of its loops. */
  lemma RewoundIs(l: Ledger, n: nat)
    requires Indexed(l)
    ensures var line, height := Line(l.headers, l.genesis, l.head), l.headers[l.head].number;
      var gone := set i: nat | n < i < |line| :: line[i];
      Rewound(l, n) ==
      l.(headers := l.headers - gone, tds := l.tds - gone, head := line[if n < |line| then n else |line| - 1],
         canon := map i | i in l.canon && (i <= n || height < i) :: l.canon[i])
  {
    hide Rooted, Weighed;
    var line := Line(l.headers, l.genesis, l.head);
    var gone := set i: nat | n < i < |line| :: line[i];
    LineLinks(l.headers, l.genesis, l.head, 0);
    if n + 1 >= |line| {
      assert gone == {};
      assert l.headers - {} == l.headers && l.tds - {} == l.tds;
      assert (map i | i in l.canon && (i <= n || |line| - 1 < i) :: l.canon[i]) == l.canon;
    }
  }

  lemma NoZero(hs: Headers, line: seq<Hash>)
    requires WellKeyed(hs) && IsLine(hs, line)
    ensures ZERO !in line
  {
    forall i: nat | i < |line|
      ensures line[i] != ZERO
    {
      assert Entry(hs, line, i);
    }
  }

  lemma LedgerHolds(l: Ledger, known: Headers)
    requires Indexed(l) && Known(l, known)
    ensures l.head in l.headers && l.head in l.tds && l.tds.Keys == l.headers.Keys && Part(l.headers, known)
    ensures Rooted(l.headers, l.genesis, l.head)
    ensures forall h :: h in known ==> Rooted(known, l.genesis, h)
  {
  }

  lemma LineOfMore(hs: Headers, hs': Headers, line: seq<Hash>)
    requires Part(hs, hs') && IsLine(hs, line)
    ensures IsLine(hs', line)
  {
    forall i: nat | i < |line|
      ensures Entry(hs', line, i)
    {
      assert Entry(hs, line, i);
    }
  }

  /** The old head's ancestry, in the store of all known headers. */
  lemma OldLine(l: Ledger, known: Headers)
    requires Indexed(l) && Known(l, known)
    ensures var stale := Line(l.headers, l.genesis, l.head);
      && IsLine(known, stale) && stale[0] == l.genesis && ZERO !in stale && Stored(l.headers, stale)
      && l.canon == IndexOf(stale)
  {
    LineIsLine(l.headers, l.genesis, l.head);
    var stale := Line(l.headers, l.genesis, l.head);
    forall i: nat | i < |stale|
      ensures stale[i] in l.headers
    {
      assert Entry(l.headers, stale, i);
    }
    LineOfMore(l.headers, known, stale);
    NoZero(known, stale);
  }

  /** The new header is not among its own ancestors. */
  lemma NotItself(known: Headers, header: Header, line: seq<Hash>)
    requires IsLine(known, line) && |line| <= header.number && (header.hash in known ==> known[header.hash] == header)
    ensures header.hash !in line
  {
    forall i: nat | i < |line|
      ensures line[i] != header.hash
    {
      assert Entry(known, line, i);
    }
  }

  /** The old head's ancestry and the new head's, in the store of all known headers. */
  lemma TwoLines(l: Ledger, known: Headers, header: Header)
    requires Indexed(l) && Known(l, known) && Fits(l, known, Write(header, true)) && header.parent in l.tds
    ensures var all := known[header.hash := header]; var hs := l.headers[header.hash := header];
      var stale, line := Line(l.headers, l.genesis, l.head), Line(known, l.genesis, header.parent);
      && Part(hs, all) && IsLine(all, stale) && IsLine(all, line) && stale[0] == line[0]
      && ZERO !in line && ZERO !in stale && Stored(hs, stale) && l.canon == IndexOf(stale)
      && header.number == |line| && header.parent == line[|line| - 1]
      && (Stored(hs, line) <==> Rooted(l.headers, l.genesis, header.parent))
    ensures Rooted(l.headers, l.genesis, header.parent) ==>
      var hs := l.headers[header.hash := header];
      && Rooted(hs, l.genesis, header.hash)
      && Line(hs, l.genesis, header.hash) == Line(known, l.genesis, header.parent) + [header.hash]
  {
    hide Line, Rooted, Weighed, TotalDifficulty;
    var all, hs := known[header.hash := header], l.headers[header.hash := header];
    var line := Line(known, l.genesis, header.parent);
    OldLine(l, known);
    LineOfMore(known, all, Line(l.headers, l.genesis, l.head));
    LineIsLine(known, l.genesis, header.parent);
    LineOfMore(known, all, line);
    NoZero(known, line);
    NotItself(known, header, line);
    RootedIn(l.headers, known, l.genesis, header.parent);
    assert Stored(hs, line) <==> Stored(l.headers, line);
    if Rooted(l.headers, l.genesis, header.parent) {
      NewLine(l, header);
      Extend(l.headers, known, l.genesis, header.parent);
    }
  }

  lemma Grown(l: Ledger, header: Header, coin: bool, l': Ledger)
    requires Indexed(l) && Admissible(l, header) && !Crashes(l, header, coin) && header.parent in l.tds
    requires l'.genesis == l.genesis && l'.headers == l.headers[header.hash := header]
    requires l'.tds == l.tds[header.hash := l.tds[header.parent] + header.difficulty]
    requires if Wins(l, header, coin) then
      l'.head == header.hash && l'.canon == IndexOf(Line(l.headers, l.genesis, header.parent) + [header.hash])
      else l'.head == l.head && l'.canon == l.canon
    ensures Written(l, header, coin) == l'
  {
    if Wins(l, header, coin) {
      NewLine(l, header);
    }
  }

  /** Two headers on genesis, and a side header beside the second. */
  method Forks() returns (s: Store)
    ensures fresh(s) && s.Valid() && s.View() == ForkedLedger() && s.known == Forked()
  {
    hide Indexed, Known, Written, TotalDifficulty;
    s := new Store(Header(1, 0, 0, 1));
    Grown(s.View(), Header(2, 1, 1, 1), false,
          Ledger(1, map[1 := Header(1, 0, 0, 1), 2 := Header(2, 1, 1, 1)], map[1 := 1, 2 := 2], IndexOf([1, 2]), 2));
    var first := s.WriteHeader(Header(2, 1, 1, 1), false);
    Grown(s.View(), Header(3, 2, 2, 1), false,
          Ledger(1, Forked() - {4}, map[1 := 1, 2 := 2, 3 := 3], IndexOf([1, 2, 3]), 3));
    var second := s.WriteHeader(Header(3, 2, 2, 1), false);
    Grown(s.View(), Header(4, 2, 2, 1), false, ForkedLedger());
    var third := s.WriteHeader(Header(4, 2, 2, 1), false);
  }

  lemma CutForked()
    ensures var gone := set i: nat | 0 < i < |[1, 2, 3]| :: [1, 2, 3][i];
      && Forked() - gone == map[1 := Header(1, 0, 0, 1), 4 := Header(4, 2, 2, 1)]
      && ForkedLedger().tds - gone == map[1 := 1, 4 := 3]
  {
    assert [1, 2, 3][1] == 2 && [1, 2, 3][2] == 3;
  }

  /** A rewind to genesis, and a new header there. */
  method Regrown() returns (s: Store)
    ensures fresh(s) && s.Valid() && s.genesis == 1 && s.known == Forked()[6 := Header(6, 1, 1, 1)]
    ensures s.headers == map[1 := Header(1, 0, 0, 1), 4 := Header(4, 2, 2, 1), 6 := Header(6, 1, 1, 1)]
    ensures s.tds == map[1 := 1, 4 := 3, 6 := 2] && s.current == Header(6, 1, 1, 1)
  {
    hide Indexed, Known, Written, TotalDifficulty, Rewound;
    s := Forks();
    ForkedLines();
    RewoundIs(s.View(), 0);
    s.SetHead(0);
    CutForked();
    Grown(s.View(), Header(6, 1, 1, 1), false,
          Ledger(1, s.headers[6 := Header(6, 1, 1, 1)], s.tds[6 := 2], IndexOf([1, 6]), 6));
    var status := s.WriteHeader(Header(6, 1, 1, 1), false);
  }

  lemma TornHere(hs: Headers, canon: map<nat, Hash>)
    requires Torn(hs, canon, [1, 6], [1, 2, 4]) && 4 in hs && 2 !in hs
    ensures 1 in canon && canon[1] == 2
  {
    var k: nat :| LastMissing(hs, [1, 2, 4], k) && canon == TornIndex([1, 6], [1, 2, 4], k);
    assert [1, 2, 4][1] == 2 && [1, 2, 4][2] == 4;
  }

  /** A heavy header on the side header: the write crashes, and the index names a deleted header at the number of
      the head. */
  method CrashTears() returns (s: Store, status: Status)
    ensures status == Crash && s.current == Header(6, 1, 1, 1)
    ensures 1 in s.canon && s.canon[1] == 2 && 2 !in s.headers
  {
    hide Indexed, Known, Written, TotalDifficulty, Torn;
    s := Regrown();
    assert Line(s.headers, 1, 6) == [1, 6];
    ForkedLines();
    Extend(Forked(), s.known, 1, 2);
    assert Line(s.known, 1, 4) == [1, 2, 4];
    status := s.WriteHeader(Header(5, 4, 3, 10), false);
    TornHere(s.headers, s.canon);
  }
}
