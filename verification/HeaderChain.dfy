/** Canonical chain maintenance in header mode. */
module HeaderChain {
  import opened ChainTree

  /** Crash stands for the nil dereference in the loop that rewrites the number index. */
  datatype Status = NonStat | Canon | Side | Crash

  /** What the chain database and the head record say. */
  datatype Ledger = Ledger(genesis: Hash, headers: Headers, tds: map<Hash, nat>, canon: map<nat, Hash>, head: Hash)

  /** Stored difficulties are sums over ancestries. */
  ghost predicate Weighed(genesis: Hash, hs: Headers, tds: map<Hash, nat>) {
    tds.Keys == hs.Keys &&
    forall h :: h in hs && Rooted(hs, genesis, h) ==> tds[h] == TotalDifficulty(hs, genesis, h)
  }

  /** The number index is exactly the head's ancestry, and stored difficulties are sums over ancestries. */
  ghost predicate Indexed(l: Ledger) {
    && WellKeyed(l.headers) && Weighed(l.genesis, l.headers, l.tds)
    && Rooted(l.headers, l.genesis, l.head)
    && l.canon == IndexOf(Line(l.headers, l.genesis, l.head))
  }

  /** No stored header lacks an ancestor. */
  ghost predicate Closed(l: Ledger) {
    forall h :: h in l.headers ==> Rooted(l.headers, l.genesis, h)
  }

  /** No stored header is heavier than the head. */
  ghost predicate Heaviest(l: Ledger) {
    l.head in l.tds && forall h :: h in l.tds ==> l.tds[h] <= l.tds[l.head]
  }

  /** What the consensus engine has checked of a header that is handed to WriteHeader. */
  ghost predicate Admissible(l: Ledger, header: Header) {
    && header.hash != ZERO && 0 < header.number < MAX_UINT64
    && (header.hash in l.headers ==> l.headers[header.hash] == header)
    && (header.parent in l.headers ==> l.headers[header.parent].number + 1 == header.number)
  }

  /** `known` holds every header ever stored, those that a rewind has deleted too. All of them were rooted, and
      stored difficulties are sums over those ancestries. */
  ghost predicate Known(l: Ledger, known: Headers) {
    && WellKeyed(known) && Part(l.headers, known) && l.tds.Keys == l.headers.Keys
    && (forall h :: h in known ==> Rooted(known, l.genesis, h))
    && (forall h :: h in l.tds ==> l.tds[h] == TotalDifficulty(known, l.genesis, h))
  }

  ghost predicate Wins(l: Ledger, header: Header, coin: bool)
    requires header.parent in l.tds && l.head in l.tds
  {
    var td := l.tds[header.parent] + header.difficulty;
    td > l.tds[l.head] || (td == l.tds[l.head] && coin)
  }

  /** The header wins, but an ancestor of it has been deleted. */
  ghost predicate Crashes(l: Ledger, header: Header, coin: bool)
    requires Indexed(l)
  {
    header.parent in l.tds && Wins(l, header, coin) && !Rooted(l.headers, l.genesis, header.parent)
  }

  /** WriteHeader in one step: store it, and if it wins, make its ancestry canonical. */
  ghost function Written(l: Ledger, header: Header, coin: bool): Ledger
    requires Indexed(l) && Admissible(l, header) && !Crashes(l, header, coin)
  {
    if header.parent !in l.tds then l
    else
      var headers := l.headers[header.hash := header];
      var tds := l.tds[header.hash := l.tds[header.parent] + header.difficulty];
      if Wins(l, header, coin) then
        NewLine(l, header);
        l.(headers := headers, tds := tds, head := header.hash,
           canon := IndexOf(Line(headers, l.genesis, header.hash)))
      else l.(headers := headers, tds := tds)
  }

  /** The new header's ancestry is its parent's, extended by itself. */
  lemma NewLine(l: Ledger, header: Header)
    requires Indexed(l) && Admissible(l, header) && Rooted(l.headers, l.genesis, header.parent)
    ensures var hs := l.headers[header.hash := header];
      && Rooted(hs, l.genesis, header.hash)
      && Rooted(hs, l.genesis, header.parent)
      && Line(hs, l.genesis, header.hash) == Line(l.headers, l.genesis, header.parent) + [header.hash]
      && TotalDifficulty(hs, l.genesis, header.hash) == l.tds[header.parent] + header.difficulty
  {
    Extend(l.headers, l.headers[header.hash := header], l.genesis, header.parent);
  }

  /** Storing a header of known ancestry cannot make an orphan rooted, except by completing it; so the
      difficulties of all rooted headers stay right. */
  lemma {:induction false} DifficultyKept(l: Ledger, header: Header, h: Hash)
    requires Indexed(l) && Closed(l) && Admissible(l, header) && header.parent in l.tds
    requires h in l.headers[header.hash := header]
    ensures var hs := l.headers[header.hash := header];
      && Rooted(hs, l.genesis, h)
      && l.tds[header.hash := l.tds[header.parent] + header.difficulty][h] == TotalDifficulty(hs, l.genesis, h)
  {
    NewLine(l, header);
    if h != header.hash {
      Extend(l.headers, l.headers[header.hash := header], l.genesis, h);
    }
  }

  lemma WriteStores(l: Ledger, header: Header, hs: Headers, tds: map<Hash, nat>)
    requires Indexed(l) && Closed(l) && Admissible(l, header) && header.parent in l.tds
    requires hs == l.headers[header.hash := header]
    requires tds == l.tds[header.hash := l.tds[header.parent] + header.difficulty]
    ensures Weighed(l.genesis, hs, tds)
    ensures forall h :: h in hs ==> Rooted(hs, l.genesis, h)
  {
    forall h | h in hs
      ensures Rooted(hs, l.genesis, h) && tds[h] == TotalDifficulty(hs, l.genesis, h)
    {
      DifficultyKept(l, header, h);
    }
  }

  /** A stored difficulty is never rewritten to another value. */
  lemma SameDifficulty(l: Ledger, header: Header)
    requires Indexed(l) && Closed(l) && Admissible(l, header) && header.parent in l.tds && header.hash in l.tds
    ensures l.tds[header.hash] == l.tds[header.parent] + header.difficulty
  {
    NewLine(l, header);
    assert l.headers[header.hash := header] == l.headers;
  }

  /** In a weighed store every rooted header can be the head. */
  lemma HeadOn(l: Ledger, hs: Headers, tds: map<Hash, nat>, head: Hash)
    requires WellKeyed(hs) && Weighed(l.genesis, hs, tds) && Rooted(hs, l.genesis, head)
    ensures Indexed(l.(headers := hs, tds := tds, head := head, canon := IndexOf(Line(hs, l.genesis, head))))
  {
  }

  /** Every WriteHeader keeps the index exact and the store closed under ancestors. */
  lemma WriteKeepsIndex(l: Ledger, header: Header, coin: bool)
    requires Indexed(l) && Closed(l) && Admissible(l, header)
    ensures Indexed(Written(l, header, coin)) && Closed(Written(l, header, coin))
  {
    hide Line;
    if header.parent in l.tds {
      var hs, tds := l.headers[header.hash := header], l.tds[header.hash := l.tds[header.parent] + header.difficulty];
      WriteStores(l, header, hs, tds);
      NewLine(l, header);
      Extend(l.headers, hs, l.genesis, l.head);
      HeadOn(l, hs, tds, if Wins(l, header, coin) then header.hash else l.head);
    }
  }

  /** The head stays heaviest, and its total difficulty never decreases. */
  lemma WriteKeepsHeaviest(l: Ledger, header: Header, coin: bool)
    requires Indexed(l) && Closed(l) && Admissible(l, header)
    ensures var l' := Written(l, header, coin);
      && l'.head in l'.tds && l.tds[l.head] <= l'.tds[l'.head]
      && (Heaviest(l) ==> Heaviest(l'))
  {
    if header.parent in l.tds && header.hash in l.tds {
      SameDifficulty(l, header);
    }
  }

  /** A run of WriteHeader calls, each with its own coin. */
  ghost predicate AdmissibleRun(l: Ledger, run: seq<(Header, bool)>)
    decreases |run|
  {
    Indexed(l) && (run == [] || (
      && Admissible(l, run[0].0) && !Crashes(l, run[0].0, run[0].1)
      && AdmissibleRun(Written(l, run[0].0, run[0].1), run[1..])))
  }

  ghost function AfterRun(l: Ledger, run: seq<(Header, bool)>): Ledger
    requires AdmissibleRun(l, run)
    decreases |run|
  {
    if run == [] then l else AfterRun(Written(l, run[0].0, run[0].1), run[1..])
  }

  /** Over every run the canonical index is the ancestry of a heaviest header. */
  lemma {:induction false} RunKeeps(l: Ledger, run: seq<(Header, bool)>)
    requires Closed(l) && Heaviest(l) && AdmissibleRun(l, run)
    ensures var l' := AfterRun(l, run);
      && Indexed(l') && Closed(l') && Heaviest(l') && l.head in l.tds && l.tds[l.head] <= l'.tds[l'.head]
    decreases |run|
  {
    if run != [] {
      WriteKeepsIndex(l, run[0].0, run[0].1);
      WriteKeepsHeaviest(l, run[0].0, run[0].1);
      RunKeeps(Written(l, run[0].0, run[0].1), run[1..]);
    }
  }

  /** SetHead in one step: cut the head's ancestry after number `n`. */
  ghost function Rewound(l: Ledger, n: nat): Ledger
    requires Indexed(l)
  {
    var line := Line(l.headers, l.genesis, l.head);
    if n + 1 >= |line| then l
    else
      var gone := set i: nat | n < i < |line| :: line[i];
      l.(headers := l.headers - gone, tds := l.tds - gone, canon := IndexOf(line[..n + 1]), head := line[n])
  }

  /** The part of a line that stays is not touched by the cut. */
  lemma {:induction false} CutBelow(l: Ledger, n: nat, i: nat)
    requires Indexed(l) && i <= n <= l.headers[l.head].number
    ensures var l' := Rewound(l, n); var line := Line(l.headers, l.genesis, l.head);
      Rooted(l'.headers, l.genesis, line[i]) && Line(l'.headers, l.genesis, line[i]) == line[..i + 1]
    decreases i
  {
    var line := Line(l.headers, l.genesis, l.head);
    forall j | 0 <= j < |line|
      ensures line[j] in l.headers && l.headers[line[j]].number == j
    {
      LineLinks(l.headers, l.genesis, l.head, j);
    }
    LineLinks(l.headers, l.genesis, l.head, i);
    if n < l.headers[l.head].number {
      assert line[i] in Rewound(l, n).headers;
      if i > 0 {
        CutBelow(l, n, i - 1);
        assert line[..i] + [line[i]] == line[..i + 1];
      }
    }
  }

  /** SetHead leaves exactly the old index up to `n`, with the head at entry `n`. */
  lemma RewindKeeps(l: Ledger, n: nat)
    requires Indexed(l) && n <= l.headers[l.head].number
    ensures var l' := Rewound(l, n);
      && Indexed(l') && l'.headers[l'.head].number == n && l'.head == l.canon[n]
      && l'.canon == map i | i in l.canon && i <= n :: l.canon[i]
  {
    var l' := Rewound(l, n);
    var line := Line(l.headers, l.genesis, l.head);
    LineLinks(l.headers, l.genesis, l.head, n);
    CutBelow(l, n, n);
    assert line[..n + 1][n] == line[n];
    forall h | h in l'.headers && Rooted(l'.headers, l.genesis, h)
      ensures l'.tds[h] == TotalDifficulty(l'.headers, l.genesis, h)
    {
      Extend(l'.headers, l.headers, l.genesis, h);
    }
  }

  /** The header is on the canonical line above number `n`. */
  ghost predicate CutAt(l: Ledger, n: nat, h: Hash) {
    exists i: nat :: n < i && i in l.canon && l.canon[i] == h
  }

  /** After a rewind the head is heaviest if and only if no header off the part that is cut outweighs the
      entry it was rewound to. */
  lemma RewindHeaviest(l: Ledger, n: nat)
    requires Indexed(l) && n <= l.headers[l.head].number
    ensures n in l.canon && l.canon[n] in l.tds
    ensures Heaviest(Rewound(l, n)) <==> forall h :: h in l.tds && l.tds[h] > l.tds[l.canon[n]] ==> CutAt(l, n, h)
  {
    var l', line := Rewound(l, n), Line(l.headers, l.genesis, l.head);
    LineLinks(l.headers, l.genesis, l.head, n);
    RewindKeeps(l, n);
    forall h | h in l.tds
      ensures h in l'.tds <==> !CutAt(l, n, h)
    {
      if h !in l'.tds {
        var i: nat :| n < i < |line| && line[i] == h;
        assert i in l.canon && l.canon[i] == h;
      }
      if CutAt(l, n, h) {
        var i: nat :| n < i && i in l.canon && l.canon[i] == h;
        assert h == line[i];
      }
    }
  }

  /** A side header grows out of the canonical line above number `n`. */
  ghost predicate BranchesAbove(l: Ledger, n: nat, h: Hash, i: nat) {
    && h in l.headers && 0 < l.headers[h].number && n < i && i in l.canon && l.headers[h].parent == l.canon[i]
    && !(i + 1 in l.canon && l.canon[i + 1] == h)
  }

  /** SetHead may leave side headers without their parents: the store stays closed under ancestors if and
      only if no side header grows out of the part that is cut. */
  lemma RewindClosed(l: Ledger, n: nat)
    requires Indexed(l) && Closed(l)
    ensures Closed(Rewound(l, n)) <==> !exists h, i: nat :: BranchesAbove(l, n, h, i)
  {
    var l', line := Rewound(l, n), Line(l.headers, l.genesis, l.head);
    LineIsLine(l.headers, l.genesis, l.head);
    if h, i: nat :| BranchesAbove(l, n, h, i) {
      BranchStranded(l, n, h, i);
    } else {
      forall h | h in l'.headers && l.headers[h].number > 0
        ensures l.headers[h].parent in l'.headers
      {
        ParentStays(l, n, h);
      }
      forall h | h in l'.headers
        ensures Rooted(l'.headers, l.genesis, h)
      {
        SurvivorRooted(l, l'.headers, h);
      }
    }
  }

  lemma BranchStranded(l: Ledger, n: nat, h: Hash, i: nat)
    requires Indexed(l) && Closed(l) && BranchesAbove(l, n, h, i)
    ensures h in Rewound(l, n).headers && !Rooted(Rewound(l, n).headers, l.genesis, h)
  {
    hide Line, Weighed, Closed;
    var l', line := Rewound(l, n), Line(l.headers, l.genesis, l.head);
    if h !in l'.headers {
      var j: nat :| n < j < |line| && h == line[j];
      OnLine(l, h, j, i);
    }
  }

  /** A header on the canonical line follows its parent there. */
  lemma OnLine(l: Ledger, h: Hash, j: nat, i: nat)
    requires Indexed(l) && 0 < j < |Line(l.headers, l.genesis, l.head)| && h == Line(l.headers, l.genesis, l.head)[j]
    requires i in l.canon && h in l.headers && l.headers[h].parent == l.canon[i]
    ensures i + 1 in l.canon && l.canon[i + 1] == h
  {
    hide Line, Weighed, Rooted;
    LineLinks(l.headers, l.genesis, l.head, j);
    LineLinks(l.headers, l.genesis, l.head, j - 1);
    LineLinks(l.headers, l.genesis, l.head, i);
  }

  lemma ParentStays(l: Ledger, n: nat, h: Hash)
    requires Indexed(l) && Closed(l) && h in Rewound(l, n).headers && 0 < l.headers[h].number
    requires forall i: nat :: !BranchesAbove(l, n, h, i)
    ensures l.headers[h].parent in Rewound(l, n).headers
  {
    var l', line := Rewound(l, n), Line(l.headers, l.genesis, l.head);
    assert Rooted(l.headers, l.genesis, h);
    if l.headers[h].parent !in l'.headers {
      var i: nat :| n < i < |line| && l.headers[h].parent == line[i];
      assert BranchesAbove(l, n, h, i);
    }
  }

  /** Difficulties that are sums over all known headers are sums over the stored ones. */
  lemma KnownWeighed(l: Ledger, known: Headers)
    requires Known(l, known)
    ensures Weighed(l.genesis, l.headers, l.tds) && WellKeyed(l.headers)
  {
    forall h | h in l.headers && Rooted(l.headers, l.genesis, h)
      ensures l.tds[h] == TotalDifficulty(l.headers, l.genesis, h)
    {
      Extend(l.headers, known, l.genesis, h);
    }
  }

  lemma KnownMore(known: Headers, genesis: Hash, header: Header)
    requires WellKeyed(known) && (forall h :: h in known ==> Rooted(known, genesis, h))
    requires header.hash != ZERO && 0 < header.number < MAX_UINT64
    requires header.parent in known && known[header.parent].number + 1 == header.number
    requires header.hash in known ==> known[header.hash] == header
    ensures var known' := known[header.hash := header];
      && WellKeyed(known') && (forall h :: h in known' ==> Rooted(known', genesis, h))
      && (forall h :: h in known ==> TotalDifficulty(known', genesis, h) == TotalDifficulty(known, genesis, h))
      && TotalDifficulty(known', genesis, header.hash) ==
        TotalDifficulty(known, genesis, header.parent) + header.difficulty
  {
    var known' := known[header.hash := header];
    forall h | h in known
      ensures Rooted(known', genesis, h) && TotalDifficulty(known', genesis, h) == TotalDifficulty(known, genesis, h)
    {
      Extend(known, known', genesis, h);
    }
    assert Rooted(known', genesis, header.hash);
  }

  /** A header is stored, whether its ancestors are still there or not. */
  lemma StoredKnown(l: Ledger, known: Headers, header: Header)
    requires Known(l, known) && Admissible(l, header) && header.parent in l.tds
    requires header.hash in known ==> known[header.hash] == header
    ensures var tds := l.tds[header.hash := l.tds[header.parent] + header.difficulty];
      Known(l.(headers := l.headers[header.hash := header], tds := tds), known[header.hash := header])
  {
    hide TotalDifficulty, Rooted;
    KnownMore(known, l.genesis, header);
  }

  /** Every write that completes keeps the index exact, with orphans in the store or without. */
  lemma WriteKeepsKnown(l: Ledger, known: Headers, header: Header, coin: bool)
    requires Indexed(l) && Known(l, known) && Admissible(l, header) && !Crashes(l, header, coin)
    requires header.hash in known ==> known[header.hash] == header
    ensures Indexed(Written(l, header, coin)) && Known(Written(l, header, coin), Learned(l, known, header))
  {
    hide Line, TotalDifficulty, Known;
    var l' := Written(l, header, coin);
    if header.parent in l.tds {
      StoredKnown(l, known, header);
      OnlyStore(l.(headers := l'.headers, tds := l'.tds), l', known[header.hash := header]);
      KnownWeighed(l', known[header.hash := header]);
      Extend(l.headers, l'.headers, l.genesis, l.head);
      if Wins(l, header, coin) {
        NewLine(l, header);
      }
      HeadOn(l, l'.headers, l'.tds, l'.head);
    }
  }

  lemma OnlyStore(l: Ledger, l': Ledger, known: Headers)
    requires Known(l, known) && l'.genesis == l.genesis && l'.headers == l.headers && l'.tds == l.tds
    ensures Known(l', known)
  {
  }

  /** Between rewinds the head's difficulty never decreases. */
  lemma WriteRaises(l: Ledger, known: Headers, header: Header, coin: bool)
    requires Indexed(l) && Known(l, known) && Admissible(l, header) && !Crashes(l, header, coin)
    requires header.hash in known ==> known[header.hash] == header
    ensures var l' := Written(l, header, coin); l'.head in l'.tds && l.tds[l.head] <= l'.tds[l'.head]
  {
    hide Line, TotalDifficulty, Known;
    if header.parent in l.tds {
      KnownDifficulty(l, known, header);
    }
  }

  /** A stored difficulty is never rewritten to another value. */
  lemma KnownDifficulty(l: Ledger, known: Headers, header: Header)
    requires Known(l, known) && Admissible(l, header) && header.parent in l.tds
    requires header.hash in known ==> known[header.hash] == header
    ensures header.hash in l.tds ==> l.tds[header.hash] == l.tds[header.parent] + header.difficulty
  {
    if header.hash in l.tds {
      assert known[header.hash] == header && Rooted(known, l.genesis, header.hash);
    }
  }

  ghost function Learned(l: Ledger, known: Headers, header: Header): Headers {
    if header.parent in l.tds then known[header.hash := header] else known
  }

  lemma RewindKeepsKnown(l: Ledger, known: Headers, n: nat)
    requires Indexed(l) && Known(l, known)
    ensures Indexed(Rewound(l, n)) && Known(Rewound(l, n), known)
  {
    if n <= l.headers[l.head].number {
      RewindKeeps(l, n);
    }
  }

  /** What is done to the header chain. */
  datatype Step = Write(header: Header, coin: bool) | Rewind(n: nat)

  ghost predicate Fits(l: Ledger, known: Headers, step: Step) {
    match step
    case Write(header, coin) => Admissible(l, header) && (header.hash in known ==> known[header.hash] == header)
    case Rewind(n) => true
  }

  ghost predicate Stops(l: Ledger, step: Step)
    requires Indexed(l)
  {
    step.Write? && Crashes(l, step.header, step.coin)
  }

  ghost function After(l: Ledger, step: Step): Ledger
    requires Indexed(l) && !Stops(l, step) && (step.Write? ==> Admissible(l, step.header))
  {
    match step
    case Write(header, coin) => Written(l, header, coin)
    case Rewind(n) => Rewound(l, n)
  }

  ghost function Recorded(l: Ledger, known: Headers, step: Step): Headers {
    if step.Write? then Learned(l, known, step.header) else known
  }

  /** A run of writes and rewinds in which no write crashes. */
  ghost predicate Possible(l: Ledger, known: Headers, run: seq<Step>)
    decreases |run|
  {
    Indexed(l) && (run == [] || (
      && Fits(l, known, run[0]) && !Stops(l, run[0])
      && Possible(After(l, run[0]), Recorded(l, known, run[0]), run[1..])))
  }

  ghost function Outcome(l: Ledger, known: Headers, run: seq<Step>): (Ledger, Headers)
    requires Possible(l, known, run)
    decreases |run|
  {
    if run == [] then (l, known) else Outcome(After(l, run[0]), Recorded(l, known, run[0]), run[1..])
  }

  /** One step of a run keeps it all. */
  lemma StepKeeps(l: Ledger, known: Headers, step: Step)
    requires Indexed(l) && Known(l, known) && Fits(l, known, step) && !Stops(l, step)
    ensures Indexed(After(l, step)) && Known(After(l, step), Recorded(l, known, step))
    ensures Part(known, Recorded(l, known, step))
  {
    hide Line, TotalDifficulty, Indexed, Known;
    match step {
      case Write(header, coin) => WriteKeepsKnown(l, known, header, coin);
      case Rewind(n) => RewindKeepsKnown(l, known, n);
    }
  }

  /** Over every run of writes and rewinds the index is the ancestry of the head, and the difficulty of every
      stored header, an orphan's too, is the sum over the ancestry it once had. */
  lemma {:induction false} MixedRunKeeps(l: Ledger, known: Headers, run: seq<Step>)
    requires Indexed(l) && Known(l, known) && Possible(l, known, run)
    ensures var (l', known') := Outcome(l, known, run); Indexed(l') && Known(l', known') && Part(known, known')
    decreases |run|
  {
    hide Line, TotalDifficulty, Indexed, Known;
    if run != [] {
      StepKeeps(l, known, run[0]);
      MixedRunKeeps(After(l, run[0]), Recorded(l, known, run[0]), run[1..]);
    }
  }

  /** Two headers on genesis, and a side header beside the second. */
  function Forked(): Headers {
    map[1 := Header(1, 0, 0, 1), 2 := Header(2, 1, 1, 1), 3 := Header(3, 2, 2, 1), 4 := Header(4, 2, 2, 1)]
  }

  ghost function ForkedLedger(): Ledger {
    Ledger(1, Forked(), map[1 := 1, 2 := 2, 3 := 3, 4 := 3], IndexOf([1, 2, 3]), 3)
  }

  lemma ForkedLines()
    ensures var hs := Forked();
      && Rooted(hs, 1, 1) && Rooted(hs, 1, 2) && Rooted(hs, 1, 3) && Rooted(hs, 1, 4)
      && Line(hs, 1, 3) == [1, 2, 3]
      && TotalDifficulty(hs, 1, 1) == 1 && TotalDifficulty(hs, 1, 2) == 2
      && TotalDifficulty(hs, 1, 3) == 3 && TotalDifficulty(hs, 1, 4) == 3
  {
    var hs := Forked();
    assert Rooted(hs, 1, 1) && Rooted(hs, 1, 2);
    assert Line(hs, 1, 2) == [1, 2] && TotalDifficulty(hs, 1, 2) == 2;
  }

  lemma ForkedIndexed()
    ensures Indexed(ForkedLedger()) && Closed(ForkedLedger())
  {
    hide Rooted, Line, TotalDifficulty;
    ForkedLines();
  }

  /** It happens: rewinding it to genesis leaves the side header without its parent. */
  lemma RewindStrands()
    ensures Indexed(ForkedLedger()) && Closed(ForkedLedger()) && !Closed(Rewound(ForkedLedger(), 0))
  {
    hide Rooted, Line, TotalDifficulty, Indexed, Closed;
    ForkedIndexed();
    RewindClosed(ForkedLedger(), 0);
    assert BranchesAbove(ForkedLedger(), 0, 4, 1);
  }

  /** And a header on top of that one, if it wins, runs into the missing parent. */
  lemma RewindThenCrash()
    ensures var l := Rewound(ForkedLedger(), 0); var header := Header(5, 4, 3, 10);
      Indexed(l) && Admissible(l, header) && Crashes(l, header, false)
  {
    hide Rooted, Line, TotalDifficulty, Weighed;
    ForkedIndexed();
    assert BranchesAbove(ForkedLedger(), 0, 4, 1);
    ForkedLines();
    RewindKeeps(ForkedLedger(), 0);
    BranchStranded(ForkedLedger(), 0, 4, 1);
  }

  lemma {:induction false} SurvivorRooted(l: Ledger, hs: Headers, h: Hash)
    requires Closed(l) && h in hs && (forall k :: k in hs ==> k in l.headers && hs[k] == l.headers[k])
    requires forall k :: k in hs && hs[k].number > 0 ==> hs[k].parent in hs
    ensures Rooted(hs, l.genesis, h)
    decreases hs[h].number
  {
    assert Rooted(l.headers, l.genesis, h);
    if hs[h].number > 0 {
      SurvivorRooted(l, hs, hs[h].parent);
    }
  }
}
