/** Whether the stored sections are canonical. A section is read with the lock released, and a reorganisation
    notice that arrives meanwhile only counts if it reaches below the section. */
module IndexerCanon {
  import opened ChainIndexer

  /** The last number of a section. */
  function End(section: nat, size: nat): int {
    (section + 1) * size - 1
  }

  ghost predicate OnChain(b: Book, n: int, h: Hash) {
    n in b.canonical && b.canonical[n] == h
  }

  /** Every stored section is canonical, or a notice that will drop it is due. */
  ghost predicate Accounted(b: Book, size: nat) {
    forall s: nat :: s < b.stored && s in b.heads ==> AccountedAt(b, size, s)
  }

  ghost predicate AccountedAt(b: Book, size: nat, s: nat)
    requires s in b.heads
  {
    OnChain(b, End(s, size), b.heads[s]) || End(s, size) in b.due
  }

  /** The work in hand has read a header and still has its base. */
  ghost predicate Reading(b: Book, size: nat) {
    b.work.Busy? && !b.cut && b.work.section * size < b.work.number
  }

  /** The last header read is not canonical any more, and no notice for its number is due. */
  ghost predicate Unnoticed(b: Book, size: nat) {
    Reading(b, size) && !OnChain(b, b.work.number - 1, b.work.last) && b.work.number - 1 !in b.due
  }

  /** A reorganisation notice for a header that was read, inside the section in hand: it cuts nothing. */
  ghost predicate Missed(b: Book, size: nat, e: Event)
    requires 0 < size
  {
    && e.Notify? && e.reorg && Reading(b, size) && e.head / size == b.work.section
    && e.head < b.work.number - 1 && !OnChain(b, b.work.number - 1, b.work.last)
  }

  /** The section in hand is about to be stored. */
  ghost predicate Stores(b: Book, size: nat, e: Event) {
    e.Finish? && e.commitOk && CanFinish(b.work, size) && b.work.Busy? && !b.cut
  }

  lemma Quotient(h: nat, size: nat)
    requires 0 < size
    ensures h / size * size <= h < h / size * size + size
  {
  }

  lemma Order(a: nat, b: nat, size: nat)
    requires a < b
    ensures (a + 1) * size <= b * size
  {
  }

  /** One step: the section in hand goes out of date unnoticed exactly by a missed notice. */
  lemma UnnoticedStep(b: Book, parent: Hash -> Hash, size: nat, confirms: nat, e: Event)
    requires Consistent(parent, size, b) && !Unnoticed(b, size)
    ensures Unnoticed(Next(b, parent, size, confirms, e), size) <==> Missed(b, size, e)
    ensures Missed(b, size, e) ==> Next(b, parent, size, confirms, e).work == b.work
  {
    hide Standing, EndsRun;
    if e.Notify? {
      NoticeStep(b, parent, size, confirms, e.head, e.reorg);
    }
  }

  lemma NoticeStep(b: Book, parent: Hash -> Hash, size: nat, confirms: nat, head: nat, reorg: bool)
    requires Consistent(parent, size, b) && !Unnoticed(b, size)
    ensures Unnoticed(Notified(b, size, confirms, head, reorg), size) <==> Missed(b, size, Notify(head, reorg))
  {
    hide Standing, EndsRun;
    if reorg && Reading(b, size) {
      Quotient(head, size);
      if head / size > b.work.section {
        Order(b.work.section, head / size, size);
      }
    }
  }

  /** It stays so until the next header is read, or its number changes again. */
  lemma UnnoticedStays(b: Book, parent: Hash -> Hash, size: nat, confirms: nat, e: Event)
    requires Consistent(parent, size, b) && Unnoticed(b, size)
    ensures var b' := Next(b, parent, size, confirms, e); Unnoticed(b', size) ==> b'.work == b.work
  {
    hide Standing, EndsRun;
  }

  /** One step: the stored sections stay accounted for, unless one is stored that went out of date unnoticed. */
  lemma AccountedStep(b: Book, parent: Hash -> Hash, size: nat, confirms: nat, e: Event)
    requires Consistent(parent, size, b) && Accounted(b, size)
    ensures Accounted(Next(b, parent, size, confirms, e), size) <==> !(Stores(b, size, e) && Unnoticed(b, size))
  {
    hide Standing, EndsRun;
    match e {
      case Notify(head, reorg) => NoticeKeeps(b, size, confirms, head, reorg);
      case Rechain(canonical, available) => RechainKeeps(b, size, canonical, available);
      case Start(resetOk) =>
      case DropSome =>
        if b.work.Dropping? {
          DropKeeps(b, parent, size);
        }
      case Advance(processOk) =>
      case Finish(commitOk) =>
        if CanFinish(b.work, size) {
          StoreKeeps(b, parent, size, commitOk);
        }
    }
  }

  /** A notice that settles the change of a section's end drops the section. */
  lemma NoticeKeeps(b: Book, size: nat, confirms: nat, head: nat, reorg: bool)
    requires 0 < size && Accounted(b, size)
    ensures Accounted(Notified(b, size, confirms, head, reorg), size)
  {
    var b' := Notified(b, size, confirms, head, reorg);
    Quotient(head, size);
    forall s: nat | s < b'.stored && s in b'.heads
      ensures AccountedAt(b', size, s)
    {
      assert AccountedAt(b, size, s);
      if reorg {
        Order(s, head / size, size);
      }
    }
  }

  lemma RechainKeeps(b: Book, size: nat, canonical: map<nat, Hash>, available: set<Hash>)
    requires Accounted(b, size)
    ensures Accounted(Rechained(b, canonical, available), size)
  {
    var b' := Rechained(b, canonical, available);
    forall s: nat | s < b'.stored && s in b'.heads
      ensures AccountedAt(b', size, s)
    {
      assert AccountedAt(b, size, s);
    }
  }

  lemma DropKeeps(b: Book, parent: Hash -> Hash, size: nat)
    requires Consistent(parent, size, b) && b.work.Dropping? && Accounted(b, size)
    ensures Accounted(Dropped(b), size)
  {
    hide Sound;
    var b' := Dropped(b);
    assert b'.stored <= b.stored;
    forall s: nat | s < b'.stored && s in b'.heads
      ensures AccountedAt(b', size, s)
    {
      assert AccountedAt(b, size, s);
    }
  }

  lemma StoreKeeps(b: Book, parent: Hash -> Hash, size: nat, commitOk: bool)
    requires Consistent(parent, size, b) && CanFinish(b.work, size) && Accounted(b, size)
    ensures Accounted(Finished(b, commitOk), size) <==> !(Stores(b, size, Finish(commitOk)) && Unnoticed(b, size))
  {
    hide EndsRun, Sound;
    var b' := Finished(b, commitOk);
    if Stores(b, size, Finish(commitOk)) {
      Extent(b.work.section, size);
      assert b'.heads[b.stored] == b.work.last && End(b.stored, size) == b.work.number - 1;
      assert AccountedAt(b', size, b.stored) <==> !Unnoticed(b, size);
    }
    forall s: nat | s < b.stored && s in b'.heads
      ensures AccountedAt(b', size, s)
    {
      assert AccountedAt(b, size, s);
    }
  }

  /** At this point of a run the section in hand is out of date because of a missed notice: nothing more has been
      read since, the header has not become canonical again, and its number has not changed again. */
  ghost predicate Overlooked(size: nat, trace: seq<Book>, events: seq<Event>, i: nat)
    requires 0 < size && i < |trace| == |events| + 1
  {
    exists j: nat :: j < i && Missed(trace[j], size, events[j]) && LostSince(size, trace, j, i)
  }

  ghost predicate LostSince(size: nat, trace: seq<Book>, j: nat, i: nat)
    requires j < i < |trace|
  {
    forall m: nat :: j < m <= i ==> trace[m].work == trace[j].work && Unnoticed(trace[m], size)
  }

  lemma {:induction false} UnnoticedExactly(parent: Hash -> Hash, size: nat, confirms: nat, trace: seq<Book>,
                                            events: seq<Event>, i: nat)
    requires Runs(parent, size, confirms, trace, events) && !Unnoticed(trace[0], size) && i <= |events|
    ensures Unnoticed(trace[i], size) <==> Overlooked(size, trace, events, i)
  {
    hide Next, Consistent, Unnoticed, Missed;
    if i > 0 && Unnoticed(trace[i], size) {
      UnnoticedExactly(parent, size, confirms, trace, events, i - 1);
      assert trace[i] == Next(trace[i - 1], parent, size, confirms, events[i - 1]);
      if Unnoticed(trace[i - 1], size) {
        UnnoticedStays(trace[i - 1], parent, size, confirms, events[i - 1]);
        var j: nat :| j < i - 1 && Missed(trace[j], size, events[j]) && LostSince(size, trace, j, i - 1);
        assert LostSince(size, trace, j, i);
      } else {
        UnnoticedStep(trace[i - 1], parent, size, confirms, events[i - 1]);
        assert LostSince(size, trace, i - 1, i);
      }
    }
  }

  /** Over every run: the stored sections are accounted for throughout if and only if no section is stored while
      it is out of date because of a missed notice. */
  lemma {:induction false} CanonicalExactly(parent: Hash -> Hash, size: nat, confirms: nat, trace: seq<Book>,
                                            events: seq<Event>)
    requires Runs(parent, size, confirms, trace, events) && Accounted(trace[0], size) && !Unnoticed(trace[0], size)
    ensures (forall i: nat :: i <= |events| ==> Accounted(trace[i], size)) <==>
      !exists i: nat :: i < |events| && Stores(trace[i], size, events[i]) && Overlooked(size, trace, events, i)
  {
    hide Next, Consistent, Unnoticed, Stores, Accounted, Overlooked;
    forall i: nat | i < |events|
      ensures Unnoticed(trace[i], size) <==> Overlooked(size, trace, events, i)
    {
      UnnoticedExactly(parent, size, confirms, trace, events, i);
    }
    if i: nat :| i < |events| && Stores(trace[i], size, events[i]) && Overlooked(size, trace, events, i) {
      StoredUnnoticed(parent, size, confirms, trace, events, i);
    } else {
      AllAccounted(parent, size, confirms, trace, events, |events|);
    }
  }

  lemma StoredUnnoticed(parent: Hash -> Hash, size: nat, confirms: nat, trace: seq<Book>, events: seq<Event>, i: nat)
    requires Runs(parent, size, confirms, trace, events) && i < |events|
    requires Stores(trace[i], size, events[i]) && Unnoticed(trace[i], size)
    ensures !Accounted(trace[i], size) || !Accounted(trace[i + 1], size)
  {
    hide Next, Consistent, Unnoticed, Stores, Accounted;
    assert trace[i + 1] == Next(trace[i], parent, size, confirms, events[i]);
    if Accounted(trace[i], size) {
      AccountedStep(trace[i], parent, size, confirms, events[i]);
    }
  }

  lemma {:induction false} AllAccounted(parent: Hash -> Hash, size: nat, confirms: nat, trace: seq<Book>,
                                        events: seq<Event>, n: nat)
    requires Runs(parent, size, confirms, trace, events) && Accounted(trace[0], size) && n <= |events|
    requires forall i: nat :: i < n ==> !(Stores(trace[i], size, events[i]) && Unnoticed(trace[i], size))
    ensures forall i: nat :: i <= n ==> Accounted(trace[i], size)
  {
    hide Next, Consistent, Unnoticed, Stores, Accounted;
    if n > 0 {
      AllAccounted(parent, size, confirms, trace, events, n - 1);
      assert trace[n] == Next(trace[n - 1], parent, size, confirms, events[n - 1]);
      AccountedStep(trace[n - 1], parent, size, confirms, events[n - 1]);
    }
  }

  /** So without missed notices, whenever every change of the chain has been notified all stored sections are
      canonical. */
  lemma NoneMissed(parent: Hash -> Hash, size: nat, confirms: nat, trace: seq<Book>, events: seq<Event>, i: nat)
    requires Runs(parent, size, confirms, trace, events) && Accounted(trace[0], size) && !Unnoticed(trace[0], size)
    requires forall j: nat :: j < |events| ==> !Missed(trace[j], size, events[j])
    requires i <= |events| && trace[i].due == {}
    ensures forall s: nat :: s < trace[i].stored && s in trace[i].heads ==>
      OnChain(trace[i], End(s, size), trace[i].heads[s])
  {
    CanonicalExactly(parent, size, confirms, trace, events);
    assert Accounted(trace[i], size);
    forall s: nat | s < trace[i].stored && s in trace[i].heads
      ensures OnChain(trace[i], End(s, size), trace[i].heads[s])
    {
      assert AccountedAt(trace[i], size, s);
    }
  }

  /** The canonical headers are linked by their parents. */
  ghost predicate LinkedChain(parent: Hash -> Hash, canonical: map<nat, Hash>) {
    forall n: nat :: n + 1 in canonical ==> n in canonical && parent(canonical[n + 1]) == canonical[n]
  }

  /** Below a canonical header a run of its ancestors is canonical too. */
  lemma {:induction false} RunDown(parent: Hash -> Hash, canonical: map<nat, Hash>, below: Hash, line: seq<Hash>,
                                   n: nat)
    requires LinkedChain(parent, canonical) && Linked(parent, below, line) && 0 < |line| <= n
    requires n in canonical && canonical[n] == Top(below, line)
    ensures n - |line| in canonical && canonical[n - |line|] == below
  {
    var k := |line| - 1;
    assert LinkedAt(parent, below, line, k) && n - 1 + 1 in canonical;
    if k > 0 {
      forall i: nat | i < k
        ensures LinkedAt(parent, below, line[..k], i)
      {
        assert LinkedAt(parent, below, line, i);
      }
      RunDown(parent, canonical, below, line[..k], n - 1);
    }
  }

  /** If a stored section is canonical, so are all below it. */
  lemma {:induction false} LowerCanonical(b: Book, parent: Hash -> Hash, size: nat, s: nat, t: nat)
    requires 0 < size && Sound(parent, size, b.heads, b.stored) && LinkedChain(parent, b.canonical)
    requires t <= s < b.stored && OnChain(b, End(s, size), b.heads[s])
    ensures t in b.heads && OnChain(b, End(t, size), b.heads[t])
    decreases s
  {
    if t < s {
      assert SoundAt(parent, size, b.heads, s);
      var below := Before(b.heads, s);
      var line :| |line| == size && Linked(parent, below, line) && Top(below, line) == b.heads[s];
      Extent(s, size);
      Extent(s - 1, size);
      RunDown(parent, b.canonical, below, line, End(s, size));
      LowerCanonical(b, parent, size, s - 1, t);
    }
  }

  /** Work on the next section that has read nothing yet. */
  ghost function Fresh(b: Book, size: nat): Work {
    var last := Before(b.heads, b.stored);
    Busy(b.stored, last, b.stored * size, last)
  }

  /** The last stored section is not canonical, and no further section is under way. */
  ghost predicate Stalled(b: Book, size: nat) {
    && 0 < b.stored && b.stored - 1 in b.heads && !OnChain(b, End(b.stored - 1, size), b.heads[b.stored - 1])
    && (b.work.Idle? || b.work.Failed? || b.work == Fresh(b, size))
  }

  /** No reorganisation, notice of one or failed reset. */
  predicate Quiet(e: Event) {
    !e.Rechain? && !(e.Notify? && e.reorg) && !(e.Start? && !e.resetOk)
  }

  lemma StalledStep(b: Book, parent: Hash -> Hash, size: nat, confirms: nat, e: Event)
    requires 0 < size && Stalled(b, size) && LinkedChain(parent, b.canonical) && Quiet(e)
    ensures var b' := Next(b, parent, size, confirms, e);
      Stalled(b', size) && b'.stored == b.stored && b'.heads == b.heads && b'.canonical == b.canonical
  {
    Extent(b.stored - 1, size);
    if CanAdvance(b.work, size) {
      var n := b.work.number;
      assert n - 1 + 1 in b.canonical ==> n - 1 in b.canonical && parent(b.canonical[n]) == b.canonical[n - 1];
    }
  }

  /** The indexer does not recover by itself: it gets no further until there is another reorganisation, a notice of
      one or a failed reset. */
  lemma {:induction false} NoRecovery(parent: Hash -> Hash, size: nat, confirms: nat, trace: seq<Book>,
                                      events: seq<Event>, i: nat)
    requires Runs(parent, size, confirms, trace, events) && i <= |events|
    requires Stalled(trace[0], size) && LinkedChain(parent, trace[0].canonical)
    requires forall j: nat :: j < |events| ==> Quiet(events[j])
    ensures Stalled(trace[i], size) && trace[i].stored == trace[0].stored && trace[i].heads == trace[0].heads
    ensures trace[i].canonical == trace[0].canonical
  {
    hide Stalled, Consistent, Next, LinkedChain;
    if i > 0 {
      NoRecovery(parent, size, confirms, trace, events, i - 1);
      assert trace[i] == Next(trace[i - 1], parent, size, confirms, events[i - 1]);
      StalledStep(trace[i - 1], parent, size, confirms, events[i - 1]);
    }
  }

  function SmallChain(h: Hash): Hash {
    if h == 1 then NONE else 1
  }

  /** Sections of two headers; header 2 follows header 1, and both are read. */
  method ReadSection() returns (indexer: Indexer)
    ensures fresh(indexer) && indexer.Valid() && indexer.parent == SmallChain && indexer.sectionSize == 2
    ensures indexer.Now() == Book(map[0 := 1, 1 := 2], {1, 2, 3}, 0, 1, map[], Busy(0, NONE, 2, 2), false, {})
  {
    hide Consistent;
    indexer := new Indexer(SmallChain, 2, 0);
    indexer.Rewrite(map[0 := 1, 1 := 2], {1, 2, 3});
    indexer.NewHead(1, false);
    indexer.Begin(true);
    indexer.ProcessHeader(true);
    indexer.ProcessHeader(true);
  }

  /** Then header 3 takes the place of header 2, and the notice, which says that header 1 stays, arrives before the
      section is stored. */
  method UnnoticedReorg() returns (indexer: Indexer)
    ensures indexer.Valid() && indexer.parent == SmallChain && Stalled(indexer.Now(), 2)
    ensures LinkedChain(SmallChain, indexer.canonical) && indexer.canonical == map[0 := 1, 1 := 3]
    ensures indexer.storedSections == 1 && indexer.heads == map[0 := 2] && indexer.due == {}
    ensures indexer.work.Idle? && indexer.knownSections == 0
  {
    hide Consistent;
    indexer := ReadSection();
    indexer.Rewrite(map[0 := 1, 1 := 3], {1, 2, 3});
    assert Changed(map[0 := 1, 1 := 2], map[0 := 1, 1 := 3]) == {1};
    indexer.NewHead(0, true);
    var stored := indexer.Complete(true);
  }
}
