/** The chain indexer: sections of consecutive headers are processed with the lock released, while head
    notifications and chain reorganisations go on. No checkpoints. */
module ChainIndexer {
  import IndexerRace

  type Hash = nat
  const NONE: Hash := 0

  /** `line` is a run of existing headers, each the child of the one before and the first of `below`. */
  ghost predicate Linked(parent: Hash -> Hash, below: Hash, line: seq<Hash>) {
    forall i: nat :: i < |line| ==> LinkedAt(parent, below, line, i)
  }

  ghost predicate LinkedAt(parent: Hash -> Hash, below: Hash, line: seq<Hash>, i: nat)
    requires i < |line|
  {
    line[i] != NONE && parent(line[i]) == if i == 0 then below else line[i - 1]
  }

  ghost function Top(below: Hash, line: seq<Hash>): Hash {
    if line == [] then below else line[|line| - 1]
  }

  /** `head` ends a run of `count` parent-linked headers that begins right after `below`. */
  ghost predicate EndsRun(parent: Hash -> Hash, below: Hash, head: Hash, count: nat) {
    exists line :: |line| == count && Linked(parent, below, line) && Top(below, line) == head
  }

  lemma RunGrows(parent: Hash -> Hash, below: Hash, head: Hash, count: nat, next: Hash)
    requires EndsRun(parent, below, head, count) && next != NONE && parent(next) == head
    ensures EndsRun(parent, below, next, count + 1)
  {
    var line :| |line| == count && Linked(parent, below, line) && Top(below, line) == head;
    var more := line + [next];
    forall i: nat | i < |more|
      ensures LinkedAt(parent, below, more, i)
    {
      assert i < count ==> LinkedAt(parent, below, line, i);
    }
    assert Linked(parent, below, more) && Top(below, more) == next;
  }

  lemma EmptyRun(parent: Hash -> Hash, below: Hash)
    ensures EndsRun(parent, below, below, 0)
  {
    assert Linked(parent, below, []) && Top(below, []) == below;
  }

  lemma RunExists(parent: Hash -> Hash, below: Hash, head: Hash, count: nat)
    requires EndsRun(parent, below, head, count) && 0 < count
    ensures head != NONE
  {
    var line :| |line| == count && Linked(parent, below, line) && Top(below, line) == head;
    assert LinkedAt(parent, below, line, count - 1);
  }

  /** SectionHead: the zero hash stands for an absent entry. */
  function HeadOf(heads: map<nat, Hash>, section: nat): Hash {
    if section in heads then heads[section] else NONE
  }

  /** What precedes a section: the head of the section before, nothing before the first. */
  function Before(heads: map<nat, Hash>, section: nat): Hash {
    if section == 0 then NONE else HeadOf(heads, section - 1)
  }

  /** The stored heads are those of the sections below `stored`, each ending a full run that continues the
      section before it. */
  ghost predicate Sound(parent: Hash -> Hash, size: nat, heads: map<nat, Hash>, stored: nat) {
    && (forall s: nat :: s in heads <==> s < stored)
    && (forall s: nat {:trigger SoundAt(parent, size, heads, s)} :: s < stored && s in heads ==>
          SoundAt(parent, size, heads, s))
  }

  ghost predicate SoundAt(parent: Hash -> Hash, size: nat, heads: map<nat, Hash>, s: nat)
    requires s in heads
  {
    EndsRun(parent, Before(heads, s), heads[s], size)
  }

  /** What the update loop has in hand while the lock is released. */
  datatype Work =
    | Idle
    | Busy(section: nat, oldHead: Hash, number: nat, last: Hash)
    | Dropping(phase: IndexerRace.Phase)
    | Failed

  /** The chain database, which others change at any time, and the indexer's counts, heads and work. `cut` tells
      whether the head below the section in hand has been removed, and `due` are the numbers whose canonical
      header has changed without a reorganisation notice that reaches below them since. */
  datatype Book = Book(canonical: map<nat, Hash>, available: set<Hash>, stored: nat, known: nat,
                       heads: map<nat, Hash>, work: Work, cut: bool, due: set<nat>)

  /** The work in hand: a run on top of `oldHead`, which was the head below the section. */
  ghost predicate InHand(parent: Hash -> Hash, size: nat, b: Book) {
    b.work.Busy? ==>
      && b.work.section * size <= b.work.number <= (b.work.section + 1) * size
      && EndsRun(parent, b.work.oldHead, b.work.last, b.work.number - b.work.section * size)
      && (b.work.section == 0 <==> b.work.oldHead == NONE)
      && (if b.cut then b.stored < b.work.section
          else b.stored == b.work.section && Before(b.heads, b.work.section) == b.work.oldHead)
  }

  /** After a failed reset the sections are dropped one by one, with the lock released; between counting down
      and removing, one head too many is there. */
  ghost predicate Standing(parent: Hash -> Hash, size: nat, b: Book) {
    if b.work.Dropping? then
      match b.work.phase
      case Test => Sound(parent, size, b.heads, b.stored)
      case Count => Sound(parent, size, b.heads, b.stored) && 0 < b.stored
      case Drop => Sound(parent, size, b.heads, b.stored + 1)
      case Write => Sound(parent, size, b.heads, b.stored) && b.stored == 0
      case _ => false
    else Sound(parent, size, b.heads, b.stored)
  }

  ghost predicate Consistent(parent: Hash -> Hash, size: nat, b: Book) {
    0 < size && b.stored < IndexerRace.WORD && Standing(parent, size, b) && InHand(parent, size, b)
  }

  lemma StillConsistent(parent: Hash -> Hash, size: nat, b: Book, known: nat, due: set<nat>)
    requires Consistent(parent, size, b)
    ensures Consistent(parent, size, b.(known := known, due := due))
  {
  }

  /** Dropping the sections from `sections` on. */
  function Reverted(heads: map<nat, Hash>, sections: nat): map<nat, Hash> {
    map s | s in heads && s < sections :: heads[s]
  }

  lemma RevertSound(parent: Hash -> Hash, size: nat, heads: map<nat, Hash>, stored: nat, sections: nat)
    requires Sound(parent, size, heads, stored) && sections <= stored
    ensures Sound(parent, size, Reverted(heads, sections), sections)
  {
    hide EndsRun;
    var less := Reverted(heads, sections);
    forall s: nat | s < sections && s in less
      ensures SoundAt(parent, size, less, s)
    {
      assert SoundAt(parent, size, heads, s);
    }
  }

  lemma StoreSound(parent: Hash -> Hash, size: nat, heads: map<nat, Hash>, stored: nat, head: Hash)
    requires Sound(parent, size, heads, stored) && EndsRun(parent, Before(heads, stored), head, size)
    ensures Sound(parent, size, heads[stored := head], stored + 1)
  {
    hide EndsRun;
    var more := heads[stored := head];
    forall s: nat | s < stored + 1 && s in more
      ensures SoundAt(parent, size, more, s)
    {
      assert s < stored ==> SoundAt(parent, size, heads, s);
    }
  }

  datatype Event =
    | Notify(head: nat, reorg: bool)
    | Rechain(canonical: map<nat, Hash>, available: set<Hash>)
    | Start(resetOk: bool)
    | DropSome
    | Advance(processOk: bool)
    | Finish(commitOk: bool)

  /** The numbers that had a canonical header and have not got the same one. */
  function Changed(before: map<nat, Hash>, after: map<nat, Hash>): set<nat> {
    set n | n in before && (n !in after || after[n] != before[n])
  }

  /** A reorganisation notice that reaches below the sections while they are being dropped unlocked. */
  predicate Overlaps(work: Work, stored: nat, size: nat, head: nat, reorg: bool)
    requires 0 < size
  {
    work.Dropping? && reorg && head / size < stored
  }

  /** A reorganisation drops the sections it reaches, and settles the changes above its head; otherwise all
      sections that are complete and confirmed become known. */
  function Notified(b: Book, size: nat, confirms: nat, head: nat, reorg: bool): Book
    requires 0 < size
  {
    if reorg then
      var known := head / size;
      var reaches := known < b.stored;
      b.(known := if known < b.known then known else b.known, stored := if reaches then known else b.stored,
         heads := if reaches then Reverted(b.heads, known) else b.heads,
         cut := b.cut || (reaches && b.work.Busy? && known < b.work.section), due := set n | n in b.due && n <= head)
    else if head < confirms || (head + 1 - confirms) / size <= b.known then b
    else b.(known := (head + 1 - confirms) / size)
  }

  function Rechained(b: Book, canonical: map<nat, Hash>, available: set<Hash>): Book {
    b.(canonical := canonical, available := available, due := b.due + Changed(b.canonical, canonical))
  }

  function Begun(b: Book, size: nat, resetOk: bool): Book {
    if b.known <= b.stored then b
    else if resetOk then
      var oldHead := Before(b.heads, b.stored);
      b.(work := Busy(b.stored, oldHead, b.stored * size, oldHead), cut := false)
    else b.(work := Dropping(IndexerRace.Test))
  }

  /** One step of the race model's unlocked drop to zero. */
  function Dropped(b: Book): Book
    requires b.work.Dropping?
  {
    var (store, phase) := IndexerRace.Step(IndexerRace.Store(b.stored, b.heads.Keys), b.work.phase, 0);
    b.(stored := store.stored, heads := map s | s in b.heads && s in store.heads :: b.heads[s],
       work := if phase.Done? then Failed else Dropping(phase))
  }

  /** The next header of the section is there, canonical and the child of the last. */
  predicate Readable(b: Book, parent: Hash -> Hash)
    requires b.work.Busy?
  {
    var n := b.work.number;
    n in b.canonical && b.canonical[n] != NONE && b.canonical[n] in b.available && parent(b.canonical[n]) == b.work.last
  }

  function Advanced(b: Book, parent: Hash -> Hash, processOk: bool): Book
    requires b.work.Busy?
  {
    if processOk && Readable(b, parent)
    then b.(work := b.work.(number := b.work.number + 1, last := b.canonical[b.work.number]))
    else b.(work := Failed)
  }

  predicate CanAdvance(work: Work, size: nat) {
    work.Busy? && work.number < (work.section + 1) * size
  }

  /** The section has failed or been processed to its end. Counters stay within 64 bits. */
  predicate CanFinish(work: Work, size: nat) {
    || work.Failed?
    || (work.Busy? && work.number == (work.section + 1) * size && work.section + 1 < IndexerRace.WORD)
  }

  /** A section in hand is stored if it was completed and its base was not removed meanwhile. */
  function Finished(b: Book, commitOk: bool): Book {
    if b.work.Busy? && commitOk && !b.cut
    then b.(heads := b.heads[b.stored := b.work.last], stored := b.stored + 1, work := Idle)
    else b.(known := b.stored, work := Idle)
  }

  /** What an event does; a step of the update loop that is not its turn does nothing. */
  function Next(b: Book, parent: Hash -> Hash, size: nat, confirms: nat, e: Event): Book
    requires 0 < size
  {
    match e
    case Notify(head, reorg) => Notified(b, size, confirms, head, reorg)
    case Rechain(canonical, available) => Rechained(b, canonical, available)
    case Start(resetOk) => if b.work.Idle? then Begun(b, size, resetOk) else b
    case DropSome => if b.work.Dropping? then Dropped(b) else b
    case Advance(processOk) => if CanAdvance(b.work, size) then Advanced(b, parent, processOk) else b
    case Finish(commitOk) => if CanFinish(b.work, size) then Finished(b, commitOk) else b
  }

  class Indexer {
    const parent: Hash -> Hash
    const sectionSize: nat
    const confirmsReq: nat

    var canonical: map<nat, Hash>
    var available: set<Hash>

    var storedSections: nat
    var knownSections: nat
    var heads: map<nat, Hash>
    var work: Work
    ghost var cut: bool
    ghost var due: set<nat>

    ghost function Now(): Book
      reads this
    {
      Book(canonical, available, storedSections, knownSections, heads, work, cut, due)
    }

    ghost predicate Valid()
      reads this
    {
      Consistent(parent, sectionSize, Now())
    }

    constructor (parent: Hash -> Hash, sectionSize: nat, confirmsReq: nat)
      requires 0 < sectionSize
      ensures Valid() && Now() == Book(map[], {}, 0, 0, map[], Idle, false, {})
      ensures this.parent == parent && this.sectionSize == sectionSize && this.confirmsReq == confirmsReq
    {
      this.parent, this.sectionSize, this.confirmsReq := parent, sectionSize, confirmsReq;
      canonical, available := map[], {};
      storedSections, knownSections, heads, work, cut, due := 0, 0, map[], Idle, false, {};
    }

    /** setValidSections for a lower count: the heads above leave the database one by one. */
    method Revert(sections: nat)
      requires Valid() && !work.Dropping? && sections <= storedSections
      modifies `storedSections, `heads, `cut
      ensures Valid() && storedSections == sections && heads == Reverted(old(heads), sections)
      ensures cut <==> old(cut) || (work.Busy? && sections < work.section)
    {
      hide EndsRun, Sound;
      ghost var start := heads;
      RevertSound(parent, sectionSize, start, storedSections, sections);
      AllKept(parent, sectionSize, start, storedSections);
      while storedSections > sections
        invariant sections <= storedSections <= old(storedSections) && heads == Reverted(start, storedSections)
        invariant cut == old(cut)
      {
        storedSections := storedSections - 1;
        heads := heads - {storedSections};
      }
      cut := cut || (work.Busy? && sections < work.section);
    }

    /** newHead. */
    method NewHead(head: nat, reorg: bool)
      requires Valid() && !Overlaps(work, storedSections, sectionSize, head, reorg)
      modifies `storedSections, `knownSections, `heads, `cut, `due
      ensures Valid() && Now() == Notified(old(Now()), sectionSize, confirmsReq, head, reorg)
      ensures reorg ==>
        && LeftBy(old(knownSections), knownSections, sectionSize, head)
        && LeftBy(old(storedSections), storedSections, sectionSize, head)
      ensures !reorg ==> knownSections >= old(knownSections) && storedSections == old(storedSections)
      ensures !reorg && knownSections > old(knownSections) ==> Confirmed(knownSections, sectionSize, confirmsReq, head)
      ensures !reorg && head >= confirmsReq ==> !Confirmed(knownSections + 1, sectionSize, confirmsReq, head)
    {
      hide Standing, InHand, Confirmed, LeftBy, Notified;
      if reorg {
        Reorganise(head);
      } else {
        Confirm(head);
      }
    }

    method Reorganise(head: nat)
      requires Valid() && !Overlaps(work, storedSections, sectionSize, head, true)
      modifies `storedSections, `knownSections, `heads, `cut, `due
      ensures Valid() && Now() == Notified(old(Now()), sectionSize, confirmsReq, head, true)
      ensures LeftBy(old(knownSections), knownSections, sectionSize, head)
      ensures LeftBy(old(storedSections), storedSections, sectionSize, head)
    {
      hide Standing, InHand, LeftBy;
      var known := head / sectionSize;
      CommonSections(head, sectionSize, knownSections);
      CommonSections(head, sectionSize, storedSections);
      ghost var before := Now();
      if known < knownSections {
        knownSections := known;
      }
      StillConsistent(parent, sectionSize, before, knownSections, due);
      if known < storedSections {
        Revert(known);
      }
      ghost var reverted := Now();
      due := set n | n in due && n <= head;
      StillConsistent(parent, sectionSize, reverted, knownSections, due);
    }

    method Confirm(head: nat)
      requires Valid()
      modifies `knownSections
      ensures Valid() && Now() == Notified(old(Now()), sectionSize, confirmsReq, head, false)
      ensures knownSections >= old(knownSections)
      ensures knownSections > old(knownSections) ==> Confirmed(knownSections, sectionSize, confirmsReq, head)
      ensures head >= confirmsReq ==> !Confirmed(knownSections + 1, sectionSize, confirmsReq, head)
    {
      hide Standing, InHand, Confirmed;
      ghost var before := Now();
      if head >= confirmsReq {
        var sections := (head + 1 - confirmsReq) / sectionSize;
        FullSections(head, sectionSize, confirmsReq, knownSections);
        if sections > knownSections {
          knownSections := sections;
        }
      }
      StillConsistent(parent, sectionSize, before, knownSections, due);
    }

    /** The chain changes under the indexer. */
    method Rewrite(canonical: map<nat, Hash>, available: set<Hash>)
      requires Valid()
      modifies `canonical, `available, `due
      ensures Valid() && Now() == Rechained(old(Now()), canonical, available)
    {
      due := due + Changed(this.canonical, canonical);
      this.canonical, this.available := canonical, available;
    }

    /** The update loop takes up the next section and releases the lock; the backend is reset, and if that
        fails all sections are to be dropped. */
    method Begin(resetOk: bool)
      requires Valid() && work.Idle?
      modifies `work, `cut
      ensures Valid() && Now() == Begun(old(Now()), sectionSize, resetOk)
      ensures knownSections <= storedSections ==> work.Idle?
      ensures knownSections > storedSections && !resetOk ==> work == Dropping(IndexerRace.Test)
      ensures knownSections > storedSections && resetOk ==>
        && work.Busy? && work.section == storedSections && work.number == storedSections * sectionSize
        && work.last == work.oldHead == if storedSections == 0 then NONE else HeadOf(heads, storedSections - 1)
    {
      hide EndsRun;
      if knownSections > storedSections {
        var section := storedSections;
        var oldHead := if section > 0 then HeadOf(heads, section - 1) else NONE;
        if section > 0 {
          assert SoundAt(parent, sectionSize, heads, section - 1);
          RunExists(parent, Before(heads, section - 1), oldHead, sectionSize);
        }
        if resetOk {
          EmptyRun(parent, oldHead);
          Extent(section, sectionSize);
          work, cut := Busy(section, oldHead, section * sectionSize, oldHead), false;
        } else {
          work := Dropping(IndexerRace.Test);
        }
      }
    }

    /** One step of setValidSections(0) without the lock. */
    method DropStep()
      requires Valid() && work.Dropping?
      modifies `storedSections, `heads, `work
      ensures Valid() && (work.Dropping? || (work.Failed? && storedSections == 0 && heads == map[]))
      ensures Now() == Dropped(old(Now()))
    {
      hide EndsRun;
      match work.phase {
        case Test =>
          work := Dropping(if 0 < storedSections then IndexerRace.Count else IndexerRace.Write);
        case Count =>
          storedSections := storedSections - 1;
          work := Dropping(IndexerRace.Drop);
        case Drop =>
          RevertSound(parent, sectionSize, heads, storedSections + 1, storedSections);
          assert heads - {storedSections} == Reverted(heads, storedSections);
          heads := heads - {storedSections};
          work := Dropping(IndexerRace.Test);
        case Write =>
          storedSections := 0;
          work := Failed;
      }
    }

    /** One header of the section, read with the lock released. */
    method ProcessHeader(processOk: bool)
      requires Valid() && CanAdvance(work, sectionSize)
      modifies `work
      ensures Valid() && Now() == Advanced(old(Now()), parent, processOk)
      ensures work.Busy? || work.Failed?
      ensures var n := old(work).number;
        work.Busy? <==>
          && processOk && n in canonical && canonical[n] != NONE && canonical[n] in available
          && parent(canonical[n]) == old(work).last
      ensures work.Busy? ==> work == old(work).(number := old(work).number + 1, last := canonical[old(work).number])
    {
      hide EndsRun, Sound;
      var hash := if work.number in canonical then canonical[work.number] else NONE;
      if hash != NONE && hash in available && parent(hash) == work.last && processOk {
        RunGrows(parent, work.oldHead, work.last, work.number - work.section * sectionSize, hash);
        work := work.(number := work.number + 1, last := hash);
      } else {
        work := Failed;
      }
    }

    /** The update loop takes the lock again: the section is stored if it was processed to its end and its
        base is still in place. Otherwise nothing more is tried until the next notification. */
    method Complete(commitOk: bool) returns (stored: bool)
      requires Valid() && CanFinish(work, sectionSize)
      modifies `storedSections, `knownSections, `heads, `work
      ensures Valid() && Now() == Finished(old(Now()), commitOk)
      ensures stored <==> old(work).Busy? && commitOk && !old(cut)
      ensures if stored then storedSections == old(storedSections) + 1 && knownSections == old(knownSections)
        else knownSections == storedSections == old(storedSections) && heads == old(heads)
      ensures stored ==> EndsRun(parent, Before(heads, old(storedSections)), old(work).last, sectionSize)
    {
      hide EndsRun;
      if work.Busy? && commitOk && work.oldHead == Before(heads, work.section) {
        var section := work.section;
        Extent(section, sectionSize);
        StoreSound(parent, sectionSize, heads, storedSections, work.last);
        heads := heads[section := work.last];
        storedSections := section + 1;
        stored := true;
      } else {
        knownSections := storedSections;
        stored := false;
      }
      work := Idle;
    }

    /** Any interleaving of notifications, chain changes and the steps of the update loop, up to the first
        notice, if there is one, that overlaps an unlocked drop. */
    method Run(events: seq<Event>) returns (k: nat, ghost trace: seq<Book>)
      requires Valid()
      modifies this
      ensures Valid() && k <= |events| && Runs(parent, sectionSize, confirmsReq, trace, events[..k])
      ensures trace[0] == old(Now()) && trace[k] == Now()
      ensures k < |events| ==>
        events[k].Notify? && Overlaps(work, storedSections, sectionSize, events[k].head, events[k].reorg)
    {
      hide Standing, InHand, Next;
      trace := [Now()];
      for i := 0 to |events|
        invariant Valid() && Runs(parent, sectionSize, confirmsReq, trace, events[..i])
        invariant trace[0] == old(Now()) && trace[i] == Now()
      {
        var e := events[i];
        if e.Notify? && Overlaps(work, storedSections, sectionSize, e.head, e.reorg) {
          return i, trace;
        }
        Happen(e);
        RunsOn(parent, sectionSize, confirmsReq, trace, events[..i], e, Now());
        assert events[..i + 1] == events[..i] + [e];
        trace := trace + [Now()];
      }
      assert events[..|events|] == events;
      k := |events|;
    }

    method Happen(e: Event)
      requires Valid() && !(e.Notify? && Overlaps(work, storedSections, sectionSize, e.head, e.reorg))
      modifies this
      ensures Valid() && Now() == Next(old(Now()), parent, sectionSize, confirmsReq, e)
    {
      match e {
        case Notify(head, reorg) => NewHead(head, reorg);
        case Rechain(chain, headers) => Rewrite(chain, headers);
        case Start(resetOk) =>
          if work.Idle? {
            Begin(resetOk);
          }
        case DropSome =>
          if work.Dropping? {
            DropStep();
          }
        case Advance(processOk) =>
          if CanAdvance(work, sectionSize) {
            ProcessHeader(processOk);
          }
        case Finish(commitOk) =>
          if CanFinish(work, sectionSize) {
            var stored := Complete(commitOk);
          }
      }
    }
  }

  /** Each event has had its effect, and the books have been consistent throughout. */
  ghost predicate Runs(parent: Hash -> Hash, size: nat, confirms: nat, trace: seq<Book>, events: seq<Event>) {
    && |trace| == |events| + 1 && 0 < size
    && (forall i: nat :: i < |events| ==> trace[i + 1] == Next(trace[i], parent, size, confirms, events[i]))
    && (forall i: nat :: i <= |events| ==> Consistent(parent, size, trace[i]))
  }

  lemma RunsOn(parent: Hash -> Hash, size: nat, confirms: nat, trace: seq<Book>, events: seq<Event>, e: Event, b: Book)
    requires Runs(parent, size, confirms, trace, events) && Consistent(parent, size, b)
    requires b == Next(trace[|events|], parent, size, confirms, e)
    ensures Runs(parent, size, confirms, trace + [b], events + [e])
  {
    hide Consistent, Next;
    var trace', events' := trace + [b], events + [e];
    forall i: nat | i < |events'|
      ensures trace'[i + 1] == Next(trace'[i], parent, size, confirms, events'[i])
    {
      assert i < |events| ==> trace[i + 1] == Next(trace[i], parent, size, confirms, events[i]);
    }
    forall i: nat | i <= |events'|
      ensures Consistent(parent, size, trace'[i])
    {
      assert i <= |events| ==> Consistent(parent, size, trace[i]);
    }
  }

  lemma AllKept(parent: Hash -> Hash, size: nat, heads: map<nat, Hash>, stored: nat)
    requires Sound(parent, size, heads, stored)
    ensures Reverted(heads, stored) == heads
  {
  }

  /** That many sections are complete, with the required confirmations on top. */
  ghost predicate Confirmed(sections: nat, size: nat, confirms: nat, head: nat) {
    sections * size + confirms <= head + 1
  }

  lemma FullSections(head: nat, size: nat, confirms: nat, known: nat)
    requires 0 < size && confirms <= head
    ensures var sections := (head + 1 - confirms) / size;
      && Confirmed(sections, size, confirms, head) && !Confirmed(sections + 1, size, confirms, head)
      && (sections <= known ==> !Confirmed(known + 1, size, confirms, head))
  {
    var sections := (head + 1 - confirms) / size;
    if sections <= known {
      assert (known + 1) * size == (sections + 1) * size + (known - sections) * size;
    }
  }

  /** Of these sections as many are left as are full below the given head. */
  ghost predicate LeftBy(before: nat, after: nat, size: nat, head: nat) {
    after <= before && after * size <= head && (after < before ==> head < (after + 1) * size)
  }

  lemma CommonSections(head: nat, size: nat, count: nat)
    requires 0 < size
    ensures LeftBy(count, if head / size < count then head / size else count, size, head)
  {
    if count <= head / size {
      assert count * size + (head / size - count) * size == (head / size) * size;
    }
  }

  /** The update loop has given a section up. */
  ghost predicate GivesUp(b: Book, after: Book, size: nat, e: Event) {
    e.Finish? && CanFinish(b.work, size) && after.stored <= b.stored
  }

  /** More sections become known. */
  ghost predicate Raises(b: Book, after: Book, e: Event) {
    e.Notify? && !e.reorg && b.known < after.known
  }

  /** When a section was not stored, then until a notification that is no reorganisation makes more sections known,
      no section is taken up, no more are stored and no head is added. */
  lemma {:induction false} NoRetry(parent: Hash -> Hash, size: nat, confirms: nat, trace: seq<Book>,
                                   events: seq<Event>, i: nat, j: nat)
    requires Runs(parent, size, confirms, trace, events) && i < j <= |events|
    requires GivesUp(trace[i], trace[i + 1], size, events[i])
    requires forall k: nat :: i < k < j ==> !Raises(trace[k], trace[k + 1], events[k])
    ensures trace[j].work.Idle? && trace[j].known <= trace[j].stored <= trace[i].stored
    ensures forall s :: s in trace[j].heads ==> s in trace[i].heads && trace[j].heads[s] == trace[i].heads[s]
  {
    hide Consistent;
    assert trace[j] == Next(trace[j - 1], parent, size, confirms, events[j - 1]);
    if i + 1 < j {
      NoRetry(parent, size, confirms, trace, events, i, j - 1);
    }
  }

  lemma Extent(section: nat, size: nat)
    ensures (section + 1) * size == section * size + size
  {
  }
}
