/** setValidSections step by step. The indexer runs it under its lock, except when the backend's reset
    fails: then it runs unlocked, and may overlap the one that a reorganisation notice runs. */
module IndexerRace {

  const WORD: nat := 0x1_0000_0000_0000_0000

  /** The 64-bit section counter and the sections that have a stored head. */
  datatype Store = Store(stored: nat, heads: set<nat>)

  /** Where a run stands: a notice first compares its count with the counter; then test, count down and
      remove alternate, and the final count is written. */
  datatype Phase = Guard | Test | Count | Drop | Write | Done

  datatype State = State(store: Store, first: Phase, second: Phase)

  function Step(store: Store, phase: Phase, target: nat): (Store, Phase) {
    match phase
    case Guard => (store, if target < store.stored then Test else Done)
    case Test => (store, if target < store.stored then Count else Write)
    case Count => (store.(stored := (store.stored + WORD - 1) % WORD), Drop)
    case Drop => (store.(heads := store.heads - {store.stored}), Test)
    case Write => (store.(stored := target), Done)
    case Done => (store, Done)
  }

  /** One step of the unlocked run, with count `a`, or of the notice, with count `b`. */
  function Move(st: State, firstMoves: bool, a: nat, b: nat): State {
    if firstMoves then
      var (store, phase) := Step(st.store, st.first, a);
      State(store, phase, st.second)
    else
      var (store, phase) := Step(st.store, st.second, b);
      State(store, st.first, phase)
  }

  /** A schedule says at each step which of the two moves. */
  function Exec(st: State, schedule: seq<bool>, a: nat, b: nat): State
    decreases |schedule|
  {
    if schedule == [] then st else Exec(Move(st, schedule[0], a, b), schedule[1..], a, b)
  }

  function Below(n: nat): (r: set<nat>)
    ensures forall s: nat :: s in r <==> s < n
  {
    if n == 0 then {} else Below(n - 1) + {n - 1}
  }

  /** All sections below the counter have a head, and no others. */
  predicate Exact(store: Store) {
    store.heads == Below(store.stored)
  }

  /** Both begin with `n` stored sections. */
  function Start(n: nat): State {
    State(Store(n, Below(n)), Test, Guard)
  }

  ghost predicate Reaches(st: State, st': State, a: nat, b: nat) {
    exists schedule :: Exec(st, schedule, a, b) == st'
  }

  /** However the two are interleaved, when both are done the heads are right. */
  ghost predicate Harmless(n: nat, a: nat, b: nat) {
    forall st :: Reaches(Start(n), st, a, b) && st.first == Done && st.second == Done ==> Exact(st.store)
  }

  lemma Here(st: State, a: nat, b: nat)
    ensures Reaches(st, st, a, b)
  {
    assert Exec(st, [], a, b) == st;
  }

  lemma Then(st: State, firstMoves: bool, st': State, a: nat, b: nat)
    requires Reaches(Move(st, firstMoves, a, b), st', a, b)
    ensures Reaches(st, st', a, b)
  {
    var schedule :| Exec(Move(st, firstMoves, a, b), schedule, a, b) == st';
    assert ([firstMoves] + schedule)[1..] == schedule;
    assert Exec(st, [firstMoves] + schedule, a, b) == st';
  }

  /** The unlocked run alone, from one section count down to another. */
  lemma {:induction false} FirstAlone(k: nat, m: nat, second: Phase, st': State, a: nat, b: nat)
    requires a <= m <= k < WORD && Reaches(State(Store(m, Below(m)), Test, second), st', a, b)
    ensures Reaches(State(Store(k, Below(k)), Test, second), st', a, b)
  {
    if m < k {
      FirstAlone(k - 1, m, second, st', a, b);
      var st := State(Store(k, Below(k)), Test, second);
      var st1 := Move(st, true, a, b);
      var st2 := Move(st1, true, a, b);
      assert Below(k) - {k - 1} == Below(k - 1);
      Then(st2, true, st', a, b);
      Then(st1, true, st', a, b);
      Then(st, true, st', a, b);
    }
  }

  lemma {:induction false} SecondAlone(k: nat, m: nat, first: Phase, st': State, a: nat, b: nat)
    requires b <= m <= k < WORD && Reaches(State(Store(m, Below(m)), first, Test), st', a, b)
    ensures Reaches(State(Store(k, Below(k)), first, Test), st', a, b)
  {
    if m < k {
      SecondAlone(k - 1, m, first, st', a, b);
      var st := State(Store(k, Below(k)), first, Test);
      var st1 := Move(st, false, a, b);
      var st2 := Move(st1, false, a, b);
      assert Below(k) - {k - 1} == Below(k - 1);
      Then(st2, false, st', a, b);
      Then(st1, false, st', a, b);
      Then(st, false, st', a, b);
    }
  }

  /** A notice that has passed its comparison and then waits for the whole unlocked run writes a count above
      the heads that are left. */
  lemma NoticeRaises(n: nat, a: nat, b: nat)
    requires a < b < n < WORD
    ensures !Harmless(n, a, b)
  {
    var st := Start(n);
    var low := State(Store(a, Below(a)), Test, Test);
    var end := State(Store(b, Below(a)), Done, Done);
    Here(end, a, b);
    Steps4(low, true, true, false, false, end, a, b);
    FirstAlone(n, a, Test, end, a, b);
    Then(st, false, end, a, b);
    assert a in Below(b) && a !in Below(a);
  }

  /** The same the other way round. */
  lemma DropRaises(n: nat, a: nat, b: nat)
    requires b < a <= n < WORD
    ensures !Harmless(n, a, b)
  {
    var st := Start(n);
    var low := State(Store(b, Below(b)), Test, Test);
    var end := State(Store(a, Below(b)), Done, Done);
    Here(end, a, b);
    Steps4(low, false, false, true, true, end, a, b);
    SecondAlone(n, b, Test, end, a, b);
    Then(st, false, end, a, b);
    assert b in Below(a) && b !in Below(b);
  }

  /** With one count, a notice whose test is out of date counts down once too often, and a head below the
      count is gone. */
  lemma StaleTest(n: nat, t: nat)
    requires 1 <= t < n < WORD
    ensures !Harmless(n, t, t)
  {
    var mid := State(Store(t + 1, Below(t + 1)), Test, Test);
    var end := State(Store(t, Below(t) - {t - 1}), Done, Done);
    var st2 := Move(Move(mid, true, t, t), false, t, t);
    assert st2 == State(Store(t + 1, Below(t + 1)), Count, Count);
    var st6 := Move(Move(Move(Move(st2, true, t, t), true, t, t), true, t, t), true, t, t);
    assert Below(t + 1) - {t} == Below(t);
    assert st6 == State(Store(t, Below(t)), Done, Count);
    var st10 := Move(Move(Move(Move(st6, false, t, t), false, t, t), false, t, t), false, t, t);
    assert st10 == end;
    Here(end, t, t);
    Steps4(st6, false, false, false, false, end, t, t);
    Steps4(st2, true, true, true, true, end, t, t);
    Then(Move(mid, true, t, t), false, end, t, t);
    Then(mid, true, end, t, t);
    FirstAlone(n, t + 1, Test, end, t, t);
    Then(Start(n), false, end, t, t);
    assert t - 1 in Below(t) && t - 1 !in end.store.heads;
  }

  /** Two runs that both count down before either removes skip a head. */
  lemma SkippedHead(n: nat)
    requires 2 <= n < WORD
    ensures !Harmless(n, 0, 0)
  {
    var mid := State(Store(2, Below(2)), Test, Test);
    var end := State(Store(0, Below(2) - {0}), Done, Done);
    var st4 := Move(Move(Move(Move(mid, true, 0, 0), false, 0, 0), true, 0, 0), false, 0, 0);
    assert st4 == State(Store(0, Below(2)), Drop, Drop);
    var st8 := Move(Move(Move(Move(st4, true, 0, 0), false, 0, 0), true, 0, 0), true, 0, 0);
    assert st8 == State(Store(0, Below(2) - {0}), Done, Test);
    var st10 := Move(Move(st8, false, 0, 0), false, 0, 0);
    assert st10 == end;
    Here(end, 0, 0);
    Then(Move(st8, false, 0, 0), false, end, 0, 0);
    Then(st8, false, end, 0, 0);
    Steps4(st4, true, false, true, true, end, 0, 0);
    Steps4(mid, true, false, true, false, end, 0, 0);
    FirstAlone(n, 2, Test, end, 0, 0);
    Then(Start(n), false, end, 0, 0);
    assert 1 in end.store.heads && 1 !in Below(0);
  }

  lemma Steps4(st: State, m1: bool, m2: bool, m3: bool, m4: bool, st': State, a: nat, b: nat)
    requires Reaches(Move(Move(Move(Move(st, m1, a, b), m2, a, b), m3, a, b), m4, a, b), st', a, b)
    ensures Reaches(st, st', a, b)
  {
    var st1 := Move(st, m1, a, b);
    var st2 := Move(st1, m2, a, b);
    var st3 := Move(st2, m3, a, b);
    Then(st3, m4, st', a, b);
    Then(st2, m3, st', a, b);
    Then(st1, m2, st', a, b);
    Then(st, m1, st', a, b);
  }

  /** A notice that does not reach below the sections stays out, and the unlocked run is alone. */
  ghost predicate Alone(st: State, n: nat, a: nat) {
    && (st.second == Guard || st.second == Done) && a <= st.store.stored <= n
    && (match st.first
        case Test => Exact(st.store)
        case Count => Exact(st.store) && a < st.store.stored
        case Drop => st.store.heads == Below(st.store.stored + 1)
        case Write => Exact(st.store) && st.store.stored == a
        case Done => Exact(st.store)
        case Guard => false)
  }

  lemma MoveAlone(st: State, firstMoves: bool, n: nat, a: nat, b: nat)
    requires Alone(st, n, a) && n <= b && n < WORD
    ensures Alone(Move(st, firstMoves, a, b), n, a)
  {
    if firstMoves && st.first == Drop {
      assert Below(st.store.stored + 1) - {st.store.stored} == Below(st.store.stored);
    }
  }

  /** With one section and both counts zero, its head is removed before both can stop: whoever brings the
      counter to zero removes next, and until then nobody has seen a counter of zero for good. */
  ghost predicate LastHead(st: State) {
    && st.store.heads <= {0} && st.store.stored < WORD && st.first != Guard
    && (st.store.stored == 0 && 0 in st.store.heads ==> st.first == Drop || st.second == Drop)
    && ((st.first == Write || st.first == Done) && 0 in st.store.heads ==> st.second == Drop && st.store.stored == 0)
    && ((st.second == Write || st.second == Done) && 0 in st.store.heads ==> st.first == Drop && st.store.stored == 0)
    && (st.first == Done && st.second == Done ==> st.store.stored == 0)
  }

  lemma MoveLastHead(st: State, firstMoves: bool)
    requires LastHead(st)
    ensures LastHead(Move(st, firstMoves, 0, 0))
  {
  }

  lemma {:induction false} AloneEnds(st: State, schedule: seq<bool>, n: nat, a: nat, b: nat)
    requires Alone(st, n, a) && n <= b && n < WORD
    ensures Alone(Exec(st, schedule, a, b), n, a)
    decreases |schedule|
  {
    if schedule != [] {
      MoveAlone(st, schedule[0], n, a, b);
      AloneEnds(Move(st, schedule[0], a, b), schedule[1..], n, a, b);
    }
  }

  lemma {:induction false} LastHeadEnds(st: State, schedule: seq<bool>)
    requires LastHead(st)
    ensures LastHead(Exec(st, schedule, 0, 0))
    decreases |schedule|
  {
    if schedule != [] {
      MoveLastHead(st, schedule[0]);
      LastHeadEnds(Move(st, schedule[0], 0, 0), schedule[1..]);
    }
  }

  /** An unlocked run for `a` and a notice for `b` may overlap at will, and still leave exactly the heads below
      the counter, if and only if the notice does not reach below the stored sections, or there is but one
      section and both drop it. */
  lemma OverlapHarmless(n: nat, a: nat, b: nat)
    requires a <= n < WORD
    ensures Harmless(n, a, b) <==> n <= b || (n == 1 && a == 0 && b == 0)
  {
    if n <= b {
      forall st | Reaches(Start(n), st, a, b) && st.first == Done && st.second == Done
        ensures Exact(st.store)
      {
        var schedule :| Exec(Start(n), schedule, a, b) == st;
        AloneEnds(Start(n), schedule, n, a, b);
      }
    } else if n == 1 && a == 0 && b == 0 {
      forall st | Reaches(Start(n), st, a, b) && st.first == Done && st.second == Done
        ensures Exact(st.store)
      {
        var schedule :| Exec(Start(n), schedule, a, b) == st;
        LastHeadEnds(Start(n), schedule);
      }
    } else if a < b {
      NoticeRaises(n, a, b);
    } else if b < a {
      DropRaises(n, a, b);
    } else if 0 < a {
      StaleTest(n, a);
    } else {
      SkippedHead(n);
    }
  }

  /** One of the two is about to count down from zero, which makes the counter wrap. */
  ghost predicate AboutToWrap(st: State) {
    st.store.stored == 0 && (st.first == Count || st.second == Count)
  }

  ghost predicate NeverWraps(n: nat, a: nat, b: nat) {
    forall st :: Reaches(Start(n), st, a, b) ==> !AboutToWrap(st)
  }

  /** If neither drops all sections, the counter is at least the number of those about to count down. */
  ghost predicate Room(st: State) {
    (if st.first == Count then 1 else 0) + (if st.second == Count then 1 else 0) <= st.store.stored < WORD
  }

  /** If the unlocked run has nothing to drop, only the notice counts down. */
  ghost predicate NoticeOnly(st: State, n: nat) {
    && st.store.stored <= n < WORD && st.first in {Test, Write, Done}
    && (st.second == Count ==> 0 < st.store.stored)
  }

  lemma {:induction false} RoomStays(st: State, schedule: seq<bool>, a: nat, b: nat)
    requires Room(st) && 0 < a < WORD && 0 < b < WORD
    ensures Room(Exec(st, schedule, a, b))
    decreases |schedule|
  {
    if schedule != [] {
      RoomStays(Move(st, schedule[0], a, b), schedule[1..], a, b);
    }
  }

  lemma {:induction false} NoticeOnlyStays(st: State, schedule: seq<bool>, n: nat, b: nat)
    requires NoticeOnly(st, n) && b < n
    ensures NoticeOnly(Exec(st, schedule, n, b), n)
    decreases |schedule|
  {
    if schedule != [] {
      NoticeOnlyStays(Move(st, schedule[0], n, b), schedule[1..], n, b);
    }
  }

  /** A notice that has made its test waits until the unlocked run has dropped everything. */
  lemma NoticeWraps(n: nat, b: nat)
    requires b < n < WORD
    ensures !NeverWraps(n, 0, b)
  {
    var st, end := Start(n), State(Store(0, Below(0)), Test, Count);
    Here(end, 0, b);
    FirstAlone(n, 0, Count, end, 0, b);
    Then(Move(st, false, 0, b), false, end, 0, b);
    Then(st, false, end, 0, b);
    assert AboutToWrap(end);
  }

  lemma DropWraps(n: nat, a: nat)
    requires a < n < WORD
    ensures !NeverWraps(n, a, 0)
  {
    var st, end := Start(n), State(Store(0, Below(0)), Count, Test);
    Here(end, a, 0);
    SecondAlone(n, 0, Count, end, a, 0);
    Then(Move(st, true, a, 0), false, end, a, 0);
    Then(st, true, end, a, 0);
    assert AboutToWrap(end);
  }

  /** However the two overlap, the 64-bit counter never wraps if and only if the notice does not reach below the
      stored sections, or the unlocked run has nothing to drop, or both leave a section. An unlocked run always
      drops everything, so then it takes that the notice stays out. */
  lemma CounterNeverWraps(n: nat, a: nat, b: nat)
    requires a <= n < WORD
    ensures NeverWraps(n, a, b) <==> n <= b || a == n || (0 < a && 0 < b)
    ensures a == 0 ==> (NeverWraps(n, a, b) <==> n <= b)
  {
    if n <= b || a == n || (0 < a && 0 < b) {
      forall st | Reaches(Start(n), st, a, b)
        ensures !AboutToWrap(st)
      {
        var schedule :| Exec(Start(n), schedule, a, b) == st;
        if n <= b {
          AloneEnds(Start(n), schedule, n, a, b);
        } else if a == n {
          NoticeOnlyStays(Start(n), schedule, n, b);
        } else {
          RoomStays(Start(n), schedule, a, b);
        }
      }
    } else if a == 0 {
      NoticeWraps(n, b);
    } else {
      DropWraps(n, a);
    }
  }

  lemma Exec4(st: State, m1: bool, m2: bool, m3: bool, m4: bool, rest: seq<bool>, a: nat, b: nat)
    ensures Exec(st, [m1, m2, m3, m4] + rest, a, b) ==
      Exec(Move(Move(Move(Move(st, m1, a, b), m2, a, b), m3, a, b), m4, a, b), rest, a, b)
  {
    var all := [m1, m2, m3, m4] + rest;
    assert all[1..] == [m2, m3, m4] + rest && all[1..][1..] == [m3, m4] + rest;
    assert all[1..][1..][1..] == [m4] + rest && all[1..][1..][1..][1..] == rest;
    var st2 := Move(Move(st, m1, a, b), m2, a, b);
    assert Exec(st, all, a, b) == Exec(st2, [m3, m4] + rest, a, b);
    assert Exec(st2, [m3, m4] + rest, a, b) == Exec(Move(st2, m3, a, b), [m4] + rest, a, b);
  }

  /** One section that both drop: the notice makes its test, the other runs to its end, and then the notice
      counts down from zero. */
  lemma WrapSchedule()
    ensures Exec(Start(1), [false, false, true, true, true, true, true, false], 0, 0) ==
      State(Store(WORD - 1, {}), Done, Drop)
  {
    Exec4(Start(1), false, false, true, true, [true, true, true, false], 0, 0);
    var mid := State(Store(0, Below(1)), Drop, Count);
    Exec4(mid, true, true, true, false, [], 0, 0);
    assert [false, false, true, true] + [true, true, true, false] ==
      [false, false, true, true, true, true, true, false];
    assert Below(1) - {0} == {};
  }
}
