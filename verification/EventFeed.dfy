/** One-to-many event delivery: a send walks a shrinking prefix of the subscriber list, in place, while
    subscribers unsubscribe. Which receivers are ready, and when the removals that arrive are taken up, is left
    open. */
module EventFeed {

  type Channel = nat

  /** The channel on which removals arrive; it is always the first case. */
  const REMOVE: Channel := 0

  /** The subscribers in a case list, the remove channel left aside. */
  ghost function Subs(cases: seq<Channel>): multiset<Channel> {
    if cases == [] then multiset{} else multiset(cases[1..])
  }

  ghost predicate WellFormed(cases: seq<Channel>) {
    0 < |cases| && cases[0] == REMOVE && forall i :: 0 < i < |cases| ==> cases[i] != REMOVE
  }

  /** caseList.find. */
  method Find(cases: seq<Channel>, ch: Channel) returns (index: int)
    ensures -1 <= index < |cases|
    ensures 0 <= index ==> cases[index] == ch && ch !in cases[..index]
    ensures index == -1 ==> ch !in cases
  {
    for i := 0 to |cases|
      invariant ch !in cases[..i]
    {
      if cases[i] == ch {
        return i;
      }
    }
    index := -1;
  }

  /** caseList.delete. */
  function Deleted(cases: seq<Channel>, index: nat): (r: seq<Channel>)
    requires index < |cases|
    ensures multiset(r) == multiset(cases) - multiset{cases[index]}
  {
    assert cases == cases[..index] + [cases[index]] + cases[index + 1..];
    cases[..index] + cases[index + 1..]
  }

  /** caseList.deactivate: the case changes places with the last active one. */
  function Swapped(cases: seq<Channel>, index: nat, last: nat): (r: seq<Channel>)
    requires index <= last < |cases|
    ensures |r| == |cases|
  {
    cases[index := cases[last]][last := cases[index]]
  }

  /** The subscribers among the first `active` cases. */
  ghost function Active(cases: seq<Channel>, active: nat): multiset<Channel>
    requires 0 < active <= |cases|
  {
    multiset(cases[1..active])
  }

  lemma SwapSame(s: seq<Channel>, i: nat, j: nat)
    requires i <= j < |s|
    ensures multiset(Swapped(s, i, j)) == multiset(s)
  {
  }

  lemma SwapLast(s: seq<Channel>, i: nat)
    requires i < |s|
    ensures multiset(Swapped(s, i, |s| - 1)[..|s| - 1]) + multiset{s[i]} == multiset(s)
  {
    var r := Swapped(s, i, |s| - 1);
    SwapSame(s, i, |s| - 1);
    assert r == r[..|s| - 1] + [s[i]];
  }

  lemma SwapOut(cases: seq<Channel>, index: nat, active: nat)
    requires WellFormed(cases) && 0 < index < active <= |cases|
    ensures var r := Swapped(cases, index, active - 1);
      && WellFormed(r) && Subs(r) == Subs(cases)
      && Active(r, active - 1) + multiset{cases[index]} == Active(cases, active)
  {
    var r := Swapped(cases, index, active - 1);
    SwapSame(cases[1..], index - 1, active - 2);
    assert r[1..] == Swapped(cases[1..], index - 1, active - 2);
    SwapLast(cases[1..active], index - 1);
    assert r[1..active - 1] == Swapped(cases[1..active], index - 1, active - 2)[..active - 2];
  }

  lemma DeleteFrom(cases: seq<Channel>, index: nat, active: nat)
    requires WellFormed(cases) && 0 < index < |cases| && 0 < active <= |cases|
    ensures var r := Deleted(cases, index);
      && WellFormed(r) && Subs(r) + multiset{cases[index]} == Subs(cases)
      && (if index < active then Active(r, active - 1) + multiset{cases[index]} == Active(cases, active)
          else active < |cases| && Active(r, active) == Active(cases, active))
  {
    var r := Deleted(cases, index);
    assert r[1..] == Deleted(cases[1..], index - 1);
    if index < active {
      assert r[1..active - 1] == Deleted(cases[1..active], index - 1);
    } else {
      assert r[1..active] == cases[1..active];
    }
  }

  lemma Located(cases: seq<Channel>, ch: Channel, index: int)
    requires WellFormed(cases) && ch in Subs(cases)
    requires -1 <= index < |cases| && (0 <= index ==> cases[index] == ch) && (index == -1 ==> ch !in cases)
    ensures 0 < index
  {
    var i :| 0 <= i < |cases[1..]| && cases[1..][i] == ch;
    assert cases[i + 1] == ch;
  }

  lemma Joined(cases: seq<Channel>, inbox: seq<Channel>)
    requires WellFormed(cases) && REMOVE !in inbox
    ensures WellFormed(cases + inbox) && Subs(cases + inbox) == Subs(cases) + multiset(inbox)
    ensures Active(cases + inbox, |cases + inbox|) == Subs(cases + inbox)
  {
    var joined := cases + inbox;
    assert joined[1..] == cases[1..] + inbox && joined[1..|joined|] == joined[1..];
  }

  lemma NoneActive(cases: seq<Channel>)
    requires 0 < |cases|
    ensures Active(cases, 1) == multiset{}
  {
  }

  class Feed {
    var inbox: seq<Channel>
    var sendCases: seq<Channel>

    ghost predicate Valid()
      reads this
    {
      WellFormed(sendCases) && REMOVE !in inbox
    }

    /** Everyone subscribed, as often as subscribed. */
    ghost function Subscribed(): multiset<Channel>
      reads this
    {
      Subs(sendCases) + multiset(inbox)
    }

    constructor ()
      ensures Valid() && Subscribed() == multiset{}
    {
      inbox, sendCases := [], [REMOVE];
    }

    /** A new channel waits in the inbox until the next send. */
    method Subscribe(ch: Channel)
      requires Valid() && ch != REMOVE
      modifies `inbox
      ensures Valid() && Subscribed() == old(Subscribed()) + multiset{ch}
    {
      inbox := inbox + [ch];
    }

    /** remove while no send is in progress. */
    method Remove(ch: Channel)
      requires Valid() && ch in Subscribed()
      modifies this
      ensures Valid() && Subscribed() == old(Subscribed()) - multiset{ch}
    {
      var index := Find(inbox, ch);
      if index != -1 {
        inbox := Deleted(inbox, index);
      } else {
        index := Find(sendCases, ch);
        Located(sendCases, ch, index);
        DeleteFrom(sendCases, index, |sendCases|);
        sendCases := Deleted(sendCases, index);
      }
    }

    /** What a send has achieved so far: `delivered` is the log of deliveries, `removed` who was removed,
        `missed` who was removed before the value was delivered. */
    ghost predicate Progress(all: multiset<Channel>, active: nat, nsent: nat, delivered: seq<Channel>,
                             removed: multiset<Channel>, missed: multiset<Channel>)
      reads this
    {
      && Valid() && 0 < active <= |sendCases| && nsent == |delivered|
      && Subs(sendCases) + removed == all
      && Active(sendCases, active) + multiset(delivered) + missed == all
      && missed <= removed
    }

    /** One delivery: the case leaves the active prefix. */
    method Deactivate(index: nat, active: nat, nsent: nat, ghost all: multiset<Channel>,
                      ghost delivered: seq<Channel>, ghost removed: multiset<Channel>,
                      ghost missed: multiset<Channel>)
      returns (ghost log: seq<Channel>)
      requires Progress(all, active, nsent, delivered, removed, missed) && 0 < index < active
      modifies `sendCases
      ensures Progress(all, active - 1, nsent + 1, log, removed, missed) && |sendCases| == old(|sendCases|)
    {
      hide WellFormed, Subs;
      SwapOut(sendCases, index, active);
      log := delivered + [sendCases[index]];
      sendCases := Swapped(sendCases, index, active - 1);
    }

    /** The fast path: offer the value to every active case without blocking. */
    method TryAll(active0: nat, nsent0: nat, ghost all: multiset<Channel>, ghost delivered: seq<Channel>,
                  ghost removed: multiset<Channel>, ghost missed: multiset<Channel>)
      returns (active: nat, nsent: nat, ghost log: seq<Channel>)
      requires Progress(all, active0, nsent0, delivered, removed, missed)
      modifies `sendCases
      ensures Progress(all, active, nsent, log, removed, missed) && active <= active0 && |sendCases| == old(|sendCases|)
    {
      active, nsent, log := active0, nsent0, delivered;
      var i := 1;
      while i < active
        invariant Progress(all, active, nsent, log, removed, missed) && active <= active0 && 0 < i <= active
        invariant |sendCases| == old(|sendCases|)
        decreases active - i
      {
        var ready: bool := *;
        if ready {
          log := Deactivate(i, active, nsent, all, log, removed, missed);
          nsent, active := nsent + 1, active - 1;
        } else {
          i := i + 1;
        }
      }
    }

    /** A removal arrives while the send waits. */
    method RemoveActive(ch: Channel, active: nat, nsent: nat, ghost all: multiset<Channel>,
                        ghost delivered: seq<Channel>, ghost removed: multiset<Channel>,
                        ghost missed: multiset<Channel>)
      returns (left: nat, ghost out: multiset<Channel>)
      requires Progress(all, active, nsent, delivered, removed, missed) && ch in Subs(sendCases)
      modifies `sendCases
      ensures Progress(all, left, nsent, delivered, removed + multiset{ch}, out) && left <= active
      ensures |sendCases| == old(|sendCases|) - 1
    {
      hide WellFormed, Deleted, Active;
      var index := Find(sendCases, ch);
      Located(sendCases, ch, index);
      DeleteFrom(sendCases, index, active);
      sendCases := Deleted(sendCases, index);
      if index < active {
        left, out := active - 1, missed + multiset{ch};
      } else {
        left, out := active, missed;
      }
    }

    /** Wait until some active case can proceed: a receiver takes the value, or the next of the removals that
        arrive is taken up. Meanwhile others subscribe and unsubscribe through the inbox. */
    method Select(requests: seq<Channel>, taken0: nat, active0: nat, nsent0: nat, ghost all: multiset<Channel>,
                  ghost delivered0: seq<Channel>, ghost missed0: multiset<Channel>)
      returns (taken: nat, active: nat, nsent: nat, ghost delivered: seq<Channel>, ghost missed: multiset<Channel>)
      requires taken0 <= |requests| && multiset(requests) <= all && 1 < active0
      requires Progress(all, active0, nsent0, delivered0, multiset(requests[..taken0]), missed0)
      modifies `sendCases, `inbox
      ensures taken0 <= taken <= |requests|
      ensures Progress(all, active, nsent, delivered, multiset(requests[..taken]), missed)
      ensures active + |sendCases| < active0 + old(|sendCases|)
    {
      hide WellFormed, Active;
      taken, active, nsent, delivered, missed := taken0, active0, nsent0, delivered0, missed0;
      var waiting: seq<Channel> := *;
      if REMOVE !in waiting {
        inbox := waiting;
      }
      var chosen: nat :| chosen < active && (chosen == 0 ==> taken < |requests|);
      if chosen == 0 {
        NextRequest(requests, taken, all, Subs(sendCases));
        active, missed :=
          RemoveActive(requests[taken], active, nsent, all, delivered, multiset(requests[..taken]), missed);
        taken := taken + 1;
      } else {
        delivered := Deactivate(chosen, active, nsent, all, delivered, multiset(requests[..taken]), missed);
        nsent, active := nsent + 1, active - 1;
      }
    }

    /** Send. `requests` are the removals that arrive while it is under way, each of a subscription; it takes up
        some first part of them. Everyone subscribed when it begins gets the value exactly as often as subscribed,
        except for those removed before their turn; afterwards the list holds the same subscribers without the
        removed. Whoever subscribes meanwhile is not served. */
    method Send(requests: seq<Channel>)
      returns (nsent: nat, taken: nat, ghost delivered: seq<Channel>, ghost missed: multiset<Channel>)
      requires Valid() && multiset(requests) <= Subscribed()
      modifies this
      ensures Valid() && nsent == |delivered| && taken <= |requests|
      ensures Subs(sendCases) + multiset(requests[..taken]) == old(Subscribed())
      ensures multiset(delivered) + missed == old(Subscribed()) && missed <= multiset(requests[..taken])
      ensures requests == [] ==> multiset(delivered) == Subs(sendCases) == old(Subscribed())
    {
      hide WellFormed, Active, Subs;
      ghost var all := Subscribed();
      Joined(sendCases, inbox);
      sendCases, inbox := sendCases + inbox, [];
      var active: nat := |sendCases|;
      nsent, taken, delivered, missed := 0, 0, [], multiset{};
      while true
        invariant taken <= |requests|
        invariant Progress(all, active, nsent, delivered, multiset(requests[..taken]), missed)
        decreases active + |sendCases|
      {
        active, nsent, delivered := TryAll(active, nsent, all, delivered, multiset(requests[..taken]), missed);
        if active == 1 {
          NoneActive(sendCases);
          NoneMissed(requests, taken, missed, delivered, Subs(sendCases), all);
          break;
        }
        taken, active, nsent, delivered, missed := Select(requests, taken, active, nsent, all, delivered, missed);
      }
    }
  }

  /** Without removals nobody is missed. */
  lemma NoneMissed(requests: seq<Channel>, taken: nat, missed: multiset<Channel>, delivered: seq<Channel>,
                   subs: multiset<Channel>, all: multiset<Channel>)
    requires taken <= |requests| && missed <= multiset(requests[..taken])
    requires subs + multiset(requests[..taken]) == all && multiset(delivered) + missed == all
    ensures requests == [] ==> multiset(delivered) == subs == all
  {
    if requests == [] {
      assert requests[..taken] == [];
      assert multiset(requests[..taken]) == multiset{};
      assert missed == multiset{};
      assert subs == subs + multiset{} && multiset(delivered) == multiset(delivered) + multiset{};
    }
  }

  /** The next one to be removed is still there. */
  lemma NextRequest(requests: seq<Channel>, taken: nat, all: multiset<Channel>, subs: multiset<Channel>)
    requires taken < |requests| && multiset(requests) <= all && subs + multiset(requests[..taken]) == all
    ensures requests[taken] in subs
    ensures multiset(requests[..taken + 1]) == multiset(requests[..taken]) + multiset{requests[taken]}
  {
    assert requests[..taken + 1] == requests[..taken] + [requests[taken]];
    assert requests == requests[..taken + 1] + requests[taken + 1..];
    assert multiset(requests)[requests[taken]] > multiset(requests[..taken])[requests[taken]];
  }

  /** With distinct subscriptions: nobody gets the value twice, and whoever's removal was not taken up gets it. */
  lemma ExactlyOnce(all: multiset<Channel>, delivered: seq<Channel>, requests: seq<Channel>, taken: nat,
                    missed: multiset<Channel>, ch: Channel)
    requires taken <= |requests| && multiset(delivered) + missed == all && missed <= multiset(requests[..taken])
    requires all[ch] <= 1
    ensures multiset(delivered)[ch] <= 1
    ensures ch in all && ch !in requests[..taken] ==> multiset(delivered)[ch] == 1
  {
    assert all[ch] == multiset(delivered)[ch] + missed[ch];
    assert ch in requests[..taken] <==> ch in multiset(requests[..taken]);
  }
}
