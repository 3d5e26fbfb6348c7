/** One-to-many event delivery: a value goes to every subscribed channel, in whatever order they are ready. */
module Feeds {
  type Channel = nat

  /** A select case: position 0 receives removal requests, the others send to a subscribed channel. */
  datatype Case = RemoveSub | Sub(channel: Channel)

  ghost predicate AllSubs(s: seq<Case>) {
    forall i :: 0 <= i < |s| ==> s[i].Sub?
  }

  /** A list of cases that starts with the removal case. */
  ghost predicate WellFormed(s: seq<Case>) {
    |s| > 0 && s[0] == RemoveSub && AllSubs(s[1..])
  }

  /** Index of the first case with the channel. */
  method Find(s: seq<Case>, channel: Channel) returns (index: int)
    ensures index == -1 <==> Sub(channel) !in s
    ensures index != -1 ==> 0 <= index < |s| && s[index] == Sub(channel) && Sub(channel) !in s[..index]
  {
    for i := 0 to |s|
      invariant Sub(channel) !in s[..i]
    {
      if s[i] == Sub(channel) {
        return i;
      }
    }
    return -1;
  }

  function Delete(s: seq<Case>, index: nat): (r: seq<Case>)
    requires index < |s|
    ensures |r| == |s| - 1
  {
    s[..index] + s[index + 1..]
  }

  /** Swaps a case with the last active one, which then is no longer active. */
  function Deactivate(s: seq<Case>, active: nat, index: nat): (r: seq<Case>)
    requires index < active <= |s|
    ensures |r| == |s|
  {
    s[index := s[active - 1]][active - 1 := s[index]]
  }

  lemma Deactivated(s: seq<Case>, active: nat, index: nat)
    requires 1 <= index < active <= |s|
    ensures var r := Deactivate(s, active, index);
      && multiset(r[1..active - 1]) == multiset(s[1..active]) - multiset{s[index]}
      && multiset(r[active - 1..]) == multiset(s[active..]) + multiset{s[index]}
      && r[0] == s[0]
  {
    DeactivatedFront(s, active, index);
    assert Deactivate(s, active, index)[active - 1..] == [s[index]] + s[active..];
  }

  lemma DeactivatedFront(s: seq<Case>, active: nat, index: nat)
    requires 1 <= index < active <= |s|
    ensures multiset(Deactivate(s, active, index)[1..active - 1]) == multiset(s[1..active]) - multiset{s[index]}
  {
    var front, r := s[1..active - 1], Deactivate(s, active, index)[1..active - 1];
    assert s[1..active] == front + [s[active - 1]];
    if index < active - 1 {
      assert r == front[index - 1 := s[active - 1]];
    } else {
      assert r == front;
    }
    Replaced(front, index - 1, s[active - 1], s[index], r, s[1..active]);
  }

  /** Dropping the last element after moving it over another one. */
  lemma Replaced(front: seq<Case>, i: nat, last: Case, gone: Case, r: seq<Case>, all: seq<Case>)
    requires i <= |front| && all == front + [last] && gone == all[i]
    requires r == if i < |front| then front[i := last] else front
    ensures multiset(r) == multiset(all) - multiset{gone}
  {
  }

  lemma Deleted(s: seq<Case>, lo: nat, hi: nat, index: nat)
    requires lo <= index < hi <= |s|
    ensures multiset(Delete(s, index)[lo..hi - 1]) == multiset(s[lo..hi]) - multiset{s[index]}
  {
    var front, back, r := s[lo..index], s[index + 1..hi], Delete(s, index)[lo..hi - 1];
    assert s[lo..hi] == front + [s[index]] + back;
    forall i | 0 <= i < |r| ensures r[i] == (front + back)[i] {
      assert r[i] == s[if i < index - lo then lo + i else lo + i + 1];
    }
    assert r == front + back;
  }

  /** Deleting a case behind position lo. */
  lemma DeletedBehind(s: seq<Case>, lo: nat, index: nat)
    requires lo <= index < |s|
    ensures multiset(Delete(s, index)[lo..]) == multiset(s[lo..]) - multiset{s[index]}
  {
    Deleted(s, lo, |s|, index);
    var r := Delete(s, index);
    assert s[lo..|s|] == s[lo..] && r[lo..|s| - 1] == r[lo..];
  }

  lemma DeletedSubs(s: seq<Case>, lo: nat, index: nat)
    requires lo <= index < |s| && AllSubs(s[lo..])
    ensures AllSubs(Delete(s, index)[lo..])
  {
    var all, r := s[lo..], Delete(s, index)[lo..];
    forall i | 0 <= i < |r| ensures r[i].Sub? {
      assert r[i] == all[if i < index - lo then i else i + 1];
    }
  }

  /**
   The state of a Send: `cases` is the prefix of length `active`. What was there at the start is still
   active, delivered, or removed before delivery; what is no longer active is delivered and not removed.
   */
  ghost predicate Sending(initial: multiset<Case>, s: seq<Case>, active: nat, delivered: seq<Case>, early: seq<Case>, late: seq<Case>) {
    && 1 <= active <= |s| && s[0] == RemoveSub && RemoveSub !in initial
    && multiset(s[1..active]) + multiset(delivered) + multiset(early) == initial
    && multiset(s[active..]) + multiset(late) == multiset(delivered)
  }

  lemma SendOne(initial: multiset<Case>, s: seq<Case>, active: nat, delivered: seq<Case>, early: seq<Case>, late: seq<Case>, index: nat)
    requires Sending(initial, s, active, delivered, early, late) && 1 <= index < active
    ensures Sending(initial, Deactivate(s, active, index), active - 1, delivered + [s[index]], early, late)
  {
    Deactivated(s, active, index);
    assert s[index] in s[1..active];
  }

  /** A removal request for a channel that did not get the value yet. */
  lemma RemoveActive(initial: multiset<Case>, s: seq<Case>, active: nat, delivered: seq<Case>, early: seq<Case>, late: seq<Case>, index: nat)
    requires Sending(initial, s, active, delivered, early, late) && 1 <= index < active
    ensures Sending(initial, Delete(s, index), active - 1, delivered, early + [s[index]], late)
  {
    Deleted(s, 1, active, index);
    assert Delete(s, index)[active - 1..] == s[active..];
    assert s[index] in s[1..active];
  }

  /** A removal request for a channel that already got it. */
  lemma RemoveSent(initial: multiset<Case>, s: seq<Case>, active: nat, delivered: seq<Case>, early: seq<Case>, late: seq<Case>, index: nat)
    requires Sending(initial, s, active, delivered, early, late) && active <= index < |s|
    ensures Sending(initial, Delete(s, index), active, delivered, early, late + [s[index]])
  {
    DeletedBehind(s, active, index);
    assert Delete(s, index)[1..active] == s[1..active];
    assert s[index] in s[active..];
  }

  /** Whether a channel takes a value right now: anything may happen. */
  method TrySend(c: Case) returns (ok: bool)
  {
    ok := *;
  }

  class Feed {
    var sendCases: seq<Case>
    var inbox: seq<Case>

    ghost predicate Valid()
      reads this
    {
      WellFormed(sendCases) && AllSubs(inbox)
    }

    /** The subscriptions, as often as each channel is subscribed. */
    ghost function Subscribed(): (m: multiset<Case>)
      requires Valid()
      reads this
    {
      multiset(sendCases[1..]) + multiset(inbox)
    }

    constructor ()
      ensures Valid() && Subscribed() == multiset{}
    {
      sendCases, inbox := [RemoveSub], [];
    }

    method Subscribe(channel: Channel)
      requires Valid()
      modifies this`inbox
      ensures Valid() && Subscribed() == old(Subscribed()) + multiset{Sub(channel)}
    {
      inbox := inbox + [Sub(channel)];
    }

    /** Ends one subscription of a channel while no Send is in progress. */
    method Remove(channel: Channel)
      requires Valid() && Sub(channel) in Subscribed()
      modifies this`inbox, this`sendCases
      ensures Valid() && Subscribed() == old(Subscribed()) - multiset{Sub(channel)}
    {
      var index := Find(inbox, channel);
      if index != -1 {
        DeletedBehind(inbox, 0, index);
        DeletedSubs(inbox, 0, index);
        assert inbox[0..] == inbox && Delete(inbox, index)[0..] == Delete(inbox, index);
        inbox := Delete(inbox, index);
      } else {
        index := Find(sendCases, channel);
        DeletedBehind(sendCases, 1, index);
        DeletedSubs(sendCases, 1, index);
        sendCases := Delete(sendCases, index);
      }
    }

    /** The value went to an active channel. */
    method Sent(ghost initial: multiset<Case>, active: nat, delivered: seq<Case>, ghost early: seq<Case>, ghost late: seq<Case>, index: nat)
        returns (sent: seq<Case>)
      requires Sending(initial, sendCases, active, delivered, early, late) && 1 <= index < active
      modifies this`sendCases
      ensures Sending(initial, sendCases, active - 1, sent, early, late)
      ensures |sendCases| == old(|sendCases|) && |sent| == |delivered| + 1
    {
      SendOne(initial, sendCases, active, delivered, early, late, index);
      sent := delivered + [sendCases[index]];
      sendCases := Deactivate(sendCases, active, index);
    }

    /** The fast path: each active channel is tried once, without blocking. */
    method TryAll(ghost initial: multiset<Case>, active: nat, delivered: seq<Case>, ghost early: seq<Case>, ghost late: seq<Case>)
        returns (left: nat, sent: seq<Case>, n: nat)
      requires Sending(initial, sendCases, active, delivered, early, late)
      modifies this`sendCases
      ensures Sending(initial, sendCases, left, sent, early, late)
      ensures |sendCases| == old(|sendCases|) && left <= active && n == |sent| - |delivered| == active - left
    {
      left, sent, n := active, delivered, 0;
      var i := 1;
      while i < left
        invariant 1 <= i && left <= active && n == |sent| - |delivered| == active - left
        invariant Sending(initial, sendCases, left, sent, early, late)
        invariant |sendCases| == old(|sendCases|)
        decreases left - i
      {
        var ok := TrySend(sendCases[i]);
        if ok {
          n := n + 1;
          sent := Sent(initial, left, sent, early, late, i);
          left := left - 1;
        } else {
          i := i + 1;
        }
      }
    }

    /** A removal request arrives, for any channel that is subscribed. */
    method RemoveRequested(ghost initial: multiset<Case>, active: nat, ghost delivered: seq<Case>, early: seq<Case>, late: seq<Case>)
        returns (left: nat, early': seq<Case>, late': seq<Case>)
      requires Sending(initial, sendCases, active, delivered, early, late) && active > 1
      modifies this`sendCases
      ensures Sending(initial, sendCases, left, delivered, early', late')
      ensures |sendCases| + 1 == old(|sendCases|) && left <= active
    {
      left, early', late' := active, early, late;
      StillSubs(initial, sendCases, active, delivered, early, late);
      var some :| 1 <= some < |sendCases|;
      var channel := sendCases[some].channel;
      var index := Find(sendCases, channel);
      if index < active {
        RemoveActive(initial, sendCases, active, delivered, early, late, index);
        early' := early + [Sub(channel)];
        left := active - 1;
      } else {
        RemoveSent(initial, sendCases, active, delivered, early, late, index);
        late' := late + [Sub(channel)];
      }
      sendCases := Delete(sendCases, index);
    }

    /** Blocks until a channel takes the value or a removal is requested, whichever comes first. */
    method SelectOne(ghost initial: multiset<Case>, active: nat, delivered: seq<Case>, early: seq<Case>, late: seq<Case>)
        returns (left: nat, sent: seq<Case>, early': seq<Case>, late': seq<Case>, n: nat)
      requires Sending(initial, sendCases, active, delivered, early, late) && active > 1
      modifies this`sendCases
      ensures Sending(initial, sendCases, left, sent, early', late')
      ensures |sendCases| + left < old(|sendCases|) + active && n == |sent| - |delivered|
    {
      left, sent, early', late', n := active, delivered, early, late, 0;
      var chosen :| 0 <= chosen < active;
      if chosen == 0 {
        left, early', late' := RemoveRequested(initial, active, delivered, early, late);
      } else {
        n := 1;
        sent := Sent(initial, active, delivered, early, late, chosen);
        left := active - 1;
      }
    }

    /** What others do to the inbox meanwhile: subscribe, and take back what was not picked up yet. */
    method Others()
      requires AllSubs(inbox)
      modifies this`inbox
      ensures AllSubs(inbox)
    {
      var n: nat :| n >= 0;
      for k := 0 to n
        invariant AllSubs(inbox)
      {
        var subscribe: bool, channel: Channel := *, *;
        var index := Find(inbox, channel);
        if subscribe {
          inbox := inbox + [Sub(channel)];
        } else if index != -1 {
          DeletedSubs(inbox, 0, index);
          inbox := Delete(inbox, index);
        }
      }
    }

    /**
     Sends a value to every channel subscribed when the lock is taken. Each of them gets it once, unless
     it is removed first; removals after delivery and before it are reported separately.
     */
    method Send() returns (nsent: nat, delivered: seq<Case>, early: seq<Case>, late: seq<Case>)
      requires Valid()
      modifies this
      ensures Valid() && nsent == |delivered|
      ensures multiset(delivered) + multiset(early) == old(Subscribed())
      ensures multiset(sendCases[1..]) + multiset(late) == multiset(delivered)
    {
      delivered, early, late := [], [], [];
      ghost var initial := Subscribed();
      assert (sendCases + inbox)[1..] == sendCases[1..] + inbox;
      sendCases := sendCases + inbox;
      inbox := [];
      var cases: nat := |sendCases|;
      Started(initial, sendCases);
      nsent := 0;
      while true
        invariant Sending(initial, sendCases, cases, delivered, early, late)
        invariant AllSubs(inbox) && nsent == |delivered|
        decreases |sendCases| + cases
      {
        var n;
        cases, delivered, n := TryAll(initial, cases, delivered, early, late);
        nsent := nsent + n;
        if cases == 1 {
          break;
        }
        Others();
        cases, delivered, early, late, n := SelectOne(initial, cases, delivered, early, late);
        nsent := nsent + n;
      }
      StillSubs(initial, sendCases, cases, delivered, early, late);
    }
  }

  lemma Started(initial: multiset<Case>, s: seq<Case>)
    requires WellFormed(s) && initial == multiset(s[1..])
    ensures Sending(initial, s, |s|, [], [], [])
  {
    assert s[1..|s|] == s[1..] && s[|s|..] == [];
    assert RemoveSub !in s[1..];
  }

  lemma StillSubs(initial: multiset<Case>, s: seq<Case>, active: nat, delivered: seq<Case>, early: seq<Case>, late: seq<Case>)
    requires Sending(initial, s, active, delivered, early, late)
    ensures WellFormed(s)
  {
    forall i | 1 <= i < |s| ensures s[i].Sub? {
      if i < active {
        assert s[i] in s[1..active];
        assert s[i] in multiset(s[1..active]);
      } else {
        assert s[i] in s[active..];
        assert s[i] in multiset(s[active..]);
        assert s[i] in multiset(delivered);
      }
      assert s[i] in initial;
    }
  }

  /** Channels that were subscribed once: each gets the value exactly once unless it was removed before delivery. */
  lemma ExactlyOnce(initial: multiset<Case>, delivered: multiset<Case>, early: multiset<Case>, late: multiset<Case>, kept: multiset<Case>, c: Case)
    requires delivered + early == initial && kept + late == delivered && initial[c] <= 1
    ensures delivered[c] <= 1
    ensures c in kept ==> delivered[c] == 1
    ensures c in initial && c !in early ==> delivered[c] == 1
    ensures c in initial && c !in early + late ==> kept[c] == 1
    ensures c !in initial ==> delivered[c] == 0
  {
  }
}
