/**
 The loop that schedules the pool's background runs. Requests that arrive while a run is
 active are merged into the next one; each requester gets the channel that closes with it.
 A channel is identified by the number of channels made before it.
 */
module ReorgScheduler {
  import opened Transactions
  import opened BlockTree

  datatype ResetRequest = ResetRequest(oldHead: Hash, newHead: Hash)

  /** A launched run: the channel it closes at its end, and what it was given to do. */
  datatype Run = Run(done: nat, reset: Option<ResetRequest>, dirty: Option<set<Address>>, events: map<(Address, nat), Tx>)

  datatype Request = ResetTo(index: nat) | Promote(accounts: set<Address>)

  /** An accepted request, with the channel it was answered with. */
  datatype Accepted = Accepted(request: Request, done: nat)

  /** The head transitions from `lo` to `hi` in one reset, or none. */
  function Merged(heads: seq<Hash>, lo: nat, hi: nat): (r: Option<ResetRequest>)
    requires lo <= hi < |heads|
  {
    if lo < hi then Some(ResetRequest(heads[lo], heads[hi])) else None
  }

  /** `covered[i]` head transitions were handed to the first `i` runs. */
  ghost predicate Tiled(covered: seq<nat>, taken: nat) {
    && covered != [] && covered[0] == 0 && covered[|covered| - 1] <= taken
    && forall i, j :: 0 <= i <= j < |covered| ==> covered[i] <= covered[j]
  }

  /** Each run's reset is exactly the head transitions between its neighbours'. */
  ghost predicate Telescoping(runs: seq<Run>, covered: seq<nat>, heads: seq<Hash>) {
    && |covered| == |runs| + 1 && heads != [] && Tiled(covered, |heads| - 1)
    && forall i :: 0 <= i < |runs| ==> runs[i].done == i && runs[i].reset == Merged(heads, covered[i], covered[i + 1])
  }

  /** What covers the transitions from `lo` to `hi` and the accounts `dirty` covers the request. */
  ghost predicate Carries(dirty: Option<set<Address>>, lo: nat, hi: nat, q: Request) {
    match q
    case ResetTo(index) => lo <= index < hi
    case Promote(accounts) => dirty.Some? && accounts <= dirty.value
  }

  /**
   The run that closes an accepted request's channel carries the request; if it is not
   launched yet, what is waiting (`dirty` and the transitions up to `last`) does.
   */
  ghost predicate InTime(a: Accepted, runs: seq<Run>, covered: seq<nat>, last: nat, dirty: Option<set<Address>>)
    requires |covered| == |runs| + 1
  {
    && a.done <= |runs|
    && (if a.done < |runs| then Carries(runs[a.done].dirty, covered[a.done], covered[a.done + 1], a.request)
        else Carries(dirty, covered[|runs|], last, a.request))
  }

  ghost predicate AllInTime(accepted: seq<Accepted>, runs: seq<Run>, covered: seq<nat>, last: nat, dirty: Option<set<Address>>)
    requires |covered| == |runs| + 1
  {
    forall k :: 0 <= k < |accepted| ==> InTime(accepted[k], runs, covered, last, dirty)
  }

  /** A queued event, or a later one with its account and nonce, goes out with the run after it. */
  ghost predicate Announced(log: seq<(Tx, nat)>, runs: seq<Run>, waiting: map<(Address, nat), Tx>) {
    forall k :: 0 <= k < |log| ==>
      && log[k].1 <= |runs|
      && (log[k].0.from, log[k].0.nonce) in (if log[k].1 < |runs| then runs[log[k].1].events else waiting)
  }

  lemma LaunchInTime(accepted: seq<Accepted>, runs: seq<Run>, covered: seq<nat>, last: nat, r: Run)
    requires |covered| == |runs| + 1 && AllInTime(accepted, runs, covered, last, r.dirty)
    ensures AllInTime(accepted, runs + [r], covered + [last], last, None)
  {
    forall k | 0 <= k < |accepted| ensures InTime(accepted[k], runs + [r], covered + [last], last, None) {
      assert InTime(accepted[k], runs, covered, last, r.dirty);
    }
  }

  /** A request answered with the next channel, and merged into what is waiting, is in time; the others stay so. */
  lemma AcceptInTime(accepted: seq<Accepted>, runs: seq<Run>, covered: seq<nat>, last: nat, dirty: Option<set<Address>>,
                     q: Request, last': nat, dirty': Option<set<Address>>)
    requires |covered| == |runs| + 1 && AllInTime(accepted, runs, covered, last, dirty)
    requires last <= last' && (dirty.Some? ==> dirty'.Some? && dirty.value <= dirty'.value)
    requires Carries(dirty', covered[|runs|], last', q)
    ensures AllInTime(accepted + [Accepted(q, |runs|)], runs, covered, last', dirty')
  {
    var more := accepted + [Accepted(q, |runs|)];
    forall k | 0 <= k < |more| ensures InTime(more[k], runs, covered, last', dirty') {
      if k < |accepted| {
        assert InTime(accepted[k], runs, covered, last, dirty);
      }
    }
  }

  /**
   No head transition is lost or handed out twice: between a resetting run and the next
   one there is no gap, the first one starts at the first head, and together with what is
   still waiting they reach the last head.
   */
  lemma HeadsTelescope(runs: seq<Run>, covered: seq<nat>, heads: seq<Hash>, i: nat, j: nat)
    requires Telescoping(runs, covered, heads)
    requires i < j < |runs| && runs[i].reset.Some? && runs[j].reset.Some?
    requires forall k :: i < k < j ==> runs[k].reset.None?
    ensures runs[i].reset.value.newHead == runs[j].reset.value.oldHead
  {
    var k := i + 1;
    while k < j
      invariant i < k <= j
      invariant covered[k] == covered[i + 1]
    {
      assert runs[k].reset == Merged(heads, covered[k], covered[k + 1]);
      k := k + 1;
    }
    assert runs[i].reset == Merged(heads, covered[i], covered[i + 1]);
    assert runs[j].reset == Merged(heads, covered[j], covered[j + 1]);
  }

  /** The first resetting run starts at the head the pool started from. */
  lemma FirstReset(runs: seq<Run>, covered: seq<nat>, heads: seq<Hash>, i: nat)
    requires Telescoping(runs, covered, heads)
    requires i < |runs| && runs[i].reset.Some?
    requires forall k :: 0 <= k < i ==> runs[k].reset.None?
    ensures runs[i].reset.value.oldHead == heads[0]
  {
    var k := 0;
    while k < i
      invariant 0 <= k <= i
      invariant covered[k] == 0
    {
      assert runs[k].reset == Merged(heads, covered[k], covered[k + 1]);
      k := k + 1;
    }
    assert runs[i].reset == Merged(heads, covered[i], covered[i + 1]);
  }

  lemma OneMoreRun(runs: seq<Run>, covered: seq<nat>, heads: seq<Hash>, r: Run)
    requires Telescoping(runs, covered, heads)
    requires r.done == |runs| && r.reset == Merged(heads, covered[|runs|], |heads| - 1)
    ensures Telescoping(runs + [r], covered + [|heads| - 1], heads)
  {
    var runs', covered' := runs + [r], covered + [|heads| - 1];
    forall i | 0 <= i < |runs'|
      ensures runs'[i].done == i && runs'[i].reset == Merged(heads, covered'[i], covered'[i + 1])
    {
      if i < |runs| {
        assert runs[i].reset == Merged(heads, covered[i], covered[i + 1]);
      }
    }
  }

  /** What was launched, accepted and announced so far fits together with what is waiting. */
  ghost predicate History(runs: seq<Run>, covered: seq<nat>, heads: seq<Hash>, accepted: seq<Accepted>, log: seq<(Tx, nat)>,
                          reset: Option<ResetRequest>, dirty: Option<set<Address>>, waiting: map<(Address, nat), Tx>)
  {
    && Telescoping(runs, covered, heads)
    && reset == Merged(heads, covered[|runs|], |heads| - 1)
    && AllInTime(accepted, runs, covered, |heads| - 1, dirty)
    && Announced(log, runs, waiting)
  }

  /** Launching a run with everything that is waiting. */
  lemma LaunchHistory(runs: seq<Run>, covered: seq<nat>, heads: seq<Hash>, accepted: seq<Accepted>, log: seq<(Tx, nat)>, r: Run)
    requires History(runs, covered, heads, accepted, log, r.reset, r.dirty, r.events) && r.done == |runs|
    ensures History(runs + [r], covered + [|heads| - 1], heads, accepted, log, None, None, map[])
  {
    OneMoreRun(runs, covered, heads, r);
    LaunchInTime(accepted, runs, covered, |heads| - 1, r);
  }

  /** Accepting the next head: a waiting reset is extended to it. */
  lemma HeadHistory(runs: seq<Run>, covered: seq<nat>, heads: seq<Hash>, accepted: seq<Accepted>, log: seq<(Tx, nat)>,
                    reset: Option<ResetRequest>, dirty: Option<set<Address>>, waiting: map<(Address, nat), Tx>, h: Hash)
    requires History(runs, covered, heads, accepted, log, reset, dirty, waiting)
    ensures History(runs, covered, heads + [h], accepted + [Accepted(ResetTo(|heads| - 1), |runs|)], log,
                    Some(if reset.None? then ResetRequest(heads[|heads| - 1], h) else reset.value.(newHead := h)), dirty, waiting)
  {
    OneMoreHead(runs, covered, heads, h);
    AcceptInTime(accepted, runs, covered, |heads| - 1, dirty, ResetTo(|heads| - 1), |heads|, dirty);
  }

  lemma OneMoreHead(runs: seq<Run>, covered: seq<nat>, heads: seq<Hash>, h: Hash)
    requires Telescoping(runs, covered, heads)
    ensures Telescoping(runs, covered, heads + [h])
  {
    forall i | 0 <= i < |runs|
      ensures runs[i].done == i && runs[i].reset == Merged(heads + [h], covered[i], covered[i + 1])
    {
      assert runs[i].reset == Merged(heads, covered[i], covered[i + 1]);
    }
  }

  class Scheduler {
    // the loop's variables
    var curDone: Option<nat>
    var nextDone: nat
    var launchNextRun: bool
    var reset: Option<ResetRequest>
    var dirtyAccounts: Option<set<Address>>
    var queuedEvents: map<(Address, nat), Tx>
    var stopped: bool

    // the head that the next reset request starts from, and the closed channels
    var head: Hash
    var closed: set<nat>

    // what happened so far
    ghost var runs: seq<Run>
    ghost var accepted: seq<Accepted>
    ghost var heads: seq<Hash>
    ghost var announced: seq<(Tx, nat)>
    ghost var covered: seq<nat>

    /** What holds between any two statements of the loop. */
    ghost predicate Consistent()
      reads this
    {
      && History(runs, covered, heads, accepted, announced, reset, dirtyAccounts, queuedEvents)
      && nextDone == |runs| && head == heads[|heads| - 1]
      && (curDone.Some? ==> curDone.value + 1 == |runs|)
      && (forall i :: 0 <= i < |runs| && i !in closed ==> curDone == Some(i))
      && (forall h :: h in closed ==> h < |runs| || (stopped && h == |runs|))
      && (stopped ==> nextDone in closed && curDone.None?)
      && (launchNextRun <==> reset.Some? || dirtyAccounts.Some?)
    }

    /** What holds whenever the loop waits for the next message: a wanted run only waits behind another. */
    ghost predicate Valid()
      reads this
    {
      Consistent() && (launchNextRun && !stopped ==> curDone.Some?)
    }

    /** At most one run is active, and it is the last one launched. */
    ghost predicate Active(i: nat)
      reads this
    {
      i < |runs| && i !in closed
    }

    constructor (head: Hash)
      ensures Valid() && heads == [head] && runs == [] && accepted == [] && !stopped
    {
      curDone, nextDone, launchNextRun := None, 0, false;
      reset, dirtyAccounts, queuedEvents := None, None, map[];
      stopped, closed := false, {};
      this.head := head;
      runs, accepted, heads, announced := [], [], [head], [];
      covered := [0];
    }

    /** Starts a run with everything that is waiting, and begins to collect for the one after it. */
    method StartRun()
      requires Consistent() && !stopped && curDone.None? && launchNextRun
      modifies this`curDone, this`nextDone, this`launchNextRun, this`reset, this`dirtyAccounts, this`queuedEvents,
               this`runs, this`covered
      ensures Valid()
      ensures runs == old(runs) + [Run(old(nextDone), old(reset), old(dirtyAccounts), old(queuedEvents))]
    {
      ghost var run := Run(nextDone, reset, dirtyAccounts, queuedEvents);
      LaunchHistory(runs, covered, heads, accepted, announced, run);
      runs, covered := runs + [run], covered + [|heads| - 1];
      curDone, nextDone := Some(nextDone), nextDone + 1;
      launchNextRun := false;
      reset, dirtyAccounts, queuedEvents := None, None, map[];
    }

    /** Launches the next run when one is wanted and none is active. */
    method Launch()
      requires Consistent() && !stopped
      modifies this`curDone, this`nextDone, this`launchNextRun, this`reset, this`dirtyAccounts, this`queuedEvents,
               this`runs, this`covered
      ensures Valid()
      ensures runs == if old(curDone).None? && old(launchNextRun)
                      then old(runs) + [Run(old(nextDone), old(reset), old(dirtyAccounts), old(queuedEvents))] else old(runs)
    {
      if curDone.None? && launchNextRun {
        StartRun();
      }
    }

    /** Notes a reset request for the next head: a waiting one is extended to it. */
    method NoteHead(newHead: Hash)
      requires Valid() && !stopped
      modifies this`reset, this`launchNextRun, this`accepted, this`heads, this`head
      ensures Consistent()
      ensures heads == old(heads) + [newHead]
      ensures accepted == old(accepted) + [Accepted(ResetTo(|old(heads)| - 1), |runs|)]
    {
      var request := ResetRequest(head, newHead);
      HeadHistory(runs, covered, heads, accepted, announced, reset, dirtyAccounts, queuedEvents, newHead);
      if reset.None? {
        reset := Some(request);
      } else {
        reset := Some(reset.value.(newHead := request.newHead));
      }
      launchNextRun := true;
      accepted := accepted + [Accepted(ResetTo(|heads| - 1), |runs|)];
      heads := heads + [newHead];
      head := newHead;
    }

    /** A reset request. Returns the channel to wait on. */
    method RequestReset(newHead: Hash) returns (done: nat)
      requires Valid() && !stopped
      modifies this
      ensures Valid() && !stopped
      ensures done == old(|runs|) && done !in closed
      ensures heads == old(heads) + [newHead]
      ensures accepted == old(accepted) + [Accepted(ResetTo(|old(heads)| - 1), done)]
    {
      done := nextDone;
      NoteHead(newHead);
      Launch();
    }

    /** A promotion request: merged into a waiting one. */
    method RequestPromote(accounts: set<Address>) returns (done: nat)
      requires Valid() && !stopped
      modifies this
      ensures Valid() && !stopped
      ensures done == old(|runs|) && done !in closed
      ensures heads == old(heads)
      ensures accepted == old(accepted) + [Accepted(Promote(accounts), done)]
    {
      var merged := Some(if dirtyAccounts.None? then accounts else dirtyAccounts.value + accounts);
      AcceptInTime(accepted, runs, covered, |heads| - 1, dirtyAccounts, Promote(accounts), |heads| - 1, merged);
      dirtyAccounts := merged;
      launchNextRun := true;
      done := nextDone;
      accepted := accepted + [Accepted(Promote(accounts), done)];
      Launch();
    }

    /** Queues an event for the next run without asking for one. */
    method QueueEvent(tx: Tx)
      requires Valid() && !stopped
      modifies this`queuedEvents, this`announced
      ensures Valid()
      ensures announced == old(announced) + [(tx, |runs|)]
    {
      queuedEvents := queuedEvents[(tx.from, tx.nonce) := tx];
      announced := announced + [(tx, |runs|)];
    }

    /** The active run finishes in the background and closes its channel. */
    method RunFinishes()
      requires Valid() && curDone.Some?
      modifies this`closed
      ensures Valid() && closed == old(closed) + {curDone.value}
    {
      closed := closed + {curDone.value};
    }

    /** The loop notices that the current run's channel is closed. */
    method Acknowledge()
      requires Valid() && !stopped && curDone.Some? && curDone.value in closed
      modifies this
      ensures Valid() && !stopped && closed == old(closed) && accepted == old(accepted) && heads == old(heads)
    {
      curDone := None;
      Launch();
    }

    /** Shutdown: waits for the current run, then closes the channel everyone still waits on. */
    method Shutdown()
      requires Valid() && !stopped
      modifies this`closed, this`curDone, this`stopped
      ensures Valid() && stopped
      ensures forall k :: 0 <= k < |accepted| ==> accepted[k].done in closed
    {
      if curDone.Some? {
        closed := closed + {curDone.value};
        curDone := None;
      }
      closed := closed + {nextDone};
      stopped := true;
    }

    /** Any messages in any order, each taken only when the loop could take it. */
    method Loop(messages: seq<Message>)
      requires Valid() && !stopped
      modifies this
      ensures Valid()
    {
      for i := 0 to |messages|
        invariant Valid()
      {
        if stopped {
          return;
        }
        match messages[i]
        case NewHead(h) =>
          var done := RequestReset(h);
        case Dirty(accounts) =>
          var done := RequestPromote(accounts);
        case NewEvent(tx) =>
          QueueEvent(tx);
        case Finished =>
          if curDone.Some? {
            RunFinishes();
          }
        case Noticed =>
          if curDone.Some? && curDone.value in closed {
            Acknowledge();
          }
        case Quit =>
          Shutdown();
      }
    }
  }

  datatype Message = NewHead(hash: Hash) | Dirty(accounts: set<Address>) | NewEvent(tx: Tx) | Finished | Noticed | Quit

  /** At any time at most one run is active. */
  lemma OneActiveRun(s: Scheduler, i: nat, j: nat)
    requires s.Valid() && s.Active(i) && s.Active(j)
    ensures i == j && i + 1 == |s.runs|
  {
    assert s.curDone == Some(i);
  }

  /** A request's channel is closed only by a run launched after the request that carries it, or at shutdown. */
  lemma ClosedAfterServed(s: Scheduler, k: nat)
    requires s.Valid() && k < |s.accepted| && s.accepted[k].done in s.closed
    ensures s.stopped || s.accepted[k].done < |s.runs|
    ensures var a := s.accepted[k];
      a.done < |s.runs| ==>
        && s.runs[a.done].done == a.done
        && Carries(s.runs[a.done].dirty, s.covered[a.done], s.covered[a.done + 1], a.request)
        && s.runs[a.done].reset == Merged(s.heads, s.covered[a.done], s.covered[a.done + 1])
  {
    assert InTime(s.accepted[k], s.runs, s.covered, |s.heads| - 1, s.dirtyAccounts);
  }

  /** As long as a request waits, a run is active; so it is launched as soon as that one is acknowledged. */
  lemma WaitingBehindARun(s: Scheduler, k: nat)
    requires s.Valid() && !s.stopped && k < |s.accepted| && s.accepted[k].done == |s.runs|
    ensures s.curDone.Some? && s.launchNextRun
  {
    assert InTime(s.accepted[k], s.runs, s.covered, |s.heads| - 1, s.dirtyAccounts);
  }
}
