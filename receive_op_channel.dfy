/**
 * `ReceiveOpChannelImpl`: turns a stream of possibly missing, unordered or duplicated
 * operations, each tagged with the revision it results in, into the listener's stream of
 * in-order, consecutive operations with no duplicates. Operations that arrive early wait in
 * `pending` until the gap before them closes; a known head beyond the current revision
 * schedules a catch-up fetch of the history.
 *
 * The listener is a parameter: whether its `onMessage` returns normally or throws a runtime
 * exception at a given revision. The scheduler, the history service and the logger are seen
 * only through the flag `isCatchupTaskScheduled` and the log `fetches` of the revisions from
 * which history was requested.
 */
module ReceiveOpChannels {
  import opened Wrappers

  /** An operation handed to the listener: the revision it results in, its session, the op. */
  datatype Received<O> = Received(revision: int, sessionId: string, op: O)

  /** The channel's bookkeeping of revisions: early operations, the current and the known head. */
  datatype Revisions<O> = Revisions(pending: map<int, (string, O)>, current: int, knownHead: int)

  /** What the listener does with `onMessage(revision, sessionId, op)`: true when it returns normally. */
  type Listener<!O> = (int, string, O) -> bool

  function Max(a: int, b: int): int
  {
    if a < b then b else a
  }

  /**
   * The channel's order: the current revision is not past the known head, and every waiting
   * operation lies beyond the next revision and not beyond the known head.
   */
  ghost predicate Ordered<O>(s: Revisions<O>)
  {
    s.current <= s.knownHead && forall k | k in s.pending :: s.current + 1 < k <= s.knownHead
  }

  /** The end of a run of deliveries: what was delivered, what still waits, and whether the listener threw. */
  datatype Drained<O> = Drained(delivered: seq<Received<O>>, pending: map<int, (string, O)>, current: int, failed: bool)

  /**
   * The delivery loop of `unguardedReceiveUnorderedData`: deliver `op` at the next revision,
   * then keep taking the operation waiting at the following revision out of `pending`, until
   * none waits there or the listener throws.
   */
  function Drain<O>(listener: Listener<O>, pending: map<int, (string, O)>, current: int, sid: string, op: O): Drained<O>
    decreases |pending|
  {
    if !listener(current + 1, sid, op) then Drained([], pending, current, true)
    else if current + 2 in pending then
      var rest := Drain(listener, pending - {current + 2}, current + 1, pending[current + 2].0, pending[current + 2].1);
      rest.(delivered := [Received(current + 1, sid, op)] + rest.delivered)
    else Drained([Received(current + 1, sid, op)], pending, current + 1, false)
  }

  /** One round of the delivery loop: the operation delivered, then the one waiting next in its turn. */
  lemma DrainUnfold<O>(listener: Listener<O>, pending: map<int, (string, O)>, current: int, sid: string, op: O)
    requires listener(current + 1, sid, op) && current + 2 in pending
    ensures var rest := Drain(listener, pending - {current + 2}, current + 1, pending[current + 2].0, pending[current + 2].1);
      Drain(listener, pending, current, sid, op) == rest.(delivered := [Received(current + 1, sid, op)] + rest.delivered)
  {
  }

  /**
   * The delivery loop hands the listener consecutive revisions, starting with `op` at the
   * next one, and the new current revision is the last one delivered.
   */
  lemma {:induction false} DrainCounts<O>(listener: Listener<O>, pending: map<int, (string, O)>, current: int, sid: string, op: O)
    ensures var d := Drain(listener, pending, current, sid, op);
      d.current == current + |d.delivered|
      && (forall i | 0 <= i < |d.delivered| :: d.delivered[i].revision == current + 1 + i)
      && (|d.delivered| > 0 <==> listener(current + 1, sid, op))
      && (|d.delivered| > 0 ==> d.delivered[0] == Received(current + 1, sid, op))
    decreases |pending|
  {
    if listener(current + 1, sid, op) && current + 2 in pending {
      var rest := Drain(listener, pending - {current + 2}, current + 1, pending[current + 2].0, pending[current + 2].1);
      DrainCounts(listener, pending - {current + 2}, current + 1, pending[current + 2].0, pending[current + 2].1);
      DrainUnfold(listener, pending, current, sid, op);
      var d := Drain(listener, pending, current, sid, op);
      forall i | 1 <= i < |d.delivered|
        ensures d.delivered[i].revision == current + 1 + i
      {
        assert d.delivered[i] == rest.delivered[i - 1];
      }
    }
  }

  /** The `i`-th delivery counted from revision `current + 1` is the operation that waited at its revision. */
  ghost predicate TookWaiting<O>(ds: seq<Received<O>>, pending: map<int, (string, O)>, current: int, i: int)
  {
    0 <= i < |ds| && current + 1 + i in pending
    && ds[i] == Received(current + 1 + i, pending[current + 1 + i].0, pending[current + 1 + i].1)
  }

  /** Every delivery after the first is the operation that waited at its revision. */
  lemma {:induction false} DrainTakesWaiting<O>(listener: Listener<O>, pending: map<int, (string, O)>, current: int, sid: string, op: O)
    ensures var d := Drain(listener, pending, current, sid, op);
      forall i | 1 <= i < |d.delivered| :: TookWaiting(d.delivered, pending, current, i)
    decreases |pending|
  {
    if listener(current + 1, sid, op) && current + 2 in pending {
      var p := pending - {current + 2};
      var rest := Drain(listener, p, current + 1, pending[current + 2].0, pending[current + 2].1);
      DrainTakesWaiting(listener, p, current + 1, pending[current + 2].0, pending[current + 2].1);
      DrainCounts(listener, p, current + 1, pending[current + 2].0, pending[current + 2].1);
      DrainUnfold(listener, pending, current, sid, op);
      var d := Drain(listener, pending, current, sid, op);
      forall i | 1 <= i < |d.delivered|
        ensures TookWaiting(d.delivered, pending, current, i)
      {
        assert d.delivered[i] == rest.delivered[i - 1];
        if i > 1 {
          assert TookWaiting(rest.delivered, p, current + 1, i - 1);
          assert p[current + 1 + i] == pending[current + 1 + i];
        }
      }
    }
  }

  /**
   * The delivery loop removes exactly the waiting operations up to the revision after the
   * new current one, and keeps the rest as they were; when the listener did not throw,
   * nothing waits at that revision.
   */
  lemma {:induction false} DrainLeaves<O>(listener: Listener<O>, pending: map<int, (string, O)>, current: int, sid: string, op: O)
    requires forall k | k in pending :: k > current + 1
    ensures var d := Drain(listener, pending, current, sid, op);
      (forall k :: k in d.pending <==> k in pending && k > d.current + 1)
      && (forall k | k in d.pending :: d.pending[k] == pending[k])
      && (!d.failed ==> d.current + 1 !in pending)
    decreases |pending|
  {
    if listener(current + 1, sid, op) && current + 2 in pending {
      var p := pending - {current + 2};
      DrainLeaves(listener, p, current + 1, pending[current + 2].0, pending[current + 2].1);
      DrainCounts(listener, p, current + 1, pending[current + 2].0, pending[current + 2].1);
    }
  }

  /** What one arriving operation does. */
  datatype Arrival<O> = Arrival(next: Revisions<O>, delivered: seq<Received<O>>, mismatch: bool, missed: bool, failed: bool)

  /**
   * `unguardedReceiveUnorderedData`: the known head moves up to the revision; an operation at
   * or below the current revision is an old duplicate and dropped; one already waiting is a
   * duplicate, reported to the listener when its session differs; one beyond the next revision
   * waits and a catch-up is scheduled; the next one is delivered with all those waiting right
   * after it. The two Java assertions are the `AssertionFailed` cases.
   */
  function Arrive<O>(listener: Listener<O>, s: Revisions<O>, rev: int, sid: string, op: O): Result<Arrival<O>>
  {
    var head := Max(s.knownHead, rev);
    if rev <= s.current then Ok(Arrival(s.(knownHead := head), [], false, false, false))
    else if rev in s.pending then
      if rev <= s.current + 1 then Err(AssertionFailed)
      else Ok(Arrival(s.(knownHead := head), [], s.pending[rev].0 != sid, false, false))
    else if rev > s.current + 1 then
      Ok(Arrival(Revisions(s.pending[rev := (sid, op)], s.current, head), [], false, true, false))
    else
      var d := Drain(listener, s.pending, s.current, sid, op);
      if d.failed then Ok(Arrival(Revisions(d.pending, d.current, head), d.delivered, false, false, true))
      else if d.current + 1 in d.pending then Err(AssertionFailed)
      else Ok(Arrival(Revisions(d.pending, d.current, head), d.delivered, false, false, false))
  }

  /**
   * In an ordered channel neither assertion of `unguardedReceiveUnorderedData` fails, the
   * order is kept, the known head becomes the larger of the two, and the listener receives
   * consecutive revisions continuing the current one.
   */
  lemma ArriveKeepsOrder<O>(listener: Listener<O>, s: Revisions<O>, rev: int, sid: string, op: O)
    requires Ordered(s)
    ensures var r := Arrive(listener, s, rev, sid, op);
      r.Ok? && Ordered(r.value.next)
      && r.value.next.knownHead == Max(s.knownHead, rev)
      && r.value.next.current == s.current + |r.value.delivered|
      && forall i | 0 <= i < |r.value.delivered| :: r.value.delivered[i].revision == s.current + 1 + i
  {
    if rev == s.current + 1 {
      DrainCounts(listener, s.pending, s.current, sid, op);
      DrainTakesWaiting(listener, s.pending, s.current, sid, op);
      DrainLeaves(listener, s.pending, s.current, sid, op);
      var d := Drain(listener, s.pending, s.current, sid, op);
      if |d.delivered| > 1 {
        assert TookWaiting(d.delivered, s.pending, s.current, |d.delivered| - 1);
      }
    }
  }

  /**
   * How an arrival is classified: an old or waiting duplicate changes nothing but the known
   * head; a mismatch is reported exactly for a waiting duplicate from another session; a
   * catch-up is scheduled exactly for an early operation not yet waiting; and the next
   * operation is delivered first, unless the listener throws on it.
   */
  lemma ArriveClassifies<O>(listener: Listener<O>, s: Revisions<O>, rev: int, sid: string, op: O)
    requires Ordered(s)
    ensures var r := Arrive(listener, s, rev, sid, op);
      r.Ok?
      && ((rev <= s.current || rev in s.pending) ==>
            r.value.next == s.(knownHead := Max(s.knownHead, rev)) && r.value.delivered == [] && !r.value.failed)
      && (r.value.mismatch <==> rev > s.current && rev in s.pending && s.pending[rev].0 != sid)
      && (r.value.missed <==> rev > s.current + 1 && rev !in s.pending)
      && (r.value.missed ==> r.value.next.pending == s.pending[rev := (sid, op)])
      && (rev == s.current + 1 ==>
            (|r.value.delivered| > 0 <==> listener(rev, sid, op))
            && (listener(rev, sid, op) ==> r.value.delivered[0] == Received(rev, sid, op)))
      && (r.value.failed ==> rev == s.current + 1)
  {
    ArriveKeepsOrder(listener, s, rev, sid, op);
    if rev == s.current + 1 {
      DrainCounts(listener, s.pending, s.current, sid, op);
    }
  }

  /**
   * An operation at the next revision releases the whole run waiting right after it: every
   * revision up to the new current one that was waiting is delivered with its waiting
   * operation, and when the listener did not throw, nothing waits at the revision after.
   */
  lemma ArriveReleasesWaiting<O>(listener: Listener<O>, s: Revisions<O>, sid: string, op: O)
    requires Ordered(s)
    ensures var a := Arrive(listener, s, s.current + 1, sid, op);
      a.Ok? && var r := a.value;
      (forall i | 1 <= i < |r.delivered| :: TookWaiting(r.delivered, s.pending, s.current, i))
      && (forall k :: k in r.next.pending <==> k in s.pending && k > r.next.current + 1)
      && (!r.failed ==> r.next.current + 1 !in s.pending)
  {
    ArriveKeepsOrder(listener, s, s.current + 1, sid, op);
    DrainTakesWaiting(listener, s.pending, s.current, sid, op);
    DrainLeaves(listener, s.pending, s.current, sid, op);
    var d := Drain(listener, s.pending, s.current, sid, op);
    var r := Arrive(listener, s, s.current + 1, sid, op).value;
    assert r.delivered == d.delivered && r.next.pending == d.pending && r.next.current == d.current;
  }

  /**
   * The `while (true)` delivery loop, run on the channel's values. The operation waiting at
   * the revision after the delivered one is looked up before the count moves on, which is the
   * same lookup as the source's `currentRevision + 1` after its increment.
   */
  method DrainLoop<O>(listener: Listener<O>, pending: map<int, (string, O)>, current: int, sid: string, op: O)
    returns (d: Drained<O>)
    ensures d == Drain(listener, pending, current, sid, op)
  {
    ghost var whole := Drain(listener, pending, current, sid, op);
    var p, c, s, o := pending, current, sid, op;
    var got: seq<Received<O>> := [];
    while true
      invariant var d := Drain(listener, p, c, s, o); whole == d.(delivered := got + d.delivered)
      decreases |p|
    {
      if !listener(c + 1, s, o) {
        return Drained(got, p, c, true);
      }
      if c + 2 in p {
        DrainUnfold(listener, p, c, s, o);
        ghost var rest := Drain(listener, p - {c + 2}, c + 1, p[c + 2].0, p[c + 2].1);
        assert got + ([Received(c + 1, s, o)] + rest.delivered) == (got + [Received(c + 1, s, o)]) + rest.delivered;
        got := got + [Received(c + 1, s, o)];
        s, o := p[c + 2].0, p[c + 2].1;
        p := p - {c + 2};
        c := c + 1;
      } else {
        return Drained(got + [Received(c + 1, s, o)], p, c + 1, false);
      }
    }
  }

  /** An operation in a history message: its resulting revision, session, and the op, or none when it does not parse. */
  datatype Incoming<O> = Incoming(version: int, sessionId: string, op: Option<O>)

  /** A history message: its operations, the head version it reports, and whether more history follows. */
  datatype HistoryMessage<O> = HistoryMessage(deltas: seq<Incoming<O>>, version: Option<int>, hasMore: bool)

  /** How the operations of a history message end: all received, at one that does not parse, or at a refusal. */
  datatype Stop = Completed | Unparsed | Refused(error: Error)

  /**
   * What receiving a history message's operations leaves: the revisions, the deliveries, the
   * errors reported to the listener, whether a catch-up is scheduled, and how it ended.
   */
  datatype Progress<O> = Progress(revs: Revisions<O>, delivered: seq<Received<O>>, errors: nat, scheduled: bool, stop: Stop)

  /**
   * The loop of `onMessage`: each operation in turn goes through `Arrive`, until one does not
   * parse (one error for the listener) or is refused. A channel that is `blocked`, corrupted
   * or in the middle of a call, refuses the first parsed operation as an assertion.
   */
  function ReceiveAll<O>(listener: Listener<O>, blocked: bool, p: Progress<O>, deltas: seq<Incoming<O>>): (r: Progress<O>)
    requires p.stop == Completed
    ensures p.delivered <= r.delivered && r.errors >= p.errors
    ensures r.stop == Completed ==> forall i | 0 <= i < |deltas| :: deltas[i].op.Some?
    decreases |deltas|
  {
    if deltas == [] then p
    else if deltas[0].op.None? then p.(errors := p.errors + 1, stop := Unparsed)
    else if blocked then p.(stop := Refused(AssertionFailed))
    else match Arrive(listener, p.revs, deltas[0].version, deltas[0].sessionId, deltas[0].op.value)
      case Err(e) => p.(stop := Refused(e))
      case Ok(a) =>
        var q := Progress(a.next, p.delivered + a.delivered, p.errors + (if a.mismatch then 1 else 0),
                          p.scheduled || a.missed, Completed);
        if a.failed then q.(stop := Refused(Runtime)) else ReceiveAll(listener, blocked, q, deltas[1..])
  }

  /** Receiving a list of operations is receiving the first, then, when that completes, the rest. */
  lemma ReceiveAllFirst<O>(listener: Listener<O>, blocked: bool, p: Progress<O>, deltas: seq<Incoming<O>>)
    requires p.stop == Completed && deltas != []
    ensures var q := ReceiveAll(listener, blocked, p, [deltas[0]]);
      ReceiveAll(listener, blocked, p, deltas) == if q.stop == Completed then ReceiveAll(listener, blocked, q, deltas[1..]) else q
  {
    assert [deltas[0]][1..] == [];
  }

  /** `ReceiveOpChannelImpl`. `delivered` and `errorsReported` record the calls on the listener. */
  class ReceiveOpChannel<O> {
    var pending: map<int, (string, O)>
    var listener: Option<Listener<O>>
    var currentRevision: int
    var knownHeadRevision: int
    var catchupRevision: int
    var corruptedByException: bool
    var receiving: bool
    var isCatchupTaskScheduled: bool
    var delivered: seq<Received<O>>
    var errorsReported: nat
    var fetches: seq<int>
    ghost var connectRevision: int

    function Revs(): Revisions<O>
      reads this
    {
      Revisions(pending, currentRevision, knownHeadRevision)
    }

    /** The channel's progress through a history message so far. */
    function Now(): Progress<O>
      reads this
    {
      Progress(Revs(), delivered, errorsReported, isCatchupTaskScheduled, Completed)
    }

    /**
     * The listener has received exactly the revisions after the one it connected at, up to
     * the current one, in order; and the bookkeeping is ordered.
     */
    ghost predicate Valid()
      reads this
    {
      Ordered(Revs())
      && |delivered| == currentRevision - connectRevision
      && (forall i | 0 <= i < |delivered| :: delivered[i].revision == connectRevision + 1 + i)
      && (listener.None? ==> delivered == [] && pending == map[])
    }

    constructor ()
      ensures Valid() && listener == None && delivered == [] && fetches == [] && errorsReported == 0
      ensures currentRevision == 0 && knownHeadRevision == 0 && catchupRevision == 0
      ensures !corruptedByException && !receiving && !isCatchupTaskScheduled
    {
      pending := map[];
      listener := None;
      currentRevision := 0;
      knownHeadRevision := 0;
      catchupRevision := 0;
      corruptedByException := false;
      receiving := false;
      isCatchupTaskScheduled := false;
      delivered := [];
      errorsReported := 0;
      fetches := [];
      connectRevision := 0;
    }

    /** `connect`: only once; the channel starts at the given revision, which is also its known head. */
    method Connect(revision: int, l: Listener<O>) returns (r: Outcome)
      requires Valid()
      modifies this
      ensures Valid()
      ensures old(listener).Some? ==> r == Fail(AssertionFailed) && unchanged(this)
      ensures old(listener).None? ==>
        r == Pass && listener == Some(l) && currentRevision == revision && knownHeadRevision == revision
        && delivered == [] && pending == map[] && catchupRevision == old(catchupRevision)
        && isCatchupTaskScheduled == old(isCatchupTaskScheduled) && fetches == old(fetches)
        && corruptedByException == old(corruptedByException) && receiving == old(receiving)
        && errorsReported == old(errorsReported)
    {
      if listener.Some? {
        return Fail(AssertionFailed);
      }
      listener := Some(l);
      currentRevision := revision;
      knownHeadRevision := revision;
      connectRevision := revision;
      return Pass;
    }

    /** `scheduleCatchup`: the catch-up task is scheduled unless it already is. */
    method ScheduleCatchup()
      modifies this
      ensures isCatchupTaskScheduled
      ensures pending == old(pending) && currentRevision == old(currentRevision)
      ensures knownHeadRevision == old(knownHeadRevision) && catchupRevision == old(catchupRevision)
      ensures delivered == old(delivered) && fetches == old(fetches) && listener == old(listener)
      ensures corruptedByException == old(corruptedByException) && receiving == old(receiving)
      ensures errorsReported == old(errorsReported) && connectRevision == old(connectRevision)
    {
      if !isCatchupTaskScheduled {
        isCatchupTaskScheduled := true;
      }
    }

    /**
     * `onKnownHeadVersion`: the known head only grows; a head past the current revision
     * schedules a catch-up, so the closing assertion (head reached, or a catch-up scheduled)
     * always holds.
     */
    method OnKnownHeadVersion(headVersion: int) returns (r: Outcome)
      requires Valid()
      modifies this
      ensures Valid() && r == Pass
      ensures knownHeadRevision == Max(old(knownHeadRevision), headVersion)
      ensures isCatchupTaskScheduled == (old(isCatchupTaskScheduled) || knownHeadRevision > currentRevision)
      ensures knownHeadRevision == currentRevision || isCatchupTaskScheduled
      ensures pending == old(pending) && currentRevision == old(currentRevision) && catchupRevision == old(catchupRevision)
      ensures delivered == old(delivered) && fetches == old(fetches) && listener == old(listener)
      ensures corruptedByException == old(corruptedByException) && receiving == old(receiving)
      ensures errorsReported == old(errorsReported)
    {
      knownHeadRevision := Max(knownHeadRevision, headVersion);
      if knownHeadRevision > currentRevision {
        ScheduleCatchup();
      }
      assert knownHeadRevision == currentRevision || isCatchupTaskScheduled;
      return Pass;
    }

    /**
     * `maybeCatchup`: history is fetched from the current revision only while the channel is
     * behind its known head and not already catching up to it.
     */
    method MaybeCatchup()
      requires Valid()
      modifies this
      ensures Valid()
      ensures var behind := old(knownHeadRevision) > old(currentRevision) && old(knownHeadRevision) > old(catchupRevision);
        (behind ==> catchupRevision == knownHeadRevision && fetches == old(fetches) + [currentRevision])
        && (!behind ==> catchupRevision == old(catchupRevision) && fetches == old(fetches))
      ensures pending == old(pending) && currentRevision == old(currentRevision) && knownHeadRevision == old(knownHeadRevision)
      ensures delivered == old(delivered) && listener == old(listener) && isCatchupTaskScheduled == old(isCatchupTaskScheduled)
      ensures corruptedByException == old(corruptedByException) && receiving == old(receiving)
      ensures errorsReported == old(errorsReported)
    {
      if knownHeadRevision > currentRevision && knownHeadRevision > catchupRevision {
        catchupRevision := knownHeadRevision;
        fetches := fetches + [currentRevision];
      }
    }

    /** The catch-up task firing: it clears the flag, catches up if needed, and does not repeat. */
    method RunCatchupTask() returns (repeat: bool)
      requires Valid()
      modifies this
      ensures Valid() && !repeat && !isCatchupTaskScheduled
      ensures var behind := old(knownHeadRevision) > old(currentRevision) && old(knownHeadRevision) > old(catchupRevision);
        (behind ==> catchupRevision == knownHeadRevision && fetches == old(fetches) + [currentRevision])
        && (!behind ==> catchupRevision == old(catchupRevision) && fetches == old(fetches))
      ensures pending == old(pending) && currentRevision == old(currentRevision) && knownHeadRevision == old(knownHeadRevision)
      ensures delivered == old(delivered) && listener == old(listener)
    {
      isCatchupTaskScheduled := false;
      MaybeCatchup();
      return false;
    }

    /** `unguardedReceiveUnorderedData`, with the listener's calls recorded. */
    method UnguardedReceive(rev: int, sid: string, op: O) returns (failed: bool)
      requires Valid() && listener.Some?
      modifies this
      ensures var a := Arrive(old(listener.value), old(Revs()), rev, sid, op);
        a.Ok? && Revs() == a.value.next && failed == a.value.failed
        && delivered == old(delivered) + a.value.delivered
        && errorsReported == old(errorsReported) + (if a.value.mismatch then 1 else 0)
        && isCatchupTaskScheduled == (old(isCatchupTaskScheduled) || a.value.missed)
      ensures Valid()
      ensures listener == old(listener) && catchupRevision == old(catchupRevision) && fetches == old(fetches)
      ensures corruptedByException == old(corruptedByException) && receiving == old(receiving)
    {
      ArriveKeepsOrder(listener.value, Revs(), rev, sid, op);
      ArriveClassifies(listener.value, Revs(), rev, sid, op);
      knownHeadRevision := Max(knownHeadRevision, rev);
      if rev <= currentRevision {
        return false;
      }
      if rev in pending {
        assert rev > currentRevision + 1;
        if pending[rev].0 != sid {
          errorsReported := errorsReported + 1;
        }
        return false;
      }
      if rev > currentRevision + 1 {
        pending := pending[rev := (sid, op)];
        ScheduleCatchup();
        return false;
      }
      assert rev == currentRevision + 1;
      var d := DrainLoop(listener.value, pending, currentRevision, sid, op);
      delivered := delivered + d.delivered;
      pending := d.pending;
      currentRevision := d.current;
      if d.failed {
        return true;
      }
      assert currentRevision + 1 !in pending;
      return false;
    }

    /**
     * `receiveUnorderedData`: refused (an assertion) once the channel is corrupted or while a
     * call is in progress; a listener that throws leaves the channel corrupted and still marked
     * as receiving, and the exception propagates.
     */
    method ReceiveUnorderedData(rev: int, sid: string, op: O) returns (r: Outcome)
      requires Valid() && listener.Some?
      modifies this
      ensures Valid()
      ensures old(corruptedByException) || old(receiving) ==> r == Fail(AssertionFailed) && unchanged(this)
      ensures !old(corruptedByException) && !old(receiving) ==>
        Arrive(old(listener.value), old(Revs()), rev, sid, op).Ok? &&
        var a := Arrive(old(listener.value), old(Revs()), rev, sid, op).value;
        Revs() == a.next && delivered == old(delivered) + a.delivered
        && errorsReported == old(errorsReported) + (if a.mismatch then 1 else 0)
        && isCatchupTaskScheduled == (old(isCatchupTaskScheduled) || a.missed)
        && corruptedByException == a.failed && receiving == a.failed
        && r == (if a.failed then Fail(Runtime) else Pass)
      ensures listener == old(listener) && catchupRevision == old(catchupRevision) && fetches == old(fetches)
    {
      if corruptedByException || receiving {
        return Fail(AssertionFailed);
      }
      receiving := true;
      var failed := UnguardedReceive(rev, sid, op);
      if failed {
        corruptedByException := true;
        return Fail(Runtime);
      }
      receiving := false;
      return Pass;
    }

    /**
     * One pass of the loop of `onMessage`: an operation that does not parse is reported to
     * the listener; a parsed one is received, and a refusal or failure is passed on.
     */
    method ReceiveNext(delta: Incoming<O>) returns (stop: Stop)
      requires Valid() && listener.Some?
      modifies this
      ensures Valid() && listener == old(listener)
      ensures var p := ReceiveAll(old(listener.value), old(corruptedByException) || old(receiving), old(Now()), [delta]);
        Now() == p.(stop := Completed) && stop == p.stop
        && (corruptedByException <==> old(corruptedByException) || stop == Refused(Runtime))
        && (receiving <==> old(receiving) || stop == Refused(Runtime))
      ensures catchupRevision == old(catchupRevision) && fetches == old(fetches)
      ensures old(delivered) <= delivered && knownHeadRevision >= old(knownHeadRevision)
      ensures stop.Refused? ==> stop.error == AssertionFailed || (stop.error == Runtime && corruptedByException)
      ensures stop.Completed? ==> knownHeadRevision >= delta.version
      ensures stop == Unparsed <==> delta.op.None?
    {
      if delta.op.None? {
        errorsReported := errorsReported + 1;
        return Unparsed;
      }
      ArriveKeepsOrder(listener.value, Revs(), delta.version, delta.sessionId, delta.op.value);
      var received := ReceiveUnorderedData(delta.version, delta.sessionId, delta.op.value);
      if received.Fail? {
        return Refused(received.error);
      }
      return Completed;
    }

    /**
     * The loop of `onMessage`: each operation of a history message is received in turn; one
     * that does not parse is reported to the listener and ends the message; a refusal or a
     * failure propagates. What it leaves is what `ReceiveAll` says.
     */
    method ReceiveDeltas(deltas: seq<Incoming<O>>) returns (stop: Stop)
      requires Valid() && listener.Some?
      modifies this
      ensures Valid() && listener == old(listener)
      ensures var p := ReceiveAll(old(listener.value), old(corruptedByException) || old(receiving), old(Now()), deltas);
        Now() == p.(stop := Completed) && stop == p.stop
        && (corruptedByException <==> old(corruptedByException) || stop == Refused(Runtime))
        && (receiving <==> old(receiving) || stop == Refused(Runtime))
      ensures catchupRevision == old(catchupRevision) && fetches == old(fetches)
      ensures old(delivered) <= delivered && knownHeadRevision >= old(knownHeadRevision)
      ensures stop.Refused? ==> stop.error == AssertionFailed || (stop.error == Runtime && corruptedByException)
      ensures stop.Completed? ==> forall j | 0 <= j < |deltas| :: knownHeadRevision >= deltas[j].version
      ensures stop == Unparsed ==> exists j | 0 <= j < |deltas| :: deltas[j].op.None?
    {
      var i := 0;
      while i < |deltas|
        invariant 0 <= i <= |deltas|
        invariant Valid() && listener == old(listener)
        invariant old(delivered) <= delivered && knownHeadRevision >= old(knownHeadRevision)
        invariant forall j | 0 <= j < i :: knownHeadRevision >= deltas[j].version
        invariant corruptedByException == old(corruptedByException) && receiving == old(receiving)
        invariant catchupRevision == old(catchupRevision) && fetches == old(fetches)
        invariant ReceiveAll(listener.value, corruptedByException || receiving, Now(), deltas[i..])
                  == ReceiveAll(old(listener.value), old(corruptedByException) || old(receiving), old(Now()), deltas)
      {
        ReceiveAllFirst(listener.value, corruptedByException || receiving, Now(), deltas[i..]);
        stop := ReceiveNext(deltas[i]);
        if !stop.Completed? {
          return;
        }
        i := i + 1;
      }
      return Completed;
    }

    /**
     * `onMessage`: the operations received as `ReceiveDeltas` says. When all of them were,
     * the reported head version is taken in, and when more history follows it is fetched
     * from the current revision.
     */
    method OnMessage(msg: HistoryMessage<O>) returns (r: Outcome)
      requires Valid() && listener.Some?
      modifies this
      ensures Valid() && listener == old(listener)
      ensures old(delivered) <= delivered && knownHeadRevision >= old(knownHeadRevision)
      ensures r.Fail? ==> r.error == AssertionFailed || (r.error == Runtime && corruptedByException)
      ensures var p := ReceiveAll(old(listener.value), old(corruptedByException) || old(receiving), old(Now()), msg.deltas);
        delivered == p.delivered && errorsReported == p.errors && pending == p.revs.pending
        && currentRevision == p.revs.current && catchupRevision == old(catchupRevision)
        && (corruptedByException <==> old(corruptedByException) || p.stop == Refused(Runtime))
        && (receiving <==> old(receiving) || p.stop == Refused(Runtime))
        && (p.stop.Refused? ==> r == Fail(p.stop.error))
        && (p.stop == Unparsed ==> r == Pass)
        && (!p.stop.Completed? ==>
              knownHeadRevision == p.revs.knownHead && isCatchupTaskScheduled == p.scheduled && fetches == old(fetches))
        && (p.stop == Completed ==>
              r == Pass
              && knownHeadRevision == (if msg.version.Some? then Max(p.revs.knownHead, msg.version.value) else p.revs.knownHead)
              && isCatchupTaskScheduled == (p.scheduled || (msg.version.Some? && knownHeadRevision > currentRevision))
              && fetches == old(fetches) + (if msg.hasMore then [currentRevision] else []))
      ensures r.Pass? && (forall i | 0 <= i < |msg.deltas| :: msg.deltas[i].op.Some?) ==>
        (forall i | 0 <= i < |msg.deltas| :: knownHeadRevision >= msg.deltas[i].version)
        && (msg.version.Some? ==> knownHeadRevision >= msg.version.value
                                  && (knownHeadRevision == currentRevision || isCatchupTaskScheduled))
        && (msg.hasMore ==> |fetches| > 0 && fetches[|fetches| - 1] == currentRevision)
    {
      var stop := ReceiveDeltas(msg.deltas);
      if stop == Unparsed {
        return Pass;
      }
      if stop.Refused? {
        return Fail(stop.error);
      }
      if msg.version.Some? {
        r := OnKnownHeadVersion(msg.version.value);
      }
      if msg.hasMore {
        fetches := fetches + [currentRevision];
      }
      return Pass;
    }
  }
}
