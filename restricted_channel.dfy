/**
 * `RestrictedChannel`: the capacity-1 channel between a batching update processor and one
 * waiting request. It admits only the message sequences its transition table allows: an
 * optional `YOUR_TURN`, then a `RESULT` or a `PERMANENT_FAILURE`, and nothing after that.
 */
module RestrictedChannels {
  import W = Wrappers

  datatype State = Initial | YourTurnReceived | Closed

  /** `Messages.MessageType`. */
  datatype MessageType = YourTurn | Result | PermanentFailure

  /** A message: its type and what it carries. */
  datatype Message<R> = Message(kind: MessageType, payload: R)

  /** Whether a message type ends the exchange. */
  predicate Final(t: MessageType)
  {
    t == Result || t == PermanentFailure
  }

  /**
   * `nextState` over `TRANSITIONS`: a first `YOUR_TURN` is remembered, a final message closes
   * the channel, and any other pair (a second `YOUR_TURN`, anything once closed) is an
   * `AssertionError`.
   */
  function NextState(current: State, t: MessageType): (r: W.Result<State>)
    ensures r == W.Ok(YourTurnReceived) <==> current == Initial && t == YourTurn
    ensures r == W.Ok(Closed) <==> current != Closed && Final(t)
    ensures r.Err? <==> current == Closed || (current == YourTurnReceived && t == YourTurn)
    ensures r.Err? ==> r.error == W.AssertionFailed
  {
    match (current, t)
    case (Initial, Result) => W.Ok(Closed)
    case (Initial, YourTurn) => W.Ok(YourTurnReceived)
    case (Initial, PermanentFailure) => W.Ok(Closed)
    case (YourTurnReceived, Result) => W.Ok(Closed)
    case (YourTurnReceived, PermanentFailure) => W.Ok(Closed)
    case _ => W.Err(W.AssertionFailed)
  }

  /** The state after a run of message types from `s`, or the failure of the first refused one. */
  function Walk(s: State, ts: seq<MessageType>): W.Result<State>
    decreases |ts|
  {
    if |ts| == 0 then W.Ok(s)
    else
      var next :- NextState(s, ts[0]);
      Walk(next, ts[1..])
  }

  /** A run of three or more messages from the initial state is refused. */
  lemma WalkRefusesThird(ts: seq<MessageType>)
    requires |ts| > 2
    ensures Walk(Initial, ts).Err?
  {
    var first := NextState(Initial, ts[0]);
    if first.Ok? {
      assert ts[1..][0] == ts[1];
      var second := NextState(first.value, ts[1]);
      if second.Ok? {
        var rest := ts[1..][1..];
        assert rest[0] == ts[2] && NextState(second.value, rest[0]).Err?;
        assert Walk(second.value, rest).Err?;
        assert Walk(first.value, ts[1..]) == Walk(second.value, rest);
      }
      assert Walk(Initial, ts) == Walk(first.value, ts[1..]);
    }
  }

  /**
   * The table admits at most two messages from the initial state: a run it accepts is empty,
   * a single message, or `YOUR_TURN` followed by a final message; the channel is closed exactly
   * when the run ends in a final message.
   */
  lemma WalkAccepts(ts: seq<MessageType>)
    requires Walk(Initial, ts).Ok?
    ensures |ts| <= 2
    ensures |ts| == 2 ==> ts[0] == YourTurn && Final(ts[1])
    ensures Walk(Initial, ts) == W.Ok(Closed) <==> |ts| > 0 && Final(ts[|ts| - 1])
    ensures Walk(Initial, ts) == W.Ok(YourTurnReceived) <==> ts == [YourTurn]
  {
    if |ts| > 2 {
      WalkRefusesThird(ts);
    } else if |ts| == 2 {
      assert ts[1..][0] == ts[1];
    }
  }

  /** Walking one message further is taking one more transition. */
  lemma {:induction false} WalkSnoc(s: State, ts: seq<MessageType>, t: MessageType)
    requires Walk(s, ts).Ok?
    ensures Walk(s, ts + [t]) == NextState(Walk(s, ts).value, t)
    decreases |ts|
  {
    if |ts| == 0 {
      assert [] + [t] == [t] && [t][1..] == [];
    } else {
      assert (ts + [t])[0] == ts[0] && (ts + [t])[1..] == ts[1..] + [t];
      WalkSnoc(NextState(s, ts[0]).value, ts[1..], t);
    }
  }

  /**
   * `RestrictedChannel`: the state of the exchange and the channel's one slot. `sent` is the
   * run of message types the channel has admitted.
   */
  class RestrictedChannel<R> {
    var state: State
    var channel: W.Option<Message<R>>
    ghost var sent: seq<MessageType>

    ghost predicate Valid()
      reads this
    {
      Walk(Initial, sent) == W.Ok(state)
    }

    constructor ()
      ensures Valid() && state == Initial && channel == W.None && sent == []
    {
      state := Initial;
      channel := W.None;
      sent := [];
    }

    /** `isEmpty`. */
    function IsEmpty(): (b: bool)
      reads this
      ensures b <==> channel.None?
    {
      channel.None?
    }

    /** `receive`, once a message is there: it takes the message out of the slot. */
    method Receive() returns (m: Message<R>)
      requires channel.Some?
      modifies this
      ensures m == old(channel.value) && channel == W.None
      ensures state == old(state) && sent == old(sent)
    {
      m := channel.value;
      channel := W.None;
    }

    /**
     * `send(m)`: a message still in the slot is an illegal state; a message the table refuses
     * is an assertion failure and changes nothing; otherwise the state moves on and the
     * message is put in the slot. At most two messages are ever admitted, the second after a
     * `YOUR_TURN` and final.
     */
    method Send(m: Message<R>) returns (r: W.Outcome)
      requires Valid()
      modifies this
      ensures Valid()
      ensures old(channel).Some? ==> r == W.Fail(W.IllegalState) && unchanged(this)
      ensures old(channel).None? && NextState(old(state), m.kind).Err? ==> r == W.Fail(W.AssertionFailed) && unchanged(this)
      ensures old(channel).None? && NextState(old(state), m.kind).Ok? ==>
        r == W.Pass && state == NextState(old(state), m.kind).value && channel == W.Some(m) && sent == old(sent) + [m.kind]
      ensures |sent| <= 2 && (|sent| == 2 ==> sent[0] == YourTurn && Final(sent[1]))
    {
      WalkAccepts(sent);
      if channel.Some? {
        return W.Fail(W.IllegalState);
      }
      var next := NextState(state, m.kind);
      if next.Err? {
        return W.Fail(next.error);
      }
      WalkSnoc(Initial, sent, m.kind);
      state := next.value;
      sent := sent + [m.kind];
      WalkAccepts(sent);
      channel := W.Some(m);
      return W.Pass;
    }
  }
}
