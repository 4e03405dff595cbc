/**
 * The realtime `CollaborativeString`: a mutable text whose local edits become string ops. An
 * op is consumed by a cursor walk that splices inserted text in and takes deleted text out,
 * firing one text-inserted or text-deleted event per edit, and is then queued for the server.
 *
 * `CollaborativeObject`, which supplies the session and user an edit is made under and
 * forwards the op, is not part of this model: the session and user are parameters, and the
 * queued ops are the field `submitted`.
 */
module CollaborativeStrings {
  import opened Wrappers
  import opened ListOps
  import opened RealtimeDocuments

  /** A text-inserted or text-deleted event: the edit, who made it, and whether that session is local. */
  type TextEvent = EditEvent<char>

  /** `checkIndex`: an insert position lies within the text or at its end. */
  function CheckIndex(index: int, length: int): (r: Outcome)
    ensures r == Pass <==> 0 <= index <= length
    ensures r.Fail? ==> r.error == IndexOutOfBounds
  {
    if index < 0 || index > length then Fail(IndexOutOfBounds) else Pass
  }

  /** `CollaborativeString`. */
  class CollaborativeString {
    var snapshot: string
    /** The events fired, oldest first. */
    var fired: seq<TextEvent>
    /** The ops handed on for submission, oldest first. */
    var submitted: seq<ListOp<char>>
    /** The session id of the document the string lives in. */
    const documentSession: Option<string>

    /** `initialize`: the initial text, or the empty text for a null one. */
    constructor Initialize(initialValue: Option<string>, documentSession: Option<string>)
      ensures snapshot == (if initialValue.Some? then initialValue.value else "")
      ensures fired == [] && submitted == [] && this.documentSession == documentSession
    {
      snapshot := if initialValue.Some? then initialValue.value else "";
      fired := [];
      submitted := [];
      this.documentSession := documentSession;
    }

    /** `length`. */
    function Length(): (n: nat)
      reads this
      ensures n == |snapshot|
    {
      |snapshot|
    }

    /**
     * `insertAndFireEvent`: asserts the position is within the text, splices the text in and
     * fires the insert event.
     */
    method InsertAndFireEvent(index: nat, text: string, sessionId: string, userId: string) returns (r: Outcome)
      modifies this
      ensures submitted == old(submitted)
      ensures index > old(|snapshot|) ==> r == Fail(AssertionFailed) && snapshot == old(snapshot) && fired == old(fired)
      ensures index <= old(|snapshot|) ==>
        r == Pass && snapshot == old(snapshot)[..index] + text + old(snapshot)[index..]
        && fired == old(fired) + [EditEvent(Inserted(index, text), sessionId, userId,
                                            IsLocalSession(documentSession, sessionId))]
    {
      if index > |snapshot| {
        return Fail(AssertionFailed);
      }
      var isLocal := IsLocalSession(documentSession, sessionId);
      snapshot := snapshot[..index] + text + snapshot[index..];
      fired := fired + [EditEvent(Inserted(index, text), sessionId, userId, isLocal)];
      return Pass;
    }

    /**
     * `deleteAndFireEvent` on `[startIndex, endIndex)`: asserts the range is non-empty and
     * within the text, takes it out and fires the delete event with the text removed.
     */
    method DeleteAndFireEvent(startIndex: nat, endIndex: nat, sessionId: string, userId: string) returns (r: Outcome)
      modifies this
      ensures submitted == old(submitted)
      ensures !(startIndex < endIndex <= old(|snapshot|)) ==>
        r == Fail(AssertionFailed) && snapshot == old(snapshot) && fired == old(fired)
      ensures startIndex < endIndex <= old(|snapshot|) ==>
        r == Pass && snapshot == old(snapshot)[..startIndex] + old(snapshot)[endIndex..]
        && fired == old(fired) + [EditEvent(Deleted(startIndex, old(snapshot)[startIndex..endIndex]), sessionId, userId,
                                            IsLocalSession(documentSession, sessionId))]
    {
      if !(startIndex < endIndex <= |snapshot|) {
        return Fail(AssertionFailed);
      }
      var toDelete := snapshot[startIndex..endIndex];
      var isLocal := IsLocalSession(documentSession, sessionId);
      snapshot := snapshot[..startIndex] + snapshot[endIndex..];
      fired := fired + [EditEvent(Deleted(startIndex, toDelete), sessionId, userId, isLocal)];
      return Pass;
    }

    /**
     * One component of `consume`'s walk: a retain moves the cursor; an insert is inserted at
     * the cursor, which moves past it; a delete is checked against the text at the cursor
     * (the range first, then the text) and taken out.
     */
    method ConsumeComponent(c: Component<char>, cursor: nat, sessionId: string, userId: string)
      returns (r: Outcome, next: nat)
      modifies this
      ensures submitted == old(submitted)
      ensures r.Pass? <==> Step(c, old(snapshot), cursor, RealtimeText).Ok?
      ensures r.Fail? ==> r.error == Step(c, old(snapshot), cursor, RealtimeText).error
      ensures r.Pass? ==>
        (snapshot, next) == Step(c, old(snapshot), cursor, RealtimeText).value
        && fired == old(fired) + Stamped(EditOf(c, cursor), sessionId, userId,
                                         IsLocalSession(documentSession, sessionId))
    {
      var isLocal := IsLocalSession(documentSession, sessionId);
      match c {
        case Retain(n) =>
          return Pass, cursor + n;
        case Insert(xs) =>
          r := InsertAndFireEvent(cursor, xs, sessionId, userId);
          assert [EditEvent(Inserted(cursor, xs), sessionId, userId, isLocal)] == Stamped(EditOf(c, cursor), sessionId, userId, isLocal);
          return r, cursor + |xs|;
        case Delete(xs) =>
          if cursor + |xs| > |snapshot| {
            return Fail(IndexOutOfBounds), cursor;
          }
          if snapshot[cursor..cursor + |xs|] != xs {
            return Fail(AssertionFailed), cursor;
          }
          r := DeleteAndFireEvent(cursor, cursor + |xs|, sessionId, userId);
          assert [EditEvent(Deleted(cursor, xs), sessionId, userId, isLocal)] == Stamped(EditOf(c, cursor), sessionId, userId, isLocal);
          return r, cursor;
      }
    }

    /**
     * `consume`: the op's walk over the text, component by component. The text ends as the
     * walk leaves it, and the events fired are the walk's edits in order. A walk that fails
     * stops at the failing component with the error the walk gives; what it applied before
     * that stays.
     */
    method Consume(op: ListOp<char>, sessionId: string, userId: string) returns (r: Outcome)
      modifies this
      ensures submitted == old(submitted)
      ensures r.Pass? <==> Apply(op, old(snapshot), RealtimeText).Ok?
      ensures r.Fail? ==> r.error == Apply(op, old(snapshot), RealtimeText).error
      ensures r.Pass? ==>
        snapshot == Apply(op, old(snapshot), RealtimeText).value
        && fired == old(fired) + Stamped(Edits(op, 0), sessionId, userId,
                                         IsLocalSession(documentSession, sessionId))
    {
      ghost var isLocal := IsLocalSession(documentSession, sessionId);
      ghost var done: seq<Edit<char>> := [];
      var cursor: nat := 0;
      var i := 0;
      while i < |op|
        invariant 0 <= i <= |op| && submitted == old(submitted)
        invariant ApplyAt(op[i..], snapshot, cursor, RealtimeText) == Apply(op, old(snapshot), RealtimeText)
        invariant Reported(op, i, cursor, done)
        invariant fired == old(fired) + Stamped(done, sessionId, userId, isLocal)
      {
        WalkStep(op, i, snapshot, cursor, RealtimeText);
        ghost var edit := EditOf(op[i], cursor);
        var o, next := ConsumeComponent(op[i], cursor, sessionId, userId);
        if o.Fail? {
          return o;
        }
        StampedAppend(done, edit, sessionId, userId, isLocal);
        ReportedStep(op, i, cursor, done);
        done := done + edit;
        cursor := next;
        i := i + 1;
      }
      assert op[|op|..] == [];
      ReportedAll(op, cursor, done);
      return Pass;
    }

    /** `consumeAndSubmit`: the op is consumed under the given session and, when it applies, queued. */
    method ConsumeAndSubmit(op: ListOp<char>, sessionId: string, userId: string) returns (r: Outcome)
      modifies this
      ensures r.Pass? <==> Apply(op, old(snapshot), RealtimeText).Ok?
      ensures r.Fail? ==> r.error == Apply(op, old(snapshot), RealtimeText).error
      ensures r.Pass? ==>
        snapshot == Apply(op, old(snapshot), RealtimeText).value
        && fired == old(fired) + Stamped(Edits(op, 0), sessionId, userId,
                                         IsLocalSession(documentSession, sessionId))
        && submitted == old(submitted) + [op]
      ensures r.Fail? ==> submitted == old(submitted)
    {
      r := Consume(op, sessionId, userId);
      if r.Pass? {
        submitted := submitted + [op];
      }
    }

    /**
     * `insertString`: null or empty text is an illegal argument, a position outside the text
     * an index error; otherwise the single-insert op is consumed and submitted, which splices
     * the text in at the position and fires one insert event.
     */
    method InsertString(index: int, text: Option<string>, sessionId: string, userId: string) returns (r: Outcome)
      modifies this
      ensures text.None? || |text.value| == 0 ==>
        r == Fail(IllegalArgument) && snapshot == old(snapshot) && fired == old(fired) && submitted == old(submitted)
      ensures text.Some? && |text.value| > 0 && !(0 <= index <= old(|snapshot|)) ==>
        r == Fail(IndexOutOfBounds) && snapshot == old(snapshot) && fired == old(fired) && submitted == old(submitted)
      ensures text.Some? && |text.value| > 0 && 0 <= index <= old(|snapshot|) ==>
        r == Pass && snapshot == old(snapshot)[..index] + text.value + old(snapshot)[index..]
        && fired == old(fired) + [EditEvent(Inserted(index, text.value), sessionId, userId,
                                            IsLocalSession(documentSession, sessionId))]
        && submitted == old(submitted) + [SingleEdit(true, index, text.value, old(|snapshot|))]
    {
      if text.None? || |text.value| == 0 {
        return Fail(IllegalArgument);
      }
      var checked := CheckIndex(index, |snapshot|);
      if checked.Fail? {
        return checked;
      }
      var op := SingleEdit(true, index, text.value, |snapshot|);
      SingleInsertApplies(index, text.value, snapshot, RealtimeText);
      SingleEditEdits(true, index, text.value, |snapshot|);
      r := ConsumeAndSubmit(op, sessionId, userId);
    }

    /** `append`: the text inserted at the end. */
    method Append(text: Option<string>, sessionId: string, userId: string) returns (r: Outcome)
      modifies this
      ensures text.None? || |text.value| == 0 ==>
        r == Fail(IllegalArgument) && snapshot == old(snapshot) && fired == old(fired) && submitted == old(submitted)
      ensures text.Some? && |text.value| > 0 ==>
        r == Pass && snapshot == old(snapshot) + text.value
        && fired == old(fired) + [EditEvent(Inserted(old(|snapshot|), text.value), sessionId, userId,
                                            IsLocalSession(documentSession, sessionId))]
        && submitted == old(submitted) + [SingleEdit(true, old(|snapshot|), text.value, old(|snapshot|))]
    {
      r := InsertString(Length(), text, sessionId, userId);
      assert text.Some? && |text.value| > 0 ==> old(snapshot)[old(|snapshot|)..] == [];
    }

    /**
     * `removeRange`: unless `0 <= startIndex < endIndex <= length` it is an index error;
     * otherwise the single-delete op of the text in range is consumed and submitted, which
     * takes that text out and fires one delete event.
     */
    method RemoveRange(startIndex: int, endIndex: int, sessionId: string, userId: string) returns (r: Outcome)
      modifies this
      ensures !(0 <= startIndex < endIndex <= old(|snapshot|)) ==>
        r == Fail(IndexOutOfBounds) && snapshot == old(snapshot) && fired == old(fired) && submitted == old(submitted)
      ensures 0 <= startIndex < endIndex <= old(|snapshot|) ==>
        r == Pass && snapshot == old(snapshot)[..startIndex] + old(snapshot)[endIndex..]
        && fired == old(fired) + [EditEvent(Deleted(startIndex, old(snapshot)[startIndex..endIndex]), sessionId, userId,
                                            IsLocalSession(documentSession, sessionId))]
        && submitted == old(submitted) + [SingleEdit(false, startIndex, old(snapshot)[startIndex..endIndex], old(|snapshot|))]
    {
      var length := |snapshot|;
      if startIndex < 0 || startIndex >= length || endIndex <= startIndex || endIndex > length {
        return Fail(IndexOutOfBounds);
      }
      var text := snapshot[startIndex..endIndex];
      var op := SingleEdit(false, startIndex, text, length);
      SingleDeleteApplies(startIndex, text, snapshot, RealtimeText);
      SingleEditEdits(false, startIndex, text, length);
      r := ConsumeAndSubmit(op, sessionId, userId);
    }

    /**
     * `toInitialization`: nothing for the empty text, otherwise the op that inserts the whole
     * text, which rebuilds the text from nothing.
     */
    function ToInitialization(): (r: Option<ListOp<char>>)
      reads this
      ensures r.None? <==> |snapshot| == 0
      ensures r.Some? ==> Apply(r.value, "", RealtimeText) == Ok(snapshot)
    {
      if |snapshot| == 0 then None
      else
        var op: ListOp<char> := [Insert(snapshot)];
        InsertStep(op, "", 0, RealtimeText, snapshot);
        assert op[1..] == [] && ""[..0] + snapshot + ""[0..] == snapshot;
        Some([Insert(snapshot)])
    }
  }
}
