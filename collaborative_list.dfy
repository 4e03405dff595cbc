/**
 * The realtime `CollaborativeList`: a mutable list of encoded values whose local edits become
 * array ops. An op is consumed by a cursor walk that inserts and removes elements one at a
 * time, recording in the document each reference an element makes to another collaborative
 * object, and firing one values-added or values-removed event per edit.
 *
 * The list's invariant is that the document's parents table records this list as a parent of
 * each object exactly as often as the list refers to it. That is what lets a removal's
 * `addOrRemoveParent` assertion hold.
 *
 * `CollaborativeObject`, which supplies the session and user of an edit and forwards the op,
 * is not part of this model: the session and user are parameters, and the queued ops are the
 * field `submitted`.
 */
module CollaborativeLists {
  import opened Wrappers
  import opened Json
  import opened ListOps
  import opened RealtimeDocuments
  import JreJsonArrays

  /** A values-added or values-removed event: the edit, who made it, and whether that session is local. */
  type ValuesEvent = EditEvent<Json>

  /**
   * `checkIndex`: an index lies within the list, or may equal its length when the end bound
   * is allowed; otherwise it is an index error.
   */
  function CheckIndex(index: int, length: int, endBoundIsValid: bool): (r: Outcome)
    ensures r == Pass <==> 0 <= index && (if endBoundIsValid then index <= length else index < length)
    ensures r.Fail? ==> r.error == IndexOutOfBounds
  {
    if index < 0 || (if endBoundIsValid then index > length else index >= length) then Fail(IndexOutOfBounds)
    else Pass
  }

  /**
   * `addOrRemoveParent(value, id, true)` for a value joining the list `s` held by `id` at
   * position `k`: the document then counts the longer list.
   */
  method AddParent<H(==)>(doc: Document<H>, id: string, s: seq<Json>, k: int, value: Json, t: seq<Json>)
    requires doc.Valid() && Counted(doc.parents, doc.referenceType, id, s) && 0 <= k <= |s|
    requires t == s[..k] + [value] + s[k..]
    modifies doc
    ensures doc.Valid() && Counted(doc.parents, doc.referenceType, id, t)
    ensures doc.handlers == old(doc.handlers) && doc.sessionId == old(doc.sessionId)
    ensures OthersKept(old(doc.parents), doc.parents, id)
  {
    var o := doc.AddOrRemoveParent(Some(value), id, true);
    CountedAfterInsert(old(doc.parents), doc.parents, doc.referenceType, id, s, k, value);
  }

  /**
   * `initialize`'s loop: the reference of each value of `values` recorded with `id` as its
   * parent, in order. A holder with no recorded references then has exactly the list's.
   */
  method AddParents<H(==)>(doc: Document<H>, id: string, values: seq<Json>)
    requires doc.Valid() && forall c :: ParentBag(doc.parents, c)[id] == 0
    modifies doc
    ensures doc.Valid() && Counted(doc.parents, doc.referenceType, id, values)
    ensures doc.handlers == old(doc.handlers) && doc.sessionId == old(doc.sessionId)
    ensures OthersKept(old(doc.parents), doc.parents, id)
  {
    assert values[..0] == [];
    var i := 0;
    while i < |values|
      invariant 0 <= i <= |values|
      invariant doc.Valid() && Counted(doc.parents, doc.referenceType, id, values[..i])
      invariant doc.handlers == old(doc.handlers) && doc.sessionId == old(doc.sessionId)
      invariant OthersKept(old(doc.parents), doc.parents, id)
    {
      assert values[..i] + [values[i]] + values[..i][i..] == values[..i + 1];
      AddParent(doc, id, values[..i], i, values[i], values[..i + 1]);
      i := i + 1;
    }
    assert values[..|values|] == values;
  }

  /**
   * Part way through inserting `items` into `s0` at `index`: the list `s` holds the first `i`
   * of them. Inserting the next one after those keeps that so.
   */
  lemma InsertionStep(s0: seq<Json>, index: nat, i: nat, items: seq<Json>, s: seq<Json>)
    requires index <= |s0| && i < |items|
    requires s == s0[..index] + items[..i] + s0[index..]
    ensures index + i <= |s|
    ensures s[..index + i] + [items[i]] + s[index + i..] == s0[..index] + items[..i + 1] + s0[index..]
  {
    assert s[..index + i] == s0[..index] + items[..i];
    assert s[index + i..] == s0[index..];
    assert items[..i + 1] == items[..i] + [items[i]];
  }

  /**
   * Part way through removing `items` from `s0` at `index`: the list `s` has lost the first
   * `i` of them, which matched. Removing the next one when it matches keeps that so; a
   * mismatch means the items were not there.
   */
  lemma RemovalStep(s0: seq<Json>, index: nat, i: nat, items: seq<Json>, s: seq<Json>)
    requires index + |items| <= |s0| && i < |items|
    requires s == s0[..index] + s0[index + i..] && items[..i] == s0[index..index + i]
    ensures index < |s| && s[index] == s0[index + i]
    ensures s[index] != items[i] ==> s0[index..index + |items|] != items
    ensures s[index] == items[i] ==>
      s[..index] + s[index + 1..] == s0[..index] + s0[index + i + 1..]
      && items[..i + 1] == s0[index..index + i + 1]
  {
    assert s[index] == s0[index + i];
    assert s0[index..index + |items|][i] == s0[index + i];
    if s[index] == items[i] {
      assert items[..i + 1] == items[..i] + [items[i]];
      assert s0[index..index + i + 1] == s0[index..index + i] + [s0[index + i]];
      assert s[index + 1..] == s0[index + i + 1..];
    }
  }

  /** `CollaborativeList`, living in the document `doc`. */
  class CollaborativeList<H(==)> {
    var snapshot: seq<Json>
    /** The events fired, oldest first. */
    var fired: seq<ValuesEvent>
    /** The ops handed on for submission, oldest first. */
    var submitted: seq<ListOp<Json>>
    const id: string
    const doc: Document<H>

    /** The document is valid and counts this list's references exactly. */
    ghost predicate Valid()
      reads this, doc
    {
      doc.Valid() && Counted(doc.parents, doc.referenceType, id, snapshot)
    }

    /** The document's handlers and session are as they were, and no other parent's record changed. */
    twostate predicate DocKept()
      reads this, doc
    {
      doc.handlers == old(doc.handlers) && doc.sessionId == old(doc.sessionId)
      && OthersKept(old(doc.parents), doc.parents, id)
    }

    /**
     * `initializeCreate` then `initialize`: the snapshot is the initial values, or empty for
     * none, and each element's reference is recorded with this list as its parent.
     */
    constructor InitializeCreate(id: string, initialValue: Option<seq<Json>>, doc: Document<H>)
      requires doc.Valid() && forall c :: ParentBag(doc.parents, c)[id] == 0
      modifies doc
      ensures this.id == id && this.doc == doc && Valid()
      ensures doc.handlers == old(doc.handlers) && doc.sessionId == old(doc.sessionId)
      ensures OthersKept(old(doc.parents), doc.parents, id)
      ensures snapshot == (if initialValue.Some? then initialValue.value else [])
      ensures fired == [] && submitted == []
    {
      var values := if initialValue.Some? then initialValue.value else [];
      this.id := id;
      this.doc := doc;
      snapshot := values;
      fired := [];
      submitted := [];
      new;
      AddParents(doc, id, values);
    }

    /** `length`. */
    function Length(): (n: nat)
      reads this
      ensures n == |snapshot|
    {
      |snapshot|
    }

    /** `get`: the value at an index within the list, or an index error. */
    function Get(index: int): (r: Result<Json>)
      reads this
      ensures r.Ok? <==> 0 <= index < |snapshot|
      ensures r.Ok? ==> r.value == snapshot[index]
      ensures r.Err? ==> r.error == IndexOutOfBounds
    {
      var checked := CheckIndex(index, |snapshot|, false);
      if checked.Fail? then Err(checked.error) else Ok(snapshot[index])
    }

    /**
     * `insertAndFireEvent`: the values inserted one by one from `index`, each one's reference
     * recorded with this list as its parent, then one event for the whole insert.
     */
    method InsertAndFireEvent(index: nat, items: seq<Json>, sessionId: string, userId: string)
      requires Valid() && index <= |snapshot|
      modifies this, doc
      ensures Valid() && DocKept() && submitted == old(submitted)
      ensures snapshot == old(snapshot)[..index] + items + old(snapshot)[index..]
      ensures fired == old(fired) + [EditEvent(Inserted(index, items), sessionId, userId,
                                               IsLocalSession(doc.sessionId, sessionId))]
    {
      var i := 0;
      while i < |items|
        invariant 0 <= i <= |items|
        invariant Valid() && DocKept() && submitted == old(submitted) && fired == old(fired)
        invariant snapshot == old(snapshot)[..index] + items[..i] + old(snapshot)[index..]
      {
        var s := snapshot;
        var value := items[i];
        InsertionStep(old(snapshot), index, i, items, s);
        snapshot := JreJsonArrays.InsertAt(snapshot, index + i, value);
        AddParent(doc, id, s, index + i, value, snapshot);
        i := i + 1;
      }
      assert items[..|items|] == items;
      var isLocal := doc.IsLocal(sessionId);
      fired := fired + [EditEvent(Inserted(index, items), sessionId, userId, isLocal)];
    }

    /**
     * One step of `removeAndFireEvent`: asserts the element at `index` is `value`, removes it
     * and takes its reference out of the document.
     */
    method RemoveOne(index: nat, value: Json) returns (r: Outcome)
      requires Valid() && index < |snapshot|
      modifies this, doc
      ensures Valid() && DocKept() && submitted == old(submitted) && fired == old(fired)
      ensures r.Pass? <==> old(snapshot)[index] == value
      ensures r.Fail? ==> r == Fail(AssertionFailed) && snapshot == old(snapshot)
      ensures r.Pass? ==> snapshot == old(snapshot)[..index] + old(snapshot)[index + 1..]
    {
      if snapshot[index] != value {
        return Fail(AssertionFailed);
      }
      ghost var before, s := doc.parents, snapshot;
      CountedRecorded(before, doc.referenceType, id, s, index);
      snapshot := JreJsonArrays.RemoveAt(snapshot, index);
      var o := doc.AddOrRemoveParent(Some(value), id, false);
      assert o.Pass?;
      CountedAfterRemove(before, doc.parents, doc.referenceType, id, s, index);
      return Pass;
    }

    /**
     * `removeAndFireEvent`: for each value, asserts the element at `index` is that value,
     * removes it and takes its reference out of the document, then fires one event for the
     * whole removal. A mismatch stops it with the assertion failure.
     */
    method RemoveAndFireEvent(index: nat, items: seq<Json>, sessionId: string, userId: string) returns (r: Outcome)
      requires Valid() && index + |items| <= |snapshot|
      modifies this, doc
      ensures Valid() && DocKept() && submitted == old(submitted)
      ensures r.Pass? <==> old(snapshot)[index..index + |items|] == items
      ensures r.Fail? ==> r == Fail(AssertionFailed) && fired == old(fired)
      ensures r.Pass? ==>
        snapshot == old(snapshot)[..index] + old(snapshot)[index + |items|..]
        && fired == old(fired) + [EditEvent(Deleted(index, items), sessionId, userId,
                                            IsLocalSession(doc.sessionId, sessionId))]
    {
      ghost var s0 := snapshot;
      var i := 0;
      while i < |items|
        invariant 0 <= i <= |items|
        invariant Valid() && DocKept() && submitted == old(submitted) && fired == old(fired)
        invariant snapshot == s0[..index] + s0[index + i..]
        invariant items[..i] == s0[index..index + i]
      {
        ghost var s := snapshot;
        RemovalStep(s0, index, i, items, s);
        var o := RemoveOne(index, items[i]);
        if o.Fail? {
          return o;
        }
        i := i + 1;
      }
      assert items[..|items|] == items;
      var isLocal := doc.IsLocal(sessionId);
      fired := fired + [EditEvent(Deleted(index, items), sessionId, userId, isLocal)];
      return Pass;
    }

    /**
     * One component of `consume`'s walk: a retain moves the cursor; an insert asserts it is
     * non-empty and the cursor within the list, inserts at the cursor and moves past it; a
     * delete asserts it is non-empty and within the list, then removes its values.
     */
    method ConsumeComponent(c: Component<Json>, cursor: nat, sessionId: string, userId: string)
      returns (r: Outcome, next: nat)
      requires Valid()
      modifies this, doc
      ensures Valid() && DocKept() && submitted == old(submitted)
      ensures r.Pass? <==> Step(c, old(snapshot), cursor, Elements).Ok?
      ensures r.Fail? ==> r.error == Step(c, old(snapshot), cursor, Elements).error
      ensures r.Pass? ==>
        (snapshot, next) == Step(c, old(snapshot), cursor, Elements).value
        && fired == old(fired) + Stamped(EditOf(c, cursor), sessionId, userId,
                                         IsLocalSession(doc.sessionId, sessionId))
    {
      var isLocal := doc.IsLocal(sessionId);
      match c {
        case Retain(n) =>
          return Pass, cursor + n;
        case Insert(xs) =>
          if |xs| == 0 || cursor > |snapshot| {
            return Fail(AssertionFailed), cursor;
          }
          InsertAndFireEvent(cursor, xs, sessionId, userId);
          assert [EditEvent(Inserted(cursor, xs), sessionId, userId, isLocal)] == Stamped(EditOf(c, cursor), sessionId, userId, isLocal);
          return Pass, cursor + |xs|;
        case Delete(xs) =>
          if |xs| == 0 || cursor + |xs| > |snapshot| {
            return Fail(AssertionFailed), cursor;
          }
          r := RemoveAndFireEvent(cursor, xs, sessionId, userId);
          assert [EditEvent(Deleted(cursor, xs), sessionId, userId, isLocal)] == Stamped(EditOf(c, cursor), sessionId, userId, isLocal);
          return r, cursor;
      }
    }

    /**
     * `consume`: the op's walk over the list, component by component. The list ends as the
     * walk leaves it, the events fired are the walk's edits in order, and the document still
     * counts the list's references. A walk that fails stops at the failing component with the
     * error the walk gives.
     */
    method Consume(op: ListOp<Json>, sessionId: string, userId: string) returns (r: Outcome)
      requires Valid()
      modifies this, doc
      ensures Valid() && DocKept() && submitted == old(submitted)
      ensures r.Pass? <==> Apply(op, old(snapshot), Elements).Ok?
      ensures r.Fail? ==> r.error == Apply(op, old(snapshot), Elements).error
      ensures r.Pass? ==>
        snapshot == Apply(op, old(snapshot), Elements).value
        && fired == old(fired) + Stamped(Edits(op, 0), sessionId, userId,
                                         IsLocalSession(doc.sessionId, sessionId))
    {
      ghost var isLocal := doc.IsLocal(sessionId);
      ghost var done: seq<Edit<Json>> := [];
      var cursor: nat := 0;
      var i := 0;
      while i < |op|
        invariant 0 <= i <= |op|
        invariant Valid() && DocKept() && submitted == old(submitted)
        invariant ApplyAt(op[i..], snapshot, cursor, Elements) == Apply(op, old(snapshot), Elements)
        invariant Reported(op, i, cursor, done)
        invariant fired == old(fired) + Stamped(done, sessionId, userId, isLocal)
      {
        WalkStep(op, i, snapshot, cursor, Elements);
        ghost var edit := EditOf(op[i], cursor);
        var o, next := ConsumeComponent(op[i], cursor, sessionId, userId);
        if o.Fail? {
          return o;
        }
        StampedAppend(done, edit, sessionId, userId, isLocal);
        ReportedStep(op, i, cursor, done);
        done := done + edit;
        cursor := next;
        i := i + 1;
      }
      assert op[|op|..] == [];
      ReportedAll(op, cursor, done);
      return Pass;
    }

    /** `consumeAndSubmit`: the op is consumed under the given session and, when it applies, queued. */
    method ConsumeAndSubmit(op: ListOp<Json>, sessionId: string, userId: string) returns (r: Outcome)
      requires Valid()
      modifies this, doc
      ensures Valid() && DocKept()
      ensures r.Pass? <==> Apply(op, old(snapshot), Elements).Ok?
      ensures r.Fail? ==> r.error == Apply(op, old(snapshot), Elements).error && submitted == old(submitted)
      ensures r.Pass? ==>
        snapshot == Apply(op, old(snapshot), Elements).value
        && fired == old(fired) + Stamped(Edits(op, 0), sessionId, userId,
                                         IsLocalSession(doc.sessionId, sessionId))
        && submitted == old(submitted) + [op]
    {
      r := Consume(op, sessionId, userId);
      if r.Pass? {
        submitted := submitted + [op];
      }
    }

    /**
     * `insertAll`: a position outside the list (its end allowed) is an index error; a null
     * array of values inserts a single JSON null; no values change nothing; otherwise the
     * single-insert op is consumed and submitted, which puts the values at the position in
     * order and fires one event.
     */
    method InsertAll(index: int, values: Option<seq<Json>>, sessionId: string, userId: string) returns (r: Outcome)
      requires Valid()
      modifies this, doc
      ensures Valid() && DocKept()
      ensures !(0 <= index <= old(|snapshot|)) ==>
        r == Fail(IndexOutOfBounds) && snapshot == old(snapshot) && fired == old(fired) && submitted == old(submitted)
      ensures 0 <= index <= old(|snapshot|) && values == Some([]) ==>
        r == Pass && snapshot == old(snapshot) && fired == old(fired) && submitted == old(submitted)
      ensures 0 <= index <= old(|snapshot|) && values != Some([]) ==>
        var items := if values.None? then [JNull] else values.value;
        r == Pass && snapshot == old(snapshot)[..index] + items + old(snapshot)[index..]
        && fired == old(fired) + [EditEvent(Inserted(index, items), sessionId, userId,
                                            IsLocalSession(doc.sessionId, sessionId))]
        && submitted == old(submitted) + [SingleEdit(true, index, items, old(|snapshot|))]
    {
      var checked := CheckIndex(index, |snapshot|, true);
      if checked.Fail? {
        return checked;
      }
      var items: seq<Json>;
      if values.None? {
        items := [JNull];
      } else if |values.value| == 0 {
        return Pass;
      } else {
        items := values.value;
      }
      var op := SingleEdit(true, index, items, |snapshot|);
      SingleInsertApplies(index, items, snapshot, Elements);
      SingleEditEdits(true, index, items, |snapshot|);
      r := ConsumeAndSubmit(op, sessionId, userId);
    }

    /** `insert`: one value inserted at a position, the list's end allowed. */
    method Insert(index: int, value: Json, sessionId: string, userId: string) returns (r: Outcome)
      requires Valid()
      modifies this, doc
      ensures Valid() && DocKept()
      ensures !(0 <= index <= old(|snapshot|)) ==>
        r == Fail(IndexOutOfBounds) && snapshot == old(snapshot) && fired == old(fired) && submitted == old(submitted)
      ensures 0 <= index <= old(|snapshot|) ==>
        r == Pass && snapshot == old(snapshot)[..index] + [value] + old(snapshot)[index..]
        && fired == old(fired) + [EditEvent(Inserted(index, [value]), sessionId, userId,
                                            IsLocalSession(doc.sessionId, sessionId))]
        && submitted == old(submitted) + [SingleEdit(true, index, [value], old(|snapshot|))]
    {
      r := InsertAll(index, Some([value]), sessionId, userId);
    }

    /** `push`: the value appended; the result is the new length. */
    method Push(value: Json, sessionId: string, userId: string) returns (n: int)
      requires Valid()
      modifies this, doc
      ensures Valid() && DocKept()
      ensures n == old(|snapshot|) + 1 && n == |snapshot|
      ensures snapshot == old(snapshot) + [value] && snapshot[n - 1] == value
      ensures fired == old(fired) + [EditEvent(Inserted(old(|snapshot|), [value]), sessionId, userId,
                                               IsLocalSession(doc.sessionId, sessionId))]
      ensures submitted == old(submitted) + [SingleEdit(true, old(|snapshot|), [value], old(|snapshot|))]
    {
      var r := Insert(|snapshot|, value, sessionId, userId);
      assert old(snapshot)[old(|snapshot|)..] == [];
      n := |snapshot|;
    }

    /**
     * `removeRange`: unless `0 <= startIndex < endIndex <= length` it is an index error;
     * otherwise the single-delete op of the values in range is consumed and submitted, which
     * takes them out and fires one event. The values are gathered into a fresh array from its
     * slot 0 on.
     */
    method RemoveRange(startIndex: int, endIndex: int, sessionId: string, userId: string) returns (r: Outcome)
      requires Valid()
      modifies this, doc
      ensures Valid() && DocKept()
      ensures !(0 <= startIndex < endIndex <= old(|snapshot|)) ==>
        r == Fail(IndexOutOfBounds) && snapshot == old(snapshot) && fired == old(fired) && submitted == old(submitted)
      ensures 0 <= startIndex < endIndex <= old(|snapshot|) ==>
        r == Pass && snapshot == old(snapshot)[..startIndex] + old(snapshot)[endIndex..]
        && fired == old(fired) + [EditEvent(Deleted(startIndex, old(snapshot)[startIndex..endIndex]), sessionId, userId,
                                            IsLocalSession(doc.sessionId, sessionId))]
        && submitted == old(submitted) + [SingleEdit(false, startIndex, old(snapshot)[startIndex..endIndex], old(|snapshot|))]
    {
      var length := |snapshot|;
      if startIndex < 0 || startIndex >= length || endIndex <= startIndex || endIndex > length {
        return Fail(IndexOutOfBounds);
      }
      var gathered := new JreJsonArrays.JreJsonArray();
      for i := startIndex to endIndex
        modifies gathered
        invariant gathered.arrayValues == snapshot[startIndex..i]
      {
        var o := gathered.Set(i - startIndex, Some(snapshot[i]));
        assert snapshot[startIndex..i + 1] == snapshot[startIndex..i] + [snapshot[i]];
      }
      var values := gathered.arrayValues;
      var op := SingleEdit(false, startIndex, values, length);
      SingleDeleteApplies(startIndex, values, snapshot, Elements);
      SingleEditEdits(false, startIndex, values, length);
      r := ConsumeAndSubmit(op, sessionId, userId);
    }

    /**
     * `removeRange` as written: the values are gathered with `set(i, …)` from `i = startIndex`
     * into an empty array, which appends only at slot 0. Any range that does not start at 0
     * hits an index error before anything is removed; a range from 0 removes as intended.
     */
    method RemoveRangeAsWritten(startIndex: int, endIndex: int, sessionId: string, userId: string) returns (r: Outcome)
      requires Valid()
      modifies this, doc
      ensures Valid() && DocKept()
      ensures !(0 <= startIndex < endIndex <= old(|snapshot|)) || startIndex > 0 ==>
        r == Fail(IndexOutOfBounds) && snapshot == old(snapshot) && fired == old(fired) && submitted == old(submitted)
      ensures startIndex == 0 < endIndex <= old(|snapshot|) ==>
        r == Pass && snapshot == old(snapshot)[endIndex..]
        && fired == old(fired) + [EditEvent(Deleted(0, old(snapshot)[..endIndex]), sessionId, userId,
                                            IsLocalSession(doc.sessionId, sessionId))]
        && submitted == old(submitted) + [SingleEdit(false, 0, old(snapshot)[..endIndex], old(|snapshot|))]
    {
      var length := |snapshot|;
      if startIndex < 0 || startIndex >= length || endIndex <= startIndex || endIndex > length {
        return Fail(IndexOutOfBounds);
      }
      var gathered := new JreJsonArrays.JreJsonArray();
      for i := startIndex to endIndex
        modifies gathered
        invariant startIndex == 0 ==> gathered.arrayValues == snapshot[..i]
        invariant startIndex > 0 ==> gathered.arrayValues == [] && i == startIndex
      {
        var o := gathered.Set(i, Some(snapshot[i]));
        if o.Fail? {
          return o;
        }
        assert snapshot[..i + 1] == snapshot[..i] + [snapshot[i]];
      }
      var values := gathered.arrayValues;
      var op := SingleEdit(false, startIndex, values, length);
      SingleDeleteApplies(startIndex, values, snapshot, Elements);
      SingleEditEdits(false, startIndex, values, length);
      r := ConsumeAndSubmit(op, sessionId, userId);
    }

    /** `remove`: the value at an index within the list taken out. */
    method Remove(index: int, sessionId: string, userId: string) returns (r: Outcome)
      requires Valid()
      modifies this, doc
      ensures Valid() && DocKept()
      ensures !(0 <= index < old(|snapshot|)) ==>
        r == Fail(IndexOutOfBounds) && snapshot == old(snapshot) && fired == old(fired) && submitted == old(submitted)
      ensures 0 <= index < old(|snapshot|) ==>
        r == Pass && snapshot == JreJsonArrays.RemoveAt(old(snapshot), index)
        && fired == old(fired) + [EditEvent(Deleted(index, [old(snapshot)[index]]), sessionId, userId,
                                            IsLocalSession(doc.sessionId, sessionId))]
        && submitted == old(submitted) + [SingleEdit(false, index, [old(snapshot)[index]], old(|snapshot|))]
    {
      r := RemoveRange(index, index + 1, sessionId, userId);
      assert 0 <= index < old(|snapshot|) ==> old(snapshot)[index..index + 1] == [old(snapshot)[index]];
    }

    /**
     * `setLength`: a length beyond the list is an index error; a shorter one removes the
     * tail; the list's own length changes nothing.
     */
    method SetLength(length: int, sessionId: string, userId: string) returns (r: Outcome)
      requires Valid()
      modifies this, doc
      ensures Valid() && DocKept()
      ensures !(0 <= length <= old(|snapshot|)) ==>
        r == Fail(IndexOutOfBounds) && snapshot == old(snapshot) && fired == old(fired) && submitted == old(submitted)
      ensures 0 <= length <= old(|snapshot|) ==> r == Pass && snapshot == old(snapshot)[..length]
      ensures 0 <= length < old(|snapshot|) ==>
        fired == old(fired) + [EditEvent(Deleted(length, old(snapshot)[length..]), sessionId, userId,
                                         IsLocalSession(doc.sessionId, sessionId))]
        && submitted == old(submitted) + [SingleEdit(false, length, old(snapshot)[length..], old(|snapshot|))]
      ensures length == old(|snapshot|) ==> fired == old(fired) && submitted == old(submitted)
    {
      var checked := CheckIndex(length, |snapshot|, true);
      if checked.Fail? {
        return checked;
      }
      var len := |snapshot|;
      r := Pass;
      if length < len {
        ghost var before := snapshot;
        assert before[length..len] == before[length..];
        r := RemoveRange(length, len, sessionId, userId);
        assert before[len..] == [];
      }
    }

    /**
     * `indexOf`: the first index whose element passes the test, or -1 when none does or when
     * there is no test. The test is the comparator's verdict, or equality with the value's
     * encoding; no test stands for a value that cannot be encoded.
     */
    method IndexOf(test: Option<Json -> bool>) returns (i: int)
      ensures -1 <= i < |snapshot|
      ensures i >= 0 ==> test.Some? && test.value(snapshot[i])
      ensures test.Some? ==> forall j | 0 <= j < |snapshot| && (i < 0 || j < i) :: !test.value(snapshot[j])
    {
      if test.None? {
        return -1;
      }
      var k := 0;
      while k < |snapshot|
        invariant 0 <= k <= |snapshot|
        invariant forall j | 0 <= j < k :: !test.value(snapshot[j])
      {
        if test.value(snapshot[k]) {
          return k;
        }
        k := k + 1;
      }
      return -1;
    }

    /**
     * `lastIndexOf`: the last index whose element passes the test, or -1 when none does or
     * when there is no test.
     */
    method LastIndexOf(test: Option<Json -> bool>) returns (i: int)
      ensures -1 <= i < |snapshot|
      ensures i >= 0 ==> test.Some? && test.value(snapshot[i])
      ensures test.Some? ==> forall j | i < j < |snapshot| :: !test.value(snapshot[j])
    {
      if test.None? {
        return -1;
      }
      var k := |snapshot| - 1;
      while k >= 0
        invariant -1 <= k < |snapshot|
        invariant forall j | k < j < |snapshot| :: !test.value(snapshot[j])
      {
        if test.value(snapshot[k]) {
          return k;
        }
        k := k - 1;
      }
      return -1;
    }

    /**
     * `toInitialization`: nothing for the empty list, otherwise the op that inserts the whole
     * list, which rebuilds the list from nothing.
     */
    function ToInitialization(): (r: Option<ListOp<Json>>)
      reads this
      ensures r.None? <==> |snapshot| == 0
      ensures r.Some? ==> Apply(r.value, [], Elements) == Ok(snapshot)
    {
      if |snapshot| == 0 then None
      else
        var op: ListOp<Json> := [Component.Insert(snapshot)];
        InsertStep(op, [], 0, Elements, snapshot);
        assert op[1..] == [] && [][..0] + snapshot + [][0..] == snapshot;
        Some([Component.Insert(snapshot)])
    }
  }
}
