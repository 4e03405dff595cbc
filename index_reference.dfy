/**
 * `IndexReference`: a pointer to a position in a collaborative string or list that shifts as
 * elements are inserted before it or removed. Its snapshot is the JSON array
 * `[referenced object id, index, canBeDeleted]`; only the index ever changes.
 */
module IndexReferences {
  import opened Wrappers
  import opened Json
  import RealtimeDocuments

  /**
   * `setIndex`'s rule: a reference before the edit stays; an insert at or before it moves it
   * right by the inserted length; a deletion wholly before it moves it left by the deleted
   * length; a deletion covering it deletes it (index -1) or moves it to the start of the
   * deleted range.
   */
  function Shifted(cursor: int, isInsert: bool, index: int, length: int, canBeDeleted: bool): (n: int)
    ensures cursor == -1 && index >= 0 ==> n == -1
  {
    if cursor < index then cursor
    else if isInsert then cursor + length
    else if cursor < index + length then (if canBeDeleted then -1 else index)
    else cursor - length
  }

  /** After `ins` is inserted at `index`, the reference still points at the element it pointed at. */
  lemma InsertFollowsElement<T>(s: seq<T>, ins: seq<T>, index: int, cursor: int, canBeDeleted: bool)
    requires 0 <= index <= |s| && 0 <= cursor < |s|
    ensures var n := Shifted(cursor, true, index, |ins|, canBeDeleted);
      var after := s[..index] + ins + s[index..];
      0 <= n < |after| && after[n] == s[cursor]
  {
    var after := s[..index] + ins + s[index..];
    if cursor >= index {
      assert after[cursor + |ins|] == s[index..][cursor - index];
    } else {
      assert after[cursor] == s[..index][cursor];
    }
  }

  /**
   * After `[index, index + length)` is deleted, a reference outside the range still points at
   * its element; one inside it is deleted, or points at what followed the range.
   */
  lemma DeleteFollowsElement<T>(s: seq<T>, index: int, length: int, cursor: int, canBeDeleted: bool)
    requires 0 <= index && 0 <= length && index + length <= |s| && 0 <= cursor < |s|
    ensures var n := Shifted(cursor, false, index, length, canBeDeleted);
      var after := s[..index] + s[index + length..];
      (cursor < index || cursor >= index + length ==> 0 <= n < |after| && after[n] == s[cursor])
      && (index <= cursor < index + length ==> n == (if canBeDeleted then -1 else index))
      && (index <= cursor < index + length && !canBeDeleted && index + length < |s| ==> after[n] == s[index + length])
  {
    var after := s[..index] + s[index + length..];
    if cursor >= index + length {
      assert after[cursor - length] == s[index + length..][cursor - length - index];
    } else if cursor < index {
      assert after[cursor] == s[..index][cursor];
    } else if !canBeDeleted && index + length < |s| {
      assert after[index] == s[index + length..][0];
    }
  }

  /** An event `ReferenceShiftedEvent`: the old and new index, who made the edit, and whether that session is local. */
  datatype ReferenceShifted = ReferenceShifted(oldIndex: int, newIndex: int, sessionId: string, userId: string, isLocal: bool)

  /** `IndexReference`. `shifted` records the events it fired. */
  class IndexReference {
    var snapshot: seq<Json>
    var shifted: seq<ReferenceShifted>
    /** The session id of the document the reference lives in. */
    const documentSession: Option<string>

    /** The snapshot is `[string, number, boolean]`. */
    ghost predicate Valid()
      reads this
    {
      |snapshot| == 3 && snapshot[0].JStr? && snapshot[1].JNum? && snapshot[2].JBool?
    }

    /** `initializeCreate`: the snapshot built from the referenced object's id, the index and the flag. */
    constructor InitializeCreate(referencedId: string, index: int, canBeDeleted: bool, documentSession: Option<string>)
      ensures Valid() && shifted == [] && this.documentSession == documentSession
      ensures ReferencedObject() == referencedId && GetIndex() == index && CanBeDeleted() == canBeDeleted
    {
      snapshot := [JStr(referencedId), JNum(index), JBool(canBeDeleted)];
      shifted := [];
      this.documentSession := documentSession;
    }

    /** `getReferencedObject`, by id. */
    function ReferencedObject(): string
      requires Valid()
      reads this
    {
      snapshot[0].s
    }

    /** `getIndex`. */
    function GetIndex(): int
      requires Valid()
      reads this
    {
      snapshot[1].n
    }

    /** `canBeDeleted`. */
    function CanBeDeleted(): bool
      requires Valid()
      reads this
    {
      snapshot[2].b
    }

    /**
     * `setIndex`: a reference before the edit is left alone and fires nothing; otherwise slot 1
     * of the snapshot takes the shifted index and one event is fired.
     */
    method SetIndex(isInsert: bool, index: int, length: int, sessionId: string, userId: string)
      requires Valid()
      modifies this
      ensures Valid() && GetIndex() == Shifted(old(GetIndex()), isInsert, index, length, CanBeDeleted())
      ensures ReferencedObject() == old(ReferencedObject()) && CanBeDeleted() == old(CanBeDeleted())
      ensures old(GetIndex()) < index ==> snapshot == old(snapshot) && shifted == old(shifted)
      ensures old(GetIndex()) >= index ==>
        snapshot == old(snapshot)[1 := JNum(GetIndex())]
        && shifted == old(shifted) + [ReferenceShifted(old(GetIndex()), GetIndex(), sessionId, userId,
                                                       RealtimeDocuments.IsLocalSession(documentSession, sessionId))]
    {
      var cursor := GetIndex();
      if cursor < index {
        return;
      }
      var newIndex := -2;
      if isInsert {
        newIndex := cursor + length;
      } else {
        if cursor < index + length {
          if CanBeDeleted() {
            newIndex := -1;
          } else {
            newIndex := index;
          }
        } else {
          newIndex := cursor - length;
        }
      }
      var isLocal := RealtimeDocuments.IsLocalSession(documentSession, sessionId);
      snapshot := snapshot[1 := JNum(newIndex)];
      shifted := shifted + [ReferenceShifted(cursor, newIndex, sessionId, userId, isLocal)];
    }
  }
}
