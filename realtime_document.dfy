/**
 * The realtime `Document`: its record of which collaborative objects hold a reference to
 * which (a list of parent ids per child, one entry per reference), its event handlers (a list
 * per object key and event type), and whether a session is the document's own.
 *
 * A value held by a collaborative object is its JSON encoding. How values are encoded is not
 * part of this model beyond what `addOrRemoveParent` reads: a reference is an array whose
 * first element is the reference tag, a number the document is given, and whose second is
 * the referenced object's id.
 */
module RealtimeDocuments {
  import opened Wrappers
  import opened Json
  import ListOps

  /** A value held by a collaborative object, as `addOrRemoveParent` distinguishes it. */
  datatype Child = NullValue | Reference(childId: string) | Plain

  /**
   * How `addOrRemoveParent` reads a value: a Java null or JSON null is null; an array tagged
   * with `referenceType` refers to the object whose id it holds next; anything else is a
   * plain value.
   */
  function ChildOf(value: Option<Json>, referenceType: int): (c: Child)
    ensures c.NullValue? <==> value.None? || value == Some(JNull)
    ensures c.Reference? <==>
      value.Some? && value.value.JArr? && |value.value.items| >= 2
      && value.value.items[0] == JNum(referenceType) && value.value.items[1].JStr?
    ensures c.Reference? ==> value.value.items[1] == JStr(c.childId)
  {
    if value.None? || value.value.JNull? then NullValue
    else if value.value.JArr? && |value.value.items| >= 2 && value.value.items[0] == JNum(referenceType)
            && value.value.items[1].JStr?
    then Reference(value.value.items[1].s)
    else Plain
  }

  /** The object a value refers to, as a bag of at most one id. */
  function RefOf(value: Json, referenceType: int): multiset<string>
  {
    var c := ChildOf(Some(value), referenceType);
    if c.Reference? then multiset{c.childId} else multiset{}
  }

  /** The objects the values of a list refer to, each counted once per reference. */
  function RefBag(s: seq<Json>, referenceType: int): multiset<string>
  {
    if |s| == 0 then multiset{}
    else RefBag(s[..|s| - 1], referenceType) + RefOf(s[|s| - 1], referenceType)
  }

  /** The references of two lists one after the other are those of each. */
  lemma {:induction false} RefBagAppend(a: seq<Json>, b: seq<Json>, referenceType: int)
    ensures RefBag(a + b, referenceType) == RefBag(a, referenceType) + RefBag(b, referenceType)
    decreases |b|
  {
    if |b| > 0 {
      assert (a + b)[..|a + b| - 1] == a + b[..|b| - 1];
      RefBagAppend(a, b[..|b| - 1], referenceType);
    } else {
      assert a + b == a;
    }
  }

  /** The reference a value held by `parentId` makes to `c`, as a bag of at most one parent. */
  function Link(childOrNull: Option<Json>, referenceType: int, parentId: string, c: string): multiset<string>
  {
    if ChildOf(childOrNull, referenceType) == Reference(c) then multiset{parentId} else multiset{}
  }

  /** A value refers to `c` once in a list exactly when it links its holder to `c`. */
  lemma RefOfLink(value: Json, referenceType: int, parentId: string, c: string)
    ensures RefOf(value, referenceType)[c] == Link(Some(value), referenceType, parentId, c)[parentId]
    ensures forall p | p != parentId :: Link(Some(value), referenceType, parentId, c)[p] == 0
  {
  }

  /** A value inserted into a list adds its reference to the list's. */
  lemma RefBagInsert(s: seq<Json>, k: int, v: Json, referenceType: int)
    requires 0 <= k <= |s|
    ensures RefBag(s[..k] + [v] + s[k..], referenceType) == RefBag(s, referenceType) + RefOf(v, referenceType)
  {
    var a, b := s[..k], s[k..];
    assert a + b == s;
    RefBagAppend(a + [v], b, referenceType);
    RefBagAppend(a, [v], referenceType);
    RefBagSingle(v, referenceType);
    RefBagAppend(a, b, referenceType);
    BagSwap(RefBag(a, referenceType), RefOf(v, referenceType), RefBag(b, referenceType));
  }

  /** Adding two bags to a third in either order gives the same bag. */
  lemma BagSwap<T>(x: multiset<T>, y: multiset<T>, z: multiset<T>)
    ensures (x + y) + z == (x + z) + y
  {
  }

  lemma RefBagSingle(v: Json, referenceType: int)
    ensures RefBag([v], referenceType) == RefOf(v, referenceType)
  {
    assert [v][..0] == [];
  }

  /** A value removed from a list takes its reference out of the list's. */
  lemma RefBagRemove(s: seq<Json>, k: int, referenceType: int)
    requires 0 <= k < |s|
    ensures RefBag(s[..k] + s[k + 1..], referenceType) + RefOf(s[k], referenceType) == RefBag(s, referenceType)
  {
    RefBagInsert(s[..k] + s[k + 1..], k, s[k], referenceType);
    assert (s[..k] + s[k + 1..])[..k] + [s[k]] + (s[..k] + s[k + 1..])[k..] == s;
  }

  /** The parents table records `id` as a parent of each object exactly as often as `s` refers to it. */
  ghost predicate Counted(parents: map<string, seq<string>>, referenceType: int, id: string, s: seq<Json>)
  {
    forall c :: ParentBag(parents, c)[id] == RefBag(s, referenceType)[c]
  }

  /** No parent other than `id` gained or lost a recorded reference. */
  ghost predicate OthersKept(before: map<string, seq<string>>, after: map<string, seq<string>>, id: string)
  {
    forall c, p | p != id :: ParentBag(after, c)[p] == ParentBag(before, c)[p]
  }

  /**
   * A value inserted into the list held by `id`, with its reference recorded, keeps the table
   * counting the list, and no other parent's record changes.
   */
  lemma CountedAfterInsert(before: map<string, seq<string>>, after: map<string, seq<string>>, referenceType: int,
                           id: string, s: seq<Json>, k: int, v: Json)
    requires Counted(before, referenceType, id, s) && 0 <= k <= |s|
    requires forall c :: ParentBag(after, c) == ParentBag(before, c) + Link(Some(v), referenceType, id, c)
    ensures Counted(after, referenceType, id, s[..k] + [v] + s[k..])
    ensures OthersKept(before, after, id)
  {
    RefBagInsert(s, k, v, referenceType);
    forall c
      ensures ParentBag(after, c)[id] == RefBag(s[..k] + [v] + s[k..], referenceType)[c]
    {
      RefOfLink(v, referenceType, id, c);
    }
    forall c, p | p != id
      ensures ParentBag(after, c)[p] == ParentBag(before, c)[p]
    {
      RefOfLink(v, referenceType, id, c);
    }
  }

  /**
   * A value removed from the list held by `id`, with its reference taken out of the table,
   * keeps the table counting the list, and no other parent's record changes.
   */
  lemma CountedAfterRemove(before: map<string, seq<string>>, after: map<string, seq<string>>, referenceType: int,
                           id: string, s: seq<Json>, k: int)
    requires Counted(before, referenceType, id, s) && 0 <= k < |s|
    requires forall c :: ParentBag(after, c) == ParentBag(before, c) - Link(Some(s[k]), referenceType, id, c)
    ensures Counted(after, referenceType, id, s[..k] + s[k + 1..])
    ensures OthersKept(before, after, id)
  {
    RefBagRemove(s, k, referenceType);
    forall c
      ensures ParentBag(after, c)[id] == RefBag(s[..k] + s[k + 1..], referenceType)[c]
    {
      RefOfLink(s[k], referenceType, id, c);
    }
    forall c, p | p != id
      ensures ParentBag(after, c)[p] == ParentBag(before, c)[p]
    {
      RefOfLink(s[k], referenceType, id, c);
    }
  }

  /** A reference held in a counted list is recorded: removing it cannot trip the assertion. */
  lemma CountedRecorded(parents: map<string, seq<string>>, referenceType: int, id: string, s: seq<Json>, k: int)
    requires Counted(parents, referenceType, id, s) && 0 <= k < |s|
    ensures ChildOf(Some(s[k]), referenceType).Reference? ==>
      id in ParentBag(parents, ChildOf(Some(s[k]), referenceType).childId)
  {
    RefBagRemove(s, k, referenceType);
  }

  /** An event of a list edit: the edit, who made it, and whether that session is local. */
  datatype EditEvent<T> = EditEvent(edit: ListOps.Edit<T>, sessionId: string, userId: string, isLocal: bool)

  /** The events fired for a run of edits made by one session. */
  function Stamped<T>(edits: seq<ListOps.Edit<T>>, sessionId: string, userId: string, isLocal: bool): seq<EditEvent<T>>
  {
    seq(|edits|, i requires 0 <= i < |edits| => EditEvent(edits[i], sessionId, userId, isLocal))
  }

  /** Stamping two runs of edits one after the other. */
  lemma StampedAppend<T>(a: seq<ListOps.Edit<T>>, b: seq<ListOps.Edit<T>>, sessionId: string, userId: string, isLocal: bool)
    ensures Stamped(a + b, sessionId, userId, isLocal)
         == Stamped(a, sessionId, userId, isLocal) + Stamped(b, sessionId, userId, isLocal)
  {
    var l := Stamped(a + b, sessionId, userId, isLocal);
    var r := Stamped(a, sessionId, userId, isLocal) + Stamped(b, sessionId, userId, isLocal);
    forall k | 0 <= k < |l|
      ensures l[k] == r[k]
    {
      if k >= |a| {
        assert (a + b)[k] == b[k - |a|];
      }
    }
  }

  /** `list.remove(x)`: the first occurrence of `x` taken out. */
  function RemoveFirst<T(==)>(s: seq<T>, x: T): (r: seq<T>)
    ensures x in s ==> multiset(r) == multiset(s) - multiset{x} && |r| == |s| - 1
    ensures x !in s ==> r == s
  {
    if |s| == 0 then []
    else if s[0] == x then
      assert s == [s[0]] + s[1..];
      s[1..]
    else
      assert s == [s[0]] + s[1..];
      [s[0]] + RemoveFirst(s[1..], x)
  }

  /** No element occurs twice. */
  ghost predicate Distinct<T>(s: seq<T>)
  {
    forall i, j | 0 <= i < j < |s| :: s[i] != s[j]
  }

  /** Taking an element out of a list without repeats leaves a list without repeats and without it. */
  lemma {:induction false} RemoveFirstDistinct<T>(s: seq<T>, x: T)
    requires Distinct(s)
    ensures Distinct(RemoveFirst(s, x)) && x !in RemoveFirst(s, x)
    ensures forall y | y != x :: y in RemoveFirst(s, x) <==> y in s
  {
    if |s| > 0 && s[0] != x {
      assert Distinct(s[1..]) by {
        forall i, j | 0 <= i < j < |s[1..]|
          ensures s[1..][i] != s[1..][j]
        {
          assert s[1..][i] == s[i + 1] && s[1..][j] == s[j + 1];
        }
      }
      RemoveFirstDistinct(s[1..], x);
      var rest := RemoveFirst(s[1..], x);
      assert s[0] !in rest;
      var r := [s[0]] + rest;
      forall i, j | 0 <= i < j < |r|
        ensures r[i] != r[j]
      {
        if i > 0 {
          assert r[i] == rest[i - 1] && r[j] == rest[j - 1];
        } else {
          assert r[j] == rest[j - 1];
        }
      }
    } else if |s| > 0 {
      assert s[0] == x;
      forall i, j | 0 <= i < j < |s[1..]|
        ensures s[1..][i] != s[1..][j]
      {
        assert s[1..][i] == s[i + 1] && s[1..][j] == s[j + 1];
      }
      assert x !in s[1..];
    }
  }

  /** `isLocalSession`: a document with no session id of its own takes every session as local. */
  function IsLocalSession(own: Option<string>, sessionId: string): (b: bool)
    ensures b <==> own.None? || own.value == sessionId
  {
    own.None? || own.value == sessionId
  }

  /** The parents recorded for a child, counted with repeats. */
  function ParentBag(parents: map<string, seq<string>>, childId: string): multiset<string>
  {
    if childId in parents then multiset(parents[childId]) else multiset{}
  }

  /**
   * The parents table after one reference from `parentId` to `childId` is added or removed: an
   * added one is appended to the child's list, created if needed; a removed one must be
   * recorded, loses one occurrence, and an emptied list is dropped.
   */
  function Relinked(parents: map<string, seq<string>>, childId: string, parentId: string, isAdd: bool)
    : Option<map<string, seq<string>>>
  {
    if isAdd then
      Some(parents[childId := (if childId in parents then parents[childId] else []) + [parentId]])
    else if !(childId in parents && parentId in parents[childId]) then None
    else
      var list := RemoveFirst(parents[childId], parentId);
      Some(if |list| == 0 then parents - {childId} else parents[childId := list])
  }

  /**
   * Relinking changes the child's bag of parents by exactly one occurrence of the parent and
   * no other child's bag, keeps every other child's list, and keeps every list non-empty. It
   * fails exactly when a removed parent is not recorded.
   */
  lemma RelinkedBags(parents: map<string, seq<string>>, childId: string, parentId: string, isAdd: bool)
    requires forall c | c in parents :: |parents[c]| > 0
    ensures Relinked(parents, childId, parentId, isAdd).None? <==> !isAdd && parentId !in ParentBag(parents, childId)
    ensures var next := Relinked(parents, childId, parentId, isAdd);
      next.Some? ==>
        (forall c | c in next.value :: |next.value[c]| > 0)
        && (forall c | c != childId :: (c in next.value <==> c in parents) && (c in next.value ==> next.value[c] == parents[c]))
    ensures var next := Relinked(parents, childId, parentId, isAdd);
      next.Some? ==>
        forall c :: ParentBag(next.value, c) ==
          (if c != childId then ParentBag(parents, c)
           else if isAdd then ParentBag(parents, c) + multiset{parentId}
           else ParentBag(parents, c) - multiset{parentId})
  {
    if isAdd {
      RelinkedAdds(parents, childId, parentId);
    } else {
      RelinkedRemoves(parents, childId, parentId);
    }
  }

  lemma RelinkedAdds(parents: map<string, seq<string>>, childId: string, parentId: string)
    requires forall c | c in parents :: |parents[c]| > 0
    ensures var next := Relinked(parents, childId, parentId, true).value;
      (forall c | c in next :: |next[c]| > 0)
      && (forall c | c != childId :: (c in next <==> c in parents) && (c in next ==> next[c] == parents[c]))
      && (forall c :: ParentBag(next, c) == if c != childId then ParentBag(parents, c) else ParentBag(parents, c) + multiset{parentId})
  {
    var list := if childId in parents then parents[childId] else [];
    assert multiset(list + [parentId]) == multiset(list) + multiset{parentId};
  }

  lemma RelinkedRemoves(parents: map<string, seq<string>>, childId: string, parentId: string)
    requires forall c | c in parents :: |parents[c]| > 0
    ensures Relinked(parents, childId, parentId, false).None? <==> parentId !in ParentBag(parents, childId)
    ensures var next := Relinked(parents, childId, parentId, false);
      next.Some? ==>
        (forall c | c in next.value :: |next.value[c]| > 0)
        && (forall c | c != childId :: (c in next.value <==> c in parents) && (c in next.value ==> next.value[c] == parents[c]))
        && (forall c :: ParentBag(next.value, c) == if c != childId then ParentBag(parents, c) else ParentBag(parents, c) - multiset{parentId})
  {
    if childId in parents && parentId in parents[childId] {
      var list := RemoveFirst(parents[childId], parentId);
      if |list| == 0 {
        assert multiset(list) == multiset{};
      }
    }
  }

  /** The handlers table, absent until the first handler is added. */
  type Handlers<H> = Option<map<string, map<string, seq<H>>>>

  /** The handlers registered for an object key and an event type. */
  function HandlersAt<H>(handlers: Handlers<H>, key: string, eventType: string): seq<H>
  {
    if handlers.Some? && key in handlers.value && eventType in handlers.value[key]
    then handlers.value[key][eventType] else []
  }

  /** The table after `getEventHandlers(key, type, true)` and the list stored there replaced by `list`. */
  function PutHandlers<H>(handlers: Handlers<H>, key: string, eventType: string, list: seq<H>): Handlers<H>
  {
    var table := if handlers.Some? then handlers.value else map[];
    var perKey := if key in table then table[key] else map[];
    Some(table[key := perKey[eventType := list]])
  }

  /** Storing a list for one key and type changes what is registered there and nowhere else. */
  lemma PutHandlersAt<H>(handlers: Handlers<H>, key: string, eventType: string, list: seq<H>)
    ensures HandlersAt(PutHandlers(handlers, key, eventType, list), key, eventType) == list
    ensures forall k, t | k != key || t != eventType ::
      HandlersAt(PutHandlers(handlers, key, eventType, list), k, t) == HandlersAt(handlers, k, t)
  {
  }

  /** `Document`. */
  class Document<H(==)> {
    var sessionId: Option<string>
    var handlers: Handlers<H>
    var parents: map<string, seq<string>>
    /** The number that tags an encoded reference. */
    const referenceType: int

    /** No child keeps an empty list of parents, and no handler is registered twice for one key and type. */
    ghost predicate Valid()
      reads this
    {
      (forall c | c in parents :: |parents[c]| > 0)
      && (forall key, t :: Distinct(HandlersAt(handlers, key, t)))
    }

    constructor (sessionId: Option<string>, referenceType: int)
      ensures Valid() && this.sessionId == sessionId && handlers == None && parents == map[]
      ensures this.referenceType == referenceType
    {
      this.sessionId := sessionId;
      this.referenceType := referenceType;
      handlers := None;
      parents := map[];
    }

    /** `isLocalSession`. */
    function IsLocal(sid: string): (b: bool)
      reads this
      ensures b <==> sessionId.None? || sessionId == Some(sid)
    {
      IsLocalSession(sessionId, sid)
    }

    /**
     * `addOrRemoveParent`: nulls and values that are not references are ignored. Adding
     * records one more reference from the parent to the child; removing asserts the parent is
     * recorded, takes one occurrence out, and drops the child's entry once no parent is left.
     */
    method AddOrRemoveParent(childOrNull: Option<Json>, parentId: string, isAdd: bool) returns (r: Outcome)
      requires Valid()
      modifies this
      ensures Valid() && handlers == old(handlers) && sessionId == old(sessionId)
      ensures isAdd ==> r == Pass
      ensures var child := ChildOf(childOrNull, referenceType);
        !child.Reference? ==> r == Pass && parents == old(parents)
      ensures var child := ChildOf(childOrNull, referenceType);
        r.Fail? <==> child.Reference? && !isAdd && parentId !in ParentBag(old(parents), child.childId)
      ensures r.Fail? ==> r.error == AssertionFailed && parents == old(parents)
      ensures r.Pass? ==> forall c ::
        ParentBag(parents, c) == if isAdd then ParentBag(old(parents), c) + Link(childOrNull, referenceType, parentId, c)
                                 else ParentBag(old(parents), c) - Link(childOrNull, referenceType, parentId, c)
      ensures var child := ChildOf(childOrNull, referenceType);
        child.Reference? ==>
          forall c | c != child.childId ::
            (c in parents <==> c in old(parents)) && (c in parents ==> parents[c] == old(parents)[c])
    {
      var child := ChildOf(childOrNull, referenceType);
      if !child.Reference? {
        return Pass;
      }
      var next := Relinked(parents, child.childId, parentId, isAdd);
      if next.None? {
        return Fail(AssertionFailed);
      }
      RelinkedBags(parents, child.childId, parentId, isAdd);
      forall c
        ensures ParentBag(next.value, c) == if isAdd then ParentBag(parents, c) + Link(childOrNull, referenceType, parentId, c)
                                            else ParentBag(parents, c) - Link(childOrNull, referenceType, parentId, c)
      {
        if c != child.childId {
          assert Link(childOrNull, referenceType, parentId, c) == multiset{};
        }
      }
      parents := next.value;
      return Pass;
    }

    /** `getParents`: the distinct parents of an object, or none when it has no entry. */
    function GetParents(objectId: string): (r: Option<set<string>>)
      requires Valid()
      reads this
      ensures r.None? <==> objectId !in parents
      ensures r.Some? ==> |r.value| > 0 && forall p :: p in r.value <==> p in parents[objectId]
    {
      if objectId !in parents then None
      else
        var ps := set p | p in parents[objectId];
        assert {parents[objectId][0]} <= ps;
        Some(ps)
    }

    /**
     * `addEventListener(key, type, handler)`: a null argument is a null pointer; a handler
     * already registered for the key and type is not added again; otherwise it is appended.
     */
    method AddEventListener(key: Option<string>, eventType: Option<string>, handler: Option<H>) returns (r: Outcome)
      requires Valid()
      modifies this
      ensures Valid() && parents == old(parents) && sessionId == old(sessionId)
      ensures key.None? || eventType.None? || handler.None? ==> r == Fail(NullPointer) && handlers == old(handlers)
      ensures key.Some? && eventType.Some? && handler.Some? ==>
        r == Pass && handler.value in HandlersAt(handlers, key.value, eventType.value)
        && (handler.value in HandlersAt(old(handlers), key.value, eventType.value) ==>
              HandlersAt(handlers, key.value, eventType.value) == HandlersAt(old(handlers), key.value, eventType.value))
        && (handler.value !in HandlersAt(old(handlers), key.value, eventType.value) ==>
              HandlersAt(handlers, key.value, eventType.value) == HandlersAt(old(handlers), key.value, eventType.value) + [handler.value])
        && forall k, t | k != key.value || t != eventType.value :: HandlersAt(handlers, k, t) == HandlersAt(old(handlers), k, t)
    {
      if key.None? || eventType.None? || handler.None? {
        return Fail(NullPointer);
      }
      var k, t, h := key.value, eventType.value, handler.value;
      var perType := HandlersAt(handlers, k, t);
      if h !in perType {
        perType := perType + [h];
        assert Distinct(perType) by {
          assert Distinct(HandlersAt(handlers, k, t));
        }
      }
      PutHandlersAt(handlers, k, t, perType);
      handlers := PutHandlers(handlers, k, t, perType);
      return Pass;
    }

    /**
     * `removeEventListener(key, type, handler)`: the handler is taken out of its list. The
     * clean-up that follows removes entries keyed by the emptied list and by the emptied
     * per-key map, which are never keys of those maps, so the containers stay in place.
     */
    method RemoveEventListener(key: string, eventType: string, handler: Option<H>)
      requires Valid()
      modifies this
      ensures Valid() && parents == old(parents) && sessionId == old(sessionId)
      ensures old(handlers).None? || handler.None? ==> handlers == old(handlers)
      ensures handler.Some? ==> handler.value !in HandlersAt(handlers, key, eventType)
      ensures handler.Some? ==> forall y | y != handler.value ::
        y in HandlersAt(handlers, key, eventType) <==> y in HandlersAt(old(handlers), key, eventType)
      ensures forall k, t | k != key || t != eventType :: HandlersAt(handlers, k, t) == HandlersAt(old(handlers), k, t)
      ensures old(handlers).Some? ==> handlers.Some? && handlers.value.Keys == old(handlers).value.Keys
    {
      if handlers.None? || handler.None? {
        return;
      }
      var table := handlers.value;
      if key !in table {
        return;
      }
      var perKey := table[key];
      if eventType !in perKey {
        return;
      }
      assert Distinct(HandlersAt(handlers, key, eventType));
      RemoveFirstDistinct(perKey[eventType], handler.value);
      var perType := RemoveFirst(perKey[eventType], handler.value);
      PutHandlersAt(handlers, key, eventType, perType);
      handlers := PutHandlers(handlers, key, eventType, perType);
    }
  }
}
