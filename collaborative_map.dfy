/**
 * The realtime `CollaborativeMap`: a mutable map from string keys to encoded values whose
 * local edits become map ops. An op is consumed key by key: a null new value removes the key,
 * any other puts it, and each change records in the document the references the old and new
 * values make to other collaborative objects, then fires one value-changed event.
 *
 * The map's invariant is the list's: the document's parents table records this map as a
 * parent of each object exactly as often as the map's values refer to it. Because a map has no
 * order, the references are counted as the keys whose values refer to each object.
 *
 * Values are held in their encoded form; decoding a value into a collaborative object or a
 * Java value (`JsonSerializer.jsonToObj`) is not part of this model, so `get` returns the
 * encoding. `CollaborativeObject` is not part of this model either: the session and user of
 * an edit are parameters, and the queued ops are the field `submitted`.
 */
module CollaborativeMaps {
  import opened Wrappers
  import opened Json
  import MapOps
  import Documents
  import opened RealtimeDocuments

  /** A value-changed event: the key, its new and old values (None for absent), who changed it, and whether that session is local. */
  datatype ValueChanged = ValueChanged(key: string, newValue: Option<Json>, oldValue: Option<Json>,
                                       sessionId: string, userId: string, isLocal: bool)

  /** The event the change of key `k` by `op` fires on the map `obj`. */
  function Changed(obj: map<string, Json>, op: MapOps.Components, k: string,
                   sessionId: string, userId: string, isLocal: bool): ValueChanged
    requires k in op
  {
    ValueChanged(k, op[k].newValue, MapOps.Lookup(obj, k), sessionId, userId, isLocal)
  }

  /** The events `op` fires on the map `start` when its keys are met in `order`: one per key, in that order. */
  function Events(start: map<string, Json>, op: MapOps.Components, order: seq<string>,
                  sessionId: string, userId: string, isLocal: bool): (r: seq<ValueChanged>)
    requires forall k | k in order :: k in op
    ensures |r| == |order|
  {
    if order == [] then []
    else
      var n := |order| - 1;
      assert forall k | k in order[..n] :: k in order;
      Events(start, op, order[..n], sessionId, userId, isLocal) + [Changed(start, op, order[n], sessionId, userId, isLocal)]
  }

  /** `order` lists each key of `keys` exactly once. */
  ghost predicate Enumerates(order: seq<string>, keys: set<string>)
  {
    Distinct(order) && forall k :: k in order <==> k in keys
  }

  /** Meeting one more key extends the order and its events by that key. */
  lemma EnumeratesStep(order: seq<string>, done: set<string>, k: string)
    requires Enumerates(order, done) && k !in done
    ensures Enumerates(order + [k], done + {k})
  {
  }

  /** The events fired so far, followed by the next key's, are the events of the longer order. */
  lemma EventsStep(fired0: seq<ValueChanged>, before: seq<ValueChanged>, after: seq<ValueChanged>,
                   start: map<string, Json>, op: MapOps.Components, order: seq<string>, k: string,
                   sessionId: string, userId: string, isLocal: bool)
    requires forall x | x in order :: x in op
    requires k in op
    requires before == fired0 + Events(start, op, order, sessionId, userId, isLocal)
    requires after == before + [Changed(start, op, k, sessionId, userId, isLocal)]
    ensures after == fired0 + Events(start, op, order + [k], sessionId, userId, isLocal)
  {
    assert (order + [k])[..|order|] == order;
    var e := Events(start, op, order, sessionId, userId, isLocal);
    assert (fired0 + e) + [Changed(start, op, k, sessionId, userId, isLocal)]
        == fired0 + (e + [Changed(start, op, k, sessionId, userId, isLocal)]);
  }

  /** The first two elements of a list, where it has them, are members of it. */
  lemma FirstTwoIn<T>(s: seq<T>)
    ensures |s| > 0 ==> s[0] in s
    ensures |s| > 1 ==> s[1] in s
  {
  }

  /** The only order of a single key is that key. */
  lemma EnumeratesSingle(order: seq<string>, k: string)
    requires Enumerates(order, {k})
    ensures order == [k]
  {
    assert k in order;
    FirstTwoIn(order);
  }

  /** The only order of no keys is empty. */
  lemma EnumeratesNone(order: seq<string>)
    requires Enumerates(order, {})
    ensures order == []
  {
    FirstTwoIn(order);
  }

  /** The keys of `m` whose values refer to the object `c`. */
  function RefKeys(m: map<string, Json>, referenceType: int, c: string): set<string>
  {
    set k | k in m && ChildOf(Some(m[k]), referenceType) == Reference(c)
  }

  /** The parents table records `id` as a parent of each object exactly as often as the values of `m` refer to it. */
  ghost predicate MapCounted(parents: map<string, seq<string>>, referenceType: int, id: string, m: map<string, Json>)
  {
    forall c :: ParentBag(parents, c)[id] == |RefKeys(m, referenceType, c)|
  }

  /**
   * A key removed from the map held by `id`, with its value's reference taken out of the
   * table, keeps the table counting the map, and no other parent's record changes.
   */
  lemma MapCountedAfterRemove(before: map<string, seq<string>>, after: map<string, seq<string>>, referenceType: int,
                              id: string, m: map<string, Json>, k: string)
    requires MapCounted(before, referenceType, id, m) && k in m
    requires forall c :: ParentBag(after, c) == ParentBag(before, c) - Link(Some(m[k]), referenceType, id, c)
    ensures MapCounted(after, referenceType, id, m - {k})
    ensures OthersKept(before, after, id)
  {
    forall c
      ensures ParentBag(after, c)[id] == |RefKeys(m - {k}, referenceType, c)|
    {
      RefKeysTake(m, k, referenceType, id, c);
    }
    forall c, p | p != id
      ensures ParentBag(after, c)[p] == ParentBag(before, c)[p]
    {
      RefOfLink(m[k], referenceType, id, c);
    }
  }

  /**
   * A key added to the map held by `id`, with its value's reference recorded, keeps the table
   * counting the map, and no other parent's record changes.
   */
  lemma MapCountedAfterAdd(before: map<string, seq<string>>, after: map<string, seq<string>>, referenceType: int,
                           id: string, m: map<string, Json>, k: string, v: Json)
    requires MapCounted(before, referenceType, id, m) && k !in m
    requires forall c :: ParentBag(after, c) == ParentBag(before, c) + Link(Some(v), referenceType, id, c)
    ensures MapCounted(after, referenceType, id, m[k := v])
    ensures OthersKept(before, after, id)
  {
    forall c
      ensures ParentBag(after, c)[id] == |RefKeys(m[k := v], referenceType, c)|
    {
      RefKeysPut(m, k, v, referenceType, id, c);
    }
    forall c, p | p != id
      ensures ParentBag(after, c)[p] == ParentBag(before, c)[p]
    {
      RefOfLink(v, referenceType, id, c);
    }
  }

  /** A key taken out of the map leaves the keys referring to its value's object, and no others. */
  lemma RefKeysTake(m: map<string, Json>, k: string, referenceType: int, id: string, c: string)
    requires k in m
    ensures |RefKeys(m - {k}, referenceType, c)| + Link(Some(m[k]), referenceType, id, c)[id] == |RefKeys(m, referenceType, c)|
  {
    if ChildOf(Some(m[k]), referenceType) == Reference(c) {
      assert RefKeys(m, referenceType, c) == RefKeys(m - {k}, referenceType, c) + {k};
    } else {
      assert RefKeys(m - {k}, referenceType, c) == RefKeys(m, referenceType, c);
    }
  }

  /** A value put at a new key adds that key to the keys referring to its object, and to no others. */
  lemma RefKeysPut(m: map<string, Json>, k: string, v: Json, referenceType: int, id: string, c: string)
    requires k !in m
    ensures |RefKeys(m[k := v], referenceType, c)| == |RefKeys(m, referenceType, c)| + Link(Some(v), referenceType, id, c)[id]
  {
    if ChildOf(Some(v), referenceType) == Reference(c) {
      assert RefKeys(m[k := v], referenceType, c) == RefKeys(m, referenceType, c) + {k};
    } else {
      assert RefKeys(m[k := v], referenceType, c) == RefKeys(m, referenceType, c);
    }
  }

  /** A reference held in a counted map is recorded: removing it cannot trip the assertion. */
  lemma MapCountedRecorded(parents: map<string, seq<string>>, referenceType: int, id: string, m: map<string, Json>, k: string)
    requires MapCounted(parents, referenceType, id, m) && k in m
    ensures ChildOf(Some(m[k]), referenceType).Reference? ==>
      id in ParentBag(parents, ChildOf(Some(m[k]), referenceType).childId)
  {
    var child := ChildOf(Some(m[k]), referenceType);
    if child.Reference? {
      assert k in RefKeys(m, referenceType, child.childId);
    }
  }

  /** `addOrRemoveParent(oldValue, id, false)` for the value of a key leaving the map `m` held by `id`. */
  method RemoveMapParent<H(==)>(doc: Document<H>, id: string, m: map<string, Json>, k: string)
    requires doc.Valid() && MapCounted(doc.parents, doc.referenceType, id, m) && k in m
    modifies doc
    ensures doc.Valid() && MapCounted(doc.parents, doc.referenceType, id, m - {k})
    ensures doc.handlers == old(doc.handlers) && doc.sessionId == old(doc.sessionId)
    ensures OthersKept(old(doc.parents), doc.parents, id)
  {
    MapCountedRecorded(doc.parents, doc.referenceType, id, m, k);
    var o := doc.AddOrRemoveParent(Some(m[k]), id, false);
    MapCountedAfterRemove(old(doc.parents), doc.parents, doc.referenceType, id, m, k);
  }

  /** `addOrRemoveParent(newValue, id, true)` for a value joining the map `m` held by `id` at a new key. */
  method AddMapParent<H(==)>(doc: Document<H>, id: string, m: map<string, Json>, k: string, v: Json)
    requires doc.Valid() && MapCounted(doc.parents, doc.referenceType, id, m) && k !in m
    modifies doc
    ensures doc.Valid() && MapCounted(doc.parents, doc.referenceType, id, m[k := v])
    ensures doc.handlers == old(doc.handlers) && doc.sessionId == old(doc.sessionId)
    ensures OthersKept(old(doc.parents), doc.parents, id)
  {
    var o := doc.AddOrRemoveParent(Some(v), id, true);
    MapCountedAfterAdd(old(doc.parents), doc.parents, doc.referenceType, id, m, k, v);
  }

  /**
   * `initialize`'s loop: the reference of each value of `values` recorded with `id` as its
   * parent, one key at a time. A holder with no recorded references then has exactly the map's.
   */
  method AddMapParents<H(==)>(doc: Document<H>, id: string, values: map<string, Json>)
    requires doc.Valid() && forall c :: ParentBag(doc.parents, c)[id] == 0
    modifies doc
    ensures doc.Valid() && MapCounted(doc.parents, doc.referenceType, id, values)
    ensures doc.handlers == old(doc.handlers) && doc.sessionId == old(doc.sessionId)
    ensures OthersKept(old(doc.parents), doc.parents, id)
  {
    var keys := values.Keys;
    var added: map<string, Json> := map[];
    assert forall c :: RefKeys(added, doc.referenceType, c) == {};
    while keys != {}
      invariant keys <= values.Keys && added.Keys == values.Keys - keys
      invariant forall k | k in added :: added[k] == values[k]
      invariant doc.Valid() && MapCounted(doc.parents, doc.referenceType, id, added)
      invariant doc.handlers == old(doc.handlers) && doc.sessionId == old(doc.sessionId)
      invariant OthersKept(old(doc.parents), doc.parents, id)
      decreases keys
    {
      var k :| k in keys;
      AddMapParent(doc, id, added, k, values[k]);
      added := added[k := values[k]];
      keys := keys - {k};
    }
    assert added == values;
  }

  /**
   * An argument of `initializeCreate`: the string it is when it stands as a key (None when it
   * is not a `String`), and its encoding when it stands as a value (None when it encodes to
   * null).
   */
  datatype Arg = Arg(asKey: Option<string>, encoded: Option<Json>)

  /** The key/value pairs of `args` put into a map front to back; a key that is not a string fails the assertion. */
  function PutPairs(args: seq<Arg>): (r: Result<map<string, Json>>)
    requires |args| % 2 == 0
    ensures r.Err? <==> exists i | 0 <= i < |args| && i % 2 == 0 :: args[i].asKey.None?
    ensures r.Err? ==> r.error == AssertionFailed
    ensures r.Ok? ==> forall k :: k in r.value <==>
      exists i | 0 <= i < |args| - 1 && i % 2 == 0 :: args[i].asKey == Some(k) && args[i + 1].encoded.Some?
    decreases |args|
  {
    if |args| == 0 then Ok(map[])
    else
      var n := |args| - 2;
      var front := args[..n];
      assert forall i | 0 <= i < n :: front[i] == args[i];
      var earlier := PutPairs(front);
      if earlier.Err? then Err(earlier.error)
      else if args[n].asKey.None? then Err(AssertionFailed)
      else if args[n + 1].encoded.None? then Ok(earlier.value)
      else Ok(earlier.value[args[n].asKey.value := args[n + 1].encoded.value])
  }

  /**
   * The snapshot `initializeCreate` builds: empty for no arguments, an argument error for an
   * odd number of them, and otherwise the pairs put in order, skipping null-encoded values.
   */
  function InitialSnapshot(initialValue: Option<seq<Arg>>): (r: Result<map<string, Json>>)
    ensures initialValue.None? ==> r == Ok(map[])
    ensures initialValue.Some? && |initialValue.value| % 2 != 0 ==> r == Err(IllegalArgument)
    ensures initialValue.Some? && |initialValue.value| % 2 == 0 ==> r == PutPairs(initialValue.value)
  {
    if initialValue.None? then Ok(map[])
    else if |initialValue.value| % 2 != 0 then Err(IllegalArgument)
    else PutPairs(initialValue.value)
  }

  /** A later pair with a non-null value overwrites any earlier value of its key. */
  lemma LastPairWins(args: seq<Arg>, k: string, v: Json)
    requires |args| >= 2 && |args| % 2 == 0 && PutPairs(args).Ok?
    requires args[|args| - 2].asKey == Some(k) && args[|args| - 1].encoded == Some(v)
    ensures k in PutPairs(args).value && PutPairs(args).value[k] == v
  {
  }

  /** The loop of `initializeCreate` over the pairs: the pairs put in order, or the assertion on a non-string key. */
  method PairsSnapshot(args: seq<Arg>) returns (r: Result<map<string, Json>>)
    requires |args| % 2 == 0
    ensures r == PutPairs(args)
  {
    var snapshot: map<string, Json> := map[];
    var i := 0;
    while i < |args|
      invariant 0 <= i <= |args| && i % 2 == 0
      invariant PutPairs(args[..i]) == Ok(snapshot)
      decreases |args| - i
    {
      assert i + 2 <= |args|;
      assert args[..i + 2][..i] == args[..i];
      if args[i].asKey.None? {
        assert PutPairs(args[..i + 2]).Err?;
        assert args[i].asKey.None? && i % 2 == 0;
        return Err(AssertionFailed);
      }
      var value := args[i + 1].encoded;
      if value.Some? {
        snapshot := snapshot[args[i].asKey.value := value.value];
      }
      i := i + 2;
    }
    assert args[..i] == args;
    return Ok(snapshot);
  }

  /**
   * `initializeCreate` then `initialize`: an odd number of arguments is an argument error and
   * a key that is not a string fails an assertion; otherwise the map holds the pairs, later
   * ones overwriting earlier ones and null-encoded values skipped, and each value's reference
   * is recorded with the new map as its parent.
   */
  method InitializeCreate<H(==)>(id: string, initialValue: Option<seq<Arg>>, doc: Document<H>)
    returns (r: Result<CollaborativeMap<H>>)
    requires doc.Valid() && forall c :: ParentBag(doc.parents, c)[id] == 0
    modifies doc
    ensures r.Err? <==> InitialSnapshot(initialValue).Err?
    ensures r.Err? ==> r.error == InitialSnapshot(initialValue).error && doc.parents == old(doc.parents)
    ensures r.Ok? ==>
      fresh(r.value) && r.value.id == id && r.value.doc == doc && r.value.Valid()
      && r.value.snapshot == InitialSnapshot(initialValue).value
      && r.value.fired == [] && r.value.submitted == []
    ensures doc.handlers == old(doc.handlers) && doc.sessionId == old(doc.sessionId)
    ensures OthersKept(old(doc.parents), doc.parents, id)
  {
    var snapshot: map<string, Json> := map[];
    if initialValue.Some? {
      var args := initialValue.value;
      if |args| % 2 != 0 {
        return Err(IllegalArgument);
      }
      var pairs := PairsSnapshot(args);
      if pairs.Err? {
        return Err(pairs.error);
      }
      snapshot := pairs.value;
    }
    var created := new CollaborativeMap.Initialize(id, snapshot, doc);
    return Ok(created);
  }

  /** `CollaborativeMap`, living in the document `doc`. */
  class CollaborativeMap<H(==)> {
    var snapshot: map<string, Json>
    /** The events fired, oldest first. */
    var fired: seq<ValueChanged>
    /** The ops handed on for submission, oldest first. */
    var submitted: seq<MapOps.Components>
    const id: string
    const doc: Document<H>

    /** The document is valid and counts this map's references exactly. */
    ghost predicate Valid()
      reads this, doc
    {
      doc.Valid() && MapCounted(doc.parents, doc.referenceType, id, snapshot)
    }

    /** The document's handlers and session are as they were, and no other parent's record changed. */
    twostate predicate DocKept()
      reads this, doc
    {
      doc.handlers == old(doc.handlers) && doc.sessionId == old(doc.sessionId)
      && OthersKept(old(doc.parents), doc.parents, id)
    }

    /** `initialize`: the map takes the snapshot, and each value's reference is recorded with this map as its parent. */
    constructor Initialize(id: string, snapshot: map<string, Json>, doc: Document<H>)
      requires doc.Valid() && forall c :: ParentBag(doc.parents, c)[id] == 0
      modifies doc
      ensures this.id == id && this.doc == doc && Valid()
      ensures this.snapshot == snapshot && fired == [] && submitted == []
      ensures doc.handlers == old(doc.handlers) && doc.sessionId == old(doc.sessionId)
      ensures OthersKept(old(doc.parents), doc.parents, id)
    {
      this.id := id;
      this.doc := doc;
      this.snapshot := snapshot;
      fired := [];
      submitted := [];
      new;
      AddMapParents(doc, id, snapshot);
    }

    /** `checkKey`: a null key is an argument error. */
    static function CheckKey(key: Option<string>): (r: Outcome)
      ensures r.Pass? <==> key.Some?
      ensures r.Fail? ==> r.error == IllegalArgument
    {
      if key.None? then Fail(IllegalArgument) else Pass
    }

    /** `has`: whether the key is mapped; a null key is an argument error. */
    function Has(key: Option<string>): (r: Result<bool>)
      reads this
      ensures r.Err? <==> key.None?
      ensures r.Err? ==> r.error == IllegalArgument
      ensures r.Ok? ==> (r.value <==> key.value in snapshot)
    {
      var checked := CheckKey(key);
      if checked.Fail? then Err(checked.error) else Ok(key.value in snapshot)
    }

    /** `get`: the (encoded) value mapped to the key, or none; a null key is an argument error. */
    function Get(key: Option<string>): (r: Result<Option<Json>>)
      reads this
      ensures r.Err? <==> key.None?
      ensures r.Err? ==> r.error == IllegalArgument
      ensures r.Ok? ==> (r.value.Some? <==> key.value in snapshot)
      ensures r.Ok? && r.value.Some? ==> r.value.value == snapshot[key.value]
    {
      var checked := CheckKey(key);
      if checked.Fail? then Err(checked.error) else Ok(MapOps.Lookup(snapshot, key.value))
    }

    /** `size`: the number of keys. */
    function Size(): (n: nat)
      reads this
      ensures n == |snapshot.Keys|
      ensures n == 0 <==> snapshot == map[]
    {
      |snapshot|
    }

    /** `isEmpty`: the size is zero, which is to say no key is mapped. */
    function IsEmpty(): (b: bool)
      reads this
      ensures b <==> Size() == 0
      ensures b <==> forall k :: k !in snapshot
    {
      assert Size() > 0 ==> exists k :: k in snapshot by {
        if Size() > 0 {
          var k :| k in snapshot;
        }
      }
      Size() == 0
    }

    /**
     * `putAndFireEvent`: the key takes the new value, the old value's reference is taken out
     * of the table and the new one's recorded, and the event carries the old value.
     */
    method PutAndFireEvent(key: string, newValue: Json, sessionId: string, userId: string)
      requires Valid()
      modifies this, doc
      ensures Valid() && DocKept() && submitted == old(submitted)
      ensures snapshot == old(snapshot)[key := newValue]
      ensures fired == old(fired) + [ValueChanged(key, Some(newValue), MapOps.Lookup(old(snapshot), key), sessionId, userId,
                                                  IsLocalSession(doc.sessionId, sessionId))]
    {
      var s := snapshot;
      var event := ValueChanged(key, Some(newValue), MapOps.Lookup(s, key), sessionId, userId, doc.IsLocal(sessionId));
      snapshot := s[key := newValue];
      if key in s {
        RemoveMapParent(doc, id, s, key);
        AddMapParent(doc, id, s - {key}, key, newValue);
        assert (s - {key})[key := newValue] == s[key := newValue];
      } else {
        AddMapParent(doc, id, s, key, newValue);
      }
      fired := fired + [event];
    }

    /**
     * `removeAndFireEvent`: the key must be mapped (an assertion); it is removed, its value's
     * reference taken out of the table, and the event carries the old value.
     */
    method RemoveAndFireEvent(key: string, sessionId: string, userId: string) returns (r: Outcome)
      requires Valid()
      modifies this, doc
      ensures Valid() && DocKept() && submitted == old(submitted)
      ensures r.Fail? <==> key !in old(snapshot)
      ensures r.Fail? ==> r.error == AssertionFailed && snapshot == old(snapshot) && fired == old(fired)
      ensures r.Pass? ==>
        snapshot == old(snapshot) - {key}
        && fired == old(fired) + [ValueChanged(key, None, Some(old(snapshot)[key]), sessionId, userId,
                                               IsLocalSession(doc.sessionId, sessionId))]
    {
      if key !in snapshot {
        return Fail(AssertionFailed);
      }
      var s := snapshot;
      var event := ValueChanged(key, None, Some(s[key]), sessionId, userId, doc.IsLocal(sessionId));
      snapshot := s - {key};
      RemoveMapParent(doc, id, s, key);
      fired := fired + [event];
      return Pass;
    }

    /**
     * The update callback of `consume`: it asserts that a non-null old value is the key's
     * current one, then removes the key for a null new value (asserting it is mapped) or puts
     * the new value. It goes through exactly when the map accepts the change.
     */
    method Update(key: string, c: MapOps.Change, sessionId: string, userId: string) returns (r: Outcome)
      requires Valid()
      modifies this, doc
      ensures Valid() && DocKept() && submitted == old(submitted)
      ensures r.Pass? <==> MapOps.Accepts(old(snapshot), key, c)
      ensures r.Fail? ==> r.error == AssertionFailed
      ensures r.Pass? ==>
        snapshot == (if c.newValue.None? then old(snapshot) - {key} else old(snapshot)[key := c.newValue.value])
        && fired == old(fired) + [ValueChanged(key, c.newValue, MapOps.Lookup(old(snapshot), key), sessionId, userId,
                                               IsLocalSession(doc.sessionId, sessionId))]
    {
      if c.oldValue.Some? && MapOps.Lookup(snapshot, key) != c.oldValue {
        return Fail(AssertionFailed);
      }
      if c.newValue.None? {
        r := RemoveAndFireEvent(key, sessionId, userId);
      } else {
        PutAndFireEvent(key, c.newValue.value, sessionId, userId);
        r := Pass;
      }
    }

    /**
     * `consume`: each key of the op goes to the update callback, which asserts that a non-null
     * old value is the key's current one, then removes the key for a null new value or puts
     * the new value. The op is consumed exactly when the map accepts every change; the map is
     * then the op applied to it, with one event per key of the op.
     */
    method Consume(op: MapOps.Components, sessionId: string, userId: string) returns (r: Outcome, ghost order: seq<string>)
      requires Valid()
      modifies this, doc
      ensures Valid() && DocKept() && submitted == old(submitted)
      ensures r.Pass? <==> MapOps.Applicable(old(snapshot), op)
      ensures r.Fail? ==> r.error == AssertionFailed
      ensures r.Pass? ==>
        snapshot == MapOps.Applied(old(snapshot), op) && Enumerates(order, op.Keys)
        && fired == old(fired) + Events(old(snapshot), op, order, sessionId, userId,
                                        IsLocalSession(doc.sessionId, sessionId))
    {
      ghost var start := snapshot;
      ghost var isLocal := IsLocalSession(doc.sessionId, sessionId);
      Documents.AppliedNothing(start, op);
      var keys := op.Keys;
      ghost var done: set<string> := {};
      order := [];
      while keys != {}
        invariant done <= op.Keys && keys == op.Keys - done
        invariant Valid() && DocKept() && submitted == old(submitted)
        invariant snapshot == MapOps.Applied(start, MapOps.Restrict(op, done))
        invariant forall k | k in done :: MapOps.Accepts(start, k, op[k])
        invariant Enumerates(order, done)
        invariant fired == old(fired) + Events(start, op, order, sessionId, userId, isLocal)
        decreases keys
      {
        var k :| k in keys;
        Documents.ObjectApplyStep(start, op, done, k);
        ghost var before := fired;
        var updated := Update(k, op[k], sessionId, userId);
        if updated.Fail? {
          assert !MapOps.Accepts(start, k, op[k]);
          return updated, order;
        }
        EnumeratesStep(order, done, k);
        EventsStep(old(fired), before, fired, start, op, order, k, sessionId, userId, isLocal);
        order := order + [k];
        done := done + {k};
        keys := keys - {k};
      }
      assert MapOps.Restrict(op, done) == op;
      return Pass, order;
    }

    /** `consumeAndSubmit`: the op is consumed under the given session and, when it applies, queued. */
    method ConsumeAndSubmit(op: MapOps.Components, sessionId: string, userId: string) returns (r: Outcome, ghost order: seq<string>)
      requires Valid()
      modifies this, doc
      ensures Valid() && DocKept()
      ensures r.Pass? <==> MapOps.Applicable(old(snapshot), op)
      ensures r.Fail? ==> r.error == AssertionFailed && submitted == old(submitted)
      ensures r.Pass? ==>
        snapshot == MapOps.Applied(old(snapshot), op) && submitted == old(submitted) + [op]
        && Enumerates(order, op.Keys)
        && fired == old(fired) + Events(old(snapshot), op, order, sessionId, userId,
                                        IsLocalSession(doc.sessionId, sessionId))
    {
      r, order := Consume(op, sessionId, userId);
      if r.Pass? {
        submitted := submitted + [op];
      }
    }

    /**
     * `remove`: a null key is an argument error; an unmapped key returns none and submits
     * nothing; otherwise the op removing the key is consumed and submitted, and the old value
     * is returned.
     */
    method Remove(key: Option<string>, sessionId: string, userId: string) returns (r: Result<Option<Json>>)
      requires Valid()
      modifies this, doc
      ensures Valid() && DocKept()
      ensures key.None? ==> r == Err(IllegalArgument)
      ensures key.None? || key.value !in old(snapshot) ==>
        snapshot == old(snapshot) && fired == old(fired) && submitted == old(submitted)
      ensures key.Some? && key.value !in old(snapshot) ==> r == Ok(None)
      ensures key.Some? && key.value in old(snapshot) ==>
        r == Ok(Some(old(snapshot)[key.value])) && snapshot == old(snapshot) - {key.value}
        && submitted == old(submitted) + [map[key.value := MapOps.Change(Some(old(snapshot)[key.value]), None)]]
        && fired == old(fired) + [ValueChanged(key.value, None, Some(old(snapshot)[key.value]), sessionId, userId,
                                               IsLocalSession(doc.sessionId, sessionId))]
    {
      var checked := CheckKey(key);
      if checked.Fail? {
        return Err(checked.error);
      }
      var k := key.value;
      var oldValue := MapOps.Lookup(snapshot, k);
      if oldValue.None? {
        return Ok(None);
      }
      var op := map[k := MapOps.Change(oldValue, None)];
      AppliedSingle(snapshot, k, op[k]);
      var o, order := ConsumeAndSubmit(op, sessionId, userId);
      EnumeratesSingle(order, k);
      return Ok(oldValue);
    }

    /**
     * `set`: a null key is an argument error; a null value for an unmapped key returns none
     * and changes nothing; otherwise the op that changes the key from its current value to
     * the new one (removing it for a null value) is consumed and submitted, and the old value
     * is returned. Setting a key to the value it already has submits an empty op and fires
     * nothing.
     */
    method Set(key: Option<string>, value: Option<Json>, sessionId: string, userId: string) returns (r: Result<Option<Json>>)
      requires Valid()
      modifies this, doc
      ensures Valid() && DocKept()
      ensures key.None? ==> r == Err(IllegalArgument)
      ensures key.None? || (value.None? && key.value !in old(snapshot)) ==>
        snapshot == old(snapshot) && fired == old(fired) && submitted == old(submitted)
      ensures key.Some? && value.None? && key.value !in old(snapshot) ==> r == Ok(None)
      ensures key.Some? && (value.Some? || key.value in old(snapshot)) ==>
        r == Ok(MapOps.Lookup(old(snapshot), key.value))
        && snapshot == (if value.None? then old(snapshot) - {key.value} else old(snapshot)[key.value := value.value])
        && (MapOps.Lookup(old(snapshot), key.value) == value ==>
              submitted == old(submitted) + [map[]] && fired == old(fired))
        && (MapOps.Lookup(old(snapshot), key.value) != value ==>
              submitted == old(submitted) + [map[key.value := MapOps.Change(MapOps.Lookup(old(snapshot), key.value), value)]]
              && fired == old(fired) + [ValueChanged(key.value, value, MapOps.Lookup(old(snapshot), key.value), sessionId, userId,
                                                     IsLocalSession(doc.sessionId, sessionId))])
    {
      var checked := CheckKey(key);
      if checked.Fail? {
        return Err(checked.error);
      }
      var k := key.value;
      if value.None? && k !in snapshot {
        return Ok(None);
      }
      var oldObject := MapOps.Lookup(snapshot, k);
      var update := MapOps.Updated(map[], k, oldObject, value);
      var op := update.value;
      ghost var s := snapshot;
      if oldObject == value {
        AppliedEmpty(s);
        assert value.Some? ==> s[k := value.value] == s;
      } else {
        AppliedSingle(s, k, op[k]);
      }
      var o, order := ConsumeAndSubmit(op, sessionId, userId);
      if oldObject != value {
        EnumeratesSingle(order, k);
      } else {
        EnumeratesNone(order);
      }
      return Ok(oldObject);
    }

    /**
     * `toInitialization`: nothing for the empty map, otherwise the op that sets every key from
     * nothing to its value, which rebuilds the map from the empty one.
     */
    function ToInitialization(): (r: Option<MapOps.Components>)
      reads this
      ensures r.None? <==> snapshot == map[]
      ensures r.Some? ==> MapOps.WellFormed(r.value) && r.value.Keys == snapshot.Keys
      ensures r.Some? ==> MapOps.ApplyTo(map[], r.value) == Ok(snapshot)
    {
      if snapshot == map[] then None
      else
        var op := map k | k in snapshot :: MapOps.Change(None, Some(snapshot[k]));
        assert MapOps.Applied(map[], op) == snapshot;
        Some(op)
    }
  }

  /** An op with no keys leaves a map as it is. */
  lemma AppliedEmpty(obj: map<string, Json>)
    ensures MapOps.Applied(obj, map[]) == obj
  {
    Documents.AppliedNothing(obj, map[]);
    assert MapOps.Restrict(map[], {}) == map[];
  }

  /** An op of one key sets or removes that key and leaves the rest of a map as it is. */
  lemma AppliedSingle(obj: map<string, Json>, k: string, c: MapOps.Change)
    ensures MapOps.Applied(obj, map[k := c]) ==
      (if c.newValue.None? then obj - {k} else obj[k := c.newValue.value])
  {
    var m := map[k := c];
    Documents.AppliedNothing(obj, m);
    Documents.ObjectApplyStep(obj, m, {}, k);
    assert MapOps.Restrict(m, {} + {k}) == m;
  }
}
