/**
 * `ObjectOp`: a map op over the members of a JSON object. Besides the map algebra it inherits,
 * it transforms against an op on a descendant of the object: when the object op replaces or
 * removes the member the descendant lives in, the descendant's edit is folded into the old
 * value the object op records, and the descendant's op becomes the no-op.
 */
module ObjectOps {
  import opened Wrappers
  import opened Json
  import opened Ops
  import Paths
  import MapOps
  import Documents

  /** The pair a child transform returns: the server's op first. */
  function Oriented(serverIsParent: bool, parent: JsonOp, child: JsonOp): (r: (JsonOp, JsonOp))
    ensures serverIsParent ==> r.0 == parent && r.1 == child
    ensures !serverIsParent ==> r.0 == child && r.1 == parent
  {
    if serverIsParent then (parent, child) else (child, parent)
  }

  /** The object op with the old value of `key` replaced by `replayed`; the new value stays. */
  function Folded(m: MapOps.Components, key: string, replayed: Json): (r: MapOps.Components)
    requires key in m
    ensures r.Keys == m.Keys
    ensures r[key] == MapOps.Change(Some(replayed), m[key].newValue)
    ensures forall k | k in m && k != key :: r[k] == m[k]
  {
    m[key := MapOps.Change(Some(replayed), m[key].newValue)]
  }

  /**
   * `transformWithChild(serverIsParent, parentOp, childOp)`: the key the child path continues
   * the parent path with decides. An untouched key lets both ops through; a touched key must
   * record an old value, the child op is replayed on a copy of that value at the remaining
   * path, and the parent op is copied with the replayed value as the key's old value.
   */
  function TransformWithChild(serverIsParent: bool, parent: JsonOp, child: JsonOp): (r: Result<(JsonOp, JsonOp)>)
    requires parent.op.Object?
  {
    if child.path.None? || parent.path.None? then Err(NullPointer)
    else
      match Paths.NextKey(child.path.value, parent.path.value)
      case None => Err(NullPointer)
      case Some((key, rest)) =>
        var m := parent.op.components;
        if key !in m then Ok(Oriented(serverIsParent, parent, child))
        else if m[key].oldValue.None? then Err(AssertionFailed)
        else
          var replayed :- Documents.Consumed(m[key].oldValue.value, JsonOp(Some(rest), child.op));
          Ok(Oriented(serverIsParent, JsonOp(parent.path, Object(Folded(m, key, replayed))), NoJsonOp))
  }

  /**
   * The outcome for a child at `parent.key` followed by `rest`: both ops pass through when the
   * object op leaves `key` alone; otherwise the child's edit lands in the parent op's record of
   * the old value of `key`, and the child op is dropped.
   */
  lemma ChildOfKey(serverIsParent: bool, parentPath: string, m: MapOps.Components, key: string,
                   rest: string, childOp: Op)
    requires Paths.IsValidKey(key)
    ensures var child := JsonOp(Some(Paths.AtPath(Paths.AtKey(parentPath, key).value, rest)), childOp);
      var parent := JsonOp(Some(parentPath), Object(m));
      var r := TransformWithChild(serverIsParent, parent, child);
      && (key !in m ==> r == Ok(Oriented(serverIsParent, parent, child)))
      && (key in m && m[key].oldValue.None? ==> r == Err(AssertionFailed))
      && (key in m && m[key].oldValue.Some? ==>
            var replayed := Documents.Consumed(m[key].oldValue.value, JsonOp(Some(rest), childOp));
            (replayed.Err? ==> r == Err(replayed.error))
            && (replayed.Ok? ==>
                  r == Ok(Oriented(serverIsParent, JsonOp(Some(parentPath), Object(Folded(m, key, replayed.value))), NoJsonOp))))
  {
    Paths.NextKeyOfAt(parentPath, key, rest);
  }

  /**
   * The parent wins: an object that accepted the parent op, with the child's edit already
   * made to the member (`replayed`), accepts the transformed parent op, and the two end in the
   * same object. So applying the child first and the transformed parent second gives what
   * the parent op alone gives.
   */
  lemma ParentWins(fields: map<string, Json>, m: MapOps.Components, key: string, replayed: Json)
    requires key in m && m[key].oldValue.Some?
    requires Documents.ObjectApply(fields, m).Ok?
    ensures Documents.ObjectApply(fields[key := replayed], Folded(m, key, replayed)) == Documents.ObjectApply(fields, m)
  {
    var f' := fields[key := replayed];
    var m' := Folded(m, key, replayed);
    assert Documents.ObjectAccepts(fields, key, m[key]);
    forall k | k in m' ensures Documents.ObjectAccepts(f', k, m'[k]) {
      assert Documents.ObjectAccepts(fields, k, m[k]);
    }
    forall k ensures MapOps.Lookup(MapOps.Applied(f', m'), k) == MapOps.Lookup(MapOps.Applied(fields, m), k) {
      MapOps.LookupApplied(f', m', k);
      MapOps.LookupApplied(fields, m, k);
    }
    Documents.SameMembers(MapOps.Applied(f', m'), MapOps.Applied(fields, m));
  }
}
