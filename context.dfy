/**
 * The document a client edits: a `Context` owns the snapshot, and the wrappers `JString`,
 * `JNumber`, `JArray`, `JObject` and `JNull` are (context, path) views whose methods change
 * that snapshot. Here the views are the paths themselves, and their methods are methods of
 * the context that take the path. Each method is proved against the value functions of
 * `Documents`: what `get` finds is `Lookup`, what `setValue` leaves is `Written`, what
 * `consume` leaves is `Consumed`.
 *
 * The output sink is the sequence of ops it has been given; the handler registry only
 * decides whether events fire, and events are not modelled.
 */
module Contexts {
  import opened Wrappers
  import opened Json
  import opened Decimal
  import Paths
  import opened ListOps
  import MapOps
  import ReplaceOps
  import JsonUtil
  import opened Ops
  import opened Documents

  /**
   * The loop of `JArray.remove` that copies the `length` elements from `idx` on, one at a
   * time: it stops when it runs past the end of the array.
   */
  method CopyRange(items: seq<Json>, idx: nat, length: int) returns (r: Option<seq<Json>>)
    requires length > 0
    ensures r.Some? <==> idx + length <= |items|
    ensures r.Some? ==> r.value == items[idx..idx + length]
  {
    var list: seq<Json> := [];
    var i := 0;
    while i < length
      invariant 0 <= i <= length && |list| == i
      invariant i > 0 ==> idx + i <= |items|
      invariant forall k | 0 <= k < i :: idx + k < |items| && list[k] == items[idx + k]
    {
      if idx + i >= |items| {
        return None;
      }
      list := list + [items[idx + i]];
      i := i + 1;
    }
    assert list == items[idx..idx + length];
    return Some(list);
  }

  /** A text walk from an insert fails when the cursor is past the end, or walks the spliced text on. */
  lemma TextInsertWalk(t: Result<string>, rest: ListOp<char>, xs: string, text: string, cursor: nat, next: string, cursor': nat)
    requires |rest| > 0 && rest[0] == Insert(xs)
    requires cursor' == cursor + |xs|
    requires t == ApplyAt(rest, text, cursor, ModelText)
    requires cursor <= |text| ==> next == text[..cursor] + xs + text[cursor..]
    ensures cursor > |text| ==> t.Err?
    ensures cursor <= |text| ==> t == ApplyAt(rest[1..], next, cursor', ModelText)
  {
    InsertStep(rest, text, cursor, ModelText, xs);
  }

  /**
   * A `setValue` of the text after an earlier one at the same path: `current` is the snapshot
   * before it and `snap` the snapshot after it when `pass`.
   */
  lemma TextWriteSound(doc: Json, path: string, t: Result<string>, text: string, edited: bool, current: Json,
                       pass: bool, next: string, snap: Json)
    requires !edited ==> current == doc
    requires edited ==> Written(doc, path, JStr(text)) == Ok(current)
    requires pass ==> Written(current, path, JStr(next)) == Ok(snap)
    requires !pass && t.Ok? ==> Written(current, path, JStr(next)).Err?
    ensures pass ==> Written(doc, path, JStr(next)) == Ok(snap)
    ensures !pass && t.Ok? ==> Written(doc, path, JStr(t.value)).Err?
  {
    WrittenAfter(doc, path, JStr(text), current, edited, JStr(next));
    if !pass && t.Ok? {
      WrittenOkIndependent(doc, path, JStr(next), JStr(t.value));
    }
  }

  /** A text walk stopped at an edit that could not be written leaves nothing a `setValue` could write. */
  lemma WalkStopped(op: ListOp<char>, i: nat, t: Result<string>, doc: Json, path: string)
    requires i < |op| && !op[i].Retain?
    requires t.Ok? ==> Written(doc, path, JStr(t.value)).Err?
    ensures !(t.Ok? && (ListIsNoOp(op) || Written(doc, path, JStr(t.value)).Ok?))
  {
    assert !ListIsNoOp(op);
  }

  class Context {
    var snapshot: Json
    /** Whether an output sink is set. */
    var hasSink: bool
    /** The ops handed to the output sink so far. */
    var submitted: seq<JsonOp>
    /** Whether a handler registry is set. */
    var hasRegistry: bool

    constructor (snapshot: Json)
      ensures this.snapshot == snapshot && !hasSink && submitted == [] && !hasRegistry
    {
      this.snapshot := snapshot;
      hasSink := false;
      submitted := [];
      hasRegistry := false;
    }

    /** The path holds `v` in the snapshot. */
    predicate HoldsAt(path: string, v: Json)
      reads this
    {
      Lookup(snapshot, path) == Ok(Some(v))
    }

    /** The path holds a value of type `t`: what the wrapper constructors assert. */
    predicate HoldsKind(path: string, t: JsonType)
      reads this
    {
      Found(Lookup(snapshot, path)) && TypeOf(Lookup(snapshot, path).value.value) == t
    }

    /** What `submitOp(op)` hands to the sink: the op, or nothing without a sink. */
    function Submission(path: string, op: Op): seq<JsonOp>
      reads this
    {
      if hasSink then [JsonOp(Some(path), op)] else []
    }

    method SetOutputSink(present: bool)
      modifies this
      ensures hasSink == present
      ensures snapshot == old(snapshot) && submitted == old(submitted) && hasRegistry == old(hasRegistry)
    {
      hasSink := present;
    }

    method SetRegistry(present: bool)
      modifies this
      ensures hasRegistry == present
      ensures snapshot == old(snapshot) && submitted == old(submitted) && hasSink == old(hasSink)
    {
      hasRegistry := present;
    }

    /** `shouldFireEvent`: events fire only when a registry is set. */
    predicate ShouldFireEvent()
      reads this
    {
      hasRegistry
    }

    /** `submitOp`: the sink receives the op; without a sink nothing happens. */
    method SubmitOp(op: JsonOp)
      modifies this
      ensures submitted == old(submitted) + (if hasSink then [op] else [])
      ensures snapshot == old(snapshot) && hasSink == old(hasSink) && hasRegistry == old(hasRegistry)
    {
      if hasSink {
        submitted := submitted + [op];
      }
    }

    /**
     * `get(path)`: the root path is the whole snapshot; otherwise each `.`-separated segment
     * takes an object member and then its `[i]` steps. A missing member gives none.
     */
    method Get(path: string) returns (r: Result<Option<Json>>)
      ensures r == Lookup(snapshot, path)
    {
      if path == "" {
        return Ok(Some(snapshot));
      }
      var toRtn := snapshot;
      var keys := Split(path, {'.'});
      var i := 0;
      while i < |keys|
        invariant 0 <= i <= |keys|
        invariant WalkSegments(snapshot, keys, 0) == WalkSegments(toRtn, keys, i)
      {
        var found := GetSegment(toRtn, keys[i]);
        if found.Err? {
          return Err(found.error);
        }
        if found.value.None? {
          return Ok(None);
        }
        toRtn := found.value.value;
        i := i + 1;
      }
      return Ok(Some(toRtn));
    }

    /** `at(path)`: the kind of wrapper for the value found, none when there is no value. */
    method At(path: string) returns (r: Result<Option<JsonType>>)
      ensures r.Ok? <==> Lookup(snapshot, path).Ok?
      ensures r.Ok? ==> r.value == match Lookup(snapshot, path).value
        case None => None
        case Some(v) => Some(TypeOf(v))
    {
      var val := Get(path);
      if val.Err? {
        return Err(val.error);
      }
      if val.value.None? {
        return Ok(None);
      }
      return Ok(Some(TypeOf(val.value.value)));
    }

    /**
     * `setValue(path, x)`: the root path replaces the snapshot; otherwise the parent must be
     * found and gets `x` at the last index or key of `path`, in place.
     */
    method SetValue(path: string, x: Json) returns (r: Outcome)
      modifies this
      ensures r.Pass? <==> Written(old(snapshot), path, x).Ok?
      ensures snapshot == if r.Pass? then Written(old(snapshot), path, x).value else old(snapshot)
      ensures submitted == old(submitted) && hasSink == old(hasSink) && hasRegistry == old(hasRegistry)
    {
      var parentPath := Paths.GetParent(path);
      if parentPath.Err? {
        return Fail(parentPath.error);
      }
      if parentPath.value.None? {
        snapshot := x;
        return Pass;
      }
      var parent := parentPath.value;
      var parentVal := Get(parent.value);
      if parentVal.Err? {
        return Fail(parentVal.error);
      }
      if parentVal.value.None? {
        return Fail(AssertionFailed);
      }
      var child := WriteChild(parentVal.value.value, path, x);
      if child.Err? {
        return Fail(child.error);
      }
      LookupNavigates(snapshot, parent.value);
      snapshot := Overwrite(snapshot, ParsePath(parent.value).value, child.value);
      return Pass;
    }

    // -------------------------------------------------------------------------------------
    // doConsume of each wrapper

    /**
     * The insert callback of `JString.doConsume` (`insertAndFireEvent`): the cursor must lie
     * within the text, and the string with `xs` spliced in at the cursor is written back.
     */
    method TextInsert(path: string, text: string, cursor: nat, xs: string) returns (r: Outcome, next: string)
      modifies this
      ensures cursor <= |text| ==> next == text[..cursor] + xs + text[cursor..]
      ensures r.Pass? <==> cursor <= |text| && Written(old(snapshot), path, JStr(next)).Ok?
      ensures snapshot == if r.Pass? then Written(old(snapshot), path, JStr(next)).value else old(snapshot)
      ensures submitted == old(submitted) && hasSink == old(hasSink) && hasRegistry == old(hasRegistry)
    {
      if cursor > |text| {
        return Fail(AssertionFailed), text;
      }
      next := text[..cursor] + xs + text[cursor..];
      r := SetValue(path, JStr(next));
    }

    /**
     * The delete callback of `JString.doConsume` (`deleteAndFireEvent`): the text at the
     * cursor must be `xs`, and the string without it is written back.
     */
    method TextDelete(path: string, text: string, cursor: nat, xs: string) returns (r: Outcome, next: string)
      modifies this
      ensures cursor + |xs| <= |text| ==> next == text[..cursor] + text[cursor + |xs|..]
      ensures r.Pass? <==>
        cursor + |xs| <= |text| && text[cursor..cursor + |xs|] == xs && Written(old(snapshot), path, JStr(next)).Ok?
      ensures r.Fail? && cursor + |xs| > |text| ==> r.error == IndexOutOfBounds
      ensures snapshot == if r.Pass? then Written(old(snapshot), path, JStr(next)).value else old(snapshot)
      ensures submitted == old(submitted) && hasSink == old(hasSink) && hasRegistry == old(hasRegistry)
    {
      if cursor + |xs| > |text| {
        return Fail(IndexOutOfBounds), text;
      }
      next := text[..cursor] + text[cursor + |xs|..];
      if text[cursor..cursor + |xs|] != xs {
        return Fail(AssertionFailed), next;
      }
      r := SetValue(path, JStr(next));
    }

    /**
     * One component of the text walk, handed to the retain, insert or delete callback as
     * `ListOp.apply` does. The walk so far has written the string back iff it has edited it.
     */
    method TextComponent(path: string, ghost doc: Json, ghost t: Result<string>, ghost rest: ListOp<char>,
                         c: Component<char>, text: string, cursor: nat, edited: bool)
      returns (r: Outcome, text': string, cursor': nat, edited': bool)
      requires |rest| > 0 && c == rest[0]
      requires t == ApplyAt(rest, text, cursor, ModelText)
      requires !edited ==> snapshot == doc
      requires edited ==> Written(doc, path, JStr(text)) == Ok(snapshot)
      modifies this
      ensures r.Pass? ==> t == ApplyAt(rest[1..], text', cursor', ModelText) && edited' == (edited || !c.Retain?)
      ensures r.Pass? && !edited' ==> snapshot == doc
      ensures r.Pass? && edited' ==> Written(doc, path, JStr(text')) == Ok(snapshot)
      ensures r.Fail? ==> !c.Retain? && (t.Ok? ==> Written(doc, path, JStr(t.value)).Err?)
      ensures submitted == old(submitted) && hasSink == old(hasSink) && hasRegistry == old(hasRegistry)
    {
      match c {
        case Retain(n) =>
          RetainStep(rest, text, cursor, ModelText, n);
          r, text', cursor', edited' := Pass, text, cursor + n, edited;
        case Insert(xs) =>
          r, text', cursor' := TextInsertComponent(path, doc, t, rest, xs, text, cursor, edited);
          edited' := true;
        case Delete(xs) =>
          r, text', cursor' := TextDeleteComponent(path, doc, t, rest, xs, text, cursor, edited);
          edited' := true;
      }
    }

    /** The insert case of `TextComponent`. */
    method TextInsertComponent(path: string, ghost doc: Json, ghost t: Result<string>, ghost rest: ListOp<char>,
                               xs: string, text: string, cursor: nat, edited: bool)
      returns (r: Outcome, text': string, cursor': nat)
      requires |rest| > 0 && rest[0] == Insert(xs)
      requires t == ApplyAt(rest, text, cursor, ModelText)
      requires !edited ==> snapshot == doc
      requires edited ==> Written(doc, path, JStr(text)) == Ok(snapshot)
      modifies this
      ensures r.Pass? ==> t == ApplyAt(rest[1..], text', cursor', ModelText)
      ensures r.Pass? ==> Written(doc, path, JStr(text')) == Ok(snapshot)
      ensures r.Fail? ==> (t.Ok? ==> Written(doc, path, JStr(t.value)).Err?)
      ensures submitted == old(submitted) && hasSink == old(hasSink) && hasRegistry == old(hasRegistry)
    {
      ghost var current := snapshot;
      r, text' := TextInsert(path, text, cursor, xs);
      cursor' := cursor + |xs|;
      TextInsertWalk(t, rest, xs, text, cursor, text', cursor');
      TextWriteSound(doc, path, t, text, edited, current, r.Pass?, text', snapshot);
    }

    /** The delete case of `TextComponent`. */
    method TextDeleteComponent(path: string, ghost doc: Json, ghost t: Result<string>, ghost rest: ListOp<char>,
                               xs: string, text: string, cursor: nat, edited: bool)
      returns (r: Outcome, text': string, cursor': nat)
      requires |rest| > 0 && rest[0] == Delete(xs)
      requires t == ApplyAt(rest, text, cursor, ModelText)
      requires !edited ==> snapshot == doc
      requires edited ==> Written(doc, path, JStr(text)) == Ok(snapshot)
      modifies this
      ensures r.Pass? ==> t == ApplyAt(rest[1..], text', cursor', ModelText)
      ensures r.Pass? ==> Written(doc, path, JStr(text')) == Ok(snapshot)
      ensures r.Fail? ==> (t.Ok? ==> Written(doc, path, JStr(t.value)).Err?)
      ensures submitted == old(submitted) && hasSink == old(hasSink) && hasRegistry == old(hasRegistry)
    {
      ghost var current := snapshot;
      DeleteStep(rest, text, cursor, ModelText, xs);
      r, text' := TextDelete(path, text, cursor, xs);
      cursor' := cursor;
      TextWriteSound(doc, path, t, text, edited, current, r.Pass?, text', snapshot);
    }

    /**
     * `JString.doConsume`: a cursor walk over the text. A retain moves the cursor; an insert
     * splices its text in at the cursor, writes the string back and moves past it; a delete
     * checks the text at the cursor and writes the string back without it.
     */
    method ConsumeText(path: string, s: string, op: ListOp<char>) returns (r: Outcome)
      modifies this
      ensures var t := Apply(op, s, ModelText);
        r.Pass? <==> t.Ok? && (ListIsNoOp(op) || Written(old(snapshot), path, JStr(t.value)).Ok?)
      ensures r.Pass? ==>
        snapshot == if ListIsNoOp(op) then old(snapshot) else Written(old(snapshot), path, JStr(Apply(op, s, ModelText).value)).value
      ensures submitted == old(submitted) && hasSink == old(hasSink) && hasRegistry == old(hasRegistry)
    {
      ghost var doc := snapshot;
      ghost var t := Apply(op, s, ModelText);
      var text := s;
      var cursor: nat := 0;
      var edited := false;
      var i := 0;
      while i < |op|
        invariant 0 <= i <= |op|
        invariant t == ApplyAt(op[i..], text, cursor, ModelText)
        invariant edited == !ListIsNoOp(op[..i])
        invariant !edited ==> snapshot == doc
        invariant edited ==> Written(doc, path, JStr(text)) == Ok(snapshot)
        invariant submitted == old(submitted) && hasSink == old(hasSink) && hasRegistry == old(hasRegistry)
      {
        NoOpPrefix(op, i);
        assert op[i..][1..] == op[i + 1..];
        r, text, cursor, edited := TextComponent(path, doc, t, op[i..], op[i], text, cursor, edited);
        if r.Fail? {
          WalkStopped(op, i, t, doc, path);
          return;
        }
        i := i + 1;
      }
      assert op[|op|..] == [] && op[..|op|] == op;
      assert t == Ok(text);
      return Pass;
    }

    /**
     * The insert callback of `JArray.doConsume`: the elements go in one by one at the cursor,
     * each by an in-place `insert` on the array that `steps` reach.
     */
    method ElementsInsert(ghost doc: Json, steps: seq<Step>, items: seq<Json>, cursor: nat, xs: seq<Json>)
      returns (r: Outcome, items': seq<Json>)
      requires Found(Navigate(doc, steps)) && snapshot == Overwrite(doc, steps, JArr(items))
      modifies this
      ensures r.Pass? <==> |xs| > 0 && cursor <= |items|
      ensures r.Pass? ==> items' == items[..cursor] + xs + items[cursor..]
      ensures snapshot == Overwrite(doc, steps, JArr(items'))
      ensures submitted == old(submitted) && hasSink == old(hasSink) && hasRegistry == old(hasRegistry)
    {
      if |xs| == 0 || cursor > |items| {
        return Fail(AssertionFailed), items;
      }
      items' := items;
      var k := 0;
      while k < |xs|
        invariant 0 <= k <= |xs|
        invariant items' == items[..cursor] + xs[..k] + items[cursor..]
        invariant snapshot == Overwrite(doc, steps, JArr(items'))
        invariant submitted == old(submitted) && hasSink == old(hasSink) && hasRegistry == old(hasRegistry)
      {
        ghost var prev := items';
        SpliceOneMore(items, cursor, xs, k);
        items' := items'[..cursor + k] + [xs[k]] + items'[cursor + k..];
        OverwriteTwice(doc, steps, JArr(prev), JArr(items'));
        snapshot := Overwrite(snapshot, steps, JArr(items'));
        k := k + 1;
      }
      assert xs[..|xs|] == xs;
      return Pass, items';
    }

    /**
     * The delete callback of `JArray.doConsume`: from the last element to the first, each
     * element at the cursor must equal the op's, and is removed in place.
     */
    method ElementsDelete(ghost doc: Json, steps: seq<Step>, items: seq<Json>, cursor: nat, xs: seq<Json>)
      returns (r: Outcome, items': seq<Json>)
      requires Found(Navigate(doc, steps)) && snapshot == Overwrite(doc, steps, JArr(items))
      modifies this
      ensures r.Pass? <==> |xs| > 0 && cursor + |xs| <= |items| && items[cursor..cursor + |xs|] == xs
      ensures r.Pass? ==> items' == items[..cursor] + items[cursor + |xs|..]
      ensures snapshot == Overwrite(doc, steps, JArr(items'))
      ensures submitted == old(submitted) && hasSink == old(hasSink) && hasRegistry == old(hasRegistry)
    {
      if |xs| == 0 || cursor + |xs| > |items| {
        return Fail(AssertionFailed), items;
      }
      items' := items;
      var k := |xs|;
      while k > 0
        invariant 0 <= k <= |xs|
        invariant items' == items[..cursor + k] + items[cursor + |xs|..]
        invariant items[cursor + k..cursor + |xs|] == xs[k..]
        invariant snapshot == Overwrite(doc, steps, JArr(items'))
        invariant submitted == old(submitted) && hasSink == old(hasSink) && hasRegistry == old(hasRegistry)
      {
        k := k - 1;
        if items'[cursor + k] != xs[k] {
          assert items[cursor..cursor + |xs|][k] != xs[k];
          return Fail(AssertionFailed), items';
        }
        ghost var prev := items';
        items' := items'[..cursor + k] + items'[cursor + k + 1..];
        assert items' == items[..cursor + k] + items[cursor + |xs|..];
        assert items[cursor + k..cursor + |xs|] == [items[cursor + k]] + items[cursor + k + 1..cursor + |xs|];
        OverwriteTwice(doc, steps, JArr(prev), JArr(items'));
        snapshot := Overwrite(snapshot, steps, JArr(items'));
      }
      return Pass, items';
    }

    /** One component of the element walk, handed to the matching callback. */
    method ElementsComponent(ghost doc: Json, steps: seq<Step>, ghost t: Result<seq<Json>>,
                             ghost rest: ListOp<Json>, c: Component<Json>, items: seq<Json>, cursor: nat)
      returns (r: Outcome, items': seq<Json>, cursor': nat)
      requires |rest| > 0 && c == rest[0]
      requires t == ApplyAt(rest, items, cursor, Target.Elements)
      requires Found(Navigate(doc, steps)) && snapshot == Overwrite(doc, steps, JArr(items))
      modifies this
      ensures r.Pass? ==> t == ApplyAt(rest[1..], items', cursor', Target.Elements)
      ensures r.Fail? ==> t.Err?
      ensures snapshot == Overwrite(doc, steps, JArr(items'))
      ensures submitted == old(submitted) && hasSink == old(hasSink) && hasRegistry == old(hasRegistry)
    {
      match c {
        case Retain(n) =>
          RetainStep(rest, items, cursor, Target.Elements, n);
          return Pass, items, cursor + n;
        case Insert(xs) =>
          r, items' := ElementsInsert(doc, steps, items, cursor, xs);
          cursor' := cursor + |xs|;
        case Delete(xs) =>
          r, items' := ElementsDelete(doc, steps, items, cursor, xs);
          cursor' := cursor;
      }
    }

    /**
     * `JArray.doConsume`: a cursor walk over the elements of the array that `steps` reach.
     * A retain moves the cursor, an insert puts its elements at the cursor and moves past
     * them, a delete removes elements equal to its own without moving the cursor.
     */
    method ConsumeElements(steps: seq<Step>, items: seq<Json>, op: ListOp<Json>) returns (r: Outcome)
      requires Navigate(snapshot, steps) == Ok(Some(JArr(items)))
      modifies this
      ensures r.Pass? <==> Apply(op, items, Target.Elements).Ok?
      ensures r.Pass? ==> snapshot == Overwrite(old(snapshot), steps, JArr(Apply(op, items, Target.Elements).value))
      ensures submitted == old(submitted) && hasSink == old(hasSink) && hasRegistry == old(hasRegistry)
    {
      ghost var doc := snapshot;
      ghost var t := Apply(op, items, Target.Elements);
      OverwriteSame(doc, steps);
      var cur := items;
      var cursor: nat := 0;
      var i := 0;
      while i < |op|
        invariant 0 <= i <= |op|
        invariant t == ApplyAt(op[i..], cur, cursor, Target.Elements)
        invariant snapshot == Overwrite(doc, steps, JArr(cur))
        invariant submitted == old(submitted) && hasSink == old(hasSink) && hasRegistry == old(hasRegistry)
      {
        assert op[i..][1..] == op[i + 1..];
        r, cur, cursor := ElementsComponent(doc, steps, t, op[i..], op[i], cur, cursor);
        if r.Fail? {
          return;
        }
        i := i + 1;
      }
      assert op[|op|..] == [];
      return Pass;
    }

    /**
     * `JObject.doConsume`: every key of the op goes to the update callback, which checks the
     * old value, then removes the key for a null new value or puts the new value, in place.
     */
    method ConsumeMembers(steps: seq<Step>, fields: map<string, Json>, m: MapOps.Components) returns (r: Outcome)
      requires Navigate(snapshot, steps) == Ok(Some(JObj(fields)))
      modifies this
      ensures r.Pass? <==> ObjectApply(fields, m).Ok?
      ensures r.Pass? ==> snapshot == Overwrite(old(snapshot), steps, JObj(ObjectApply(fields, m).value))
      ensures r.Fail? ==> r.error == Runtime || r.error == AssertionFailed
      ensures r == Fail(Runtime) ==> MapOps.Refusal(fields, m) == Runtime
      ensures submitted == old(submitted) && hasSink == old(hasSink) && hasRegistry == old(hasRegistry)
    {
      ghost var doc := snapshot;
      OverwriteSame(doc, steps);
      AppliedNothing(fields, m);
      var obj := fields;
      var keys := m.Keys;
      ghost var done: set<string> := {};
      while keys != {}
        invariant done <= m.Keys && keys == m.Keys - done
        invariant obj == MapOps.Applied(fields, MapOps.Restrict(m, done))
        invariant forall k | k in done :: ObjectAccepts(fields, k, m[k])
        invariant snapshot == Overwrite(doc, steps, JObj(obj))
        invariant submitted == old(submitted) && hasSink == old(hasSink) && hasRegistry == old(hasRegistry)
        decreases keys
      {
        var k :| k in keys;
        ObjectApplyStep(fields, m, done, k);
        var c := m[k];
        if c.oldValue.Some? && k !in obj {
          return Fail(Runtime);
        }
        if c.oldValue.Some? && MapOps.Lookup(obj, k) != c.oldValue {
          return Fail(AssertionFailed);
        }
        ghost var prev := obj;
        if c.newValue.None? {
          if k !in obj {
            return Fail(AssertionFailed);
          }
          obj := obj - {k};
        } else {
          if !Paths.IsValidKey(k) {
            return Fail(AssertionFailed);
          }
          obj := obj[k := c.newValue.value];
        }
        OverwriteTwice(doc, steps, JObj(prev), JObj(obj));
        snapshot := Overwrite(snapshot, steps, JObj(obj));
        done := done + {k};
        keys := keys - {k};
      }
      assert MapOps.Restrict(m, done) == m;
      return Pass;
    }

    /** `JNull.doConsume`: a replace op whose callback checks the old value and stores the new one. */
    method ConsumeNull(path: string, op: Op) returns (r: Outcome)
      modifies this
      ensures r.Pass? <==> NullConsumed(old(snapshot), path, op).Ok?
      ensures r.Pass? ==> snapshot == NullConsumed(old(snapshot), path, op).value
      ensures submitted == old(submitted) && hasSink == old(hasSink) && hasRegistry == old(hasRegistry)
    {
      if !op.Replace? {
        return Fail(AssertionFailed);
      }
      if op.replacement.IsNoOp() {
        return Pass;
      }
      if op.replacement.oldValue != Some(JNull) {
        return Fail(AssertionFailed);
      }
      r := SetValue(path, JsonUtil.ToJsonValue(op.replacement.newValue));
    }

    /** `JNumber.doConsume`: a number op whose `add` callback writes the sum back. */
    method ConsumeNumber(path: string, n: int, op: Op) returns (r: Outcome)
      modifies this
      ensures r.Pass? <==> NumberConsumed(old(snapshot), path, n, op).Ok?
      ensures r.Pass? ==> snapshot == NumberConsumed(old(snapshot), path, n, op).value
      ensures submitted == old(submitted) && hasSink == old(hasSink) && hasRegistry == old(hasRegistry)
    {
      if !op.Number? {
        return Fail(AssertionFailed);
      }
      if op.delta == 0 {
        return Pass;
      }
      var x := JNum(n + op.delta);
      assert NumberConsumed(snapshot, path, n, op) == Written(snapshot, path, x);
      r := SetValue(path, x);
    }

    /** `JString.doConsume`: a list op walked over the text. */
    method ConsumeString(path: string, s: string, op: Op) returns (r: Outcome)
      modifies this
      ensures r.Pass? <==> StringConsumed(old(snapshot), path, s, op).Ok?
      ensures r.Pass? ==> snapshot == StringConsumed(old(snapshot), path, s, op).value
      ensures submitted == old(submitted) && hasSink == old(hasSink) && hasRegistry == old(hasRegistry)
    {
      if op.Elements? {
        r := ForeignWalk(op.elements);
        return;
      }
      if !op.Text? {
        return Fail(AssertionFailed);
      }
      r := ConsumeText(path, s, op.text);
    }

    /** `JArray.doConsume`: a list op walked over the elements of the array at `path`. */
    method ConsumeArray(path: string, items: seq<Json>, op: Op) returns (r: Outcome)
      requires HoldsAt(path, JArr(items))
      modifies this
      ensures r.Pass? <==> ArrayConsumed(old(snapshot), path, items, op).Ok?
      ensures r.Pass? ==> snapshot == ArrayConsumed(old(snapshot), path, items, op).value
      ensures submitted == old(submitted) && hasSink == old(hasSink) && hasRegistry == old(hasRegistry)
    {
      LookupNavigates(snapshot, path);
      if op.Text? {
        r := ForeignWalk(op.text);
        return;
      }
      if !op.Elements? {
        return Fail(AssertionFailed);
      }
      r := ConsumeElements(ParsePath(path).value, items, op.elements);
    }

    /** `JObject.doConsume`: an object op applied to the members of the object at `path`. */
    method ConsumeObject(path: string, fields: map<string, Json>, op: Op) returns (r: Outcome)
      requires HoldsAt(path, JObj(fields))
      modifies this
      ensures r.Pass? <==> ObjectConsumed(old(snapshot), path, fields, op).Ok?
      ensures r.Pass? ==> snapshot == ObjectConsumed(old(snapshot), path, fields, op).value
      ensures submitted == old(submitted) && hasSink == old(hasSink) && hasRegistry == old(hasRegistry)
    {
      LookupNavigates(snapshot, path);
      if !op.Object? {
        return Fail(AssertionFailed);
      }
      r := ConsumeMembers(ParsePath(path).value, fields, op.components);
    }

    /** `doConsume` of the wrapper that `ctx.at(path)` creates for the value `cur` at `path`. */
    method DoConsume(path: string, cur: Json, op: Op) returns (r: Outcome)
      requires HoldsAt(path, cur)
      modifies this
      ensures r.Pass? <==> DoConsumed(old(snapshot), path, cur, op).Ok?
      ensures r.Pass? ==> snapshot == DoConsumed(old(snapshot), path, cur, op).value
      ensures submitted == old(submitted) && hasSink == old(hasSink) && hasRegistry == old(hasRegistry)
    {
      match cur {
        case JNull => r := ConsumeNull(path, op);
        case JBool(_) => r := Fail(Unsupported);
        case JNum(n) => r := ConsumeNumber(path, n, op);
        case JStr(s) => r := ConsumeString(path, s, op);
        case JArr(items) => r := ConsumeArray(path, items, op);
        case JObj(fields) => r := ConsumeObject(path, fields, op);
      }
    }

    /**
     * `JValue.consume(op)`: `ctx.at(op.getPath()).doConsume(op.getOp())`. A null path or a
     * path that holds nothing leaves no wrapper to consume with.
     */
    method Consume(j: JsonOp) returns (r: Outcome)
      modifies this
      ensures r.Pass? <==> Consumed(old(snapshot), j).Ok?
      ensures r.Pass? ==> snapshot == Consumed(old(snapshot), j).value
      ensures submitted == old(submitted) && hasSink == old(hasSink) && hasRegistry == old(hasRegistry)
    {
      if j.path.None? {
        return Fail(NullPointer);
      }
      var found := Get(j.path.value);
      if found.Err? {
        return Fail(found.error);
      }
      if found.value.None? {
        return Fail(NullPointer);
      }
      r := DoConsume(j.path.value, found.value.value, j.op);
    }

    /** `consumeAndSubmit(op)`: the op is applied at the wrapper's path, then handed to the sink. */
    method ConsumeAndSubmit(path: string, cur: Json, op: Op) returns (r: Outcome)
      requires HoldsAt(path, cur)
      modifies this
      ensures r.Pass? <==> DoConsumed(old(snapshot), path, cur, op).Ok?
      ensures r.Pass? ==> snapshot == DoConsumed(old(snapshot), path, cur, op).value
      ensures submitted == old(submitted) + (if r.Pass? then old(Submission(path, op)) else [])
      ensures hasSink == old(hasSink) && hasRegistry == old(hasRegistry)
    {
      r := DoConsume(path, cur, op);
      if r.Pass? {
        SubmitOp(JsonOp(Some(path), op));
      }
    }

    // -------------------------------------------------------------------------------------
    // The editing methods of the wrappers

    /** `JString.insert(idx, str)`: a string op inserting `str` at `idx`, consumed and submitted. */
    method StringInsert(path: string, s: string, idx: nat, str: string) returns (r: Outcome)
      requires HoldsAt(path, JStr(s))
      modifies this
      ensures idx <= |s| ==>
        var next := s[..idx] + str + s[idx..];
        (r.Pass? <==> Written(old(snapshot), path, JStr(next)).Ok?)
        && (r.Pass? ==> snapshot == Written(old(snapshot), path, JStr(next)).value
                        && submitted == old(submitted) + old(Submission(path, Text(SingleEdit(true, idx, str, |s|)))))
      ensures idx > |s| ==> r == Fail(AssertionFailed) && snapshot == old(snapshot)
      ensures r.Fail? ==> submitted == old(submitted)
      ensures hasSink == old(hasSink) && hasRegistry == old(hasRegistry)
    {
      if idx > |s| {
        return Fail(AssertionFailed);
      }
      var op := SingleEdit(true, idx, str, |s|);
      StringInsertConsumed(snapshot, path, s, idx, str);
      r := ConsumeAndSubmit(path, JStr(s), Text(op));
    }

    /** `JString.delete(idx, length)`: a string op deleting the text at `idx`, consumed and submitted. */
    method StringDelete(path: string, s: string, idx: nat, length: nat) returns (r: Outcome)
      requires HoldsAt(path, JStr(s))
      modifies this
      ensures idx + length <= |s| ==>
        var next := s[..idx] + s[idx + length..];
        (r.Pass? <==> Written(old(snapshot), path, JStr(next)).Ok?)
        && (r.Pass? ==> snapshot == Written(old(snapshot), path, JStr(next)).value
                        && submitted == old(submitted)
                           + old(Submission(path, Text(SingleEdit(false, idx, s[idx..idx + length], |s|)))))
      ensures idx + length > |s| ==> r == Fail(AssertionFailed) && snapshot == old(snapshot)
      ensures r.Fail? ==> submitted == old(submitted)
      ensures hasSink == old(hasSink) && hasRegistry == old(hasRegistry)
    {
      if idx + length > |s| {
        return Fail(AssertionFailed);
      }
      var op := SingleEdit(false, idx, s[idx..idx + length], |s|);
      StringDeleteConsumed(snapshot, path, s, idx, length);
      r := ConsumeAndSubmit(path, JStr(s), Text(op));
    }

    /** `JNumber.add(num)`: a number op, consumed and submitted; a zero delta changes nothing. */
    method NumberAdd(path: string, n: int, num: int) returns (r: Outcome)
      requires HoldsAt(path, JNum(n))
      modifies this
      ensures r.Pass? <==> num == 0 || Written(old(snapshot), path, JNum(n + num)).Ok?
      ensures r.Pass? ==>
        snapshot == (if num == 0 then old(snapshot) else Written(old(snapshot), path, JNum(n + num)).value)
        && submitted == old(submitted) + old(Submission(path, Number(num)))
      ensures r.Fail? ==> submitted == old(submitted)
      ensures hasSink == old(hasSink) && hasRegistry == old(hasRegistry)
    {
      NumberAddConsumed(snapshot, path, n, num);
      r := ConsumeNumber(path, n, Number(num));
      if r.Pass? {
        SubmitOp(JsonOp(Some(path), Number(num)));
      }
    }

    /**
     * `JArray.insert(idx, value)`: an array op inserting one value (a Java null becomes a JSON
     * null), consumed in place and submitted.
     */
    method ArrayInsert(path: string, items: seq<Json>, idx: nat, value: Option<Json>) returns (r: Outcome)
      requires HoldsAt(path, JArr(items))
      modifies this
      ensures r.Pass? <==> idx <= |items|
      ensures var v := JsonUtil.ToJsonValue(value);
        r.Pass? ==> InPlace(old(snapshot), path, JArr(items[..idx] + [v] + items[idx..])) == Ok(snapshot)
                    && submitted == old(submitted) + old(Submission(path, Op.Elements(SingleEdit(true, idx, [v], |items|))))
      ensures r.Fail? ==> submitted == old(submitted)
      ensures hasSink == old(hasSink) && hasRegistry == old(hasRegistry)
    {
      LookupNavigates(snapshot, path);
      var v := JsonUtil.ToJsonValue(value);
      var op := Op.Elements(SingleEdit(true, idx, [v], |items|));
      ArrayInsertConsumed(snapshot, path, items, idx, v);
      r := ConsumeArray(path, items, op);
      if r.Pass? {
        SubmitOp(JsonOp(Some(path), op));
      }
    }

    /**
     * `JArray.remove(idx, length)`: the removed values are read one by one into a list, then an
     * array op deleting them is consumed in place and submitted.
     */
    method ArrayRemove(path: string, items: seq<Json>, idx: nat, length: int) returns (r: Outcome)
      requires HoldsAt(path, JArr(items))
      modifies this
      ensures r.Pass? <==> length > 0 && idx + length <= |items|
      ensures length <= 0 ==> r == Fail(AssertionFailed)
      ensures length > 0 && idx + length > |items| ==> r == Fail(IndexOutOfBounds)
      ensures r.Pass? ==>
        InPlace(old(snapshot), path, JArr(items[..idx] + items[idx + length..])) == Ok(snapshot)
        && submitted == old(submitted)
           + old(Submission(path, Op.Elements(SingleEdit(false, idx, items[idx..idx + length], |items|))))
      ensures r.Fail? ==> submitted == old(submitted) && snapshot == old(snapshot)
      ensures hasSink == old(hasSink) && hasRegistry == old(hasRegistry)
    {
      if length <= 0 {
        return Fail(AssertionFailed);
      }
      var copied := CopyRange(items, idx, length);
      if copied.None? {
        return Fail(IndexOutOfBounds);
      }
      var list := copied.value;
      var op := Op.Elements(SingleEdit(false, idx, list, |items|));
      LookupNavigates(snapshot, path);
      ArrayRemoveConsumed(snapshot, path, items, idx, length);
      r := ConsumeArray(path, items, op);
      if r.Pass? {
        SubmitOp(JsonOp(Some(path), op));
      }
    }

    /**
     * `JObject.put(key, value)`: after `checkKey`, the op `update(key, current, value)` is
     * consumed in place and submitted; a Java null is stored as JSON null.
     */
    method ObjectPut(path: string, fields: map<string, Json>, key: string, value: Option<Json>)
      returns (r: Outcome)
      requires HoldsAt(path, JObj(fields))
      modifies this
      ensures r.Pass? <==> Paths.IsValidKey(key)
      ensures r.Fail? ==> r.error == AssertionFailed && snapshot == old(snapshot) && submitted == old(submitted)
      ensures var v := JsonUtil.ToJsonValue(value);
        r.Pass? ==> InPlace(old(snapshot), path, JObj(fields[key := v])) == Ok(snapshot)
                    && submitted == old(submitted) + old(Submission(path, Object(PutOp(fields, key, v))))
      ensures hasSink == old(hasSink) && hasRegistry == old(hasRegistry)
    {
      if !Paths.IsValidKey(key) {
        return Fail(AssertionFailed);
      }
      var v := JsonUtil.ToJsonValue(value);
      var op := Object(PutOp(fields, key, v));
      LookupNavigates(snapshot, path);
      ObjectPutConsumed(snapshot, path, fields, key, v);
      r := ConsumeObject(path, fields, op);
      if r.Pass? {
        SubmitOp(JsonOp(Some(path), op));
      }
    }

    /**
     * `JObject.remove(key)`: an absent key changes nothing and submits nothing; a present key
     * is removed by the op `update(key, current, null)`, consumed in place and submitted.
     */
    method ObjectRemove(path: string, fields: map<string, Json>, key: string) returns (r: Outcome)
      requires HoldsAt(path, JObj(fields))
      modifies this
      ensures r.Pass?
      ensures key !in fields ==> snapshot == old(snapshot) && submitted == old(submitted)
      ensures key in fields ==>
        InPlace(old(snapshot), path, JObj(fields - {key})) == Ok(snapshot)
        && submitted == old(submitted) + old(Submission(path, Object(RemoveOp(fields, key))))
      ensures hasSink == old(hasSink) && hasRegistry == old(hasRegistry)
    {
      if key !in fields {
        return Pass;
      }
      var op := Object(RemoveOp(fields, key));
      LookupNavigates(snapshot, path);
      ObjectRemoveConsumed(snapshot, path, fields, key);
      r := ConsumeObject(path, fields, op);
      SubmitOp(JsonOp(Some(path), op));
    }

    /**
     * `JNull.asArray`, `asObject`, `asString` and `asNumber`: the replace op from JSON null to
     * the empty value `x` is consumed and submitted; the new wrapper keeps the path.
     */
    method NullAs(path: string, x: Json) returns (r: Outcome)
      requires HoldsAt(path, JNull)
      requires x == JArr([]) || x == JObj(map[]) || x == JStr("") || x == JNum(0)
      modifies this
      ensures r.Pass? <==> Written(old(snapshot), path, x).Ok?
      ensures r.Pass? ==>
        snapshot == Written(old(snapshot), path, x).value
        && submitted == old(submitted) + old(Submission(path, Replace(ReplaceOps.Fresh(Some(JNull), Some(x)))))
      ensures r.Fail? ==> submitted == old(submitted)
      ensures hasSink == old(hasSink) && hasRegistry == old(hasRegistry)
    {
      var op := Replace(ReplaceOps.Fresh(Some(JNull), Some(x)));
      NullReplaceConsumed(snapshot, path, x);
      r := ConsumeNull(path, op);
      if r.Pass? {
        SubmitOp(JsonOp(Some(path), op));
      }
    }

    /**
     * The wrapper of a JSON null reached by `get` from a container, turned into `x`: a missing
     * value is a null reference and any other value fails the cast to `JNull`.
     */
    method ChildNullAs(child: string, x: Json) returns (r: Result<string>)
      requires x == JArr([]) || x == JObj(map[]) || x == JStr("") || x == JNum(0)
      modifies this
      ensures Lookup(old(snapshot), child).Err? ==> r == Err(Lookup(old(snapshot), child).error)
      ensures Lookup(old(snapshot), child) == Ok(None) ==> r == Err(NullPointer)
      ensures Found(Lookup(old(snapshot), child)) && Lookup(old(snapshot), child).value.value != JNull ==>
        r == Err(Runtime)
      ensures Lookup(old(snapshot), child) == Ok(Some(JNull)) ==>
        (r.Ok? <==> Written(old(snapshot), child, x).Ok?)
      ensures r.Ok? ==>
        r.value == child && Written(old(snapshot), child, x).Ok?
        && snapshot == Written(old(snapshot), child, x).value
        && submitted == old(submitted) + old(Submission(child, Replace(ReplaceOps.Fresh(Some(JNull), Some(x)))))
      ensures r.Err? ==> submitted == old(submitted)
      ensures hasSink == old(hasSink) && hasRegistry == old(hasRegistry)
    {
      var found := Get(child);
      if found.Err? {
        return Err(found.error);
      }
      if found.value.None? {
        return Err(NullPointer);
      }
      if found.value.value != JNull {
        return Err(Runtime);
      }
      var done := NullAs(child, x);
      if done.Fail? {
        return Err(done.error);
      }
      return Ok(child);
    }

    /**
     * `JArray.asArray(idx)` and `asObject(idx)`: at the length an empty container `x` is
     * appended; a JSON null at `idx` is turned into `x`; any other value is left as it is. The
     * result is the path of the wrapper returned.
     */
    method ArrayAsContainer(path: string, items: seq<Json>, idx: int32, x: Json) returns (r: Result<string>)
      requires HoldsAt(path, JArr(items))
      requires x == JArr([]) || x == JObj(map[])
      modifies this
      ensures idx as int > |items| ==> r == Err(AssertionFailed)
      ensures idx < 0 ==> r == Err(IndexOutOfBounds)
      ensures r.Err? ==> submitted == old(submitted)
      ensures idx as int > |items| || idx < 0 ==> snapshot == old(snapshot)
      ensures idx as int == |items| ==>
        r == Ok(Paths.AtIndex(path, idx))
        && InPlace(old(snapshot), path, JArr(items + [x])) == Ok(snapshot)
        && submitted == old(submitted) + old(Submission(path, Op.Elements(SingleEdit(true, |items|, [x], |items|))))
      ensures 0 <= idx as int < |items| && items[idx] != JNull ==>
        r == Ok(Paths.AtIndex(path, idx)) && snapshot == old(snapshot) && submitted == old(submitted)
      ensures 0 <= idx as int < |items| && items[idx] == JNull && r.Ok? ==>
        r.value == Paths.AtPath(path, Paths.AtIndex("", idx)) && Written(old(snapshot), r.value, x).Ok?
        && snapshot == Written(old(snapshot), r.value, x).value
      ensures hasSink == old(hasSink) && hasRegistry == old(hasRegistry)
    {
      if idx as int > |items| {
        return Err(AssertionFailed);
      }
      if idx as int == |items| {
        var done := ArrayInsert(path, items, idx as nat, Some(x));
        assert items[..idx] + [x] + items[idx..] == items + [x];
        return Ok(Paths.AtIndex(path, idx));
      }
      if idx < 0 {
        return Err(IndexOutOfBounds);
      }
      if items[idx] == JNull {
        r := ChildNullAs(Paths.AtPath(path, Paths.AtIndex("", idx)), x);
        return;
      }
      return Ok(Paths.AtIndex(path, idx));
    }

    /**
     * `JObject.asArray(key)` and `asObject(key)`: an absent key is put with the empty
     * container `x`; a JSON null under the key is turned into `x`; any other value is left as
     * it is. The result is the path of the wrapper returned.
     */
    method ObjectAsContainer(path: string, fields: map<string, Json>, key: string, x: Json)
      returns (r: Result<string>)
      requires HoldsAt(path, JObj(fields))
      requires x == JArr([]) || x == JObj(map[])
      modifies this
      ensures key !in fields ==> (r.Ok? <==> Paths.IsValidKey(key))
      ensures key !in fields && r.Ok? ==>
        r == Paths.AtKey(path, key)
        && InPlace(old(snapshot), path, JObj(fields[key := x])) == Ok(snapshot)
        && submitted == old(submitted) + old(Submission(path, Object(PutOp(fields, key, x))))
      ensures key in fields && fields[key] != JNull ==>
        r == Paths.AtKey(path, key) && snapshot == old(snapshot) && submitted == old(submitted)
      ensures key in fields && fields[key] == JNull && r.Ok? ==>
        r.value == Paths.AtPath(path, key) && Written(old(snapshot), r.value, x).Ok?
        && snapshot == Written(old(snapshot), r.value, x).value
      ensures r.Err? ==> submitted == old(submitted)
      ensures hasSink == old(hasSink) && hasRegistry == old(hasRegistry)
    {
      if key !in fields {
        var done := ObjectPut(path, fields, key, Some(x));
        if done.Fail? {
          return Err(done.error);
        }
        return Paths.AtKey(path, key);
      }
      if fields[key] == JNull {
        r := ChildNullAs(Paths.AtPath(path, key), x);
        return;
      }
      return Paths.AtKey(path, key);
    }
  }

  /**
   * One `.`-separated segment of `Context.get`: the object member before the first `[`, then
   * each `[i]` step into an array.
   */
  method GetSegment(v: Json, subPath: string) returns (r: Result<Option<Json>>)
    ensures r == SegmentGet(v, subPath)
  {
    var toRtn := v;
    var idx := FirstOf(subPath, {'['});
    if idx == |subPath| {
      if !toRtn.JObj? {
        return Err(AssertionFailed);
      }
      if subPath !in toRtn.fields {
        return Ok(None);
      }
      return Ok(Some(toRtn.fields[subPath]));
    }
    if idx != 0 {
      if !toRtn.JObj? {
        return Err(AssertionFailed);
      }
      if subPath[..idx] !in toRtn.fields {
        return Ok(None);
      }
      toRtn := toRtn.fields[subPath[..idx]];
    }
    var split := Split(subPath[idx..], {'[', ']'});
    if |split| <= 1 || |split| % 2 != 0 {
      return Err(AssertionFailed);
    }
    ghost var base := toRtn;
    var j := 1;
    while j < |split|
      invariant j >= 1
      invariant IndexSteps(base, split, 1) == IndexSteps(toRtn, split, j)
    {
      if split[j - 1] != "" {
        return Err(AssertionFailed);
      }
      if !toRtn.JArr? {
        return Err(AssertionFailed);
      }
      var n := ParseInt(split[j]);
      if n.Err? {
        return Err(n.error);
      }
      if !(0 <= n.value as int < |toRtn.items|) {
        return Err(IndexOutOfBounds);
      }
      toRtn := toRtn.items[n.value];
      j := j + 2;
    }
    return Ok(Some(toRtn));
  }

  /**
   * The walk of a string op over an array's callbacks, or of an array op over a string's:
   * retains pass, and the first insert or delete fails its callback's argument cast.
   */
  method ForeignWalk<T>(op: ListOp<T>) returns (r: Outcome)
    ensures r.Pass? <==> ListIsNoOp(op)
    ensures r.Fail? ==> r.error == Runtime
  {
    var i := 0;
    while i < |op|
      invariant 0 <= i <= |op| && ListIsNoOp(op[..i])
    {
      if !op[i].Retain? {
        return Fail(Runtime);
      }
      NoOpPrefix(op, i);
      i := i + 1;
    }
    assert op[..|op|] == op;
    return Pass;
  }
}
