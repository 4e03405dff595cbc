/**
 * The JSON document that JSON ops apply to. A `Context` holds the snapshot, the JSON value of
 * the whole document, and finds values in it by path (`get`) or writes them (`setValue`);
 * the wrappers `JNull`, `JNumber`, `JString`, `JArray` and `JObject` are a context and a
 * path, and apply ops to the value found there (`doConsume`).
 *
 * Elemental's arrays and objects are mutable and the snapshot holds them by reference: an
 * in-place edit of the array or object found at a path is an edit of the document. Here the
 * snapshot is a value, and such an edit rebuilds the document along that path (`Overwrite`).
 */
module Documents {
  import opened Wrappers
  import opened Json
  import opened Decimal
  import Paths
  import ListOps
  import MapOps
  import ReplaceOps
  import JsonUtil
  import opened Ops

  // ---------------------------------------------------------------------------------------
  // String.split with a regular expression that matches one separator character

  /** The first position holding a separator, or `|s|` when there is none. */
  function FirstOf(s: string, seps: set<char>): (r: nat)
    ensures r <= |s|
    ensures r < |s| ==> s[r] in seps
    ensures forall k | 0 <= k < r :: s[k] !in seps
  {
    if |s| == 0 then 0
    else if s[0] in seps then 0
    else 1 + FirstOf(s[1..], seps)
  }

  /** The texts between separators, empty ones included. */
  function Pieces(s: string, seps: set<char>): (r: seq<string>)
    ensures |r| > 0
    decreases |s|
  {
    var i := FirstOf(s, seps);
    if i == |s| then [s] else [s[..i]] + Pieces(s[i + 1..], seps)
  }

  function DropTrailingEmpty(ss: seq<string>): (r: seq<string>)
    ensures |r| <= |ss| && r == ss[..|r|]
    ensures |r| > 0 ==> r[|r| - 1] != ""
  {
    if |ss| > 0 && ss[|ss| - 1] == "" then DropTrailingEmpty(ss[..|ss| - 1]) else ss
  }

  /**
   * `s.split(regex)`: the whole string when no separator occurs; otherwise the pieces with
   * the trailing empty ones removed.
   */
  function Split(s: string, seps: set<char>): seq<string>
  {
    if FirstOf(s, seps) == |s| then [s] else DropTrailingEmpty(Pieces(s, seps))
  }

  // ---------------------------------------------------------------------------------------
  // Context.get

  /** `((JsonObject) v).get(key)` after the `instanceof` assertion; none for an absent key. */
  function ObjectGet(v: Json, key: string): Result<Option<Json>>
  {
    if !v.JObj? then Err(AssertionFailed)
    else Ok(if key in v.fields then Some(v.fields[key]) else None)
  }

  /**
   * `((JsonArray) v).get(Integer.parseInt(text))` after the `instanceof` assertion. An
   * elemental array never holds a Java null; an index outside it throws.
   */
  function ArrayGet(v: Json, text: string): Result<Json>
  {
    if !v.JArr? then Err(AssertionFailed)
    else
      var i :- ParseInt(text);
      if 0 <= i as int < |v.items| then Ok(v.items[i]) else Err(IndexOutOfBounds)
  }

  /** The `[i]` steps of one segment: `split` is `["", i, "", j, ...]`, read from piece `i`. */
  function IndexSteps(v: Json, split: seq<string>, i: nat): Result<Option<Json>>
    requires i >= 1
    decreases |split| - i
  {
    if i >= |split| then Ok(Some(v))
    else if split[i - 1] != "" then Err(AssertionFailed)
    else
      var w :- ArrayGet(v, split[i]);
      IndexSteps(w, split, i + 2)
  }

  /** One `.`-separated segment: an object key, optionally followed by `[i]` steps. */
  function SegmentGet(v: Json, seg: string): Result<Option<Json>>
  {
    var idx := FirstOf(seg, {'['});
    if idx == |seg| then ObjectGet(v, seg)
    else
      var base :- if idx == 0 then Ok(Some(v)) else ObjectGet(v, seg[..idx]);
      if base.None? then Ok(None)
      else
        var split := Split(seg[idx..], {'[', ']'});
        if |split| <= 1 || |split| % 2 != 0 then Err(AssertionFailed)
        else IndexSteps(base.value, split, 1)
  }

  /** The segments from `i` on, each from the value the previous one found. */
  function WalkSegments(v: Json, segs: seq<string>, i: nat): Result<Option<Json>>
    decreases |segs| - i
  {
    if i >= |segs| then Ok(Some(v))
    else
      var next :- SegmentGet(v, segs[i]);
      if next.None? then Ok(None) else WalkSegments(next.value, segs, i + 1)
  }

  /** `Context.get(path)` on the snapshot `doc`; none stands for the Java null it returns. */
  function Lookup(doc: Json, path: string): Result<Option<Json>>
  {
    if path == "" then Ok(Some(doc)) else WalkSegments(doc, Split(path, {'.'}), 0)
  }

  // ---------------------------------------------------------------------------------------
  // The steps a path names, and navigation by steps

  datatype Step = Key(key: string) | Index(index: int)

  /** The steps the `[i]` pieces of a segment name, read as `IndexSteps` reads them. */
  function ParseIndices(split: seq<string>, i: nat): Result<seq<Step>>
    requires i >= 1
    decreases |split| - i
  {
    if i >= |split| then Ok([])
    else if split[i - 1] != "" then Err(AssertionFailed)
    else
      var n :- ParseInt(split[i]);
      var rest :- ParseIndices(split, i + 2);
      Ok([Index(n as int)] + rest)
  }

  /** The steps one segment names, read as `SegmentGet` reads it. */
  function ParseSegment(seg: string): Result<seq<Step>>
  {
    var idx := FirstOf(seg, {'['});
    if idx == |seg| then Ok([Key(seg)])
    else
      var base := if idx == 0 then [] else [Key(seg[..idx])];
      var split := Split(seg[idx..], {'[', ']'});
      if |split| <= 1 || |split| % 2 != 0 then Err(AssertionFailed)
      else
        var rest :- ParseIndices(split, 1);
        Ok(base + rest)
  }

  function ParseSegments(segs: seq<string>, i: nat): Result<seq<Step>>
    decreases |segs| - i
  {
    if i >= |segs| then Ok([])
    else
      var first :- ParseSegment(segs[i]);
      var rest :- ParseSegments(segs, i + 1);
      Ok(first + rest)
  }

  /** The steps a path names, when it is well formed. */
  function ParsePath(path: string): Result<seq<Step>>
  {
    if path == "" then Ok([]) else ParseSegments(Split(path, {'.'}), 0)
  }

  /** Following steps from `v`: a key absent from its object gives none. */
  function Navigate(v: Json, steps: seq<Step>): Result<Option<Json>>
  {
    if |steps| == 0 then Ok(Some(v))
    else
      match steps[0]
      case Key(k) =>
        if !v.JObj? then Err(AssertionFailed)
        else if k in v.fields then Navigate(v.fields[k], steps[1..])
        else Ok(None)
      case Index(i) =>
        if !v.JArr? then Err(AssertionFailed)
        else if 0 <= i < |v.items| then Navigate(v.items[i], steps[1..])
        else Err(IndexOutOfBounds)
  }

  /** Navigation that continues from what an earlier navigation found. */
  function Continue(found: Result<Option<Json>>, steps: seq<Step>): Result<Option<Json>>
  {
    if found.Ok? && found.value.Some? then Navigate(found.value.value, steps) else found
  }

  lemma {:induction false} NavigateAppend(v: Json, a: seq<Step>, b: seq<Step>)
    ensures Navigate(v, a + b) == Continue(Navigate(v, a), b)
    decreases |a|
  {
    if |a| > 0 {
      assert (a + b)[0] == a[0] && (a + b)[1..] == a[1..] + b;
      match a[0]
      case Key(k) =>
        if v.JObj? && k in v.fields {
          NavigateAppend(v.fields[k], a[1..], b);
        }
      case Index(i) =>
        if v.JArr? && 0 <= i < |v.items| {
          NavigateAppend(v.items[i], a[1..], b);
        }
    } else {
      assert a + b == b;
    }
  }

  lemma {:induction false} IndexStepsNavigate(v: Json, split: seq<string>, i: nat)
    requires i >= 1
    ensures ParseIndices(split, i).Ok? ==>
      IndexSteps(v, split, i) == Navigate(v, ParseIndices(split, i).value)
    ensures IndexSteps(v, split, i).Ok? && IndexSteps(v, split, i).value.Some? ==>
      ParseIndices(split, i).Ok?
    decreases |split| - i
  {
    if i < |split| && split[i - 1] == "" && v.JArr? {
      var n := ParseInt(split[i]);
      if n.Ok? {
        if 0 <= n.value as int < |v.items| {
          IndexStepsNavigate(v.items[n.value], split, i + 2);
        }
        var rest := ParseIndices(split, i + 2);
        if rest.Ok? {
          var steps := [Index(n.value as int)] + rest.value;
          assert steps[1..] == rest.value;
        }
      }
    }
  }

  lemma SegmentNavigate(v: Json, seg: string)
    ensures ParseSegment(seg).Ok? ==> SegmentGet(v, seg) == Navigate(v, ParseSegment(seg).value)
    ensures SegmentGet(v, seg).Ok? && SegmentGet(v, seg).value.Some? ==> ParseSegment(seg).Ok?
  {
    var idx := FirstOf(seg, {'['});
    if idx < |seg| {
      var split := Split(seg[idx..], {'[', ']'});
      if |split| > 1 && |split| % 2 == 0 {
        var base := if idx == 0 then Ok(Some(v)) else ObjectGet(v, seg[..idx]);
        if base.Ok? && base.value.Some? {
          IndexStepsNavigate(base.value.value, split, 1);
        }
        var rest := ParseIndices(split, 1);
        if rest.Ok? && idx > 0 {
          NavigateAppend(v, [Key(seg[..idx])], rest.value);
          assert Navigate(v, [Key(seg[..idx])]) == base by {
            assert [Key(seg[..idx])][1..] == [];
          }
        } else if rest.Ok? {
          assert [] + rest.value == rest.value;
        }
      }
    } else {
      assert [Key(seg)][1..] == [];
    }
  }

  lemma {:induction false} WalkNavigate(v: Json, segs: seq<string>, i: nat)
    ensures ParseSegments(segs, i).Ok? ==>
      WalkSegments(v, segs, i) == Navigate(v, ParseSegments(segs, i).value)
    ensures WalkSegments(v, segs, i).Ok? && WalkSegments(v, segs, i).value.Some? ==>
      ParseSegments(segs, i).Ok?
    decreases |segs| - i
  {
    if i < |segs| {
      SegmentNavigate(v, segs[i]);
      var next := SegmentGet(v, segs[i]);
      if next.Ok? && next.value.Some? {
        WalkNavigate(next.value.value, segs, i + 1);
      }
      var first := ParseSegment(segs[i]);
      var rest := ParseSegments(segs, i + 1);
      if first.Ok? && rest.Ok? {
        NavigateAppend(v, first.value, rest.value);
      }
    }
  }

  /**
   * `get` follows the steps its path names: for a well-formed path it finds what navigation
   * by those steps finds, and it finds a value only on a well-formed path.
   */
  lemma LookupNavigates(doc: Json, path: string)
    ensures ParsePath(path).Ok? ==> Lookup(doc, path) == Navigate(doc, ParsePath(path).value)
    ensures Lookup(doc, path).Ok? && Lookup(doc, path).value.Some? ==> ParsePath(path).Ok?
  {
    if path != "" {
      WalkNavigate(doc, Split(path, {'.'}), 0);
    }
  }

  // ---------------------------------------------------------------------------------------
  // Writing into the document

  /** The document with the value that `steps` reach replaced by `x`. */
  function Overwrite(v: Json, steps: seq<Step>, x: Json): Json
  {
    if |steps| == 0 then x
    else
      match steps[0]
      case Key(k) =>
        if v.JObj? && k in v.fields then JObj(v.fields[k := Overwrite(v.fields[k], steps[1..], x)])
        else v
      case Index(i) =>
        if v.JArr? && 0 <= i < |v.items| then JArr(v.items[i := Overwrite(v.items[i], steps[1..], x)])
        else v
  }

  predicate Found(r: Result<Option<Json>>) { r.Ok? && r.value.Some? }

  /** After an overwrite the same steps reach the new value. */
  lemma {:induction false} NavigateOverwrite(v: Json, steps: seq<Step>, x: Json)
    requires Found(Navigate(v, steps))
    ensures Navigate(Overwrite(v, steps, x), steps) == Ok(Some(x))
    decreases |steps|
  {
    if |steps| > 0 {
      match steps[0]
      case Key(k) => NavigateOverwrite(v.fields[k], steps[1..], x);
      case Index(i) => NavigateOverwrite(v.items[i], steps[1..], x);
    }
  }

  /** A second overwrite at the same steps replaces the first. */
  lemma {:induction false} OverwriteTwice(v: Json, steps: seq<Step>, x: Json, y: Json)
    requires Found(Navigate(v, steps))
    ensures Overwrite(Overwrite(v, steps, x), steps, y) == Overwrite(v, steps, y)
    decreases |steps|
  {
    if |steps| > 0 {
      match steps[0]
      case Key(k) => OverwriteTwice(v.fields[k], steps[1..], x, y);
      case Index(i) => OverwriteTwice(v.items[i], steps[1..], x, y);
    }
  }

  /** Overwriting a value with itself changes nothing. */
  lemma {:induction false} OverwriteSame(v: Json, steps: seq<Step>)
    requires Found(Navigate(v, steps))
    ensures Overwrite(v, steps, Navigate(v, steps).value.value) == v
    decreases |steps|
  {
    if |steps| > 0 {
      match steps[0]
      case Key(k) =>
        OverwriteSame(v.fields[k], steps[1..]);
        assert v.fields[k := v.fields[k]] == v.fields;
      case Index(i) =>
        OverwriteSame(v.items[i], steps[1..]);
        assert v.items[i := v.items[i]] == v.items;
    }
  }

  /** Elemental's `JsonArray.set`: at the length it appends, inside it replaces. */
  function ArraySet(items: seq<Json>, i: int, x: Json): (r: Result<seq<Json>>)
    ensures r.Ok? <==> 0 <= i <= |items|
    ensures r.Ok? ==>
      |r.value| == (if i == |items| then i + 1 else |items|)
      && r.value[i] == x && (forall k | 0 <= k < |items| && k != i :: r.value[k] == items[k])
  {
    if i == |items| then Ok(items + [x])
    else if 0 <= i < |items| then Ok(items[i := x])
    else Err(IndexOutOfBounds)
  }

  /** The parent value `parent` with the last step of `path` set to `x`. */
  function WriteChild(parent: Json, path: string, x: Json): Result<Json>
  {
    if Paths.IsIndexed(path) then
      if !parent.JArr? then Err(Runtime)
      else
        var i :- Paths.GetIndex(path);
        var items :- ArraySet(parent.items, i as int, x);
        Ok(JArr(items))
    else if !parent.JObj? then Err(Runtime)
    else
      var k :- Paths.GetKey(path);
      Ok(JObj(parent.fields[k := x]))
  }

  /** Writing the same child twice keeps only the second value. */
  lemma WriteChildTwice(parent: Json, path: string, x: Json, y: Json)
    requires WriteChild(parent, path, x).Ok?
    ensures WriteChild(WriteChild(parent, path, x).value, path, y) == WriteChild(parent, path, y)
  {
    if Paths.IsIndexed(path) {
      var i := Paths.GetIndex(path).value as int;
      var items := parent.items;
      if i == |items| {
        assert (items + [x])[i := y] == items + [y];
      } else {
        assert items[i := x][i := y] == items[i := y];
      }
    } else if parent.JObj? && Paths.GetKey(path).Ok? {
      var k := Paths.GetKey(path).value;
      assert parent.fields[k := x][k := y] == parent.fields[k := y];
    }
  }

  /**
   * `Context.setValue(path, x)`: the root path replaces the snapshot; otherwise the parent
   * must exist and gets `x` at the path's last index or key, in place.
   */
  function Written(doc: Json, path: string, x: Json): Result<Json>
  {
    var parentPath :- Paths.GetParent(path);
    match parentPath
    case None => Ok(x)
    case Some(parent) =>
      var found :- Lookup(doc, parent);
      if found.None? then Err(AssertionFailed)
      else
        var child :- WriteChild(found.value, path, x);
        var steps :- ParsePath(parent);
        Ok(Overwrite(doc, steps, child))
  }

  /** A second `setValue` at the same path replaces the first. */
  lemma WrittenTwice(doc: Json, path: string, x: Json, y: Json)
    requires Written(doc, path, x).Ok?
    ensures Written(Written(doc, path, x).value, path, y) == Written(doc, path, y)
  {
    var parent := Paths.GetParent(path);
    if parent.Ok? && parent.value.Some? {
      var p := parent.value.value;
      LookupNavigates(doc, p);
      var steps := ParsePath(p).value;
      var pv := Lookup(doc, p).value.value;
      var child := WriteChild(pv, path, x).value;
      var d1 := Overwrite(doc, steps, child);
      LookupNavigates(d1, p);
      NavigateOverwrite(doc, steps, child);
      WriteChildTwice(pv, path, x, y);
      var second := WriteChild(pv, path, y);
      if second.Ok? {
        OverwriteTwice(doc, steps, child, second.value);
      }
    }
  }

  /** A `setValue` after an earlier one at the same path acts as if only it had been made. */
  lemma WrittenAfter(doc: Json, path: string, prev: Json, current: Json, written: bool, y: Json)
    requires !written ==> current == doc
    requires written ==> Written(doc, path, prev) == Ok(current)
    ensures Written(current, path, y) == Written(doc, path, y)
  {
    if written {
      WrittenTwice(doc, path, prev, y);
    }
  }

  /** Whether a `setValue` succeeds does not depend on the value written. */
  lemma WrittenOkIndependent(doc: Json, path: string, x: Json, y: Json)
    ensures Written(doc, path, x).Ok? <==> Written(doc, path, y).Ok?
  {
    var parent := Paths.GetParent(path);
    if parent.Ok? && parent.value.Some? {
      var found := Lookup(doc, parent.value.value);
      if found.Ok? && found.value.Some? {
        WriteChildOkIndependent(found.value.value, path, x, y);
      }
    }
  }

  lemma WriteChildOkIndependent(parent: Json, path: string, x: Json, y: Json)
    ensures WriteChild(parent, path, x).Ok? <==> WriteChild(parent, path, y).Ok?
  {
  }

  /** An in-place edit of the array or object found at `path`. */
  function InPlace(doc: Json, path: string, x: Json): Result<Json>
  {
    var steps :- ParsePath(path);
    Ok(Overwrite(doc, steps, x))
  }

  // ---------------------------------------------------------------------------------------
  // Applying ops: JValue.consume and the doConsume of each wrapper

  /**
   * The update callback of `JObject`: the change must be one the object accepts, and a key
   * it puts must pass `checkKey`.
   */
  predicate ObjectAccepts(fields: map<string, Json>, k: string, c: MapOps.Change)
  {
    MapOps.Accepts(fields, k, c) && (c.newValue.Some? ==> Paths.IsValidKey(k))
  }

  /** An object op applied to the members of a `JObject`. */
  function ObjectApply(fields: map<string, Json>, m: MapOps.Components): Result<map<string, Json>>
  {
    if forall k | k in m :: ObjectAccepts(fields, k, m[k]) then Ok(MapOps.Applied(fields, m))
    else Err(MapOps.Refusal(fields, m))
  }

  /**
   * The keys of an object op are independent: before key `k` is applied the object still
   * holds `k`'s original value, and applying it sets or removes that one key.
   */
  lemma ObjectApplyStep(fields: map<string, Json>, m: MapOps.Components, done: set<string>, k: string)
    requires done <= m.Keys && k in m && k !in done
    ensures var cur := MapOps.Applied(fields, MapOps.Restrict(m, done));
      MapOps.Lookup(cur, k) == MapOps.Lookup(fields, k)
      && MapOps.Applied(fields, MapOps.Restrict(m, done + {k})) ==
        (if m[k].newValue.None? then cur - {k} else cur[k := m[k].newValue.value])
  {
    var cur := MapOps.Applied(fields, MapOps.Restrict(m, done));
    var next := MapOps.Applied(fields, MapOps.Restrict(m, done + {k}));
    var expected := if m[k].newValue.None? then cur - {k} else cur[k := m[k].newValue.value];
    forall key ensures MapOps.Lookup(next, key) == MapOps.Lookup(expected, key) {
      MapOps.LookupApplied(fields, MapOps.Restrict(m, done + {k}), key);
      MapOps.LookupApplied(fields, MapOps.Restrict(m, done), key);
    }
    MapOps.LookupApplied(fields, MapOps.Restrict(m, done), k);
    SameMembers(next, expected);
  }

  /** Before any key is applied the object is unchanged. */
  lemma AppliedNothing(fields: map<string, Json>, m: MapOps.Components)
    ensures MapOps.Applied(fields, MapOps.Restrict(m, {})) == fields
  {
    forall key ensures MapOps.Lookup(MapOps.Applied(fields, MapOps.Restrict(m, {})), key) == MapOps.Lookup(fields, key) {
      MapOps.LookupApplied(fields, MapOps.Restrict(m, {}), key);
    }
    SameMembers(MapOps.Applied(fields, MapOps.Restrict(m, {})), fields);
  }

  /** Two objects with the same lookups are equal. */
  lemma SameMembers(a: map<string, Json>, b: map<string, Json>)
    requires forall key :: MapOps.Lookup(a, key) == MapOps.Lookup(b, key)
    ensures a == b
  {
    forall key | key in a ensures key in b && a[key] == b[key] {
      assert MapOps.Lookup(a, key) == MapOps.Lookup(b, key);
    }
    forall key | key in b ensures key in a {
      assert MapOps.Lookup(a, key) == MapOps.Lookup(b, key);
    }
  }

  /**
   * `JNull.doConsume`: a replace op; unless it is the no-op, its callback asserts that the old
   * value is JSON null and stores the new one (a Java null as JSON null).
   */
  function NullConsumed(doc: Json, path: string, op: Op): Result<Json>
  {
    if !op.Replace? then Err(AssertionFailed)
    else if op.replacement.IsNoOp() then Ok(doc)
    else if op.replacement.oldValue != Some(JNull) then Err(AssertionFailed)
    else Written(doc, path, JsonUtil.ToJsonValue(op.replacement.newValue))
  }

  /** `JNumber.doConsume`: a number op; a non-zero delta writes the sum back. */
  function NumberConsumed(doc: Json, path: string, n: int, op: Op): Result<Json>
  {
    if !op.Number? then Err(AssertionFailed)
    else if op.delta == 0 then Ok(doc)
    else Written(doc, path, JNum(n + op.delta))
  }

  /**
   * `JString.doConsume`: a list op walked over the text, written back unless it only retains.
   * An array op passes the `ListOp` check and fails at its first insert or delete.
   */
  function StringConsumed(doc: Json, path: string, s: string, op: Op): Result<Json>
  {
    if op.Elements? then (if ListIsNoOp(op.elements) then Ok(doc) else Err(Runtime))
    else if !op.Text? then Err(AssertionFailed)
    else
      var t :- ListOps.Apply(op.text, s, ListOps.ModelText);
      if ListIsNoOp(op.text) then Ok(doc) else Written(doc, path, JStr(t))
  }

  /**
   * `JArray.doConsume`: a list op walked over the elements, changed in place. A string op
   * passes the `ListOp` check and fails at its first insert or delete.
   */
  function ArrayConsumed(doc: Json, path: string, items: seq<Json>, op: Op): Result<Json>
  {
    if op.Text? then (if ListIsNoOp(op.text) then Ok(doc) else Err(Runtime))
    else if !op.Elements? then Err(AssertionFailed)
    else
      var t :- ListOps.Apply(op.elements, items, ListOps.Elements);
      InPlace(doc, path, JArr(t))
  }

  /** `JObject.doConsume`: an object op applied to the members, in place. */
  function ObjectConsumed(doc: Json, path: string, fields: map<string, Json>, op: Op): Result<Json>
  {
    if !op.Object? then Err(AssertionFailed)
    else
      var g :- ObjectApply(fields, op.components);
      InPlace(doc, path, JObj(g))
  }

  /** `doConsume(op)` of the wrapper `ctx.at(path)` creates for the value `cur` at `path`. */
  function DoConsumed(doc: Json, path: string, cur: Json, op: Op): Result<Json>
  {
    match cur
    case JNull => NullConsumed(doc, path, op)
    case JBool(_) => Err(Unsupported)
    case JNum(n) => NumberConsumed(doc, path, n, op)
    case JStr(s) => StringConsumed(doc, path, s, op)
    case JArr(items) => ArrayConsumed(doc, path, items, op)
    case JObj(fields) => ObjectConsumed(doc, path, fields, op)
  }

  /** `JString.insert`'s op, consumed: the string with `str` spliced in at `idx`, written back. */
  lemma StringInsertConsumed(doc: Json, path: string, s: string, idx: nat, str: string)
    requires idx <= |s|
    ensures StringConsumed(doc, path, s, Text(ListOps.SingleEdit(true, idx, str, |s|)))
      == Written(doc, path, JStr(s[..idx] + str + s[idx..]))
  {
    var op := ListOps.SingleEdit(true, idx, str, |s|);
    ListOps.SingleInsertApplies(idx, str, s, ListOps.ModelText);
    assert ListOps.Apply(op, s, ListOps.ModelText) == Ok(s[..idx] + str + s[idx..]);
    assert !op[if idx > 0 then 1 else 0].Retain?;
    assert !ListIsNoOp(op);
  }

  /** `JString.delete`'s op, consumed: the string without the deleted text, written back. */
  lemma StringDeleteConsumed(doc: Json, path: string, s: string, idx: nat, length: nat)
    requires idx + length <= |s|
    ensures StringConsumed(doc, path, s, Text(ListOps.SingleEdit(false, idx, s[idx..idx + length], |s|)))
      == Written(doc, path, JStr(s[..idx] + s[idx + length..]))
  {
    var xs := s[idx..idx + length];
    var op := ListOps.SingleEdit(false, idx, xs, |s|);
    var next := s[..idx] + s[idx + length..];
    ListOps.SingleDeleteApplies(idx, xs, s, ListOps.ModelText);
    assert ListOps.Apply(op, s, ListOps.ModelText) == Ok(next);
    assert !op[if idx > 0 then 1 else 0].Retain?;
    assert !ListIsNoOp(op);
  }

  /** `JNumber.add`'s op, consumed: the sum written back, or nothing for a zero delta. */
  lemma NumberAddConsumed(doc: Json, path: string, n: int, num: int)
    ensures num == 0 ==> NumberConsumed(doc, path, n, Number(num)) == Ok(doc)
    ensures num != 0 ==> NumberConsumed(doc, path, n, Number(num)) == Written(doc, path, JNum(n + num))
  {
    var op := Number(num);
    assert op.Number? && op.delta == num;
    if num != 0 {
      assert NumberConsumed(doc, path, n, op) == Written(doc, path, JNum(n + op.delta));
    }
  }

  /** `JArray.insert`'s op, consumed in place: the array with `v` at `idx`, or the insert's failure. */
  lemma ArrayInsertConsumed(doc: Json, path: string, items: seq<Json>, idx: nat, v: Json)
    requires ParsePath(path).Ok?
    ensures ArrayConsumed(doc, path, items, Op.Elements(ListOps.SingleEdit(true, idx, [v], |items|)))
      == if idx <= |items| then InPlace(doc, path, JArr(items[..idx] + [v] + items[idx..]))
         else Err(AssertionFailed)
    ensures idx <= |items| ==> InPlace(doc, path, JArr(items[..idx] + [v] + items[idx..])).Ok?
  {
    var op := ListOps.SingleEdit(true, idx, [v], |items|);
    if idx <= |items| {
      ListOps.SingleInsertApplies(idx, [v], items, ListOps.Elements);
      assert ListOps.Apply(op, items, ListOps.Elements) == Ok(items[..idx] + [v] + items[idx..]);
    } else {
      ListOps.SingleInsertOutOfRange(idx, [v], items, ListOps.Elements);
    }
  }

  /** `JArray.remove`'s op, consumed in place: the array without the removed values. */
  lemma ArrayRemoveConsumed(doc: Json, path: string, items: seq<Json>, idx: nat, length: nat)
    requires ParsePath(path).Ok? && 0 < length && idx + length <= |items|
    ensures ArrayConsumed(doc, path, items,
                          Op.Elements(ListOps.SingleEdit(false, idx, items[idx..idx + length], |items|)))
      == InPlace(doc, path, JArr(items[..idx] + items[idx + length..]))
    ensures InPlace(doc, path, JArr(items[..idx] + items[idx + length..])).Ok?
  {
    var xs := items[idx..idx + length];
    var op := ListOps.SingleEdit(false, idx, xs, |items|);
    var next := items[..idx] + items[idx + length..];
    ListOps.SingleDeleteApplies(idx, xs, items, ListOps.Elements);
    assert ListOps.Apply(op, items, ListOps.Elements) == Ok(next);
  }

  /** The op `JObject.put(key, v)` builds: `new ObjectOp().update(key, current value, v)`. */
  function PutOp(fields: map<string, Json>, key: string, v: Json): (m: MapOps.Components)
    ensures MapOps.Lookup(fields, key) == Some(v) ==> m == map[]
    ensures MapOps.Lookup(fields, key) != Some(v) ==> m == map[key := MapOps.Change(MapOps.Lookup(fields, key), Some(v))]
  {
    MapOps.Updated(map[], key, MapOps.Lookup(fields, key), Some(v)).value
  }

  /** The op `JObject.remove(key)` builds for a present key: `update(key, current value, null)`. */
  function RemoveOp(fields: map<string, Json>, key: string): (m: MapOps.Components)
    requires key in fields
    ensures m == map[key := MapOps.Change(Some(fields[key]), None)]
  {
    MapOps.Updated(map[], key, Some(fields[key]), None).value
  }

  /** `JObject.put`'s op, consumed in place: the object with `key` set to `v`. */
  lemma ObjectPutConsumed(doc: Json, path: string, fields: map<string, Json>, key: string, v: Json)
    requires ParsePath(path).Ok? && Paths.IsValidKey(key)
    ensures ObjectConsumed(doc, path, fields, Object(PutOp(fields, key, v)))
      == InPlace(doc, path, JObj(fields[key := v]))
    ensures InPlace(doc, path, JObj(fields[key := v])).Ok?
  {
    var m := PutOp(fields, key, v);
    forall k ensures MapOps.Lookup(MapOps.Applied(fields, m), k) == MapOps.Lookup(fields[key := v], k) {
      MapOps.LookupApplied(fields, m, k);
    }
    SameMembers(MapOps.Applied(fields, m), fields[key := v]);
    assert ObjectApply(fields, m) == Ok(fields[key := v]);
  }

  /** `JObject.remove`'s op, consumed in place: the object without `key`. */
  lemma ObjectRemoveConsumed(doc: Json, path: string, fields: map<string, Json>, key: string)
    requires ParsePath(path).Ok? && key in fields
    ensures ObjectConsumed(doc, path, fields, Object(RemoveOp(fields, key)))
      == InPlace(doc, path, JObj(fields - {key}))
    ensures InPlace(doc, path, JObj(fields - {key})).Ok?
  {
    var m := RemoveOp(fields, key);
    forall k ensures MapOps.Lookup(MapOps.Applied(fields, m), k) == MapOps.Lookup(fields - {key}, k) {
      MapOps.LookupApplied(fields, m, k);
    }
    SameMembers(MapOps.Applied(fields, m), fields - {key});
    assert ObjectApply(fields, m) == Ok(fields - {key});
  }

  /** `JNull.asArray` and its siblings: the replace op from JSON null to `x`, consumed. */
  lemma NullReplaceConsumed(doc: Json, path: string, x: Json)
    requires x != JNull
    ensures NullConsumed(doc, path, Replace(ReplaceOps.Fresh(Some(JNull), Some(x)))) == Written(doc, path, x)
  {
    var op := Replace(ReplaceOps.Fresh(Some(JNull), Some(x)));
    assert NullConsumed(doc, path, op) == Written(doc, path, JsonUtil.ToJsonValue(op.replacement.newValue));
  }

  /** `JValue.consume(op)`: `ctx.at(path).doConsume(op)`; a path that holds nothing gives no wrapper. */
  function Consumed(doc: Json, j: JsonOp): Result<Json>
  {
    if j.path.None? then Err(NullPointer)
    else
      var found :- Lookup(doc, j.path.value);
      if found.None? then Err(NullPointer) else DoConsumed(doc, j.path.value, found.value, j.op)
  }

  /** Consuming ops one after the other, stopping at the first failure. */
  function ConsumedAll(doc: Json, ops: seq<JsonOp>): Result<Json>
    decreases |ops|
  {
    if |ops| == 0 then Ok(doc)
    else
      var next :- Consumed(doc, ops[0]);
      ConsumedAll(next, ops[1..])
  }

  // ---------------------------------------------------------------------------------------
  // Edits in place, seen again through `get`

  /** After an in-place edit of a value that exists, `get` at the same path finds the new value. */
  lemma InPlaceFound(doc: Json, path: string, x: Json)
    requires Found(Lookup(doc, path))
    ensures InPlace(doc, path, x).Ok?
    ensures Lookup(InPlace(doc, path, x).value, path) == Ok(Some(x))
  {
    LookupNavigates(doc, path);
    var steps := ParsePath(path).value;
    NavigateOverwrite(doc, steps, x);
    LookupNavigates(Overwrite(doc, steps, x), path);
  }

  /** A second in-place edit at the same path replaces the first. */
  lemma InPlaceTwice(doc: Json, path: string, x: Json, y: Json)
    requires Found(Lookup(doc, path))
    ensures InPlace(doc, path, x).Ok?
    ensures InPlace(InPlace(doc, path, x).value, path, y) == InPlace(doc, path, y)
  {
    LookupNavigates(doc, path);
    OverwriteTwice(doc, ParsePath(path).value, x, y);
  }
}
