/**
 * `ArrayOp`: a list op over the elements of a JSON array, with its helpers (`ArrayAppender`,
 * `startsWith`, `subset`) and its transform against an op on a descendant of the array.
 * That transform makes two passes over the components: the first locates the child's index
 * in the array the op applies to, the second (only when a delete covers the index) copies
 * the op with the child's edit replayed on the deleted element.
 */
module ArrayOps {
  import opened Wrappers
  import opened Json
  import opened Decimal
  import opened ListOps
  import opened Ops
  import Paths
  import Documents
  import ObjectOps

  // ---------------------------------------------------------------------------------------
  // The helpers

  /** `ArrayAppender`: collects the elements of appended arrays until flushed. */
  class ArrayAppender {
    var items: seq<Json>

    constructor()
      ensures items == []
    {
      items := [];
    }

    /** `append(list)`: each element is set at the current length, so it is added at the end. */
    method Append(list: seq<Json>)
      modifies this
      ensures items == old(items) + list
    {
      var i := 0;
      while i < |list|
        invariant 0 <= i <= |list|
        invariant items == old(items) + list[..i]
      {
        items := Documents.ArraySet(items, |items|, list[i]).value;
        assert list[..i + 1] == list[..i] + [list[i]];
        i := i + 1;
      }
      assert list[..i] == list;
    }

    /** `flush()`: the collected items, with a fresh empty one left in its place. */
    method Flush() returns (r: seq<Json>)
      modifies this
      ensures r == old(items) && items == []
    {
      r := items;
      items := [];
    }
  }

  /**
   * `ArrayHelper.startsWith(list, prefix)`: the list must be at least as long as the prefix;
   * then the answer is whether the elements agree, one by one, over the prefix's length.
   */
  method StartsWith(list: seq<Json>, prefix: seq<Json>) returns (r: Result<bool>)
    ensures |list| < |prefix| ==> r == Err(AssertionFailed)
    ensures |list| >= |prefix| ==> r == Ok(list[..|prefix|] == prefix)
  {
    if |list| < |prefix| {
      return Err(AssertionFailed);
    }
    var i := 0;
    while i < |prefix|
      invariant 0 <= i <= |prefix|
      invariant list[..i] == prefix[..i]
    {
      if prefix[i] != list[i] {
        assert list[..|prefix|][i] != prefix[i];
        return Ok(false);
      }
      assert list[..i + 1] == list[..i] + [list[i]];
      assert prefix[..i + 1] == prefix[..i] + [prefix[i]];
      i := i + 1;
    }
    assert prefix[..i] == prefix;
    return Ok(true);
  }

  /**
   * `ArrayHelper.subset(list, b, e)`: the elements `b` to `e - 1`, set one by one into a new
   * array from index 0. Reading an element outside the list throws.
   */
  method Subset(list: seq<Json>, b: int, e: int) returns (r: Result<seq<Json>>)
    ensures b >= e ==> r == Ok([])
    ensures b < e ==> (r.Ok? <==> 0 <= b && e <= |list|)
    ensures b < e && r.Ok? ==> r.value == list[b..e]
  {
    var copy: seq<Json> := [];
    var i := b;
    while i < e
      invariant b < e ==> b <= i <= e
      invariant b >= e ==> i == b
      invariant b < i ==> 0 <= b && i <= |list| && copy == list[b..i]
      invariant i == b ==> copy == []
    {
      if i < 0 || i >= |list| {
        return Err(IndexOutOfBounds);
      }
      copy := Documents.ArraySet(copy, i - b, list[i]).value;
      assert list[b..i + 1] == list[b..i] + [list[i]];
      i := i + 1;
    }
    return Ok(copy);
  }

  // ---------------------------------------------------------------------------------------
  // Locating the child: the first pass

  /**
   * Where the first pass finds the child's element. `found` is the pass's located state; a
   * delete that covers the element sets `isDelete`. The lengths are those the pass adds up:
   * inserts before and after the element, and deletes before it.
   */
  datatype Location = Location(found: bool, isDelete: bool, insertedBefore: nat, insertedAfter: nat, deletedBefore: nat)

  /**
   * The first pass over `op` for the child at element `k` of the array the op starts on: a
   * retain or a delete that reaches past `k` locates the element.
   */
  function Locate(op: ListOp<Json>, k: int): (l: Location)
    ensures l.found ==> |op| > 0
  {
    if |op| == 0 then Location(false, false, 0, 0, 0)
    else
      match op[0]
      case Insert(xs) =>
        var l := Locate(op[1..], k);
        l.(insertedBefore := l.insertedBefore + |xs|)
      case Retain(n) =>
        if n > k then Location(true, false, 0, InsertedLength(op[1..]), 0)
        else Locate(op[1..], k - n)
      case Delete(xs) =>
        if |xs| > k then Location(true, true, 0, InsertedLength(op[1..]), 0)
        else
          var l := Locate(op[1..], k - |xs|);
          l.(deletedBefore := l.deletedBefore + |xs|)
  }

  /** Every component is an insert: the first pass never reads the child's index. */
  predicate AllInserts(op: ListOp<Json>)
  {
    forall i | 0 <= i < |op| :: op[i].Insert?
  }

  /** The number of elements of the array an op walks over: what it retains and deletes. */
  function SourceLength(op: ListOp<Json>): nat
  {
    if |op| == 0 then 0
    else (match op[0] case Retain(n) => n case Delete(xs) => |xs| case Insert(_) => 0) + SourceLength(op[1..])
  }

  /** The shift the first pass computes: every insert of the op counts, not only those before the element. */
  function OffsetAsWritten(l: Location): int
  {
    l.insertedBefore + l.insertedAfter - l.deletedBefore
  }

  /** The shift of a retained element: what is inserted before it, less what is deleted before it. */
  function Offset(l: Location): int
  {
    l.insertedBefore - l.deletedBefore
  }

  /** The first pass locates exactly the elements inside the array the op applies to. */
  lemma {:induction false} LocateInBounds(op: ListOp<Json>, k: nat)
    ensures Locate(op, k).found <==> k < SourceLength(op)
  {
    if |op| > 0 {
      match op[0]
      case Insert(xs) => LocateInBounds(op[1..], k);
      case Retain(n) =>
        if n <= k { LocateInBounds(op[1..], k - n); }
      case Delete(xs) =>
        if |xs| <= k { LocateInBounds(op[1..], k - |xs|); }
    }
  }

  /**
   * Finding: with an insert after the element, the shift as written moves the child past
   * where its element ends up. `[retain 1, insert [null]]` on `[7]` leaves 7 at index 0, yet
   * the shift is 1 and index 1 holds the inserted null.
   */
  lemma InsertAfterChildMiscounted()
    ensures var op := [Retain(1), Insert([JNull])];
      var l := Locate(op, 0);
      var r := Apply(op, [JNum(7)], ListOps.Elements).value;
      l.found && !l.isDelete && OffsetAsWritten(l) == 1 && |r| == 2 && r[0 + OffsetAsWritten(l)] != JNum(7)
      && Offset(l) == 0 && r[0 + Offset(l)] == JNum(7)
  {
    var op: ListOp<Json> := [Retain(1), Insert([JNull])];
    assert op[1..] == [Insert([JNull])];
    assert op[1..][1..] == [];
    assert Locate(op, 0) == Location(true, false, 0, 1, 0);
    InsertStep(op[1..], [JNum(7)], 1, ListOps.Elements, [JNull]);
    assert ApplyAt(op, [JNum(7)], 0, ListOps.Elements) == ApplyAt(op[1..], [JNum(7)], 1, ListOps.Elements);
    assert [JNum(7)][..1] + [JNull] + [JNum(7)][1..] == [JNum(7), JNull];
  }

  /** A walk leaves everything left of its starting cursor where it was. */
  lemma {:induction false} PrefixKept(op: ListOp<Json>, s: seq<Json>, c: nat, j: nat)
    requires ApplyAt(op, s, c, ListOps.Elements).Ok?
    requires j < c && j < |s|
    ensures j < |ApplyAt(op, s, c, ListOps.Elements).value|
    ensures ApplyAt(op, s, c, ListOps.Elements).value[j] == s[j]
    decreases |op|
  {
    if |op| > 0 {
      match op[0]
      case Retain(n) => PrefixKept(op[1..], s, c + n, j);
      case Insert(xs) =>
        InsertStep(op, s, c, ListOps.Elements, xs);
        PrefixKept(op[1..], s[..c] + xs + s[c..], c + |xs|, j);
      case Delete(xs) =>
        DeleteStep(op, s, c, ListOps.Elements, xs);
        PrefixKept(op[1..], s[..c] + s[c + |xs|..], c, j);
    }
  }

  /**
   * The corrected shift follows a retained element: when the op applies, the element `k`
   * places after the cursor ends at `k` plus the shift.
   */
  /** Where the element `k` after the cursor ends up, when the op retains it. */
  predicate TrackedAt(op: ListOp<Json>, s: seq<Json>, c: nat, k: nat)
    requires ApplyAt(op, s, c, ListOps.Elements).Ok?
  {
    var r := ApplyAt(op, s, c, ListOps.Elements).value;
    var j := c + k + Offset(Locate(op, k));
    c + k < |s| && 0 <= j < |r| && r[j] == s[c + k]
  }

  /**
   * The corrected shift follows a retained element: when the op applies, the element `k`
   * places after the cursor ends at `k` plus the shift.
   */
  lemma {:induction false} RetainedElementTracked(op: ListOp<Json>, s: seq<Json>, c: nat, k: nat)
    requires ApplyAt(op, s, c, ListOps.Elements).Ok?
    requires c + k < |s|
    requires Locate(op, k).found && !Locate(op, k).isDelete
    ensures TrackedAt(op, s, c, k)
    decreases |op|, 1
  {
    match op[0]
    case Retain(n) => TrackedFromRetain(op, s, c, k, n);
    case Insert(xs) => TrackedFromInsert(op, s, c, k, xs);
    case Delete(xs) => TrackedFromDelete(op, s, c, k, xs);
  }

  lemma {:induction false} TrackedFromRetain(op: ListOp<Json>, s: seq<Json>, c: nat, k: nat, n: nat)
    requires |op| > 0 && op[0] == Retain(n)
    requires ApplyAt(op, s, c, ListOps.Elements).Ok?
    requires c + k < |s|
    requires Locate(op, k).found && !Locate(op, k).isDelete
    ensures TrackedAt(op, s, c, k)
    decreases |op|, 0
  {
    RetainStep(op, s, c, ListOps.Elements, n);
    LocateFromRetain(op, k, n);
    if n > k {
      TrackedInRetain(op, s, c, k, n);
    } else {
      RetainedElementTracked(op[1..], s, c + n, k - n);
    }
  }

  /** The retain that locates the element keeps it where it is. */
  lemma TrackedInRetain(op: ListOp<Json>, s: seq<Json>, c: nat, k: nat, n: nat)
    requires |op| > 0 && op[0] == Retain(n) && k < n
    requires ApplyAt(op, s, c, ListOps.Elements).Ok?
    requires c + k < |s|
    ensures TrackedAt(op, s, c, k)
  {
    RetainStep(op, s, c, ListOps.Elements, n);
    LocateFromRetain(op, k, n);
    PrefixKept(op[1..], s, c + n, c + k);
  }

  lemma {:induction false} TrackedFromInsert(op: ListOp<Json>, s: seq<Json>, c: nat, k: nat, xs: seq<Json>)
    requires |op| > 0 && op[0] == Insert(xs)
    requires ApplyAt(op, s, c, ListOps.Elements).Ok?
    requires c + k < |s|
    requires Locate(op, k).found && !Locate(op, k).isDelete
    ensures TrackedAt(op, s, c, k)
    decreases |op|, 0
  {
    var l' := Locate(op[1..], k);
    assert Offset(Locate(op, k)) == Offset(l') + |xs|;
    InsertStep(op, s, c, ListOps.Elements, xs);
    InsertedElementShifted(s, c, xs, k);
    RetainedElementTracked(op[1..], s[..c] + xs + s[c..], c + |xs|, k);
  }

  lemma {:induction false} TrackedFromDelete(op: ListOp<Json>, s: seq<Json>, c: nat, k: nat, xs: seq<Json>)
    requires |op| > 0 && op[0] == Delete(xs)
    requires ApplyAt(op, s, c, ListOps.Elements).Ok?
    requires c + k < |s|
    requires Locate(op, k).found && !Locate(op, k).isDelete
    ensures TrackedAt(op, s, c, k)
    decreases |op|, 0
  {
    var l' := Locate(op[1..], k - |xs|);
    assert Offset(Locate(op, k)) == Offset(l') - |xs|;
    DeleteStep(op, s, c, ListOps.Elements, xs);
    DeletedElementShifted(s, c, xs, k);
    RetainedElementTracked(op[1..], s[..c] + s[c + |xs|..], c, k - |xs|);
  }

  lemma InsertedElementShifted(s: seq<Json>, c: nat, xs: seq<Json>, k: nat)
    requires c + k < |s|
    ensures var s' := s[..c] + xs + s[c..]; c + |xs| + k < |s'| && s'[c + |xs| + k] == s[c + k]
  {
  }

  lemma DeletedElementShifted(s: seq<Json>, c: nat, xs: seq<Json>, k: nat)
    requires c + k < |s| && |xs| <= k && c + |xs| <= |s|
    ensures var s' := s[..c] + s[c + |xs|..]; c + (k - |xs|) < |s'| && s'[c + (k - |xs|)] == s[c + k]
  {
  }

  // ---------------------------------------------------------------------------------------
  // Folding the child into a deleted element: the second pass

  /** The child op replayed on a copy of `e` at the remaining path `rest`. */
  function Replayed(e: Json, rest: string, childOp: Op): Result<Json>
  {
    Documents.Consumed(e, JsonOp(Some(rest), childOp))
  }

  /** What the second pass does to the deleted element the child lives in. */
  type Replay = Json -> Result<Json>

  /** The replay of the child op at the remaining path `rest`. */
  function Replayer(rest: string, childOp: Op): (f: Replay)
    ensures forall e :: f(e) == Replayed(e, rest, childOp)
  {
    e => Replayed(e, rest, childOp)
  }

  /** The items of a delete with element `k` (if it has one) replaced by its replay. */
  function ReplayIn(xs: seq<Json>, k: int, replay: Replay): (r: Result<seq<Json>>)
    ensures r.Ok? ==> |r.value| == |xs|
  {
    if 0 <= k < |xs| then
      var v :- replay(xs[k]);
      Ok(xs[k := v])
    else Ok(xs)
  }

  /** The second pass: every component copied, the deleted element `k` replaced by its replay. */
  function Rebuilt(op: ListOp<Json>, k: int, replay: Replay): Result<ListOp<Json>>
  {
    if |op| == 0 then Ok([])
    else
      var c :- Copied(op[0], k, replay);
      var tail :- Rebuilt(op[1..], k - Width(op[0]), replay);
      Ok([c] + tail)
  }

  /** The elements of the array a component walks over. */
  function Width(c: Component<Json>): nat
  {
    match c
    case Retain(n) => n
    case Insert(_) => 0
    case Delete(xs) => |xs|
  }

  /** A component as the second pass copies it, `kk` being the child's index relative to it. */
  function Copied(c: Component<Json>, kk: int, replay: Replay): Result<Component<Json>>
  {
    match c
    case Delete(xs) =>
      var list :- ReplayIn(xs, kk, replay);
      Ok(Delete(list))
    case _ => Ok(c)
  }

  /** The op with element `k` of the delete that covers it replaced by `v`. */
  function ReplaceDeleted(op: ListOp<Json>, k: int, v: Json): ListOp<Json>
  {
    if |op| == 0 then []
    else
      match op[0]
      case Retain(n) => [Retain(n)] + ReplaceDeleted(op[1..], k - n, v)
      case Insert(xs) => [Insert(xs)] + ReplaceDeleted(op[1..], k, v)
      case Delete(xs) =>
        if 0 <= k < |xs| then [Delete(xs[k := v])] + op[1..]
        else [Delete(xs)] + ReplaceDeleted(op[1..], k - |xs|, v)
  }

  /** The element the delete that covers `k` removes. */
  function Covered(op: ListOp<Json>, k: nat): Json
    requires Locate(op, k).found && Locate(op, k).isDelete
  {
    match op[0]
    case Retain(n) => Covered(op[1..], k - n)
    case Insert(xs) => Covered(op[1..], k)
    case Delete(xs) => if k < |xs| then xs[k] else Covered(op[1..], k - |xs|)
  }

  /** Nothing before or after the covering delete reaches a replay. */
  lemma {:induction false} RebuiltCopiesOthers(op: ListOp<Json>, k: int, replay: Replay)
    requires k < 0
    ensures Rebuilt(op, k, replay) == Ok(op)
  {
    if |op| > 0 {
      assert [op[0]] + op[1..] == op;
      match op[0]
      case Retain(n) => RebuiltCopiesOthers(op[1..], k - n, replay);
      case Insert(xs) => RebuiltCopiesOthers(op[1..], k, replay);
      case Delete(xs) => RebuiltCopiesOthers(op[1..], k - |xs|, replay);
    } else {
      assert op == [];
    }
  }

  /** The op with the covered element replaced by a replay, or the replay's failure. */
  function ReplacedBy(op: ListOp<Json>, k: int, v: Result<Json>): Result<ListOp<Json>>
  {
    if v.Err? then Err(v.error) else Ok(ReplaceDeleted(op, k, v.value))
  }

  /**
   * The second pass replays the child on exactly the covered element and copies every other
   * component: it fails as the replay fails, and otherwise gives the op with that element
   * replaced by the replay.
   */
  lemma {:induction false} RebuiltReplaysCovered(op: ListOp<Json>, k: nat, replay: Replay)
    requires Locate(op, k).found && Locate(op, k).isDelete
    ensures Rebuilt(op, k, replay) == ReplacedBy(op, k, replay(Covered(op, k)))
  {
    if op[0].Delete? && k < |op[0].items| {
      assert Covered(op, k) == op[0].items[k];
      RebuiltAtCover(op, k, replay);
    } else {
      CoveredFurther(op, k, replay);
      var k' := k - Width(op[0]);
      RebuiltReplaysCovered(op[1..], k', replay);
      RebuiltPastCover(op, k, replay(Covered(op[1..], k')), replay);
    }
  }

  /** Before the covering delete, the second pass copies the component and goes on. */
  lemma RebuiltPastCover(op: ListOp<Json>, k: int, w: Result<Json>, replay: Replay)
    requires |op| > 0 && !(op[0].Delete? && 0 <= k < |op[0].items|)
    requires Copied(op[0], k, replay) == Ok(op[0])
    requires Rebuilt(op[1..], k - Width(op[0]), replay) == ReplacedBy(op[1..], k - Width(op[0]), w)
    ensures Rebuilt(op, k, replay) == ReplacedBy(op, k, w)
  {
    RebuiltStep(op, k, replay);
    ReplaceDeletedStep(op, k, w);
  }

  /** Past the first component, the covering delete is still ahead, and covers the same element. */
  /** At the covering delete, its items take the replay and the components after it are copied. */
  lemma RebuiltAtCover(op: ListOp<Json>, k: nat, replay: Replay)
    requires |op| > 0 && op[0].Delete? && k < |op[0].items|
    ensures Rebuilt(op, k, replay) == ReplacedBy(op, k, replay(op[0].items[k]))
  {
    var xs := op[0].items;
    RebuiltStep(op, k, replay);
    RebuiltCopiesOthers(op[1..], k - |xs|, replay);
    var v := replay(xs[k]);
    if v.Ok? {
      assert Copied(op[0], k, replay) == Ok(Delete(xs[k := v.value]));
      assert ReplaceDeleted(op, k, v.value) == [Delete(xs[k := v.value])] + op[1..];
    } else {
      assert Copied(op[0], k, replay) == Err(v.error);
    }
  }

  lemma CoveredFurther(op: ListOp<Json>, k: nat, replay: Replay)
    requires Locate(op, k).found && Locate(op, k).isDelete
    requires !(op[0].Delete? && k < |op[0].items|)
    ensures k >= Width(op[0])
    ensures Locate(op[1..], k - Width(op[0])).found
    ensures Locate(op[1..], k - Width(op[0])).isDelete
    ensures Covered(op, k) == Covered(op[1..], k - Width(op[0]))
    ensures Copied(op[0], k, replay) == Ok(op[0])
  {
  }

  /** Away from the covering delete, the replacement copies the first component. */
  lemma ReplaceDeletedStep(op: ListOp<Json>, k: int, v: Result<Json>)
    requires |op| > 0 && !(op[0].Delete? && 0 <= k < |op[0].items|)
    ensures ReplacedBy(op, k, v) == Prepend([op[0]], ReplacedBy(op[1..], k - Width(op[0]), v))
  {
  }

  /**
   * The parent wins over a deleted element: where the op applies, the element `k` after the
   * cursor is the covered one, and the op with that element replaced by `v` applies to the
   * array holding `v` there, with the same result.
   */
  lemma {:induction false} ParentWins(op: ListOp<Json>, s: seq<Json>, c: nat, k: nat, v: Json)
    requires ApplyAt(op, s, c, ListOps.Elements).Ok?
    requires Locate(op, k).found && Locate(op, k).isDelete
    ensures c + k < |s| && s[c + k] == Covered(op, k)
    ensures ApplyAt(ReplaceDeleted(op, k, v), s[c + k := v], c, ListOps.Elements) == ApplyAt(op, s, c, ListOps.Elements)
    decreases |op|, 1
  {
    match op[0]
    case Retain(n) => ParentWinsFromRetain(op, s, c, k, v, n);
    case Insert(xs) => ParentWinsFromInsert(op, s, c, k, v, xs);
    case Delete(xs) =>
      if k < |xs| {
        ParentWinsAtDelete(op, s, c, k, v, xs);
      } else {
        ParentWinsPastDelete(op, s, c, k, v, xs);
      }
  }

  lemma {:induction false} ParentWinsFromRetain(op: ListOp<Json>, s: seq<Json>, c: nat, k: nat, v: Json, n: nat)
    requires |op| > 0 && op[0] == Retain(n)
    requires ApplyAt(op, s, c, ListOps.Elements).Ok?
    requires Locate(op, k).found && Locate(op, k).isDelete
    ensures c + k < |s| && s[c + k] == Covered(op, k)
    ensures ApplyAt(ReplaceDeleted(op, k, v), s[c + k := v], c, ListOps.Elements) == ApplyAt(op, s, c, ListOps.Elements)
    decreases |op|, 0
  {
    var op' := ReplaceDeleted(op, k, v);
    assert Locate(op, k) == Locate(op[1..], k - n);
    assert Covered(op, k) == Covered(op[1..], k - n);
    assert op' == [Retain(n)] + ReplaceDeleted(op[1..], k - n, v);
    assert op'[1..] == ReplaceDeleted(op[1..], k - n, v);
    RetainStep(op, s, c, ListOps.Elements, n);
    ParentWins(op[1..], s, c + n, k - n, v);
    RetainStep(op', s[c + k := v], c, ListOps.Elements, n);
  }

  lemma {:induction false} ParentWinsFromInsert(op: ListOp<Json>, s: seq<Json>, c: nat, k: nat, v: Json, xs: seq<Json>)
    requires |op| > 0 && op[0] == Insert(xs)
    requires ApplyAt(op, s, c, ListOps.Elements).Ok?
    requires Locate(op, k).found && Locate(op, k).isDelete
    ensures c + k < |s| && s[c + k] == Covered(op, k)
    ensures ApplyAt(ReplaceDeleted(op, k, v), s[c + k := v], c, ListOps.Elements) == ApplyAt(op, s, c, ListOps.Elements)
    decreases |op|, 0
  {
    var s' := s[..c] + xs + s[c..];
    assert Locate(op[1..], k).found && Locate(op[1..], k).isDelete && Covered(op, k) == Covered(op[1..], k) by {
      LocateFromInsert(op, k, xs);
    }
    assert ApplyAt(op[1..], s', c + |xs|, ListOps.Elements).Ok? by {
      InsertStep(op, s, c, ListOps.Elements, xs);
    }
    ParentWins(op[1..], s', c + |xs|, k, v);
    assert c + k < |s| && s[c + k] == Covered(op, k) by {
      InsertedElementShifted(s, c, xs, k);
    }
    UpdateAfterInsert(op, s, c, k, v, xs);
  }

  lemma ReplaceDeletedPastInsert(op: ListOp<Json>, k: int, v: Json, xs: seq<Json>)
    requires |op| > 0 && op[0] == Insert(xs)
    ensures var op' := ReplaceDeleted(op, k, v);
      |op'| > 0 && op'[0] == Insert(xs) && op'[1..] == ReplaceDeleted(op[1..], k, v)
  {
    assert ReplaceDeleted(op, k, v) == [Insert(xs)] + ReplaceDeleted(op[1..], k, v);
  }

  /**
   * An update past an insert commutes with it: when the ops after the insert agree on the
   * list with and without the update, so do the ops from the insert on.
   */
  lemma UpdateAfterInsert(op: ListOp<Json>, s: seq<Json>, c: nat, k: nat, v: Json, xs: seq<Json>)
    requires |op| > 0 && op[0] == Insert(xs)
    requires ApplyAt(op, s, c, ListOps.Elements).Ok? && c + k < |s|
    requires var s' := s[..c] + xs + s[c..];
      ApplyAt(ReplaceDeleted(op[1..], k, v), s'[c + |xs| + k := v], c + |xs|, ListOps.Elements)
      == ApplyAt(op[1..], s', c + |xs|, ListOps.Elements)
    ensures ApplyAt(ReplaceDeleted(op, k, v), s[c + k := v], c, ListOps.Elements) == ApplyAt(op, s, c, ListOps.Elements)
  {
    var op' := ReplaceDeleted(op, k, v);
    ReplaceDeletedPastInsert(op, k, v, xs);
    InsertStep(op, s, c, ListOps.Elements, xs);
    InsertStep(op', s[c + k := v], c, ListOps.Elements, xs);
    SpliceUpdate(s, c, xs, k, v);
  }

  lemma SpliceUpdate(s: seq<Json>, c: nat, xs: seq<Json>, k: nat, v: Json)
    requires c + k < |s|
    ensures s[c + k := v][..c] + xs + s[c + k := v][c..] == (s[..c] + xs + s[c..])[c + |xs| + k := v]
  {
  }

  lemma {:induction false} ParentWinsAtDelete(op: ListOp<Json>, s: seq<Json>, c: nat, k: nat, v: Json, xs: seq<Json>)
    requires |op| > 0 && op[0] == Delete(xs) && k < |xs|
    requires ApplyAt(op, s, c, ListOps.Elements).Ok?
    ensures c + k < |s| && s[c + k] == Covered(op, k)
    ensures ApplyAt(ReplaceDeleted(op, k, v), s[c + k := v], c, ListOps.Elements) == ApplyAt(op, s, c, ListOps.Elements)
  {
    var op' := ReplaceDeleted(op, k, v);
    assert op' == [Delete(xs[k := v])] + op[1..];
    assert op'[1..] == op[1..];
    DeleteStep(op, s, c, ListOps.Elements, xs);
    assert s[c..c + |xs|][k] == s[c + k];
    DeleteStep(op', s[c + k := v], c, ListOps.Elements, xs[k := v]);
    DeletedSpanUpdate(s, c, xs, k, v);
  }

  lemma DeletedSpanUpdate(s: seq<Json>, c: nat, xs: seq<Json>, k: nat, v: Json)
    requires c + |xs| <= |s| && s[c..c + |xs|] == xs && k < |xs|
    ensures s[c + k := v][c..c + |xs|] == xs[k := v]
    ensures s[c + k := v][..c] + s[c + k := v][c + |xs|..] == s[..c] + s[c + |xs|..]
  {
    assert s[c + k := v][..c] == s[..c];
    assert s[c + k := v][c + |xs|..] == s[c + |xs|..];
  }

  lemma {:induction false} ParentWinsPastDelete(op: ListOp<Json>, s: seq<Json>, c: nat, k: nat, v: Json, xs: seq<Json>)
    requires |op| > 0 && op[0] == Delete(xs) && k >= |xs|
    requires ApplyAt(op, s, c, ListOps.Elements).Ok?
    requires Locate(op, k).found && Locate(op, k).isDelete
    ensures c + k < |s| && s[c + k] == Covered(op, k)
    ensures ApplyAt(ReplaceDeleted(op, k, v), s[c + k := v], c, ListOps.Elements) == ApplyAt(op, s, c, ListOps.Elements)
    decreases |op|, 0
  {
    var op' := ReplaceDeleted(op, k, v);
    assert Covered(op, k) == Covered(op[1..], k - |xs|);
    assert op' == [Delete(xs)] + ReplaceDeleted(op[1..], k - |xs|, v);
    assert op'[1..] == ReplaceDeleted(op[1..], k - |xs|, v);
    DeleteStep(op, s, c, ListOps.Elements, xs);
    var s' := s[..c] + s[c + |xs|..];
    ParentWins(op[1..], s', c, k - |xs|, v);
    DeletedElementShifted(s, c, xs, k);
    DeleteStep(op', s[c + k := v], c, ListOps.Elements, xs);
    SpanBeforeUpdate(s, c, xs, k, v);
  }

  lemma SpanBeforeUpdate(s: seq<Json>, c: nat, xs: seq<Json>, k: nat, v: Json)
    requires c + k < |s| && |xs| <= k
    ensures s[c + k := v][c..c + |xs|] == s[c..c + |xs|]
    ensures s[c + k := v][..c] + s[c + k := v][c + |xs|..] == (s[..c] + s[c + |xs|..])[c + (k - |xs|) := v]
  {
  }

  // ---------------------------------------------------------------------------------------
  // The transform

  /** The child path as written: the child path's own parent, indexed at the shifted index. */
  function ChildPathAsWritten(childPath: string, index: int32, offset: int): Result<string>
  {
    var parent :- Paths.GetParent(childPath);
    match parent
    case None => Err(NullPointer)
    case Some(p) => Ok(Paths.AtIndex(p, Wrap(index as int + offset)))
  }

  /** The child path re-addressed: the array's path, the shifted index, then the child's remaining steps. */
  function ChildPathFixed(parentPath: string, index: int32, offset: int, rest: string): string
  {
    Paths.AtPath(Paths.AtIndex(parentPath, Wrap(index as int + offset)), rest)
  }

  /**
   * `transformWithChild(serverIsParent, parentOp, childOp)` for an array op: the first pass
   * locates the child's index; a retained element moves the child by the shift, a deleted
   * one is rebuilt into the parent op by the second pass and the child op is dropped.
   * `fixed` selects the corrected shift and child path; without it, the code as written.
   */
  function Transformed(serverIsParent: bool, parent: JsonOp, child: JsonOp, fixed: bool): (r: Result<(JsonOp, JsonOp)>)
    requires parent.op.Elements?
  {
    if child.path.None? || parent.path.None? then Err(NullPointer)
    else
      var pair :- Paths.NextIndex(child.path.value, parent.path.value);
      if pair.None? then Err(if AllInserts(parent.op.elements) then AssertionFailed else NullPointer)
      else
      var l := Locate(parent.op.elements, pair.value.0 as int);
      if !l.found then Err(AssertionFailed)
      else if !l.isDelete then
        var offset := if fixed then Offset(l) else OffsetAsWritten(l);
        if offset == 0 then Ok(ObjectOps.Oriented(serverIsParent, parent, child))
        else
          var path :- if fixed then Ok(ChildPathFixed(parent.path.value, pair.value.0, offset, pair.value.1))
                      else ChildPathAsWritten(child.path.value, pair.value.0, offset);
          Ok(ObjectOps.Oriented(serverIsParent, parent, JsonOp(Some(path), child.op)))
      else
        var op' :- Rebuilt(parent.op.elements, pair.value.0 as int, Replayer(pair.value.1, child.op));
        Ok(ObjectOps.Oriented(serverIsParent, JsonOp(parent.path, Ops.Elements(op')), NoJsonOp))
  }

  /** A child index outside the array the op applies to fails the located assertion. */
  lemma ChildOutsideArray(serverIsParent: bool, parentPath: string, op: ListOp<Json>, i: int32, rest: string, childOp: Op)
    requires i as int >= SourceLength(op)
    ensures Transformed(serverIsParent, JsonOp(Some(parentPath), Ops.Elements(op)),
              JsonOp(Some(Paths.AtPath(Paths.AtIndex(parentPath, i), rest)), childOp), true)
            == Err(AssertionFailed)
  {
    Paths.NextIndexOfAt(parentPath, i, rest);
    LocateInBounds(op, i as nat);
  }

  /**
   * A child inside a retained element: with no shift both ops pass through; otherwise the
   * child is re-addressed at the shifted index, keeping its remaining steps, and the parent
   * op passes through.
   */
  lemma ChildOfRetained(serverIsParent: bool, parentPath: string, op: ListOp<Json>, i: int32, rest: string, childOp: Op)
    requires i >= 0
    requires Locate(op, i as int).found && !Locate(op, i as int).isDelete
    ensures var parent := JsonOp(Some(parentPath), Ops.Elements(op));
      var child := JsonOp(Some(Paths.AtPath(Paths.AtIndex(parentPath, i), rest)), childOp);
      var offset := Offset(Locate(op, i as int));
      Transformed(serverIsParent, parent, child, true) ==
        if offset == 0 then Ok(ObjectOps.Oriented(serverIsParent, parent, child))
        else Ok(ObjectOps.Oriented(serverIsParent, parent,
                  JsonOp(Some(ChildPathFixed(parentPath, i, offset, rest)), childOp)))
  {
    Paths.NextIndexOfAt(parentPath, i, rest);
  }

  /**
   * A child inside a deleted element: the parent op keeps every component but records the
   * element with the child's edit replayed on it, and the child op is dropped; a replay
   * that fails makes the transform fail.
   */
  lemma ChildOfDeleted(serverIsParent: bool, parentPath: string, op: ListOp<Json>, i: int32, rest: string, childOp: Op)
    requires i >= 0
    requires Locate(op, i as int).found && Locate(op, i as int).isDelete
    ensures var parent := JsonOp(Some(parentPath), Ops.Elements(op));
      var child := JsonOp(Some(Paths.AtPath(Paths.AtIndex(parentPath, i), rest)), childOp);
      var r := Transformed(serverIsParent, parent, child, true);
      var v := Replayed(Covered(op, i as nat), rest, childOp);
      (v.Err? ==> r == Err(v.error))
      && (v.Ok? ==> r == Ok(ObjectOps.Oriented(serverIsParent,
                                JsonOp(Some(parentPath), Ops.Elements(ReplaceDeleted(op, i as int, v.value))), NoJsonOp)))
  {
    Paths.NextIndexOfAt(parentPath, i, rest);
    RebuiltReplaysCovered(op, i as nat, Replayer(rest, childOp));
  }

  /**
   * The re-addressed child finds its element again: the new path continues the array's path
   * with the shifted index and the same remaining steps.
   */
  lemma ChildPathFixedFound(parentPath: string, index: int32, offset: int, rest: string)
    ensures Paths.NextIndex(ChildPathFixed(parentPath, index, offset, rest), parentPath)
      == Ok(Some((Wrap(index as int + offset), rest)))
  {
    Paths.NextIndexOfAt(parentPath, Wrap(index as int + offset), rest);
  }

  /**
   * Finding: the child path as written drops the child's steps below the element. A child
   * at `[0].x` against `[insert [null], retain 1]` on the root array moves to `[0][1]`, an
   * index into the old element, instead of `[1].x` as the corrected path has it.
   */
  lemma ChildPathAsWrittenMisplaced()
    ensures var parent := JsonOp(Some(""), Ops.Elements([Insert([JNull]), Retain(1)]));
      var child := JsonOp(Some("[0].x"), Number(1));
      Transformed(true, parent, child, false) == Ok((parent, JsonOp(Some("[0][1]"), Number(1))))
  {
    MisplacedChildLocated();
    Paths.ParentOfAtKey("[0]", "x");
    assert Paths.AtKey("[0]", "x").value == "[0].x";
    assert Paths.AtIndex("[0]", 1) == "[0][1]";
  }

  lemma ChildPathFixedPlaced()
    ensures var parent := JsonOp(Some(""), Ops.Elements([Insert([JNull]), Retain(1)]));
      var child := JsonOp(Some("[0].x"), Number(1));
      Transformed(true, parent, child, true) == Ok((parent, JsonOp(Some("[1].x"), Number(1))))
  {
    MisplacedChildLocated();
    assert Paths.AtIndex("", 1) == "[1]";
    assert Paths.AtPath("[1]", "x") == "[1].x";
  }

  /** The child at `[0].x` is retained by the op, which inserts one element before it. */
  lemma MisplacedChildLocated()
    ensures Paths.NextIndex("[0].x", "") == Ok(Some((0, "x")))
    ensures Locate([Insert([JNull]), Retain(1)], 0) == Location(true, false, 1, 0, 0)
    ensures Wrap(0 + 1) == 1
  {
    var op: ListOp<Json> := [Insert([JNull]), Retain(1)];
    assert Paths.AtIndex("", 0) == "[0]";
    assert Paths.AtPath("[0]", "x") == "[0].x";
    Paths.NextIndexOfAt("", 0, "x");
    LocateFromInsert(op, 0, [JNull]);
    LocateFromRetain(op[1..], 0, 1);
    assert op[1..][1..] == [];
  }

  // ---------------------------------------------------------------------------------------
  // The two passes as the code runs them

  /** A location found further on, seen from `ins` inserted and `del` deleted elements earlier. */
  function Shifted(l: Location, ins: nat, del: nat): Location
  {
    l.(insertedBefore := l.insertedBefore + ins, deletedBefore := l.deletedBefore + del)
  }

  /** One step of the location, from an insert: the location moves past its items. */
  lemma LocateFromInsert(rest: ListOp<Json>, kk: int, xs: seq<Json>)
    requires |rest| > 0 && rest[0] == Insert(xs)
    ensures Locate(rest, kk) == Shifted(Locate(rest[1..], kk), |xs|, 0)
    ensures InsertedLength(rest) == |xs| + InsertedLength(rest[1..])
  {
  }

  /** One step of the location, from a retain: it locates the index or walks past it. */
  lemma LocateFromRetain(rest: ListOp<Json>, kk: int, n: nat)
    requires |rest| > 0 && rest[0] == Retain(n)
    ensures Locate(rest, kk) ==
      if n > kk then Location(true, false, 0, InsertedLength(rest[1..]), 0)
      else Locate(rest[1..], kk - n)
    ensures InsertedLength(rest) == InsertedLength(rest[1..])
  {
  }

  /** One step of the location, from a delete: it covers the index or walks past it. */
  lemma LocateFromDelete(rest: ListOp<Json>, kk: int, xs: seq<Json>)
    requires |rest| > 0 && rest[0] == Delete(xs)
    ensures Locate(rest, kk) ==
      if |xs| > kk then Location(true, true, 0, InsertedLength(rest[1..]), 0)
      else Shifted(Locate(rest[1..], kk - |xs|), 0, |xs|)
    ensures InsertedLength(rest) == InsertedLength(rest[1..])
  {
  }

  /**
   * The state of the first pass: `c0` counts the elements walked until one reaches past the
   * child's index `k`, then holds -1; `c1` adds every insert and subtracts each delete
   * walked while `c0` counts; `isDelete` records the kind of the component that reached.
   */
  datatype PassState = PassState(c0: int, c1: int, isDelete: bool)

  /** One callback of the first pass; reading the index of a missing child is a null dereference. */
  function Visit(st: PassState, c: Component<Json>, k: Option<int>): Result<PassState>
  {
    match c
    case Insert(xs) => Ok(st.(c1 := st.c1 + |xs|))
    case Retain(n) =>
      if st.c0 == -1 then Ok(st)
      else if k.None? then Err(NullPointer)
      else if st.c0 + n > k.value then Ok(PassState(-1, st.c1, false))
      else Ok(st.(c0 := st.c0 + n))
    case Delete(xs) =>
      if st.c0 == -1 then Ok(st)
      else if k.None? then Err(NullPointer)
      else if st.c0 + |xs| > k.value then Ok(PassState(-1, st.c1 - |xs|, true))
      else Ok(st.(c0 := st.c0 + |xs|, c1 := st.c1 - |xs|))
  }

  /** The callbacks over the remaining components, then the located assertion. */
  function Pass(ops: ListOp<Json>, st: PassState, k: Option<int>): Result<(bool, int)>
  {
    if |ops| == 0 then
      if st.c0 != -1 then Err(AssertionFailed) else Ok((st.isDelete, st.c1))
    else
      var next :- Visit(st, ops[0], k);
      Pass(ops[1..], next, k)
  }

  /** Once located, the pass only adds the remaining inserts to `c1`. */
  lemma {:induction false} PassLocated(ops: ListOp<Json>, st: PassState, k: Option<int>)
    requires st.c0 == -1
    ensures Pass(ops, st, k) == Ok((st.isDelete, st.c1 + InsertedLength(ops)))
  {
    if |ops| > 0 {
      PassLocated(ops[1..], Visit(st, ops[0], k).value, k);
    }
  }

  /** What the first pass reports, given the location seen from the state `st`. */
  predicate Reports(l: Location, r: Result<(bool, int)>, st: PassState)
  {
    && (!l.found ==> r == Err(AssertionFailed))
    && (l.found ==>
          r.Ok? && r.value.0 == l.isDelete
          && (!l.isDelete ==> r.value.1 == st.c1 + OffsetAsWritten(l)))
  }

  /**
   * Without an index, the first pass dereferences null at the first retain or delete, and
   * an op of inserts only fails the located assertion.
   */
  lemma {:induction false} PassWithoutIndex(ops: ListOp<Json>, st: PassState)
    requires st.c0 >= 0
    ensures Pass(ops, st, None) == Err(if AllInserts(ops) then AssertionFailed else NullPointer)
  {
    if |ops| > 0 {
      if ops[0].Insert? {
        PassWithoutIndex(ops[1..], Visit(st, ops[0], None).value);
        assert AllInserts(ops) <==> AllInserts(ops[1..]) by {
          if AllInserts(ops[1..]) {
            forall i | 0 <= i < |ops| ensures ops[i].Insert? {
              if i > 0 { assert ops[i] == ops[1..][i - 1]; }
            }
          }
        }
      }
    }
  }

  /**
   * The first pass computes the location: it fails the located assertion when the index
   * lies past the op, and otherwise reports whether a delete covers the index and, for a
   * retained index, the shift as written.
   */
  lemma {:induction false} PassLocates(ops: ListOp<Json>, st: PassState, k: int)
    requires st.c0 >= 0
    ensures Reports(Locate(ops, k - st.c0), Pass(ops, st, Some(k)), st)
    decreases |ops|, 1
  {
    if |ops| > 0 {
      match ops[0]
      case Insert(xs) => PassLocatesInsert(ops, st, k, xs);
      case Retain(n) => PassLocatesRetain(ops, st, k, n);
      case Delete(xs) => PassLocatesDelete(ops, st, k, xs);
    }
  }

  lemma {:induction false} PassLocatesInsert(ops: ListOp<Json>, st: PassState, k: int, xs: seq<Json>)
    requires st.c0 >= 0 && |ops| > 0 && ops[0] == Insert(xs)
    ensures Reports(Locate(ops, k - st.c0), Pass(ops, st, Some(k)), st)
    decreases |ops|, 0
  {
    var st' := st.(c1 := st.c1 + |xs|);
    LocateFromInsert(ops, k - st.c0, xs);
    assert Pass(ops, st, Some(k)) == Pass(ops[1..], st', Some(k));
    PassLocates(ops[1..], st', k);
  }

  lemma {:induction false} PassLocatesRetain(ops: ListOp<Json>, st: PassState, k: int, n: nat)
    requires st.c0 >= 0 && |ops| > 0 && ops[0] == Retain(n)
    ensures Reports(Locate(ops, k - st.c0), Pass(ops, st, Some(k)), st)
    decreases |ops|, 0
  {
    LocateFromRetain(ops, k - st.c0, n);
    if st.c0 + n > k {
      PassLocated(ops[1..], PassState(-1, st.c1, false), Some(k));
    } else {
      var st' := st.(c0 := st.c0 + n);
      assert Pass(ops, st, Some(k)) == Pass(ops[1..], st', Some(k));
      PassLocates(ops[1..], st', k);
    }
  }

  lemma {:induction false} PassLocatesDelete(ops: ListOp<Json>, st: PassState, k: int, xs: seq<Json>)
    requires st.c0 >= 0 && |ops| > 0 && ops[0] == Delete(xs)
    ensures Reports(Locate(ops, k - st.c0), Pass(ops, st, Some(k)), st)
    decreases |ops|, 0
  {
    LocateFromDelete(ops, k - st.c0, xs);
    if st.c0 + |xs| > k {
      PassLocated(ops[1..], PassState(-1, st.c1 - |xs|, true), Some(k));
    } else {
      var st' := st.(c0 := st.c0 + |xs|, c1 := st.c1 - |xs|);
      assert Pass(ops, st, Some(k)) == Pass(ops[1..], st', Some(k));
      PassLocates(ops[1..], st', k);
    }
  }

  /**
   * The first pass as the code runs it, one callback per component, ending in the located
   * assertion; it yields whether a delete covered the index and, for a retained index, the
   * shift it computed (after a covering delete the count is not used).
   */
  method LocateChild(op: ListOp<Json>, k: Option<int>) returns (r: Result<(bool, int)>)
    ensures k.None? ==> r == Err(if AllInserts(op) then AssertionFailed else NullPointer)
    ensures k.Some? && !Locate(op, k.value).found ==> r == Err(AssertionFailed)
    ensures k.Some? && Locate(op, k.value).found ==>
      r.Ok? && r.value.0 == Locate(op, k.value).isDelete
      && (!r.value.0 ==> r.value.1 == OffsetAsWritten(Locate(op, k.value)))
  {
    if k.None? {
      PassWithoutIndex(op, PassState(0, 0, false));
    } else {
      PassLocates(op, PassState(0, 0, false), k.value);
    }
    var c0, c1, isDelete := 0, 0, false;
    var i := 0;
    assert op[0..] == op;
    while i < |op|
      invariant 0 <= i <= |op|
      invariant Pass(op, PassState(0, 0, false), k) == Pass(op[i..], PassState(c0, c1, isDelete), k)
    {
      assert op[i..][1..] == op[i + 1..];
      match op[i] {
      case Delete(xs) =>
        if c0 != -1 {
          if k.None? { return Err(NullPointer); }
          c0, c1 := c0 + |xs|, c1 - |xs|;
          if c0 > k.value {
            isDelete, c0 := true, -1;
          }
        }
      case Insert(xs) =>
        c1 := c1 + |xs|;
      case Retain(n) =>
        if c0 != -1 {
          if k.None? { return Err(NullPointer); }
          c0 := c0 + n;
          if c0 > k.value {
            isDelete, c0 := false, -1;
          }
        }
      }
      i := i + 1;
    }
    if c0 != -1 {
      return Err(AssertionFailed);
    }
    return Ok((isDelete, c1));
  }

  /** The items of a delete copied one by one, the element at `k` replaced by its replay. */
  method ReplayDeleted(xs: seq<Json>, k: int, replay: Replay) returns (r: Result<seq<Json>>)
    ensures r == ReplayIn(xs, k, replay)
  {
    var copy: seq<Json> := [];
    var i := 0;
    while i < |xs|
      invariant 0 <= i <= |xs| && |copy| == i
      invariant 0 <= k < i ==> replay(xs[k]).Ok?
      invariant forall j | 0 <= j < i :: copy[j] == (if j == k then replay(xs[j]).value else xs[j])
    {
      var e := xs[i];
      if i == k {
        var v := replay(xs[i]);
        if v.Err? {
          return Err(v.error);
        }
        e := v.value;
      }
      copy := Documents.ArraySet(copy, i, e).value;
      i := i + 1;
    }
    if 0 <= k < |xs| {
      assert copy == xs[k := replay(xs[k]).value];
    } else {
      assert copy == xs;
    }
    return Ok(copy);
  }

  function Prepend(built: ListOp<Json>, r: Result<ListOp<Json>>): Result<ListOp<Json>>
  {
    if r.Err? then r else Ok(built + r.value)
  }

  lemma PrependStep(built: ListOp<Json>, c: Component<Json>, r: Result<ListOp<Json>>)
    ensures Prepend(built, Prepend([c], r)) == Prepend(built + [c], r)
  {
    if r.Ok? {
      assert built + ([c] + r.value) == built + [c] + r.value;
    }
  }

  /** One step of the second pass: the first component copied, then the rest. */
  lemma RebuiltStep(tail: ListOp<Json>, kk: int, replay: Replay)
    requires |tail| > 0
    ensures Rebuilt(tail, kk, replay) ==
      var c := Copied(tail[0], kk, replay);
      if c.Err? then Err(c.error)
      else Prepend([c.value], Rebuilt(tail[1..], kk - Width(tail[0]), replay))
  {
  }

  /** The second pass advanced by one component: a failed copy ends it, a copy joins `built`. */
  lemma RebuiltAdvance(op: ListOp<Json>, i: nat, k: int, c0: int, replay: Replay, built: ListOp<Json>)
    requires i < |op|
    ensures var c := Copied(op[i], k - c0, replay);
      && (c.Err? ==> Prepend(built, Rebuilt(op[i..], k - c0, replay)) == Err(c.error))
      && (c.Ok? ==> Prepend(built, Rebuilt(op[i..], k - c0, replay))
                    == Prepend(built + [c.value], Rebuilt(op[i + 1..], k - (c0 + Width(op[i])), replay)))
  {
    var kk := k - c0;
    assert op[i..][1..] == op[i + 1..];
    assert kk - Width(op[i]) == k - (c0 + Width(op[i]));
    RebuiltStep(op[i..], kk, replay);
    var c := Copied(op[i], kk, replay);
    if c.Ok? {
      PrependStep(built, c.value, Rebuilt(op[i + 1..], kk - Width(op[i]), replay));
    }
  }

  /** The second pass before its first component: nothing built yet. */
  lemma PrependNothing(op: ListOp<Json>, k: int, replay: Replay)
    ensures Rebuilt(op, k, replay) == Prepend([], Rebuilt(op[0..], k, replay))
  {
    assert op[0..] == op;
    if Rebuilt(op, k, replay).Ok? {
      assert [] + Rebuilt(op, k, replay).value == Rebuilt(op, k, replay).value;
    }
  }

  /** The second pass past its last component: what is built is the result. */
  lemma RebuiltRunOut(op: ListOp<Json>, i: nat, kk: int, replay: Replay, built: ListOp<Json>)
    requires i == |op|
    ensures Prepend(built, Rebuilt(op[i..], kk, replay)) == Ok(built)
  {
    assert op[i..] == [];
    assert built + [] == built;
  }

  /**
   * One callback of the second pass: a delete reaching past the child's index has its items
   * copied with the replay; any other component is passed on as it is.
   */
  method CopyComponent(c: Component<Json>, kk: int, replay: Replay) returns (r: Result<Component<Json>>)
    ensures r == Copied(c, kk, replay)
  {
    match c {
    case Delete(xs) =>
      var list := xs;
      if |xs| > kk {
        var replayed := ReplayDeleted(xs, kk, replay);
        if replayed.Err? {
          return Err(replayed.error);
        }
        list := replayed.value;
      }
      return Ok(Delete(list));
    case Insert(xs) =>
      return Ok(c);
    case Retain(n) =>
      return Ok(c);
    }
  }

  /**
   * The second pass: the op copied component by component into a new one; a delete that
   * reaches past the child's index is rebuilt with the child's element replayed.
   */
  method RebuildOp(op: ListOp<Json>, k: int, replay: Replay) returns (r: Result<ListOp<Json>>)
    ensures r == Rebuilt(op, k, replay)
  {
    var built: ListOp<Json> := [];
    var c0 := 0;
    var i := 0;
    ghost var want := Rebuilt(op, k, replay);
    PrependNothing(op, k, replay);
    while i < |op|
      invariant 0 <= i <= |op|
      invariant want == Prepend(built, Rebuilt(op[i..], k - c0, replay))
    {
      RebuiltAdvance(op, i, k, c0, replay, built);
      var c := CopyComponent(op[i], k - c0, replay);
      if c.Err? {
        return Err(c.error);
      }
      built := built + [c.value];
      c0 := c0 + Width(op[i]);
      i := i + 1;
    }
    RebuiltRunOut(op, i, k - c0, replay, built);
    return Ok(built);
  }

  /** `transformWithChild` as the code runs it: the two passes, with the shift and the child path as written. */
  method TransformWithChild(serverIsParent: bool, parent: JsonOp, child: JsonOp) returns (r: Result<(JsonOp, JsonOp)>)
    requires parent.op.Elements?
    ensures r == Transformed(serverIsParent, parent, child, false)
  {
    if child.path.None? || parent.path.None? {
      return Err(NullPointer);
    }
    var next := Paths.NextIndex(child.path.value, parent.path.value);
    if next.Err? {
      return Err(next.error);
    }
    var pair := next.value;
    var located := LocateChild(parent.op.elements, if pair.Some? then Some(pair.value.0 as int) else None);
    if located.Err? {
      return Err(located.error);
    }
    var (isDelete, shift) := located.value;
    if !isDelete {
      if shift == 0 {
        return Ok(ObjectOps.Oriented(serverIsParent, parent, child));
      }
      var path := ChildPathAsWritten(child.path.value, pair.value.0, shift);
      if path.Err? {
        return Err(path.error);
      }
      return Ok(ObjectOps.Oriented(serverIsParent, parent, JsonOp(Some(path.value), child.op)));
    }
    var op' := RebuildOp(parent.op.elements, pair.value.0 as int, Replayer(pair.value.1, child.op));
    if op'.Err? {
      return Err(op'.error);
    }
    return Ok(ObjectOps.Oriented(serverIsParent, JsonOp(parent.path, Ops.Elements(op'.value)), NoJsonOp));
  }
}
