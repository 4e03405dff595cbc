/**
 * List operations: a sequence of retain / insert / delete components replayed by a cursor
 * walk over a list (the characters of a string, or the elements of a JSON array).
 * `ListOp` itself is not part of this model; it is represented by its component sequence,
 * and its `apply` by the walks that its targets (`JString`, `JArray`, the realtime string
 * and list) perform.
 */
module ListOps {
  import opened Wrappers
  import opened Json

  datatype Component<T> = Retain(n: nat) | Insert(items: seq<T>) | Delete(items: seq<T>)

  type ListOp<T> = seq<Component<T>>

  /**
   * What `ListOp` itself gives its callers, taken as given: `isNoOp`, `composeWith`,
   * `transformWith`, the collector's `composeAll`, `toString` as a JSON value, and the
   * parsing constructor.
   */
  datatype Algebra<!T> = Algebra(
    isNoOp: ListOp<T> -> bool,
    compose: (ListOp<T>, ListOp<T>) -> Result<ListOp<T>>,
    transform: (ListOp<T>, ListOp<T>) -> Result<(ListOp<T>, ListOp<T>)>,
    composeAll: seq<ListOp<T>> -> Result<ListOp<T>>,
    write: ListOp<T> -> Json,
    parse: Json -> Result<ListOp<T>>)

  /**
   * The three cursor walks differ only in which assertion or exception a bad component hits:
   * `ModelText` is `JString.doConsume`, `RealtimeText` is `CollaborativeString.consume`,
   * `Elements` is `JArray.doConsume` and `CollaborativeList.consume`.
   */
  datatype Target = ModelText | RealtimeText | Elements

  /** JArray and CollaborativeList assert `list.length() > 0` for an insert. */
  predicate RejectsEmptyInsert(target: Target) { target == Elements }

  /** Only JString lets an empty delete through. */
  predicate RejectsEmptyDelete(target: Target) { target != ModelText }

  /** Strings fail in `substring`; arrays fail an assertion first. */
  function DeleteBoundsError(target: Target): Error
  {
    if target == Elements then AssertionFailed else IndexOutOfBounds
  }

  /**
   * Replays `op` on `s` with the cursor at `cursor`: a retain moves the cursor, an insert
   * splices its items in at the cursor and moves past them, a delete checks that the items
   * at the cursor are exactly its items and removes them without moving the cursor.
   */
  function ApplyAt<T(==)>(op: ListOp<T>, s: seq<T>, cursor: nat, target: Target): Result<seq<T>>
    decreases |op|
  {
    if |op| == 0 then Ok(s)
    else
      match op[0]
      case Retain(n) => ApplyAt(op[1..], s, cursor + n, target)
      case Insert(xs) =>
        if cursor > |s| || (RejectsEmptyInsert(target) && |xs| == 0) then Err(AssertionFailed)
        else ApplyAt(op[1..], s[..cursor] + xs + s[cursor..], cursor + |xs|, target)
      case Delete(xs) =>
        if cursor + |xs| > |s| then Err(DeleteBoundsError(target))
        else if s[cursor..cursor + |xs|] != xs then Err(AssertionFailed)
        else if RejectsEmptyDelete(target) && |xs| == 0 then Err(AssertionFailed)
        else ApplyAt(op[1..], s[..cursor] + s[cursor + |xs|..], cursor, target)
  }

  /** `op.apply(target)` on a fresh target: the cursor starts at 0. */
  function Apply<T(==)>(op: ListOp<T>, s: seq<T>, target: Target): Result<seq<T>>
  {
    ApplyAt(op, s, 0, target)
  }

  function InsertedLength<T>(op: ListOp<T>): nat
  {
    if |op| == 0 then 0
    else (if op[0].Insert? then |op[0].items| else 0) + InsertedLength(op[1..])
  }

  function DeletedLength<T>(op: ListOp<T>): nat
  {
    if |op| == 0 then 0
    else (if op[0].Delete? then |op[0].items| else 0) + DeletedLength(op[1..])
  }

  /** The component-wise inverse built by `ListOpInverter`. */
  function Invert<T>(op: ListOp<T>): (r: ListOp<T>)
    ensures |r| == |op|
  {
    if |op| == 0 then []
    else
      var c := match op[0]
        case Retain(n) => Retain(n)
        case Insert(xs) => Delete(xs)
        case Delete(xs) => Insert(xs);
      [c] + Invert(op[1..])
  }

  predicate NoEmptyEdits<T>(op: ListOp<T>)
  {
    forall i | 0 <= i < |op| :: !op[i].Retain? ==> |op[i].items| > 0
  }

  /** The walk from a retain: the rest walks the same list from the moved cursor. */
  lemma RetainStep<T>(rest: ListOp<T>, s: seq<T>, cursor: nat, target: Target, n: nat)
    requires |rest| > 0 && rest[0] == Retain(n)
    ensures ApplyAt(rest, s, cursor, target) == ApplyAt(rest[1..], s, cursor + n, target)
  {
  }

  /** The walk from an insert: it fails there, or the rest walks the spliced list. */
  lemma InsertStep<T>(rest: ListOp<T>, s: seq<T>, cursor: nat, target: Target, xs: seq<T>)
    requires |rest| > 0 && rest[0] == Insert(xs)
    ensures ApplyAt(rest, s, cursor, target) ==
      if cursor > |s| || (RejectsEmptyInsert(target) && |xs| == 0) then Err(AssertionFailed)
      else ApplyAt(rest[1..], s[..cursor] + xs + s[cursor..], cursor + |xs|, target)
  {
  }

  /** The walk from a delete: it fails there, or the rest walks the list without its items. */
  lemma DeleteStep<T>(rest: ListOp<T>, s: seq<T>, cursor: nat, target: Target, xs: seq<T>)
    requires |rest| > 0 && rest[0] == Delete(xs)
    ensures ApplyAt(rest, s, cursor, target) ==
      if cursor + |xs| > |s| then Err(DeleteBoundsError(target))
      else if s[cursor..cursor + |xs|] != xs then Err(AssertionFailed)
      else if RejectsEmptyDelete(target) && |xs| == 0 then Err(AssertionFailed)
      else ApplyAt(rest[1..], s[..cursor] + s[cursor + |xs|..], cursor, target)
  {
  }

  /** A successful walk changes the length by what it inserts minus what it deletes. */
  lemma {:induction false} ApplyLength<T>(op: ListOp<T>, s: seq<T>, cursor: nat, target: Target)
    requires ApplyAt(op, s, cursor, target).Ok?
    ensures |ApplyAt(op, s, cursor, target).value| + DeletedLength(op) == |s| + InsertedLength(op)
    decreases |op|
  {
    if |op| > 0 {
      match op[0]
      case Retain(n) =>
        ApplyLength(op[1..], s, cursor + n, target);
      case Insert(xs) =>
        ApplyLength(op[1..], s[..cursor] + xs + s[cursor..], cursor + |xs|, target);
      case Delete(xs) =>
        ApplyLength(op[1..], s[..cursor] + s[cursor + |xs|..], cursor, target);
    }
  }

  /**
   * A walk never looks left of its starting cursor: walking over `a + b` from `|a| + c`
   * is walking over `b` from `c` with `a` kept in front.
   */
  lemma {:induction false} ApplyShift<T>(op: ListOp<T>, a: seq<T>, b: seq<T>, c: nat, target: Target)
    ensures ApplyAt(op, a + b, |a| + c, target).Ok? <==> ApplyAt(op, b, c, target).Ok?
    ensures ApplyAt(op, b, c, target).Ok? ==>
      ApplyAt(op, a + b, |a| + c, target).value == a + ApplyAt(op, b, c, target).value
    decreases |op|
  {
    if |op| > 0 {
      match op[0]
      case Retain(n) =>
        ApplyShift(op[1..], a, b, c + n, target);
      case Insert(xs) =>
        ShiftedInsert(op, a, b, c, target, xs);
        if c <= |b| && !(RejectsEmptyInsert(target) && |xs| == 0) {
          ApplyShift(op[1..], a, b[..c] + xs + b[c..], c + |xs|, target);
        }
      case Delete(xs) =>
        ShiftedDelete(op, a, b, c, target, xs);
        if c + |xs| <= |b| && b[c..c + |xs|] == xs && !(RejectsEmptyDelete(target) && |xs| == 0) {
          ApplyShift(op[1..], a, b[..c] + b[c + |xs|..], c, target);
        }
    }
  }

  /** An insert step over `a + b` from `|a| + c` is the insert step over `b` from `c`. */
  lemma ShiftedInsert<T>(op: ListOp<T>, a: seq<T>, b: seq<T>, c: nat, target: Target, xs: seq<T>)
    requires |op| > 0 && op[0] == Insert(xs)
    ensures c <= |b| && !(RejectsEmptyInsert(target) && |xs| == 0) ==>
      ApplyAt(op, a + b, |a| + c, target) == ApplyAt(op[1..], a + (b[..c] + xs + b[c..]), |a| + (c + |xs|), target)
      && ApplyAt(op, b, c, target) == ApplyAt(op[1..], b[..c] + xs + b[c..], c + |xs|, target)
    ensures !(c <= |b| && !(RejectsEmptyInsert(target) && |xs| == 0)) ==>
      ApplyAt(op, a + b, |a| + c, target).Err? && ApplyAt(op, b, c, target).Err?
  {
    if c <= |b| && !(RejectsEmptyInsert(target) && |xs| == 0) {
      InsertStepOnConcat(op, a, b, c, target, xs);
      SpliceShift(a, b, c, xs);
      var x := (a + b)[..|a| + c] + xs + (a + b)[|a| + c..];
      var y := a + (b[..c] + xs + b[c..]);
      assert x == y;
      assert ApplyAt(op, a + b, |a| + c, target) == ApplyAt(op[1..], x, |a| + c + |xs|, target);
      assert ApplyAt(op[1..], x, |a| + c + |xs|, target) == ApplyAt(op[1..], y, |a| + (c + |xs|), target);
      InsertStep(op, b, c, target, xs);
    } else {
      InsertStep(op, a + b, |a| + c, target, xs);
    }
  }


  /** `InsertStep` on a concatenation, where the cursor lies in or at the end of its tail. */
  lemma InsertStepOnConcat<T>(op: ListOp<T>, a: seq<T>, b: seq<T>, c: nat, target: Target, xs: seq<T>)
    requires |op| > 0 && op[0] == Insert(xs)
    requires c <= |b| && !(RejectsEmptyInsert(target) && |xs| == 0)
    ensures ApplyAt(op, a + b, |a| + c, target) == ApplyAt(op[1..], (a + b)[..|a| + c] + xs + (a + b)[|a| + c..], |a| + c + |xs|, target)
  {
    InsertStep(op, a + b, |a| + c, target, xs);
  }

  /** Splicing `xs` into `a + b` at `|a| + c` splices it into `b` at `c`. */
  lemma SpliceShift<T>(a: seq<T>, b: seq<T>, c: nat, xs: seq<T>)
    requires c <= |b|
    ensures (a + b)[..|a| + c] + xs + (a + b)[|a| + c..] == a + (b[..c] + xs + b[c..])
  {
    assert (a + b)[..|a| + c] == a + b[..c];
    assert (a + b)[|a| + c..] == b[c..];
  }

  /** Splicing the items of an insert in one at a time: one more item goes in after the others. */
  lemma SpliceOneMore<T>(s: seq<T>, cursor: nat, xs: seq<T>, k: nat)
    requires cursor <= |s| && k < |xs|
    ensures var cur := s[..cursor] + xs[..k] + s[cursor..];
      cursor + k <= |cur|
      && cur[..cursor + k] + [xs[k]] + cur[cursor + k..] == s[..cursor] + xs[..k + 1] + s[cursor..]
  {
    var cur := s[..cursor] + xs[..k] + s[cursor..];
    assert cur[..cursor + k] == s[..cursor] + xs[..k];
    assert cur[cursor + k..] == s[cursor..];
    assert xs[..k + 1] == xs[..k] + [xs[k]];
  }

  /** A delete step over `a + b` from `|a| + c` is the delete step over `b` from `c`. */
  lemma ShiftedDelete<T>(op: ListOp<T>, a: seq<T>, b: seq<T>, c: nat, target: Target, xs: seq<T>)
    requires |op| > 0 && op[0] == Delete(xs)
    ensures c + |xs| <= |b| && b[c..c + |xs|] == xs && !(RejectsEmptyDelete(target) && |xs| == 0) ==>
      ApplyAt(op, a + b, |a| + c, target) == ApplyAt(op[1..], a + (b[..c] + b[c + |xs|..]), |a| + c, target)
      && ApplyAt(op, b, c, target) == ApplyAt(op[1..], b[..c] + b[c + |xs|..], c, target)
    ensures !(c + |xs| <= |b| && b[c..c + |xs|] == xs && !(RejectsEmptyDelete(target) && |xs| == 0)) ==>
      ApplyAt(op, a + b, |a| + c, target).Err? && ApplyAt(op, b, c, target).Err?
  {
    var s := a + b;
    DeleteStep(op, s, |a| + c, target, xs);
    DeleteStep(op, b, c, target, xs);
    if c + |xs| <= |b| {
      assert s[|a| + c..|a| + c + |xs|] == b[c..c + |xs|];
      assert s[..|a| + c] + s[|a| + c + |xs|..] == a + (b[..c] + b[c + |xs|..]);
    }
  }

  /**
   * Undo: whenever `op` applies to `s` giving `t`, its inverse applies to `t` and gives
   * back `s`. On the realtime string an empty insert inverts to an empty delete, which that
   * target rejects, so there the op must have no empty inserts or deletes.
   */
  lemma {:induction false} InvertUndoes<T>(op: ListOp<T>, s: seq<T>, cursor: nat, target: Target)
    requires target != RealtimeText || NoEmptyEdits(op)
    requires ApplyAt(op, s, cursor, target).Ok?
    ensures ApplyAt(Invert(op), ApplyAt(op, s, cursor, target).value, cursor, target) == Ok(s)
    decreases |op|, 1
  {
    if |op| > 0 {
      match op[0]
      case Retain(n) =>
        assert Invert(op)[1..] == Invert(op[1..]);
        NoEmptyEditsTail(op, target);
        InvertUndoes(op[1..], s, cursor + n, target);
      case Insert(xs) => UndoesFromInsert(op, s, cursor, target);
      case Delete(xs) => UndoesFromDelete(op, s, cursor, target);
    }
  }

  lemma NoEmptyEditsTail<T>(op: ListOp<T>, target: Target)
    requires |op| > 0 && (target != RealtimeText || NoEmptyEdits(op))
    ensures target != RealtimeText || NoEmptyEdits(op[1..])
  {
    if target == RealtimeText {
      forall i | 0 <= i < |op[1..]| ensures !op[1..][i].Retain? ==> |op[1..][i].items| > 0 {
        assert op[1..][i] == op[i + 1];
      }
    }
  }

  /** A walk that succeeds from an insert keeps what precedes the cursor and walks the rest. */
  lemma InsertSplits<T>(op: ListOp<T>, s: seq<T>, cursor: nat, target: Target)
    requires |op| > 0 && op[0].Insert?
    requires ApplyAt(op, s, cursor, target).Ok?
    ensures cursor <= |s| && ApplyAt(op[1..], s[cursor..], 0, target).Ok?
    ensures ApplyAt(op, s, cursor, target).value ==
      s[..cursor] + op[0].items + ApplyAt(op[1..], s[cursor..], 0, target).value
  {
    var xs := op[0].items;
    var pre, post := s[..cursor], s[cursor..];
    InsertStep(op, s, cursor, target, xs);
    assert s[..cursor] + xs + s[cursor..] == (pre + xs) + post;
    assert ApplyAt(op, s, cursor, target) == ApplyAt(op[1..], (pre + xs) + post, |pre + xs| + 0, target);
    ApplyShift(op[1..], pre + xs, post, 0, target);
  }

  /** A walk that succeeds from a delete keeps what precedes the cursor and walks what follows the deleted items. */
  lemma DeleteSplits<T>(op: ListOp<T>, s: seq<T>, cursor: nat, target: Target)
    requires |op| > 0 && op[0].Delete?
    requires ApplyAt(op, s, cursor, target).Ok?
    ensures cursor + |op[0].items| <= |s| && ApplyAt(op[1..], s[cursor + |op[0].items|..], 0, target).Ok?
    ensures s == s[..cursor] + op[0].items + s[cursor + |op[0].items|..]
    ensures ApplyAt(op, s, cursor, target).value ==
      s[..cursor] + ApplyAt(op[1..], s[cursor + |op[0].items|..], 0, target).value
  {
    var xs := op[0].items;
    var pre, post := s[..cursor], s[cursor + |xs|..];
    DeleteStep(op, s, cursor, target, xs);
    assert ApplyAt(op, s, cursor, target) == ApplyAt(op[1..], pre + post, |pre| + 0, target);
    ApplyShift(op[1..], pre, post, 0, target);
    assert s == pre + s[cursor..cursor + |xs|] + post;
  }

  /** `InvertUndoes` when the op starts with an insert. */
  lemma {:induction false} UndoesFromInsert<T>(op: ListOp<T>, s: seq<T>, cursor: nat, target: Target)
    requires |op| > 0 && op[0].Insert?
    requires target != RealtimeText || NoEmptyEdits(op)
    requires ApplyAt(op, s, cursor, target).Ok?
    ensures ApplyAt(Invert(op), ApplyAt(op, s, cursor, target).value, cursor, target) == Ok(s)
    decreases |op|, 0
  {
    var xs := op[0].items;
    var inv := Invert(op);
    assert inv[0] == Delete(xs) && inv[1..] == Invert(op[1..]);
    NoEmptyEditsTail(op, target);
    var pre, post := s[..cursor], s[cursor..];
    InsertSplits(op, s, cursor, target);
    InvertUndoes(op[1..], post, 0, target);
    assert !(RejectsEmptyDelete(target) && |xs| == 0) by {
      if target == RealtimeText { assert !op[0].Retain?; }
    }
    UndoInsert(inv, pre, xs, ApplyAt(op[1..], post, 0, target).value, post, target);
    assert pre + post == s;
  }

  /** `InvertUndoes` when the op starts with a delete. */
  lemma {:induction false} UndoesFromDelete<T>(op: ListOp<T>, s: seq<T>, cursor: nat, target: Target)
    requires |op| > 0 && op[0].Delete?
    requires target != RealtimeText || NoEmptyEdits(op)
    requires ApplyAt(op, s, cursor, target).Ok?
    ensures ApplyAt(Invert(op), ApplyAt(op, s, cursor, target).value, cursor, target) == Ok(s)
    decreases |op|, 0
  {
    var xs := op[0].items;
    var inv := Invert(op);
    assert inv[0] == Insert(xs) && inv[1..] == Invert(op[1..]);
    NoEmptyEditsTail(op, target);
    var pre, post := s[..cursor], s[cursor + |xs|..];
    DeleteSplits(op, s, cursor, target);
    InvertUndoes(op[1..], post, 0, target);
    UndoDelete(inv, pre, xs, ApplyAt(op[1..], post, 0, target).value, post, target);
  }

  /** Undoing an insert: the inverse starts by deleting the inserted items again. */
  lemma UndoInsert<T>(inv: ListOp<T>, pre: seq<T>, xs: seq<T>, u: seq<T>, post: seq<T>, target: Target)
    requires |inv| > 0 && inv[0] == Delete(xs)
    requires !(RejectsEmptyDelete(target) && |xs| == 0)
    requires ApplyAt(inv[1..], u, 0, target) == Ok(post)
    ensures ApplyAt(inv, pre + xs + u, |pre|, target) == Ok(pre + post)
  {
    var t := pre + xs + u;
    assert ApplyAt(inv, t, |pre|, target) == ApplyAt(inv[1..], pre + u, |pre|, target) by {
      assert t[..|pre|] == pre;
      assert t[|pre|..|pre| + |xs|] == xs;
      assert t[|pre| + |xs|..] == u;
      DeleteStep(inv, t, |pre|, target, xs);
    }
    assert ApplyAt(inv[1..], pre + u, |pre| + 0, target) == Ok(pre + post) by {
      ApplyShift(inv[1..], pre, u, 0, target);
    }
  }

  /** Undoing a delete: the inverse starts by inserting the deleted items again. */
  lemma UndoDelete<T>(inv: ListOp<T>, pre: seq<T>, xs: seq<T>, u: seq<T>, post: seq<T>, target: Target)
    requires |inv| > 0 && inv[0] == Insert(xs)
    requires !(RejectsEmptyInsert(target) && |xs| == 0)
    requires ApplyAt(inv[1..], u, 0, target) == Ok(post)
    ensures ApplyAt(inv, pre + u, |pre|, target) == Ok(pre + xs + post)
  {
    var t := pre + u;
    InsertStep(inv, t, |pre|, target, xs);
    assert t[..|pre|] + xs + t[|pre|..] == (pre + xs) + u;
    ApplyShift(inv[1..], pre + xs, u, 0, target);
  }

  /**
   * `ListOpInverter`: replays an op into an output op, turning each delete into an insert
   * of the same items, each insert into a delete, and copying retains.
   */
  class ListOpInverter<T> {
    var output: ListOp<T>

    constructor (op: ListOp<T>, initial: ListOp<T>)
      ensures output == initial + Invert(op)
    {
      output := initial;
      new;
      var i := 0;
      while i < |op|
        invariant 0 <= i <= |op|
        invariant output == initial + Invert(op[..i])
        modifies this
      {
        InvertSplit(op[..i + 1]);
        assert op[..i + 1][..i] == op[..i];
        match op[i] {
          case Delete(xs) => OnDelete(xs);
          case Insert(xs) => OnInsert(xs);
          case Retain(n) => OnRetain(n);
        }
        i := i + 1;
      }
      assert op[..|op|] == op;
    }

    method OnDelete(xs: seq<T>)
      modifies this
      ensures output == old(output) + [Insert(xs)]
    {
      output := output + [Insert(xs)];
    }

    method OnInsert(xs: seq<T>)
      modifies this
      ensures output == old(output) + [Delete(xs)]
    {
      output := output + [Delete(xs)];
    }

    method OnRetain(n: nat)
      modifies this
      ensures output == old(output) + [Retain(n)]
    {
      output := output + [Retain(n)];
    }

    method Finish() returns (r: ListOp<T>)
      ensures r == output
    {
      r := output;
    }
  }

  /** Inverting component by component from the back. */
  lemma {:induction false} InvertSplit<T>(op: ListOp<T>)
    requires |op| > 0
    ensures Invert(op) == Invert(op[..|op| - 1]) + Invert([op[|op| - 1]])
    decreases |op|
  {
    if |op| > 1 {
      InvertSplit(op[1..]);
      assert op[1..][..|op| - 2] == op[..|op| - 1][1..];
      assert op[1..][|op| - 2] == op[|op| - 1];
    }
  }

  /** Inverting twice gives the op back. */
  lemma {:induction false} InvertInvolution<T>(op: ListOp<T>)
    ensures Invert(Invert(op)) == op
    decreases |op|
  {
    if |op| > 0 {
      InvertInvolution(op[1..]);
      assert Invert(op)[1..] == Invert(op[1..]);
    }
  }

  /**
   * The op of one edit, `new ListOp(isInsert, idx, items, initLength)`: a retain up to
   * `idx`, the insert or delete of `items`, and a retain over the rest of a list of
   * `initLength` elements. Zero-length retains are left out.
   */
  function SingleEdit<T>(isInsert: bool, idx: nat, items: seq<T>, initLength: nat): ListOp<T>
  {
    var before: ListOp<T> := if idx > 0 then [Retain(idx)] else [];
    var edit := if isInsert then Insert(items) else Delete(items);
    var restLength := initLength - idx - (if isInsert then 0 else |items|);
    before + [edit] + (if restLength > 0 then [Retain(restLength)] else [])
  }

  /** Retains at the end of an op change nothing. */
  lemma TrailingRetain<T>(op: ListOp<T>, s: seq<T>, cursor: nat, target: Target)
    requires forall i | 0 <= i < |op| :: op[i].Retain?
    requires |op| <= 1
    ensures ApplyAt(op, s, cursor, target) == Ok(s)
  {
  }

  /** The single insert puts its items at `idx`. */
  lemma SingleInsertApplies<T>(idx: nat, items: seq<T>, s: seq<T>, target: Target)
    requires idx <= |s| && !(RejectsEmptyInsert(target) && |items| == 0)
    ensures Apply(SingleEdit(true, idx, items, |s|), s, target) == Ok(s[..idx] + items + s[idx..])
  {
    var op := SingleEdit(true, idx, items, |s|);
    var tail: ListOp<T> := if |s| - idx > 0 then [Retain(|s| - idx)] else [];
    var t := s[..idx] + items + s[idx..];
    TrailingRetain(tail, t, idx + |items|, target);
    if idx > 0 {
      assert op == [Retain(idx), Insert(items)] + tail;
      assert op[1..] == [Insert(items)] + tail;
      assert op[1..][1..] == tail;
      assert ApplyAt(op[1..], s, idx, target) == ApplyAt(tail, t, idx + |items|, target);
      assert ApplyAt(op, s, 0, target) == ApplyAt(op[1..], s, idx, target);
    } else {
      assert op == [Insert(items)] + tail;
      assert op[1..] == tail;
      assert s[..0] + items + s[0..] == t;
    }
  }

  /** An insert past the end of the list fails at its insert. */
  lemma SingleInsertOutOfRange<T>(idx: nat, items: seq<T>, s: seq<T>, target: Target)
    requires idx > |s|
    ensures Apply(SingleEdit(true, idx, items, |s|), s, target) == Err(AssertionFailed)
  {
    var op := SingleEdit(true, idx, items, |s|);
    assert op == [Retain(idx), Insert(items)];
    RetainStep(op, s, 0, target, idx);
    InsertStep(op[1..], s, idx, target, items);
  }

  /** The single delete removes its items from `idx`, when they are there. */
  lemma SingleDeleteApplies<T>(idx: nat, items: seq<T>, s: seq<T>, target: Target)
    requires idx + |items| <= |s| && s[idx..idx + |items|] == items
    requires !(RejectsEmptyDelete(target) && |items| == 0)
    ensures Apply(SingleEdit(false, idx, items, |s|), s, target) == Ok(s[..idx] + s[idx + |items|..])
  {
    var op := SingleEdit(false, idx, items, |s|);
    var rest := |s| - idx - |items|;
    var tail: ListOp<T> := if rest > 0 then [Retain(rest)] else [];
    var t := s[..idx] + s[idx + |items|..];
    TrailingRetain(tail, t, idx, target);
    if idx > 0 {
      assert op == [Retain(idx), Delete(items)] + tail;
      assert op[1..] == [Delete(items)] + tail;
      assert op[1..][1..] == tail;
      assert ApplyAt(op[1..], s, idx, target) == ApplyAt(tail, t, idx, target);
      assert ApplyAt(op, s, 0, target) == ApplyAt(op[1..], s, idx, target);
    } else {
      assert op == [Delete(items)] + tail;
      assert op[1..] == tail;
      assert s[..0] + s[|items|..] == t;
    }
  }

  // ---------------------------------------------------------------- edits

  /** One change a walk makes at a position: the target's `insert` or `delete` callback. */
  datatype Edit<T> = Inserted(index: nat, items: seq<T>) | Deleted(index: nat, items: seq<T>)

  /** The edits the walk of `op` makes from `cursor`, in order; retains only move the cursor. */
  function Edits<T>(op: ListOp<T>, cursor: nat): seq<Edit<T>>
    decreases |op|
  {
    if |op| == 0 then []
    else
      match op[0]
      case Retain(n) => Edits(op[1..], cursor + n)
      case Insert(xs) => [Inserted(cursor, xs)] + Edits(op[1..], cursor + |xs|)
      case Delete(xs) => [Deleted(cursor, xs)] + Edits(op[1..], cursor)
  }

  /**
   * What a listener that replays the edits, each at its own index, makes of a list: an insert
   * within the list splices its items in, a delete takes out exactly its items; anything else
   * does not fit.
   */
  function Replay<T(==)>(s: seq<T>, edits: seq<Edit<T>>): Option<seq<T>>
    decreases |edits|
  {
    if |edits| == 0 then Some(s)
    else
      match edits[0]
      case Inserted(i, xs) =>
        if i <= |s| then Replay(s[..i] + xs + s[i..], edits[1..]) else None
      case Deleted(i, xs) =>
        if i + |xs| <= |s| && s[i..i + |xs|] == xs then Replay(s[..i] + s[i + |xs|..], edits[1..]) else None
  }

  /** The edits a successful walk reports, replayed on the list it started from, give its result. */
  lemma {:induction false} EditsReplay<T>(op: ListOp<T>, s: seq<T>, cursor: nat, target: Target)
    requires ApplyAt(op, s, cursor, target).Ok?
    ensures Replay(s, Edits(op, cursor)) == Some(ApplyAt(op, s, cursor, target).value)
    decreases |op|
  {
    if |op| > 0 {
      match op[0]
      case Retain(n) =>
        EditsReplay(op[1..], s, cursor + n, target);
      case Insert(xs) =>
        EditsReplay(op[1..], s[..cursor] + xs + s[cursor..], cursor + |xs|, target);
        assert ([Inserted(cursor, xs)] + Edits(op[1..], cursor + |xs|))[1..] == Edits(op[1..], cursor + |xs|);
      case Delete(xs) =>
        EditsReplay(op[1..], s[..cursor] + s[cursor + |xs|..], cursor, target);
        assert ([Deleted(cursor, xs)] + Edits(op[1..], cursor))[1..] == Edits(op[1..], cursor);
    }
  }

  /** One component's step of the walk: the list and the cursor after it, or the error it hits. */
  function Step<T(==)>(c: Component<T>, s: seq<T>, cursor: nat, target: Target): Result<(seq<T>, nat)>
  {
    match c
    case Retain(n) => Ok((s, cursor + n))
    case Insert(xs) =>
      if cursor > |s| || (RejectsEmptyInsert(target) && |xs| == 0) then Err(AssertionFailed)
      else Ok((s[..cursor] + xs + s[cursor..], cursor + |xs|))
    case Delete(xs) =>
      if cursor + |xs| > |s| then Err(DeleteBoundsError(target))
      else if s[cursor..cursor + |xs|] != xs then Err(AssertionFailed)
      else if RejectsEmptyDelete(target) && |xs| == 0 then Err(AssertionFailed)
      else Ok((s[..cursor] + s[cursor + |xs|..], cursor))
  }

  /** Where a component leaves the cursor, whatever the list. */
  function Advance<T>(c: Component<T>, cursor: nat): nat
  {
    match c
    case Retain(n) => cursor + n
    case Insert(xs) => cursor + |xs|
    case Delete(_) => cursor
  }

  /** The edit one component reports: none for a retain. */
  function EditOf<T>(c: Component<T>, cursor: nat): seq<Edit<T>>
  {
    match c
    case Retain(_) => []
    case Insert(xs) => [Inserted(cursor, xs)]
    case Delete(xs) => [Deleted(cursor, xs)]
  }

  /**
   * The walk from the component at `i` on is that component's step followed by the walk of
   * the rest, and reports that component's edit followed by the rest's.
   */
  lemma WalkStep<T>(op: ListOp<T>, i: nat, s: seq<T>, cursor: nat, target: Target)
    requires i < |op|
    ensures Step(op[i], s, cursor, target).Err? ==>
      ApplyAt(op[i..], s, cursor, target) == Err(Step(op[i], s, cursor, target).error)
    ensures Step(op[i], s, cursor, target).Ok? ==>
      Step(op[i], s, cursor, target).value.1 == Advance(op[i], cursor)
      && ApplyAt(op[i..], s, cursor, target)
         == ApplyAt(op[i + 1..], Step(op[i], s, cursor, target).value.0, Advance(op[i], cursor), target)
    ensures Edits(op[i..], cursor) == EditOf(op[i], cursor) + Edits(op[i + 1..], Advance(op[i], cursor))
  {
    assert op[i..][0] == op[i] && op[i..][1..] == op[i + 1..];
  }

  /** `done` are the edits of the first `i` components of `op`, which leave the cursor at `cursor`. */
  ghost predicate Reported<T>(op: ListOp<T>, i: nat, cursor: nat, done: seq<Edit<T>>)
  {
    i <= |op| && done + Edits(op[i..], cursor) == Edits(op, 0)
  }

  /** One more component reported: its edit joins those already reported. */
  lemma ReportedStep<T>(op: ListOp<T>, i: nat, cursor: nat, done: seq<Edit<T>>)
    requires i < |op| && Reported(op, i, cursor, done)
    ensures Reported(op, i + 1, Advance(op[i], cursor), done + EditOf(op[i], cursor))
  {
    WalkStep(op, i, [], cursor, ModelText);
    assert done + Edits(op[i..], cursor)
        == (done + EditOf(op[i], cursor)) + Edits(op[i + 1..], Advance(op[i], cursor));
  }

  /** Every component reported: the edits are those of the whole walk. */
  lemma ReportedAll<T>(op: ListOp<T>, cursor: nat, done: seq<Edit<T>>)
    requires Reported(op, |op|, cursor, done)
    ensures done == Edits(op, 0)
  {
    assert op[|op|..] == [];
  }

  /** The single edit's walk reports exactly that one edit. */
  lemma SingleEditEdits<T>(isInsert: bool, idx: nat, items: seq<T>, initLength: nat)
    ensures Edits(SingleEdit(isInsert, idx, items, initLength), 0) ==
      [if isInsert then Inserted(idx, items) else Deleted(idx, items)]
  {
    var op := SingleEdit(isInsert, idx, items, initLength);
    var restLength := initLength - idx - (if isInsert then 0 else |items|);
    var tail: ListOp<T> := if restLength > 0 then [Retain(restLength)] else [];
    var e := if isInsert then Insert(items) else Delete(items);
    var after := if isInsert then idx + |items| else idx;
    assert Edits(tail, after) == [];
    if idx > 0 {
      assert op == [Retain(idx), e] + tail;
      assert op[1..] == [e] + tail;
      assert op[1..][1..] == tail;
    } else {
      assert op == [e] + tail;
      assert op[1..] == tail;
    }
  }
}
