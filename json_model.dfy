/**
 * `JsonModel`: the op-list operations of the JSON model. `compose` merges runs of consecutive
 * ops at one path, and `transform` cross-transforms a list of server ops with a list of client
 * ops. Each is a method that walks its list as the model does, proved equal to a function of
 * its inputs; the properties are proved about those functions.
 *
 * Each function takes a flag choosing between the code as written and a corrected version:
 * `compose` keeps the path of a composition it drops as the current path, and `transform`
 * loses the transformed client op when the server op collapses.
 */
module JsonModels {
  import opened Wrappers
  import opened Json
  import opened Ops
  import ListOps
  import MapOps
  import JsonOps
  import Documents
  import Paths

  function Last<T>(s: seq<T>): T
    requires |s| > 0
  {
    s[|s| - 1]
  }

  function DropLast<T>(s: seq<T>): seq<T>
    requires |s| > 0
  {
    s[..|s| - 1]
  }

  // ---------------------------------------------------------------------------------------
  // compose

  /** The `ListOpCollector` of a same-path run of list ops, or none. */
  datatype Collector = Idle | Texts(texts: seq<ListOps.ListOp<char>>) | Lists(lists: seq<ListOps.ListOp<Json>>)

  /** The locals of `compose` between two ops: the output, `currentPath` and `collector`. */
  datatype ComposeState = ComposeState(out: seq<JsonOp>, current: Option<string>, collector: Collector)

  const Start := ComposeState([], None, Idle)

  /**
   * `collector.add`: the first list op of a run creates the collector of its own kind and
   * adds the op on top of the output before it; a list op of another kind fails the cast.
   */
  function Collect(c: Collector, top: Op, op: Op): (r: Result<Collector>)
    requires op.Text? || op.Elements?
    ensures r.Ok? ==> !r.value.Idle?
    ensures c.Texts? ==> r == (if op.Text? then Ok(Texts(c.texts + [op.text])) else Err(Runtime))
    ensures c.Lists? ==> r == (if op.Elements? then Ok(Lists(c.lists + [op.elements])) else Err(Runtime))
  {
    match c
    case Idle =>
      if op.Text? && top.Text? then Ok(Texts([top.text, op.text]))
      else if op.Elements? && top.Elements? then Ok(Lists([top.elements, op.elements]))
      else Err(Runtime)
    case Texts(ts) => if op.Text? then Ok(Texts(ts + [op.text])) else Err(Runtime)
    case Lists(ls) => if op.Elements? then Ok(Lists(ls + [op.elements])) else Err(Runtime)
  }

  /**
   * `composeListOps`: the collected run composed at once replaces the last output op, at its
   * path; a composition that is the no-op removes it.
   */
  function ComposeListOps(alg: ListAlgebra, out: seq<JsonOp>, c: Collector): (r: Result<seq<JsonOp>>)
    ensures c.Idle? ==> r == Ok(out)
    ensures r.Ok? && !c.Idle? ==> |out| > 0 && |out| - 1 <= |r.value| <= |out| && r.value[..|out| - 1] == DropLast(out)
  {
    match c
    case Idle => Ok(out)
    case Texts(ts) =>
      var comp :- alg.text.composeAll(ts);
      if |out| == 0 then Err(IndexOutOfBounds)
      else if !alg.text.isNoOp(comp) then Ok(DropLast(out) + [JsonOp(Last(out).path, Text(comp))])
      else Ok(DropLast(out))
    case Lists(ls) =>
      var comp :- alg.elements.composeAll(ls);
      if |out| == 0 then Err(IndexOutOfBounds)
      else if !alg.elements.isNoOp(comp) then Ok(DropLast(out) + [JsonOp(Last(out).path, Elements(comp))])
      else Ok(DropLast(out))
  }

  /**
   * One op of `compose`. An op at a path other than the current one flushes the collector and
   * is pushed. At the current path a list op joins the collector and any other op is composed
   * with the op it pops; a no-op composition is dropped. With `reset` a dropped composition
   * also clears the current path, so the next op is not composed with an op at another path.
   */
  function Step(alg: ListAlgebra, reset: bool, st: ComposeState, op: JsonOp): Result<ComposeState>
  {
    if IsNoJsonOp(op, alg) then Err(AssertionFailed)
    else if op.path.None? then Err(NullPointer)
    else if op.path != st.current then
      var out :- ComposeListOps(alg, st.out, st.collector);
      Ok(ComposeState(out + [op], op.path, Idle))
    else if |st.out| == 0 then Err(IndexOutOfBounds)
    else if op.op.Text? || op.op.Elements? then
      var c :- Collect(st.collector, Last(st.out).op, op.op);
      Ok(ComposeState(st.out, op.path, c))
    else
      var comp :- JsonOps.ComposeJsonOps(alg, Last(st.out), op);
      if IsNoJsonOp(comp, alg) then Ok(ComposeState(DropLast(st.out), if reset then None else op.path, st.collector))
      else Ok(ComposeState(DropLast(st.out) + [comp], op.path, st.collector))
  }

  /** The ops taken one after the other, stopping at the first failure. */
  function ComposeFrom(alg: ListAlgebra, reset: bool, st: ComposeState, ops: seq<JsonOp>): Result<ComposeState>
    decreases |ops|
  {
    if |ops| == 0 then Ok(st)
    else
      var next :- Step(alg, reset, st, ops[0]);
      ComposeFrom(alg, reset, next, ops[1..])
  }

  /** What `compose` returns: the input when it is empty; otherwise the output once the last run is flushed. */
  function Composition(alg: ListAlgebra, reset: bool, ops: seq<JsonOp>): Result<seq<JsonOp>>
  {
    if |ops| == 0 then Ok(ops)
    else
      var st :- ComposeFrom(alg, reset, Start, ops);
      ComposeListOps(alg, st.out, st.collector)
  }

  /** `JsonModel.compose`, walking the ops as written. */
  method Compose(alg: ListAlgebra, ops: seq<JsonOp>) returns (r: Result<seq<JsonOp>>)
    ensures r == Composition(alg, false, ops)
  {
    if |ops| == 0 {
      return Ok(ops);
    }
    var toRtn: seq<JsonOp> := [];
    var currentPath: Option<string> := None;
    var collector: Collector := Idle;
    ghost var want := ComposeFrom(alg, false, Start, ops);
    var i := 0;
    while i < |ops|
      invariant 0 <= i <= |ops|
      invariant want == ComposeFrom(alg, false, ComposeState(toRtn, currentPath, collector), ops[i..])
    {
      var op := ops[i];
      assert ops[i..][1..] == ops[i + 1..];
      if IsNoJsonOp(op, alg) {
        return Err(AssertionFailed);
      }
      if op.path.None? {
        return Err(NullPointer);
      }
      if op.path != currentPath {
        if !collector.Idle? {
          var flushed := ComposeListOps(alg, toRtn, collector);
          if flushed.Err? {
            return Err(flushed.error);
          }
          toRtn := flushed.value;
          collector := Idle;
        }
        toRtn := toRtn + [op];
      } else {
        if |toRtn| == 0 {
          return Err(IndexOutOfBounds);
        }
        if op.op.Text? || op.op.Elements? {
          var added := Collect(collector, toRtn[|toRtn| - 1].op, op.op);
          if added.Err? {
            return Err(added.error);
          }
          collector := added.value;
        } else {
          var top := toRtn[|toRtn| - 1];
          toRtn := toRtn[..|toRtn| - 1];
          var composition := JsonOps.ComposeJsonOps(alg, top, op);
          if composition.Err? {
            return Err(composition.error);
          }
          if !IsNoJsonOp(composition.value, alg) {
            toRtn := toRtn + [composition.value];
          }
        }
      }
      currentPath := op.path;
      i := i + 1;
    }
    r := ComposeListOps(alg, toRtn, collector);
  }

  // ---------------------------------------------------------------------------------------
  // What compose keeps

  /** The number ops of a run: each adds a non-zero delta at a path. */
  predicate NumberRun(ops: seq<JsonOp>)
  {
    forall i | 0 <= i < |ops| :: ops[i].op.Number? && ops[i].op.delta != 0 && ops[i].path.Some?
  }

  /** The delta an op adds at `p`. */
  function DeltaAt(j: JsonOp, p: string): int
  {
    if j.path == Some(p) && j.op.Number? then j.op.delta else 0
  }

  /** The sum of the deltas a list of ops adds at `p`. */
  function NetDelta(ops: seq<JsonOp>, p: string): int
  {
    if |ops| == 0 then 0 else NetDelta(DropLast(ops), p) + DeltaAt(Last(ops), p)
  }

  lemma {:induction false} NetDeltaFront(x: JsonOp, rest: seq<JsonOp>, p: string)
    ensures NetDelta([x] + rest, p) == DeltaAt(x, p) + NetDelta(rest, p)
    decreases |rest|
  {
    if |rest| > 0 {
      assert DropLast([x] + rest) == [x] + DropLast(rest);
      NetDeltaFront(x, DropLast(rest), p);
    } else {
      assert DropLast([x] + rest) == [];
    }
  }

  /**
   * The states the corrected compose passes through on a number run: no collector, every
   * output op a number op that is not the no-op, and a current path, when there is one, that
   * is the path of the last output op.
   */
  predicate Settled(st: ComposeState)
  {
    st.collector.Idle?
    && NumberRun(st.out)
    && (st.current.Some? ==> |st.out| > 0 && Last(st.out).path == st.current)
  }

  /** One number op taken by the corrected compose: the state stays settled and the net deltas grow by the op's. */
  lemma NumberStep(alg: ListAlgebra, st: ComposeState, op: JsonOp)
    requires Settled(st) && op.op.Number? && op.op.delta != 0 && op.path.Some?
    ensures Step(alg, true, st, op).Ok?
      && Settled(Step(alg, true, st, op).value)
      && forall p :: NetDelta(Step(alg, true, st, op).value.out, p) == NetDelta(st.out, p) + DeltaAt(op, p)
  {
    if op.path == st.current {
      var top := Last(st.out);
      assert top.op.Number? && top.op.delta != 0;
      assert DropLast(st.out) + [top] == st.out;
      Summed(alg, true, st, op);
      var next := Step(alg, true, st, op).value;
      if top.op.delta + op.op.delta != 0 {
        assert DropLast(next.out) == DropLast(st.out);
      } else {
        assert next.out == DropLast(st.out);
      }
    } else {
      Pushed(alg, true, st, op);
      var next := Step(alg, true, st, op).value;
      assert DropLast(next.out) == st.out;
    }
  }

  /** A number run taken by the corrected compose from a settled state. */
  lemma {:induction false} NumberRunComposed(alg: ListAlgebra, st: ComposeState, ops: seq<JsonOp>)
    requires Settled(st) && NumberRun(ops)
    ensures ComposeFrom(alg, true, st, ops).Ok?
      && Settled(ComposeFrom(alg, true, st, ops).value)
      && forall p :: NetDelta(ComposeFrom(alg, true, st, ops).value.out, p) == NetDelta(st.out, p) + NetDelta(ops, p)
    decreases |ops|
  {
    if |ops| == 0 {
      assert forall p :: NetDelta(ops, p) == 0;
    } else {
      NumberStep(alg, st, ops[0]);
      var next := Step(alg, true, st, ops[0]).value;
      NumberRunComposed(alg, next, ops[1..]);
      assert [ops[0]] + ops[1..] == ops;
      forall p ensures NetDelta(ops, p) == DeltaAt(ops[0], p) + NetDelta(ops[1..], p) {
        NetDeltaFront(ops[0], ops[1..], p);
      }
    }
  }

  /**
   * The corrected compose of number ops succeeds and adds at every path what the input adds
   * there: composition does not change the meaning of the run.
   */
  lemma ComposeKeepsNet(alg: ListAlgebra, ops: seq<JsonOp>)
    requires NumberRun(ops)
    ensures Composition(alg, true, ops).Ok?
      && forall p :: NetDelta(Composition(alg, true, ops).value, p) == NetDelta(ops, p)
  {
    if |ops| > 0 {
      NumberRunComposed(alg, Start, ops);
    }
  }

  /** No two neighbours share a path. */
  predicate NewPathEach(ops: seq<JsonOp>)
  {
    forall i | 0 < i < |ops| :: ops[i].path != ops[i - 1].path
  }

  /** Ops at a path, none of them the no-op. */
  predicate Pushable(alg: ListAlgebra, ops: seq<JsonOp>)
  {
    forall i | 0 <= i < |ops| :: !IsNoJsonOp(ops[i], alg) && ops[i].path.Some?
  }

  lemma {:induction false} NewPathsPushed(alg: ListAlgebra, reset: bool, out: seq<JsonOp>, current: Option<string>, ops: seq<JsonOp>)
    requires NewPathEach(ops) && Pushable(alg, ops)
    requires |ops| > 0 ==> ops[0].path != current
    ensures ComposeFrom(alg, reset, ComposeState(out, current, Idle), ops)
      == Ok(ComposeState(out + ops, if |ops| == 0 then current else Last(ops).path, Idle))
    decreases |ops|
  {
    if |ops| > 0 {
      assert !IsNoJsonOp(ops[0], alg) && ops[0].path.Some?;
      Pushed(alg, reset, ComposeState(out, current, Idle), ops[0]);
      assert 1 < |ops| ==> ops[1..][0] == ops[1] && ops[1].path != ops[0].path;
      NewPathsPushed(alg, reset, out + [ops[0]], ops[0].path, ops[1..]);
      assert ComposeFrom(alg, reset, ComposeState(out, current, Idle), ops)
        == ComposeFrom(alg, reset, ComposeState(out + [ops[0]], ops[0].path, Idle), ops[1..]);
      assert out + [ops[0]] + ops[1..] == out + ops;
      if |ops| > 1 {
        assert Last(ops[1..]) == Last(ops);
      } else {
        assert Last(ops) == ops[0];
      }
    } else {
      assert out + ops == out;
    }
  }

  /** Ops whose neighbours are all at other paths are pushed as they are: compose returns its input. */
  lemma ComposeNewPaths(alg: ListAlgebra, reset: bool, ops: seq<JsonOp>)
    requires NewPathEach(ops) && Pushable(alg, ops)
    ensures Composition(alg, reset, ops) == Ok(ops)
  {
    if |ops| > 0 {
      NewPathsPushed(alg, reset, [], None, ops);
      assert [] + ops == ops;
    }
  }

  /** `n: +d` at path `p`. */
  function Add(p: string, d: int): JsonOp
  {
    JsonOp(Some(p), Number(d))
  }

  /** An op at a new path is pushed. */
  lemma Pushed(alg: ListAlgebra, reset: bool, st: ComposeState, op: JsonOp)
    requires st.collector.Idle? && !IsNoJsonOp(op, alg) && op.path.Some? && op.path != st.current
    ensures Step(alg, reset, st, op) == Ok(ComposeState(st.out + [op], op.path, Idle))
  {
  }

  /**
   * A number op at the current path, on top of a number op: the sum replaces the top, or,
   * when it is zero, the top goes.
   */
  lemma Summed(alg: ListAlgebra, reset: bool, st: ComposeState, op: JsonOp)
    requires st.collector.Idle? && op.op.Number? && op.op.delta != 0 && op.path.Some? && op.path == st.current
    requires |st.out| > 0 && Last(st.out).op.Number? && Last(st.out).op.delta != 0
    ensures var sum := Last(st.out).op.delta + op.op.delta;
      Step(alg, reset, st, op) == Ok(
        if sum == 0 then ComposeState(DropLast(st.out), if reset then None else op.path, Idle)
        else ComposeState(DropLast(st.out) + [JsonOp(Last(st.out).path, Number(sum))], op.path, Idle))
  {
    var sum := Last(st.out).op.delta + op.op.delta;
    assert JsonOps.ComposeJsonOps(alg, Last(st.out), op) == Ok(JsonOp(Last(st.out).path, Number(sum)));
  }

  /**
   * As written, compose composes an op with an op at another path: once `p: +1` and `p: -1`
   * cancel, `p: +5` is added to the op at `q`, and the run's net delta at `p` is lost.
   */
  lemma ComposeAsWrittenMerges(alg: ListAlgebra)
    ensures Composition(alg, false, [Add("q", 1), Add("p", 1), Add("p", -1), Add("p", 5)]) == Ok([Add("q", 6)])
    ensures NetDelta([Add("q", 6)], "p") == 0
    ensures NetDelta([Add("q", 1), Add("p", 1), Add("p", -1), Add("p", 5)], "p") == 5
  {
    var ops := [Add("q", 1), Add("p", 1), Add("p", -1), Add("p", 5)];
    var s1 := ComposeState([Add("q", 1)], Some("q"), Idle);
    var s2 := ComposeState([Add("q", 1), Add("p", 1)], Some("p"), Idle);
    var s3 := ComposeState([Add("q", 1)], Some("p"), Idle);
    var s4 := ComposeState([Add("q", 6)], Some("p"), Idle);
    assert "p"[0] != "q"[0];
    Pushed(alg, false, Start, ops[0]);
    assert Start.out + [ops[0]] == s1.out;
    Pushed(alg, false, s1, ops[1]);
    assert s1.out + [ops[1]] == s2.out;
    Summed(alg, false, s2, ops[2]);
    assert DropLast(s2.out) == s3.out;
    Summed(alg, false, s3, ops[3]);
    assert DropLast(s3.out) + [Add("q", 6)] == s4.out;
    assert ComposeFrom(alg, false, s4, ops[4..]) == Ok(s4);
    assert ComposeFrom(alg, false, s3, ops[3..]) == Ok(s4);
    assert ComposeFrom(alg, false, s2, ops[2..]) == Ok(s4);
    assert ComposeFrom(alg, false, s1, ops[1..]) == Ok(s4);
    assert ComposeFrom(alg, false, Start, ops) == Ok(s4);
    assert DropLast([Add("q", 6)]) == [];
    assert DropLast(ops) == ops[..3] && DropLast(ops[..3]) == ops[..2];
    assert DropLast(ops[..2]) == ops[..1] && DropLast(ops[..1]) == [];
  }

  /** Corrected, the same run composes to one op at each path, with the net deltas kept. */
  lemma ComposeCorrectedKeeps(alg: ListAlgebra)
    ensures Composition(alg, true, [Add("q", 1), Add("p", 1), Add("p", -1), Add("p", 5)]) == Ok([Add("q", 1), Add("p", 5)])
  {
    var ops := [Add("q", 1), Add("p", 1), Add("p", -1), Add("p", 5)];
    var s1 := ComposeState([Add("q", 1)], Some("q"), Idle);
    var s2 := ComposeState([Add("q", 1), Add("p", 1)], Some("p"), Idle);
    var s3 := ComposeState([Add("q", 1)], None, Idle);
    var s4 := ComposeState([Add("q", 1), Add("p", 5)], Some("p"), Idle);
    assert "p"[0] != "q"[0];
    Pushed(alg, true, Start, ops[0]);
    assert Start.out + [ops[0]] == s1.out;
    Pushed(alg, true, s1, ops[1]);
    assert s1.out + [ops[1]] == s2.out;
    Summed(alg, true, s2, ops[2]);
    assert DropLast(s2.out) == s3.out;
    Pushed(alg, true, s3, ops[3]);
    assert s3.out + [ops[3]] == s4.out;
    assert ComposeFrom(alg, true, s4, ops[4..]) == Ok(s4);
    assert ComposeFrom(alg, true, s3, ops[3..]) == Ok(s4);
    assert ComposeFrom(alg, true, s2, ops[2..]) == Ok(s4);
    assert ComposeFrom(alg, true, s1, ops[1..]) == Ok(s4);
    assert ComposeFrom(alg, true, Start, ops) == Ok(s4);
  }

  // ---------------------------------------------------------------------------------------
  // transform

  /** A transform of a server op against a client op, server op first. */
  type Pairwise = (JsonOp, JsonOp) -> Result<(JsonOp, JsonOp)>

  /** `JsonOp.transformWith` as the transform the loops use. */
  function JsonTransform(alg: ListAlgebra): Pairwise
  {
    (s, c) => JsonOps.TransformWith(alg, s, c)
  }

  /** A server op that survived, as a list of at most one op. */
  function Kept(so: Option<JsonOp>): seq<JsonOp>
  {
    if so.Some? then [so.value] else []
  }

  /**
   * The inner loop of `transform`: the server op against the client ops in order. A client op
   * that becomes the no-op is removed, any other is replaced by its transformed form. A server
   * op that becomes the no-op ends the loop; as written the client op of that step then stays
   * as it was unless it too became the no-op, while with `fixed` its transformed form is kept.
   */
  function InnerPass(alg: ListAlgebra, tw: Pairwise, fixed: bool, s: JsonOp, cs: seq<JsonOp>): Result<(Option<JsonOp>, seq<JsonOp>)>
    decreases |cs|
  {
    if |cs| == 0 then Ok((Some(s), []))
    else
      var p :- tw(s, cs[0]);
      if IsNoJsonOp(p.0, alg) then
        Ok((None, if IsNoJsonOp(p.1, alg) then cs[1..] else if fixed then [p.1] + cs[1..] else cs))
      else
        var r :- InnerPass(alg, tw, fixed, p.0, cs[1..]);
        Ok((r.0, if IsNoJsonOp(p.1, alg) then r.1 else [p.1] + r.1))
  }

  /** The outer loop of `transform`: each server op, not a no-op, in turn against the current client ops. */
  function Transformed(alg: ListAlgebra, tw: Pairwise, fixed: bool, ss: seq<JsonOp>, cs: seq<JsonOp>): Result<(seq<JsonOp>, seq<JsonOp>)>
    decreases |ss|
  {
    if |ss| == 0 then Ok(([], cs))
    else if IsNoJsonOp(ss[0], alg) then Err(AssertionFailed)
    else
      var r :- InnerPass(alg, tw, fixed, ss[0], cs);
      var rest :- Transformed(alg, tw, fixed, ss[1..], r.1);
      Ok((Kept(r.0) + rest.0, rest.1))
  }

  /** The server ops already written back, in front of what the rest of the loop gives. */
  function Prefixed(done: seq<JsonOp>, r: Result<(seq<JsonOp>, seq<JsonOp>)>): Result<(seq<JsonOp>, seq<JsonOp>)>
  {
    if r.Err? then Err(r.error) else Ok((done + r.value.0, r.value.1))
  }

  /** The client ops already handled, in front of what the rest of the inner loop gives. */
  function Joined(done: seq<JsonOp>, r: Result<(Option<JsonOp>, seq<JsonOp>)>): Result<(Option<JsonOp>, seq<JsonOp>)>
  {
    if r.Err? then Err(r.error) else Ok((r.value.0, done + r.value.1))
  }

  /** One round of the outer loop, read off `Transformed`. */
  lemma TransformedStep(alg: ListAlgebra, tw: Pairwise, fixed: bool, ss: seq<JsonOp>, cs: seq<JsonOp>)
    requires |ss| > 0 && !IsNoJsonOp(ss[0], alg)
    ensures var r := InnerPass(alg, tw, fixed, ss[0], cs);
      r.Err? ==> Transformed(alg, tw, fixed, ss, cs) == Err(r.error)
    ensures var r := InnerPass(alg, tw, fixed, ss[0], cs);
      r.Ok? ==> Transformed(alg, tw, fixed, ss, cs) == Prefixed(Kept(r.value.0), Transformed(alg, tw, fixed, ss[1..], r.value.1))
  {
  }

  lemma PrefixedTwice(a: seq<JsonOp>, b: seq<JsonOp>, r: Result<(seq<JsonOp>, seq<JsonOp>)>)
    ensures Prefixed(a, Prefixed(b, r)) == Prefixed(a + b, r)
  {
    if r.Ok? {
      assert a + (b + r.value.0) == a + b + r.value.0;
    }
  }

  /** The transform at client op `j` as the inner loop sees it. */
  function StepAt(tw: Pairwise, s: JsonOp, cs: seq<JsonOp>, j: nat): Result<(JsonOp, JsonOp)>
    requires j < |cs|
  {
    tw(s, cs[j])
  }

  /**
   * The server op collapses at client op `j`: the loop ends with the client ops as written
   * back, the transformed client op among them when `fixed`.
   */
  lemma InnerServerDropped(alg: ListAlgebra, tw: Pairwise, fixed: bool, s: JsonOp, cs: seq<JsonOp>, j: nat)
    requires j < |cs| && StepAt(tw, s, cs, j).Ok? && IsNoJsonOp(StepAt(tw, s, cs, j).value.0, alg)
    ensures Joined(cs[..j], InnerPass(alg, tw, fixed, s, cs[j..])) ==
      Ok((None, if IsNoJsonOp(StepAt(tw, s, cs, j).value.1, alg) then cs[..j] + cs[j + 1..]
                else if fixed then cs[j := StepAt(tw, s, cs, j).value.1] else cs))
  {
    assert cs[j..][0] == cs[j] && cs[j..][1..] == cs[j + 1..];
    assert cs[..j] + cs[j..] == cs;
    var c1 := StepAt(tw, s, cs, j).value.1;
    assert cs[..j] + ([c1] + cs[j + 1..]) == cs[j := c1];
  }

  /** The client op `j` collapses: it is removed and the loop goes on at the same index. */
  lemma InnerClientDropped(alg: ListAlgebra, tw: Pairwise, fixed: bool, s: JsonOp, cs: seq<JsonOp>, j: nat)
    requires j < |cs| && StepAt(tw, s, cs, j).Ok?
    requires !IsNoJsonOp(StepAt(tw, s, cs, j).value.0, alg) && IsNoJsonOp(StepAt(tw, s, cs, j).value.1, alg)
    ensures var cs' := cs[..j] + cs[j + 1..];
      Joined(cs[..j], InnerPass(alg, tw, fixed, s, cs[j..])) ==
      Joined(cs'[..j], InnerPass(alg, tw, fixed, StepAt(tw, s, cs, j).value.0, cs'[j..]))
  {
    var cs' := cs[..j] + cs[j + 1..];
    assert cs[j..][0] == cs[j] && cs[j..][1..] == cs[j + 1..];
    assert cs'[..j] == cs[..j] && cs'[j..] == cs[j + 1..];
  }

  /** Both ops survive: the transformed client op is written back at `j` and the loop moves on. */
  lemma InnerWritten(alg: ListAlgebra, tw: Pairwise, fixed: bool, s: JsonOp, cs: seq<JsonOp>, j: nat)
    requires j < |cs| && StepAt(tw, s, cs, j).Ok?
    requires !IsNoJsonOp(StepAt(tw, s, cs, j).value.0, alg) && !IsNoJsonOp(StepAt(tw, s, cs, j).value.1, alg)
    ensures var cs' := cs[j := StepAt(tw, s, cs, j).value.1];
      Joined(cs[..j], InnerPass(alg, tw, fixed, s, cs[j..])) ==
      Joined(cs'[..j + 1], InnerPass(alg, tw, fixed, StepAt(tw, s, cs, j).value.0, cs'[j + 1..]))
  {
    var c1 := StepAt(tw, s, cs, j).value.1;
    var cs' := cs[j := c1];
    assert cs[j..][0] == cs[j] && cs[j..][1..] == cs[j + 1..];
    assert cs'[..j + 1] == cs[..j] + [c1] && cs'[j + 1..] == cs[j + 1..];
    var r := InnerPass(alg, tw, fixed, StepAt(tw, s, cs, j).value.0, cs[j + 1..]);
    if r.Ok? {
      assert cs[..j] + ([c1] + r.value.1) == cs[..j] + [c1] + r.value.1;
    }
  }

  /** Past the last client op the server op survives as it now is. */
  lemma InnerDone(alg: ListAlgebra, tw: Pairwise, fixed: bool, s: JsonOp, cs: seq<JsonOp>)
    ensures Joined(cs[..|cs|], InnerPass(alg, tw, fixed, s, cs[|cs|..])) == Ok((Some(s), cs))
  {
    assert cs[..|cs|] + [] == cs;
  }

  /** One round of the outer loop, the output so far in front. */
  lemma OuterRound(alg: ListAlgebra, tw: Pairwise, fixed: bool, ss: seq<JsonOp>, k: nat, done: seq<JsonOp>, cs: seq<JsonOp>,
                   so: Option<JsonOp>, cs': seq<JsonOp>)
    requires k < |ss| && !IsNoJsonOp(ss[k], alg) && InnerPass(alg, tw, fixed, ss[k], cs) == Ok((so, cs'))
    ensures Prefixed(done, Transformed(alg, tw, fixed, ss[k..], cs))
      == Prefixed(done + Kept(so), Transformed(alg, tw, fixed, ss[k + 1..], cs'))
  {
    assert ss[k..][0] == ss[k] && ss[k..][1..] == ss[k + 1..];
    TransformedStep(alg, tw, fixed, ss[k..], cs);
    PrefixedTwice(done, Kept(so), Transformed(alg, tw, fixed, ss[k + 1..], cs'));
  }

  /** A round of the outer loop that fails fails the whole transform. */
  lemma OuterFails(alg: ListAlgebra, tw: Pairwise, fixed: bool, ss: seq<JsonOp>, k: nat, done: seq<JsonOp>, cs: seq<JsonOp>)
    requires k < |ss| && !IsNoJsonOp(ss[k], alg) && InnerPass(alg, tw, fixed, ss[k], cs).Err?
    ensures Prefixed(done, Transformed(alg, tw, fixed, ss[k..], cs)) == Err(InnerPass(alg, tw, fixed, ss[k], cs).error)
  {
    assert ss[k..][0] == ss[k];
    TransformedStep(alg, tw, fixed, ss[k..], cs);
  }

  /**
   * The inner loop of `JsonModel.transform`: the server op against the client ops, rewriting
   * the client list as it goes. `None` is the `continue sLoop` taken when the server op
   * collapses; otherwise the server op as it ends up. With `fixed` the transformed client op
   * is written back before that `continue`.
   */
  method TransformAgainst(alg: ListAlgebra, fixed: bool, s: JsonOp, clientOps: seq<JsonOp>)
    returns (r: Result<(Option<JsonOp>, seq<JsonOp>)>)
    ensures r == InnerPass(alg, JsonTransform(alg), fixed, s, clientOps)
  {
    ghost var tw := JsonTransform(alg);
    var serverOp := s;
    var cOps := clientOps;
    ghost var want := InnerPass(alg, tw, fixed, s, clientOps);
    var j := 0;
    assert cOps[..j] == [] && cOps[j..] == cOps;
    assert want.Ok? ==> [] + want.value.1 == want.value.1;
    assert Joined([], want) == want;
    while j < |cOps|
      invariant 0 <= j <= |cOps|
      invariant want == Joined(cOps[..j], InnerPass(alg, tw, fixed, serverOp, cOps[j..]))
      decreases |cOps| - j
    {
      var clientOp := cOps[j];
      if IsNoJsonOp(clientOp, alg) {
        return Err(AssertionFailed);
      }
      var pair := JsonOps.TransformWith(alg, serverOp, clientOp);
      if pair.Err? {
        assert cOps[j..][0] == clientOp;
        return Err(pair.error);
      }
      assert pair == StepAt(tw, serverOp, cOps, j);
      if IsNoJsonOp(pair.value.0, alg) {
        InnerServerDropped(alg, tw, fixed, serverOp, cOps, j);
        if IsNoJsonOp(pair.value.1, alg) {
          cOps := cOps[..j] + cOps[j + 1..];
        } else if fixed {
          cOps := cOps[j := pair.value.1];
        }
        return Ok((None, cOps));
      } else if IsNoJsonOp(pair.value.1, alg) {
        InnerClientDropped(alg, tw, fixed, serverOp, cOps, j);
        cOps := cOps[..j] + cOps[j + 1..];
        serverOp := pair.value.0;
        continue;
      }
      InnerWritten(alg, tw, fixed, serverOp, cOps, j);
      serverOp := pair.value.0;
      clientOp := pair.value.1;
      cOps := cOps[j := clientOp];
      j := j + 1;
    }
    InnerDone(alg, tw, fixed, serverOp, cOps);
    return Ok((Some(serverOp), cOps));
  }

  /**
   * `JsonModel.transform`, walking copies of both lists: each server op, checked not to be a
   * no-op, goes through the inner loop, and is removed when it collapses or written back as
   * transformed. `fixed` chooses the corrected inner loop.
   */
  method Transform(alg: ListAlgebra, fixed: bool, serverOps: seq<JsonOp>, clientOps: seq<JsonOp>)
    returns (r: Result<(seq<JsonOp>, seq<JsonOp>)>)
    ensures r == Transformed(alg, JsonTransform(alg), fixed, serverOps, clientOps)
  {
    ghost var tw := JsonTransform(alg);
    var sOps := serverOps;
    var cOps := clientOps;
    ghost var want := Transformed(alg, tw, fixed, serverOps, clientOps);
    ghost var k := 0;
    var i := 0;
    assert serverOps[k..] == serverOps && sOps[..i] == [];
    assert want.Ok? ==> [] + want.value.0 == want.value.0;
    assert Prefixed([], want) == want;
    while i < |sOps|
      invariant 0 <= k <= |serverOps| && 0 <= i <= |sOps|
      invariant sOps[i..] == serverOps[k..]
      invariant want == Prefixed(sOps[..i], Transformed(alg, tw, fixed, serverOps[k..], cOps))
      decreases |sOps| - i
    {
      var serverOp := sOps[i];
      if IsNoJsonOp(serverOp, alg) {
        return Err(AssertionFailed);
      }
      assert serverOps[k] == serverOp;
      var inner := TransformAgainst(alg, fixed, serverOp, cOps);
      if inner.Err? {
        OuterFails(alg, tw, fixed, serverOps, k, sOps[..i], cOps);
        return Err(inner.error);
      }
      OuterRound(alg, tw, fixed, serverOps, k, sOps[..i], cOps, inner.value.0, inner.value.1);
      ghost var done := sOps[..i] + Kept(inner.value.0);
      cOps := inner.value.1;
      if inner.value.0.None? {
        sOps := sOps[..i] + sOps[i + 1..];
      } else {
        sOps := sOps[i := inner.value.0.value];
        i := i + 1;
      }
      assert sOps[..i] == done;
      k := k + 1;
    }
    assert serverOps[k..] == sOps[i..] == [];
    assert Transformed(alg, tw, fixed, serverOps[k..], cOps) == Ok(([], cOps));
    assert sOps[..i] + [] == sOps;
    return Ok((sOps, cOps));
  }

  // ---------------------------------------------------------------------------------------
  // Convergence of the corrected transform

  /**
   * Ops consumed one after the other by `consume`, stopping at the first failure. A no-op
   * changes nothing and is passed over.
   */
  function Replay(alg: ListAlgebra, consume: (Json, JsonOp) -> Result<Json>, doc: Json, ops: seq<JsonOp>): Result<Json>
    decreases |ops|
  {
    if |ops| == 0 then Ok(doc)
    else if IsNoJsonOp(ops[0], alg) then Replay(alg, consume, doc, ops[1..])
    else
      var next :- consume(doc, ops[0]);
      Replay(alg, consume, next, ops[1..])
  }

  /** Replaying more ops after a replay that may already have failed. */
  function ReplayThen(alg: ListAlgebra, consume: (Json, JsonOp) -> Result<Json>, r: Result<Json>, ops: seq<JsonOp>): Result<Json>
  {
    if r.Err? then r else Replay(alg, consume, r.value, ops)
  }

  lemma {:induction false} ReplayAppend(alg: ListAlgebra, consume: (Json, JsonOp) -> Result<Json>, doc: Json, a: seq<JsonOp>, b: seq<JsonOp>)
    ensures Replay(alg, consume, doc, a + b) == ReplayThen(alg, consume, Replay(alg, consume, doc, a), b)
    decreases |a|
  {
    if |a| == 0 {
      assert a + b == b;
    } else {
      assert (a + b)[0] == a[0] && (a + b)[1..] == a[1..] + b;
      if IsNoJsonOp(a[0], alg) {
        ReplayAppend(alg, consume, doc, a[1..], b);
      } else {
        var next := consume(doc, a[0]);
        if next.Ok? {
          ReplayAppend(alg, consume, next.value, a[1..], b);
        }
      }
    }
  }

  /** A no-op at the end of a replay changes nothing. */
  lemma ReplayNoOpLast(alg: ListAlgebra, consume: (Json, JsonOp) -> Result<Json>, doc: Json, a: seq<JsonOp>, x: JsonOp)
    requires IsNoJsonOp(x, alg)
    ensures Replay(alg, consume, doc, a + [x]) == Replay(alg, consume, doc, a)
  {
    ReplayAppend(alg, consume, doc, a, [x]);
    var r := Replay(alg, consume, doc, a);
    if r.Ok? {
      assert Replay(alg, consume, r.value, [x]) == Replay(alg, consume, r.value, []);
    }
  }

  /**
   * The pairwise convergence of `transformWith` on a document: the server op then the
   * transformed client op ends where the client op then the transformed server op ends.
   */
  ghost predicate ConvergesAt(alg: ListAlgebra, tw: Pairwise, consume: (Json, JsonOp) -> Result<Json>, doc: Json, s: JsonOp, c: JsonOp)
  {
    var t := tw(s, c);
    t.Ok? ==> Replay(alg, consume, doc, [s, t.value.1]) == Replay(alg, consume, doc, [c, t.value.0])
  }

  /** Pairwise convergence on every document and every pair of ops. */
  ghost predicate Convergent(alg: ListAlgebra, tw: Pairwise, consume: (Json, JsonOp) -> Result<Json>)
  {
    forall doc, s, c :: ConvergesAt(alg, tw, consume, doc, s, c)
  }

  /**
   * The corrected inner loop lifts pairwise convergence to one server op against a list of
   * client ops: the server op then the transformed client ops ends where the client ops then
   * the surviving server op end.
   */
  lemma {:induction false} InnerConverges(alg: ListAlgebra, tw: Pairwise, consume: (Json, JsonOp) -> Result<Json>, doc: Json, s: JsonOp, cs: seq<JsonOp>)
    requires Convergent(alg, tw, consume)
    requires InnerPass(alg, tw, true, s, cs).Ok?
    ensures var r := InnerPass(alg, tw, true, s, cs).value;
      Replay(alg, consume, doc, [s] + r.1) == Replay(alg, consume, doc, cs + Kept(r.0))
    decreases |cs|
  {
    var r := InnerPass(alg, tw, true, s, cs).value;
    if |cs| == 0 {
      assert [s] + r.1 == cs + Kept(r.0);
    } else {
      var p := tw(s, cs[0]).value;
      var c0, cr := cs[0], cs[1..];
      assert cs == [c0] + cr;
      assert ConvergesAt(alg, tw, consume, doc, s, c0);
      // the server op then the transformed client op, as the client op then the transformed server op
      var lhs := Replay(alg, consume, doc, [s, p.1]);
      assert lhs == Replay(alg, consume, doc, [c0, p.0]);
      ReplayAppend(alg, consume, doc, [c0], [p.0]);
      assert [c0] + [p.0] == [c0, p.0];
      assert [s] + [p.1] == [s, p.1];
      var e := Replay(alg, consume, doc, [c0]);
      var rest: seq<JsonOp> := if IsNoJsonOp(p.0, alg) then cr else InnerPass(alg, tw, true, p.0, cr).value.1;
      var tail := if IsNoJsonOp(p.1, alg) then rest else [p.1] + rest;
      // in every case the left side is `[s, p.1]` replayed, then `rest`
      if IsNoJsonOp(p.1, alg) {
        ReplayNoOpLast(alg, consume, doc, [s], p.1);
        ReplayAppend(alg, consume, doc, [s], rest);
      } else {
        assert [s] + ([p.1] + rest) == [s, p.1] + rest;
        ReplayAppend(alg, consume, doc, [s, p.1], rest);
      }
      assert Replay(alg, consume, doc, [s] + tail) == ReplayThen(alg, consume, lhs, rest);
      ReplayAppend(alg, consume, doc, [c0], cr + Kept(r.0));
      assert cs + Kept(r.0) == [c0] + (cr + Kept(r.0));
      if IsNoJsonOp(p.0, alg) {
        ReplayNoOpLast(alg, consume, doc, [c0], p.0);
        assert r.0.None? && r.1 == tail;
        ReplayAppend(alg, consume, doc, [c0], cr);
        assert cr + Kept(r.0) == cr;
      } else {
        var q := InnerPass(alg, tw, true, p.0, cr).value;
        assert r.1 == tail && r.0 == q.0;
        if e.Ok? {
          InnerConverges(alg, tw, consume, e.value, p.0, cr);
          ReplayAppend(alg, consume, e.value, [p.0], rest);
        }
      }
    }
  }

  /**
   * Convergence of the corrected transform: with pairwise convergence, the server ops then the
   * transformed client ops end where the client ops then the transformed server ops end.
   */
  lemma {:induction false} TransformConverges(alg: ListAlgebra, tw: Pairwise, consume: (Json, JsonOp) -> Result<Json>, doc: Json, ss: seq<JsonOp>, cs: seq<JsonOp>)
    requires Convergent(alg, tw, consume)
    requires Transformed(alg, tw, true, ss, cs).Ok?
    ensures var r := Transformed(alg, tw, true, ss, cs).value;
      Replay(alg, consume, doc, ss + r.1) == Replay(alg, consume, doc, cs + r.0)
    decreases |ss|
  {
    var r := Transformed(alg, tw, true, ss, cs).value;
    if |ss| == 0 {
      assert ss + r.1 == cs && cs + r.0 == cs;
    } else {
      var inner := InnerPass(alg, tw, true, ss[0], cs).value;
      var rest := Transformed(alg, tw, true, ss[1..], inner.1).value;
      assert r == (Kept(inner.0) + rest.0, rest.1);
      InnerConverges(alg, tw, consume, doc, ss[0], cs);
      // left: the first server op, then the other server ops with the final client ops
      assert ss + r.1 == [ss[0]] + (ss[1..] + rest.1);
      ReplayAppend(alg, consume, doc, [ss[0]], ss[1..] + rest.1);
      ReplayAppend(alg, consume, doc, [ss[0]], inner.1 + rest.0);
      var e := Replay(alg, consume, doc, [ss[0]]);
      if e.Ok? {
        TransformConverges(alg, tw, consume, e.value, ss[1..], inner.1);
      }
      assert [ss[0]] + (inner.1 + rest.0) == ([ss[0]] + inner.1) + rest.0;
      ReplayAppend(alg, consume, doc, [ss[0]] + inner.1, rest.0);
      ReplayAppend(alg, consume, doc, cs + Kept(inner.0), rest.0);
      assert cs + r.0 == (cs + Kept(inner.0)) + rest.0;
    }
  }

  // ---------------------------------------------------------------------------------------
  // Reading ops off the wire

  /** `createOp`: a delta that is not a JSON object fails the cast; an object is parsed as an op. */
  function CreateOp(alg: ListAlgebra, delta: Json): (r: Result<JsonOp>)
    ensures !delta.JObj? ==> r == Err(Runtime)
    ensures r.Ok? ==>
              delta.JObj? && r.value.path.Some? && JsonOps.PathKey in delta.fields
              && delta.fields[JsonOps.PathKey] == JStr(r.value.path.value)
  {
    if delta.JObj? then JsonOps.Parse(alg, delta.fields) else Err(Runtime)
  }

  /** An op printed to the wire and read back with `createOp` is the op itself, its Java nulls read as JSON nulls. */
  lemma CreateOpReadsWire(alg: ListAlgebra, j: JsonOp, keys: seq<string>)
    requires JsonOps.Lawful(alg) && JsonOps.Printable(j, keys) && WellFormed(j.op)
    ensures CreateOp(alg, JsonOps.ToWire(alg, j, keys)) == Ok(JsonOp(j.path, JsonOps.ReadBack(j.op)))
  {
    JsonOps.ParseToWire(alg, j, keys);
  }

  // ---------------------------------------------------------------------------------------
  // The transformed client op that is lost

  /** The object `{"a": v}`. */
  function MemberA(v: string): Json
  {
    JObj(map["a" := JStr(v)])
  }

  /** An object op at the root changing `a` from `was` to `now`. */
  function ChangeA(was: string, now: string): JsonOp
  {
    JsonOp(Some(Paths.Root), Object(map["a" := MapOps.Change(Some(JStr(was)), Some(JStr(now)))]))
  }

  /** Consuming `ChangeA(was, now)` in `{"a": x}`: it applies exactly when `x` is its prior value. */
  lemma ChangeAConsumed(x: string, was: string, now: string)
    ensures Documents.Consumed(MemberA(x), ChangeA(was, now)) == if x == was then Ok(MemberA(now)) else Err(AssertionFailed)
  {
    var fields := map["a" := JStr(x)];
    var m := map["a" := MapOps.Change(Some(JStr(was)), Some(JStr(now)))];
    assert Paths.IsValidKey("a");
    JsonOps.ObjectConsumed(MemberA(x), Paths.Root, fields, m);
    if x == was {
      var applied := MapOps.Applied(fields, m);
      forall key ensures MapOps.Lookup(applied, key) == MapOps.Lookup(map["a" := JStr(now)], key) {
        MapOps.LookupApplied(fields, m, key);
      }
      Documents.SameMembers(applied, map["a" := JStr(now)]);
      assert MapOps.ApplyTo(fields, m) == Ok(map["a" := JStr(now)]);
    } else {
      assert !MapOps.Accepts(fields, "a", m["a"]);
    }
  }

  /** `ChangeA` is never the no-op. */
  lemma ChangeANotNoOp(alg: ListAlgebra, was: string, now: string)
    ensures !IsNoJsonOp(ChangeA(was, now), alg)
  {
    assert "a" in ChangeA(was, now).op.components;
  }

  /**
   * As written, a server op that wins outright loses the client op's transformed form: the
   * client's `a: "string" -> "value2"` is returned untransformed, and applied after the server
   * op it is rejected, while the client side reaches `{"a": "value2"}`.
   */
  lemma TransformAsWrittenDiverges(alg: ListAlgebra)
    ensures Transformed(alg, JsonTransform(alg), false, [ChangeA("string", "value1")], [ChangeA("string", "value2")])
      == Ok(([], [ChangeA("string", "value2")]))
    ensures Replay(alg, Documents.Consumed, MemberA("string"), [ChangeA("string", "value1"), ChangeA("string", "value2")])
      == Err(AssertionFailed)
    ensures Replay(alg, Documents.Consumed, MemberA("string"), [ChangeA("string", "value2")]) == Ok(MemberA("value2"))
  {
    var server, client := ChangeA("string", "value1"), ChangeA("string", "value2");
    JsonOps.ExampleSamePath(alg);
    assert JsonTransform(alg)(server, client) == Ok((JsonOp(Some(Paths.Root), Object(map[])), ChangeA("value1", "value2")));
    ChangeANotNoOp(alg, "string", "value1");
    ChangeANotNoOp(alg, "string", "value2");
    ChangeANotNoOp(alg, "value1", "value2");
    assert InnerPass(alg, JsonTransform(alg), false, server, [client]) == Ok((None, [client]));
    assert [server][1..] == [];
    assert Transformed(alg, JsonTransform(alg), false, [], [client]) == Ok(([], [client]));
    ChangeAConsumed("string", "string", "value1");
    ChangeAConsumed("value1", "string", "value2");
    ChangeAConsumed("string", "string", "value2");
    assert [server, client][1..] == [client] && [client][1..] == [];
    assert Replay(alg, Documents.Consumed, MemberA("value1"), [client]) == Err(AssertionFailed);
    assert !IsNoJsonOp([server][0], alg);
    assert Kept(None) + [] == [];
  }

  /**
   * Corrected, the transformed client op `a: "value1" -> "value2"` is kept, and both sides
   * reach `{"a": "value2"}`.
   */
  lemma TransformCorrectedConverges(alg: ListAlgebra)
    ensures Transformed(alg, JsonTransform(alg), true, [ChangeA("string", "value1")], [ChangeA("string", "value2")])
      == Ok(([], [ChangeA("value1", "value2")]))
    ensures Replay(alg, Documents.Consumed, MemberA("string"), [ChangeA("string", "value1"), ChangeA("value1", "value2")])
      == Ok(MemberA("value2"))
    ensures Replay(alg, Documents.Consumed, MemberA("string"), [ChangeA("string", "value2")]) == Ok(MemberA("value2"))
  {
    var server, client, client' := ChangeA("string", "value1"), ChangeA("string", "value2"), ChangeA("value1", "value2");
    JsonOps.ExampleSamePath(alg);
    assert JsonTransform(alg)(server, client) == Ok((JsonOp(Some(Paths.Root), Object(map[])), client'));
    ChangeANotNoOp(alg, "string", "value1");
    ChangeANotNoOp(alg, "string", "value2");
    ChangeANotNoOp(alg, "value1", "value2");
    assert [client'] + [client][1..] == [client'];
    assert InnerPass(alg, JsonTransform(alg), true, server, [client]) == Ok((None, [client']));
    assert [server][1..] == [];
    assert Transformed(alg, JsonTransform(alg), true, [], [client']) == Ok(([], [client']));
    assert !IsNoJsonOp([server][0], alg);
    assert Kept(None) + [] == [];
    ChangeAConsumed("string", "string", "value1");
    ChangeAConsumed("value1", "value1", "value2");
    ChangeAConsumed("string", "string", "value2");
    assert [server, client'][1..] == [client'] && [client'][1..] == [] && [client][1..] == [];
    assert Replay(alg, Documents.Consumed, MemberA("value1"), [client']) == Ok(MemberA("value2"));
  }

  // ---------------------------------------------------------------------------------------
  // The JSON model's test scenarios, as lemmas

  /** A string op at path `p`. */
  function Edit(p: string, text: ListOps.ListOp<char>): JsonOp
  {
    JsonOp(Some(p), Text(text))
  }

  /**
   * The compose test: a retain at `s`, +1 and +2 at `n`, then an insert and a delete of `abc`
   * at `s`, compose to the retain and +3, given that none of the string ops is a no-op and the
   * insert composed with the delete is one.
   */
  lemma ComposeExample(alg: ListAlgebra, reset: bool)
    requires !alg.text.isNoOp([ListOps.Retain(2)])
    requires !alg.text.isNoOp([ListOps.Insert("abc")]) && !alg.text.isNoOp([ListOps.Delete("abc")])
    requires alg.text.composeAll([[ListOps.Insert("abc")], [ListOps.Delete("abc")]]).Ok?
    requires alg.text.isNoOp(alg.text.composeAll([[ListOps.Insert("abc")], [ListOps.Delete("abc")]]).value)
    ensures Composition(alg, reset, [Edit("s", [ListOps.Retain(2)]), Add("n", 1), Add("n", 2),
        Edit("s", [ListOps.Insert("abc")]), Edit("s", [ListOps.Delete("abc")])])
      == Ok([Edit("s", [ListOps.Retain(2)]), Add("n", 3)])
  {
    var ops := [Edit("s", [ListOps.Retain(2)]), Add("n", 1), Add("n", 2),
      Edit("s", [ListOps.Insert("abc")]), Edit("s", [ListOps.Delete("abc")])];
    var s1 := ComposeState([ops[0]], Some("s"), Idle);
    var s2 := ComposeState([ops[0], Add("n", 1)], Some("n"), Idle);
    var s3 := ComposeState([ops[0], Add("n", 3)], Some("n"), Idle);
    var s4 := ComposeState([ops[0], Add("n", 3), ops[3]], Some("s"), Idle);
    var s5 := ComposeState(s4.out, Some("s"), Texts([[ListOps.Insert("abc")], [ListOps.Delete("abc")]]));
    assert "n"[0] != "s"[0];
    Pushed(alg, reset, Start, ops[0]);
    assert Start.out + [ops[0]] == s1.out;
    Pushed(alg, reset, s1, ops[1]);
    assert s1.out + [ops[1]] == s2.out;
    Summed(alg, reset, s2, ops[2]);
    assert DropLast(s2.out) + [Add("n", 3)] == s3.out;
    Pushed(alg, reset, s3, ops[3]);
    assert s3.out + [ops[3]] == s4.out;
    assert Step(alg, reset, s4, ops[4]) == Ok(s5);
    assert ComposeFrom(alg, reset, s5, ops[5..]) == Ok(s5);
    assert ComposeFrom(alg, reset, s4, ops[4..]) == Ok(s5);
    assert ComposeFrom(alg, reset, s3, ops[3..]) == Ok(s5);
    assert ComposeFrom(alg, reset, s2, ops[2..]) == Ok(s5);
    assert ComposeFrom(alg, reset, s1, ops[1..]) == Ok(s5);
    assert ComposeFrom(alg, reset, Start, ops) == Ok(s5);
    assert DropLast(s4.out) == [ops[0], Add("n", 3)];
  }

  /**
   * The transform test: server ops delete `abcde` at `s` and add 5 at `n`, client ops delete
   * `abc` and retain 2 at `s` and add 2 at `n`. The server side becomes delete `de` and +3,
   * the client side -3, given that the string transform gives delete `de` and a client no-op.
   * The server op is never dropped here, so both readings of the loop agree.
   */
  lemma TransformExample(alg: ListAlgebra, fixed: bool, y: ListOps.ListOp<char>)
    requires !alg.text.isNoOp([ListOps.Delete("abcde")]) && !alg.text.isNoOp([ListOps.Delete("abc"), ListOps.Retain(2)])
    requires !alg.text.isNoOp([ListOps.Delete("de")]) && alg.text.isNoOp(y)
    requires alg.text.transform([ListOps.Delete("abcde")], [ListOps.Delete("abc"), ListOps.Retain(2)])
      == Ok(([ListOps.Delete("de")], y))
    ensures Transformed(alg, JsonTransform(alg), fixed,
        [Edit("s", [ListOps.Delete("abcde")]), Add("n", 5)],
        [Edit("s", [ListOps.Delete("abc"), ListOps.Retain(2)]), Add("n", 2)])
      == Ok(([Edit("s", [ListOps.Delete("de")]), Add("n", 3)], [Add("n", -3)]))
  {
    var tw := JsonTransform(alg);
    var ss := [Edit("s", [ListOps.Delete("abcde")]), Add("n", 5)];
    var cs := [Edit("s", [ListOps.Delete("abc"), ListOps.Retain(2)]), Add("n", 2)];
    var de := Edit("s", [ListOps.Delete("de")]);
    assert "n"[0] != "s"[0];
    JsonOps.TransformSamePath(alg, ss[0], cs[0]);
    assert tw(ss[0], cs[0]) == Ok((de, Edit("s", y)));
    JsonOps.TransformUnrelated(alg, de, cs[1]);
    assert tw(de, cs[1]) == Ok((de, cs[1]));
    assert InnerPass(alg, tw, fixed, de, []) == Ok((Some(de), []));
    assert cs[1..] == [cs[1]] && [cs[1]][1..] == [] && [cs[1]] + [] == [cs[1]];
    assert InnerPass(alg, tw, fixed, de, cs[1..]) == Ok((Some(de), [cs[1]]));
    assert cs[1..] == [cs[1]];
    assert InnerPass(alg, tw, fixed, ss[0], cs) == Ok((Some(de), [cs[1]]));
    assert tw(ss[1], cs[1]) == Ok((Add("n", 3), Add("n", -3)));
    assert InnerPass(alg, tw, fixed, Add("n", 3), []) == Ok((Some(Add("n", 3)), []));
    assert [Add("n", -3)] + [] == [Add("n", -3)] && [cs[1]][0] == cs[1];
    assert InnerPass(alg, tw, fixed, ss[1], [cs[1]]) == Ok((Some(Add("n", 3)), [Add("n", -3)]));
    assert ss[1..] == [ss[1]] && ss[1..][1..] == [];
    assert Transformed(alg, tw, fixed, [], [Add("n", -3)]) == Ok(([], [Add("n", -3)]));
    assert Kept(Some(Add("n", 3))) + [] == [Add("n", 3)];
    assert Transformed(alg, tw, fixed, ss[1..], [cs[1]]) == Ok(([Add("n", 3)], [Add("n", -3)]));
    assert Kept(Some(de)) + [Add("n", 3)] == [de, Add("n", 3)];
  }
}
