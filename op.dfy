/**
 * The operations a JSON document accepts, as one union: the `NoOp` singleton, a `ReplaceOp`
 * (used on JSON nulls and as the initial op), a `NumberOp`, a `StringOp` on the text of a
 * string, an `ArrayOp` on the elements of an array, and an `ObjectOp` (a `MapOp` over JSON
 * values). A `JsonOp` pairs one of them with the path it applies at.
 */
module Ops {
  import opened Wrappers
  import opened Json
  import ListOps
  import MapOps
  import ReplaceOps
  import NumberOps

  datatype Op =
    | NoOp
    | Replace(replacement: ReplaceOps.Replacement)
    | Number(delta: int)
    | Text(text: ListOps.ListOp<char>)
    | Elements(elements: ListOps.ListOp<Json>)
    | Object(components: MapOps.Components)

  /** A path, or none for the path of `JsonOp.NO_OP`. */
  datatype JsonOp = JsonOp(path: Option<string>, op: Op)

  /** `JsonOp.NO_OP`: the no-op singleton at a null path. */
  const NoJsonOp := JsonOp(None, NoOp)

  /** A list op edits nothing when it has no insert and no delete component. */
  predicate ListIsNoOp<T>(op: ListOps.ListOp<T>)
  {
    forall i | 0 <= i < |op| :: op[i].Retain?
  }

  /** `ListOp.TYPE`, and what `ListOp` gives string ops and array ops. */
  datatype ListAlgebra = ListAlgebra(tag: string, text: ListOps.Algebra<char>, elements: ListOps.Algebra<Json>)

  /** `isNoOp` of each kind of op; a list op answers for itself. */
  predicate IsNoOp(op: Op, alg: ListAlgebra)
  {
    match op
    case NoOp => true
    case Replace(r) => r.IsNoOp()
    case Number(d) => d == 0
    case Text(l) => alg.text.isNoOp(l)
    case Elements(l) => alg.elements.isNoOp(l)
    case Object(m) => m == map[]
  }

  /** `JsonOp.isNoOp` delegates to the op it holds. */
  predicate IsNoJsonOp(j: JsonOp, alg: ListAlgebra)
  {
    IsNoOp(j.op, alg)
  }

  /** `invert` of each kind of op; `NoOp.invert` is the singleton itself. */
  function Invert(op: Op): (r: Op)
    ensures r.NoOp? <==> op.NoOp?
  {
    match op
    case NoOp => NoOp
    case Replace(r) => Replace(ReplaceOps.Inverted(r))
    case Number(d) => Number(-d)
    case Text(l) => Text(ListOps.Invert(l))
    case Elements(l) => Elements(ListOps.Invert(l))
    case Object(m) => Object(MapOps.Inverted(m))
  }

  /** `JsonOp.invert` keeps the path. */
  function InvertJsonOp(j: JsonOp): (r: JsonOp)
    ensures r.path == j.path
  {
    JsonOp(j.path, Invert(j.op))
  }

  /** The ops whose invariants the model relies on: well-formed replace and map ops. */
  predicate WellFormed(op: Op)
  {
    match op
    case Replace(r) => ReplaceOps.WellFormed(r)
    case Object(m) => MapOps.WellFormed(m)
    case _ => true
  }

  /** Inverting twice gives back every well-formed op. */
  lemma InvertInvolution(op: Op)
    requires WellFormed(op)
    ensures Invert(Invert(op)) == op
  {
    match op
    case Replace(r) => ReplaceOps.InvertInvolution(r);
    case Text(l) => ListOps.InvertInvolution(l);
    case Elements(l) => ListOps.InvertInvolution(l);
    case Object(m) => MapOps.InvertInvolution(m);
    case _ =>
  }

  /** A list op and its inverse have their retains in the same places, so both edit or neither does. */
  lemma {:induction false} InvertKeepsNoOp<T>(l: ListOps.ListOp<T>)
    ensures ListIsNoOp(ListOps.Invert(l)) <==> ListIsNoOp(l)
  {
    if |l| > 0 {
      InvertKeepsNoOp(l[1..]);
      var inv := ListOps.Invert(l);
      assert inv[1..] == ListOps.Invert(l[1..]);
      assert inv[0].Retain? <==> l[0].Retain?;
      if ListIsNoOp(l) {
        forall i | 0 <= i < |inv| ensures inv[i].Retain? {
          if i > 0 {
            assert inv[i] == inv[1..][i - 1];
            assert l[1..][i - 1].Retain?;
          }
        }
      }
      if ListIsNoOp(inv) {
        forall i | 0 <= i < |l| ensures l[i].Retain? {
          if i > 0 {
            assert l[i] == l[1..][i - 1];
            assert inv[1..][i - 1].Retain?;
          }
        }
      }
    }
  }

  /** A prefix one component longer is a no-op iff the shorter one is and the component retains. */
  lemma NoOpPrefix<T>(op: ListOps.ListOp<T>, i: nat)
    requires i < |op|
    ensures ListIsNoOp(op[..i + 1]) <==> ListIsNoOp(op[..i]) && op[i].Retain?
  {
    assert op[..i + 1] == op[..i] + [op[i]];
  }

  /** `StringOp.TYPE`, the wire type tag of a string op. */
  const StringTag := "s"

  /** The wire type tag of each kind of op; `listTag` is `ListOp.TYPE`, the array-op tag. */
  function TypeTag(op: Op, listTag: string): string
  {
    match op
    case NoOp => "NoOp"
    case Replace(_) => ReplaceOps.Tag
    case Number(_) => NumberOps.Tag
    case Text(_) => StringTag
    case Elements(_) => listTag
    case Object(_) => MapOps.Tag
  }
}
