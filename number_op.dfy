/**
 * `NumberOp`: adds a delta to a number. The op is a class whose `add` accumulates into its
 * field; compose, invert and transform return fresh ops. The delta is a Java double in the
 * source and a mathematical integer here.
 */
module NumberOps {
  import opened Wrappers
  import opened Json

  /** The wire type tag of a number op. */
  const Tag := "n"

  /** `server.transformWith(client)` on deltas: (server − client, client − server). */
  function Transform(s: int, c: int): (int, int)
  {
    (s - c, c - s)
  }

  /** `apply` on a number target holding `v`: the target's `add` runs only for a non-zero delta. */
  function ApplyTo(v: int, delta: int): int
  {
    if delta == 0 then v else v + delta
  }

  /** The two results of a transform are each other's negation. */
  lemma TransformNegates(s: int, c: int)
    ensures Transform(s, c).0 == -Transform(s, c).1
  {
  }

  /**
   * The transform does not converge: applying the server op and then the transformed client
   * op ends at `v + c`, while the other order ends at `v + s`.
   */
  lemma TransformOrders(v: int, s: int, c: int)
    ensures ApplyTo(ApplyTo(v, s), Transform(s, c).1) == v + c
    ensures ApplyTo(ApplyTo(v, c), Transform(s, c).0) == v + s
  {
  }

  /** Two concrete deltas whose two application orders end at different numbers. */
  lemma TransformDiverges()
    ensures ApplyTo(ApplyTo(0, 5), Transform(5, 2).1) != ApplyTo(ApplyTo(0, 2), Transform(5, 2).0)
  {
    TransformOrders(0, 5, 2);
  }

  /** Applying the sum of two deltas is applying them in turn; the negation undoes a delta. */
  lemma ComposeThenApply(v: int, a: int, b: int)
    ensures ApplyTo(ApplyTo(v, a), b) == ApplyTo(v, a + b)
    ensures ApplyTo(ApplyTo(v, a), -a) == v
  {
  }

  class NumberOp {
    var num: int

    constructor ()
      ensures num == 0
    {
      num := 0;
    }

    /** `isNoOp`: the delta is zero. */
    predicate IsNoOp()
      reads this
    {
      num == 0
    }

    /** `add(n)`: accumulates into the delta. */
    method Add(n: int)
      modifies this
      ensures num == old(num) + n
    {
      num := num + n;
    }

    /** `composeWith`: a fresh op holding the sum of the two deltas. */
    method ComposeWith(op: NumberOp) returns (r: NumberOp)
      ensures fresh(r) && r.num == num + op.num
    {
      r := new NumberOp();
      r.Add(num);
      r.Add(op.num);
    }

    /** `invert`: a fresh op holding the negated delta. */
    method Invert() returns (r: NumberOp)
      ensures fresh(r) && r.num == -num
    {
      r := new NumberOp();
      r.Add(-num);
    }

    /** `transformWith(clientOp)` with this op as the server op. */
    method TransformWith(clientOp: NumberOp) returns (r: (NumberOp, NumberOp))
      ensures fresh(r.0) && fresh(r.1) && (r.0.num, r.1.num) == Transform(num, clientOp.num)
    {
      var clientNum := clientOp.num;
      var server := new NumberOp();
      server.Add(num - clientNum);
      var client := new NumberOp();
      client.Add(clientNum - num);
      r := (server, client);
    }

    /** `toString`, as the JSON number it prints. */
    method ToJson() returns (w: Json)
      ensures w == JNum(num)
    {
      w := JNum(num);
    }
  }

  /**
   * `new NumberOp().add(value.asNumber())`: the delta is the value's number, which an array
   * of no element or of one element also has.
   */
  method ParseOp(wire: Json) returns (r: Result<NumberOp>)
    ensures r.Ok? <==> AsNumber(wire).Some?
    ensures r.Ok? ==> fresh(r.value) && r.value.num == AsNumber(wire).value
  {
    var n := AsNumber(wire);
    if n.None? {
      return Err(Unsupported);
    }
    var op := new NumberOp();
    op.Add(n.value);
    return Ok(op);
  }
}
