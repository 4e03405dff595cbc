/**
 * `ReplaceOp`: replaces one value by another. The op is a class whose `replace` changes its
 * two fields step by step; `composeWith`, `invert` and `transformWith` return fresh ops.
 * The value `Replacement` and the functions over it specify those methods.
 *
 * A value is an `Option<Json>`: `None` is a Java null. The op with two nulls is the no-op.
 */
module ReplaceOps {
  import opened Wrappers
  import opened Json
  import Serializers
  import JsonUtil

  /** The wire type tag of a replace op. */
  const Tag := "x"

  datatype Replacement = Replacement(oldValue: Option<Json>, newValue: Option<Json>)
  {
    /** `isNoOp`: both values are null. */
    predicate IsNoOp() { oldValue.None? && newValue.None? }
  }

  /** A fresh `new ReplaceOp()`. */
  const Empty := Replacement(None, None)

  /** What `replace` can produce: the no-op, or a change between two different values. */
  predicate WellFormed(r: Replacement)
  {
    r.IsNoOp() || r.oldValue != r.newValue
  }

  /** `r.replace(o, n)`. */
  function Replaced(r: Replacement, o: Option<Json>, n: Option<Json>): Result<Replacement>
  {
    if o == n then Ok(r)
    else if r.IsNoOp() then Ok(Replacement(o, n))
    else if r.newValue != o then Err(ComposeError)
    else if r.oldValue == n then Ok(Empty)
    else Ok(Replacement(r.oldValue, n))
  }

  /** `new ReplaceOp().replace(o, n)`, which cannot fail. */
  function Fresh(o: Option<Json>, n: Option<Json>): (r: Replacement)
    ensures WellFormed(r)
    ensures Replaced(Empty, o, n) == Ok(r)
  {
    if o == n then Empty else Replacement(o, n)
  }

  /** `replace` keeps an op well formed. */
  lemma ReplacedWellFormed(r: Replacement, o: Option<Json>, n: Option<Json>)
    requires WellFormed(r) && Replaced(r, o, n).Ok?
    ensures WellFormed(Replaced(r, o, n).value)
  {
  }

  /** `a.composeWith(b)`: a fresh op replaced with `a`'s values and then with `b`'s. */
  function Compose(a: Replacement, b: Replacement): Result<Replacement>
  {
    Replaced(Fresh(a.oldValue, a.newValue), b.oldValue, b.newValue)
  }

  /** `invert`: a fresh op from the new value back to the old one. */
  function Inverted(a: Replacement): Replacement
  {
    Fresh(a.newValue, a.oldValue)
  }

  /** `server.transformWith(client)`: the client's new value wins. */
  function Transform(s: Replacement, c: Replacement): Result<(Replacement, Replacement)>
  {
    if s.IsNoOp() then Ok((Empty, Fresh(c.oldValue, c.newValue)))
    else if c.IsNoOp() then Ok((Fresh(s.oldValue, s.newValue), Empty))
    else if s.oldValue != c.oldValue then Err(TransformError)
    else Ok((Empty, Fresh(s.newValue, c.newValue)))
  }

  /**
   * `apply` on a slot that holds `v`: a no-op calls nothing; otherwise the target's `replace`
   * callback asserts that the slot holds the old value and stores the new one.
   */
  function ApplyTo(v: Option<Json>, r: Replacement): Result<Option<Json>>
  {
    if r.IsNoOp() then Ok(v)
    else if r.oldValue != v then Err(AssertionFailed)
    else Ok(r.newValue)
  }

  function Then(x: Result<Option<Json>>, r: Replacement): Result<Option<Json>>
  {
    if x.Err? then x else ApplyTo(x.value, r)
  }

  /** The slot holds the value the op replaces. */
  predicate Consistent(v: Option<Json>, r: Replacement)
  {
    r.IsNoOp() || r.oldValue == v
  }

  /** An op composed with its inverse is the no-op. */
  lemma ComposeWithInverse(a: Replacement)
    requires WellFormed(a)
    ensures Compose(a, Inverted(a)) == Ok(Empty)
  {
  }

  /** Inverting twice gives back a well-formed op. */
  lemma InvertInvolution(a: Replacement)
    requires WellFormed(a)
    ensures Inverted(Inverted(a)) == a
  {
  }

  /** Applying the composition is applying the two ops in turn. */
  lemma ComposeThenApply(v: Option<Json>, a: Replacement, b: Replacement)
    requires WellFormed(a) && WellFormed(b) && Consistent(v, a) && Compose(a, b).Ok?
    ensures ApplyTo(v, a).Ok?
    ensures Then(ApplyTo(v, a), b) == ApplyTo(v, Compose(a, b).value)
  {
  }

  /** Applying an op and then its inverse gives back the slot's value. */
  lemma InvertUndoes(v: Option<Json>, a: Replacement)
    requires WellFormed(a) && Consistent(v, a)
    ensures Then(ApplyTo(v, a), Inverted(a)) == Ok(v)
  {
  }

  /**
   * Transform convergence: both application orders end at the same value (the client's new
   * value where both ops change the slot), or both fail.
   */
  lemma TransformConverges(v: Option<Json>, s: Replacement, c: Replacement)
    requires WellFormed(s) && WellFormed(c) && Transform(s, c).Ok?
    ensures var (s', c') := Transform(s, c).value;
      Then(ApplyTo(v, s), c') == Then(ApplyTo(v, c), s')
    ensures !s.IsNoOp() && !c.IsNoOp() && ApplyTo(v, s).Ok? ==>
      Then(ApplyTo(v, s), Transform(s, c).value.1) == Ok(c.newValue)
  {
  }

  // ---------------------------------------------------------------- wire form

  /** `toString`: `[old,new]`, a null written as JSON null. */
  function Write(r: Replacement): Json
  {
    JArr([JsonUtil.ToJsonValue(r.oldValue), JsonUtil.ToJsonValue(r.newValue)])
  }

  /** The parsing constructor: a two-element array read by the serializer, then `replace`. */
  function Parse(ser: Serializers.Serializer, wire: Json): Result<Replacement>
  {
    if !wire.JArr? then Err(Runtime)
    else if |wire.items| != 2 then Err(AssertionFailed)
    else
      var o :- Serializers.FromJson(ser, wire.items[0]);
      var n :- Serializers.FromJson(ser, wire.items[1]);
      Ok(Fresh(o, n))
  }

  /** A Java null written by the `JSON` serializer is read back as a JSON null. */
  function ReadBack(v: Option<Json>): Option<Json>
  {
    if v.None? then Some(JNull) else v
  }

  /**
   * Round trip: the `PRIMITIVE` serializer gives back every well-formed op of primitive
   * values; the `JSON` serializer gives back the op with each null turned into a JSON null.
   */
  lemma ParseWrite(ser: Serializers.Serializer, r: Replacement)
    requires WellFormed(r)
    requires ser == Serializers.Primitive ==>
      JsonUtil.IsPrimitiveValue(r.oldValue) && JsonUtil.IsPrimitiveValue(r.newValue)
    ensures ser == Serializers.Primitive ==> Parse(ser, Write(r)) == Ok(r)
    ensures ser == Serializers.JsonValues ==>
      Parse(ser, Write(r)) == Ok(Fresh(ReadBack(r.oldValue), ReadBack(r.newValue)))
  {
    Serializers.FromJsonOfWritten(ser, r.oldValue);
    Serializers.FromJsonOfWritten(ser, r.newValue);
  }

  // ---------------------------------------------------------------- the op

  /**
   * A replace op. A plain `ReplaceOp` reads its values with `JsonUtil.fromJson`; the ops of
   * the JSON model use the `JSON` serializer.
   */
  class ReplaceOp {
    const ser: Serializers.Serializer
    var oldValue: Option<Json>
    var newValue: Option<Json>

    constructor (ser: Serializers.Serializer)
      ensures this.ser == ser && Value() == Empty
    {
      this.ser := ser;
      oldValue := None;
      newValue := None;
    }

    function Value(): Replacement
      reads this
    {
      Replacement(oldValue, newValue)
    }

    predicate IsNoOp()
      reads this
    {
      oldValue.None? && newValue.None?
    }

    /** `replace(o, n)`. A failed call leaves the op as it was. */
    method Replace(o: Option<Json>, n: Option<Json>) returns (r: Outcome)
      modifies this
      ensures r.Pass? <==> Replaced(old(Value()), o, n).Ok?
      ensures r.Pass? ==> Value() == Replaced(old(Value()), o, n).value
      ensures r.Fail? ==> r.error == ComposeError && Value() == old(Value())
    {
      if o == n {
        return Pass;
      }
      if IsNoOp() {
        oldValue, newValue := o, n;
        return Pass;
      }
      if newValue != o {
        return Fail(ComposeError);
      }
      if oldValue == n {
        oldValue, newValue := None, None;
      } else {
        newValue := n;
      }
      return Pass;
    }

    /** `composeWith`: a fresh op; this op is unchanged. */
    method ComposeWith(op: ReplaceOp) returns (r: Result<ReplaceOp>)
      ensures r.Ok? <==> Compose(Value(), op.Value()).Ok?
      ensures r.Ok? ==> fresh(r.value) && r.value.Value() == Compose(Value(), op.Value()).value
      ensures r.Err? ==> r.error == ComposeError
    {
      var toRtn := new ReplaceOp(ser);
      var first := toRtn.Replace(oldValue, newValue);
      var second := toRtn.Replace(op.oldValue, op.newValue);
      if second.Fail? {
        return Err(second.error);
      }
      return Ok(toRtn);
    }

    method Invert() returns (r: ReplaceOp)
      ensures fresh(r) && r.Value() == Inverted(Value())
    {
      r := new ReplaceOp(ser);
      var _ := r.Replace(newValue, oldValue);
    }

    /** `transformWith(clientOp)` with this op as the server op: (server′, client′). */
    method TransformWith(clientOp: ReplaceOp) returns (r: Result<(ReplaceOp, ReplaceOp)>)
      ensures r.Ok? <==> Transform(Value(), clientOp.Value()).Ok?
      ensures r.Ok? ==>
        fresh(r.value.0) && fresh(r.value.1)
        && (r.value.0.Value(), r.value.1.Value()) == Transform(Value(), clientOp.Value()).value
      ensures r.Err? ==> r.error == TransformError
    {
      if IsNoOp() {
        var server := new ReplaceOp(ser);
        var empty := new ReplaceOp(ser);
        var client := empty.ComposeWith(clientOp);
        return Ok((server, client.value));
      } else if clientOp.IsNoOp() {
        var empty := new ReplaceOp(ser);
        var server := empty.ComposeWith(this);
        var client := new ReplaceOp(ser);
        return Ok((server.value, client));
      }
      if oldValue != clientOp.oldValue {
        return Err(TransformError);
      }
      var server := new ReplaceOp(ser);
      var client := new ReplaceOp(ser);
      var _ := client.Replace(newValue, clientOp.newValue);
      return Ok((server, client));
    }

    /** `toString`, as the JSON value it prints. */
    method ToJson() returns (w: Json)
      ensures w == Write(Value())
    {
      w := JArr([JsonUtil.ToJsonValue(oldValue), JsonUtil.ToJsonValue(newValue)]);
    }
  }

  /** The parsing constructor `ReplaceOp(json)`. */
  method ParseOp(ser: Serializers.Serializer, wire: Json) returns (r: Result<ReplaceOp>)
    ensures r.Ok? <==> Parse(ser, wire).Ok?
    ensures r.Ok? ==> fresh(r.value) && r.value.ser == ser && r.value.Value() == Parse(ser, wire).value
  {
    if !wire.JArr? {
      return Err(Runtime);
    }
    if |wire.items| != 2 {
      return Err(AssertionFailed);
    }
    var o := Serializers.FromJson(ser, wire.items[0]);
    if o.Err? {
      return Err(o.error);
    }
    var n := Serializers.FromJson(ser, wire.items[1]);
    if n.Err? {
      return Err(n.error);
    }
    var op := new ReplaceOp(ser);
    var _ := op.Replace(o.value, n.value);
    return Ok(op);
  }
}
