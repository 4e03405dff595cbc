/**
 * `JsonModelAdapter`: the JSON model seen by the slob store. A slob holds the JSON value of
 * one object; a delta is the printed text of one JSON op, applied to the slob; `transform`
 * transforms printed client ops past printed server ops.
 *
 * The JSON text library is a parameter: `Codec` reads text into a value or refuses it, and
 * writes a value as text.
 */
module JsonModelAdapters {
  import opened Wrappers
  import opened Json
  import opened Ops
  import JsonOps
  import JsonModels
  import Documents
  import Paths
  import opened Slobs

  /** `Json.parse` (`None`: the `JsonException` of text that is not JSON) and `JsonValue.toJson`. */
  datatype Codec = Codec(parse: string -> Option<Json>, write: Json -> string)

  /** A codec that reads back what it writes. */
  ghost predicate ReadsBack(codec: Codec)
  {
    forall v :: codec.parse(codec.write(v)) == Some(v)
  }

  /**
   * The exceptions that are `RuntimeException`s. An assertion failure is an `Error`, and the
   * op and slob exceptions are checked.
   */
  predicate Unchecked(e: Error)
  {
    !(e.AssertionFailed? || e.ComposeError? || e.TransformError? || e.DeltaRejected? || e.InvalidSnapshot?
      || e.BatchTooLarge? || e.TooManyListeners? || e.PermanentFailure?)
  }

  /** A failure of `apply` past the parse: a `RuntimeException` is rethrown as `DeltaRejected`. */
  function Rejected(r: Result<Json>): Result<Json>
  {
    if r.Err? && Unchecked(r.error) then Err(DeltaRejected) else r
  }

  // ---------------------------------------------------------------------------------------
  // The initial op

  /**
   * `buildJsonFromInitialOp` taking a JSON null old value for the Java null it stands for:
   * the printed initial op reads its Java null back as a JSON null.
   */
  function BuildFromInitialOpFixed(j: JsonOp): (r: Result<Json>)
    ensures r.Ok? <==>
      j.path == Some(Paths.Root) && j.op.Replace?
      && (j.op.replacement.IsNoOp()
          || (j.op.replacement.oldValue in {None, Some(JNull)} && j.op.replacement.newValue.Some?))
    ensures JsonOps.BuildJsonFromInitialOp(j).Ok? ==> r == JsonOps.BuildJsonFromInitialOp(j)
    ensures r.Ok? && !j.op.replacement.IsNoOp() ==> r.value == j.op.replacement.newValue.value
  {
    if j.path != Some(Paths.Root) || !j.op.Replace? then Err(AssertionFailed)
    else if j.op.replacement.IsNoOp() then Ok(JNull)
    else if j.op.replacement.oldValue !in {None, Some(JNull)} then Err(AssertionFailed)
    else if j.op.replacement.newValue.None? then Err(AssertionFailed)
    else Ok(j.op.replacement.newValue.value)
  }

  /** The value an initial op builds, as written or corrected. */
  function BuildFromInitialOp(j: JsonOp, fixed: bool): Result<Json>
  {
    if fixed then BuildFromInitialOpFixed(j) else JsonOps.BuildJsonFromInitialOp(j)
  }

  // ---------------------------------------------------------------------------------------
  // apply

  /**
   * `JsonSlob.apply`: text that is not JSON is rejected; the op is read with `createOp`, whose
   * failures escape as they are; the first delta builds the value, every later one is
   * consumed by it, and a `RuntimeException` of either is rejected.
   */
  function Applied(codec: Codec, alg: ListAlgebra, fixed: bool, json: Option<Json>, payload: string): (r: Result<Json>)
    ensures codec.parse(payload).None? ==> r == Err(DeltaRejected)
    ensures r.Err? && Unchecked(r.error) ==> codec.parse(payload).Some? && JsonModels.CreateOp(alg, codec.parse(payload).value).Err?
  {
    match codec.parse(payload)
    case None => Err(DeltaRejected)
    case Some(delta) =>
      var op :- JsonModels.CreateOp(alg, delta);
      if json.None? then Rejected(BuildFromInitialOp(op, fixed))
      else Rejected(Documents.Consumed(json.value, op))
  }

  /**
   * A printed op applied to a slob that holds a value is the op, its Java nulls read as JSON
   * nulls, consumed by the value.
   */
  lemma AppliedPrinted(codec: Codec, alg: ListAlgebra, fixed: bool, doc: Json, j: JsonOp, keys: seq<string>)
    requires ReadsBack(codec) && JsonOps.Lawful(alg) && JsonOps.Printable(j, keys) && WellFormed(j.op)
    ensures Applied(codec, alg, fixed, Some(doc), codec.write(JsonOps.ToWire(alg, j, keys)))
      == Rejected(Documents.Consumed(doc, JsonOp(j.path, JsonOps.ReadBack(j.op))))
  {
    JsonModels.CreateOpReadsWire(alg, j, keys);
  }

  /** A slob: the JSON value it holds, `None` until the first delta builds one. */
  class JsonSlob {
    const codec: Codec
    const alg: ListAlgebra
    var json: Option<Json>

    /** `JsonSlob(json)`. */
    constructor (codec: Codec, alg: ListAlgebra, json: Option<Json>)
      ensures this.codec == codec && this.alg == alg && this.json == json
    {
      this.codec := codec;
      this.alg := alg;
      this.json := json;
    }

    /**
     * `apply(change)`, with the initial op read as written (`fixed` false) or as corrected; a
     * rejected delta leaves the slob as it was.
     */
    method Apply(change: Delta, fixed: bool) returns (r: Outcome)
      modifies this
      ensures r.Pass? <==> Applied(codec, alg, fixed, old(json), change.payload).Ok?
      ensures r.Pass? ==> json == Some(Applied(codec, alg, fixed, old(json), change.payload).value)
      ensures r.Fail? ==> r.error == Applied(codec, alg, fixed, old(json), change.payload).error && json == old(json)
    {
      var delta := codec.parse(change.payload);
      if delta.None? {
        return Fail(DeltaRejected);
      }
      var op := JsonModels.CreateOp(alg, delta.value);
      if op.Err? {
        return Fail(op.error);
      }
      var next: Result<Json>;
      if json.None? {
        next := BuildFromInitialOp(op.value, fixed);
      } else {
        next := Documents.Consumed(json.value, op.value);
      }
      if next.Err? {
        return Fail(if Unchecked(next.error) then DeltaRejected else next.error);
      }
      json := Some(next.value);
      return Pass;
    }

    /** `snapshot()`: the value's text, `None` while there is none. */
    function Snapshot(): (s: Option<string>)
      reads this
      ensures s.Some? <==> json.Some?
      ensures ReadsBack(codec) && s.Some? ==> codec.parse(s.value) == json
    {
      if json.None? then None else Some(codec.write(json.value))
    }
  }

  /** `create(snapshot)`: no snapshot gives an empty slob, text that is not JSON an invalid snapshot. */
  method Create(codec: Codec, alg: ListAlgebra, snapshot: Option<string>) returns (r: Result<JsonSlob>)
    ensures snapshot.Some? && codec.parse(snapshot.value).None? <==> r.Err?
    ensures r.Err? ==> r.error == InvalidSnapshot
    ensures r.Ok? ==> fresh(r.value) && r.value.codec == codec && r.value.alg == alg
    ensures r.Ok? ==> r.value.json == if snapshot.None? then None else codec.parse(snapshot.value)
  {
    if snapshot.None? {
      var slob := new JsonSlob(codec, alg, None);
      return Ok(slob);
    }
    var json := codec.parse(snapshot.value);
    if json.None? {
      return Err(InvalidSnapshot);
    }
    var slob := new JsonSlob(codec, alg, json);
    return Ok(slob);
  }

  /** `create` as a function: the value a snapshot holds. */
  function Created(codec: Codec, snapshot: Option<string>): Result<Option<Json>>
  {
    if snapshot.None? then Ok(None)
    else if codec.parse(snapshot.value).None? then Err(InvalidSnapshot)
    else Ok(codec.parse(snapshot.value))
  }

  /** `JsonSlob.apply` as a step of the slob model: the new value, or the error of `Applied`. */
  function ApplyDelta(codec: Codec, alg: ListAlgebra, json: Option<Json>, change: Delta): (r: Result<Option<Json>>)
    ensures r.Ok? <==> Applied(codec, alg, true, json, change.payload).Ok?
    ensures r.Ok? ==> r.value == Some(Applied(codec, alg, true, json, change.payload).value)
    ensures r.Err? ==> r.error == Applied(codec, alg, true, json, change.payload).error
  {
    var v :- Applied(codec, alg, true, json, change.payload);
    Ok(Some(v))
  }

  /** `snapshot()` as a function. */
  function Snapshotted(codec: Codec, json: Option<Json>): Option<string>
  {
    if json.None? then None else Some(codec.write(json.value))
  }

  /** The slob model of JSON values, `apply` read as corrected. */
  function Model(codec: Codec, alg: ListAlgebra): SlobModel<Option<Json>>
  {
    SlobModel(
      (snapshot: Option<string>) => Created(codec, snapshot),
      (json: Option<Json>, change: Delta) => ApplyDelta(codec, alg, json, change),
      (json: Option<Json>) => Snapshotted(codec, json))
  }

  /** A slob created from its own snapshot holds the same value: the mutation log may trust snapshots. */
  lemma ModelRestores(codec: Codec, alg: ListAlgebra)
    requires ReadsBack(codec)
    ensures Restores(Model(codec, alg))
  {
    var m := Model(codec, alg);
    forall json: Option<Json>
      ensures m.create(m.snapshot(json)) == Ok(json)
    {
      if json.Some? {
        assert codec.parse(codec.write(json.value)) == Some(json.value);
      }
    }
  }

  // ---------------------------------------------------------------------------------------
  // transform

  /**
   * One payload read as an op. As written (`fixed` false) `Json.instance().create(payload)`
   * makes a JSON string of the text, which `createOp` cannot cast to an object; corrected, the
   * text is parsed as `apply` does.
   */
  function ReadOp(codec: Codec, alg: ListAlgebra, fixed: bool, payload: string): (r: Result<JsonOp>)
    ensures !fixed ==> r == Err(Runtime)
    ensures fixed && codec.parse(payload).None? ==> r == Err(DeltaRejected)
  {
    if !fixed then JsonModels.CreateOp(alg, JStr(payload))
    else
      match codec.parse(payload)
      case None => Err(DeltaRejected)
      case Some(delta) => JsonModels.CreateOp(alg, delta)
  }

  /** `deserializeOps`: the payloads read in order; the first failure ends it. */
  function Deserialized(codec: Codec, alg: ListAlgebra, fixed: bool, changes: seq<Delta>): (r: Result<seq<JsonOp>>)
    ensures r.Ok? ==> |r.value| == |changes|
    decreases |changes|
  {
    if |changes| == 0 then Ok([])
    else
      var op :- ReadOp(codec, alg, fixed, changes[0].payload);
      var rest :- Deserialized(codec, alg, fixed, changes[1..]);
      Ok([op] + rest)
  }

  /** `deserializeOps` walking the changes and pushing each op it reads. */
  method DeserializeOps(codec: Codec, alg: ListAlgebra, fixed: bool, changes: seq<Delta>) returns (r: Result<seq<JsonOp>>)
    ensures r == Deserialized(codec, alg, fixed, changes)
  {
    var ops: seq<JsonOp> := [];
    var i := 0;
    assert changes[i..] == changes;
    PrependedNothing(Deserialized(codec, alg, fixed, changes));
    while i < |changes|
      invariant 0 <= i <= |changes|
      invariant Deserialized(codec, alg, fixed, changes) == Prepended(ops, Deserialized(codec, alg, fixed, changes[i..]))
    {
      var op := ReadOp(codec, alg, fixed, changes[i].payload);
      assert changes[i..][0] == changes[i] && changes[i..][1..] == changes[i + 1..];
      if op.Err? {
        return Err(op.error);
      }
      PrependedTwice(ops, op.value, Deserialized(codec, alg, fixed, changes[i + 1..]));
      ops := ops + [op.value];
      i := i + 1;
    }
    assert changes[i..] == [];
    assert ops + [] == ops;
    return Ok(ops);
  }

  /** The ops read so far in front of what the rest of the changes give. */
  function Prepended(done: seq<JsonOp>, r: Result<seq<JsonOp>>): Result<seq<JsonOp>>
  {
    if r.Err? then r else Ok(done + r.value)
  }

  lemma PrependedNothing(r: Result<seq<JsonOp>>)
    ensures Prepended([], r) == r
  {
    if r.Ok? {
      assert [] + r.value == r.value;
    }
  }

  lemma PrependedTwice(done: seq<JsonOp>, op: JsonOp, r: Result<seq<JsonOp>>)
    ensures Prepended(done, if r.Err? then Err(r.error) else Ok([op] + r.value)) == Prepended(done + [op], r)
  {
    if r.Ok? {
      assert done + ([op] + r.value) == done + [op] + r.value;
    }
  }

  /**
   * `transform(clientOps, serverOps)`: the server ops are read first, then the client ops;
   * the model transforms the server ops against the client ops and returns the transformed
   * client ops. Only a `TransformException` is rethrown as `DeltaRejected`. `readFixed`
   * selects the corrected reading of the payloads, `modelFixed` the corrected model transform.
   */
  function Transformed(codec: Codec, alg: ListAlgebra, readFixed: bool, modelFixed: bool,
                       clientOps: seq<Delta>, serverOps: seq<Delta>): Result<seq<JsonOp>>
  {
    var ss :- Deserialized(codec, alg, readFixed, serverOps);
    var cs :- Deserialized(codec, alg, readFixed, clientOps);
    match JsonModels.Transformed(alg, JsonModels.JsonTransform(alg), modelFixed, ss, cs)
    case Err(e) => Err(if e.TransformError? then DeltaRejected else e)
    case Ok(p) => Ok(p.1)
  }

  /** `transform` as a method: both lists read, then the model's transform loop. */
  method Transform(codec: Codec, alg: ListAlgebra, readFixed: bool, modelFixed: bool,
                   clientOps: seq<Delta>, serverOps: seq<Delta>) returns (r: Result<seq<JsonOp>>)
    ensures r == Transformed(codec, alg, readFixed, modelFixed, clientOps, serverOps)
  {
    var ss := DeserializeOps(codec, alg, readFixed, serverOps);
    if ss.Err? {
      return Err(ss.error);
    }
    var cs := DeserializeOps(codec, alg, readFixed, clientOps);
    if cs.Err? {
      return Err(cs.error);
    }
    var pair := JsonModels.Transform(alg, modelFixed, ss.value, cs.value);
    if pair.Err? {
      return Err(if pair.error.TransformError? then DeltaRejected else pair.error);
    }
    return Ok(pair.value.1);
  }

  /**
   * As written, `transform` fails with a `ClassCastException` as soon as either list holds a
   * delta, whatever the deltas say and whichever model transform follows: no concurrent
   * delta can ever be transformed.
   */
  lemma TransformAsWrittenFails(codec: Codec, alg: ListAlgebra, modelFixed: bool, clientOps: seq<Delta>, serverOps: seq<Delta>)
    ensures Transformed(codec, alg, false, modelFixed, clientOps, serverOps)
      == if |clientOps| + |serverOps| == 0 then Ok([]) else Err(Runtime)
  {
    assert Deserialized(codec, alg, false, []) == Ok([]);
    assert JsonModels.Transformed(alg, JsonModels.JsonTransform(alg), modelFixed, [], []) == Ok(([], []));
  }

  /** The ops each printed delta stands for, their Java nulls read as JSON nulls. */
  predicate PrintsOps(codec: Codec, alg: ListAlgebra, changes: seq<Delta>, ops: seq<JsonOp>, keys: seq<seq<string>>)
  {
    |changes| == |ops| == |keys|
    && forall i | 0 <= i < |ops| ::
         JsonOps.Printable(ops[i], keys[i]) && WellFormed(ops[i].op)
         && changes[i].payload == codec.write(JsonOps.ToWire(alg, ops[i], keys[i]))
  }

  function ReadBacks(ops: seq<JsonOp>): (r: seq<JsonOp>)
    ensures |r| == |ops| && forall i | 0 <= i < |ops| :: r[i] == JsonOp(ops[i].path, JsonOps.ReadBack(ops[i].op))
  {
    seq(|ops|, i requires 0 <= i < |ops| => JsonOp(ops[i].path, JsonOps.ReadBack(ops[i].op)))
  }

  /** Corrected, printed deltas are read back as the ops they print. */
  lemma {:induction false} DeserializedPrinted(codec: Codec, alg: ListAlgebra, changes: seq<Delta>, ops: seq<JsonOp>,
                                               keys: seq<seq<string>>)
    requires ReadsBack(codec) && JsonOps.Lawful(alg) && PrintsOps(codec, alg, changes, ops, keys)
    ensures Deserialized(codec, alg, true, changes) == Ok(ReadBacks(ops))
    decreases |changes|
  {
    if |changes| > 0 {
      JsonModels.CreateOpReadsWire(alg, ops[0], keys[0]);
      assert PrintsOps(codec, alg, changes[1..], ops[1..], keys[1..]) by {
        forall i | 0 <= i < |ops| - 1
          ensures JsonOps.Printable(ops[1..][i], keys[1..][i]) && WellFormed(ops[1..][i].op)
          ensures changes[1..][i].payload == codec.write(JsonOps.ToWire(alg, ops[1..][i], keys[1..][i]))
        {
          assert ops[1..][i] == ops[i + 1] && keys[1..][i] == keys[i + 1] && changes[1..][i] == changes[i + 1];
        }
      }
      DeserializedPrinted(codec, alg, changes[1..], ops[1..], keys[1..]);
      assert [ReadBacks(ops)[0]] + ReadBacks(ops[1..]) == ReadBacks(ops);
    }
  }

  /**
   * With the payloads read as corrected, `transform` of printed deltas is the model's
   * transform (as written or corrected) of the ops they print, its transformed client ops returned.
   */
  lemma TransformFixedReadsOps(codec: Codec, alg: ListAlgebra, modelFixed: bool, clientOps: seq<Delta>, serverOps: seq<Delta>,
                               cs: seq<JsonOp>, ss: seq<JsonOp>, cKeys: seq<seq<string>>, sKeys: seq<seq<string>>)
    requires ReadsBack(codec) && JsonOps.Lawful(alg)
    requires PrintsOps(codec, alg, clientOps, cs, cKeys) && PrintsOps(codec, alg, serverOps, ss, sKeys)
    ensures var t := JsonModels.Transformed(alg, JsonModels.JsonTransform(alg), modelFixed, ReadBacks(ss), ReadBacks(cs));
      Transformed(codec, alg, true, modelFixed, clientOps, serverOps)
      == if t.Ok? then Ok(t.value.1) else Err(if t.error.TransformError? then DeltaRejected else t.error)
  {
    DeserializedPrinted(codec, alg, clientOps, cs, cKeys);
    DeserializedPrinted(codec, alg, serverOps, ss, sKeys);
  }
}
