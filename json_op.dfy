/**
 * `JsonOp`: an op at a path. Its wire form `{"p":"<path>","<type tag>":<op>}` and the parse of
 * it, the composition of two ops at one path, and the transform, which lets ops at unrelated
 * paths pass, hands two ops at one path to the elementary transform, and hands an op below
 * another op's path to the parent op's kind (`ObjectOp` or `ArrayOp`).
 */
module JsonOps {
  import opened Wrappers
  import opened Json
  import opened Ops
  import MapOps
  import ReplaceOps
  import NumberOps
  import Serializers
  import JsonUtil
  import Paths
  import Documents
  import ObjectOps
  import ArrayOps

  /** The key of the path in the wire form. */
  const PathKey := "p"

  // ---------------------------------------------------------------------------------------
  // Wire form

  /**
   * `KEY_TO_TYPE`: the JSON type each wire tag stands for. The list tag is put first, so a
   * later tag equal to it takes its place.
   */
  function KeyToType(listTag: string, key: string): (t: Option<JsonType>)
    ensures t.Some? ==> t.value != BOOLEAN
    ensures t.None? <==> key !in {StringTag, MapOps.Tag, NumberOps.Tag, ReplaceOps.Tag, listTag}
    ensures key == listTag && key !in {StringTag, MapOps.Tag, NumberOps.Tag, ReplaceOps.Tag} ==> t == Some(ARRAY)
  {
    if key == StringTag then Some(STRING)
    else if key == MapOps.Tag then Some(OBJECT)
    else if key == NumberOps.Tag then Some(NUMBER)
    else if key == ReplaceOps.Tag then Some(NULL)
    else if key == listTag then Some(ARRAY)
    else None
  }

  /** The JSON type of the value each kind of op applies to; the no-op has none. */
  function TargetType(op: Op): Option<JsonType>
  {
    match op
    case NoOp => None
    case Replace(_) => Some(NULL)
    case Number(_) => Some(NUMBER)
    case Text(_) => Some(STRING)
    case Elements(_) => Some(ARRAY)
    case Object(_) => Some(OBJECT)
  }

  /**
   * `createOp(type, value)`: the op kind for `type` parses `value`. A number op takes
   * `value.asNumber()` as its delta; an object op and a replace op read JSON values.
   */
  function CreateOp(alg: ListAlgebra, t: JsonType, value: Json): (r: Result<Op>)
    ensures t == BOOLEAN ==> r == Err(IllegalArgument)
    ensures r.Ok? ==> TargetType(r.value) == Some(t)
    ensures t == NUMBER ==> (r.Ok? <==> AsNumber(value).Some?)
    ensures t == NUMBER && r.Ok? ==> r.value == Number(AsNumber(value).value)
  {
    match t
    case STRING =>
      var l :- alg.text.parse(value);
      Ok(Text(l))
    case NUMBER =>
      var n := AsNumber(value);
      if n.Some? then Ok(Number(n.value)) else Err(Unsupported)
    case OBJECT =>
      var m :- MapOps.Parse(Serializers.JsonValues, value);
      Ok(Object(m))
    case ARRAY =>
      var l :- alg.elements.parse(value);
      Ok(Elements(l))
    case NULL =>
      var r :- ReplaceOps.Parse(Serializers.JsonValues, value);
      Ok(Replace(r))
    case BOOLEAN => Err(IllegalArgument)
  }

  /** The key of a two-key wire object that is not the path key. */
  function OpKey(fields: map<string, Json>): (key: string)
    requires |fields| == 2 && PathKey in fields
    ensures key in fields && key != PathKey
  {
    var others := fields.Keys - {PathKey};
    assert |others| == 1;
    var key :| key in others;
    assert |others - {key}| == 0;
    assert forall k | k in others :: k == key;
    key
  }

  /**
   * `parse(op)`: exactly two keys, one of them the path. The other key names the op's type;
   * an unknown key or a missing path is a null, a path that is not a string a failed cast.
   */
  function Parse(alg: ListAlgebra, fields: map<string, Json>): (r: Result<JsonOp>)
    ensures |fields| != 2 ==> r == Err(AssertionFailed)
    ensures |fields| == 2 && PathKey !in fields ==> r == Err(NullPointer)
    ensures r.Ok? ==> r.value.path.Some? && PathKey in fields && fields[PathKey] == JStr(r.value.path.value)
    ensures r.Ok? ==> TargetType(r.value.op) == KeyToType(alg.tag, OpKey(fields))
  {
    if |fields| != 2 then Err(AssertionFailed)
    else if PathKey !in fields then Err(NullPointer)
    else
      var key := OpKey(fields);
      match KeyToType(alg.tag, key)
      case None => Err(NullPointer)
      case Some(t) =>
        if !fields[PathKey].JStr? then Err(Runtime)
        else
          var op :- CreateOp(alg, t, fields[key]);
          Ok(JsonOp(Some(fields[PathKey].s), op))
  }

  /** What the wire form needs: a path, an op other than the no-op, and for an object op a listing of its keys. */
  predicate Printable(j: JsonOp, keys: seq<string>)
  {
    j.path.Some? && !j.op.NoOp?
    && (j.op.Object? ==> MapOps.Writable(j.op.components) && MapOps.IsListing(keys, j.op.components))
  }

  /** `op.toString()` as the JSON value it prints; an object op prints its keys in the order `keys`. */
  function OpToWire(alg: ListAlgebra, op: Op, keys: seq<string>): Json
    requires !op.NoOp?
    requires op.Object? ==> MapOps.Writable(op.components) && MapOps.IsListing(keys, op.components)
  {
    match op
    case Replace(r) => ReplaceOps.Write(r)
    case Number(d) => JNum(d)
    case Text(l) => alg.text.write(l)
    case Elements(l) => alg.elements.write(l)
    case Object(m) => MapOps.ToWire(m, keys)
  }

  /** `toString`: `{"p":"<path>","<type>":<op>}`. */
  function ToWire(alg: ListAlgebra, j: JsonOp, keys: seq<string>): Json
    requires Printable(j, keys)
  {
    JObj(map[PathKey := JStr(j.path.value), TypeTag(j.op, alg.tag) := OpToWire(alg, j.op, keys)])
  }

  /**
   * A list algebra the wire form works with: its tag differs from the other tags and from
   * the path key, and each list kind parses back what it prints.
   */
  ghost predicate Lawful(alg: ListAlgebra)
  {
    alg.tag !in {PathKey, StringTag, MapOps.Tag, NumberOps.Tag, ReplaceOps.Tag}
    && (forall l :: alg.text.parse(alg.text.write(l)) == Ok(l))
    && (forall l :: alg.elements.parse(alg.elements.write(l)) == Ok(l))
  }

  /** What the parse of a printed op gives back: a replace op's Java nulls come back as JSON nulls. */
  function ReadBack(op: Op): Op
  {
    if op.Replace? then
      Replace(ReplaceOps.Fresh(ReplaceOps.ReadBack(op.replacement.oldValue), ReplaceOps.ReadBack(op.replacement.newValue)))
    else op
  }

  /** The wire tag of every op other than the no-op names the type of the value it applies to. */
  lemma TagNamesType(alg: ListAlgebra, op: Op)
    requires Lawful(alg) && !op.NoOp?
    ensures TypeTag(op, alg.tag) != PathKey
    ensures KeyToType(alg.tag, TypeTag(op, alg.tag)) == TargetType(op)
  {
  }

  /** Round trip: parsing the printed form gives back the op at its path, with Java nulls read as JSON nulls. */
  lemma ParseToWire(alg: ListAlgebra, j: JsonOp, keys: seq<string>)
    requires Lawful(alg) && Printable(j, keys) && WellFormed(j.op)
    ensures Parse(alg, ToWire(alg, j, keys).fields) == Ok(JsonOp(j.path, ReadBack(j.op)))
  {
    var w := ToWire(alg, j, keys).fields;
    var tag := TypeTag(j.op, alg.tag);
    TagNamesType(alg, j.op);
    assert w.Keys == {PathKey, tag};
    assert |w| == 2;
    assert OpKey(w) == tag;
    match j.op
    case Replace(r) => ReplaceOps.ParseWrite(Serializers.JsonValues, r);
    case Object(m) => MapOps.ParseToWire(Serializers.JsonValues, m, keys);
    case _ =>
  }

  /** An op without Java nulls reads back as itself. */
  lemma ReadBackKeeps(op: Op)
    requires WellFormed(op)
    requires op.Replace? ==>
      op.replacement.IsNoOp() || (op.replacement.oldValue.Some? && op.replacement.newValue.Some?)
    ensures ReadBack(op) == op
  {
  }

  // ---------------------------------------------------------------------------------------
  // Compose

  /**
   * `composeWith` of each kind of op: the `NoOp` singleton throws, a number op adds the
   * deltas, the other kinds compose as their own algebra does. A replace, number or object op
   * asserts that the other op is of its own kind; a list op fails the cast.
   */
  function ComposeOps(alg: ListAlgebra, a: Op, b: Op): (r: Result<Op>)
    ensures a.NoOp? ==> r == Err(IllegalState)
    ensures (a.Replace? || a.Number? || a.Object?) && TargetType(a) != TargetType(b) ==> r == Err(AssertionFailed)
    ensures (a.Text? || a.Elements?) && TargetType(a) != TargetType(b) ==> r == Err(Runtime)
    ensures r.Ok? ==> TargetType(r.value) == TargetType(a) == TargetType(b)
    ensures a.Number? && b.Number? ==> r == Ok(Number(a.delta + b.delta))
  {
    match a
    case NoOp => Err(IllegalState)
    case Replace(x) =>
      if !b.Replace? then Err(AssertionFailed)
      else
        var y :- ReplaceOps.Compose(x, b.replacement);
        Ok(Replace(y))
    case Number(d) => if b.Number? then Ok(Number(d + b.delta)) else Err(AssertionFailed)
    case Text(l) =>
      if !b.Text? then Err(Runtime)
      else
        var y :- alg.text.compose(l, b.text);
        Ok(Text(y))
    case Elements(l) =>
      if !b.Elements? then Err(Runtime)
      else
        var y :- alg.elements.compose(l, b.elements);
        Ok(Elements(y))
    case Object(m) =>
      if !b.Object? then Err(AssertionFailed)
      else
        var y :- MapOps.Compose(m, b.components);
        Ok(Object(y))
  }

  /** `JsonOp.composeWith`: neither side may be a no-op; the receiver's path is kept. */
  function ComposeJsonOps(alg: ListAlgebra, a: JsonOp, b: JsonOp): (r: Result<JsonOp>)
    ensures IsNoJsonOp(a, alg) || IsNoJsonOp(b, alg) ==> r == Err(AssertionFailed)
    ensures r.Ok? ==> r.value.path == a.path
  {
    if IsNoJsonOp(a, alg) || IsNoJsonOp(b, alg) then Err(AssertionFailed)
    else
      var op :- ComposeOps(alg, a.op, b.op);
      Ok(JsonOp(a.path, op))
  }

  // ---------------------------------------------------------------------------------------
  // Transform

  /**
   * `transformWith` of each kind of op: the `NoOp` singleton throws; a replace, number or
   * object op asserts that the client op is of its own kind; a list op fails the cast.
   */
  function TransformOps(alg: ListAlgebra, s: Op, c: Op): (r: Result<(Op, Op)>)
    ensures s.NoOp? ==> r == Err(IllegalState)
    ensures (s.Replace? || s.Number? || s.Object?) && TargetType(s) != TargetType(c) ==> r == Err(AssertionFailed)
    ensures (s.Text? || s.Elements?) && TargetType(s) != TargetType(c) ==> r == Err(Runtime)
    ensures r.Ok? ==> TargetType(r.value.0) == TargetType(s) && TargetType(r.value.1) == TargetType(s)
  {
    match s
    case NoOp => Err(IllegalState)
    case Replace(x) =>
      if !c.Replace? then Err(AssertionFailed)
      else
        var p :- ReplaceOps.Transform(x, c.replacement);
        Ok((Replace(p.0), Replace(p.1)))
    case Number(d) =>
      if !c.Number? then Err(AssertionFailed)
      else
        var p := NumberOps.Transform(d, c.delta);
        Ok((Number(p.0), Number(p.1)))
    case Text(l) =>
      if !c.Text? then Err(Runtime)
      else
        var p :- alg.text.transform(l, c.text);
        Ok((Text(p.0), Text(p.1)))
    case Elements(l) =>
      if !c.Elements? then Err(Runtime)
      else
        var p :- alg.elements.transform(l, c.elements);
        Ok((Elements(p.0), Elements(p.1)))
    case Object(m) =>
      if !c.Object? then Err(AssertionFailed)
      else
        var p :- MapOps.Transform(m, c.components);
        Ok((Object(p.0), Object(p.1)))
  }

  /**
   * The ancestor branch: the parent op's type tag picks `ObjectOp` or, after asserting the
   * list tag, `ArrayOp`; an op of another kind under that tag fails the cast.
   */
  function ChildTransformed(alg: ListAlgebra, serverIsParent: bool, parent: JsonOp, child: JsonOp): (r: Result<(JsonOp, JsonOp)>)
  {
    var tag := TypeTag(parent.op, alg.tag);
    if tag == MapOps.Tag then
      if parent.op.Object? then ObjectOps.TransformWithChild(serverIsParent, parent, child) else Err(Runtime)
    else if tag != alg.tag then Err(AssertionFailed)
    else if parent.op.Elements? then ArrayOps.Transformed(serverIsParent, parent, child, true)
    else Err(Runtime)
  }

  /**
   * `server.transformWith(client)`: neither side may be a no-op. Different paths: the shorter
   * one is the candidate parent, and an op below the other's path goes to the parent's kind;
   * otherwise both ops pass. Equal paths: the elementary transform, at that path on both sides.
   */
  function TransformWith(alg: ListAlgebra, s: JsonOp, c: JsonOp): (r: Result<(JsonOp, JsonOp)>)
    ensures IsNoJsonOp(s, alg) || IsNoJsonOp(c, alg) ==> r == Err(AssertionFailed)
  {
    if IsNoJsonOp(s, alg) || IsNoJsonOp(c, alg) then Err(AssertionFailed)
    else if s.path.None? || c.path.None? then Err(NullPointer)
    else if s.path != c.path then
      var serverIsParent := |s.path.value| < |c.path.value|;
      if serverIsParent && Paths.IsAncestorOf(s.path.value, c.path.value) then ChildTransformed(alg, true, s, c)
      else if !serverIsParent && Paths.IsAncestorOf(c.path.value, s.path.value) then ChildTransformed(alg, false, c, s)
      else Ok((s, c))
    else
      var p :- TransformOps(alg, s.op, c.op);
      Ok((JsonOp(s.path, p.0), JsonOp(s.path, p.1)))
  }

  /** Ops at paths neither of which is an ancestor of the other pass the transform unchanged. */
  lemma TransformUnrelated(alg: ListAlgebra, s: JsonOp, c: JsonOp)
    requires !IsNoJsonOp(s, alg) && !IsNoJsonOp(c, alg) && s.path.Some? && c.path.Some?
    requires s.path != c.path
    requires !Paths.IsAncestorOf(s.path.value, c.path.value) && !Paths.IsAncestorOf(c.path.value, s.path.value)
    ensures TransformWith(alg, s, c) == Ok((s, c))
  {
  }

  /**
   * The shorter path is the only candidate parent, so no ancestor is missed: whichever op's
   * path is an ancestor of the other's is handed to the child transform as the parent.
   */
  lemma TransformAncestor(alg: ListAlgebra, s: JsonOp, c: JsonOp)
    requires !IsNoJsonOp(s, alg) && !IsNoJsonOp(c, alg) && s.path.Some? && c.path.Some?
    ensures Paths.IsAncestorOf(s.path.value, c.path.value) ==>
      TransformWith(alg, s, c) == ChildTransformed(alg, true, s, c)
    ensures Paths.IsAncestorOf(c.path.value, s.path.value) ==>
      TransformWith(alg, s, c) == ChildTransformed(alg, false, c, s)
  {
  }

  /** Ops at one path are transformed by their kind, and both results keep the path. */
  lemma TransformSamePath(alg: ListAlgebra, s: JsonOp, c: JsonOp)
    requires !IsNoJsonOp(s, alg) && !IsNoJsonOp(c, alg) && s.path.Some? && s.path == c.path
    ensures var r := TransformWith(alg, s, c);
      var p := TransformOps(alg, s.op, c.op);
      (r.Ok? <==> p.Ok?)
      && (r.Ok? ==> r.value.0 == JsonOp(s.path, p.value.0) && r.value.1 == JsonOp(s.path, p.value.1))
  {
  }

  /** `invert` keeps the path, and inverting twice gives back a well-formed op. */
  lemma InvertJsonOpInvolution(j: JsonOp)
    requires WellFormed(j.op)
    ensures InvertJsonOp(InvertJsonOp(j)) == j
  {
    InvertInvolution(j.op);
  }

  // ---------------------------------------------------------------------------------------
  // Object ops on a document

  /** Every key an object op puts passes the key check of `JObject`. */
  predicate PutsValidKeys(m: MapOps.Components)
  {
    forall k | k in m && m[k].newValue.Some? :: Paths.IsValidKey(k)
  }

  /** The document with the object at `path` replaced by the members `r`, or the failure. */
  function InPlaceResult(doc: Json, path: string, r: Result<map<string, Json>>): Result<Json>
  {
    if r.Err? then Err(r.error) else Documents.InPlace(doc, path, JObj(r.value))
  }

  /** Consuming an object op at the path of an object applies it to the members, in place. */
  lemma ObjectConsumed(doc: Json, path: string, fields: map<string, Json>, m: MapOps.Components)
    requires Documents.Lookup(doc, path) == Ok(Some(JObj(fields)))
    requires PutsValidKeys(m)
    ensures Documents.Consumed(doc, JsonOp(Some(path), Object(m))) == InPlaceResult(doc, path, MapOps.ApplyTo(fields, m))
  {
    ObjectApplyValidKeys(fields, m);
    assert Documents.Consumed(doc, JsonOp(Some(path), Object(m))) == Documents.ObjectConsumed(doc, path, fields, Object(m));
  }

  /** With only valid keys put, the object accepts an op exactly when its map algebra does. */
  lemma ObjectApplyValidKeys(fields: map<string, Json>, m: MapOps.Components)
    requires PutsValidKeys(m)
    ensures Documents.ObjectApply(fields, m) == MapOps.ApplyTo(fields, m)
  {
  }

  /** Two object ops consumed in turn at the path of an object: both applied to the members, then one edit in place. */
  lemma ObjectConsumedTwice(doc: Json, path: string, fields: map<string, Json>, a: MapOps.Components, b: MapOps.Components)
    requires Documents.Lookup(doc, path) == Ok(Some(JObj(fields)))
    requires PutsValidKeys(a) && PutsValidKeys(b)
    ensures Documents.ConsumedAll(doc, [JsonOp(Some(path), Object(a)), JsonOp(Some(path), Object(b))])
      == InPlaceResult(doc, path, MapOps.Then(MapOps.ApplyTo(fields, a), b))
  {
    var ja := JsonOp(Some(path), Object(a));
    var jb := JsonOp(Some(path), Object(b));
    assert [ja, jb][1..] == [jb];
    assert [jb][1..] == [];
    ObjectConsumed(doc, path, fields, a);
    var ra := MapOps.ApplyTo(fields, a);
    if ra.Ok? {
      var g := ra.value;
      Documents.InPlaceFound(doc, path, JObj(g));
      var d1 := Documents.InPlace(doc, path, JObj(g)).value;
      assert Documents.Consumed(doc, ja) == Ok(d1);
      ObjectConsumed(d1, path, g, b);
      var rb := MapOps.ApplyTo(g, b);
      assert Documents.ConsumedAll(doc, [ja, jb]) == Documents.ConsumedAll(d1, [jb]);
      if rb.Ok? {
        Documents.InPlaceTwice(doc, path, JObj(g), JObj(rb.value));
        var d2 := Documents.InPlace(d1, path, JObj(rb.value));
        assert Documents.Consumed(d1, jb) == d2;
        assert d2.Ok?;
        assert Documents.ConsumedAll(d1, [jb]) == Documents.ConsumedAll(d2.value, []);
      }
    }
  }

  /** The transformed object ops put only keys that one of the two ops put. */
  lemma TransformedPutsValidKeys(s: MapOps.Components, c: MapOps.Components)
    requires PutsValidKeys(s) && PutsValidKeys(c)
    ensures PutsValidKeys(MapOps.Excluded(s, c.Keys)) && PutsValidKeys(MapOps.TransformedClient(s, c))
  {
  }

  /** Two object ops at one path transform as the map algebra does, at that path. */
  lemma SamePathObjectTransformed(alg: ListAlgebra, path: string, s: MapOps.Components, c: MapOps.Components)
    requires s != map[] && c != map[]
    ensures var r := TransformWith(alg, JsonOp(Some(path), Object(s)), JsonOp(Some(path), Object(c)));
      (r.Ok? <==> MapOps.SharedBase(s, c))
      && (r.Ok? ==> r == Ok((JsonOp(Some(path), Object(MapOps.Excluded(s, c.Keys))),
                             JsonOp(Some(path), Object(MapOps.TransformedClient(s, c))))))
  {
  }

  /**
   * Convergence of two object ops at the path of one object: the server op then the
   * transformed client op leaves the document as the client op then the transformed server
   * op does, and one order fails exactly when the other does. The transform fails exactly
   * when a shared key starts from two different old values.
   */
  lemma SamePathObjectConverges(alg: ListAlgebra, doc: Json, path: string, fields: map<string, Json>,
                                s: MapOps.Components, c: MapOps.Components)
    requires Documents.Lookup(doc, path) == Ok(Some(JObj(fields)))
    requires s != map[] && c != map[]
    requires MapOps.WellFormed(s) && MapOps.WellFormed(c) && PutsValidKeys(s) && PutsValidKeys(c)
    ensures var r := TransformWith(alg, JsonOp(Some(path), Object(s)), JsonOp(Some(path), Object(c)));
      (r.Ok? <==> MapOps.SharedBase(s, c))
      && (r.Ok? ==>
            r.value.0.path == Some(path) && r.value.1.path == Some(path)
            && Agree(Documents.ConsumedAll(doc, [JsonOp(Some(path), Object(s)), r.value.1]),
                     Documents.ConsumedAll(doc, [JsonOp(Some(path), Object(c)), r.value.0])))
  {
    SamePathObjectTransformed(alg, path, s, c);
    if MapOps.SharedBase(s, c) {
      ObjectTransformedConsumed(doc, path, fields, s, c);
    }
  }

  /** Two outcomes that succeed together and, when they do, hold the same document. */
  predicate Agree(l: Result<Json>, r: Result<Json>)
  {
    (l.Ok? <==> r.Ok?) && (l.Ok? ==> l == r)
  }

  /** The document-level convergence of the map algebra's transform, at the path of an object. */
  lemma ObjectTransformedConsumed(doc: Json, path: string, fields: map<string, Json>,
                                  s: MapOps.Components, c: MapOps.Components)
    requires Documents.Lookup(doc, path) == Ok(Some(JObj(fields)))
    requires MapOps.WellFormed(s) && MapOps.WellFormed(c) && PutsValidKeys(s) && PutsValidKeys(c)
    requires MapOps.SharedBase(s, c)
    ensures Agree(Documents.ConsumedAll(doc, [JsonOp(Some(path), Object(s)), JsonOp(Some(path), Object(MapOps.TransformedClient(s, c)))]),
                  Documents.ConsumedAll(doc, [JsonOp(Some(path), Object(c)), JsonOp(Some(path), Object(MapOps.Excluded(s, c.Keys)))]))
  {
    var s' := MapOps.Excluded(s, c.Keys);
    var c' := MapOps.TransformedClient(s, c);
    TransformedPutsValidKeys(s, c);
    MapOps.TransformConverges(fields, s, c);
    ObjectConsumedTwice(doc, path, fields, s, c');
    ObjectConsumedTwice(doc, path, fields, c, s');
  }

  /** The composition of two object ops puts only keys that one of the two put. */
  lemma ComposedPutsValidKeys(a: MapOps.Components, b: MapOps.Components)
    requires MapOps.Composable(a, b) && PutsValidKeys(a) && PutsValidKeys(b)
    ensures PutsValidKeys(MapOps.Composed(a, b))
  {
    var ab := MapOps.Composed(a, b);
    forall k | k in ab && ab[k].newValue.Some? ensures Paths.IsValidKey(k) {
      MapOps.EntryComposed(a, b, k);
    }
  }

  /**
   * Composition of two object ops at the path of one object: when the object holds the old
   * values the first op names, consuming the composition leaves the document as consuming the
   * two ops in turn. The composition fails exactly when the second op does not chain onto the first.
   */
  lemma ObjectComposeConsumed(alg: ListAlgebra, doc: Json, path: string, fields: map<string, Json>,
                              a: MapOps.Components, b: MapOps.Components)
    requires Documents.Lookup(doc, path) == Ok(Some(JObj(fields)))
    requires a != map[] && b != map[]
    requires MapOps.WellFormed(a) && MapOps.WellFormed(b) && PutsValidKeys(a) && PutsValidKeys(b)
    requires MapOps.Consistent(fields, a)
    ensures var r := ComposeJsonOps(alg, JsonOp(Some(path), Object(a)), JsonOp(Some(path), Object(b)));
      (r.Ok? <==> MapOps.Compose(a, b).Ok?)
      && (r.Ok? ==>
            r.value.path == Some(path)
            && Documents.ConsumedAll(doc, [JsonOp(Some(path), Object(a)), JsonOp(Some(path), Object(b))])
               == Documents.Consumed(doc, r.value))
  {
    SamePathObjectComposed(alg, path, a, b);
    if MapOps.Composable(a, b) {
      ObjectComposedConsumed(doc, path, fields, a, b);
    }
  }

  /** Two object ops at one path compose as the map algebra does, at that path. */
  lemma SamePathObjectComposed(alg: ListAlgebra, path: string, a: MapOps.Components, b: MapOps.Components)
    requires a != map[] && b != map[]
    ensures var r := ComposeJsonOps(alg, JsonOp(Some(path), Object(a)), JsonOp(Some(path), Object(b)));
      (r.Ok? <==> MapOps.Composable(a, b))
      && (r.Ok? ==> r == Ok(JsonOp(Some(path), Object(MapOps.Composed(a, b)))))
  {
  }

  /** The document-level meaning of the map algebra's composition, at the path of an object. */
  lemma ObjectComposedConsumed(doc: Json, path: string, fields: map<string, Json>,
                               a: MapOps.Components, b: MapOps.Components)
    requires Documents.Lookup(doc, path) == Ok(Some(JObj(fields)))
    requires MapOps.WellFormed(a) && MapOps.WellFormed(b) && PutsValidKeys(a) && PutsValidKeys(b)
    requires MapOps.Consistent(fields, a) && MapOps.Composable(a, b)
    ensures Documents.ConsumedAll(doc, [JsonOp(Some(path), Object(a)), JsonOp(Some(path), Object(b))])
         == Documents.Consumed(doc, JsonOp(Some(path), Object(MapOps.Composed(a, b))))
  {
    ComposedPutsValidKeys(a, b);
    MapOps.ComposeThenApply(fields, a, b);
    ObjectConsumedTwice(doc, path, fields, a, b);
    ObjectConsumed(doc, path, fields, MapOps.Composed(a, b));
  }

  // ---------------------------------------------------------------------------------------
  // The initial op

  /**
   * `buildJsonFromInitialOp`: the initial op is a replace op at the root from Java null. It
   * builds the value its replace writes into an empty slot; the no-op builds JSON null.
   */
  function BuildJsonFromInitialOp(j: JsonOp): (r: Result<Json>)
    ensures r.Ok? <==> j.path == Some(Paths.Root) && j.op.Replace? && j.op.replacement.oldValue.None?
    ensures r.Ok? ==>
      ReplaceOps.ApplyTo(None, j.op.replacement).Ok?
      && r.value == JsonUtil.ToJsonValue(ReplaceOps.ApplyTo(None, j.op.replacement).value)
    ensures !(j.path == Some(Paths.Root) && j.op.Replace?) ==> r == Err(AssertionFailed)
  {
    if j.path != Some(Paths.Root) || !j.op.Replace? then Err(AssertionFailed)
    else if j.op.replacement.IsNoOp() then Ok(JNull)
    else if j.op.replacement.oldValue.Some? then Err(AssertionFailed)
    else Ok(j.op.replacement.newValue.value)
  }

  // ---------------------------------------------------------------------------------------
  // Worked examples: an object op at the root against ops at other paths

  /** `a: "string" -> v`, the object op of the examples. */
  function SetA(v: string): MapOps.Components
  {
    map["a" := MapOps.Change(Some(JStr("string")), Some(JStr(v)))]
  }

  /** An object op at the root is the parent of an op at `diffPath`, handled by the object transform. */
  lemma DifferentPathRoutes(alg: ListAlgebra, server: JsonOp, client: JsonOp)
    requires server == JsonOp(Some(Paths.Root), Object(SetA("value1")))
    requires client == JsonOp(Some("diffPath"), Object(SetA("value2")))
    ensures TransformWith(alg, server, client) == ObjectOps.TransformWithChild(true, server, client)
  {
    assert "a" in SetA("value1") && "a" in SetA("value2");
    assert !IsNoJsonOp(server, alg) && !IsNoJsonOp(client, alg);
    assert Paths.IsAncestorOf(Paths.Root, "diffPath");
    TransformAncestor(alg, server, client);
    assert TypeTag(server.op, alg.tag) == MapOps.Tag;
  }

  /** Against an op at an unrelated path the server op passes unchanged. */
  lemma ExampleDifferentPath(alg: ListAlgebra)
    ensures var server := JsonOp(Some(Paths.Root), Object(SetA("value1")));
      var client := JsonOp(Some("diffPath"), Object(SetA("value2")));
      TransformWith(alg, server, client) == Ok((server, client))
  {
    var server := JsonOp(Some(Paths.Root), Object(SetA("value1")));
    var client := JsonOp(Some("diffPath"), Object(SetA("value2")));
    DifferentPathRoutes(alg, server, client);
    DifferentPathPasses(server, client);
  }

  /** The root object op does not name `diffPath`, so the object transform lets both ops pass. */
  lemma DifferentPathPasses(server: JsonOp, client: JsonOp)
    requires server == JsonOp(Some(Paths.Root), Object(SetA("value1")))
    requires client == JsonOp(Some("diffPath"), Object(SetA("value2")))
    ensures ObjectOps.TransformWithChild(true, server, client) == Ok((server, client))
  {
    var m := SetA("value1");
    assert "diffPath" !in m;
    DiffPathKey();
    ObjectOps.ChildOfKey(true, Paths.Root, m, "diffPath", "", Object(SetA("value2")));
  }

  /** `diffPath` is a member key of the root, and the path of that member is `diffPath` itself. */
  lemma DiffPathKey()
    ensures Paths.IsValidKey("diffPath")
    ensures Paths.AtPath(Paths.AtKey(Paths.Root, "diffPath").value, "") == "diffPath"
  {
    assert Paths.IsValidKey("diffPath");
  }

  /** At the same path the server's change of `a` wins: the server op empties, the client op changes `a` from the server's value. */
  lemma ExampleSamePath(alg: ListAlgebra)
    ensures TransformWith(alg, JsonOp(Some(Paths.Root), Object(SetA("value1"))), JsonOp(Some(Paths.Root), Object(SetA("value2"))))
      == Ok((JsonOp(Some(Paths.Root), Object(map[])),
             JsonOp(Some(Paths.Root), Object(map["a" := MapOps.Change(Some(JStr("value1")), Some(JStr("value2")))]))))
  {
    assert "a" in SetA("value1") && "a" in SetA("value2");
    SamePathObjectTransformed(alg, Paths.Root, SetA("value1"), SetA("value2"));
    assert MapOps.Excluded(SetA("value1"), SetA("value2").Keys) == map[];
    assert MapOps.TransformedClient(SetA("value1"), SetA("value2"))
      == map["a" := MapOps.Change(Some(JStr("value1")), Some(JStr("value2")))];
  }

  /** The string op of the examples: keep `str`, delete `ing`. */
  const Truncate: ListOps.ListOp<char> := [ListOps.Retain(3), ListOps.Delete("ing")]

  /** Replaying the string op on the old value the object op records for `a`. */
  lemma TruncateReplayed()
    ensures Documents.Consumed(JStr("string"), JsonOp(Some(Paths.Root), Text(Truncate))) == Ok(JStr("str"))
  {
    var del: ListOps.ListOp<char> := [ListOps.Delete("ing")];
    assert Truncate[1..] == del && del[1..] == [];
    assert "string"[3..6] == "ing";
    assert "string"[..3] + "string"[6..] == "str";
    assert ListOps.ApplyAt(del, "string", 3, ListOps.ModelText) == ListOps.ApplyAt([], "str", 3, ListOps.ModelText);
    assert ListOps.Apply(Truncate, "string", ListOps.ModelText) == Ok("str");
  }

  /**
   * An op inside the member the server op changes: the client's edit lands in the server
   * op's old value of `a`, and the client op becomes the no-op; with the roles swapped the
   * pair comes back swapped.
   */
  lemma ExampleEmbeddedPath(alg: ListAlgebra)
    requires !alg.text.isNoOp(Truncate)
    ensures var server := JsonOp(Some(Paths.Root), Object(SetA("value1")));
      var client := JsonOp(Some("a"), Text(Truncate));
      var folded := JsonOp(Some(Paths.Root), Object(map["a" := MapOps.Change(Some(JStr("str")), Some(JStr("value1")))]));
      TransformWith(alg, server, client) == Ok((folded, NoJsonOp))
      && TransformWith(alg, client, server) == Ok((NoJsonOp, folded))
  {
    EmbeddedPathFolded();
    EmbeddedPathServerFirst(alg);
    EmbeddedPathClientFirst(alg);
  }

  /** The object op with the truncated old value of `a` folded in. */
  lemma EmbeddedPathFolded()
    ensures ObjectOps.Folded(SetA("value1"), "a", JStr("str"))
      == map["a" := MapOps.Change(Some(JStr("str")), Some(JStr("value1")))]
  {
    assert "a" in SetA("value1");
  }

  /** The first half of `ExampleEmbeddedPath`: the server op on the left. */
  lemma EmbeddedPathServerFirst(alg: ListAlgebra)
    requires !alg.text.isNoOp(Truncate)
    ensures TransformWith(alg, JsonOp(Some(Paths.Root), Object(SetA("value1"))), JsonOp(Some("a"), Text(Truncate)))
      == Ok((JsonOp(Some(Paths.Root), Object(ObjectOps.Folded(SetA("value1"), "a", JStr("str")))), NoJsonOp))
  {
    assert Paths.IsValidKey("a");
    ObjectOps.ChildOfKey(true, Paths.Root, SetA("value1"), "a", "", Text(Truncate));
    assert Paths.AtPath(Paths.AtKey(Paths.Root, "a").value, "") == "a";
    assert "a" in SetA("value1");
    TruncateReplayed();
  }

  /** The second half of `ExampleEmbeddedPath`: the server op on the right. */
  lemma EmbeddedPathClientFirst(alg: ListAlgebra)
    requires !alg.text.isNoOp(Truncate)
    ensures TransformWith(alg, JsonOp(Some("a"), Text(Truncate)), JsonOp(Some(Paths.Root), Object(SetA("value1"))))
      == Ok((NoJsonOp, JsonOp(Some(Paths.Root), Object(ObjectOps.Folded(SetA("value1"), "a", JStr("str"))))))
  {
    assert Paths.IsValidKey("a");
    ObjectOps.ChildOfKey(false, Paths.Root, SetA("value1"), "a", "", Text(Truncate));
    assert Paths.AtPath(Paths.AtKey(Paths.Root, "a").value, "") == "a";
    assert "a" in SetA("value1");
    TruncateReplayed();
  }
}
