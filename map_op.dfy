/**
 * `MapOp`: a sparse map from keys to (old value, new value) pairs, with compose, invert and
 * transform, and `ObjectOp`, the same op over JSON values. The op is a class whose
 * `components` map `update` changes in place; compose, invert, transform and exclude build
 * fresh ops by repeated `update`. The value functions below specify those methods, and the
 * lemmas state the algebra the methods therefore have.
 *
 * A value is an `Option<Json>`: `None` is a Java null (the key is absent).
 */
module MapOps {
  import opened Wrappers
  import opened Json
  import Serializers
  import JsonUtil

  /** The wire type tag of a map op. */
  const Tag := "o"

  /** One component: the key's value before and after the op. */
  datatype Change = Change(oldValue: Option<Json>, newValue: Option<Json>)

  type Components = map<string, Change>

  /** What `update` can store: no component changes a value to itself. */
  predicate WellFormed(m: Components)
  {
    forall k | k in m :: m[k].oldValue != m[k].newValue
  }

  /** What `toString` can print: no component has two nulls. */
  predicate Writable(m: Components)
  {
    forall k | k in m :: m[k].oldValue.Some? || m[k].newValue.Some?
  }

  function Entry(m: Components, k: string): Option<Change>
  {
    if k in m then Some(m[k]) else None
  }

  function SetEntry(m: Components, k: string, e: Option<Change>): Components
  {
    if e.None? then m - {k} else m[k := e.value]
  }

  /** `update(key, oldValue, newValue)` on the components `m`. */
  function Updated(m: Components, key: string, oldValue: Option<Json>, newValue: Option<Json>)
    : Result<Components>
  {
    if oldValue == newValue then Ok(m)
    else if key !in m then Ok(m[key := Change(oldValue, newValue)])
    else if m[key].newValue != oldValue then Err(ComposeError)
    else if m[key].oldValue == newValue then Ok(m - {key})
    else Ok(m[key := Change(m[key].oldValue, newValue)])
  }

  /**
   * The net change of one key when the entry `e` is followed by the change `c`: `c` must
   * start where `e` ends, and a chain back to its start leaves no entry.
   */
  function Chain(e: Option<Change>, c: Change): Result<Option<Change>>
  {
    if c.oldValue == c.newValue then Ok(e)
    else if e.None? then Ok(Some(c))
    else if e.value.newValue != c.oldValue then Err(ComposeError)
    else if e.value.oldValue == c.newValue then Ok(None)
    else Ok(Some(Change(e.value.oldValue, c.newValue)))
  }

  /** `update` touches one key, and does to it what `Chain` says. */
  lemma UpdatedIsChain(m: Components, k: string, c: Change)
    ensures Updated(m, k, c.oldValue, c.newValue)
      == match Chain(Entry(m, k), c)
         case Ok(e) => Ok(SetEntry(m, k, e))
         case Err(x) => Err(x)
  {
    if c.oldValue == c.newValue {
      assert SetEntry(m, k, Entry(m, k)) == m;
    }
  }

  /** `update` keeps the components well formed. */
  lemma UpdatedWellFormed(m: Components, k: string, oldValue: Option<Json>, newValue: Option<Json>)
    requires WellFormed(m) && Updated(m, k, oldValue, newValue).Ok?
    ensures WellFormed(Updated(m, k, oldValue, newValue).value)
  {
  }

  /** The restriction of `b` to the keys in `keys`. */
  function Restrict(b: Components, keys: set<string>): (r: Components)
    ensures r.Keys == b.Keys * keys
    ensures forall k | k in r :: r[k] == b[k]
  {
    map k | k in b && k in keys :: b[k]
  }

  /** The components of `m` without the keys in `keys`. */
  function Without(m: Components, keys: set<string>): (r: Components)
    ensures r.Keys == m.Keys - keys
    ensures forall k | k in r :: r[k] == m[k]
  {
    map k | k in m && k !in keys :: m[k]
  }

  /** The components an op built by `update`s of `m`'s entries holds: the self-changes dropped. */
  function Normalized(m: Components): (r: Components)
    ensures WellFormed(r) && r.Keys <= m.Keys
    ensures forall k | k in m :: (k in r <==> m[k].oldValue != m[k].newValue)
    ensures forall k | k in r :: r[k] == m[k]
  {
    map k | k in m && m[k].oldValue != m[k].newValue :: m[k]
  }

  lemma NormalizedWellFormed(m: Components)
    requires WellFormed(m)
    ensures Normalized(m) == m
  {
  }

  // ---------------------------------------------------------------- compose

  /** Every key of `b` chains onto `a`. */
  predicate Composable(a: Components, b: Components)
  {
    forall k | k in b :: Chain(Entry(a, k), b[k]).Ok?
  }

  function FinalEntry(a: Components, b: Components, k: string): Option<Change>
    requires Composable(a, b)
  {
    if k in b then Chain(Entry(a, k), b[k]).value else Entry(a, k)
  }

  function Composed(a: Components, b: Components): Components
    requires Composable(a, b)
  {
    map k | k in a.Keys + b.Keys && FinalEntry(a, b, k).Some? :: FinalEntry(a, b, k).value
  }

  /** `a.composeWith(b)` on components that are already normalised. */
  function Compose(a: Components, b: Components): Result<Components>
  {
    if Composable(a, b) then Ok(Composed(a, b)) else Err(ComposeError)
  }

  /** One more key of `b` folded into `a` by `update`. */
  lemma ComposeStep(a: Components, b: Components, done: set<string>, k: string)
    requires k in b && k !in done && Composable(a, Restrict(b, done))
    ensures Chain(Entry(a, k), b[k]).Ok? ==> Composable(a, Restrict(b, done + {k}))
    ensures Updated(Composed(a, Restrict(b, done)), k, b[k].oldValue, b[k].newValue)
      == if Chain(Entry(a, k), b[k]).Ok? then Ok(Composed(a, Restrict(b, done + {k})))
         else Err(ComposeError)
  {
    var m := Composed(a, Restrict(b, done));
    assert Entry(m, k) == Entry(a, k);
    UpdatedIsChain(m, k, b[k]);
    if Chain(Entry(a, k), b[k]).Ok? {
      var e := Chain(Entry(a, k), b[k]).value;
      var b' := Restrict(b, done + {k});
      assert Composable(a, b');
      var n := Composed(a, b');
      forall j ensures Entry(SetEntry(m, k, e), j) == Entry(n, j) {
        EntryComposed(a, b', j);
        if j != k {
          EntryComposed(a, Restrict(b, done), j);
        }
      }
      EntriesDetermine(SetEntry(m, k, e), n);
    }
  }

  /** The entry a composition holds for a key is the chained change of that key. */
  lemma EntryComposed(a: Components, b: Components, j: string)
    requires Composable(a, b)
    ensures Entry(Composed(a, b), j) == FinalEntry(a, b, j)
  {
  }

  /** Components with the same entry for every key are equal. */
  lemma EntriesDetermine(x: Components, y: Components)
    requires forall j :: Entry(x, j) == Entry(y, j)
    ensures x == y
  {
    forall j | j in x ensures j in y && x[j] == y[j] {
      assert Entry(x, j) == Entry(y, j);
    }
    forall j | j in y ensures j in x {
      assert Entry(x, j) == Entry(y, j);
    }
  }

  /** Folding into an empty op keeps what `update` keeps. */
  lemma ComposeOntoEmpty(m: Components)
    ensures Composable(map[], m)
    ensures Composed(map[], m) == Normalized(m)
  {
  }

  /** A composition of well-formed components is well formed. */
  lemma ComposedWellFormed(a: Components, b: Components)
    requires WellFormed(a) && Composable(a, b)
    ensures WellFormed(Composed(a, b))
  {
  }

  /** An op with nothing in it changes nothing when composed on either side. */
  lemma ComposeWithEmpty(a: Components)
    requires WellFormed(a)
    ensures Compose(a, map[]) == Ok(a) && Compose(map[], a) == Ok(a)
  {
    assert Composed(a, map[]) == a;
    ComposeOntoEmpty(a);
    NormalizedWellFormed(a);
  }

  // ---------------------------------------------------------------- invert

  function Swapped(m: Components): Components
  {
    map k | k in m :: Change(m[k].newValue, m[k].oldValue)
  }

  /** `invert`: every component with its old and new values exchanged. */
  function Inverted(m: Components): Components
  {
    map k | k in m && m[k].oldValue != m[k].newValue :: Change(m[k].newValue, m[k].oldValue)
  }

  lemma InvertedIsSwapFolded(m: Components)
    ensures Composable(map[], Swapped(m))
    ensures Composed(map[], Swapped(m)) == Inverted(m)
  {
    ComposeOntoEmpty(Swapped(m));
  }

  /** Inverting twice gives back the op. */
  lemma InvertInvolution(m: Components)
    requires WellFormed(m)
    ensures WellFormed(Inverted(m)) && Inverted(Inverted(m)) == m
  {
  }

  /** `op.composeWith(op.invert())` is the no-op. */
  lemma ComposeWithInverse(m: Components)
    requires WellFormed(m)
    ensures Compose(m, Inverted(m)) == Ok(map[])
  {
    assert Composable(m, Inverted(m));
    assert Composed(m, Inverted(m)) == map[];
  }

  // ---------------------------------------------------------------- transform

  /** No key that both ops change starts from different values. */
  predicate SharedBase(s: Components, c: Components)
  {
    forall k | k in c && k in s :: s[k].oldValue == c[k].oldValue
  }

  /** The change the transformed client op makes to a client key. */
  function ClientChange(s: Components, c: Components, k: string): Change
    requires k in c
  {
    if k in s then Change(s[k].newValue, c[k].newValue) else c[k]
  }

  /** The transformed client op: the client's changes, rebased onto the server's new values. */
  function TransformedClient(s: Components, c: Components): Components
  {
    map k | k in c && ClientChange(s, c, k).oldValue != ClientChange(s, c, k).newValue :: ClientChange(s, c, k)
  }

  /** `exclude`: the server op without the keys the client changes. */
  function Excluded(s: Components, clientKeys: set<string>): Components
  {
    Normalized(Without(s, clientKeys))
  }

  /** `server.transformWith(client)`: (server′, client′), or a `TransformException`. */
  function Transform(s: Components, c: Components): Result<(Components, Components)>
  {
    if SharedBase(s, c) then Ok((Excluded(s, c.Keys), TransformedClient(s, c)))
    else Err(TransformError)
  }

  /** One more client key handled by the transform loop. */
  lemma TransformStep(s: Components, c: Components, done: set<string>, k: string)
    requires k in c && k !in done
    ensures var t := TransformedClient(s, Restrict(c, done));
      Updated(t, k, ClientChange(s, c, k).oldValue, ClientChange(s, c, k).newValue)
        == Ok(TransformedClient(s, Restrict(c, done + {k})))
  {
    var t := TransformedClient(s, Restrict(c, done));
    assert k !in t;
    var ch := ClientChange(s, c, k);
    var t' := TransformedClient(s, Restrict(c, done + {k}));
    if ch.oldValue == ch.newValue {
      assert t' == t;
    } else {
      assert t' == t[k := ch];
    }
  }

  // ---------------------------------------------------------------- apply

  /** The value a key holds in a JSON object, `None` when absent. */
  function Lookup(obj: map<string, Json>, k: string): Option<Json>
  {
    if k in obj then Some(obj[k]) else None
  }

  /**
   * The update callback of a JSON object accepts a change when its non-null old value is the
   * key's current value, and removes only a key that is present.
   */
  predicate Accepts(obj: map<string, Json>, k: string, c: Change)
  {
    (c.oldValue.Some? ==> Lookup(obj, k) == c.oldValue) && (c.newValue.None? ==> k in obj)
  }

  predicate Applicable(obj: map<string, Json>, m: Components)
  {
    forall k | k in m :: Accepts(obj, k, m[k])
  }

  function After(obj: map<string, Json>, m: Components, k: string): Option<Json>
  {
    if k in m then m[k].newValue else Lookup(obj, k)
  }

  function Applied(obj: map<string, Json>, m: Components): map<string, Json>
  {
    map k | k in obj.Keys + m.Keys && After(obj, m, k).Some? :: After(obj, m, k).value
  }

  /**
   * `op.apply(jsonObject)`: every key takes its new value, or is removed for a null new
   * value. A change the object does not accept rejects the op.
   */
  function ApplyTo(obj: map<string, Json>, m: Components): Result<map<string, Json>>
  {
    if Applicable(obj, m) then Ok(Applied(obj, m)) else Err(Refusal(obj, m))
  }

  /**
   * The exception a refused op raises: comparing the old value of a key the object lacks
   * dereferences a null (a `RuntimeException`); every other refusal is a failed assertion.
   */
  function Refusal(obj: map<string, Json>, m: Components): Error
  {
    if exists k | k in m :: m[k].oldValue.Some? && k !in obj then Runtime else AssertionFailed
  }

  /** Applying `b` after a result that may already be a failure. */
  function Then(r: Result<map<string, Json>>, b: Components): Result<map<string, Json>>
  {
    if r.Err? then r else ApplyTo(r.value, b)
  }

  /** The object holds every old value the op names, absent keys included. */
  predicate Consistent(obj: map<string, Json>, m: Components)
  {
    forall k | k in m :: Lookup(obj, k) == m[k].oldValue
  }

  lemma LookupApplied(obj: map<string, Json>, m: Components, k: string)
    ensures Lookup(Applied(obj, m), k) == After(obj, m, k)
  {
  }

  /** An op whose old values the object holds applies. */
  lemma ConsistentApplies(obj: map<string, Json>, m: Components)
    requires WellFormed(m) && Consistent(obj, m)
    ensures ApplyTo(obj, m).Ok?
  {
  }

  /** After `a`, `b` is accepted iff the composition of the two is accepted from the start. */
  lemma ComposedAccepted(obj: map<string, Json>, a: Components, b: Components)
    requires WellFormed(a) && WellFormed(b) && Consistent(obj, a) && Composable(a, b)
    ensures Applicable(Applied(obj, a), b) <==> Applicable(obj, Composed(a, b))
  {
    var mid := Applied(obj, a);
    var ab := Composed(a, b);
    forall k | true
      ensures Lookup(mid, k) == After(obj, a, k)
    {
      LookupApplied(obj, a, k);
    }
    if Applicable(mid, b) {
      forall k | k in ab
        ensures Accepts(obj, k, ab[k])
      {
        assert k !in b || Accepts(mid, k, b[k]);
      }
    }
    if Applicable(obj, ab) {
      forall k | k in b
        ensures Accepts(mid, k, b[k])
      {
        if k !in a {
          assert k in ab && ab[k] == b[k];
          assert Accepts(obj, k, ab[k]);
        }
      }
    }
  }

  /** After `a`, `b` leaves every key as the composition of the two does. */
  lemma ComposedOutcome(obj: map<string, Json>, a: Components, b: Components)
    requires WellFormed(a) && WellFormed(b) && Consistent(obj, a) && Composable(a, b)
    ensures Applied(Applied(obj, a), b) == Applied(obj, Composed(a, b))
  {
    var l := Applied(Applied(obj, a), b);
    var r := Applied(obj, Composed(a, b));
    forall k | true
      ensures Lookup(l, k) == Lookup(r, k)
    {
      ComposedOutcomeAt(obj, a, b, k);
    }
    SameLookups(l, r);
  }

  lemma ComposedOutcomeAt(obj: map<string, Json>, a: Components, b: Components, k: string)
    requires WellFormed(a) && WellFormed(b) && Consistent(obj, a) && Composable(a, b)
    ensures Lookup(Applied(Applied(obj, a), b), k) == Lookup(Applied(obj, Composed(a, b)), k)
  {
    LookupApplied(Applied(obj, a), b, k);
    LookupApplied(obj, a, k);
    LookupApplied(obj, Composed(a, b), k);
  }

  /** Two objects that hold the same value at every key are equal. */
  lemma SameLookups(l: map<string, Json>, r: map<string, Json>)
    requires forall k :: Lookup(l, k) == Lookup(r, k)
    ensures l == r
  {
    forall k | k in l
      ensures k in r
    {
      assert Lookup(l, k).Some?;
    }
    forall k | k in r
      ensures k in l
    {
      assert Lookup(r, k).Some?;
    }
    forall k | k in l
      ensures l[k] == r[k]
    {
      assert Lookup(l, k) == Lookup(r, k);
    }
  }

  /** Applying the composition is applying the two ops in turn. */
  lemma ComposeThenApply(obj: map<string, Json>, a: Components, b: Components)
    requires WellFormed(a) && WellFormed(b) && Consistent(obj, a) && Compose(a, b).Ok?
    ensures ApplyTo(obj, a).Ok?
    ensures Then(ApplyTo(obj, a), b) == ApplyTo(obj, Compose(a, b).value)
  {
    ConsistentApplies(obj, a);
    ThenOk(obj, a, b);
    ComposedAccepted(obj, a, b);
    if Applicable(Applied(obj, a), b) {
      ComposedOutcome(obj, a, b);
    }
  }

  /** Applying an op and then its inverse gives back the object. */
  lemma InvertUndoes(obj: map<string, Json>, m: Components)
    requires WellFormed(m) && Consistent(obj, m)
    ensures ApplyTo(obj, m).Ok?
    ensures ApplyTo(ApplyTo(obj, m).value, Inverted(m)) == Ok(obj)
  {
    ConsistentApplies(obj, m);
    var mid := Applied(obj, m);
    forall k | true
      ensures Lookup(mid, k) == After(obj, m, k)
    {
      LookupApplied(obj, m, k);
    }
    assert Applicable(mid, Inverted(m));
    var back := Applied(mid, Inverted(m));
    forall k | true
      ensures Lookup(back, k) == Lookup(obj, k)
    {
      LookupApplied(mid, Inverted(m), k);
    }
    assert back == obj by {
      forall k | k in back ensures k in obj
      {
        assert Lookup(back, k).Some?;
      }
      forall k | k in obj ensures k in back
      {
        assert Lookup(obj, k).Some?;
      }
    }
  }

  /** Applying `a` and then `b` succeeds iff each step is accepted where it is applied. */
  lemma ThenOk(obj: map<string, Json>, a: Components, b: Components)
    ensures Then(ApplyTo(obj, a), b).Ok? <==> Applicable(obj, a) && Applicable(Applied(obj, a), b)
    ensures Then(ApplyTo(obj, a), b).Ok? ==> Then(ApplyTo(obj, a), b).value == Applied(Applied(obj, a), b)
  {
  }

  /** After the server op, the transformed client op is accepted iff the client op was. */
  lemma ClientAfterServer(obj: map<string, Json>, s: Components, c: Components)
    requires WellFormed(s) && WellFormed(c) && SharedBase(s, c) && Applicable(obj, s)
    ensures Applicable(Applied(obj, s), TransformedClient(s, c)) <==> Applicable(obj, c)
  {
    var mid := Applied(obj, s);
    var c' := TransformedClient(s, c);
    forall k | true
      ensures Lookup(mid, k) == After(obj, s, k)
    {
      LookupApplied(obj, s, k);
    }
    if Applicable(mid, c') {
      forall k | k in c
        ensures Accepts(obj, k, c[k])
      {
        if k !in s {
          assert k in c' && c'[k] == c[k];
          assert Accepts(mid, k, c'[k]);
        } else {
          assert Accepts(obj, k, s[k]);
        }
      }
    }
    if Applicable(obj, c) {
      forall k | k in c'
        ensures Accepts(mid, k, c'[k])
      {
        assert Accepts(obj, k, c[k]);
      }
    }
  }

  /** After the client op, the server op minus the client's keys is accepted iff the server op was. */
  lemma ServerAfterClient(obj: map<string, Json>, s: Components, c: Components)
    requires WellFormed(s) && WellFormed(c) && SharedBase(s, c) && Applicable(obj, c)
    ensures Applicable(Applied(obj, c), Excluded(s, c.Keys)) <==> Applicable(obj, s)
  {
    var mid := Applied(obj, c);
    var s' := Excluded(s, c.Keys);
    forall k | true
      ensures Lookup(mid, k) == After(obj, c, k)
    {
      LookupApplied(obj, c, k);
    }
    if Applicable(mid, s') {
      forall k | k in s
        ensures Accepts(obj, k, s[k])
      {
        if k in c {
          assert Accepts(obj, k, c[k]);
        } else {
          assert k in s' && s'[k] == s[k];
          assert Accepts(mid, k, s'[k]);
        }
      }
    }
    if Applicable(obj, s) {
      forall k | k in s'
        ensures Accepts(mid, k, s'[k])
      {
        assert Accepts(obj, k, s[k]);
      }
    }
  }

  /** Both orders leave every key with the same value. */
  lemma SameOutcome(obj: map<string, Json>, s: Components, c: Components)
    requires WellFormed(s) && WellFormed(c) && SharedBase(s, c)
    ensures Applied(Applied(obj, s), TransformedClient(s, c))
      == Applied(Applied(obj, c), Excluded(s, c.Keys))
  {
    var l := Applied(Applied(obj, s), TransformedClient(s, c));
    var r := Applied(Applied(obj, c), Excluded(s, c.Keys));
    forall k | true
      ensures Lookup(l, k) == Lookup(r, k)
    {
      LookupApplied(Applied(obj, s), TransformedClient(s, c), k);
      LookupApplied(obj, s, k);
      LookupApplied(Applied(obj, c), Excluded(s, c.Keys), k);
      LookupApplied(obj, c, k);
    }
    forall k | k in l
      ensures k in r
    {
      assert Lookup(l, k).Some?;
    }
    forall k | k in r
      ensures k in l
    {
      assert Lookup(r, k).Some?;
    }
    forall k | k in l
      ensures l[k] == r[k]
    {
      assert Lookup(l, k) == Lookup(r, k);
    }
  }

  /**
   * Transform convergence: applying the server op and then the transformed client op ends
   * where applying the client op and then the transformed server op ends: both orders
   * succeed together and end in the same object. When both fail, the exceptions may differ.
   */
  lemma TransformConverges(obj: map<string, Json>, s: Components, c: Components)
    requires WellFormed(s) && WellFormed(c) && Transform(s, c).Ok?
    ensures var (s', c') := Transform(s, c).value;
      && (Then(ApplyTo(obj, s), c').Ok? <==> Then(ApplyTo(obj, c), s').Ok?)
      && (Then(ApplyTo(obj, s), c').Ok? ==> Then(ApplyTo(obj, s), c') == Then(ApplyTo(obj, c), s'))
  {
    var s' := Excluded(s, c.Keys);
    var c' := TransformedClient(s, c);
    ThenOk(obj, s, c');
    ThenOk(obj, c, s');
    if Applicable(obj, s) {
      ClientAfterServer(obj, s, c);
    }
    if Applicable(obj, c) {
      ServerAfterClient(obj, s, c);
    }
    if Applicable(obj, s) && Applicable(obj, c) {
      SameOutcome(obj, s, c);
    }
  }

  // ---------------------------------------------------------------- wire form

  /** `toJson(key, old, new)`: `[k,{"i":v}]`, `[k,{"d":v}]` or `[k,old,new]`. */
  function WriteComponent(key: string, c: Change): Json
    requires c.oldValue.Some? || c.newValue.Some?
  {
    if c.oldValue.None? then JArr([JStr(key), JObj(map["i" := c.newValue.value])])
    else if c.newValue.None? then JArr([JStr(key), JObj(map["d" := c.oldValue.value])])
    else JArr([JStr(key), c.oldValue.value, c.newValue.value])
  }

  /** The components of `m` written in the order `keys`. */
  function WriteAll(m: Components, keys: seq<string>): seq<Json>
    requires Writable(m) && forall i | 0 <= i < |keys| :: keys[i] in m
  {
    if |keys| == 0 then []
    else WriteAll(m, keys[..|keys| - 1]) + [WriteComponent(keys[|keys| - 1], m[keys[|keys| - 1]])]
  }

  /** `keys` lists each key of `m` once. */
  predicate IsListing(keys: seq<string>, m: Components)
  {
    (forall i, j | 0 <= i < j < |keys| :: keys[i] != keys[j])
    && (forall i | 0 <= i < |keys| :: keys[i] in m)
    && (forall k | k in m :: k in keys)
  }

  function Listed(keys: seq<string>): set<string>
  {
    set k | k in keys
  }

  /** `toString`, in the order in which the key listing `keys` visits the components. */
  function ToWire(m: Components, keys: seq<string>): Json
    requires Writable(m) && IsListing(keys, m)
  {
    JArr(WriteAll(m, keys))
  }

  /** Reads one component of the wire form as a key and its change. */
  function ReadComponent(ser: Serializers.Serializer, c: Json): Result<(string, Change)>
  {
    if !c.JArr? then Err(Runtime)
    else if |c.items| == 3 then
      if !c.items[0].JStr? then Err(Runtime)
      else
        var o :- Serializers.FromJson(ser, c.items[1]);
        var n :- Serializers.FromJson(ser, c.items[2]);
        Ok((c.items[0].s, Change(o, n)))
    else if |c.items| != 2 then Err(AssertionFailed)
    else if !c.items[1].JObj? then Err(Runtime)
    else if |c.items[1].fields| != 1 then Err(AssertionFailed)
    else if "i" in c.items[1].fields then
      if !c.items[0].JStr? then Err(Runtime)
      else
        var n :- Serializers.FromJson(ser, c.items[1].fields["i"]);
        Ok((c.items[0].s, Change(None, n)))
    else if "d" !in c.items[1].fields then Err(AssertionFailed)
    else if !c.items[0].JStr? then Err(Runtime)
    else
      var o :- Serializers.FromJson(ser, c.items[1].fields["d"]);
      Ok((c.items[0].s, Change(o, None)))
  }

  /**
   * In a two-element component the tag is checked before the key is read: a tag other than
   * insert and delete fails the assertion whatever stands in the key's place, and a key that
   * is not a string is reached only under a valid tag.
   */
  lemma ReadTagBeforeKey(ser: Serializers.Serializer, key: Json, tag: string, v: Json)
    ensures tag != "i" && tag != "d" ==> ReadComponent(ser, JArr([key, JObj(map[tag := v])])) == Err(AssertionFailed)
    ensures (tag == "i" || tag == "d") && !key.JStr? ==> ReadComponent(ser, JArr([key, JObj(map[tag := v])])) == Err(Runtime)
  {
    assert |map[tag := v]| == 1;
  }

  /** The parsing constructor: each component, in order, is folded in by `update`. */
  function ParseComponents(ser: Serializers.Serializer, items: seq<Json>): Result<Components>
  {
    if |items| == 0 then Ok(map[])
    else
      var m :- ParseComponents(ser, items[..|items| - 1]);
      var kc :- ReadComponent(ser, items[|items| - 1]);
      Updated(m, kc.0, kc.1.oldValue, kc.1.newValue)
  }

  function Parse(ser: Serializers.Serializer, wire: Json): Result<Components>
  {
    if wire.JArr? then ParseComponents(ser, wire.items) else Err(Runtime)
  }

  /** The values a serializer can read back: `PRIMITIVE` reads only primitives and null. */
  predicate Readable(ser: Serializers.Serializer, m: Components)
  {
    ser == Serializers.Primitive ==>
      forall k | k in m :: JsonUtil.IsPrimitiveValue(m[k].oldValue) && JsonUtil.IsPrimitiveValue(m[k].newValue)
  }

  lemma ReadWritten(ser: Serializers.Serializer, m: Components, k: string)
    requires WellFormed(m) && Readable(ser, m) && k in m
    ensures ReadComponent(ser, WriteComponent(k, m[k])) == Ok((k, m[k]))
  {
    var c := m[k];
    if c.oldValue.Some? {
      Serializers.FromJsonOfWritten(ser, c.oldValue);
    }
    if c.newValue.Some? {
      Serializers.FromJsonOfWritten(ser, c.newValue);
    }
  }

  lemma {:induction false} ParsePrefix(ser: Serializers.Serializer, m: Components, keys: seq<string>, n: nat)
    requires WellFormed(m) && Readable(ser, m) && IsListing(keys, m) && n <= |keys|
    ensures ParseComponents(ser, WriteAll(m, keys[..n])) == Ok(Restrict(m, Listed(keys[..n])))
  {
    if n > 0 {
      ParsePrefix(ser, m, keys, n - 1);
      var key := keys[n - 1];
      ListingStep(keys, m, n);
      ReadWritten(ser, m, key);
      ParseOneMore(ser, WriteAll(m, keys[..n - 1]), Restrict(m, Listed(keys[..n - 1])),
        WriteComponent(key, m[key]), key, m[key]);
      RestrictGrow(m, Listed(keys[..n - 1]), key);
    }
  }

  /** A component for a key not parsed yet adds that key. */
  lemma ParseOneMore(ser: Serializers.Serializer, items: seq<Json>, before: Components, item: Json,
                     key: string, c: Change)
    requires ParseComponents(ser, items) == Ok(before)
    requires ReadComponent(ser, item) == Ok((key, c))
    requires key !in before && c.oldValue != c.newValue
    ensures ParseComponents(ser, items + [item]) == Ok(before[key := c])
  {
    assert (items + [item])[..|items|] == items;
  }

  lemma RestrictGrow(m: Components, keys: set<string>, key: string)
    requires key in m
    ensures Restrict(m, keys)[key := m[key]] == Restrict(m, keys + {key})
  {
  }

  /** The facts about one more listed key that the parse of a prefix needs. */
  lemma ListingStep(keys: seq<string>, m: Components, n: nat)
    requires Writable(m) && IsListing(keys, m) && 0 < n <= |keys|
    ensures WriteAll(m, keys[..n])
      == WriteAll(m, keys[..n - 1]) + [WriteComponent(keys[n - 1], m[keys[n - 1]])]
    ensures keys[n - 1] !in Listed(keys[..n - 1])
    ensures Listed(keys[..n]) == Listed(keys[..n - 1]) + {keys[n - 1]}
  {
    assert keys[..n][..n - 1] == keys[..n - 1];
    assert keys[..n] == keys[..n - 1] + [keys[n - 1]];
  }

  /** Parsing the printed form of a well-formed op gives back its components. */
  lemma ParseToWire(ser: Serializers.Serializer, m: Components, keys: seq<string>)
    requires WellFormed(m) && Readable(ser, m) && IsListing(keys, m)
    ensures Parse(ser, ToWire(m, keys)) == Ok(m)
  {
    ParsePrefix(ser, m, keys, |keys|);
    assert keys[..|keys|] == keys;
    assert Restrict(m, Listed(keys)) == m;
  }

  // ---------------------------------------------------------------- the op

  /**
   * A map op. A plain `MapOp` holds primitive values and reads them with the `PRIMITIVE`
   * serializer; an `ObjectOp` holds JSON values and reads them with the `JSON` serializer.
   * `newInstance` keeps the serializer, so compose, invert and transform results of an
   * `ObjectOp` are again `ObjectOp`s.
   */
  class MapOp {
    const ser: Serializers.Serializer
    var components: Components

    constructor (ser: Serializers.Serializer)
      ensures this.ser == ser && components == map[]
    {
      this.ser := ser;
      components := map[];
    }

    /** `isNoOp`: no key is touched. */
    predicate IsNoOp()
      reads this
    {
      |components| == 0
    }

    /** `update(key, oldValue, newValue)`. A failed update leaves the op as it was. */
    method Update(key: string, oldValue: Option<Json>, newValue: Option<Json>) returns (r: Outcome)
      modifies this
      ensures r.Pass? <==> Updated(old(components), key, oldValue, newValue).Ok?
      ensures r.Pass? ==> components == Updated(old(components), key, oldValue, newValue).value
      ensures r.Fail? ==> r.error == ComposeError && components == old(components)
    {
      if oldValue == newValue {
        return Pass;
      }
      if key !in components {
        components := components[key := Change(oldValue, newValue)];
        return Pass;
      }
      if components[key].newValue != oldValue {
        return Fail(ComposeError);
      }
      if components[key].oldValue == newValue {
        components := components - {key};
      } else {
        components := components[key := Change(components[key].oldValue, newValue)];
      }
      return Pass;
    }

    /** Every component of `src`, in some order, folded in by `update`. */
    method UpdateAll(src: Components) returns (r: Outcome)
      modifies this
      ensures r.Pass? <==> Composable(old(components), src)
      ensures r.Pass? ==> components == Composed(old(components), src)
      ensures r.Fail? ==> r.error == ComposeError
    {
      ghost var a := components;
      var keys := src.Keys;
      while keys != {}
        invariant keys <= src.Keys
        invariant Composable(a, Restrict(src, src.Keys - keys))
        invariant components == Composed(a, Restrict(src, src.Keys - keys))
        decreases keys
      {
        var k :| k in keys;
        ComposeStep(a, src, src.Keys - keys, k);
        r := Update(k, src[k].oldValue, src[k].newValue);
        if r.Fail? {
          return;
        }
        assert src.Keys - (keys - {k}) == (src.Keys - keys) + {k};
        keys := keys - {k};
      }
      assert Restrict(src, src.Keys - keys) == src;
      return Pass;
    }

    /** `clone`: a fresh op built by `update`s of this op's components. */
    method Clone() returns (r: MapOp)
      ensures fresh(r) && r.ser == ser && r.components == Normalized(components)
    {
      r := new MapOp(ser);
      ComposeOntoEmpty(components);
      var _ := r.UpdateAll(components);
    }

    /**
     * `composeWith`: this op followed by `o`, built on a clone, so this op is unchanged.
     * Fails with a `ComposeException` where a key of `o` does not start from this op's value.
     */
    method ComposeWith(o: MapOp) returns (r: Result<MapOp>)
      ensures r.Ok? <==> Compose(Normalized(components), o.components).Ok?
      ensures r.Ok? ==>
        fresh(r.value) && r.value.ser == ser
        && r.value.components == Compose(Normalized(components), o.components).value
      ensures r.Err? ==> r.error == ComposeError
    {
      var toRtn := Clone();
      var outcome := toRtn.UpdateAll(o.components);
      if outcome.Fail? {
        return Err(outcome.error);
      }
      return Ok(toRtn);
    }

    /** `invert`: a fresh op with every component's values exchanged. */
    method Invert() returns (r: MapOp)
      ensures fresh(r) && r.ser == ser && r.components == Inverted(components)
    {
      r := new MapOp(ser);
      InvertedIsSwapFolded(components);
      var _ := r.UpdateAll(Swapped(components));
    }

    /** `exclude(clientOp)`: a fresh op with the components whose key the client does not touch. */
    method Exclude(clientOp: MapOp) returns (r: MapOp)
      ensures fresh(r) && r.ser == ser && r.components == Excluded(components, clientOp.components.Keys)
    {
      r := new MapOp(ser);
      ComposeOntoEmpty(Without(components, clientOp.components.Keys));
      var _ := r.UpdateAll(Without(components, clientOp.components.Keys));
    }

    /**
     * `transformWith(clientOp)` with this op as the server op: (server′, client′). The
     * client's keys are visited in some order; the first key whose old values differ throws.
     */
    method TransformWith(clientOp: MapOp) returns (r: Result<(MapOp, MapOp)>)
      ensures r.Ok? <==> Transform(components, clientOp.components).Ok?
      ensures r.Ok? ==>
        fresh(r.value.0) && fresh(r.value.1)
        && r.value.0.ser == ser && r.value.1.ser == ser
        && (r.value.0.components, r.value.1.components)
           == Transform(components, clientOp.components).value
      ensures r.Err? ==> r.error == TransformError
    {
      var s := components;
      var c := clientOp.components;
      var transformed := new MapOp(ser);
      var keys := c.Keys;
      while keys != {}
        invariant keys <= c.Keys
        invariant SharedBase(s, Restrict(c, c.Keys - keys))
        invariant transformed.components == TransformedClient(s, Restrict(c, c.Keys - keys))
        decreases keys
      {
        var k :| k in keys;
        var done := c.Keys - keys;
        TransformStep(s, c, done, k);
        var clientOld, clientNew := c[k].oldValue, c[k].newValue;
        if k !in s {
          var _ := transformed.Update(k, clientOld, clientNew);
        } else {
          var serverOld, serverNew := s[k].oldValue, s[k].newValue;
          if serverOld != clientOld {
            assert !SharedBase(s, c);
            return Err(TransformError);
          }
          if serverNew != clientNew {
            var _ := transformed.Update(k, serverNew, clientNew);
          }
        }
        assert c.Keys - (keys - {k}) == done + {k};
        keys := keys - {k};
      }
      assert Restrict(c, c.Keys - keys) == c;
      var server := Exclude(clientOp);
      return Ok((server, transformed));
    }

    /** `toString`: the components written in the order the loop visits the keys. */
    method ToJson() returns (w: Json, ghost keys: seq<string>)
      requires Writable(components)
      ensures IsListing(keys, components) && w == ToWire(components, keys)
    {
      var remaining := components.Keys;
      var items: seq<Json> := [];
      keys := [];
      while remaining != {}
        invariant remaining <= components.Keys
        invariant forall i | 0 <= i < |keys| :: keys[i] in components && keys[i] !in remaining
        invariant forall i, j | 0 <= i < j < |keys| :: keys[i] != keys[j]
        invariant forall k | k in components && k !in remaining :: k in keys
        invariant items == WriteAll(components, keys)
        decreases remaining
      {
        var k :| k in remaining;
        items := items + [WriteComponent(k, components[k])];
        assert (keys + [k])[..|keys|] == keys;
        keys := keys + [k];
        remaining := remaining - {k};
      }
      w := JArr(items);
    }
  }

  /** The parsing constructor `MapOp(json)` (`ObjectOp(json)` for the `JSON` serializer). */
  method ParseOp(ser: Serializers.Serializer, wire: Json) returns (r: Result<MapOp>)
    ensures r.Ok? <==> Parse(ser, wire).Ok?
    ensures r.Ok? ==> fresh(r.value) && r.value.ser == ser && r.value.components == Parse(ser, wire).value
  {
    if !wire.JArr? {
      return Err(Runtime);
    }
    var op := new MapOp(ser);
    var i := 0;
    while i < |wire.items|
      invariant 0 <= i <= |wire.items|
      invariant ParseComponents(ser, wire.items[..i]) == Ok(op.components)
    {
      ParseNext(ser, wire.items, i);
      var kc := ReadComponent(ser, wire.items[i]);
      if kc.Err? {
        PrefixFailure(ser, wire.items, i + 1);
        return Err(kc.error);
      }
      var outcome := op.Update(kc.value.0, kc.value.1.oldValue, kc.value.1.newValue);
      if outcome.Fail? {
        PrefixFailure(ser, wire.items, i + 1);
        return Err(outcome.error);
      }
      i := i + 1;
    }
    assert wire.items[..i] == wire.items;
    return Ok(op);
  }

  /** One more component folded into the parsed prefix. */
  lemma ParseNext(ser: Serializers.Serializer, items: seq<Json>, i: nat)
    requires i < |items| && ParseComponents(ser, items[..i]).Ok?
    ensures var m := ParseComponents(ser, items[..i]).value;
      var kc := ReadComponent(ser, items[i]);
      ParseComponents(ser, items[..i + 1]) ==
        if kc.Err? then Err(kc.error) else Updated(m, kc.value.0, kc.value.1.oldValue, kc.value.1.newValue)
  {
    assert items[..i + 1][..i] == items[..i];
  }

  /** A prefix that fails to parse makes the whole list fail. */
  lemma {:induction false} PrefixFailure(ser: Serializers.Serializer, items: seq<Json>, n: nat)
    requires n <= |items| && ParseComponents(ser, items[..n]).Err?
    ensures ParseComponents(ser, items).Err?
    decreases |items| - n
  {
    if n < |items| {
      assert items[..n + 1][..n] == items[..n];
      PrefixFailure(ser, items, n + 1);
    } else {
      assert items[..n] == items;
    }
  }
}
