/**
 * `JsonLoader`: finding or creating the object a key names. A key without `/` is a kind, and
 * a fresh object of that kind gets a random id; a new object starts from one delta, a replace
 * op at the root from null to the empty value of the requested JSON type.
 *
 * The datastore and the slob store are not part of this model: whether an object exists is a
 * parameter, and the deltas a new object starts from are returned.
 */
module JsonLoaders {
  import opened Wrappers
  import opened Json
  import opened Ops
  import JsonOps
  import ReplaceOps
  import Paths
  import Ids
  import opened JsonModelAdapters
  import opened Slobs

  /** The length of a generated id: 96 bits in base-64 digits of 6 bits each. */
  const IdLength: nat := 96 / 6

  /** The value `createInitOp` starts an object of type `t` from; there is none for `NULL`. */
  function InitialValue(t: JsonType): (r: Result<Json>)
    ensures r.Err? <==> t == NULL
    ensures r.Err? ==> r.error == Unsupported
    ensures r.Ok? ==> TypeOf(r.value) == t
  {
    match t
    case ARRAY => Ok(JArr([]))
    case BOOLEAN => Ok(JBool(false))
    case NUMBER => Ok(JNum(0))
    case OBJECT => Ok(JObj(map[]))
    case STRING => Ok(JStr(""))
    case NULL => Err(Unsupported)
  }

  /** `new JsonOp(Path.of(), new ReplaceOp(JSON).replace(null, init))`. */
  function InitOp(init: Json): JsonOp
  {
    JsonOp(Some(Paths.Root), Replace(ReplaceOps.Fresh(None, Some(init))))
  }

  /** `createInitOp`: the one delta of a new object, the initial op printed under the session. */
  function CreateInitOp(codec: Codec, alg: ListAlgebra, sessionId: string, t: JsonType): (r: Result<seq<Delta>>)
    ensures r.Err? <==> t == NULL
    ensures r.Ok? ==> |r.value| == 1 && r.value[0].clientId == sessionId
  {
    var init :- InitialValue(t);
    Ok([Delta(sessionId, codec.write(JsonOps.ToWire(alg, InitOp(init), [])))])
  }

  /** What the initial delta reads back as: the replace op from JSON null to the initial value. */
  lemma InitialDeltaReads(codec: Codec, alg: ListAlgebra, sessionId: string, t: JsonType)
    requires ReadsBack(codec) && JsonOps.Lawful(alg) && t != NULL
    ensures var d := CreateInitOp(codec, alg, sessionId, t).value[0];
      codec.parse(d.payload).Some?
      && JsonModels.CreateOp(alg, codec.parse(d.payload).value)
         == Ok(JsonOp(Some(Paths.Root), Replace(ReplaceOps.Replacement(Some(JNull), Some(InitialValue(t).value)))))
  {
    var init := InitialValue(t).value;
    JsonModels.CreateOpReadsWire(alg, InitOp(init), []);
  }

  /**
   * As written, the initial delta of every new object is refused by the slob it creates:
   * `buildJsonFromInitialOp` asserts that the old value is Java null, and it reads back as a
   * JSON null.
   */
  lemma InitialDeltaAsWrittenRefused(codec: Codec, alg: ListAlgebra, sessionId: string, t: JsonType)
    requires ReadsBack(codec) && JsonOps.Lawful(alg) && t != NULL
    ensures Applied(codec, alg, false, None, CreateInitOp(codec, alg, sessionId, t).value[0].payload) == Err(AssertionFailed)
  {
    InitialDeltaReads(codec, alg, sessionId, t);
  }

  /** Corrected, the initial delta builds the initial value of the requested type. */
  lemma InitialDeltaCreates(codec: Codec, alg: ListAlgebra, sessionId: string, t: JsonType)
    requires ReadsBack(codec) && JsonOps.Lawful(alg) && t != NULL
    ensures Applied(codec, alg, true, None, CreateInitOp(codec, alg, sessionId, t).value[0].payload)
      == Ok(InitialValue(t).value)
    ensures TypeOf(InitialValue(t).value) == t
  {
    InitialDeltaReads(codec, alg, sessionId, t);
  }

  /** A generated id is printed as `kind/id` and read back as itself. */
  lemma GeneratedIdReadsBack(key: string, draws: seq<Ids.Draw>)
    requires Ids.Separator !in key && |draws| == IdLength
    ensures Ids.Parse(Some(Ids.ToString(Ids.ObjectId(key, Ids.Spelled(draws))))) == Ok(Ids.ObjectId(key, Ids.Spelled(draws)))
  {
    Ids.ParsePrinted(Ids.ObjectId(key, Ids.Spelled(draws)));
  }

  class JsonLoader {
    const codec: Codec
    const alg: ListAlgebra
    const random64: Ids.RandomBase64Generator

    constructor (codec: Codec, alg: ListAlgebra, random64: Ids.RandomBase64Generator)
      ensures this.codec == codec && this.alg == alg && this.random64 == random64
    {
      this.codec := codec;
      this.alg := alg;
      this.random64 := random64;
    }

    /**
     * `loadOrCreate(key, sessionId, type)`: the id the key names, with the deltas of the object
     * created for it, or `None` when it exists already. A key without `/` is a kind: it gets
     * 16 random characters as id and a new object. Any other key is parsed as an id, and the
     * object is created only when `stored` does not hold it.
     */
    method LoadOrCreate(key: Option<string>, sessionId: Option<string>, t: JsonType, stored: set<Ids.ObjectId>)
      returns (r: Result<(Ids.ObjectId, Option<seq<Delta>>)>)
      modifies random64
      ensures key.None? || sessionId.None? ==> r == Err(NullPointer) && random64.drawn == old(random64.drawn)
      ensures key.Some? && sessionId.Some? && Ids.Separator !in key.value ==>
        random64.drawn == old(random64.drawn) + IdLength
        && var id := Ids.ObjectId(key.value, Ids.Spelled(Ids.Draws(random64.random, old(random64.drawn), IdLength)));
           var init := CreateInitOp(codec, alg, sessionId.value, t);
           r == if init.Err? then Err(init.error) else Ok((id, Some(init.value)))
      ensures key.Some? && sessionId.Some? && Ids.Separator in key.value ==>
        random64.drawn == old(random64.drawn)
        && var id := Ids.Parse(key);
           var init := CreateInitOp(codec, alg, sessionId.value, t);
           r == if id.Err? then Err(id.error)
                else if id.value in stored then Ok((id.value, None))
                else if init.Err? then Err(init.error) else Ok((id.value, Some(init.value)))
    {
      if key.None? || sessionId.None? {
        return Err(NullPointer);
      }
      var id: Ids.ObjectId;
      if Ids.Separator !in key.value {
        var drawn := random64.Next(IdLength);
        id := Ids.ObjectId(key.value, drawn.value);
      } else {
        var parsed := Ids.Parse(key);
        if parsed.Err? {
          return Err(parsed.error);
        }
        id := parsed.value;
        if id in stored {
          return Ok((id, None));
        }
      }
      var init := CreateInitOp(codec, alg, sessionId.value, t);
      if init.Err? {
        return Err(init.error);
      }
      return Ok((id, Some(init.value)));
    }
  }
}
