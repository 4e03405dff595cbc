/**
 * `SlobMessageRouter`: connects client channels as listeners to objects. Each object has 51
 * listener slots in the memcache table `objectListeners`; a client takes the lowest free slot
 * (or refreshes the one it holds), gets one channel token for all its objects, and is sent
 * every message published on an object it listens to.
 *
 * Memcache expiry, concurrent writers (seen only through `addSucceeds`, whether an
 * add-if-absent wins), and the channel service (`createChannel`, and an outbox of what is sent)
 * are parameters.
 */
module SlobMessageRouters {
  import opened Wrappers
  import Ids

  const MaxListeners: int := 51

  /** The attempts `connectListener` makes before giving up. */
  const MaxAttempts: int := 10

  /** The longest message published, in characters. */
  const MaxMessageLength: int := 8000

  /** `ListenerKey`: an object and a slot number. */
  datatype ListenerKey = ListenerKey(id: Ids.ObjectId, listenerNum: int)

  /** The table of listeners: a slot's key to the session id of the client in it. */
  type Listeners = map<ListenerKey, string>

  /** What `getFreeKeyForListener` finds: the slot the client holds, a free slot, or none. */
  datatype Slot = Present(key: ListenerKey) | Free(num: int) | TooMany

  /** The lowest slot of `obj` from `from` on that the client holds. */
  function HeldSlot(l: Listeners, obj: Ids.ObjectId, client: string, from: nat): (r: Option<nat>)
    requires from <= MaxListeners
    ensures r.Some? ==> from <= r.value < MaxListeners && ListenerKey(obj, r.value) in l
                        && l[ListenerKey(obj, r.value)] == client
    ensures forall i | from <= i < MaxListeners && ListenerKey(obj, i) in l && l[ListenerKey(obj, i)] == client ::
              r.Some? && r.value <= i
    decreases MaxListeners - from
  {
    if from == MaxListeners then None
    else if ListenerKey(obj, from) in l && l[ListenerKey(obj, from)] == client then Some(from)
    else HeldSlot(l, obj, client, from + 1)
  }

  /** The lowest slot of `obj` from `from` on that nobody holds. */
  function FreeSlot(l: Listeners, obj: Ids.ObjectId, from: nat): (r: Option<nat>)
    requires from <= MaxListeners
    ensures r.Some? ==> from <= r.value < MaxListeners && ListenerKey(obj, r.value) !in l
    ensures forall i | from <= i < MaxListeners && ListenerKey(obj, i) !in l :: r.Some? && r.value <= i
    decreases MaxListeners - from
  {
    if from == MaxListeners then None
    else if ListenerKey(obj, from) !in l then Some(from)
    else FreeSlot(l, obj, from + 1)
  }

  /** `getFreeKeyForListener`: the slot the client already holds, else the lowest free one, else none. */
  function FreeKey(l: Listeners, obj: Ids.ObjectId, client: string): Slot
  {
    match HeldSlot(l, obj, client, 0)
    case Some(i) => Present(ListenerKey(obj, i))
    case None =>
      match FreeSlot(l, obj, 0)
      case Some(i) => Free(i)
      case None => TooMany
  }

  /**
   * What `getFreeKeyForListener` finds, in terms of the table: the client's own slot when it
   * holds one; otherwise a slot nobody holds, below which every slot is taken; and no slot only
   * when all 51 are taken by other clients.
   */
  lemma FreeKeyFinds(l: Listeners, obj: Ids.ObjectId, client: string)
    ensures var s := FreeKey(l, obj, client);
      (s.Present? <==> exists i | 0 <= i < MaxListeners :: ListenerKey(obj, i) in l && l[ListenerKey(obj, i)] == client)
      && (s.Present? ==> s.key.id == obj && 0 <= s.key.listenerNum < MaxListeners && s.key in l && l[s.key] == client)
      && (s.Free? ==> 0 <= s.num < MaxListeners && ListenerKey(obj, s.num) !in l
                      && forall i | 0 <= i < s.num :: ListenerKey(obj, i) in l)
      && (s.TooMany? <==> (forall i | 0 <= i < MaxListeners :: ListenerKey(obj, i) in l && l[ListenerKey(obj, i)] != client))
  {
    var s := FreeKey(l, obj, client);
    if s.Free? {
      forall i | 0 <= i < s.num
        ensures ListenerKey(obj, i) in l
      {
      }
    }
  }

  /** A client holds at most one slot of the object. */
  ghost predicate OneSlotEach(l: Listeners, obj: Ids.ObjectId)
  {
    forall i, j | 0 <= i < j < MaxListeners && ListenerKey(obj, i) in l && ListenerKey(obj, j) in l ::
      l[ListenerKey(obj, i)] != l[ListenerKey(obj, j)]
  }

  /** A client is put in a free slot only when it holds none, so no client ever holds two. */
  lemma FreeKeyKeepsOneSlot(l: Listeners, obj: Ids.ObjectId, client: string)
    requires OneSlotEach(l, obj) && FreeKey(l, obj, client).Free?
    ensures OneSlotEach(l[ListenerKey(obj, FreeKey(l, obj, client).num) := client], obj)
  {
    FreeKeyFinds(l, obj, client);
    var k := FreeKey(l, obj, client).num;
    var l' := l[ListenerKey(obj, k) := client];
    forall i, j | 0 <= i < j < MaxListeners && ListenerKey(obj, i) in l' && ListenerKey(obj, j) in l'
      ensures l'[ListenerKey(obj, i)] != l'[ListenerKey(obj, j)]
    {
      if i == k {
        assert ListenerKey(obj, j) in l && l[ListenerKey(obj, j)] != client;
      } else if j == k {
        assert ListenerKey(obj, i) in l && l[ListenerKey(obj, i)] != client;
      }
    }
  }

  /** The clients listening on the object, in slot order from `from`. */
  function ListenersOf(l: Listeners, obj: Ids.ObjectId, from: nat): (r: seq<string>)
    requires from <= MaxListeners
    ensures |r| <= MaxListeners - from
    ensures forall c :: c in r <==> exists i | from <= i < MaxListeners :: ListenerKey(obj, i) in l && l[ListenerKey(obj, i)] == c
    decreases MaxListeners - from
  {
    if from == MaxListeners then []
    else if ListenerKey(obj, from) in l then [l[ListenerKey(obj, from)]] + ListenersOf(l, obj, from + 1)
    else ListenersOf(l, obj, from + 1)
  }

  /** The messages sending `json` to each of the clients `to`, in order. */
  function Sends(to: seq<string>, json: string): (r: seq<(string, string)>)
    ensures |r| == |to| && forall k | 0 <= k < |to| :: r[k] == (to[k], json)
  {
    seq(|to|, k requires 0 <= k < |to| => (to[k], json))
  }

  /** `SlobMessageRouter`: the listener table, the clients' tokens, and the messages sent so far. */
  class SlobMessageRouter {
    var objectListeners: Listeners
    var clientTokens: map<string, string>
    var outbox: seq<(string, string)>
    const createChannel: string -> string

    constructor (createChannel: string -> string)
      ensures objectListeners == map[] && clientTokens == map[] && outbox == [] && this.createChannel == createChannel
    {
      objectListeners := map[];
      clientTokens := map[];
      outbox := [];
      this.createChannel := createChannel;
    }

    /** `getFreeKeyForListener`: the two search loops over the object's slots. */
    method GetFreeKeyForListener(obj: Ids.ObjectId, client: string) returns (s: Slot)
      ensures s == FreeKey(objectListeners, obj, client)
    {
      var i := 0;
      while i < MaxListeners
        invariant 0 <= i <= MaxListeners
        invariant HeldSlot(objectListeners, obj, client, 0) == HeldSlot(objectListeners, obj, client, i)
      {
        var key := ListenerKey(obj, i);
        if key in objectListeners && objectListeners[key] == client {
          return Present(key);
        }
        i := i + 1;
      }
      i := 0;
      while i < MaxListeners
        invariant 0 <= i <= MaxListeners
        invariant FreeSlot(objectListeners, obj, 0) == FreeSlot(objectListeners, obj, i)
      {
        if ListenerKey(obj, i) !in objectListeners {
          return Free(i);
        }
        i := i + 1;
      }
      return TooMany;
    }

    /** `tokenFor`: the client's existing token, or a new channel's, remembered. */
    method TokenFor(client: string) returns (token: string)
      modifies this
      ensures client in old(clientTokens) ==> token == old(clientTokens)[client] && clientTokens == old(clientTokens)
      ensures client !in old(clientTokens) ==> token == createChannel(client) && clientTokens == old(clientTokens)[client := token]
      ensures objectListeners == old(objectListeners) && outbox == old(outbox)
    {
      if client in clientTokens {
        return clientTokens[client];
      }
      token := createChannel(client);
      clientTokens := clientTokens[client := token];
    }

    /**
     * `connectListener`: up to ten attempts. A client that holds a slot only refreshes it; a
     * new client is added to the lowest free slot if its add-if-absent wins; when no slot is
     * free the call fails at once. The client then gets its token.
     */
    method ConnectListener(obj: Ids.ObjectId, client: string, addSucceeds: nat -> bool) returns (r: Result<string>)
      modifies this
      ensures var s := FreeKey(old(objectListeners), obj, client);
        var won := exists a | 0 <= a < MaxAttempts :: addSucceeds(a);
        (r.Err? <==> s.TooMany? || (s.Free? && !won))
        && (r.Err? ==> r.error == TooManyListeners && objectListeners == old(objectListeners) && clientTokens == old(clientTokens))
        && (s.Present? ==> objectListeners == old(objectListeners))
        && (s.Free? && won ==> objectListeners == old(objectListeners)[ListenerKey(obj, s.num) := client])
      ensures r.Ok? ==> client in clientTokens && r.value == clientTokens[client]
                        && (client in old(clientTokens) ==> r.value == old(clientTokens)[client])
      ensures OneSlotEach(old(objectListeners), obj) ==> OneSlotEach(objectListeners, obj)
      ensures outbox == old(outbox)
    {
      ghost var s := FreeKey(objectListeners, obj, client);
      var attempt := 0;
      while attempt < MaxAttempts
        invariant 0 <= attempt <= MaxAttempts
        invariant objectListeners == old(objectListeners) && clientTokens == old(clientTokens) && outbox == old(outbox)
        invariant attempt > 0 ==> s.Free?
        invariant s.Free? ==> forall a | 0 <= a < attempt :: !addSucceeds(a)
      {
        var slot := GetFreeKeyForListener(obj, client);
        var success: bool;
        match slot {
          case TooMany =>
            return Err(TooManyListeners);
          case Present(key) =>
            objectListeners := objectListeners[key := client];
            success := true;
          case Free(num) =>
            success := addSucceeds(attempt);
            if success {
              if OneSlotEach(objectListeners, obj) {
                FreeKeyKeepsOneSlot(objectListeners, obj, client);
              }
              objectListeners := objectListeners[ListenerKey(obj, num) := client];
            }
        }
        if success {
          assert objectListeners == old(objectListeners) || s.Free?;
          var token := TokenFor(client);
          return Ok(token);
        }
        attempt := attempt + 1;
      }
      return Err(TooManyListeners);
    }

    /**
     * `publishMessages`: a message over 8000 characters is not published; otherwise it is sent
     * once to each slot's client listening on the object. The slots are read from a hash map,
     * so only which messages are sent is promised, not their order.
     */
    method PublishMessages(obj: Ids.ObjectId, json: string)
      modifies this
      ensures |json| > MaxMessageLength ==> outbox == old(outbox)
      ensures |old(outbox)| <= |outbox| && outbox[..|old(outbox)|] == old(outbox)
      ensures |json| <= MaxMessageLength ==>
        multiset(outbox[|old(outbox)|..]) == multiset(Sends(ListenersOf(objectListeners, obj, 0), json))
      ensures objectListeners == old(objectListeners) && clientTokens == old(clientTokens)
    {
      if |json| > MaxMessageLength {
        return;
      }
      ghost var to := ListenersOf(objectListeners, obj, 0);
      ghost var done: seq<string> := [];
      var i := 0;
      while i < MaxListeners
        invariant 0 <= i <= MaxListeners
        invariant objectListeners == old(objectListeners) && clientTokens == old(clientTokens)
        invariant done + ListenersOf(objectListeners, obj, i) == to
        invariant outbox == old(outbox) + Sends(done, json)
      {
        var key := ListenerKey(obj, i);
        if key in objectListeners {
          assert Sends(done + [objectListeners[key]], json) == Sends(done, json) + [(objectListeners[key], json)];
          outbox := outbox + [(objectListeners[key], json)];
          done := done + [objectListeners[key]];
        }
        i := i + 1;
      }
      assert done == to;
      assert outbox[|old(outbox)|..] == Sends(to, json);
    }
  }
}
