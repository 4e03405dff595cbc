/**
 * `ChannelRegistry`: a tree of registries counting, per key, how many times a document has
 * been opened through each registry. An extension registry shares its root's snapshot table,
 * and every count change made through a registry is applied to it and to each of its
 * ancestors, so a registry's count of a key never exceeds its parent's.
 *
 * The operation channels and the RPC that fetches a document not yet open are not part of
 * this model: a snapshot is a JSON value with the version of its channel.
 */
module ChannelRegistries {
  import opened Wrappers
  import opened Json

  /** `JsonSnapshot`: an open document and (the version of) its operation channel. */
  datatype JsonSnapshot = JsonSnapshot(snapshot: Json, channelVersion: int)

  /** The snapshot map the root creates and its extensions share. */
  class SnapshotTable {
    var entries: map<string, JsonSnapshot>

    constructor ()
      ensures entries == map[]
    {
      entries := map[];
    }
  }

  /** `keys.put(key, hasKey ? get + num : num)`: the count of `key` raised by `num`. */
  function Added(m: map<string, int>, key: string, num: int): (r: map<string, int>)
    ensures key in r && r[key] == (if key in m then m[key] else 0) + num
    ensures forall k | k != key :: (k in r <==> k in m) && (k in m ==> r[k] == m[k])
  {
    m[key := if key in m then m[key] + num else num]
  }

  /** One step of `unregisterSnapshot`: the count lowered by `num`, or the entry dropped when nothing would remain. */
  function Subtracted(m: map<string, int>, key: string, num: int): (r: map<string, int>)
    requires key in m
    ensures key in r <==> m[key] > num
    ensures key in r ==> r[key] == m[key] - num
    ensures forall k | k != key :: (k in r <==> k in m) && (k in m ==> r[k] == m[k])
  {
    if m[key] > num then m[key := m[key] - num] else m - {key}
  }

  /** Every count is positive. */
  ghost predicate Positive(m: map<string, int>)
  {
    forall k | k in m :: m[k] > 0
  }

  /** Every key counted by the child is counted at least as often by the parent. */
  ghost predicate CountsBelow(child: map<string, int>, parent: map<string, int>)
  {
    forall k | k in child :: k in parent && child[k] <= parent[k]
  }

  /** Raising one key by the same amount in a child and its parent keeps the child's counts below the parent's. */
  lemma AddedKeepsBelow(child: map<string, int>, parent: map<string, int>, key: string, num: int)
    requires CountsBelow(child, parent) && Positive(child) && Positive(parent) && num > 0
    ensures CountsBelow(Added(child, key, num), Added(parent, key, num))
    ensures Positive(Added(child, key, num)) && Positive(Added(parent, key, num))
  {
    var c, p := Added(child, key, num), Added(parent, key, num);
    forall k | k in c
      ensures k in p && c[k] <= p[k]
    {
      if k == key && key !in child && key in parent {
        assert c[k] == num < parent[key] + num;
      }
    }
  }

  /**
   * Lowering one key by the child's own count in the child and its parent keeps the child's
   * counts below the parent's: the parent's entry goes only when the child's does.
   */
  lemma SubtractedKeepsBelow(child: map<string, int>, parent: map<string, int>, key: string, num: int)
    requires CountsBelow(child, parent) && Positive(child) && Positive(parent)
    requires key in child && num <= child[key]
    ensures key in parent
    ensures CountsBelow(Subtracted(child, key, num), Subtracted(parent, key, num))
    ensures Positive(Subtracted(child, key, num)) && Positive(Subtracted(parent, key, num))
  {
  }

  /**
   * Unregistering undoes opening: a registry that opens a key `num` times and then
   * unregisters it leaves every count on its chain as it was.
   */
  lemma SubtractedUndoesAdded(m: map<string, int>, key: string, num: int)
    requires Positive(m) && num > 0
    ensures Subtracted(Added(m, key, num), key, num) == m
  {
    var r := Subtracted(Added(m, key, num), key, num);
    if key in m {
      assert r == m[key := m[key]];
    } else {
      assert r == m;
    }
  }

  /** Down a chain of registries whose counts each stay below the next, a key's count only grows towards the root. */
  lemma {:induction false} CountsGrowUpward(ms: seq<map<string, int>>, key: string)
    requires |ms| > 0 && key in ms[0]
    requires forall i | 0 <= i < |ms| - 1 :: CountsBelow(ms[i], ms[i + 1])
    ensures forall j | 0 <= j < |ms| :: key in ms[j] && ms[0][key] <= ms[j][key]
    decreases |ms|
  {
    if |ms| > 1 {
      CountsGrowUpward(ms[1..], key);
      forall j | 1 <= j < |ms|
        ensures key in ms[j] && ms[0][key] <= ms[j][key]
      {
        assert ms[1..][j - 1] == ms[j];
      }
    }
  }

  /** Registries that each share the next one's table all share the last one's: the root's. */
  lemma {:induction false} TableShared(c: seq<ChannelRegistry>)
    requires forall i | 0 <= i < |c| - 1 :: c[i].snapshots == c[i + 1].snapshots
    ensures forall j | 0 <= j < |c| :: c[j].snapshots == c[|c| - 1].snapshots
    decreases |c|
  {
    if |c| > 1 {
      TableShared(c[1..]);
      forall j | 0 <= j < |c|
        ensures c[j].snapshots == c[|c| - 1].snapshots
      {
        assert c[1..][|c| - 2] == c[|c| - 1];
        if j > 0 {
          assert c[1..][j - 1] == c[j];
        } else {
          assert c[1..][0] == c[1];
        }
      }
    }
  }

  /** How `open` ends: the document was open, and its snapshot went to the callback if there is one; or it is fetched. */
  datatype Opened = FromCache(delivered: Option<Json>) | Fetching

  /** `ChannelRegistry`: its counts, its parent, and the shared snapshot table. */
  class ChannelRegistry {
    var keys: map<string, int>
    const parent: ChannelRegistry?
    const snapshots: SnapshotTable
    /** This registry followed by its ancestors up to the root. */
    ghost const chain: seq<ChannelRegistry>

    /** The parent chain: it starts here, each link is the parent of the one before, all share one table, and it ends at the root. */
    ghost predicate ChainOk()
    {
      |chain| > 0 && chain[0] == this && chain[|chain| - 1].parent == null
      && (forall i | 0 <= i < |chain| - 1 :: chain[i].parent == chain[i + 1] && chain[i].snapshots == chain[i + 1].snapshots)
      && (forall i, j | 0 <= i < j < |chain| :: chain[i] != chain[j])
    }

    /** Along the chain, counts are positive and each registry's counts stay below its parent's. */
    ghost predicate Valid()
      reads chain
    {
      ChainOk()
      && (forall i | 0 <= i < |chain| :: Positive(chain[i].keys))
      && (forall i | 0 <= i < |chain| - 1 :: CountsBelow(chain[i].keys, chain[i + 1].keys))
    }

    /** `new ChannelRegistry(parent)`: the root makes the snapshot table, an extension takes its parent's. */
    constructor (parent: ChannelRegistry?)
      requires parent != null ==> parent.Valid()
      ensures Valid() && keys == map[] && this.parent == parent
      ensures parent == null ==> fresh(snapshots) && snapshots.entries == map[] && chain == [this]
      ensures parent != null ==> snapshots == parent.snapshots && chain == [this] + parent.chain
    {
      keys := map[];
      this.parent := parent;
      if parent == null {
        snapshots := new SnapshotTable();
        chain := [this];
      } else {
        snapshots := parent.snapshots;
        chain := [this] + parent.chain;
      }
    }

    /** Every registry of a tree uses the table of the root at the end of its chain. */
    lemma SharesRootTable()
      requires ChainOk()
      ensures chain[|chain| - 1].parent == null && snapshots == chain[|chain| - 1].snapshots
    {
      TableShared(chain);
    }

    /** `createExtension`: a child of this registry, counting nothing yet and sharing the snapshot table. */
    method CreateExtension() returns (child: ChannelRegistry)
      requires Valid()
      ensures fresh(child) && child.Valid() && child.parent == this && child.keys == map[]
      ensures child.snapshots == snapshots && child.chain == [child] + chain
    {
      child := new ChannelRegistry(this);
    }

    /** `addKey`: the count of `key` is raised by `num` here and in every ancestor. */
    method AddKey(key: string, num: int)
      requires Valid() && num > 0
      modifies chain
      ensures Valid()
      ensures forall i | 0 <= i < |chain| :: chain[i].keys == Added(old(chain[i].keys), key, num)
    {
      var p: ChannelRegistry? := this;
      ghost var i := 0;
      while p != null
        invariant 0 <= i <= |chain| && (i < |chain| ==> p == chain[i]) && (i == |chain| ==> p == null)
        invariant forall j | 0 <= j < i :: chain[j].keys == Added(old(chain[j].keys), key, num)
        invariant forall j | i <= j < |chain| :: chain[j].keys == old(chain[j].keys)
        decreases |chain| - i
      {
        p.keys := Added(p.keys, key, num);
        p := p.parent;
        i := i + 1;
      }
      forall j | 0 <= j < |chain| - 1
        ensures CountsBelow(chain[j].keys, chain[j + 1].keys) && Positive(chain[j].keys)
      {
        AddedKeepsBelow(old(chain[j].keys), old(chain[j + 1].keys), key, num);
      }
      AddedKeepsBelow(map[], old(chain[|chain| - 1].keys), key, num);
    }

    /**
     * `unregisterSnapshot`: this registry's count of `key` is taken off here and in every
     * ancestor, dropping each entry that reaches it exactly; the assertion that no ancestor
     * holds less always holds. A key this registry does not count fails on the unboxing of
     * its missing count.
     */
    method UnregisterSnapshot(key: string) returns (r: Outcome)
      requires Valid()
      modifies chain
      ensures Valid()
      ensures key !in old(keys) ==> r == Fail(NullPointer) && forall i | 0 <= i < |chain| :: chain[i].keys == old(chain[i].keys)
      ensures key in old(keys) ==>
        (r == Pass && key !in keys
         && forall i | 0 <= i < |chain| :: key in old(chain[i].keys) && chain[i].keys == Subtracted(old(chain[i].keys), key, old(keys[key])))
    {
      if key !in keys {
        return Fail(NullPointer);
      }
      var num := keys[key];
      ghost var ms := seq(|chain|, j requires 0 <= j < |chain| reads chain => chain[j].keys);
      CountsGrowUpward(ms, key);
      var p: ChannelRegistry? := this;
      ghost var i := 0;
      while p != null
        invariant 0 <= i <= |chain| && (i < |chain| ==> p == chain[i]) && (i == |chain| ==> p == null)
        invariant forall j | 0 <= j < i :: key in old(chain[j].keys) && chain[j].keys == Subtracted(old(chain[j].keys), key, num)
        invariant forall j | i <= j < |chain| :: chain[j].keys == old(chain[j].keys)
        decreases |chain| - i
      {
        assert ms[i] == p.keys;
        var origNum := p.keys[key];
        if origNum > num {
          p.keys := p.keys[key := origNum - num];
        } else {
          assert origNum == num;
          p.keys := p.keys - {key};
        }
        p := p.parent;
        i := i + 1;
      }
      forall j | 0 <= j < |chain| - 1
        ensures CountsBelow(chain[j].keys, chain[j + 1].keys) && Positive(chain[j].keys)
      {
        assert ms[j] == old(chain[j].keys) && ms[j + 1] == old(chain[j + 1].keys);
        SubtractedKeepsBelow(old(chain[j].keys), old(chain[j + 1].keys), key, num);
      }
      assert ms[|chain| - 1] == old(chain[|chain| - 1].keys);
      return Pass;
    }

    /**
     * `open`: a document already open is counted once more here and up the chain, and its
     * snapshot goes to the callback when there is one; any other is fetched, which changes
     * nothing yet.
     */
    method Open(key: string, hasCallback: bool) returns (r: Opened)
      requires Valid()
      modifies chain
      ensures Valid()
      ensures key in snapshots.entries ==>
        r == FromCache(if hasCallback then Some(snapshots.entries[key].snapshot) else None)
        && forall i | 0 <= i < |chain| :: chain[i].keys == Added(old(chain[i].keys), key, 1)
      ensures key !in snapshots.entries ==> r == Fetching && forall i | 0 <= i < |chain| :: chain[i].keys == old(chain[i].keys)
    {
      if key in snapshots.entries {
        AddKey(key, 1);
        if hasCallback {
          return FromCache(Some(snapshots.entries[key].snapshot));
        }
        return FromCache(None);
      }
      return Fetching;
    }

    /**
     * `registerSnapshot`: the key is counted here and up the chain, then a key already in the
     * table is an assertion failure (after the counting); otherwise the snapshot is stored.
     */
    method RegisterSnapshot(key: string, snapshot: Json, channelVersion: int) returns (r: Outcome)
      requires Valid()
      modifies chain, snapshots
      ensures Valid()
      ensures forall i | 0 <= i < |chain| :: chain[i].keys == Added(old(chain[i].keys), key, 1)
      ensures key in old(snapshots.entries) ==> r == Fail(AssertionFailed) && snapshots.entries == old(snapshots.entries)
      ensures key !in old(snapshots.entries) ==>
        r == Pass && snapshots.entries == old(snapshots.entries)[key := JsonSnapshot(snapshot, channelVersion)]
    {
      AddKey(key, 1);
      if key in snapshots.entries {
        return Fail(AssertionFailed);
      }
      snapshots.entries := snapshots.entries[key := JsonSnapshot(snapshot, channelVersion)];
      return Pass;
    }

    /** `getVersion`: the version of the key's channel; a key with no snapshot is a null dereference. */
    function GetVersion(key: string): (r: Result<int>)
      reads snapshots
      ensures r.Ok? <==> key in snapshots.entries
      ensures r.Ok? ==> r.value == snapshots.entries[key].channelVersion
      ensures r.Err? ==> r.error == NullPointer
    {
      if key in snapshots.entries then Ok(snapshots.entries[key].channelVersion) else Err(NullPointer)
    }

    /** `getKeys`: the keys this registry counts. */
    function Keys(): (ks: set<string>)
      reads this
      ensures forall k :: k in ks <==> k in keys
    {
      keys.Keys
    }
  }
}
