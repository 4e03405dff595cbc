/**
 * `LocalMutationProcessor`: accepts client updates on one object inside a datastore
 * transaction. An update names the version the client last saw; the deltas committed or staged
 * since then (the "concurrent" suffix, kept in a `TransformDeltaCache`) are transformed past,
 * the result is staged on the transaction's appender, and `commit` writes what was staged and
 * numbers the deltas it broadcasts.
 *
 * The batching of several updates into one transaction, retries, pre- and post-commit actions
 * and the logging are not part of this model; the model's `transform` is a parameter.
 */
module LocalMutationProcessors {
  import opened Wrappers
  import opened Slobs
  import opened MutationLogs
  import Ids

  /** The number of concurrent ops past which an update is logged as too far in the past. */
  const MaxTailSize: int := 500

  /** The soft limit on the number of ops staged in one transaction. */
  const MaxBatchSize: int := 99

  /** `SlobModel.transform(clientChanges, serverChanges)`: the client payloads transformed past the server deltas. */
  type Transformer = (seq<Delta>, seq<Delta>) -> Result<seq<string>>

  // ---------------------------------------------------------------------------------------
  // the tail of the history

  /**
   * `suffix(fromVersion)` over the history `all` (the deltas on disk, then those staged in this
   * transaction) when the cache holds it from `minVersion` on: a negative version runs the
   * reverse iterator dry, an offset wider than an `int` is refused by `Ints.checkedCast`, and a
   * version past the head is outside the list's bounds.
   */
  function Suffixed(all: seq<Delta>, minVersion: int, v: int): (r: Result<seq<Delta>>)
    ensures r.Ok? ==> 0 <= v <= |all| && r.value == all[v..]
    ensures r == Err(Runtime) <==> v < 0
    ensures r == Err(IndexOutOfBounds) ==> v > |all|
  {
    if v < 0 then Err(Runtime)
    else
      var loaded := if v < minVersion then v else minVersion;
      if v - loaded > IntMax then Err(IllegalArgument)
      else if v > |all| then Err(IndexOutOfBounds)
      else Ok(all[v..])
  }

  /**
   * Every version from 0 to the head has its suffix once the cache reaches within an `int` of
   * it; it is empty only at the head.
   */
  lemma SuffixedIsTail(all: seq<Delta>, minVersion: int, v: int)
    requires 0 <= v <= |all| && v - minVersion <= IntMax
    ensures Suffixed(all, minVersion, v) == Ok(all[v..])
    ensures |all[v..]| == |all| - v && (v == |all| <==> all[v..] == [])
  {
  }

  /**
   * `TransformDeltaCache`: the on-disk deltas read so far, newest first, what the reverse delta
   * iterator has yet to give, and the deltas staged in this transaction. `onDisk` is the log as
   * the transaction sees it.
   */
  class TransformDeltaCache {
    const onDiskVersion: nat
    var onDiskDeltasReverse: seq<Delta>
    var reverseIterator: seq<Delta>
    var newDeltas: seq<Delta>
    ghost const onDisk: seq<Delta>

    /** The deltas read and those still to read make up the log on disk, newest first. */
    ghost predicate Valid()
      reads this
    {
      |onDisk| == onDiskVersion && onDiskDeltasReverse + reverseIterator == Reversed(onDisk)
    }

    /** `minVersion`: the version of the oldest delta read. */
    function MinVersion(): int
      reads this
    {
      onDiskVersion - |onDiskDeltasReverse|
    }

    /** `new TransformDeltaCache(onDiskVersion, reverseTailDeltas, reverseDeltaIterator)`: nothing staged yet. */
    constructor (onDiskVersion: nat, reverseTailDeltas: seq<Delta>, reverseDeltaIterator: seq<Delta>, ghost onDisk: seq<Delta>)
      requires |onDisk| == onDiskVersion && reverseTailDeltas + reverseDeltaIterator == Reversed(onDisk)
      ensures Valid() && this.onDisk == onDisk && this.onDiskVersion == onDiskVersion && newDeltas == []
      ensures onDiskDeltasReverse == reverseTailDeltas && reverseIterator == reverseDeltaIterator
    {
      this.onDiskVersion := onDiskVersion;
      onDiskDeltasReverse := reverseTailDeltas;
      reverseIterator := reverseDeltaIterator;
      newDeltas := [];
      this.onDisk := onDisk;
    }

    /** `appendAll`: the deltas staged by an update, after those staged before. */
    method AppendAll(deltas: seq<Delta>)
      requires Valid()
      modifies this
      ensures Valid() && newDeltas == old(newDeltas) + deltas
      ensures onDiskDeltasReverse == old(onDiskDeltasReverse) && reverseIterator == old(reverseIterator)
    {
      newDeltas := newDeltas + deltas;
    }

    /**
     * `suffix(fromVersion)`: older deltas are read (`ensureDeltasLoadedFrom`) until the cache
     * reaches the version; the result is the history from that version to the head, staged
     * deltas included, as `Suffixed` says.
     */
    method Suffix(v: int) returns (r: Result<seq<Delta>>)
      requires Valid()
      modifies this
      ensures Valid() && newDeltas == old(newDeltas)
      ensures r == Suffixed(onDisk + newDeltas, old(MinVersion()), v)
    {
      ghost var minVersion := MinVersion();
      while v < MinVersion()
        invariant Valid() && newDeltas == old(newDeltas)
        invariant MinVersion() <= minVersion && (MinVersion() < minVersion ==> v <= MinVersion())
        decreases |reverseIterator|
      {
        if |reverseIterator| == 0 {
          assert |onDiskDeltasReverse| == |Reversed(onDisk)|;
          return Err(Runtime);
        }
        onDiskDeltasReverse := onDiskDeltasReverse + [reverseIterator[0]];
        reverseIterator := reverseIterator[1..];
      }
      var offset := v - MinVersion();
      if offset > IntMax {
        return Err(IllegalArgument);
      }
      var k := |onDiskDeltasReverse|;
      assert onDiskDeltasReverse == Reversed(onDisk)[..k];
      ReversedPrefix(onDisk, k);
      var deltas := Reversed(onDiskDeltasReverse) + newDeltas;
      assert deltas == (onDisk + newDeltas)[MinVersion()..];
      if offset > |deltas| {
        return Err(IndexOutOfBounds);
      }
      return Ok(deltas[offset..]);
    }
  }

  // ---------------------------------------------------------------------------------------
  // updates

  /** `Update`: the object, the client, the version its payloads apply to, and the payloads. */
  datatype Update = Update(objectId: Ids.ObjectId, clientId: string, version: nat, payloads: seq<string>)

  /** `UpResult`: the resulting revision, and the exception of a rejected update. */
  datatype UpResult = UpResult(resultingRevision: int, rejection: Option<Error>)

  /** `Update.changes(payloads)`: each payload as a delta of the update's client. */
  function Changes(clientId: string, payloads: seq<string>): (ds: seq<Delta>)
    ensures |ds| == |payloads| && forall i | 0 <= i < |ds| :: ds[i] == Delta(clientId, payloads[i])
  {
    seq(|payloads|, i requires 0 <= i < |payloads| => Delta(clientId, payloads[i]))
  }

  /**
   * The changes an update stages: its payloads as they are when nothing is concurrent,
   * otherwise as the model transforms them past the concurrent deltas.
   */
  function Incoming(transform: Transformer, u: Update, concurrent: seq<Delta>): (r: Result<seq<Delta>>)
    ensures |concurrent| == 0 ==> r == Ok(Changes(u.clientId, u.payloads))
    ensures |concurrent| > 0 ==>
      var t := transform(Changes(u.clientId, u.payloads), concurrent);
      (r.Ok? <==> t.Ok?) && (r.Ok? ==> r.value == Changes(u.clientId, t.value)) && (r.Err? ==> r.error == t.error)
  {
    if |concurrent| == 0 then Ok(Changes(u.clientId, u.payloads))
    else
      var payloads :- transform(Changes(u.clientId, u.payloads), concurrent);
      Ok(Changes(u.clientId, payloads))
  }

  /**
   * What an update gets once its changes reach the appender: the staged version when they are
   * all staged, a rejection with revision -1 when one is refused, and any other failure thrown.
   */
  function Response(outcome: Outcome, stagedVersion: nat): (r: Result<UpResult>)
    ensures r.Ok? && r.value.rejection.None? <==> outcome.Pass?
    ensures outcome.Pass? ==> r == Ok(UpResult(stagedVersion, None))
    ensures outcome == Fail(DeltaRejected) <==> r == Ok(UpResult(-1, Some(DeltaRejected)))
    ensures r.Err? <==> outcome.Fail? && outcome.error != DeltaRejected
  {
    match outcome
    case Pass => Ok(UpResult(stagedVersion, None))
    case Fail(e) => if e == DeltaRejected then Ok(UpResult(-1, Some(e))) else Err(e)
  }

  // ---------------------------------------------------------------------------------------
  // the delta cache after a rejection

  /**
   * The delta cache after `appendAll` as written: extended by the changes only when the
   * appender took them all. When it refuses one it has still staged the changes before it,
   * which will be committed.
   */
  function CacheAfterAsWritten(newDeltas: seq<Delta>, incoming: seq<Delta>, outcome: Outcome): (r: seq<Delta>)
    ensures outcome.Fail? ==> r == newDeltas
    ensures outcome.Pass? ==> r == newDeltas + incoming
  {
    if outcome.Pass? then newDeltas + incoming else newDeltas
  }

  /**
   * The delta cache after `appendAll` as intended: extended by exactly the changes the appender
   * staged, all of them or the ones before the refused one.
   */
  function CacheAfter(newDeltas: seq<Delta>, incoming: seq<Delta>, accepted: nat): (r: seq<Delta>)
    requires accepted <= |incoming|
    ensures |r| == |newDeltas| + accepted && r[..|newDeltas|] == newDeltas
    ensures forall i | 0 <= i < accepted :: r[|newDeltas| + i] == incoming[i]
  {
    newDeltas + incoming[..accepted]
  }

  /** The entries staged by `appendAll` carry, in order, the first `count` of its changes. */
  lemma StagedData(before: seq<DeltaEntry>, from: nat, incoming: seq<Delta>, count: nat)
    requires count <= |incoming|
    ensures Data(before + Entries(from, incoming[..count])) == Data(before) + incoming[..count]
  {
    var es := Entries(from, incoming[..count]);
    assert |Data(before + es)| == |Data(before) + incoming[..count]|;
    forall i | 0 <= i < |before + es|
      ensures Data(before + es)[i] == (Data(before) + incoming[..count])[i]
    {
      if i >= |before| {
        assert (before + es)[i] == es[i - |before|];
      }
    }
  }

  /**
   * Whatever the appender does with the changes, the intended cache holds exactly the deltas
   * the appender has staged, so the concurrent suffixes of later updates and the broadcast see
   * every delta that will be committed.
   */
  lemma CacheAfterStaysInSync<S>(m: SlobModel<S>, keys: KeyLengths, s: S, version: nat, c: Staged,
                                 incoming: seq<Delta>, newDeltas: seq<Delta>)
    requires Data(c.deltas) == newDeltas
    ensures var a := AppendedAll(m, keys, s, version, c, incoming);
      var accepted := Accepted(m, s, incoming).count;
      accepted == |a.staged.deltas| - |c.deltas| && (a.outcome.Pass? ==> accepted == |incoming|)
      && Data(a.staged.deltas) == CacheAfter(newDeltas, incoming, accepted)
  {
    AppendedAllStages(m, keys, s, version, c, incoming);
    var run := Accepted(m, s, incoming);
    StagedData(c.deltas, version, incoming, run.count);
    if |incoming| == 0 {
      assert incoming[..0] == [] && newDeltas + [] == newDeltas;
      assert c.deltas + Entries(version, []) == c.deltas;
    }
  }

  /** A slob over integers that refuses the payload "bad" and takes every other delta. */
  function PickyModel(): SlobModel<int>
  {
    SlobModel(
      (snapshot: Option<string>) => Ok(0),
      (s: int, d: Delta) => if d.payload == "bad" then Err(DeltaRejected) else Ok(s + 1),
      (s: int) => Some("s"))
  }

  /**
   * As written, an update whose second change is refused leaves its first staged on the
   * appender, to be committed, while the delta cache does not hold it: the appender and the
   * cache no longer agree, where the intended cache does.
   */
  lemma AsWrittenLosesStagedDelta()
    ensures var m := PickyModel();
      var keys := KeyLengths((n: nat) => 1, (n: nat) => 1);
      var incoming := [Delta("c", "ok"), Delta("c", "bad")];
      var a := AppendedAll(m, keys, 0, 0, Staged([], [], 0, 0, 0), incoming);
      a.outcome == Fail(DeltaRejected) && Data(a.staged.deltas) == [Delta("c", "ok")]
      && CacheAfterAsWritten([], incoming, a.outcome) == []
      && CacheAfter([], incoming, Accepted(m, 0, incoming).count) == Data(a.staged.deltas)
  {
    var m := PickyModel();
    var keys := KeyLengths((n: nat) => 1, (n: nat) => 1);
    var incoming := [Delta("c", "ok"), Delta("c", "bad")];
    var c := Staged([], [], 0, 0, 0);
    assert m.apply(0, incoming[0]) == Ok(1);
    assert incoming[1..][0] == Delta("c", "bad") && m.apply(1, incoming[1..][0]) == Err(DeltaRejected);
    assert Accepted(m, 1, incoming[1..]) == Run(0, 1, Some(DeltaRejected));
    assert Accepted(m, 0, incoming) == Run(1, 1, Some(DeltaRejected));
    CacheAfterStaysInSync(m, keys, 0, 0, c, incoming, []);
    assert incoming[..1] == [Delta("c", "ok")];
  }

  // ---------------------------------------------------------------------------------------
  // committing

  /** What `commit` does: nothing staged rolls the transaction back; otherwise the log written and the deltas broadcast. */
  datatype CommitResult = RolledBack | Committed(log: Log, broadcast: seq<(Delta, nat)>)

  /** The broadcast messages: each delta staged in the transaction with the version it results in. */
  function Numbered(deltas: seq<Delta>, onDiskVersion: nat): (r: seq<(Delta, nat)>)
    ensures |r| == |deltas|
    ensures forall i | 0 <= i < |r| :: r[i] == (deltas[i], onDiskVersion + i + 1)
  {
    seq(|deltas|, i requires 0 <= i < |deltas| => (deltas[i], onDiskVersion + i + 1))
  }

  /**
   * The broadcast numbers each staged delta with its resulting version in the log it is
   * committed to: the message `(d, v)` is the delta the log holds at version `v - 1`, and `v` is
   * the resulting version of its staged entry.
   */
  lemma NumberedMatchesLog(deltas: seq<Delta>, staged: seq<DeltaEntry>)
    requires forall i | 0 <= i < |staged| :: staged[i].version == |deltas| + i
    ensures var after := deltas + Data(staged);
      var b := Numbered(Data(staged), |deltas|);
      |after| == |deltas| + |b|
      && forall i | 0 <= i < |b| :: 0 < b[i].1 <= |after| && after[b[i].1 - 1] == b[i].0
                                    && b[i].1 == ResultingVersion(staged[i])
  {
    var after := deltas + Data(staged);
    var b := Numbered(Data(staged), |deltas|);
    forall i | 0 <= i < |b|
      ensures 0 < b[i].1 <= |after| && after[b[i].1 - 1] == b[i].0 && b[i].1 == ResultingVersion(staged[i])
    {
      assert b[i] == (Data(staged)[i], |deltas| + i + 1);
      assert after[|deltas| + i] == Data(staged)[i];
    }
  }

  // ---------------------------------------------------------------------------------------
  // the transaction

  /**
   * `Tx`: one transaction on one object, with its appender and its delta cache; `log` is the
   * stored log the transaction sees.
   */
  class Tx<S> {
    const objectId: Ids.ObjectId
    const mutationLog: MutationLog<S>
    const log: Log
    const appender: Appender<S>
    const deltaCache: TransformDeltaCache
    const onDiskVersion: nat
    const transform: Transformer
    var lastResult: Option<UpResult>

    /**
     * The appender is open and starts at the head of the log, the cache is over the same log,
     * and the cache holds exactly the deltas the appender staged.
     */
    ghost predicate Valid()
      reads this, appender, deltaCache
    {
      appender.Valid() && deltaCache.Valid() && !appender.finished
      && appender.model == mutationLog.model && appender.keys == mutationLog.keys
      && onDiskVersion == |log.deltas| == appender.baseVersion
      && deltaCache.onDisk == log.deltas && deltaCache.onDiskVersion == onDiskVersion
      && Data(appender.staged.deltas) == deltaCache.newDeltas
    }

    constructor (objectId: Ids.ObjectId, mutationLog: MutationLog<S>, log: Log, appender: Appender<S>,
                 deltaCache: TransformDeltaCache, transform: Transformer)
      requires appender.Valid() && deltaCache.Valid() && !appender.finished && appender.staged.deltas == []
      requires appender.model == mutationLog.model && appender.keys == mutationLog.keys
      requires |log.deltas| == appender.baseVersion == appender.version
      requires deltaCache.onDisk == log.deltas && deltaCache.onDiskVersion == |log.deltas| && deltaCache.newDeltas == []
      ensures Valid() && lastResult.None?
      ensures this.objectId == objectId && this.mutationLog == mutationLog && this.log == log
      ensures this.appender == appender && this.deltaCache == deltaCache && onDiskVersion == |log.deltas|
      ensures this.transform == transform
    {
      this.objectId := objectId;
      this.mutationLog := mutationLog;
      this.log := log;
      this.appender := appender;
      this.deltaCache := deltaCache;
      onDiskVersion := appender.version;
      this.transform := transform;
      lastResult := None;
    }

    /** Nothing staged since the previous state: the appender and the cache's new deltas as they were. */
    twostate predicate StagingKept()
      reads this, appender, deltaCache
    {
      appender.state == old(appender.state) && appender.version == old(appender.version)
      && appender.staged == old(appender.staged) && deltaCache.newDeltas == old(deltaCache.newDeltas)
    }

    /**
     * `processUpdate`: an update for another object is an illegal argument; a full batch
     * throws `BatchTooLargeException`; an update based past the version on disk is rejected
     * with revision -1. Otherwise the changes, transformed past the concurrent suffix when
     * there is one, go to the appender as `Stage` says; a refusal by `transform` is a
     * rejection. A long tail is only logged.
     */
    method ProcessUpdate(u: Update) returns (r: Result<UpResult>)
      requires Valid()
      modifies this, appender, deltaCache
      ensures Valid()
      ensures u.objectId != objectId ==> r == Err(IllegalArgument) && StagingKept()
      ensures u.objectId == objectId && old(appender.version) - onDiskVersion >= MaxBatchSize ==>
        r == Err(BatchTooLarge) && StagingKept()
      ensures u.objectId == objectId && old(appender.version) - onDiskVersion < MaxBatchSize && u.version > onDiskVersion ==>
        r == Ok(UpResult(-1, Some(IllegalArgument))) && StagingKept()
      ensures u.objectId == objectId && old(appender.version) - onDiskVersion < MaxBatchSize && u.version <= onDiskVersion ==>
        var suffix := Suffixed(log.deltas + old(deltaCache.newDeltas), old(deltaCache.MinVersion()), u.version);
        (suffix.Err? ==> r == Err(suffix.error) && StagingKept())
        && (suffix.Ok? ==>
              var incoming := Incoming(transform, u, suffix.value);
              (incoming.Err? ==>
                 r == (if incoming.error == DeltaRejected then Ok(UpResult(-1, Some(DeltaRejected))) else Err(incoming.error))
                 && StagingKept())
              && (incoming.Ok? ==>
                    var a := AppendedAll(appender.model, appender.keys, old(appender.state), old(appender.version), old(appender.staged), incoming.value);
                    r == Response(a.outcome, a.version)
                    && appender.state == a.state && appender.version == a.version && appender.staged == a.staged
                    && deltaCache.newDeltas == CacheAfter(old(deltaCache.newDeltas), incoming.value,
                                                          Accepted(appender.model, old(appender.state), incoming.value).count)))
      ensures r.Ok? && r.value.rejection.None? ==> lastResult == Some(r.value)
      ensures !(r.Ok? && r.value.rejection.None?) ==> lastResult == old(lastResult)
    {
      if u.objectId != objectId {
        return Err(IllegalArgument);
      }
      if appender.version - onDiskVersion >= MaxBatchSize {
        return Err(BatchTooLarge);
      }
      if u.version > onDiskVersion {
        return Ok(UpResult(-1, Some(IllegalArgument)));
      }
      var concurrent := deltaCache.Suffix(u.version);
      if concurrent.Err? {
        return Err(concurrent.error);
      }
      var incoming: seq<Delta>;
      if |concurrent.value| > 0 {
        var payloads := transform(Changes(u.clientId, u.payloads), concurrent.value);
        if payloads.Err? {
          if payloads.error == DeltaRejected {
            return Ok(UpResult(-1, Some(DeltaRejected)));
          }
          return Err(payloads.error);
        }
        incoming := Changes(u.clientId, payloads.value);
      } else {
        incoming := Changes(u.clientId, u.payloads);
      }
      r := Stage(incoming);
    }

    /**
     * The staging half of `processUpdate`: the changes appended, the delta cache extended by
     * the ones the appender staged (all of them on success), and on success the staged version
     * recorded as the last result.
     */
    method Stage(incoming: seq<Delta>) returns (r: Result<UpResult>)
      requires Valid()
      modifies this, appender, deltaCache
      ensures Valid()
      ensures var a := AppendedAll(appender.model, appender.keys, old(appender.state), old(appender.version), old(appender.staged), incoming);
        r == Response(a.outcome, a.version)
        && appender.state == a.state && appender.version == a.version && appender.staged == a.staged
        && deltaCache.newDeltas == CacheAfter(old(deltaCache.newDeltas), incoming, Accepted(appender.model, old(appender.state), incoming).count)
      ensures deltaCache.onDiskDeltasReverse == old(deltaCache.onDiskDeltasReverse)
      ensures r.Ok? && r.value.rejection.None? ==> lastResult == Some(r.value)
      ensures !(r.Ok? && r.value.rejection.None?) ==> lastResult == old(lastResult)
    {
      var stagedBefore := |appender.staged.deltas|;
      ghost var newDeltas := deltaCache.newDeltas;
      CacheAfterStaysInSync(appender.model, appender.keys, appender.state, appender.version, appender.staged, incoming, newDeltas);
      var staged := appender.AppendAll(incoming);
      var accepted := |appender.staged.deltas| - stagedBefore;
      deltaCache.AppendAll(incoming[..accepted]);
      if staged.Fail? {
        if staged.error == DeltaRejected {
          return Ok(UpResult(-1, Some(DeltaRejected)));
        }
        return Err(staged.error);
      }
      lastResult := Some(UpResult(appender.version, None));
      return Ok(lastResult.value);
    }

    /**
     * `commit`: with nothing staged the transaction is rolled back. Otherwise the appender is
     * finished and its entries committed, and when an update was accepted the deltas of the
     * transaction are broadcast, numbered from the version on disk. The cache holds the staged
     * deltas, which carry consecutive versions from there, so by `NumberedMatchesLog` each
     * message's number is the version its delta results in within the committed log.
     */
    method Commit() returns (r: Result<CommitResult>)
      requires Valid()
      modifies appender, mutationLog.stateCache
      ensures !old(appender.HasNewDeltas()) ==> r == Ok(RolledBack) && unchanged(appender) && unchanged(mutationLog.stateCache)
      ensures old(appender.HasNewDeltas()) ==>
        r == Ok(Committed(Put(log, old(appender.staged.deltas), old(appender.staged.snapshots)),
                          if lastResult.Some? then Numbered(deltaCache.newDeltas, onDiskVersion) else []))
        && deltaCache.newDeltas == Data(old(appender.staged.deltas))
        && forall i | 0 <= i < |old(appender.staged.deltas)| :: old(appender.staged.deltas)[i].version == onDiskVersion + i
    {
      if !appender.HasNewDeltas() {
        return Ok(RolledBack);
      }
      var written := mutationLog.Commit(log, appender);
      var broadcast := if lastResult.Some? then Numbered(deltaCache.newDeltas, onDiskVersion) else [];
      return Ok(Committed(written.value, broadcast));
    }
  }

  /**
   * The `Tx` constructor: the appender prepared on the transaction's log, and a delta cache
   * holding the deltas read on the way, with the reverse iterator positioned after them.
   */
  method BeginTransaction<S>(objectId: Ids.ObjectId, mutationLog: MutationLog<S>, log: Log, transform: Transformer)
    returns (r: Result<Tx<S>>)
    modifies mutationLog.stateCache
    ensures r.Ok? ==> fresh(r.value) && fresh(r.value.appender) && fresh(r.value.deltaCache) && r.value.Valid()
    ensures r.Ok? ==> r.value.log == log && r.value.objectId == objectId && r.value.mutationLog == mutationLog
    ensures r.Ok? ==> r.value.onDiskVersion == |log.deltas| && r.value.lastResult.None? && r.value.transform == transform
  {
    ghost var cached := if mutationLog.objectId in mutationLog.stateCache.currentStates
                        then Some(mutationLog.stateCache.currentStates[mutationLog.objectId]) else None;
    var prepared := mutationLog.PrepareAppender(log);
    if prepared.Err? {
      return Err(prepared.error);
    }
    var (appender, reverseRead) := prepared.value;
    PreparedAtHead(mutationLog.model, mutationLog.keys, log, cached);
    ghost var all := Reversed(log.deltas);
    assert reverseRead + all[|reverseRead|..] == all;
    var deltaCache := new TransformDeltaCache(appender.version, reverseRead, Reversed(log.deltas)[|reverseRead|..], log.deltas);
    var tx := new Tx(objectId, mutationLog, log, appender, deltaCache, transform);
    return Ok(tx);
  }

  // ---------------------------------------------------------------------------------------
  // the request

  /**
   * `mutateObject`: a negative version or an empty payload list is an illegal argument; the
   * update goes to the object's processor (`process`), a rejected update is a bad request, and
   * an accepted one answers with its resulting revision.
   */
  function MutateObject(objectId: Ids.ObjectId, sessionId: string, version: int, payloads: seq<string>,
                        process: Update -> Result<UpResult>): (r: Result<int>)
    ensures version < 0 || |payloads| == 0 ==> r == Err(IllegalArgument)
    ensures version >= 0 && |payloads| > 0 ==>
      var p := process(Update(objectId, sessionId, version, payloads));
      (r.Ok? <==> p.Ok? && p.value.rejection.None?)
      && (r.Ok? ==> r.value == p.value.resultingRevision)
      && (p.Ok? && p.value.rejection.Some? ==> r == Err(BadRequest))
      && (p.Err? ==> r == Err(p.error))
  {
    if version < 0 || |payloads| == 0 then Err(IllegalArgument)
    else
      var result :- process(Update(objectId, sessionId, version, payloads));
      if result.rejection.Some? then Err(BadRequest) else Ok(result.resultingRevision)
  }
}
