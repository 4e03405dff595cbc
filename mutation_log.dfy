/**
 * `MutationLog`: the stored history of one slob, a run of deltas (delta `v` turns version `v`
 * into version `v + 1`) plus snapshots taken at some versions. An `Appender` stages new deltas
 * on top of the current state, and decides when a snapshot is worth writing; `reconstruct`
 * rebuilds a version from the latest snapshot at or before it and the deltas after it.
 *
 * The datastore is not part of this model: the stored log is a value `Log`, a transaction's
 * writes are what `Finish` returns, and `Put` is the log after they are committed.
 */
module MutationLogs {
  import opened Wrappers
  import opened Slobs
  import Ids

  // ---------------------------------------------------------------------------------------
  // versions and datastore ids

  /** `deltaIdFromVersion`: the datastore allows no id 0, so delta `v` is stored under `v + 1`. */
  function DeltaIdFromVersion(version: int): (id: int)
    ensures VersionFromDeltaId(id) == version
    ensures version >= 0 ==> id > 0
  {
    version + 1
  }

  /** `versionFromDeltaId`. */
  function VersionFromDeltaId(id: int): (version: int)
    ensures id > 0 ==> version >= 0
  {
    id - 1
  }

  /** A delta as stored: its version (the one it applies to) and its data. */
  datatype DeltaEntry = DeltaEntry(version: nat, data: Delta)

  /** A snapshot as stored: the version it is the state at, and its text. */
  datatype SnapshotEntry = SnapshotEntry(version: nat, snapshot: string)

  /** `getResultingVersion`: the version after the delta, which is also its datastore id. */
  function ResultingVersion(e: DeltaEntry): (v: nat)
    ensures v == DeltaIdFromVersion(e.version) && VersionFromDeltaId(v) == e.version
  {
    e.version + 1
  }

  /** `Integer.MAX_VALUE`. */
  const IntMax: int := 0x7fff_ffff

  /**
   * `checkRange(start, end)`: without a start there may be no end; with one, the start is not
   * negative and not past the end, and the range is no wider than an `int`.
   */
  function CheckRange(start: Option<int>, end: Option<int>): (r: Outcome)
    ensures r == Pass <==> (start.None? ==> end.None?)
                           && (start.Some? ==> 0 <= start.value && (end.None? || start.value <= end.value <= start.value + IntMax))
    ensures r == Fail(IllegalArgument) <==> (start.None? && end.Some?)
                                            || (start.Some? && (start.value < 0 || (end.Some? && end.value < start.value)))
    ensures r.Fail? ==> r.error == IllegalArgument || r.error == AssertionFailed
  {
    if start.None? then
      if end.None? then Pass else Fail(IllegalArgument)
    else if !(start.value >= 0 && (end.None? || start.value <= end.value)) then Fail(IllegalArgument)
    else if end.Some? && end.value - start.value > IntMax then Fail(AssertionFailed)
    else Pass
  }

  // ---------------------------------------------------------------------------------------
  // size estimates

  /** The printed lengths of the datastore keys of the delta and of the snapshot at each version. */
  datatype KeyLengths = KeyLengths(delta: nat -> nat, snapshot: nat -> nat)

  /**
   * `estimateSizeBytes(Key)`: a base-64 key of `web64Size` characters holds three bytes per four
   * characters; the estimate is exact for a padded key and never above the true count.
   */
  function KeyBytes(web64Size: nat): (n: nat)
    ensures 4 * n <= 3 * web64Size < 4 * n + 12
    ensures web64Size % 4 == 0 ==> 4 * n == 3 * web64Size
  {
    (web64Size / 4) * 3
  }

  const DeltaClientIdProperty: string := "sid"
  const DeltaOpProperty: string := "op"
  const SnapshotDataProperty: string := "Data"

  /** `estimateSizeBytes(DeltaEntry)`: the key, the two property names and their values. */
  function DeltaSize(keys: KeyLengths, e: DeltaEntry): nat
  {
    KeyBytes(keys.delta(e.version)) + |DeltaClientIdProperty| + |e.data.clientId| + |DeltaOpProperty| + |e.data.payload|
  }

  /** `estimateSizeBytes(SnapshotEntry)`: the key, the property name and the snapshot text. */
  function SnapshotSize(keys: KeyLengths, e: SnapshotEntry): nat
  {
    KeyBytes(keys.snapshot(e.version)) + |SnapshotDataProperty| + |e.snapshot|
  }

  /** The estimated bytes of a run of deltas. */
  function DeltaBytes(keys: KeyLengths, es: seq<DeltaEntry>): nat
  {
    if |es| == 0 then 0 else DeltaBytes(keys, es[..|es| - 1]) + DeltaSize(keys, es[|es| - 1])
  }

  /** The estimated bytes of a run of snapshots. */
  function SnapshotBytes(keys: KeyLengths, ss: seq<SnapshotEntry>): nat
  {
    if |ss| == 0 then 0 else SnapshotBytes(keys, ss[..|ss| - 1]) + SnapshotSize(keys, ss[|ss| - 1])
  }

  /** The estimate of two runs of deltas is the sum of their estimates. */
  lemma {:induction false} DeltaBytesAppend(keys: KeyLengths, a: seq<DeltaEntry>, b: seq<DeltaEntry>)
    ensures DeltaBytes(keys, a + b) == DeltaBytes(keys, a) + DeltaBytes(keys, b)
    decreases |b|
  {
    if |b| == 0 {
      assert a + b == a;
    } else {
      assert (a + b)[..|a + b| - 1] == a + b[..|b| - 1];
      DeltaBytesAppend(keys, a, b[..|b| - 1]);
    }
  }

  lemma DeltaBytesSnoc(keys: KeyLengths, a: seq<DeltaEntry>, e: DeltaEntry)
    ensures DeltaBytes(keys, a + [e]) == DeltaBytes(keys, a) + DeltaSize(keys, e)
  {
    assert (a + [e])[..|a|] == a;
  }

  lemma SnapshotBytesSnoc(keys: KeyLengths, a: seq<SnapshotEntry>, e: SnapshotEntry)
    ensures SnapshotBytes(keys, a + [e]) == SnapshotBytes(keys, a) + SnapshotSize(keys, e)
  {
    assert (a + [e])[..|a|] == a;
  }

  // ---------------------------------------------------------------------------------------
  // runs of deltas

  /** The deltas `ds` staged from version `from` on, one version each. */
  function Entries(from: nat, ds: seq<Delta>): (es: seq<DeltaEntry>)
    ensures |es| == |ds| && forall i | 0 <= i < |ds| :: es[i] == DeltaEntry(from + i, ds[i])
  {
    seq(|ds|, i requires 0 <= i < |ds| => DeltaEntry(from + i, ds[i]))
  }

  /** `getStagedDeltas`: the data of the entries. */
  function Data(es: seq<DeltaEntry>): (ds: seq<Delta>)
    ensures |ds| == |es| && forall i | 0 <= i < |es| :: ds[i] == es[i].data
  {
    if |es| == 0 then [] else Data(es[..|es| - 1]) + [es[|es| - 1].data]
  }

  /** How far `appendAll` gets through its deltas: the number applied, the state after them, and the failure that stopped it. */
  datatype Run<S> = Run(count: nat, state: S, failure: Option<Error>)

  function Accepted<S>(m: SlobModel<S>, s: S, ds: seq<Delta>): (r: Run<S>)
    ensures r.count <= |ds| && (r.failure.None? ==> r.count == |ds|)
    decreases |ds|
  {
    if |ds| == 0 then Run(0, s, None)
    else
      match m.apply(s, ds[0])
      case Err(e) => Run(0, s, Some(e))
      case Ok(next) =>
        var r := Accepted(m, next, ds[1..]);
        Run(r.count + 1, r.state, r.failure)
  }

  /**
   * The deltas accepted are a prefix that replays to the run's state; the run stops only at a
   * delta that state refuses, and it fails exactly when the whole replay fails.
   */
  lemma {:induction false} AcceptedReplays<S>(m: SlobModel<S>, s: S, ds: seq<Delta>)
    ensures var r := Accepted(m, s, ds);
      Replayed(m, s, ds[..r.count]) == Ok(r.state)
      && (r.failure.Some? ==> r.count < |ds| && m.apply(r.state, ds[r.count]) == Err(r.failure.value))
      && Replayed(m, s, ds) == (if r.failure.None? then Ok(r.state) else Err(r.failure.value))
    decreases |ds|
  {
    var r := Accepted(m, s, ds);
    if |ds| == 0 {
      assert ds[..0] == [];
    } else if m.apply(s, ds[0]).Err? {
      assert ds[..0] == [];
    } else {
      var next := m.apply(s, ds[0]).value;
      AcceptedReplays(m, next, ds[1..]);
      var r1 := Accepted(m, next, ds[1..]);
      assert ds[..r.count][0] == ds[0] && ds[..r.count][1..] == ds[1..][..r1.count];
      if r1.failure.Some? {
        assert ds[r.count] == ds[1..][r1.count];
      }
    }
  }

  /** A prefix of a replay that succeeds succeeds too. */
  lemma PrefixReplays<S>(m: SlobModel<S>, s: S, ds: seq<Delta>, k: nat)
    requires k <= |ds| && Replayed(m, s, ds).Ok?
    ensures Replayed(m, s, ds[..k]).Ok?
  {
    assert ds == ds[..k] + ds[k..];
    ReplayedAppend(m, s, ds[..k], ds[k..]);
  }

  /** Replaying the deltas from `k` on after the state at `k` is replaying them all. */
  lemma ReplayedFromPrefix<S>(m: SlobModel<S>, s: S, ds: seq<Delta>, k: nat, j: nat)
    requires k <= j <= |ds| && Replayed(m, s, ds[..k]).Ok?
    ensures Replayed(m, Replayed(m, s, ds[..k]).value, ds[k..j]) == Replayed(m, s, ds[..j])
  {
    assert ds[..j] == ds[..k] + ds[k..j];
    ReplayedAppend(m, s, ds[..k], ds[k..j]);
  }

  /** `Lists.reverse`. */
  function Reversed<T>(s: seq<T>): (r: seq<T>)
    ensures |r| == |s|
  {
    if |s| == 0 then [] else Reversed(s[1..]) + [s[0]]
  }

  lemma {:induction false} ReversedAt<T>(s: seq<T>, i: int)
    requires 0 <= i < |s|
    ensures Reversed(s)[i] == s[|s| - 1 - i]
    decreases |s|
  {
    if i < |s| - 1 {
      ReversedAt(s[1..], i);
    }
  }

  /** Reversing twice gives the run back: the slow case applies the deltas it read backwards in log order. */
  lemma ReversedTwice<T>(s: seq<T>)
    ensures Reversed(Reversed(s)) == s
  {
    forall i | 0 <= i < |s|
      ensures Reversed(Reversed(s))[i] == s[i]
    {
      ReversedAt(Reversed(s), i);
      ReversedAt(s, |s| - 1 - i);
    }
  }

  /** The newest `|s| - k` elements of `s`, newest first, begin its reversal. */
  lemma {:induction false} ReversedSuffix<T>(s: seq<T>, k: nat)
    requires k <= |s|
    ensures Reversed(s[k..]) == Reversed(s)[..|s| - k]
    decreases k
  {
    if k == 0 {
      assert s[k..] == s;
    } else {
      var r := Reversed(s[1..]);
      assert Reversed(s) == r + [s[0]];
      assert (r + [s[0]])[..|s| - k] == r[..|s[1..]| - (k - 1)];
      ReversedSuffix(s[1..], k - 1);
      assert s[1..][k - 1..] == s[k..];
    }
  }

  /** Reversing the first elements of a reversal gives the last elements back in order. */
  lemma ReversedPrefix<T>(s: seq<T>, k: nat)
    requires k <= |s|
    ensures Reversed(Reversed(s)[..k]) == s[|s| - k..]
  {
    ReversedSuffix(s, |s| - k);
    ReversedTwice(s[|s| - k..]);
  }

  /** A snapshot staged on top of `base` (at `baseVersion`) is the snapshot of the replay up to its version. */
  ghost predicate SnapshotOf<S>(m: SlobModel<S>, base: S, ds: seq<Delta>, baseVersion: nat, e: SnapshotEntry)
  {
    baseVersion <= e.version <= baseVersion + |ds|
    && var r := Replayed(m, base, ds[..e.version - baseVersion]);
       r.Ok? && m.snapshot(r.value) == Some(e.snapshot)
  }

  lemma SnapshotOfExtends<S>(m: SlobModel<S>, base: S, ds: seq<Delta>, more: seq<Delta>, baseVersion: nat, e: SnapshotEntry)
    requires SnapshotOf(m, base, ds, baseVersion, e)
    ensures SnapshotOf(m, base, ds + more, baseVersion, e)
  {
    assert (ds + more)[..e.version - baseVersion] == ds[..e.version - baseVersion];
  }

  /** The snapshot rule of `appendAll`: write `S` when `k·|S| < |P| + |D|`, with `k = 2`. */
  const SnapshotFactor: int := 2

  predicate TakesSnapshot(snapshotBytes: int, mostRecentSnapshotBytes: int, totalDeltaBytesSinceSnapshot: int)
  {
    SnapshotFactor * snapshotBytes < mostRecentSnapshotBytes + totalDeltaBytesSinceSnapshot
  }

  /** What an appender has staged, and the byte counters of the snapshot rule. */
  datatype Staged = Staged(deltas: seq<DeltaEntry>, snapshots: seq<SnapshotEntry>, estimatedBytes: nat,
                           mostRecentSnapshotBytes: nat, totalDeltaBytesSinceSnapshot: nat)

  /** The state, version and staged entries after a call of `appendAll`, with its outcome. */
  datatype Appended<S> = Appended(outcome: Outcome, state: S, version: nat, staged: Staged)

  /**
   * The loop of `appendAll`: each delta applied to the state and staged under the version it
   * applied to, its size added to both counters, until one is refused.
   */
  function StageDeltas<S>(m: SlobModel<S>, keys: KeyLengths, s: S, version: nat, c: Staged, ds: seq<Delta>)
    : (S, nat, Staged, Option<Error>)
    decreases |ds|
  {
    if |ds| == 0 then (s, version, c, None)
    else
      match m.apply(s, ds[0])
      case Err(e) => (s, version, c, Some(e))
      case Ok(next) => StageDeltas(m, keys, next, version + 1, StageDelta(keys, c, DeltaEntry(version, ds[0])), ds[1..])
  }

  /** One delta staged: the entry appended, its size added to both counters. */
  function StageDelta(keys: KeyLengths, c: Staged, e: DeltaEntry): Staged
  {
    c.(deltas := c.deltas + [e], estimatedBytes := c.estimatedBytes + DeltaSize(keys, e),
       totalDeltaBytesSinceSnapshot := c.totalDeltaBytesSinceSnapshot + DeltaSize(keys, e))
  }

  lemma StageDeltasStep<S>(m: SlobModel<S>, keys: KeyLengths, s: S, version: nat, c: Staged, ds: seq<Delta>)
    requires |ds| > 0 && m.apply(s, ds[0]).Ok?
    ensures StageDeltas(m, keys, s, version, c, ds)
      == StageDeltas(m, keys, m.apply(s, ds[0]).value, version + 1, StageDelta(keys, c, DeltaEntry(version, ds[0])), ds[1..])
  {
  }

  /** The end of `appendAll`: the snapshot of the state, staged when the snapshot rule says so. */
  function StageSnapshot<S>(m: SlobModel<S>, keys: KeyLengths, s: S, version: nat, c: Staged): (Outcome, Staged)
  {
    match m.snapshot(s)
    case None => (Fail(NullPointer), c)
    case Some(text) =>
      var e := SnapshotEntry(version, text);
      var bytes := SnapshotSize(keys, e);
      if TakesSnapshot(bytes, c.mostRecentSnapshotBytes, c.totalDeltaBytesSinceSnapshot) then
        (Pass, c.(snapshots := c.snapshots + [e], mostRecentSnapshotBytes := bytes, totalDeltaBytesSinceSnapshot := 0,
                  estimatedBytes := c.estimatedBytes + bytes))
      else (Pass, c)
  }

  /** `appendAll(ds)` on an appender that is not finished. */
  function AppendedAll<S>(m: SlobModel<S>, keys: KeyLengths, s: S, version: nat, c: Staged, ds: seq<Delta>): Appended<S>
  {
    if |ds| == 0 then Appended(Pass, s, version, c)
    else
      var (s1, v1, c1, failure) := StageDeltas(m, keys, s, version, c, ds);
      if failure.Some? then Appended(Fail(failure.value), s1, v1, c1)
      else
        var (outcome, c2) := StageSnapshot(m, keys, s1, v1, c1);
        Appended(outcome, s1, v1, c2)
  }

  /** The entries of a non-empty prefix: the first delta's, then the rest's under the next versions. */
  lemma EntriesCons(from: nat, ds: seq<Delta>, n: nat)
    requires 0 < n <= |ds|
    ensures Entries(from, ds[..n]) == [DeltaEntry(from, ds[0])] + Entries(from + 1, ds[1..][..n - 1])
  {
    var l, r := Entries(from, ds[..n]), [DeltaEntry(from, ds[0])] + Entries(from + 1, ds[1..][..n - 1]);
    assert |l| == |r|;
    forall i | 0 <= i < |l|
      ensures l[i] == r[i]
    {
      if i > 0 {
        assert r[i] == Entries(from + 1, ds[1..][..n - 1])[i - 1];
      }
    }
  }

  /** Entries appended to the staged deltas, their sizes added to both counters. */
  function StagedWith(keys: KeyLengths, c: Staged, es: seq<DeltaEntry>): Staged
  {
    c.(deltas := c.deltas + es, estimatedBytes := c.estimatedBytes + DeltaBytes(keys, es),
       totalDeltaBytesSinceSnapshot := c.totalDeltaBytesSinceSnapshot + DeltaBytes(keys, es))
  }

  /** Staging one entry and then others is staging them all at once. */
  lemma StagedWithCons(keys: KeyLengths, c: Staged, e: DeltaEntry, rest: seq<DeltaEntry>)
    ensures StagedWith(keys, StageDelta(keys, c, e), rest) == StagedWith(keys, c, [e] + rest)
  {
    DeltaBytesAppend(keys, [e], rest);
    DeltaBytesSnoc(keys, [], e);
    assert [] + [e] == [e];
    assert c.deltas + [e] + rest == c.deltas + ([e] + rest);
  }

  /**
   * The loop stages exactly the deltas `Accepted` counts, under consecutive versions from the
   * starting one, adds their sizes to both counters and reports the refusal that stopped it.
   */
  lemma {:induction false} StageDeltasAccepts<S>(m: SlobModel<S>, keys: KeyLengths, s: S, version: nat, c: Staged, ds: seq<Delta>)
    ensures var run := Accepted(m, s, ds);
      StageDeltas(m, keys, s, version, c, ds)
        == (run.state, version + run.count, StagedWith(keys, c, Entries(version, ds[..run.count])), run.failure)
    decreases |ds|
  {
    var run := Accepted(m, s, ds);
    if |ds| == 0 || m.apply(s, ds[0]).Err? {
      assert Entries(version, ds[..run.count]) == [];
      assert c.deltas + [] == c.deltas;
    } else {
      var next := m.apply(s, ds[0]).value;
      var e := DeltaEntry(version, ds[0]);
      StageDeltasAccepts(m, keys, next, version + 1, StageDelta(keys, c, e), ds[1..]);
      var run1 := Accepted(m, next, ds[1..]);
      assert run.count == run1.count + 1;
      EntriesCons(version, ds, run.count);
      StagedWithCons(keys, c, e, Entries(version + 1, ds[1..][..run1.count]));
    }
  }

  /**
   * `appendAll` with no deltas changes nothing. Otherwise the deltas `Accepted` counts are staged
   * under consecutive versions from the starting one and their sizes added to both counters; a
   * refused delta fails the call and leaves the snapshots staged as they were.
   */
  lemma AppendedAllStages<S>(m: SlobModel<S>, keys: KeyLengths, s: S, version: nat, c: Staged, ds: seq<Delta>)
    ensures |ds| == 0 ==> AppendedAll(m, keys, s, version, c, ds) == Appended(Pass, s, version, c)
    ensures |ds| > 0 ==>
      var a := AppendedAll(m, keys, s, version, c, ds);
      var run := Accepted(m, s, ds);
      var staged := Entries(version, ds[..run.count]);
      a.state == run.state && a.version == version + run.count
      && a.staged.deltas == c.deltas + staged
      && (run.failure.Some? ==>
            a.outcome == Fail(run.failure.value) && a.staged.snapshots == c.snapshots
            && a.staged.estimatedBytes == c.estimatedBytes + DeltaBytes(keys, staged)
            && a.staged.totalDeltaBytesSinceSnapshot == c.totalDeltaBytesSinceSnapshot + DeltaBytes(keys, staged))
      && (run.failure.None? ==> (a.outcome.Pass? <==> m.snapshot(run.state).Some?))
  {
    StageDeltasAccepts(m, keys, s, version, c, ds);
  }

  /**
   * The snapshot rule: a call that succeeds stages at most one snapshot, the one of the new
   * state at the new version, exactly when twice its size is below the bytes since the last
   * snapshot plus that snapshot's; staging it resets the counters to it. Either way the bytes
   * to read to rebuild the new state are then at most twice its snapshot's.
   */
  lemma AppendedAllSnapshotRule<S>(m: SlobModel<S>, keys: KeyLengths, s: S, version: nat, c: Staged, ds: seq<Delta>)
    requires |ds| > 0 && AppendedAll(m, keys, s, version, c, ds).outcome.Pass?
    ensures var a := AppendedAll(m, keys, s, version, c, ds);
      var run := Accepted(m, s, ds);
      var staged := Entries(version, ds[..run.count]);
      var since := c.totalDeltaBytesSinceSnapshot + DeltaBytes(keys, staged);
      run.failure.None? && m.snapshot(a.state).Some?
      && var e := SnapshotEntry(a.version, m.snapshot(a.state).value);
         var bytes := SnapshotSize(keys, e);
         (if TakesSnapshot(bytes, c.mostRecentSnapshotBytes, since) then
            a.staged.snapshots == c.snapshots + [e] && a.staged.mostRecentSnapshotBytes == bytes
            && a.staged.totalDeltaBytesSinceSnapshot == 0
            && a.staged.estimatedBytes == c.estimatedBytes + DeltaBytes(keys, staged) + bytes
          else
            a.staged.snapshots == c.snapshots && a.staged.mostRecentSnapshotBytes == c.mostRecentSnapshotBytes
            && a.staged.totalDeltaBytesSinceSnapshot == since
            && a.staged.estimatedBytes == c.estimatedBytes + DeltaBytes(keys, staged))
         && a.staged.mostRecentSnapshotBytes + a.staged.totalDeltaBytesSinceSnapshot <= SnapshotFactor * bytes
  {
    StageDeltasAccepts(m, keys, s, version, c, ds);
  }

  /**
   * The invariant of an appender: the staged deltas carry consecutive versions from
   * `baseVersion` and replay from `base` to the current state; every staged snapshot is the
   * snapshot of the state at its version; the byte estimate is the sum of the staged entries'
   * estimates.
   */
  ghost predicate Staging<S>(m: SlobModel<S>, keys: KeyLengths, base: S, baseVersion: nat, state: S, version: nat, c: Staged)
  {
    version == baseVersion + |c.deltas|
    && (forall i | 0 <= i < |c.deltas| :: c.deltas[i].version == baseVersion + i)
    && Replayed(m, base, Data(c.deltas)) == Ok(state)
    && (forall j | 0 <= j < |c.snapshots| :: SnapshotOf(m, base, Data(c.deltas), baseVersion, c.snapshots[j]))
    && c.estimatedBytes == DeltaBytes(keys, c.deltas) + SnapshotBytes(keys, c.snapshots)
  }

  /** Staging a delta the state accepts keeps the invariant. */
  lemma StagingDelta<S>(m: SlobModel<S>, keys: KeyLengths, base: S, baseVersion: nat, state: S, version: nat, c: Staged, d: Delta)
    requires Staging(m, keys, base, baseVersion, state, version, c)
    requires m.apply(state, d).Ok?
    ensures Staging(m, keys, base, baseVersion, m.apply(state, d).value, version + 1, StageDelta(keys, c, DeltaEntry(version, d)))
  {
    var e := DeltaEntry(version, d);
    var ds := c.deltas;
    var ds' := ds + [e];
    DeltaBytesSnoc(keys, ds, e);
    assert Data(ds') == Data(ds) + [d];
    ReplayedSnoc(m, base, Data(ds), d);
    assert Replayed(m, base, Data(ds')) == Ok(m.apply(state, d).value);
    assert forall i | 0 <= i < |ds'| :: ds'[i].version == baseVersion + i;
    forall j | 0 <= j < |c.snapshots|
      ensures SnapshotOf(m, base, Data(ds'), baseVersion, c.snapshots[j])
    {
      SnapshotOfExtends(m, base, Data(ds), [d], baseVersion, c.snapshots[j]);
    }
  }

  /** The snapshot step keeps the invariant. */
  lemma StagingSnapshot<S>(m: SlobModel<S>, keys: KeyLengths, base: S, baseVersion: nat, state: S, version: nat, c: Staged)
    requires Staging(m, keys, base, baseVersion, state, version, c)
    ensures Staging(m, keys, base, baseVersion, state, version, StageSnapshot(m, keys, state, version, c).1)
  {
    if m.snapshot(state).Some? {
      var e := SnapshotEntry(version, m.snapshot(state).value);
      SnapshotBytesSnoc(keys, c.snapshots, e);
      assert Data(c.deltas)[..e.version - baseVersion] == Data(c.deltas);
    }
  }

  /**
   * The deltas of one `appendAll` applied and staged one by one, stopping at the first the slob
   * rejects, as `StageDeltas` says; the invariant of the staged entries holds throughout.
   */
  method StageAll<S>(m: SlobModel<S>, keys: KeyLengths, ghost base: S, ghost baseVersion: nat, s0: S, v0: nat, c0: Staged,
                     deltas: seq<Delta>) returns (s: S, v: nat, c: Staged, failure: Option<Error>)
    requires Staging(m, keys, base, baseVersion, s0, v0, c0)
    ensures Staging(m, keys, base, baseVersion, s, v, c)
    ensures (s, v, c, failure) == StageDeltas(m, keys, s0, v0, c0, deltas)
  {
    s, v, c := s0, v0, c0;
    var i := 0;
    while i < |deltas|
      invariant 0 <= i <= |deltas|
      invariant Staging(m, keys, base, baseVersion, s, v, c)
      invariant StageDeltas(m, keys, s, v, c, deltas[i..]) == StageDeltas(m, keys, s0, v0, c0, deltas)
    {
      var next := m.apply(s, deltas[i]);
      assert deltas[i..][0] == deltas[i];
      if next.Err? {
        return s, v, c, Some(next.error);
      }
      StagingDelta(m, keys, base, baseVersion, s, v, c, deltas[i]);
      assert deltas[i..][1..] == deltas[i + 1..];
      StageDeltasStep(m, keys, s, v, c, deltas[i..]);
      s, v, c := next.value, v + 1, StageDelta(keys, c, DeltaEntry(v, deltas[i]));
      i := i + 1;
    }
    assert deltas[i..] == [];
    failure := None;
  }

  // ---------------------------------------------------------------------------------------
  // Appender

  /** What `finish` leaves for the state cache. */
  datatype CacheEntry = CacheEntry(version: nat, snapshot: Option<string>, mostRecentSnapshotBytes: nat,
                                   totalDeltaBytesSinceSnapshot: nat)

  /**
   * `MutationLog.Appender`: the state and version (`StateAndVersion`), then the staged entries
   * and the byte counters of the snapshot rule, held together in `staged`. `base` and
   * `baseVersion` are the state the staged deltas start from.
   */
  class Appender<S> {
    const model: SlobModel<S>
    const keys: KeyLengths
    var state: S
    var version: nat
    var staged: Staged
    var finished: bool
    ghost var base: S
    ghost var baseVersion: nat

    ghost predicate Valid()
      reads this
    {
      Staging(model, keys, base, baseVersion, state, version, staged)
    }

    /** `new Appender(state, mostRecentSnapshotBytes, totalDeltaBytesSinceSnapshot)`: nothing staged. */
    constructor (model: SlobModel<S>, keys: KeyLengths, state: S, version: nat, mostRecentSnapshotBytes: nat,
                 totalDeltaBytesSinceSnapshot: nat)
      ensures Valid() && !finished
      ensures this.model == model && this.keys == keys && this.state == state && this.version == version
      ensures staged == Staged([], [], 0, mostRecentSnapshotBytes, totalDeltaBytesSinceSnapshot)
      ensures base == state && baseVersion == version
    {
      this.model := model;
      this.keys := keys;
      this.state := state;
      this.version := version;
      staged := Staged([], [], 0, mostRecentSnapshotBytes, totalDeltaBytesSinceSnapshot);
      finished := false;
      base := state;
      baseVersion := version;
    }

    /** `hasNewDeltas`: whether the appender has moved past the state it started from. */
    function HasNewDeltas(): (b: bool)
      requires Valid()
      reads this
      ensures b <==> version > baseVersion
    {
      |staged.deltas| > 0
    }

    /**
     * `appendAll(deltas)`: after `finish` it fails and changes nothing; otherwise the state,
     * version and staged entries become those `AppendedAll` gives, and the invariant holds.
     */
    method AppendAll(deltas: seq<Delta>) returns (r: Outcome)
      requires Valid()
      modifies this
      ensures Valid() && base == old(base) && baseVersion == old(baseVersion) && finished == old(finished)
      ensures old(finished) ==> r == Fail(IllegalState) && unchanged(this)
      ensures !old(finished) ==>
        Appended(r, state, version, staged) == AppendedAll(model, keys, old(state), old(version), old(staged), deltas)
    {
      if finished {
        return Fail(IllegalState);
      }
      if |deltas| == 0 {
        return Pass;
      }
      var failure := ApplyAndStage(deltas);
      if failure.Some? {
        return Fail(failure.value);
      }
      r := StageSnapshotIfWorthIt();
    }

    /** `append(delta)`: `appendAll` of the one delta. */
    method Append(delta: Delta) returns (r: Outcome)
      requires Valid()
      modifies this
      ensures Valid() && base == old(base) && baseVersion == old(baseVersion) && finished == old(finished)
      ensures old(finished) ==> r == Fail(IllegalState) && unchanged(this)
      ensures !old(finished) ==>
        Appended(r, state, version, staged) == AppendedAll(model, keys, old(state), old(version), old(staged), [delta])
    {
      r := AppendAll([delta]);
    }

    /**
     * The loop of `appendAll`, with the fields written back once it stops.
     */
    method ApplyAndStage(deltas: seq<Delta>) returns (failure: Option<Error>)
      requires Valid() && !finished
      modifies this
      ensures Valid() && !finished && base == old(base) && baseVersion == old(baseVersion)
      ensures (state, version, staged, failure) == StageDeltas(model, keys, old(state), old(version), old(staged), deltas)
    {
      state, version, staged, failure := StageAll(model, keys, base, baseVersion, state, version, staged, deltas);
    }

    /** The end of `appendAll`: the snapshot of the state, staged as `StageSnapshot` says. */
    method StageSnapshotIfWorthIt() returns (r: Outcome)
      requires Valid() && !finished
      modifies this
      ensures Valid() && !finished && base == old(base) && baseVersion == old(baseVersion)
      ensures state == old(state) && version == old(version)
      ensures (r, staged) == StageSnapshot(model, keys, state, version, old(staged))
    {
      StagingSnapshot(model, keys, base, baseVersion, state, version, staged);
      var snapshot := model.snapshot(state);
      if snapshot.None? {
        return Fail(NullPointer);
      }
      var e := SnapshotEntry(version, snapshot.value);
      var snapshotBytes := SnapshotSize(keys, e);
      if SnapshotFactor * snapshotBytes < staged.mostRecentSnapshotBytes + staged.totalDeltaBytesSinceSnapshot {
        staged := staged.(snapshots := staged.snapshots + [e], mostRecentSnapshotBytes := snapshotBytes,
                          totalDeltaBytesSinceSnapshot := 0, estimatedBytes := staged.estimatedBytes + snapshotBytes);
      }
      return Pass;
    }

    /**
     * `finish`: one-shot. It hands over the staged entries for writing and the cache entry of
     * the new state, and clears what was staged; the appender then starts from its state.
     */
    method Finish() returns (r: Result<(seq<DeltaEntry>, seq<SnapshotEntry>, CacheEntry)>)
      requires Valid()
      modifies this
      ensures Valid()
      ensures old(finished) ==> r == Err(IllegalState) && unchanged(this)
      ensures !old(finished) ==>
        r == Ok((old(staged.deltas), old(staged.snapshots),
                 CacheEntry(version, model.snapshot(state), staged.mostRecentSnapshotBytes, staged.totalDeltaBytesSinceSnapshot)))
        && finished && staged == old(staged).(deltas := [], snapshots := [], estimatedBytes := 0)
        && state == old(state) && version == old(version)
        && base == state && baseVersion == version
    {
      if finished {
        return Err(IllegalState);
      }
      finished := true;
      r := Ok((staged.deltas, staged.snapshots,
               CacheEntry(version, model.snapshot(state), staged.mostRecentSnapshotBytes, staged.totalDeltaBytesSinceSnapshot)));
      staged := staged.(deltas := [], snapshots := [], estimatedBytes := 0);
      base := state;
      baseVersion := version;
    }
  }

  // ---------------------------------------------------------------------------------------
  // the stored log

  /** The stored log of one slob: delta `v` is the one applied to version `v`; snapshots by version. */
  datatype Store = Store(deltas: seq<Delta>, snapshots: map<nat, string>)

  /** Only appenders write the log, so no snapshot is past the last delta. */
  type Log = l: Store | forall v | v in l.snapshots :: v <= |l.deltas| witness Store([], map[])

  /** `getSnapshotEntryAtOrBefore`: the latest version at or before `bound` with a snapshot. */
  function LatestSnapshot(snapshots: map<nat, string>, bound: nat): (r: Option<nat>)
    ensures r.Some? ==> r.value in snapshots && r.value <= bound
    ensures forall v | v in snapshots && v <= bound :: r.Some? && v <= r.value
    decreases bound
  {
    if bound in snapshots then Some(bound)
    else if bound == 0 then None
    else LatestSnapshot(snapshots, bound - 1)
  }

  /** `createObject(version, snapshot)`: a snapshot the model refuses is a runtime error. */
  function CreateObject<S>(m: SlobModel<S>, version: nat, snapshot: Option<string>): (r: Result<(S, nat)>)
    ensures r.Ok? <==> m.create(snapshot).Ok?
    ensures r.Ok? ==> r.value == (m.create(snapshot).value, version)
    ensures r.Err? ==> r.error == (if m.create(snapshot).error == InvalidSnapshot then Runtime else m.create(snapshot).error)
  {
    match m.create(snapshot)
    case Ok(s) => Ok((s, version))
    case Err(InvalidSnapshot) => Err(Runtime)
    case Err(e) => Err(e)
  }

  /** `getSnapshottedState(bound)`: the slob at the latest snapshot at or before `bound`, or the empty slob at 0. */
  function SnapshottedState<S>(m: SlobModel<S>, log: Log, bound: nat): Result<(S, nat)>
  {
    match LatestSnapshot(log.snapshots, bound)
    case None => CreateObject(m, 0, None)
    case Some(v) => CreateObject(m, v, Some(log.snapshots[v]))
  }

  /** A replay failure seen through the `catch (DeltaRejected e)` of the caller, which throws `e` instead. */
  function Corrupt<T>(r: Result<T>, e: Error): (c: Result<T>)
    ensures c.Ok? <==> r.Ok?
    ensures r.Ok? ==> c == r
    ensures r.Err? ==> c.error == (if r.error == DeltaRejected then e else r.error)
  {
    if r.Err? && r.error == DeltaRejected then Err(e) else r
  }

  /**
   * `reconstruct(atVersion)`, `None` for the current version: the state at the latest snapshot at
   * or before the version, followed by the deltas up to it. A negative version, or one more than
   * an `int` away from that snapshot (`Ints.checkedCast`), is an illegal argument; a delta that
   * is refused means the history is corrupt; a version past the last delta is a runtime error.
   */
  function Reconstruction<S>(m: SlobModel<S>, log: Log, at: Option<int>): Result<(S, nat)>
  {
    var _ :- ToResult(CheckRange(at, None));
    var bound: nat := if at.Some? then at.value else |log.deltas|;
    var (s, start) :- SnapshottedState(m, log, bound);
    if at.Some? && at.value - start > IntMax then Err(IllegalArgument)
    else
      var end := if bound < |log.deltas| then bound else |log.deltas|;
      var state :- Corrupt(Replayed(m, s, log.deltas[start..end]), PermanentFailure);
      if at.Some? && end < at.value then Err(Runtime) else Ok((state, end))
  }

  function ToResult(o: Outcome): (r: Result<()>)
    ensures r.Ok? <==> o.Pass?
    ensures o.Fail? ==> r == Err(o.error)
  {
    if o.Pass? then Ok(()) else Err(o.error)
  }

  /** The replay stops at the first delta its state refuses. */
  lemma ReplayFailsAt<S>(m: SlobModel<S>, s: S, ds: seq<Delta>, i: nat, last: S)
    requires i < |ds| && Replayed(m, s, ds[..i]) == Ok(last) && m.apply(last, ds[i]).Err?
    ensures Replayed(m, s, ds) == m.apply(last, ds[i])
  {
    assert ds == ds[..i] + ds[i..];
    ReplayedAppend(m, s, ds[..i], ds[i..]);
    assert ds[i..][0] == ds[i];
  }

  /** The log is one a slob wrote: its deltas replay from the empty slob, and each snapshot is the one of the state at its version. */
  ghost predicate Consistent<S>(m: SlobModel<S>, log: Log)
  {
    m.create(None).Ok?
    && Replayed(m, m.create(None).value, log.deltas).Ok?
    && forall v | v in log.snapshots ::
         var r := Replayed(m, m.create(None).value, log.deltas[..v]);
         r.Ok? && m.snapshot(r.value) == Some(log.snapshots[v])
  }

  /** The state of a consistent log at a version. */
  ghost function StateAt<S>(m: SlobModel<S>, log: Log, v: nat): S
    requires Consistent(m, log) && v <= |log.deltas|
  {
    PrefixReplays(m, m.create(None).value, log.deltas, v);
    Replayed(m, m.create(None).value, log.deltas[..v]).value
  }

  /** On a consistent log the latest snapshot at or before a version restores the state at that snapshot. */
  lemma SnapshottedStateRestores<S(!new)>(m: SlobModel<S>, log: Log, bound: nat)
    requires Restores(m) && Consistent(m, log)
    ensures var r := SnapshottedState(m, log, bound);
      r.Ok? && r.value.1 <= bound && r.value.1 <= |log.deltas| && r.value.0 == StateAt(m, log, r.value.1)
  {
    assert log.deltas[..0] == [];
  }

  /**
   * On a consistent log, `reconstruct` gives the replay of the deltas up to the version asked for
   * (all of them for `None`); a negative version is refused, and a version past the last delta
   * is a runtime error.
   */
  lemma ReconstructReplays<S(!new)>(m: SlobModel<S>, log: Log, at: Option<int>)
    requires Restores(m) && Consistent(m, log)
    ensures at.None? ==> Reconstruction(m, log, at) == Ok((StateAt(m, log, |log.deltas|), |log.deltas|))
    ensures at.Some? && at.value < 0 ==> Reconstruction(m, log, at) == Err(IllegalArgument)
    ensures at.Some? && 0 <= at.value <= |log.deltas| && at.value <= IntMax ==>
      Reconstruction(m, log, at) == Ok((StateAt(m, log, at.value), at.value))
    ensures at.Some? && |log.deltas| < at.value <= IntMax ==> Reconstruction(m, log, at) == Err(Runtime)
  {
    if at.None? || at.value >= 0 {
      var bound: nat := if at.Some? then at.value else |log.deltas|;
      SnapshottedStateRestores(m, log, bound);
      var (s, start) := SnapshottedState(m, log, bound).value;
      var end := if bound < |log.deltas| then bound else |log.deltas|;
      PrefixReplays(m, m.create(None).value, log.deltas, start);
      ReplayedFromPrefix(m, m.create(None).value, log.deltas, start, end);
      PrefixReplays(m, m.create(None).value, log.deltas, end);
    }
  }

  // ---------------------------------------------------------------------------------------
  // preparing an appender

  /** What `prepareAppender` hands over: the appender's starting point and the deltas it read, newest first. */
  datatype Prepared<S> = Prepared(state: S, version: nat, mostRecentSnapshotBytes: nat,
                                  totalDeltaBytesSinceSnapshot: nat, reverseDeltasRead: seq<Delta>)

  /**
   * `prepareAppenderSlowCase`: an empty log gives the empty slob. Otherwise the latest snapshot
   * (its size counted as the most recent snapshot's) is brought up to date with the deltas after
   * it, read newest first and counted as the bytes since the snapshot. The newest delta is read
   * even when the snapshot is already current. A refused delta means the history is corrupt.
   */
  function SlowCase<S>(m: SlobModel<S>, keys: KeyLengths, log: Log): Result<Prepared<S>>
  {
    var n := |log.deltas|;
    if n == 0 then
      var (s, _) :- CreateObject(m, 0, None);
      Ok(Prepared(s, 0, 0, 0, []))
    else
      var (s, v) :- SnapshottedState(m, log, n);
      var latest := LatestSnapshot(log.snapshots, n);
      var snapshotBytes := if latest.None? then 0 else SnapshotSize(keys, SnapshotEntry(latest.value, log.snapshots[latest.value]));
      if v == n then Ok(Prepared(s, n, snapshotBytes, 0, [log.deltas[n - 1]]))
      else
        var state :- Corrupt(Replayed(m, s, log.deltas[v..]), Runtime);
        Ok(Prepared(state, n, snapshotBytes, DeltaBytes(keys, Entries(v, log.deltas[v..])), Reversed(log.deltas[v..])))
  }

  /**
   * `prepareAppender`'s check of a cached version `cv`: for 0, that the log is empty; otherwise
   * that of the deltas at `cv - 1` and `cv` the first is there and the second is not. The cache
   * is current exactly when the log has `cv` deltas; a log with fewer is missing data.
   */
  function CacheValid(n: nat, cv: nat): (r: Result<bool>)
    ensures r == Ok(true) <==> cv == n
    ensures r == Ok(false) <==> cv < n
    ensures r == Err(Runtime) <==> cv > n
  {
    if cv == 0 then Ok(n == 0)
    else
      var found := (if cv - 1 < n then 1 else 0) + (if cv < n then 1 else 0);
      if found == 0 then Err(Runtime) else Ok(found == 1)
  }

  /** `prepareAppender`: from a current cache entry without reading deltas, otherwise the slow case. */
  function Prepare<S>(m: SlobModel<S>, keys: KeyLengths, log: Log, cached: Option<CacheEntry>): Result<Prepared<S>>
  {
    if cached.None? then SlowCase(m, keys, log)
    else
      var c := cached.value;
      var valid :- CacheValid(|log.deltas|, c.version);
      if valid then
        var (s, v) :- CreateObject(m, c.version, c.snapshot);
        Ok(Prepared(s, v, c.mostRecentSnapshotBytes, c.totalDeltaBytesSinceSnapshot, []))
      else SlowCase(m, keys, log)
  }

  /** A cache entry a committed appender left: a version the log has reached and the snapshot of the state there. */
  ghost predicate CacheConsistent<S>(m: SlobModel<S>, log: Log, c: CacheEntry)
    requires Consistent(m, log)
  {
    c.version <= |log.deltas| && c.snapshot == m.snapshot(StateAt(m, log, c.version))
  }

  /** On a consistent log the slow case starts the appender at the current state and version, having read the deltas after the snapshot. */
  lemma SlowCaseReplays<S(!new)>(m: SlobModel<S>, keys: KeyLengths, log: Log)
    requires Restores(m) && Consistent(m, log)
    ensures var r := SlowCase(m, keys, log);
      r.Ok? && r.value.state == StateAt(m, log, |log.deltas|) && r.value.version == |log.deltas|
      && (|log.deltas| > 0 ==> 0 < |r.value.reverseDeltasRead| && r.value.reverseDeltasRead[0] == log.deltas[|log.deltas| - 1])
  {
    if |log.deltas| == 0 {
      assert log.deltas[..0] == [];
    } else {
      SlowCaseCatchesUp(m, keys, log);
    }
  }

  /** A log with deltas: the slow case brings the latest snapshot up to date, having read the newest delta first. */
  lemma SlowCaseCatchesUp<S(!new)>(m: SlobModel<S>, keys: KeyLengths, log: Log)
    requires Restores(m) && Consistent(m, log) && |log.deltas| > 0
    ensures var r := SlowCase(m, keys, log);
      r.Ok? && r.value.state == StateAt(m, log, |log.deltas|) && r.value.version == |log.deltas|
      && 0 < |r.value.reverseDeltasRead| && r.value.reverseDeltasRead[0] == log.deltas[|log.deltas| - 1]
  {
    var n := |log.deltas|;
    SnapshottedStateRestores(m, log, n);
    var sv := SnapshottedState(m, log, n).value;
    if sv.1 < n {
      CatchesUp(m, log, sv.1);
      ReversedAt(log.deltas[sv.1..], 0);
    }
  }

  /** The deltas after a version bring the state there up to the current one. */
  lemma CatchesUp<S>(m: SlobModel<S>, log: Log, v: nat)
    requires Consistent(m, log) && v <= |log.deltas|
    ensures Replayed(m, StateAt(m, log, v), log.deltas[v..]) == Ok(StateAt(m, log, |log.deltas|))
  {
    var n := |log.deltas|;
    PrefixReplays(m, m.create(None).value, log.deltas, v);
    ReplayedFromPrefix(m, m.create(None).value, log.deltas, v, n);
    assert log.deltas[v..n] == log.deltas[v..] && log.deltas[..n] == log.deltas;
  }

  /**
   * Whether or not the cache is current, an appender prepared on a consistent log with a
   * consistent cache entry starts at the current state and version.
   */
  lemma PrepareReplays<S(!new)>(m: SlobModel<S>, keys: KeyLengths, log: Log, cached: Option<CacheEntry>)
    requires Restores(m) && Consistent(m, log)
    requires cached.Some? ==> CacheConsistent(m, log, cached.value)
    ensures var r := Prepare(m, keys, log, cached);
      r.Ok? && r.value.state == StateAt(m, log, |log.deltas|) && r.value.version == |log.deltas|
  {
    SlowCaseReplays(m, keys, log);
  }

  /**
   * Whatever the log, a prepared appender starts at the version the log is at, and the deltas
   * read on the way are the newest ones, newest first: what the reverse delta iterator has not
   * yet given.
   */
  lemma PreparedAtHead<S>(m: SlobModel<S>, keys: KeyLengths, log: Log, cached: Option<CacheEntry>)
    requires Prepare(m, keys, log, cached).Ok?
    ensures var p := Prepare(m, keys, log, cached).value;
      p.version == |log.deltas| && |p.reverseDeltasRead| <= |log.deltas|
      && p.reverseDeltasRead == Reversed(log.deltas)[..|p.reverseDeltasRead|]
  {
    var n := |log.deltas|;
    if n > 0 && (cached.None? || CacheValid(n, cached.value.version) == Ok(false)) {
      var sv := SnapshottedState(m, log, n).value.1;
      if sv == n {
        ReversedAt(log.deltas, 0);
      } else {
        ReversedSuffix(log.deltas, sv);
      }
    }
  }

  // ---------------------------------------------------------------------------------------
  // committing

  /** The snapshots written by a transaction, added to the stored ones. */
  function AddSnapshots(snapshots: map<nat, string>, ss: seq<SnapshotEntry>): (r: map<nat, string>)
    ensures forall v :: v in r <==> v in snapshots || exists j | 0 <= j < |ss| :: ss[j].version == v
    ensures forall v | v in r :: (v in snapshots && r[v] == snapshots[v])
                                  || exists j | 0 <= j < |ss| :: ss[j] == SnapshotEntry(v, r[v])
    decreases |ss|
  {
    if |ss| == 0 then snapshots
    else AddSnapshots(snapshots, ss[..|ss| - 1])[ss[|ss| - 1].version := ss[|ss| - 1].snapshot]
  }

  /** `put` of an appender's entries, once committed: its deltas after the stored ones, its snapshots added. */
  function Put(log: Log, es: seq<DeltaEntry>, ss: seq<SnapshotEntry>): (r: Log)
    requires forall j | 0 <= j < |ss| :: ss[j].version <= |log.deltas| + |es|
    ensures r.deltas == log.deltas + Data(es)
    ensures forall j | 0 <= j < |ss| :: ss[j].version in r.snapshots
  {
    Store(log.deltas + Data(es), AddSnapshots(log.snapshots, ss))
  }

  /**
   * Committing what an appender prepared on a consistent log staged keeps the log consistent:
   * its deltas replay to the appender's state, every snapshot it staged is the one of the state
   * at its version, and the cache entry it leaves is consistent with the new log.
   */
  lemma CommitKeepsConsistent<S>(m: SlobModel<S>, keys: KeyLengths, log: Log, state: S, version: nat, c: Staged)
    requires Consistent(m, log)
    requires Staging(m, keys, StateAt(m, log, |log.deltas|), |log.deltas|, state, version, c)
    ensures forall j | 0 <= j < |c.snapshots| :: c.snapshots[j].version <= |log.deltas| + |c.deltas|
    ensures var after := Put(log, c.deltas, c.snapshots);
      Consistent(m, after) && version == |after.deltas| && StateAt(m, after, version) == state
      && CacheConsistent(m, after, CacheEntry(version, m.snapshot(state), c.mostRecentSnapshotBytes, c.totalDeltaBytesSinceSnapshot))
  {
    var n := |log.deltas|;
    var init := m.create(None).value;
    var added := Data(c.deltas);
    assert forall j | 0 <= j < |c.snapshots| :: SnapshotOf(m, StateAt(m, log, n), added, n, c.snapshots[j]);
    assert log.deltas[..n] == log.deltas;
    ReplayedAppend(m, init, log.deltas, added);
    CommittedSnapshots(m, log, added, c.snapshots);
    assert Put(log, c.deltas, c.snapshots).deltas[..version] == log.deltas + added;
  }

  /** Every snapshot of the committed log, stored before or staged by the appender, is the one of the state at its version. */
  lemma CommittedSnapshots<S>(m: SlobModel<S>, log: Log, added: seq<Delta>, ss: seq<SnapshotEntry>)
    requires Consistent(m, log)
    requires forall j | 0 <= j < |ss| :: SnapshotOf(m, StateAt(m, log, |log.deltas|), added, |log.deltas|, ss[j])
    ensures var snapshots := AddSnapshots(log.snapshots, ss);
      forall v | v in snapshots ::
        v <= |log.deltas + added|
        && var r := Replayed(m, m.create(None).value, (log.deltas + added)[..v]);
           r.Ok? && m.snapshot(r.value) == Some(snapshots[v])
  {
    var snapshots := AddSnapshots(log.snapshots, ss);
    forall v | v in snapshots
      ensures v <= |log.deltas + added|
        && var r := Replayed(m, m.create(None).value, (log.deltas + added)[..v]);
           r.Ok? && m.snapshot(r.value) == Some(snapshots[v])
    {
      if v in log.snapshots && snapshots[v] == log.snapshots[v] {
        CommittedOldSnapshot(m, log, added, v);
      } else {
        var j :| 0 <= j < |ss| && ss[j] == SnapshotEntry(v, snapshots[v]);
        CommittedNewSnapshot(m, log, added, ss[j]);
      }
    }
  }

  /** A snapshot stored before the commit is still the one of the state at its version. */
  lemma CommittedOldSnapshot<S>(m: SlobModel<S>, log: Log, added: seq<Delta>, v: nat)
    requires Consistent(m, log) && v in log.snapshots
    ensures var r := Replayed(m, m.create(None).value, (log.deltas + added)[..v]);
      r.Ok? && m.snapshot(r.value) == Some(log.snapshots[v])
  {
    assert (log.deltas + added)[..v] == log.deltas[..v];
  }

  /** A snapshot the appender staged is the one of the state at its version in the committed log. */
  lemma CommittedNewSnapshot<S>(m: SlobModel<S>, log: Log, added: seq<Delta>, e: SnapshotEntry)
    requires Consistent(m, log) && SnapshotOf(m, StateAt(m, log, |log.deltas|), added, |log.deltas|, e)
    ensures var r := Replayed(m, m.create(None).value, (log.deltas + added)[..e.version]);
      r.Ok? && m.snapshot(r.value) == Some(e.snapshot)
  {
    var n := |log.deltas|;
    assert (log.deltas + added)[..e.version] == log.deltas + added[..e.version - n];
    assert log.deltas[..n] == log.deltas;
    ReplayedAppend(m, m.create(None).value, log.deltas, added[..e.version - n]);
  }

  // ---------------------------------------------------------------------------------------
  // the loops

  /** The deltas applied in order, as `reconstruct` and the slow case do; a refused one is reported as `corrupt`. */
  method ApplyAll<S>(m: SlobModel<S>, s: S, ds: seq<Delta>, corrupt: Error) returns (r: Result<S>)
    ensures r == Corrupt(Replayed(m, s, ds), corrupt)
  {
    var state := s;
    var i := 0;
    assert ds[..0] == [];
    while i < |ds|
      invariant 0 <= i <= |ds|
      invariant Replayed(m, s, ds[..i]) == Ok(state)
    {
      var next := m.apply(state, ds[i]);
      if next.Err? {
        ReplayFailsAt(m, s, ds, i, state);
        return Corrupt(next, corrupt);
      }
      ReplayedSnoc(m, s, ds[..i], ds[i]);
      assert ds[..i + 1] == ds[..i] + [ds[i]];
      state := next.value;
      i := i + 1;
    }
    assert ds[..i] == ds;
    return Ok(state);
  }

  /** Reading one delta further back. */
  lemma ReadBackStep(keys: KeyLengths, deltas: seq<Delta>, v: nat)
    requires 0 < v < |deltas|
    ensures Reversed(deltas[v - 1..]) == Reversed(deltas[v..]) + [deltas[v - 1]]
    ensures DeltaBytes(keys, Entries(v - 1, deltas[v - 1..]))
         == DeltaBytes(keys, Entries(v, deltas[v..])) + DeltaSize(keys, DeltaEntry(v - 1, deltas[v - 1]))
  {
    var e := DeltaEntry(v - 1, deltas[v - 1]);
    var ds := deltas[v - 1..];
    assert ds[1..][..|ds| - 1] == deltas[v..] && ds[0] == deltas[v - 1];
    EntriesCons(v - 1, ds, |ds|);
    assert ds[..|ds|] == ds;
    assert Entries(v - 1, ds) == [e] + Entries(v, deltas[v..]);
    DeltaBytesAppend(keys, [e], Entries(v, deltas[v..]));
    DeltaBytesSnoc(keys, [], e);
    assert [] + [e] == [e];
  }

  /**
   * The reverse read of the slow case: from the newest delta back to the one at the snapshot's
   * version, collecting them newest first and adding up their sizes.
   */
  method ReadBack(keys: KeyLengths, deltas: seq<Delta>, sv: nat) returns (reverse: seq<Delta>, total: nat)
    requires sv < |deltas|
    ensures reverse == Reversed(deltas[sv..])
    ensures total == DeltaBytes(keys, Entries(sv, deltas[sv..]))
  {
    var n := |deltas|;
    var v := n - 1;
    reverse := [deltas[v]];
    total := DeltaSize(keys, DeltaEntry(v, deltas[v]));
    assert deltas[v..] == [deltas[v]];
    assert Entries(v, deltas[v..]) == [] + [DeltaEntry(v, deltas[v])];
    while v != sv
      invariant sv <= v < n
      invariant reverse == Reversed(deltas[v..])
      invariant total == DeltaBytes(keys, Entries(v, deltas[v..]))
    {
      ReadBackStep(keys, deltas, v);
      v := v - 1;
      reverse := reverse + [deltas[v]];
      total := total + DeltaSize(keys, DeltaEntry(v, deltas[v]));
    }
  }

  /** `ObjectId` to `CacheEntry`: the per-process cache of the states appenders committed. */
  class StateCache {
    var currentStates: map<Ids.ObjectId, CacheEntry>

    constructor ()
      ensures currentStates == map[]
    {
      currentStates := map[];
    }
  }

  /** `MutationLog`: one slob's log, read through a transaction that sees `log`. */
  class MutationLog<S> {
    const model: SlobModel<S>
    const keys: KeyLengths
    const objectId: Ids.ObjectId
    const stateCache: StateCache

    constructor (model: SlobModel<S>, keys: KeyLengths, objectId: Ids.ObjectId, stateCache: StateCache)
      ensures this.model == model && this.keys == keys && this.objectId == objectId && this.stateCache == stateCache
    {
      this.model := model;
      this.keys := keys;
      this.objectId := objectId;
      this.stateCache := stateCache;
    }

    /** `reconstruct(atVersion)`, as `Reconstruction` says. */
    method Reconstruct(log: Log, at: Option<int>) returns (r: Result<(S, nat)>)
      ensures r == Reconstruction(model, log, at)
    {
      var range := CheckRange(at, None);
      if range.Fail? {
        return Err(range.error);
      }
      var bound: nat := if at.Some? then at.value else |log.deltas|;
      var snapshotted := SnapshottedState(model, log, bound);
      if snapshotted.Err? {
        return Err(snapshotted.error);
      }
      var (s, start) := snapshotted.value;
      if at.Some? && at.value - start > IntMax {
        return Err(IllegalArgument);
      }
      var end := if bound < |log.deltas| then bound else |log.deltas|;
      var state := ApplyAll(model, s, log.deltas[start..end], PermanentFailure);
      if state.Err? {
        return Err(state.error);
      }
      if at.Some? && end < at.value {
        return Err(Runtime);
      }
      return Ok((state.value, end));
    }

    /** `prepareAppenderSlowCase`, as `SlowCase` says: a reverse read back to the snapshot, then the deltas applied in log order. */
    method PrepareSlowCase(log: Log) returns (r: Result<Prepared<S>>)
      ensures r == SlowCase(model, keys, log)
    {
      var n := |log.deltas|;
      if n == 0 {
        var created := CreateObject(model, 0, None);
        if created.Err? {
          return Err(created.error);
        }
        return Ok(Prepared(created.value.0, 0, 0, 0, []));
      }
      var snapshotted := SnapshottedState(model, log, n);
      if snapshotted.Err? {
        return Err(snapshotted.error);
      }
      var (s, sv) := snapshotted.value;
      var latest := LatestSnapshot(log.snapshots, n);
      var snapshotBytes := if latest.None? then 0 else SnapshotSize(keys, SnapshotEntry(latest.value, log.snapshots[latest.value]));
      if sv == n {
        return Ok(Prepared(s, n, snapshotBytes, 0, [log.deltas[n - 1]]));
      }
      var reverse, total := ReadBack(keys, log.deltas, sv);
      ReversedTwice(log.deltas[sv..]);
      var state := ApplyAll(model, s, Reversed(reverse), Runtime);
      if state.Err? {
        return Err(state.error);
      }
      return Ok(Prepared(state.value, n, snapshotBytes, total, reverse));
    }

    /**
     * `prepareAppender`: a cached entry that is no longer current is evicted; the appender
     * starts where `Prepare` says, with nothing staged.
     */
    method PrepareAppender(log: Log) returns (r: Result<(Appender<S>, seq<Delta>)>)
      modifies stateCache
      ensures var cached := if objectId in old(stateCache.currentStates) then Some(old(stateCache.currentStates)[objectId]) else None;
        var p := Prepare(model, keys, log, cached);
        (r.Ok? <==> p.Ok?)
        && (r.Ok? ==>
              var a := r.value.0;
              fresh(a) && a.Valid() && !a.finished && a.model == model && a.keys == keys
              && a.state == p.value.state && a.version == p.value.version && a.base == a.state && a.baseVersion == a.version
              && a.staged == Staged([], [], 0, p.value.mostRecentSnapshotBytes, p.value.totalDeltaBytesSinceSnapshot)
              && r.value.1 == p.value.reverseDeltasRead)
        && stateCache.currentStates
           == if cached.Some? && CacheValid(|log.deltas|, cached.value.version) == Ok(false)
              then old(stateCache.currentStates) - {objectId} else old(stateCache.currentStates)
    {
      var p: Result<Prepared<S>>;
      if objectId in stateCache.currentStates {
        var c := stateCache.currentStates[objectId];
        var valid := CacheValid(|log.deltas|, c.version);
        if valid.Err? {
          return Err(valid.error);
        }
        if valid.value {
          var created := CreateObject(model, c.version, c.snapshot);
          if created.Err? {
            return Err(created.error);
          }
          p := Ok(Prepared(created.value.0, created.value.1, c.mostRecentSnapshotBytes, c.totalDeltaBytesSinceSnapshot, []));
        } else {
          stateCache.currentStates := stateCache.currentStates - {objectId};
          p := PrepareSlowCase(log);
        }
      } else {
        p := PrepareSlowCase(log);
      }
      if p.Err? {
        return Err(p.error);
      }
      var a := new Appender(model, keys, p.value.state, p.value.version, p.value.mostRecentSnapshotBytes,
                            p.value.totalDeltaBytesSinceSnapshot);
      return Ok((a, p.value.reverseDeltasRead));
    }

    /**
     * `finish` and the commit of its transaction: the log after `put`, and the cache entry the
     * after-commit hook stores for the object.
     */
    method Commit(log: Log, a: Appender<S>) returns (r: Result<Log>)
      requires a.Valid() && a.model == model && a.keys == keys
      requires a.baseVersion == |log.deltas|
      modifies a, stateCache
      ensures a.Valid()
      ensures old(a.finished) ==> r == Err(IllegalState) && unchanged(a) && unchanged(stateCache)
      ensures !old(a.finished) ==>
        r.Ok? && r.value == Put(log, old(a.staged.deltas), old(a.staged.snapshots))
        && stateCache.currentStates == old(stateCache.currentStates)[objectId :=
             CacheEntry(a.version, model.snapshot(a.state), a.staged.mostRecentSnapshotBytes, a.staged.totalDeltaBytesSinceSnapshot)]
    {
      ghost var c := a.staged;
      assert forall j | 0 <= j < |c.snapshots| :: SnapshotOf(model, a.base, Data(c.deltas), a.baseVersion, c.snapshots[j]);
      var written := a.Finish();
      if written.Err? {
        return Err(written.error);
      }
      var (es, ss, entry) := written.value;
      stateCache.currentStates := stateCache.currentStates[objectId := entry];
      return Ok(Put(log, es, ss));
    }
  }

  // ---------------------------------------------------------------------------------------
  // the current version

  /**
   * `getVersion` as written: the version of the newest delta, read off its datastore id, which is
   * one less than the version the log is at.
   */
  function GetVersionAsWritten(log: Log): int
  {
    if |log.deltas| == 0 then 0 else VersionFromDeltaId(DeltaIdFromVersion(|log.deltas| - 1))
  }

  /** `getVersion` as intended: the resulting version of the newest delta, which `reconstruct(null)` reaches. */
  function GetVersion(log: Log): (v: nat)
    ensures |log.deltas| > 0 ==> v == ResultingVersion(DeltaEntry(|log.deltas| - 1, log.deltas[|log.deltas| - 1]))
    ensures v == 0 <==> |log.deltas| == 0
  {
    if |log.deltas| == 0 then 0 else ResultingVersion(DeltaEntry(|log.deltas| - 1, log.deltas[|log.deltas| - 1]))
  }

  /**
   * As written, `getVersion` lags the log by one: a log with one delta reads as version 0, which
   * callers take for a slob that does not exist, while `reconstruct(null)` reaches version 1.
   */
  lemma GetVersionAsWrittenLags<S(!new)>(m: SlobModel<S>, log: Log)
    requires Restores(m) && Consistent(m, log)
    ensures |log.deltas| > 0 ==> GetVersionAsWritten(log) == GetVersion(log) - 1
    ensures |log.deltas| == 1 ==> GetVersionAsWritten(log) == 0 && Reconstruction(m, log, None) == Ok((StateAt(m, log, 1), 1))
  {
    ReconstructReplays(m, log, None);
  }

  /** On a consistent log the intended `getVersion` is the version `reconstruct(null)` rebuilds. */
  lemma GetVersionReconstructs<S(!new)>(m: SlobModel<S>, log: Log)
    requires Restores(m) && Consistent(m, log)
    ensures Reconstruction(m, log, None) == Ok((StateAt(m, log, GetVersion(log)), GetVersion(log)))
  {
    ReconstructReplays(m, log, None);
  }
}
