/**
 * Slobs ("shared live objects"): the interface the server's mutation log needs from a model.
 * A slob is created from a snapshot (or from nothing), applies deltas one at a time and can be
 * snapshotted.
 */
module Slobs {
  import opened Wrappers

  /** `Delta<String>` (`ChangeData`): the client that sent it and its payload. */
  datatype Delta = Delta(clientId: string, payload: string)

  /**
   * `SlobModel` and `Slob`: `create(snapshot)` (`None` for no snapshot), `apply`, which fails
   * with `DeltaRejected` for a delta the slob refuses, and `snapshot` (`None` while the slob
   * holds nothing).
   */
  datatype SlobModel<!S> = SlobModel(create: Option<string> -> Result<S>, apply: (S, Delta) -> Result<S>,
                                    snapshot: S -> Option<string>)

  /** A model whose snapshots restore the slob they were taken of. */
  ghost predicate Restores<S(!new)>(m: SlobModel<S>)
  {
    forall s :: m.create(m.snapshot(s)) == Ok(s)
  }

  /** The deltas applied one after the other, stopping at the first failure. */
  function Replayed<S>(m: SlobModel<S>, s: S, ds: seq<Delta>): Result<S>
    decreases |ds|
  {
    if |ds| == 0 then Ok(s)
    else
      var next :- m.apply(s, ds[0]);
      Replayed(m, next, ds[1..])
  }

  /** The replay of `r` continued with `ds`. */
  function ReplayedFrom<S>(m: SlobModel<S>, r: Result<S>, ds: seq<Delta>): Result<S>
  {
    if r.Err? then r else Replayed(m, r.value, ds)
  }

  /** Replaying two runs of deltas is replaying the first and continuing with the second. */
  lemma {:induction false} ReplayedAppend<S>(m: SlobModel<S>, s: S, a: seq<Delta>, b: seq<Delta>)
    ensures Replayed(m, s, a + b) == ReplayedFrom(m, Replayed(m, s, a), b)
    decreases |a|
  {
    if |a| > 0 {
      assert (a + b)[0] == a[0] && (a + b)[1..] == a[1..] + b;
      var next := m.apply(s, a[0]);
      if next.Ok? {
        ReplayedAppend(m, next.value, a[1..], b);
      }
    } else {
      assert a + b == b;
    }
  }

  /** Replaying one more delta is applying it to the state the others replay to. */
  lemma ReplayedSnoc<S>(m: SlobModel<S>, s: S, a: seq<Delta>, d: Delta)
    ensures Replayed(m, s, a + [d]) == if Replayed(m, s, a).Err? then Replayed(m, s, a) else m.apply(Replayed(m, s, a).value, d)
  {
    ReplayedAppend(m, s, a, [d]);
    var r := Replayed(m, s, a);
    if r.Ok? {
      assert [d][0] == d && [d][1..] == [];
      var next := m.apply(r.value, d);
      if next.Ok? {
        assert Replayed(m, r.value, [d]) == Replayed(m, next.value, []);
      }
    }
  }
}
