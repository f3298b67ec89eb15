/**
 * Queries over a table: a map from the auto-increment primary key (starting
 * at 1) to a row. `Select` is `find({ where, order: { id: 'DESC' } })` and
 * `FindOne` is `findOne({ where })`.
 */
module Table {

  import opened Envelope

  /** The keys in `[1, hi]` whose row satisfies `keep`, highest first. */
  function Select<R>(t: map<int, R>, hi: int, keep: R -> bool): (ks: seq<int>)
    ensures forall i :: 0 <= i < |ks| ==> ks[i] in t && 1 <= ks[i] <= hi && keep(t[ks[i]])
    ensures forall k :: k in t && 1 <= k <= hi && keep(t[k]) ==> k in ks
    ensures forall i, j :: 0 <= i < j < |ks| ==> ks[i] > ks[j]
    decreases hi
  {
    if hi < 1 then []
    else if hi in t && keep(t[hi]) then [hi] + Select(t, hi - 1, keep)
    else Select(t, hi - 1, keep)
  }

  /** The rows stored under the keys `ks`, each seen through `view`, in the same order. */
  function Project<R, S>(t: map<int, R>, ks: seq<int>, view: R -> S): (xs: seq<S>)
    requires forall i :: 0 <= i < |ks| ==> ks[i] in t
    ensures forall k :: k in ks ==> view(t[k]) in xs
  {
    var xs := seq(|ks|, i requires 0 <= i < |ks| => view(t[ks[i]]));
    assert forall k :: k in ks ==> view(t[k]) in xs by {
      forall k | k in ks ensures view(t[k]) in xs {
        var i :| 0 <= i < |ks| && ks[i] == k;
        assert xs[i] == view(t[k]);
      }
    }
    xs
  }

  /** The key of a row in `[1, hi]` satisfying `keep`, if there is one. */
  function FindOne<R>(t: map<int, R>, hi: int, keep: R -> bool): (k: Option<int>)
    ensures k.Some? ==> k.value in t && 1 <= k.value <= hi && keep(t[k.value])
    ensures k.None? ==> forall j :: j in t && 1 <= j <= hi ==> !keep(t[j])
  {
    var ks := Select(t, hi, keep);
    if |ks| == 0 then None else Some(ks[0])
  }
}
