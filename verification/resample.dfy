/**
  The per-index resampling loop shared by the pose and the frame script, over an
  abstract item type: every target index consults the index mapping and either
  copies a boundary item or interpolates its two neighbours.
*/
module Resample {
  import opened IndexMap

  /**
    The item emitted for target index k.  The first-item branch of the scripts
    needs no case: Select never picks it.
  */
  function ItemAt<T>(items: seq<T>, m: nat, k: nat, interp: (T, T, real) -> T): (r: T)
    requires |items| > 0 && k < m
    ensures (k * |items|) / m >= |items| - 1 ==> r == items[|items| - 1]
    ensures (k * |items|) / m < |items| - 1 ==>
      var i := (k * |items|) / m;
      r == interp(items[i], items[i + 1], Weight(|items|, m, k))
  {
    match Select(|items|, m, k)
    case Last => items[|items| - 1]
    case Interpolate(i, alpha) => interp(items[i], items[i + 1], alpha)
  }

  /**
    Resample |items| items into exactly m items: clamped indices copy the last
    item unchanged, every other index interpolates its in-range neighbours.
  */
  function ResampleWith<T>(items: seq<T>, m: nat, interp: (T, T, real) -> T): (out: seq<T>)
    requires |items| > 0
    ensures |out| == m
    ensures forall k :: 0 <= k < m ==> out[k] == ItemAt(items, m, k, interp)
    ensures forall k :: 0 <= k < m && (k * |items|) / m >= |items| - 1 ==>
      out[k] == items[|items| - 1]
    ensures forall k :: 0 <= k < m && (k * |items|) / m < |items| - 1 ==>
      var i := (k * |items|) / m;
      out[k] == interp(items[i], items[i + 1], Weight(|items|, m, k))
  {
    seq(m, k requires 0 <= k < m => ItemAt(items, m, k, interp))
  }

  /**
    Resampling n items into n items returns the source unchanged, provided the
    interpolation returns its first operand at weight 0.
  */
  lemma ResampleSameCount<T>(items: seq<T>, interp: (T, T, real) -> T)
    requires |items| > 0
    requires forall a, b :: interp(a, b, 0.0) == a
    ensures ResampleWith(items, |items|, interp) == items
  {
    var out := ResampleWith(items, |items|, interp);
    forall k | 0 <= k < |items|
      ensures out[k] == items[k]
    {
      SameCountIsIdentity(|items|, k);
    }
  }
}
