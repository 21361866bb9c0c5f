/**
 * The editor's length scale `pixels_per_unit`: how many canvas pixels one unit of edge weight
 * stands for. It starts unset; the first ADD_EDGE with a positive weight fixes it so that this
 * weight is drawn 150 pixels long, and the two loaders recompute it from all their weights.
 */
module Scale {
  import opened Wrappers

  /** The pixel length a calibrating weight is drawn at. */
  const ReferencePixels: real := 150.0

  /** The scale a loader falls back to when no weight is positive. */
  const DefaultScale: real := 100.0

  /** ADD_EDGE's calibration: only an unset scale changes, and only for a positive weight. */
  function Calibrate(scale: Option<real>, w: real): (r: Option<real>)
    ensures scale.Some? ==> r == scale
    ensures scale.None? ==> (r.Some? <==> 0.0 < w)
    ensures scale.None? && r.Some? ==> r.value * w == ReferencePixels && 0.0 < r.value
  {
    if scale.None? && 0.0 < w then Some(ReferencePixels / w) else scale
  }

  /** The first positive weight of `ws`, if any: the loaders' `first_weight`. */
  function FirstPositive(ws: seq<real>): (r: Option<real>)
    ensures r.None? <==> forall i :: 0 <= i < |ws| ==> ws[i] <= 0.0
    ensures r.Some? ==>
      exists i :: 0 <= i < |ws| && ws[i] == r.value && 0.0 < ws[i] &&
        forall j :: 0 <= j < i ==> ws[j] <= 0.0
  {
    if |ws| == 0 then None
    else if 0.0 < ws[0] then Some(ws[0])
    else
      var rest := FirstPositive(ws[1..]);
      assert forall i :: 1 <= i < |ws| ==> ws[i] == ws[1..][i - 1];
      rest
  }

  /** The scale a loader sets: 150 over the first positive weight, otherwise the default. */
  function LoadScale(ws: seq<real>): (r: real)
    ensures 0.0 < r
    ensures FirstPositive(ws).Some? ==> r * FirstPositive(ws).value == ReferencePixels
    ensures FirstPositive(ws).None? ==> r == DefaultScale
  {
    match FirstPositive(ws)
    case Some(w) => ReferencePixels / w
    case None => DefaultScale
  }

  /** The scale after a series of ADD_EDGE calibrations with weights `ws`, in order. */
  function CalibrateAll(scale: Option<real>, ws: seq<real>): (r: Option<real>)
    ensures scale.Some? ==> r == scale
    decreases |ws|
  {
    if |ws| == 0 then scale else CalibrateAll(Calibrate(scale, ws[0]), ws[1..])
  }

  /**
   * Drawing edges one by one from an unset scale calibrates on the same weight a loader picks:
   * the first positive one. With no positive weight the scale stays unset, where a loader
   * would use the default.
   */
  lemma {:induction false} CalibrateAllIsFirstPositive(ws: seq<real>)
    ensures CalibrateAll(None, ws).Some? <==> FirstPositive(ws).Some?
    ensures CalibrateAll(None, ws).Some? ==> CalibrateAll(None, ws).value == LoadScale(ws)
  {
    if |ws| > 0 && ws[0] <= 0.0 {
      CalibrateAllIsFirstPositive(ws[1..]);
      assert FirstPositive(ws) == FirstPositive(ws[1..]);
    }
  }
}
