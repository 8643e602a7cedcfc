/** What the two modal operators share: the Blender scene's frame range and playhead, the events a modal
    operator receives and the status it answers with. */
module Scenes {
  import opened Common

  /** A Blender scene: the frame range `frameStart .. frameEnd` and the current frame. */
  class Scene {
    var frameStart: int
    var frameEnd: int
    var frameCurrent: int

    constructor (frameStart: int, frameEnd: int, frameCurrent: int)
      ensures this.frameStart == frameStart && this.frameEnd == frameEnd && this.frameCurrent == frameCurrent
    {
      this.frameStart := frameStart;
      this.frameEnd := frameEnd;
      this.frameCurrent := frameCurrent;
    }
  }

  /** The `event.type` values the operators tell apart. */
  datatype EventType = Esc | Timer | Other

  /** The set a modal method returns, or the exception it raises. */
  datatype Status = Finished | PassThrough | RunningModal | Raised(error: Error)

  /** The integers `lo, lo + 1, ..., hi - 1`. */
  function Range(lo: int, hi: int): (r: seq<int>)
    decreases hi - lo
    ensures |r| == if hi <= lo then 0 else hi - lo
    ensures forall i :: 0 <= i < |r| ==> r[i] == lo + i
  {
    if hi <= lo then [] else [lo] + Range(lo + 1, hi)
  }

  /** Ranges that meet are joined by appending the next integer. */
  lemma RangeSnoc(lo: int, hi: int)
    requires lo <= hi
    ensures Range(lo, hi + 1) == Range(lo, hi) + [hi]
  {
    assert Range(lo, hi + 1) == Range(lo, hi) + [hi] by {
      var a, b := Range(lo, hi + 1), Range(lo, hi) + [hi];
      assert |a| == |b|;
      forall i | 0 <= i < |a| ensures a[i] == b[i] { }
    }
  }

  /** `(current - start + 1) / total` with Python's true division: a ZeroDivisionError when `total` is 0. */
  function Progress(current: int, start: int, total: int): (r: Result<real>)
    ensures r.Err? <==> total == 0
    ensures r.Ok? ==> r.value * total as real == (current - start + 1) as real
  {
    if total == 0 then Err(ZeroDivision) else Ok((current - start + 1) as real / total as real)
  }

  /** A step that is not the last of `total` leaves the progress strictly between 0 and 1. */
  lemma ProgressInside(current: int, start: int, total: int)
    requires start <= current && current - start + 1 < total
    ensures Progress(current, start, total).Ok? && 0.0 < Progress(current, start, total).value < 1.0
  {
  }
}
