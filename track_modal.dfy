/** `TrackMarkersModalOperator` (marker_tracker.py:372-438): on every timer event it advances the scene one
    frame and runs the move-markers operator on that frame, until the scene's end frame is reached. */
module TrackModal {
  import opened Common
  import opened Scenes

  class TrackMarkersModalOperator {
    var total: int
    var progress: real
    var start: int
    var current: int
    /** The frames `CLIP_OT_moveMarkers` was run on, in order (the frame it advanced the scene to). */
    ghost var tracked: seq<int>

    /** `invoke`: counts the frames from the current one to the end, inclusive; the scene is not touched. */
    constructor Invoke(scene: Scene)
      ensures total == scene.frameEnd - scene.frameCurrent + 1
      ensures progress == 0.0 && start == scene.frameCurrent && current == start && tracked == []
      ensures Valid(scene)
    {
      total := scene.frameEnd - scene.frameCurrent + 1;
      progress := 0.0;
      start := scene.frameCurrent;
      current := start;
      tracked := [];
    }

    /** The state of a run nobody else disturbs: `current` follows the scene's frame, `total` still counts
        to the scene's end frame, every frame after `start` up to the current one has been tracked, and the
        progress is that of the last step. */
    ghost predicate Valid(scene: Scene)
      reads this, scene
    {
      start <= current && current == scene.frameCurrent && total == scene.frameEnd - start + 1
      && tracked == Range(start + 1, current + 1)
      && (current == start ==> progress == 0.0)
      && (current > start ==> current <= scene.frameEnd && Progress(current - 1, start, total) == Ok(progress))
    }

    /** `modal`: ESC finishes, any other non-timer event passes through, a timer event at or past the end
        frame finishes; otherwise the scene advances one frame, that frame is tracked and the progress
        becomes `(current - start + 1) / total` before `current` advances. */
    method Modal(scene: Scene, event: EventType) returns (status: Status)
      modifies this, scene
      ensures event == Esc ==> status == Finished
      ensures event == Other ==> status == PassThrough
      ensures event != Timer || old(scene.frameCurrent) >= scene.frameEnd ==>
        unchanged(this) && unchanged(scene) && (event == Timer ==> status == Finished)
      ensures event == Timer && old(scene.frameCurrent) < scene.frameEnd ==>
        && scene.frameCurrent == old(scene.frameCurrent) + 1
        && scene.frameStart == old(scene.frameStart) && scene.frameEnd == old(scene.frameEnd)
        && tracked == old(tracked) + [scene.frameCurrent]
        && total == old(total) && start == old(start)
        && match Progress(old(current), start, total)
           case Err(e) => status == Raised(e) && progress == old(progress) && current == old(current)
           case Ok(p) => status == RunningModal && progress == p && current == old(current) + 1
      ensures old(Valid(scene)) ==> Valid(scene) && !status.Raised?
      ensures old(Valid(scene)) && status == RunningModal ==> 0.0 < progress < 1.0
      ensures old(Valid(scene)) && status == Finished && event == Timer && start <= scene.frameEnd ==>
        tracked == Range(start + 1, scene.frameEnd + 1)
    {
      if event == Esc {
        return Finished;
      } else if event != Timer {
        return PassThrough;
      }
      if scene.frameCurrent >= scene.frameEnd {
        return Finished;
      }
      // CLIP_OT_moveMarkers.execute advances the scene first and then moves the markers on that frame.
      scene.frameCurrent := scene.frameCurrent + 1;
      tracked := tracked + [scene.frameCurrent];
      var p := Progress(current, start, total);
      if p.Err? {
        return Raised(p.error);
      }
      progress := p.value;
      current := current + 1;
      status := RunningModal;
      if old(Valid(scene)) {
        RangeSnoc(start + 1, current);
        ProgressInside(current - 1, start, total);
      }
    }
  }
}
