/** `ConvertModalOperator` (sequence_converter.py:40-166): renders the clip one frame per timer event into
    numbered `capture<count>.png` files next to the clip's `convert_path`. */
module SequenceConverter {
  import opened Common
  import opened PyStr
  import opened Scenes

  /** The file a still is rendered to: the directory part of `convert_path` (up to and including its last
      backslash, nothing when there is none), then `capture`, the count zero-filled to 5 characters, and `.png`. */
  function CapturePath(convertPath: string, count: int): string {
    Before(convertPath, RFind(convertPath, '\\') + 1) + "capture" + ZFill(IntToStr(count), 5) + ".png"
  }

  /** The file goes into the directory of `convert_path`, up to and including its last backslash, or into
      the working directory when there is no backslash; its number is `count`, zero-filled to 5 digits
      below 100000. */
  lemma CapturePathDirectory(convertPath: string, count: nat, j: int)
    requires j == -1 ==> '\\' !in convertPath
    requires j != -1 ==> 0 <= j < |convertPath| && convertPath[j] == '\\' && '\\' !in convertPath[j + 1..]
    ensures CapturePath(convertPath, count) == convertPath[..j + 1] + "capture" + ZFill(IntToStr(count), 5) + ".png"
    ensures j == -1 ==> CapturePath(convertPath, count) == "capture" + ZFill(IntToStr(count), 5) + ".png"
    ensures var z := ZFill(IntToStr(count), 5);
      AllDigits(z) && DigitsValue(z) == count && (count < 100000 ==> |z| == 5)
  {
    CapturePathSplit(convertPath, count, j);
    CaptureNumber(count);
  }

  lemma CapturePathSplit(convertPath: string, count: int, j: int)
    requires j == -1 ==> '\\' !in convertPath
    requires j != -1 ==> 0 <= j < |convertPath| && convertPath[j] == '\\' && '\\' !in convertPath[j + 1..]
    ensures CapturePath(convertPath, count) == convertPath[..j + 1] + "capture" + ZFill(IntToStr(count), 5) + ".png"
  {
    if j != -1 {
      assert RFind(convertPath, '\\') == j;
    }
  }

  lemma CaptureNumber(count: nat)
    ensures var z := ZFill(IntToStr(count), 5);
      AllDigits(z) && DigitsValue(z) == count && (count < 100000 ==> |z| == 5)
  {
    assert Pow10(5) == 100000;
    ZFillNat(count, 5);
  }

  /** Different counts give different files, so no capture overwrites another. */
  lemma CapturePathsDistinct(convertPath: string, m: nat, n: nat)
    requires m != n
    ensures CapturePath(convertPath, m) != CapturePath(convertPath, n)
  {
    var p := Before(convertPath, RFind(convertPath, '\\') + 1) + "capture";
    var zm, zn := ZFill(IntToStr(m), 5), ZFill(IntToStr(n), 5);
    ZFillNat(m, 5);
    ZFillNat(n, 5);
    assert CapturePath(convertPath, m) == p + zm + ".png";
    assert CapturePath(convertPath, n) == p + zn + ".png";
    if p + zm + ".png" == p + zn + ".png" {
      SameFrameSameMiddle(p, zm, zn, ".png");
      assert false;
    }
  }

  /** Two strings with the same prefix and suffix that are equal have equal middles. */
  lemma SameFrameSameMiddle(p: string, a: string, b: string, q: string)
    requires p + a + q == p + b + q
    ensures a == b
  {
    var s := p + a + q;
    assert |a| == |b|;
    assert s[|p|..|p| + |a|] == a;
    assert (p + b + q)[|p|..|p| + |b|] == b;
  }

  /** The movie clip being converted: `convert_path` is where the user wants the images, `current_path`
      is where the render operator writes the next one. */
  class MovieClip {
    var convertPath: string
    var currentPath: string

    constructor (convertPath: string, currentPath: string)
      ensures this.convertPath == convertPath && this.currentPath == currentPath
    {
      this.convertPath := convertPath;
      this.currentPath := currentPath;
    }
  }

  /** One still rendered by `CLIP_OT_ToSequence`: the work scene's frame and the capture number of the file
      it was written to, which is `CapturePath(convert_path, number)`. */
  datatype Shot = Shot(frame: int, number: int)

  class ConvertModalOperator {
    var count: int
    var total: int
    var progress: real
    var start: int
    var current: int
    const clip: MovieClip
    /** The scene that was active at `invoke`, and the `ConvertStuff` scene made to render from. */
    const defaultScene: Scene
    const workScene: Scene
    /** The stills rendered so far, in order. */
    ghost var rendered: seq<Shot>

    /** `invoke`: rewinds the active scene to its start frame, makes a work scene with the same range at its
        start frame, and counts the frames from the start to the end, inclusive. */
    constructor Invoke(scene: Scene, clip: MovieClip)
      modifies scene
      ensures scene.frameCurrent == old(scene.frameStart)
      ensures scene.frameStart == old(scene.frameStart) && scene.frameEnd == old(scene.frameEnd)
      ensures defaultScene == scene && this.clip == clip && fresh(workScene)
      ensures workScene.frameStart == scene.frameStart && workScene.frameEnd == scene.frameEnd
      ensures workScene.frameCurrent == scene.frameStart
      ensures count == 1 && total == scene.frameEnd - scene.frameStart + 1 && progress == 0.0
      ensures start == scene.frameStart && current == start && rendered == []
      ensures Valid()
    {
      count := 1;
      this.clip := clip;
      defaultScene := scene;
      workScene := new Scene(scene.frameStart, scene.frameEnd, scene.frameStart);
      total := scene.frameEnd - scene.frameStart + 1;
      progress := 0.0;
      start := scene.frameStart;
      current := start;
      rendered := [];
      new;
      scene.frameCurrent := scene.frameStart;
    }

    /** The state of a conversion nobody else disturbs: `current` follows the work scene's frame, the
        count is one more than the stills rendered, still `i` shows frame `start + i` and went to capture
        number `i + 1`, and the progress is that of the last step. */
    ghost predicate Valid()
      reads this, workScene, clip
    {
      start <= current && current == workScene.frameCurrent && total == workScene.frameEnd - start + 1
      && count == current - start + 1 && |rendered| == current - start
      && (forall i :: 0 <= i < |rendered| ==> rendered[i] == Shot(start + i, i + 1))
      && (current == start ==> progress == 0.0)
      && (current > start ==> current <= workScene.frameEnd && Progress(current - 1, start, total) == Ok(progress))
    }

    /** `modal`, on the work scene: ESC finishes, any other non-timer event passes through, a timer event at
        or past the end frame finishes without rendering; otherwise the frame is rendered to the next
        capture file, and the frame, the count and the progress advance. */
    method Modal(event: EventType) returns (status: Status)
      modifies this, workScene, clip
      ensures event == Esc ==> status == Finished
      ensures event == Other ==> status == PassThrough
      ensures event != Timer || old(workScene.frameCurrent) >= workScene.frameEnd ==>
        unchanged(this) && unchanged(workScene) && unchanged(clip) && (event == Timer ==> status == Finished)
      ensures event == Timer && old(workScene.frameCurrent) < workScene.frameEnd ==>
        var path := CapturePath(old(clip.convertPath), old(count));
        && clip.convertPath == old(clip.convertPath) && clip.currentPath == path
        && rendered == old(rendered) + [Shot(old(workScene.frameCurrent), old(count))]
        && workScene.frameCurrent == old(workScene.frameCurrent) + 1
        && workScene.frameStart == old(workScene.frameStart) && workScene.frameEnd == old(workScene.frameEnd)
        && count == old(count) + 1 && total == old(total) && start == old(start)
        && match Progress(old(current), start, total)
           case Err(e) => status == Raised(e) && progress == old(progress) && current == old(current)
           case Ok(p) => status == RunningModal && progress == p && current == old(current) + 1
      ensures old(Valid()) ==> Valid() && !status.Raised?
      ensures old(Valid()) && status == RunningModal ==> 0.0 < progress < 1.0
      ensures old(Valid()) && status == Finished && event == Timer && start <= workScene.frameEnd ==>
        |rendered| == workScene.frameEnd - start
        && (forall i :: 0 <= i < |rendered| ==> rendered[i].frame == start + i)
        && (forall i :: 0 <= i < |rendered| ==> rendered[i].frame != workScene.frameEnd)
    {
      if event == Esc {
        return Finished;
      } else if event != Timer {
        return PassThrough;
      }
      if workScene.frameCurrent >= workScene.frameEnd {
        return Finished;
      }
      var path := CapturePath(clip.convertPath, count);
      clip.currentPath := path;
      rendered := rendered + [Shot(workScene.frameCurrent, count)];
      workScene.frameCurrent := workScene.frameCurrent + 1;
      count := count + 1;
      var p := Progress(current, start, total);
      if p.Err? {
        return Raised(p.error);
      }
      progress := p.value;
      current := current + 1;
      status := RunningModal;
      if old(Valid()) {
        ProgressInside(current - 1, start, total);
      }
    }

    /** Under Valid no two stills went to the same file. */
    lemma RenderedPathsDistinct()
      requires Valid()
      ensures forall i, j :: 0 <= i < j < |rendered| ==>
        CapturePath(clip.convertPath, rendered[i].number) != CapturePath(clip.convertPath, rendered[j].number)
    {
      forall i, j | 0 <= i < j < |rendered|
        ensures CapturePath(clip.convertPath, rendered[i].number) != CapturePath(clip.convertPath, rendered[j].number)
      {
        var m, n := rendered[i].number, rendered[j].number;
        assert m == i + 1 && n == j + 1;
        CapturePathsDistinct(clip.convertPath, m, n);
      }
    }
  }
}
