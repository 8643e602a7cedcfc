/** `moveMarkers` (marker_tracker.py:239-295) as the code runs it: Blender tracks are objects whose marker
    history is updated in place, `points` is a list the call pops from, and `lost` is a local dict. Each
    method is proved to do what the corresponding function of MoveMarkersSpec computes. */
module MoveMarkers {
  import opened Common
  import opened Utils
  import opened MoveMarkersSpec

  /** A Blender `MovieTrackingTrack`: a fixed name and a marker history that is edited in place. */
  class Track {
    const name: string
    var markers: map<int, Marker>

    constructor (name: string, markers: map<int, Marker>)
      ensures this.name == name && this.markers == markers
    {
      this.name := name;
      this.markers := markers;
    }

    /** The track as a value. */
    function State(): TrackState
      reads this
    {
      TrackState(name, markers)
    }

    /** `markers.insert_frame(frame, co)` */
    method InsertMarker(frame: int, co: Point)
      modifies this
      ensures markers == InsertFrame(old(markers), frame, co)
    {
      markers := markers[frame := Marker(co, false)];
    }

    /** `mrk.mute = mute` on the marker of frame `f`, which the caller found with `find_frame`. */
    method SetMarkerMute(f: int, mute: bool)
      modifies this
      ensures markers == SetMute(old(markers), f, mute)
    {
      if f in markers {
        markers := markers[f := Marker(markers[f].co, mute)];
      }
    }
  }

  /** The Python list of detected points the call pops from. */
  class PointList {
    var items: seq<Point>

    constructor (items: seq<Point>)
      ensures this.items == items
    {
      this.items := items;
    }

    /** `points.pop(i)` */
    method Pop(i: nat) returns (p: Point)
      requires i < |items|
      modifies this
      ensures p == old(items)[i] && items == Remove(old(items), i)
    {
      p := items[i];
      items := items[..i] + items[i + 1..];
    }
  }

  /** The tracks as values, in order. */
  function Snapshot(tracks: seq<Track>): (r: seq<TrackState>)
    reads tracks
    ensures |r| == |tracks|
    ensures forall i :: 0 <= i < |tracks| ==> r[i] == tracks[i].State()
  {
    if tracks == [] then [] else Snapshot(tracks[..|tracks| - 1]) + [tracks[|tracks| - 1].State()]
  }

  /** When every track but the `k`-th is as in `before`, the snapshot is `before` with track `k` replaced. */
  lemma SnapshotAt(tracks: seq<Track>, k: nat, before: seq<TrackState>)
    requires k < |tracks| == |before|
    requires forall j :: 0 <= j < |tracks| && j != k ==> tracks[j].State() == before[j]
    ensures Snapshot(tracks) == before[k := tracks[k].State()]
  {
    assert forall j :: 0 <= j < |tracks| ==> Snapshot(tracks)[j] == before[k := tracks[k].State()][j];
  }

  /** The `while mrk == None` loop: tries `frame - ct` for `ct = 1, 2, ...` until a marker is found or the
      frame would go below 0. */
  method FindLastMarker(t: Track, frame: int) returns (f: Option<int>)
    ensures f == LastRecorded(t.markers, frame)
  {
    var ct := 1;
    f := None;
    while f == None
      invariant ct >= 1
      invariant f.None? ==> LastRecorded(t.markers, frame) == LastRecorded(t.markers, frame - ct + 1)
      invariant f.Some? ==> f == LastRecorded(t.markers, frame)
      decreases frame - ct + 1
    {
      if frame - ct < 0 {
        break;
      }
      if frame - ct in t.markers {
        f := Some(frame - ct);
      }
      ct := ct + 1;
    }
  }

  /** The active pass's `for i, p in enumerate(points)` loop, which breaks at the first point closer than `d`. */
  method FindFirstWithin(points: seq<Point>, pos: Point, d: real) returns (r: Option<nat>)
    ensures r == FirstWithin(points, pos, d)
  {
    r := None;
    var i := 0;
    while i < |points|
      invariant i <= |points|
      invariant FirstWithinFrom(points, pos, d, i) == FirstWithin(points, pos, d)
    {
      if Within(pos, points[i], d) {
        r := Some(i);
        return;
      }
      i := i + 1;
    }
  }

  /** `for k in keys: del lost[k]` */
  method DeleteLost(lost: LostDict, keys: seq<string>) returns (l: LostDict, error: Option<Error>)
    ensures Deletion(l, error) == DeleteKeys(lost, keys)
  {
    l := lost;
    var n := 0;
    while n < |keys|
      invariant n <= |keys|
      invariant DeleteKeys(l, keys[n..]) == DeleteKeys(lost, keys)
    {
      assert keys[n..][1..] == keys[n + 1..];
      if keys[n] !in l.entries {
        return l, Some(KeyError(keys[n]));
      }
      l := LostDict(Without(l.keys, keys[n]), l.entries - {keys[n]});
      n := n + 1;
    }
    return l, None;
  }

  /** The body of the active pass for track `k`: track `k` and `points` change as ActiveStep says, and the
      new `lost` and the exception are those of ActiveStep. */
  method ActiveTrack(tracks: seq<Track>, k: nat, points: PointList, lost: LostDict, frame: int, size: Size, d: real,
                     ghost s: Pass)
    returns (lost': LostDict, error: Option<Error>, ghost s': Pass)
    requires k < |tracks| && Distinct(tracks)
    requires Snapshot(tracks) == s.tracks && points.items == s.points && lost == s.lost && s.error.None?
    modifies tracks[k], points
    ensures s' == ActiveStep(s, k, frame, size, d)
    ensures Snapshot(tracks) == s'.tracks && points.items == s'.points && lost' == s'.lost && error == s'.error
  {
    var t := tracks[k];
    var t0 := s.tracks[k];
    assert t.State() == t0;
    lost', error, s' := lost, None, s;
    var f := FindLastMarker(t, frame);
    if f.None? {
      StepMissingResult(s, k, frame, size, d);
      error := Some(MissingHistory(k));
      s' := s.(error := error);
      return;
    }
    var mrk := t.markers[f.value];
    if mrk.mute {
      StepLostResult(s, k, frame, size, d);
      lost' := Put(lost, t.name, LostEntry(k, f.value, mrk.co));
      s' := s.(lost := lost');
      return;
    }
    var pos := SpaceToNormalized(mrk.co, size);
    var hit := FindFirstWithin(points.items, pos, d);
    if hit.None? {
      StepMuteResult(s, k, f.value, frame, size, d);
      t.SetMarkerMute(f.value, true);
      s' := s.(tracks := s.tracks[k := t0.(markers := SetMute(t0.markers, f.value, true))]);
    } else {
      StepFoundResult(s, k, f.value, hit.value, frame, size, d);
      var co := NormalizedToSpace(points.items[hit.value], size);
      if co.Err? {
        error := Some(co.error);
        s' := s.(error := error);
        return;
      }
      s' := s.(tracks := s.tracks[k := t0.(markers := InsertFrame(t0.markers, frame, co.value))],
               points := Remove(s.points, hit.value), taken := s.taken + [Assignment(k, s.points[hit.value])]);
      t.InsertMarker(frame, co.value);
      var _ := points.Pop(hit.value);
    }
    SnapshotAt(tracks, k, s.tracks);
  }

  /** The recovery pass's `for (i, p) in enumerate(points)` loop for the lost track named `name`: every point
      closer than `d` un-mutes the marker found, gets a new marker at `frame`, is popped and records `name`;
      the index still advances after a pop. */
  method RecoverTrack(tracks: seq<Track>, name: string, e: LostEntry, points: PointList, keys: seq<string>,
                      frame: int, size: Size, d: real, ghost s: Pass)
    returns (keys': seq<string>, error: Option<Error>, ghost s': Pass)
    requires Distinct(tracks) && e.track < |tracks|
    requires Snapshot(tracks) == s.tracks && points.items == s.points && s.hits == keys && s.error.None?
    modifies tracks[e.track], points
    ensures s' == Sweep(s, name, e, SpaceToNormalized(e.co, size), frame, size, d, 0)
    ensures Snapshot(tracks) == s'.tracks && points.items == s'.points && keys' == s'.hits && error == s'.error
  {
    var t := tracks[e.track];
    var pos := SpaceToNormalized(e.co, size);
    s', keys', error := s, keys, None;
    var i := 0;
    while i < |points.items|
      invariant |s'.tracks| == |tracks| && s'.error.None? && error.None?
      invariant Snapshot(tracks) == s'.tracks && points.items == s'.points && keys' == s'.hits
      invariant Sweep(s', name, e, pos, frame, size, d, i) == Sweep(s, name, e, pos, frame, size, d, 0)
      invariant forall j :: 0 <= j < |tracks| && j != e.track ==> s'.tracks[j] == s.tracks[j]
      decreases |points.items| - i
    {
      if Within(pos, points.items[i], d) {
        keys', error, s' := TakeForLost(tracks, name, e, points, i, keys', frame, size, d, s');
        if error.Some? {
          return;
        }
      } else {
        SweepMissStep(s', name, e, pos, frame, size, d, i);
      }
      i := i + 1;
    }
  }

  /** One hit of the recovery loop: point `i` is within `d` of the lost marker. */
  method TakeForLost(tracks: seq<Track>, name: string, e: LostEntry, points: PointList, i: nat, keys: seq<string>,
                     frame: int, size: Size, d: real, ghost s: Pass)
    returns (keys': seq<string>, error: Option<Error>, ghost s': Pass)
    requires Distinct(tracks) && e.track < |tracks| && i < |points.items|
    requires Within(SpaceToNormalized(e.co, size), points.items[i], d)
    requires Snapshot(tracks) == s.tracks && points.items == s.points && s.hits == keys && s.error.None?
    modifies tracks[e.track], points
    ensures Snapshot(tracks) == s'.tracks && points.items == s'.points && keys' == s'.hits && error == s'.error
    ensures forall j :: 0 <= j < |tracks| && j != e.track ==> s'.tracks[j] == s.tracks[j]
    ensures |s'.points| <= |s.points|
    ensures var pos := SpaceToNormalized(e.co, size);
      Sweep(s, name, e, pos, frame, size, d, i)
      == if error.Some? then s' else Sweep(s', name, e, pos, frame, size, d, i + 1)
  {
    var t := tracks[e.track];
    assert t.State() == s.tracks[e.track];
    t.SetMarkerMute(e.frame, false);
    var co := NormalizedToSpace(points.items[i], size);
    if co.Err? {
      error := Some(co.error);
      keys' := keys;
      s' := s.(tracks := s.tracks[e.track := Unmuted(s.tracks[e.track], e)], error := error);
    } else {
      t.InsertMarker(frame, co.value);
      var _ := points.Pop(i);
      keys', error := keys + [name], None;
      s' := HitState(s, name, e, frame, co.value, i);
      SweepHitStep(s, name, e, SpaceToNormalized(e.co, size), frame, size, d, i);
    }
    SnapshotAt(tracks, e.track, s.tracks);
  }

  /** The `for t in tracks` loop: the state it leaves is ActiveFrom's, from a call's start state. */
  method ActivePass(tracks: seq<Track>, points: PointList, frame: int, size: Size, d: real)
    returns (lost: LostDict, error: Option<Error>, ghost a: Pass)
    requires Distinct(tracks)
    modifies tracks, points
    ensures a == ActiveFrom(Start(old(Snapshot(tracks)), old(points.items)), 0, frame, size, d)
    ensures Snapshot(tracks) == a.tracks && points.items == a.points && lost == a.lost && error == a.error
    ensures a.hits == [] && LostRefs(a.lost, |a.tracks|)
  {
    ghost var s0 := Start(Snapshot(tracks), points.items);
    a := s0;
    assert DictWellFormed(s0.lost);
    lost, error := LostDict([], map[]), None;
    var k := 0;
    while k < |tracks|
      invariant k <= |tracks| && |a.tracks| == |tracks| && a.error.None? && error.None? && a.hits == []
      invariant Snapshot(tracks) == a.tracks && points.items == a.points && lost == a.lost
      invariant LostRefs(a.lost, |a.tracks|)
      invariant ActiveFrom(a, k, frame, size, d) == ActiveFrom(s0, 0, frame, size, d)
    {
      lost, error, a := ActiveTrack(tracks, k, points, lost, frame, size, d, a);
      if error.Some? {
        return;
      }
      k := k + 1;
    }
  }

  /** The `for k, vl in lost.items()` loop, which goes through `lost` in the order of `lost.keys`: the state it leaves
      is RecoverFrom's, with the recovered names in `keys`. */
  method RecoveryPass(tracks: seq<Track>, points: PointList, lost: LostDict, frame: int, size: Size, d: real,
                      ghost a: Pass)
    returns (keys: seq<string>, error: Option<Error>, ghost r: Pass)
    requires Distinct(tracks) && a.error.None? && a.hits == [] && LostRefs(a.lost, |a.tracks|)
    requires Snapshot(tracks) == a.tracks && points.items == a.points && lost == a.lost
    modifies tracks, points
    ensures r == RecoverFrom(a, 0, frame, size, d)
    ensures Snapshot(tracks) == r.tracks && points.items == r.points && keys == r.hits && error == r.error
  {
    r, keys, error := a, [], None;
    var j := 0;
    while j < |lost.keys|
      invariant j <= |lost.keys| && |r.tracks| == |tracks| && r.error.None? && error.None?
      invariant Snapshot(tracks) == r.tracks && points.items == r.points && lost == r.lost && keys == r.hits
      invariant LostRefs(r.lost, |r.tracks|)
      invariant RecoverFrom(r, j, frame, size, d) == RecoverFrom(a, 0, frame, size, d)
    {
      var name := lost.keys[j];
      var e := lost.entries[name];
      keys, error, r := RecoverTrack(tracks, name, e, points, keys, frame, size, d, r);
      if error.Some? {
        return;
      }
      j := j + 1;
    }
  }

  /** `moveMarkers(tracks, points, frame, size, d)`: the tracks, `points` and `lost` end as
      MoveMarkersModel says, and the call raises exactly the exception the model reports. */
  method MoveMarkers(tracks: seq<Track>, points: PointList, frame: int, size: Size, d: real)
    returns (lost: LostDict, error: Option<Error>)
    requires Distinct(tracks)
    modifies tracks, points
    ensures var r := MoveMarkersModel(old(Snapshot(tracks)), old(points.items), frame, size, d);
      Snapshot(tracks) == r.tracks && points.items == r.points && lost == r.lost && error == r.error
  {
    ghost var a;
    lost, error, a := ActivePass(tracks, points, frame, size, d);
    if error.None? && |points.items| > 0 {
      var keys;
      ghost var r;
      keys, error, r := RecoveryPass(tracks, points, lost, frame, size, d, a);
      if error.None? {
        lost, error := DeleteLost(lost, keys);
      }
    }
  }
}
