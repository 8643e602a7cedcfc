# marker-tracking, modelled in Dafny

The marker-tracking Blender addon follows coloured markers through a movie clip. It finds clusters of
the marker colour in each frame and moves every Blender tracking marker to the first detected point close
enough to its last known position. A marker that finds no point is muted. Later it can recover a point
that is still unassigned.

This project models the computational core of the addon and proves properties about it. It covers:

- `moveMarkers`, the per-frame matching, in two forms (marker_tracker.py:239-295):
  - `MoveMarkersSpec`, a function on values. Its active pass goes over the tracks. Its recovery pass
    goes over the `lost` dict in insertion order, which the model assumes for `lost.items()` (see
    "## Left out"). The exceptions the code raises are results, and the
    state is kept as it was when Python raised. A `KeyError` from the final deletions leaves `lost`
    with the keys before the failing one already deleted.
  - `MoveMarkers`, as the code runs it. `Track` objects have their marker history edited in place,
    `points` is a list that the call pops from, and `lost` is a local dict. Every method is proved to
    leave exactly the state that `MoveMarkersSpec.MoveMarkersModel` computes.
- The geometry of utils.py:
  - `dist`, stated as a squared distance;
  - the two coordinate conversions;
  - `ScenarioManager.remove_at_end`.
- The pure parts of marker_tracker.py (module `MarkerGeometry`):
  - the cluster filter of `getPoints`;
  - `set_marker_search_area`;
  - the pattern corners of `assignMarkers`;
  - the image-sequence frame path of `get_frame_image`.
- The two timer-driven modal operators, as classes whose `Modal` method is one event step:
  - `TrackMarkersModalOperator` (module `TrackModal`);
  - `ConvertModalOperator` (module `SequenceConverter`), with its `capture` file names.
- The few Python `str` built-ins these rely on (module `PyStr`): `find`, `rfind`, negative slice
  bounds, `str(int)` and `zfill`.

Some behaviour of the code is easy to misread; the model follows the code:

- **Missing history.** A track with no marker before `frame` is not reported and skipped. `mrk` stays
  `None`, so `mrk.mute` raises `AttributeError` and the whole call stops (`Error.MissingHistory`).
- **Muted markers count in the history search.** The backward search takes the last recorded marker,
  muted or not. A muted one files the track in `lost`.
- **Muting.** An unmatched active track is muted at the frame its last marker was found on. Nothing is
  recorded at the new frame.
- **The recovery loop does not stop at the first hit.** For a lost track it takes every point in reach
  that it looks at. It pops each one while `enumerate` keeps counting, so the point after a popped one
  is skipped (`RecoverySkipsEveryOther`). The track's name is appended once per hit. A name appended
  twice makes the final `del lost[k]` raise `KeyError` (`KeyErrorIffRecordedTwice`,
  `LostTrackWithThreePointsRaises`).
- **Capture file names have five digits.** The converter's docstring says `capture0001`, but the code
  zero-fills the count to 5 digits, so the first file is `capture00001.png`.
- **The converter does not render the end frame.** It stops as soon as the work scene reaches
  `frame_end`, so it renders `frame_start .. frame_end - 1`.
- **The tracker does handle the end frame.** It advances the scene before it tracks, so it handles
  `start + 1 .. frame_end`.

Coordinates and sizes are `real`. Python's `/` is true division. A zero image dimension, which Python
answers with `ZeroDivisionError`, is the `Error.ZeroDivision` result.

## Model

| member | source | states |
|---|---|---|
| Utils.DistBelowIffWithin | utils.py:23-31 | for any non-negative root `r` of the squared distance, `r < d` holds exactly when `Within(p, q, d)`, so `dist(p, q) < d` is modelled without a square root |
| Utils.DistSymmetricAndZero | utils.py:23-31 | the squared distance is symmetric, non-negative and 0 from a point to itself; `Within` is symmetric |
| Utils.NormalizedToSpace | utils.py:33-41 | fails with ZeroDivision exactly when a dimension is 0; otherwise `x * w` is the pixel column and `y * h` is `h` minus the pixel row |
| Utils.PixelRoundTrip | utils.py:33-45 | on a non-zero size, pixels to clip space and back is the identity |
| Utils.SpaceToNormalized | utils.py:43-45 | `space_to_normalized` is the inverse of `normalized_to_space`: on a non-zero size, converting its pixel location back gives `Ok` of the clip-space point it started from |
| Utils.NormalizedToSpaceOrientation | utils.py:33-41 | on a positive size, the top-left pixel corner maps to (0, 1) and the bottom-right to (1, 0); x keeps its order and y is reversed |
| Utils.ScenarioManager.RemoveAtEnd | utils.py:210-211 | the list under `kind` gets `item` appended, and is started when the key is absent; every other key and its list are unchanged |
| MarkerGeometry.KeptIndices | marker_tracker.py:121-132 | the indices of the regions that pass the count and height tests: all in range, all kept, increasing, and every kept region is listed |
| MarkerGeometry.KeptCentresAreKeptRegions | marker_tracker.py:121-132 | the filter emits one point per kept region, in region order: the `j`-th point is the box centre of the `j`-th kept region |
| MarkerGeometry.ClusterPoints | marker_tracker.py:121-132 | the loop over the regions appends exactly the centres of the kept regions, in order |
| MarkerGeometry.SearchArea | marker_tracker.py:207-213 | fails with ZeroDivision exactly on a zero dimension, which the default `img = (0, 0)` has; `search_max` is `-search_min`, and `search_min` times twice the dimension is `-sz` |
| MarkerGeometry.SearchAreaSpansSize | marker_tracker.py:207-213 | for a positive size on a real clip, the box is centred on the marker and spans `sz` pixels on each axis |
| MarkerGeometry.PatternRatio | marker_tracker.py:221-222 | fails with ZeroDivision exactly on a zero clip dimension; otherwise each ratio times its dimension is `pattern_size` |
| MarkerGeometry.PlaceCorners | marker_tracker.py:221-234 | on a zero dimension it reports ZeroDivision and writes no corner; otherwise corner `i` is the ratios times the `i`-th sign pair |
| MarkerGeometry.PatternCornersCounterClockwise | marker_tracker.py:221-234 | for a positive pattern size, the corners run counter-clockwise from the bottom left in the four quadrants, opposite corners are mirror images, and the pattern is `2 * pattern_size` pixels wide and high |
| MarkerGeometry.FramePathSplices | marker_tracker.py:200-205 | with a first '0' at `i` and a last '.' at `j`, the path is `filepath[:i]`, then the zero-filled frame, then `filepath[j:]`; for a frame in 0..99999 the middle is 5 digits reading back as the frame |
| MarkerGeometry.FramePathMissingMarks | marker_tracker.py:202-203 | with no '0', `find` gives -1 and the base drops only the last character; with no '.', the suffix is only the last character |
| MarkerGeometry.FramePathZeroInDirectory | marker_tracker.py:202 | the first '0' of the whole path is used, so frame 42 of `D:\v10\shot00001.png` is looked for at `D:\v100042.png` |
| MoveMarkersSpec.Put | marker_tracker.py:264 | `lost[k] = v` keeps the dict well formed, maps `k` to `v` and only ever appends to the key order |
| MoveMarkersSpec.Remove | marker_tracker.py:274 | `list.pop(i)` leaves one element fewer, shifts the later ones down by one and removes exactly that element from the multiset |
| MoveMarkersSpec.LastRecorded | marker_tracker.py:252-261 | the backward search finds the recorded frame closest below `frame`, with nothing recorded in between; it finds none when no frame in `0 .. frame - 1` is recorded |
| MoveMarkersSpec.FirstWithin | marker_tracker.py:269-275 | the first point strictly within `d`, with no earlier point within `d`; none when no point is within `d` |
| MoveMarkersSpec.ActiveStep | marker_tracker.py:252-278 | the body of `for t in tracks` for track `k` changes no other track, keeps the track's name, records no recovered name and keeps every `lost` entry pointing at an existing track |
| MoveMarkersSpec.StepMissingResult | marker_tracker.py:256-264 | a track with no recorded marker below `frame` stops the call with MissingHistory and changes nothing else |
| MoveMarkersSpec.StepLostResult | marker_tracker.py:264-266 | a track whose last marker is muted is filed in `lost` under its name, with that frame and location, and nothing else changes |
| MoveMarkersSpec.StepFoundResult | marker_tracker.py:269-275 | when the last marker is enabled and point `i` is the first in reach, the track gets an enabled marker at `frame` on point `i` converted to clip space, point `i` is popped and the assignment recorded; on a zero-sized image the call raises ZeroDivision instead and nothing changes |
| MoveMarkersSpec.StepMuteResult | marker_tracker.py:276-278 | when the last marker is enabled and no point is in reach, only that marker of the track becomes muted |
| MoveMarkersSpec.ActivePassOutcome | marker_tracker.py:252-278 | when the active pass returns, each track is in one of three cases: its found marker was muted, so it is in `lost` and unchanged; it took a point in reach (which one is StepFoundResult's first fit) and has a new enabled marker there at `frame`; or it is muted at its last frame and no remaining point is in reach. No track takes two points, and `lost` holds only tracks that were muted already. When it raises, the cause is a track with no earlier marker or a hit on a zero-sized image |
| MoveMarkersSpec.ActivePassMutedAreNotLost | marker_tracker.py:262-278 | a track that the active pass mutes is never filed in `lost` in the same call |
| MoveMarkersSpec.ActivePassZeroSizeTakesNothing | marker_tracker.py:269-275 | on a zero-sized image, an active pass that returns took no point and left `points` as given |
| MoveMarkersSpec.MoveMarkersConservesPoints | marker_tracker.py:239-295 | the points left plus the points assigned are, as a multiset, exactly the points the call was given |
| MoveMarkersSpec.Sweep | marker_tracker.py:286-291 | the inner loop for one lost track changes no other track and no track's name, and leaves `lost` alone |
| MoveMarkersSpec.SweepFacts | marker_tracker.py:286-291 | a sweep only appends assignments of the lost track to points within `d` of its marker, one recorded name each; unless it raised, a track that took nothing is unchanged and one that took points has its lost marker enabled and a marker at `frame` on the last point it took; it can raise only ZeroDivision, on a zero-sized image |
| MoveMarkersSpec.RecoverFrom | marker_tracker.py:283-291 | the loop over `lost.items()`, taken in insertion order (an assumption of the model), keeps the number of tracks and does not change `lost` itself |
| MoveMarkersSpec.MoveMarkersModel | marker_tracker.py:239-295 | the whole call as a function of its inputs keeps the number of tracks; MoveMarkers.MoveMarkers is proved to compute it, and the lemmas of this table about the call describe it |
| MoveMarkersSpec.RecoveryOutcome | marker_tracker.py:281-293 | the recovery pass runs only when points are left, otherwise the call ends in the active pass's state; when it runs, the call ends RecoveredFrom the active pass: the `m`-th recorded name is a lost track that took the `m`-th recovered point, which was within `d` of its muted marker; unless the pass raised, a lost track that took no point is unchanged, and one that took points has its lost marker enabled again and, at `frame`, an enabled marker on the last point it took, converted to clip space; a track not in `lost` comes out unchanged |
| MoveMarkersSpec.DeleteKeysSpec | marker_tracker.py:292-293 | the deletions succeed exactly when the keys are distinct and all present, and then the dict has lost exactly those keys; otherwise they raise KeyError on a key `ks[i]` missing once the keys before it are deleted, and the dict has lost exactly those earlier keys; it stays well formed either way |
| MoveMarkersSpec.KeyErrorIffRecordedTwice | marker_tracker.py:281-293 | after both passes return, the call raises exactly when a lost track's name was recorded twice, and the error is a KeyError; otherwise `lost` ends without the recovered names; when it raises, `lost` has already lost the names recorded before the failing one |
| MoveMarkersSpec.RecoverySkipsEveryOther | marker_tracker.py:286-291 | a lost track with every point in reach takes the points at even positions, leaves those at odd positions and records its name once per hit |
| MoveMarkersSpec.FirstFitNotNearest | marker_tracker.py:269-278 | of two enabled tracks and one point in reach of the first, the first takes it whatever the second's distance, and the second is muted |
| MoveMarkersSpec.LostTrackWithThreePointsRaises | marker_tracker.py:281-293 | a track already lost with three points in reach makes the call raise KeyError on its name |
| MoveMarkers.FindLastMarker | marker_tracker.py:254-261 | the `while mrk == None` loop returns the frame LastRecorded gives, or none |
| MoveMarkers.FindFirstWithin | marker_tracker.py:269-275 | the active pass's loop returns the index FirstWithin gives |
| MoveMarkers.DeleteLost | marker_tracker.py:292-293 | the `del` loop reproduces DeleteKeys, including its KeyError and the keys already deleted when it raises |
| MoveMarkers.Track.InsertMarker | marker_tracker.py:272 | `insert_frame` puts an enabled marker at `frame` and changes nothing else |
| MoveMarkers.Track.SetMarkerMute | marker_tracker.py:278 | `mrk.mute = ...` changes only the mute flag of that frame's marker |
| MoveMarkers.PointList.Pop | marker_tracker.py:274 | `points.pop(i)` returns the `i`-th point and leaves the list without it |
| MoveMarkers.ActiveTrack | marker_tracker.py:252-278 | one track of the active pass leaves the tracks, `points`, `lost` and the exception exactly as ActiveStep says |
| MoveMarkers.ActivePass | marker_tracker.py:252-278 | the loop over the tracks leaves the tracks, `points`, `lost` and the exception exactly as ActiveFrom says, with no recorded name and every `lost` entry pointing at a track |
| MoveMarkers.TakeForLost | marker_tracker.py:287-291 | one hit of the recovery loop changes only the lost track and `points`, never lengthens `points`, and leaves the sweep from here equal to the sweep from the next index of the new state, or stops it at the exception |
| MoveMarkers.RecoveryPass | marker_tracker.py:283-291 | the loop over `lost.items()`, taken in insertion order (an assumption of the model), leaves the tracks, `points`, the recorded names and the exception exactly as RecoverFrom says |
| MoveMarkers.RecoverTrack | marker_tracker.py:284-291 | one lost track of the recovery pass leaves the tracks, `points`, the recorded names and the exception as Sweep says |
| MoveMarkers.MoveMarkers | marker_tracker.py:239-295 | the whole call leaves the tracks, `points` and `lost`, and raises the exception, exactly as MoveMarkersModel says |
| PyStr.Find | marker_tracker.py:202 | `str.find` gives -1 exactly when the character is absent, and otherwise an index holding it with no earlier occurrence |
| PyStr.RFind | sequence_converter.py:95 | `str.rfind` gives -1 exactly when the character is absent, and otherwise an index holding it with no later occurrence |
| PyStr.ZFillNat | sequence_converter.py:95-96 | `str(n).zfill(w)` of a natural number is all digits, reads back as `n`, is at least `w` long and at least as long as `str(n)`, and is exactly `w` long when `n < 10^w` |
| Scenes.Progress | marker_tracker.py:412 | `(current - start + 1) / total` raises ZeroDivision exactly when `total` is 0; otherwise the result times `total` is `current - start + 1` |
| Scenes.ProgressInside | sequence_converter.py:104 | a step before the last one of `total` gives a progress strictly between 0 and 1 |
| TrackModal.TrackMarkersModalOperator.Invoke | marker_tracker.py:420-438 | `total` counts the frames from the current one to the end, inclusive; progress is 0; `start` and `current` are the current frame |
| TrackModal.TrackMarkersModalOperator.Modal | marker_tracker.py:391-418 | ESC finishes and any other non-timer event passes through, both changing nothing; a timer event at or past the end frame finishes. Otherwise the scene advances one frame, that frame is tracked, progress is updated and `current` advances. An undisturbed run stays Valid, never divides by zero, keeps progress in (0, 1) and, when it finishes, has tracked `start + 1 .. frame_end` |
| SequenceConverter.CapturePathDirectory | sequence_converter.py:95-96 | the file goes into `convert_path` up to its last backslash, or into the working directory when it has none; its number reads back as the count and is 5 digits below 100000 |
| SequenceConverter.CapturePathsDistinct | sequence_converter.py:95-96 | different counts give different file names |
| SequenceConverter.ConvertModalOperator.Invoke | sequence_converter.py:112-166 | rewinds the active scene to its start frame, makes a work scene with the same range at the start, sets `count` to 1 and makes `total` the inclusive frame count |
| SequenceConverter.ConvertModalOperator.Modal | sequence_converter.py:67-110 | ESC, other events and the end case change nothing; otherwise `current_path` becomes `capture<count>`, the current frame is rendered with that number, and the frame, count, progress and current advance. An undisturbed run stays Valid, never divides by zero and, when it finishes, has rendered frames `start .. frame_end - 1` and never `frame_end` |
| SequenceConverter.ConvertModalOperator.RenderedPathsDistinct | sequence_converter.py:95-105 | in an undisturbed run, the capture files of any two rendered stills differ |

## Left out

- Blender itself is left out: `bpy`, operators calling operators, compositor node trees, rendering, timers, draw handlers, panels and GL drawing. The model keeps only the values these read and write (scene frames, marker histories, `current_path`).
- Image analysis is left out: `imread`, scipy's `label` and `find_objects`, and numpy's `count_nonzero`. The cluster filter takes the labelled regions, their boxes and their pixel counts as input.
- `dist` is left out as a square root. It is modelled by the squared distance. `DistBelowIffWithin` shows that the comparison `dist < d` is unaffected.
- Floating point is not modelled: coordinates are exact reals. The round trips hold exactly here and only up to rounding in Python.
- Some files and functions are not part of this model: properties.py, `__init__.py`, empties_to_bones.py, `get_vars_from_context`, `time_it`, `create_matte` and the rest of `getPoints`, `get_image`, and `ScenarioManager`'s `__enter__`/`__exit__` and `get_*` methods.
- Adding markers in `assignMarkers` is left out: `bpy.ops.clip.add_marker` and the `markers[0].frame` assignment are Blender calls.
- The `print` and `pp(lost)` output is left out.
- Blender's `insert_frame` is modelled as putting an enabled marker at `frame`, replacing any marker there.
- The marker references kept in `lost` are assumed to stay valid while the call inserts markers.
- Two tracks with the same name share one `lost` entry: the later one overwrites the earlier, as in Python.
- MoveMarkers.MoveMarkers requires the tracks to be distinct objects, as Blender's track collection is.
- TrackModal.TrackMarkersModalOperator.Modal and SequenceConverter.ConvertModalOperator.Modal state their range, progress and division-by-zero properties only for an undisturbed run (Valid). If the user changes the scene between events, only the one-step contract applies.
- `cancel` with its timer and draw-handler removal, `start_timer` and `stop_timer`, and the converter's final restore of the default scene and node tree are Blender calls. These operators only return `FINISHED`.
- MoveMarkersSpec.ActivePassOutcome states that a track took a point in reach, not that it was the first point in reach in the list as it stood at that track's turn. The first fit is stated for each step by StepFoundResult and FirstWithin, which MoveMarkers.ActiveTrack follows.
- MoveMarkersSpec.RecoverFrom fixes the order in which `lost.items()` is visited to insertion order. That is CPython's order from 3.6 on. The addon declares Blender 2.79, whose Python 3.5 visits a dict in hash order. There, when two lost tracks have the same point in reach, the other lost track can take it.
- MoveMarkers.RecoveryPass walks `lost.keys` in the same assumed insertion order, so it shares that limitation of MoveMarkersSpec.RecoverFrom.
- MoveMarkersSpec.RecoveryOutcome describes the recovered tracks only when the recovery pass did not raise. After a ZeroDivision on a zero-sized image it states only the recorded names, the assignments and the tracks outside `lost`.
- Utils.DistSymmetricAndZero does not prove that a zero distance implies the same point, or that `Within(p, p, d)` holds for every `d > 0`.
