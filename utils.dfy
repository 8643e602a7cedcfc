/** utils.py: the distance and coordinate-conversion helpers, and `ScenarioManager.remove_at_end`. */
module Utils {
  import opened Common

  /** A 2D location. Detected points are pixel centres (column, row counted from the top);
      marker positions are in the clip's 0..1 space with y pointing up. */
  datatype Point = Point(x: real, y: real)

  /** An image size `(width, height)` in pixels. */
  datatype Size = Size(w: real, h: real)

  /** The square under the root of `dist`. */
  function SqDist(p: Point, q: Point): (r: real)
    ensures r >= 0.0
  {
    (p.x - q.x) * (p.x - q.x) + (p.y - q.y) * (p.y - q.y)
  }

  /** `dist(p, q) < d`, stated without the square root (see DistBelowIffWithin). */
  predicate Within(p: Point, q: Point, d: real) {
    d > 0.0 && SqDist(p, q) < d * d
  }

  /** Whatever non-negative root `r` of the squared distance `dist` returns, `r < d` holds exactly when Within does. */
  lemma DistBelowIffWithin(p: Point, q: Point, d: real, r: real)
    requires r >= 0.0 && r * r == SqDist(p, q)
    ensures r < d <==> Within(p, q, d)
  {
    var rr, rd, dd := r * r, r * d, d * d;
    if r < d {
      assert rr <= rd && rd < dd;
    } else if d > 0.0 {
      assert dd <= rd && rd <= rr;
    }
  }

  /** `dist` is symmetric and non-negative, and 0 from a point to itself; so Within is symmetric. */
  lemma DistSymmetricAndZero(p: Point, q: Point, d: real)
    ensures SqDist(p, q) == SqDist(q, p) && SqDist(p, q) >= 0.0
    ensures SqDist(p, p) == 0.0
    ensures Within(p, q, d) <==> Within(q, p, d)
  {
  }

  /** `normalized_to_space`: despite its name, it takes a pixel location (x right, y down from the top)
      to the clip's 0..1 space (y up). A zero dimension is a ZeroDivisionError. */
  function NormalizedToSpace(loc: Point, size: Size): (r: Result<Point>)
    ensures r.Err? <==> size.w == 0.0 || size.h == 0.0
    ensures r.Err? ==> r.error == ZeroDivision
    ensures r.Ok? ==> r.value.x * size.w == loc.x && r.value.y * size.h == size.h - loc.y
  {
    if size.w == 0.0 || size.h == 0.0 then Err(ZeroDivision)
    else Ok(Point(loc.x / size.w, (size.h - loc.y) / size.h))
  }

  /** `space_to_normalized`: from the clip's 0..1 space back to pixels (y down); on a non-zero size,
      NormalizedToSpace takes the pixel location back to `loc`. */
  function SpaceToNormalized(loc: Point, size: Size): (r: Point)
    ensures size.w != 0.0 && size.h != 0.0 ==> NormalizedToSpace(r, size) == Ok(loc)
  {
    var r := Point(loc.x * size.w, size.h - size.h * loc.y);
    if size.w != 0.0 && size.h != 0.0 then
      var q := NormalizedToSpace(r, size).value;
      assert q.x * size.w == loc.x * size.w;
      assert q.y * size.h == loc.y * size.h;
      r
    else r
  }

  /** With both dimensions non-zero, converting a pixel location and back gives it again: with the contract
      of SpaceToNormalized, the two conversions are inverse bijections. */
  lemma PixelRoundTrip(p: Point, size: Size)
    requires size.w != 0.0 && size.h != 0.0
    ensures NormalizedToSpace(p, size).Ok?
    ensures SpaceToNormalized(NormalizedToSpace(p, size).value, size) == p
  {
    var q := NormalizedToSpace(p, size).value;
    assert q.y * size.h == size.h - p.y;
  }

  /** On a positive size, x moves linearly from [0, w] onto [0, 1] and y is flipped: row 0 (the top)
      is 1 and row h (the bottom) is 0; x keeps its order and y reverses it. */
  lemma NormalizedToSpaceOrientation(size: Size, p: Point, q: Point)
    requires size.w > 0.0 && size.h > 0.0
    ensures NormalizedToSpace(Point(0.0, 0.0), size) == Ok(Point(0.0, 1.0))
    ensures NormalizedToSpace(Point(size.w, size.h), size) == Ok(Point(1.0, 0.0))
    ensures p.x < q.x ==> NormalizedToSpace(p, size).value.x < NormalizedToSpace(q, size).value.x
    ensures p.y < q.y ==> NormalizedToSpace(p, size).value.y > NormalizedToSpace(q, size).value.y
  {
    assert 0.0 / size.w == 0.0 && (size.h - 0.0) / size.h == 1.0;
    assert size.w / size.w == 1.0 && (size.h - size.h) / size.h == 0.0;
    var a, b := NormalizedToSpace(p, size).value, NormalizedToSpace(q, size).value;
    if p.x < q.x {
      assert a.x * size.w < b.x * size.w;
    }
    if p.y < q.y {
      assert a.y * size.h > b.y * size.h;
    }
  }

  /** The part of `ScenarioManager` that the model keeps: the datablocks to remove when the `with` block ends,
      grouped by the name of their `bpy.data` collection. */
  class ScenarioManager<T> {
    var removals: map<string, seq<T>>

    constructor ()
      ensures removals == map[]
    {
      removals := map[];
    }

    /** `remove_at_end`: appends `item` to the list under `kind`, starting a new list when the key is absent. */
    method RemoveAtEnd(kind: string, item: T)
      modifies this
      ensures kind in removals
      ensures removals[kind] == (if kind in old(removals) then old(removals)[kind] else []) + [item]
      ensures forall k :: k != kind ==> (k in removals <==> k in old(removals))
      ensures forall k :: k != kind && k in old(removals) ==> removals[k] == old(removals)[k]
    {
      removals := removals[kind := Get(removals, kind, []) + [item]];
    }
  }

  /** `dict.get(key, default)` */
  function Get<K, V>(m: map<K, V>, key: K, default: V): (r: V)
    ensures key in m ==> r == m[key]
    ensures key !in m ==> r == default
  {
    if key in m then m[key] else default
  }
}
