/** Tile versions: how any number of slow readers catch up with a frame that changes in parts. */
module Damage {
  import opened Arith
  import opened Collections

  const TILE: nat := 64
  const MAX_RECTS: nat := 128

  type Pixel = bv32

  // Row-major storage.

  function At(w: nat, x: nat, y: nat): nat { y * w + x }

  lemma AtBounds(w: nat, h: nat, x: nat, y: nat)
    requires x < w && y < h
    ensures At(w, x, y) < w * h
  {
    assert y * w + w <= h * w by {
      MulStep(w, h, y);
    }
  }

  lemma AtUnique(w: nat, x: nat, y: nat, x': nat, y': nat)
    requires x < w && x' < w && At(w, x, y) == At(w, x', y')
    ensures x == x' && y == y'
  {
    Quotient(At(w, x, y), w, y, x);
    Quotient(At(w, x', y'), w, y', x');
  }

  lemma AtOf(w: nat, h: nat, k: nat)
    requires k < w * h
    ensures w > 0 && k % w < w && k / w < h && At(w, k % w, k / w) == k
  {
    assert w > 0;
    var q := k / w;
    assert k == w * q + k % w;
    if q > h {
      MulStep(w, q, h);
    }
  }

  function PixOf(s: seq<Pixel>, w: nat, x: nat, y: nat): Pixel {
    if At(w, x, y) < |s| then s[At(w, x, y)] else 0
  }

  // Rectangles, as in an image package: the lower bounds belong, the upper do not.

  datatype Rect = Rect(x0: int, y0: int, x1: int, y1: int) {
    predicate Empty() { x0 >= x1 || y0 >= y1 }

    predicate Has(x: int, y: int) { x0 <= x < x1 && y0 <= y < y1 }

    /** The part inside a picture of the given size. */
    function Clip(w: nat, h: nat): (r: Rect)
      ensures forall x, y :: r.Has(x, y) <==> Has(x, y) && 0 <= x < w && 0 <= y < h
      ensures r.Empty() || (0 <= r.x0 < r.x1 <= w && 0 <= r.y0 < r.y1 <= h)
    {
      var r := Rect(Max(x0, 0), Max(y0, 0), Min(x1, w), Min(y1, h));
      if r.Empty() then Rect(0, 0, 0, 0) else r
    }
  }

  function Cols(w: nat): nat { (w + TILE - 1) / TILE }

  function StampAt(versions: seq<nat>, w: nat, tx: nat, ty: nat): nat {
    if At(Cols(w), tx, ty) < |versions| then versions[At(Cols(w), tx, ty)] else 0
  }

  // The framebuffer and a reader, as values.

  datatype Frame = Frame(w: nat, h: nat, pix: seq<Pixel>, versions: seq<nat>, now: nat) {
    predicate InBounds(x: int, y: int) { 0 <= x < w && 0 <= y < h }

    /** Nothing was published yet, or pixels and versions fit the geometry. */
    ghost predicate Valid() {
      && (versions == [] <==> pix == [])
      && (versions != [] ==> |pix| == w * h && |versions| == Cols(w) * Cols(h))
      && (forall t :: 0 <= t < |versions| ==> versions[t] <= now)
    }

    function Pix(x: nat, y: nat): Pixel { PixOf(pix, w, x, y) }

    function TileVersion(tx: nat, ty: nat): nat { StampAt(versions, w, tx, ty) }

    /** When the tile of a pixel last changed. */
    function Version(x: nat, y: nat): nat { TileVersion(x / TILE, y / TILE) }
  }

  datatype Copy = Copy(w: nat, h: nat, pix: seq<Pixel>, seen: nat) {
    function Pix(x: nat, y: nat): Pixel { PixOf(pix, w, x, y) }

    predicate Fits(f: Frame) { w == f.w && h == f.h && |pix| == w * h }
  }

  /** A copy is right wherever its tile has not changed since it was made. */
  ghost predicate InSync(f: Frame, c: Copy) {
    && c.seen <= f.now
    && (c.Fits(f) && f.versions != [] ==>
          forall x: nat, y: nat :: f.InBounds(x, y) && f.Version(x, y) <= c.seen ==> c.Pix(x, y) == f.Pix(x, y))
  }

  /** A publication: every tile is stamped anew, or keeps both its stamp and its pixels. */
  ghost predicate Publishes(f: Frame, f': Frame) {
    && f'.now == f.now + 1
    && forall x: nat, y: nat :: f'.InBounds(x, y) ==>
         || f'.Version(x, y) == f'.now
         || (f'.w == f.w && f'.h == f.h && f.versions != []
             && f'.Version(x, y) == f.Version(x, y) && f'.Pix(x, y) == f.Pix(x, y))
  }

  lemma PublishKeepsSync(f: Frame, f': Frame, c: Copy)
    requires Publishes(f, f') && InSync(f, c)
    ensures InSync(f', c)
  {
    if c.Fits(f') && f'.versions != [] {
      forall x: nat, y: nat | f'.InBounds(x, y) && f'.Version(x, y) <= c.seen
        ensures c.Pix(x, y) == f'.Pix(x, y)
      {
        assert f'.Version(x, y) != f'.now;
        assert f.InBounds(x, y);
      }
    }
  }

  /** However many publications a reader sleeps through, and whatever sizes they had. */
  lemma {:induction false} RunKeepsSync(run: seq<Frame>, c: Copy)
    requires run != [] && InSync(run[0], c)
    requires forall i :: 0 <= i < |run| - 1 ==> Publishes(run[i], run[i + 1])
    ensures InSync(run[|run| - 1], c)
  {
    if |run| > 1 {
      PublishKeepsSync(run[0], run[1], c);
      RunKeepsSync(run[1..], c);
    }
  }

  // Which rectangles a reader must copy.

  ghost predicate Covered(rects: seq<Rect>, x: int, y: int) {
    exists k :: 0 <= k < |rects| && rects[k].Has(x, y)
  }

  /** Rectangles inside the picture that share no pixel. */
  ghost predicate Tiling(rects: seq<Rect>, w: nat, h: nat) {
    && (forall k :: 0 <= k < |rects| ==>
          0 <= rects[k].x0 < rects[k].x1 <= w && 0 <= rects[k].y0 < rects[k].y1 <= h)
    && (forall i, j, x, y :: 0 <= i < |rects| && 0 <= j < |rects| && rects[i].Has(x, y) && rects[j].Has(x, y) ==>
          i == j)
  }

  /** Adds a rectangle, extending one that ends right above it with the same sides. */
  method AddRect(rects: seq<Rect>, r: Rect, w: nat, h: nat) returns (out: seq<Rect>)
    requires Tiling(rects, w, h) && 0 <= r.x0 < r.x1 <= w && 0 <= r.y0 < r.y1 <= h
    requires forall x, y :: r.Has(x, y) ==> !Covered(rects, x, y)
    ensures Tiling(out, w, h) && |out| <= |rects| + 1
    ensures forall x, y :: Covered(out, x, y) <==> Covered(rects, x, y) || r.Has(x, y)
  {
    var i := |rects|;
    while i > 0
      invariant 0 <= i <= |rects|
    {
      i := i - 1;
      if rects[i].y1 == r.y0 && rects[i].x0 == r.x0 && rects[i].x1 == r.x1 {
        out := rects[i := rects[i].(y1 := r.y1)];
        MergedCover(rects, r, i);
        MergedTiling(rects, r, i, w, h);
        return;
      }
    }
    out := rects + [r];
    AppendedCover(rects, r);
    AppendedTiling(rects, r, w, h);
  }

  lemma AppendedCover(rects: seq<Rect>, r: Rect)
    ensures forall x, y :: Covered(rects + [r], x, y) <==> Covered(rects, x, y) || r.Has(x, y)
  {
    var out := rects + [r];
    forall x, y
      ensures Covered(out, x, y) <==> Covered(rects, x, y) || r.Has(x, y)
    {
      if Covered(rects, x, y) {
        var k :| 0 <= k < |rects| && rects[k].Has(x, y);
        assert out[k].Has(x, y);
      }
      if r.Has(x, y) {
        assert out[|rects|].Has(x, y);
      }
    }
  }

  lemma AppendedTiling(rects: seq<Rect>, r: Rect, w: nat, h: nat)
    requires Tiling(rects, w, h) && 0 <= r.x0 < r.x1 <= w && 0 <= r.y0 < r.y1 <= h
    requires forall x, y :: r.Has(x, y) ==> !Covered(rects, x, y)
    ensures Tiling(rects + [r], w, h)
  {
    var out := rects + [r];
    forall i, j, x, y | 0 <= i < |out| && 0 <= j < |out| && out[i].Has(x, y) && out[j].Has(x, y)
      ensures i == j
    {
      if i < |rects| && j < |rects| {
        assert rects[i].Has(x, y) && rects[j].Has(x, y);
      }
    }
  }

  lemma MergedCover(rects: seq<Rect>, r: Rect, i: nat)
    requires i < |rects| && rects[i].y1 == r.y0 && rects[i].x0 == r.x0 && rects[i].x1 == r.x1
    requires rects[i].y0 < rects[i].y1 && r.y0 < r.y1
    ensures forall x, y :: Covered(rects[i := rects[i].(y1 := r.y1)], x, y) <==> Covered(rects, x, y) || r.Has(x, y)
  {
    var out := rects[i := rects[i].(y1 := r.y1)];
    forall x, y
      ensures Covered(out, x, y) <==> Covered(rects, x, y) || r.Has(x, y)
    {
      if Covered(rects, x, y) {
        var k :| 0 <= k < |rects| && rects[k].Has(x, y);
        assert out[k].Has(x, y);
      }
      if r.Has(x, y) {
        assert out[i].Has(x, y);
      }
      if Covered(out, x, y) {
        var k :| 0 <= k < |out| && out[k].Has(x, y);
        assert k != i ==> rects[k].Has(x, y);
        assert k == i ==> rects[i].Has(x, y) || r.Has(x, y);
      }
    }
  }

  lemma MergedTiling(rects: seq<Rect>, r: Rect, i: nat, w: nat, h: nat)
    requires Tiling(rects, w, h) && 0 <= r.x0 < r.x1 <= w && 0 <= r.y0 < r.y1 <= h
    requires forall x, y :: r.Has(x, y) ==> !Covered(rects, x, y)
    requires i < |rects| && rects[i].y1 == r.y0 && rects[i].x0 == r.x0 && rects[i].x1 == r.x1
    ensures Tiling(rects[i := rects[i].(y1 := r.y1)], w, h)
  {
    var out := rects[i := rects[i].(y1 := r.y1)];
    forall k, j, x, y | 0 <= k < |out| && 0 <= j < |out| && out[k].Has(x, y) && out[j].Has(x, y)
      ensures k == j
    {
      assert k != i ==> rects[k].Has(x, y) && Covered(rects, x, y);
      assert j != i ==> rects[j].Has(x, y) && Covered(rects, x, y);
      assert k == i || j == i ==> rects[i].Has(x, y) || r.Has(x, y);
    }
  }

  /** The tile of the pixel comes before (tx, ty) in reading order. */
  predicate Before(x: int, y: int, tx: nat, ty: nat) {
    y / TILE < ty || (y / TILE == ty && x / TILE < tx)
  }

  /** The tiles read so far are covered exactly where they changed. */
  ghost predicate CoveredSoFar(f: Frame, since: nat, rects: seq<Rect>, tx: nat, ty: nat) {
    forall x, y :: Covered(rects, x, y) <==>
      f.InBounds(x, y) && Before(x, y, tx, ty) && f.Version(x, y) > since
  }

  /** The tiles from `start` up to `tx` of row `ty`. */
  function RunRect(f: Frame, start: nat, tx: nat, ty: nat): Rect {
    Rect(start * TILE, ty * TILE, Min(tx * TILE, f.w), Min((ty + 1) * TILE, f.h))
  }

  lemma RunRectHas(f: Frame, start: nat, tx: nat, ty: nat)
    ensures forall x, y :: RunRect(f, start, tx, ty).Has(x, y) <==>
      f.InBounds(x, y) && y / TILE == ty && start <= x / TILE < tx
  {
  }

  lemma RunAdded(f: Frame, since: nat, rects: seq<Rect>, out: seq<Rect>, start: nat, tx: nat, ty: nat)
    requires CoveredSoFar(f, since, rects, start, ty) && start <= tx
    requires forall t :: start <= t < tx ==> f.TileVersion(t, ty) > since
    requires forall x, y :: Covered(out, x, y) <==> Covered(rects, x, y) || RunRect(f, start, tx, ty).Has(x, y)
    ensures CoveredSoFar(f, since, out, tx, ty)
  {
    RunRectHas(f, start, tx, ty);
    forall x, y
      ensures Covered(out, x, y) <==> f.InBounds(x, y) && Before(x, y, tx, ty) && f.Version(x, y) > since
    {
      if f.InBounds(x, y) && y / TILE == ty && start <= x / TILE < tx {
        assert f.TileVersion(x / TILE, ty) > since;
      }
    }
  }

  /** An unchanged tile adds nothing, and a row's end is the next row's start. */
  lemma TileSkipped(f: Frame, since: nat, rects: seq<Rect>, tx: nat, ty: nat)
    requires CoveredSoFar(f, since, rects, tx, ty) && f.TileVersion(tx, ty) <= since
    ensures CoveredSoFar(f, since, rects, tx + 1, ty)
  {
  }

  lemma RowDone(f: Frame, since: nat, rects: seq<Rect>, ty: nat)
    requires CoveredSoFar(f, since, rects, Cols(f.w), ty)
    ensures CoveredSoFar(f, since, rects, 0, ty + 1)
  {
    assert forall x :: 0 <= x < f.w ==> x / TILE < Cols(f.w);
  }

  ghost function ChangedTiles(f: Frame, since: nat): set<(nat, nat)> {
    set a: nat, b: nat | a < Cols(f.w) && b < Cols(f.h) && f.TileVersion(a, b) > since :: (a, b)
  }

  /** The tiles in `runs` come before (tx, ty) in reading order, so the one at (tx, ty) is not among them. */
  ghost predicate RunsBefore(runs: set<(nat, nat)>, tx: nat, ty: nat) {
    forall t :: t in runs ==> t.1 < ty || (t.1 == ty && t.0 < tx)
  }

  /**
   The tiles changed after `since`, as at most 128 rectangles; when that many do not suffice,
   the whole picture.
   */
  method ChangedTileRects(f: Frame, since: nat) returns (rects: seq<Rect>, ghost whole: bool)
    requires f.w > 0 && f.h > 0
    ensures Tiling(rects, f.w, f.h) && |rects| <= MAX_RECTS
    ensures whole ==> rects == [Rect(0, 0, f.w, f.h)] && |ChangedTiles(f, since)| > MAX_RECTS
    ensures !whole ==> forall x, y :: Covered(rects, x, y) <==> f.InBounds(x, y) && f.Version(x, y) > since
  {
    hide CoveredSoFar, Covered, Tiling, Frame.TileVersion, Before;
    ghost var runs: set<(nat, nat)> := {};
    rects, whole := [], false;
    NothingCovered(f, since);
    var y := 0;
    while y < Cols(f.h)
      invariant 0 <= y <= Cols(f.h) && |rects| <= MAX_RECTS && Tiling(rects, f.w, f.h)
      invariant CoveredSoFar(f, since, rects, 0, y)
      invariant |rects| <= |runs| && runs <= ChangedTiles(f, since) && RunsBefore(runs, 0, y)
    {
      var x := 0;
      while x < Cols(f.w)
        invariant 0 <= x <= Cols(f.w) && |rects| <= MAX_RECTS && Tiling(rects, f.w, f.h)
        invariant CoveredSoFar(f, since, rects, x, y)
        invariant |rects| <= |runs| && runs <= ChangedTiles(f, since) && RunsBefore(runs, x, y)
      {
        if f.TileVersion(x, y) <= since {
          TileSkipped(f, since, rects, x, y);
          x := x + 1;
        } else {
          var start := x;
          while x < Cols(f.w) && f.TileVersion(x, y) > since
            invariant start <= x <= Cols(f.w)
            invariant forall t :: start <= t < x ==> f.TileVersion(t, y) > since
            invariant x == start ==> f.TileVersion(x, y) > since && x < Cols(f.w)
            decreases Cols(f.w) - x
          {
            x := x + 1;
          }
          RunFits(f, since, rects, start, x, y);
          ghost var before := rects;
          rects := AddRect(rects, RunRect(f, start, x, y), f.w, f.h);
          RunAdded(f, since, before, rects, start, x, y);
          assert (start, y) in ChangedTiles(f, since) && (start, y) !in runs;
          runs := runs + {(start, y)};
          if |rects| > MAX_RECTS {
            SubsetSize(runs, ChangedTiles(f, since));
            WholePicture(f);
            return [Rect(0, 0, f.w, f.h)], true;
          }
        }
      }
      RowDone(f, since, rects, y);
      y := y + 1;
    }
    AllRead(f, since, rects);
  }

  lemma NothingCovered(f: Frame, since: nat)
    ensures CoveredSoFar(f, since, [], 0, 0) && Tiling([], f.w, f.h)
  {
  }

  lemma WholePicture(f: Frame)
    requires f.w > 0 && f.h > 0
    ensures Tiling([Rect(0, 0, f.w, f.h)], f.w, f.h)
  {
  }

  lemma RunFits(f: Frame, since: nat, rects: seq<Rect>, start: nat, tx: nat, ty: nat)
    requires CoveredSoFar(f, since, rects, start, ty) && start < tx <= Cols(f.w) && ty < Cols(f.h)
    ensures var r := RunRect(f, start, tx, ty);
            && 0 <= r.x0 < r.x1 <= f.w && 0 <= r.y0 < r.y1 <= f.h
            && forall x, y :: r.Has(x, y) ==> !Covered(rects, x, y)
  {
    RunRectHas(f, start, tx, ty);
  }

  lemma AllRead(f: Frame, since: nat, rects: seq<Rect>)
    requires CoveredSoFar(f, since, rects, 0, Cols(f.h))
    ensures forall x, y :: Covered(rects, x, y) <==> f.InBounds(x, y) && f.Version(x, y) > since
  {
    assert forall y :: 0 <= y < f.h ==> y / TILE < Cols(f.h);
  }
}
