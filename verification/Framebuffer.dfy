/** The shared framebuffer: publications, copy-on-write snapshots and catching-up readers. */
module Framebuffer {
  import opened Arith
  import opened Collections
  import opened Damage

  /** A source picture of `dx` by `dy` pixels, stored in rows `stride` apart. */
  datatype Img = Img(dx: int, dy: int, stride: int, pix: seq<Pixel>) {
    /** The picture has all pixels of the first `h` rows of `w`: the size check keeps every read inside `pix`. */
    predicate Holds(w: int, h: int): (r: bool)
      ensures r ==> 0 <= stride && forall x: nat, y: nat :: x < w && y < h ==> At(stride, x, y) < |pix|
    {
      && w <= dx && h <= dy && stride >= w && |pix| >= w
      && 0 < w && 0 < h
      && h - 1 <= (|pix| - w) / stride
      && (RowsInside(stride, |pix|, w, h); true)
    }

    function P(x: nat, y: nat): Pixel
      requires 0 <= stride && At(stride, x, y) < |pix|
    {
      pix[At(stride, x, y)]
    }
  }

  lemma RowsInside(stride: nat, n: nat, w: nat, h: nat)
    requires 0 < w <= stride && w <= n && h - 1 <= (n - w) / stride
    ensures forall x: nat, y: nat :: x < w && y < h ==> At(stride, x, y) < n
  {
    forall x: nat, y: nat | x < w && y < h
      ensures At(stride, x, y) < n
    {
      var q := (n - w) / stride;
      assert stride * q <= n - w;
      if y < q {
        MulStep(stride, q, y);
      }
    }
  }

  /** A picture is taken exactly when it is large enough and its last row ends inside its pixels. */
  lemma HoldsIff(img: Img, w: int, h: int)
    ensures img.Holds(w, h) <==>
      && 0 < w <= img.dx && 0 < h <= img.dy && w <= img.stride && img.stride * (h - 1) + w <= |img.pix|
  {
    if 0 < w <= |img.pix| && w <= img.stride {
      var n, s := |img.pix| - w, img.stride;
      var q := n / s;
      assert n == s * q + n % s;
      if h - 1 <= q {
        if h - 1 < q {
          MulStep(s, q, h - 1);
        }
      } else {
        MulStep(s, h - 1, q);
      }
    } else if 0 < h && 0 < img.stride {
      assert img.stride * (h - 1) >= 0;
    }
  }

  // Drawing.

  /** `after` is `before` with the pixels of `r` taken from the picture. */
  ghost predicate Painted(w: nat, h: nat, before: seq<Pixel>, after: seq<Pixel>, r: Rect, img: Img) {
    && |after| == |before| && img.Holds(w, h)
    && forall x: nat, y: nat :: x < w && y < h ==>
         PixOf(after, w, x, y) == if r.Has(x, y) then img.P(x, y) else PixOf(before, w, x, y)
  }

  /** Row `y` of `r` has just been copied below the rows already drawn. */
  lemma RowPainted(w: nat, h: nat, before: seq<Pixel>, mid: seq<Pixel>, after: seq<Pixel>, r: Rect, y: nat, img: Img)
    requires Painted(w, h, before, mid, r.(y1 := y), img) && |before| == w * h
    requires 0 <= r.x0 <= r.x1 <= w && r.y0 <= y < h && y < r.y1
    requires |after| == |mid|
    requires forall k :: 0 <= k < |mid| ==>
      after[k] == if At(w, r.x0, y) <= k < At(w, r.x0, y) + (r.x1 - r.x0)
                  then img.P(r.x0 + (k - At(w, r.x0, y)), y) else mid[k]
    ensures Painted(w, h, before, after, r.(y1 := y + 1), img)
  {
    forall a: nat, b: nat | a < w && b < h
      ensures PixOf(after, w, a, b) == if r.(y1 := y + 1).Has(a, b) then img.P(a, b) else PixOf(before, w, a, b)
    {
      AtBounds(w, h, a, b);
      var k := At(w, a, b);
      if At(w, r.x0, y) <= k < At(w, r.x0, y) + (r.x1 - r.x0) {
        var x := r.x0 + (k - At(w, r.x0, y));
        assert At(w, x, y) == k;
        AtUnique(w, a, b, x, y);
      }
    }
  }

  /** Copies the pixels of `r` row by row. */
  method DrawRect(frame: array<Pixel>, w: nat, h: nat, r: Rect, img: Img)
    requires frame.Length == w * h && img.Holds(w, h)
    requires r.Empty() || (0 <= r.x0 < r.x1 <= w && 0 <= r.y0 < r.y1 <= h)
    modifies frame
    ensures Painted(w, h, old(frame[..]), frame[..], r, img)
  {
    if r.Empty() {
      return;
    }
    var y := r.y0;
    while y < r.y1
      invariant r.y0 <= y <= r.y1
      invariant Painted(w, h, old(frame[..]), frame[..], r.(y1 := y), img)
    {
      DrawRow(frame, w, h, r, y, img);
      y := y + 1;
    }
  }

  method DrawRow(frame: array<Pixel>, w: nat, h: nat, r: Rect, y: nat, img: Img)
    requires frame.Length == w * h && img.Holds(w, h)
    requires 0 <= r.x0 < r.x1 <= w && 0 <= r.y0 <= y < r.y1 <= h
    modifies frame
    ensures forall before :: |before| == w * h && Painted(w, h, before, old(frame[..]), r.(y1 := y), img) ==>
      Painted(w, h, before, frame[..], r.(y1 := y + 1), img)
  {
    ghost var mid := frame[..];
    var at := At(w, r.x0, y);
    AtBounds(w, h, r.x1 - 1, y);
    forall k | at <= k < at + (r.x1 - r.x0) {
      frame[k] := img.P(r.x0 + (k - at), y);
    }
    forall before | |before| == w * h && Painted(w, h, before, mid, r.(y1 := y), img)
      ensures Painted(w, h, before, frame[..], r.(y1 := y + 1), img)
    {
      RowPainted(w, h, before, mid, frame[..], r, y, img);
    }
  }

  /** The part of the damage inside the picture. */
  function Clipped(damage: seq<Rect>, w: nat, h: nat): (r: seq<Rect>)
    ensures |r| == |damage|
    ensures forall k :: 0 <= k < |r| ==> r[k] == damage[k].Clip(w, h)
  {
    seq(|damage|, k requires 0 <= k < |damage| => damage[k].Clip(w, h))
  }

  /** Draws all the damaged parts; where they overlap the picture is the same anyway. */
  method DrawDamage(frame: array<Pixel>, w: nat, h: nat, damage: seq<Rect>, img: Img)
    requires frame.Length == w * h && img.Holds(w, h)
    modifies frame
    ensures forall x: nat, y: nat :: x < w && y < h ==>
      PixOf(frame[..], w, x, y)
      == if Covered(Clipped(damage, w, h), x, y) then img.P(x, y) else PixOf(old(frame[..]), w, x, y)
  {
    hide Covered;
    ghost var clipped := Clipped(damage, w, h);
    var i := 0;
    NoneCovered(clipped);
    while i < |damage|
      invariant 0 <= i <= |damage|
      invariant forall x: nat, y: nat :: x < w && y < h ==>
        PixOf(frame[..], w, x, y)
        == if Covered(clipped[..i], x, y) then img.P(x, y) else PixOf(old(frame[..]), w, x, y)
    {
      DrawRect(frame, w, h, damage[i].Clip(w, h), img);
      AppendedCover(clipped[..i], clipped[i]);
      assert clipped[..i] + [clipped[i]] == clipped[..i + 1];
      i := i + 1;
    }
    assert clipped[..i] == clipped;
  }

  lemma NoneCovered(rects: seq<Rect>)
    ensures forall x, y :: !Covered(rects[..0], x, y)
  {
  }

  // Stamping.

  /** Some damaged pixel lies in tile (tx, ty). */
  ghost predicate Touched(rects: seq<Rect>, tx: int, ty: int) {
    exists k :: 0 <= k < |rects| && TouchedBy(rects[k], tx, ty)
  }

  predicate TouchedBy(r: Rect, tx: int, ty: int) {
    !r.Empty() && r.x0 / TILE <= tx <= (r.x1 - 1) / TILE && r.y0 / TILE <= ty <= (r.y1 - 1) / TILE
  }

  lemma CoveredTouched(rects: seq<Rect>, x: int, y: int)
    requires Covered(rects, x, y)
    ensures Touched(rects, x / TILE, y / TILE)
  {
    var k :| 0 <= k < |rects| && rects[k].Has(x, y);
    assert TouchedBy(rects[k], x / TILE, y / TILE);
  }

  lemma TileInGrid(w: nat, h: nat, r: Rect, tx: int, ty: int)
    requires 0 <= r.x0 < r.x1 <= w && 0 <= r.y0 < r.y1 <= h && TouchedBy(r, tx, ty)
    ensures 0 <= tx < Cols(w) && 0 <= ty < Cols(h)
    ensures At(Cols(w), tx, ty) < Cols(w) * Cols(h)
  {
    AtBounds(Cols(w), Cols(h), tx, ty);
  }

  /** Tiles of one row of a damaged rectangle get the new stamp. */
  method StampRow(versions: seq<nat>, w: nat, h: nat, r: Rect, ty: nat, now: nat) returns (out: seq<nat>)
    requires |versions| == Cols(w) * Cols(h)
    requires 0 <= r.x0 < r.x1 <= w && 0 <= r.y0 < r.y1 <= h && r.y0 / TILE <= ty <= (r.y1 - 1) / TILE
    ensures |out| == |versions|
    ensures forall a: nat, b: nat :: a < Cols(w) && b < Cols(h) ==>
      StampAt(out, w, a, b) == if b == ty && TouchedBy(r, a, b) then now else StampAt(versions, w, a, b)
  {
    out := versions;
    var tx := r.x0 / TILE;
    while tx <= (r.x1 - 1) / TILE
      invariant r.x0 / TILE <= tx <= (r.x1 - 1) / TILE + 1 && |out| == |versions|
      invariant forall a: nat, b: nat :: a < Cols(w) && b < Cols(h) ==>
        StampAt(out, w, a, b) == if b == ty && TouchedBy(r, a, b) && a < tx then now else StampAt(versions, w, a, b)
    {
      TileInGrid(w, h, r, tx, ty);
      ghost var before := out;
      out := out[At(Cols(w), tx, ty) := now];
      OneStamp(before, w, h, tx, ty, now);
      tx := tx + 1;
    }
  }

  lemma OneStamp(versions: seq<nat>, w: nat, h: nat, tx: nat, ty: nat, now: nat)
    requires |versions| == Cols(w) * Cols(h) && tx < Cols(w) && ty < Cols(h) && At(Cols(w), tx, ty) < |versions|
    ensures forall a: nat, b: nat :: a < Cols(w) && b < Cols(h) ==>
      StampAt(versions[At(Cols(w), tx, ty) := now], w, a, b)
      == if a == tx && b == ty then now else StampAt(versions, w, a, b)
  {
    var out := versions[At(Cols(w), tx, ty) := now];
    forall a: nat, b: nat | a < Cols(w) && b < Cols(h)
      ensures StampAt(out, w, a, b) == if a == tx && b == ty then now else StampAt(versions, w, a, b)
    {
      AtBounds(Cols(w), Cols(h), a, b);
      if At(Cols(w), a, b) == At(Cols(w), tx, ty) {
        AtUnique(Cols(w), a, b, tx, ty);
      }
    }
  }

  /** Stamps every tile a damaged rectangle touches, and no other. */
  method StampRect(versions: seq<nat>, w: nat, h: nat, r: Rect, now: nat) returns (out: seq<nat>)
    requires |versions| == Cols(w) * Cols(h)
    requires r.Empty() || (0 <= r.x0 < r.x1 <= w && 0 <= r.y0 < r.y1 <= h)
    ensures |out| == |versions|
    ensures forall a: nat, b: nat :: a < Cols(w) && b < Cols(h) ==>
      StampAt(out, w, a, b) == if TouchedBy(r, a, b) then now else StampAt(versions, w, a, b)
  {
    out := versions;
    if r.Empty() {
      return;
    }
    var ty := r.y0 / TILE;
    while ty <= (r.y1 - 1) / TILE
      invariant r.y0 / TILE <= ty <= (r.y1 - 1) / TILE + 1 && |out| == |versions|
      invariant forall a: nat, b: nat :: a < Cols(w) && b < Cols(h) ==>
        StampAt(out, w, a, b) == if TouchedBy(r, a, b) && b < ty then now else StampAt(versions, w, a, b)
    {
      out := StampRow(out, w, h, r, ty, now);
      ty := ty + 1;
    }
  }

  method StampDamage(versions: seq<nat>, w: nat, h: nat, damage: seq<Rect>, now: nat) returns (out: seq<nat>)
    requires |versions| == Cols(w) * Cols(h)
    ensures |out| == |versions|
    ensures forall a: nat, b: nat :: a < Cols(w) && b < Cols(h) ==>
      StampAt(out, w, a, b) == if Touched(Clipped(damage, w, h), a, b) then now else StampAt(versions, w, a, b)
  {
    hide Touched;
    ghost var clipped := Clipped(damage, w, h);
    out := versions;
    var i := 0;
    NoneTouched(clipped);
    while i < |damage|
      invariant 0 <= i <= |damage| && |out| == |versions|
      invariant forall a: nat, b: nat :: a < Cols(w) && b < Cols(h) ==>
        StampAt(out, w, a, b) == if Touched(clipped[..i], a, b) then now else StampAt(versions, w, a, b)
    {
      out := StampRect(out, w, h, damage[i].Clip(w, h), now);
      TouchedMore(clipped, i);
      i := i + 1;
    }
    assert clipped[..i] == clipped;
  }

  lemma NoneTouched(rects: seq<Rect>)
    ensures forall a, b :: !Touched(rects[..0], a, b)
  {
  }

  lemma TouchedMore(rects: seq<Rect>, i: nat)
    requires i < |rects|
    ensures forall a, b :: Touched(rects[..i + 1], a, b) <==> Touched(rects[..i], a, b) || TouchedBy(rects[i], a, b)
  {
    forall a, b
      ensures Touched(rects[..i + 1], a, b) <==> Touched(rects[..i], a, b) || TouchedBy(rects[i], a, b)
    {
      if Touched(rects[..i], a, b) {
        var k :| 0 <= k < i && TouchedBy(rects[..i][k], a, b);
        assert TouchedBy(rects[..i + 1][k], a, b);
      }
      if TouchedBy(rects[i], a, b) {
        assert TouchedBy(rects[..i + 1][i], a, b);
      }
      if Touched(rects[..i + 1], a, b) {
        var k :| 0 <= k < i + 1 && TouchedBy(rects[..i + 1][k], a, b);
        assert k < i ==> TouchedBy(rects[..i][k], a, b);
      }
    }
  }

  /** Every tile has the stamp of the last publication. */
  ghost predicate AllNew(f: Frame) { forall t :: 0 <= t < |f.versions| ==> f.versions[t] == f.now }

  /** Exactly the damaged tiles of a picture of the same size have a new stamp. */
  ghost predicate StampsTouched(f: Frame, f': Frame, damage: seq<Rect>) {
    && f'.now == f.now + 1
    && forall a: nat, b: nat :: a < Cols(f.w) && b < Cols(f.h) ==>
         f'.TileVersion(a, b) == if Touched(Clipped(damage, f.w, f.h), a, b) then f'.now else f.TileVersion(a, b)
  }

  // The shared framebuffer.

  /** A reader's own image. */
  class Reader {
    var w: nat
    var h: nat
    var pix: seq<Pixel>
    var seen: nat

    constructor ()
      ensures Value() == Copy(0, 0, [], 0)
    {
      w, h, pix, seen := 0, 0, [], 0;
    }

    function Value(): Copy
      reads this
    {
      Copy(w, h, pix, seen)
    }
  }

  class Display {
    var w: nat
    var h: nat
    var frame: array<Pixel>
    var shared: bool
    var versions: seq<nat>
    var now: nat
    ghost var handed: set<array<Pixel>> // frames given to readers without a copy

    constructor ()
      ensures Valid() && handed == {} && Value() == Frame(1024, 768, [], [], 0)
    {
      w, h, frame := 1024, 768, new Pixel[0];
      shared, versions, now, handed := false, [], 0, {};
    }

    function Value(): Frame
      reads this, frame
    {
      Frame(w, h, frame[..], versions, now)
    }

    /** Exactly a frame that was handed out is marked, so that nobody draws on it. */
    ghost predicate Valid()
      reads this, frame
    {
      Value().Valid() && (frame in handed <==> shared)
    }

    /** Publishes a whole picture in a new frame. */
    method Flush(width: int, height: int, img: Option<Img>) returns (ok: bool)
      requires Valid()
      modifies this
      ensures Valid() && handed == old(handed)
      ensures ok <==> width <= 0 || height <= 0 || (img.Some? && img.value.Holds(width, height))
      ensures !(ok && width > 0 && height > 0) ==> Value() == old(Value())
      ensures ok && width > 0 && height > 0 ==>
        && Publishes(old(Value()), Value()) && fresh(frame) && !shared
        && w == width && h == height && AllNew(Value())
        && forall x: nat, y: nat :: x < w && y < h ==> Value().Pix(x, y) == img.value.P(x, y)
    {
      if width <= 0 || height <= 0 {
        return true;
      }
      if img.None? || !img.value.Holds(width, height) {
        return false;
      }
      var picture := new Pixel[width * height];
      DrawDamage(picture, width, height, [Rect(0, 0, width, height)], img.value);
      WholeCovered(width, height);
      w, h, frame, shared := width, height, picture, false;
      now := now + 1;
      MarkAll();
      AllStamped(old(Value()), Value());
      ok := true;
    }

    /** Every tile gets the current stamp. */
    method MarkAll()
      requires w > 0 && h > 0
      modifies `versions
      ensures |versions| == Cols(w) * Cols(h)
      ensures forall t :: 0 <= t < |versions| ==> versions[t] == now
    {
      var stamp := now;
      versions := seq(Cols(w) * Cols(h), _ => stamp);
    }

    /** Publishes the damaged parts of a picture, or all of it when the geometry is new. */
    method FlushDamage(width: int, height: int, img: Option<Img>, damage: Option<seq<Rect>>)
      returns (ok: bool, published: bool)
      requires Valid()
      modifies this, frame
      ensures Valid() && handed == old(handed)
      ensures forall a :: a in handed ==> a[..] == old(a[..])
      ensures ok <==> width <= 0 || height <= 0 || (img.Some? && img.value.Holds(width, height))
      ensures !published ==> Value() == old(Value())
      ensures published ==>
        ok && width > 0 && height > 0 && Publishes(old(Value()), Value()) && w == width && h == height && !shared
      ensures !old(shared) && old(frame.Length) == width * height ==> frame == old(frame)
      ensures published ==>
        var whole := damage.None? || old(w) != width || old(h) != height || old(frame.Length) != width * height;
        forall x: nat, y: nat :: x < w && y < h ==>
          Value().Pix(x, y) == if whole || Covered(Clipped(damage.value, w, h), x, y) then img.value.P(x, y)
                               else old(Value()).Pix(x, y)
      ensures published ==>
        if damage.None? || old(w) != width || old(h) != height || old(frame.Length) != width * height
        then AllNew(Value()) else StampsTouched(old(Value()), Value(), damage.value)
      ensures ok && width > 0 && height > 0 && !published ==>
        damage.Some? && forall x, y :: !Covered(Clipped(damage.value, width, height), x, y)
    {
      hide Publishes, Frame.Valid, Covered, Touched, AllNew, StampsTouched;
      published := false;
      if width <= 0 || height <= 0 {
        return true, false;
      }
      if img.None? || !img.value.Holds(width, height) {
        return false, false;
      }
      ok := true;
      if damage.None? || w != width || h != height || frame.Length != width * height {
        DrawWhole(width, height, img.value);
        published := true;
        return;
      }
      var any := AnyDamage(damage.value, w, h);
      if any {
        DrawPart(img.value, damage.value);
        published := true;
      }
    }

    /** A full publication; the old frame is reused when it has the size and nobody holds it. */
    method DrawWhole(width: nat, height: nat, img: Img)
      requires Valid() && width > 0 && height > 0 && img.Holds(width, height)
      modifies this, frame
      ensures Valid() && handed == old(handed)
      ensures forall a :: a in handed ==> a[..] == old(a[..])
      ensures Publishes(old(Value()), Value()) && w == width && h == height && !shared
      ensures !old(shared) && old(frame.Length) == width * height ==> frame == old(frame)
      ensures forall x: nat, y: nat :: x < w && y < h ==> Value().Pix(x, y) == img.P(x, y)
      ensures AllNew(Value())
    {
      ghost var before := Value();
      if frame.Length != width * height || shared {
        frame := new Pixel[width * height];
      }
      shared := false;
      w, h := width, height;
      DrawDamage(frame, width, height, [Rect(0, 0, width, height)], img);
      WholeCovered(width, height);
      now := now + 1;
      MarkAll();
      AllStamped(before, Value());
    }

    /** A partial publication on the same geometry. */
    method DrawPart(img: Img, damage: seq<Rect>)
      requires Valid() && w > 0 && h > 0 && frame.Length == w * h && img.Holds(w, h)
      modifies this, frame
      ensures Valid() && handed == old(handed) && w == old(w) && h == old(h)
      ensures forall a :: a in handed ==> a[..] == old(a[..])
      ensures Publishes(old(Value()), Value()) && !shared && (!old(shared) ==> frame == old(frame))
      ensures forall x: nat, y: nat :: x < w && y < h ==>
        Value().Pix(x, y) == if Covered(Clipped(damage, w, h), x, y) then img.P(x, y) else old(Value()).Pix(x, y)
      ensures StampsTouched(old(Value()), Value(), damage)
    {
      ghost var before := Value();
      AtBounds(w, h, 0, 0);
      if shared {
        var copy := new Pixel[frame.Length](i requires 0 <= i < frame.Length reads this, frame => frame[i]);
        assert copy[..] == frame[..];
        frame := copy;
      }
      shared := false;
      assert Value().pix == before.pix;
      DrawDamage(frame, w, h, damage, img);
      now := now + 1;
      versions := StampDamage(versions, w, h, damage, now);
      StampsBounded(before.versions, versions, w, h, now);
      PartStamped(before, Value(), damage, img);
    }

    /** Hands out the current frame itself; it must not be drawn on from now on. */
    method ChangedFrame(since: nat, force: bool) returns (changed: bool, picture: array<Pixel>)
      requires Valid()
      modifies `shared, `handed
      ensures Valid() && Value() == old(Value())
      ensures changed <==> force || now != since
      ensures changed ==> picture == frame && handed == old(handed) + {frame}
      ensures !changed ==> handed == old(handed) && fresh(picture) && picture.Length == 0
    {
      changed := force || now != since;
      if changed {
        picture := frame;
        shared := true;
        handed := handed + {frame};
      } else {
        picture := new Pixel[0];
      }
    }

    /**
     Brings a reader up to date by copying only what changed since its last copy.  Afterwards its image
     is the whole current frame, whatever it slept through.
     */
    method CopyFrameChanges(r: Reader, force: bool) returns (damage: seq<Rect>)
      requires Valid() && InSync(Value(), r.Value())
      modifies r
      ensures InSync(Value(), r.Value()) && r.Value().Fits(Value()) && r.seen == now
      ensures Shows(r.Value(), Value())
      ensures w > 0 && h > 0 ==> Tiling(damage, w, h) && |damage| <= MAX_RECTS
      ensures force || versions == [] || !old(r.Value()).Fits(Value()) ==> damage == [Rect(0, 0, w, h)]
      ensures damage == [Rect(0, 0, w, h)] || ShowsChanges(Value(), old(r.seen), damage)
      ensures !force && versions != [] && old(r.Value()).Fits(Value()) ==>
        FewChanges(Value(), old(r.seen)) ==> ShowsChanges(Value(), old(r.seen), damage)
      ensures old(r.Value()).Fits(Value()) ==> CoversDifference(old(r.Value()), r.Value(), damage)
    {
      hide Tiling, Covered, Frame.Version, PixOf, ShowsChanges, InSync, InsideAll, FewChanges, Shows,
           CoversDifference, Refreshed;
      var f := Value();
      ghost var c := r.Value();
      var whole := force || r.w != w || r.h != h || |r.pix| != w * h;
      if |r.pix| != w * h {
        r.pix := seq(w * h, _ => 0);
      }
      damage := ChangesSince(f, r.seen, whole);
      SeenNow(f, c);
      ghost var before := r.pix;
      r.pix := CopyRects(r.pix, w, h, damage, frame[..]);
      r.w, r.h, r.seen := w, h, now;
      CaughtUp(f, c, damage, before, r.pix);
    }
  }

  /** The parts cover exactly the tiles that changed after `since`. */
  ghost predicate ShowsChanges(f: Frame, since: nat, damage: seq<Rect>) {
    forall x, y :: Covered(damage, x, y) <==> f.InBounds(x, y) && f.Version(x, y) > since
  }

  /** A rectangle for each changed tile is not too many. */
  ghost predicate FewChanges(f: Frame, since: nat) { |ChangedTiles(f, since)| <= MAX_RECTS }

  /** What a reader at stamp `since` has to copy. */
  method ChangesSince(f: Frame, since: nat, whole: bool) returns (damage: seq<Rect>)
    requires f.Valid()
    ensures whole || f.versions == [] ==> damage == [Rect(0, 0, f.w, f.h)]
    ensures damage == [Rect(0, 0, f.w, f.h)] || ShowsChanges(f, since, damage)
    ensures !whole && f.versions != [] && FewChanges(f, since) ==> ShowsChanges(f, since, damage)
    ensures f.w > 0 && f.h > 0 ==> Tiling(damage, f.w, f.h) && |damage| <= MAX_RECTS
    ensures InsideAll(damage, f.w, f.h)
  {
    hide Tiling, Covered, Frame.Version, PixOf;
    if whole || |f.versions| == 0 {
      damage := [Rect(0, 0, f.w, f.h)];
      WholeTiling(f.w, f.h);
    } else {
      FrameNotEmpty(f);
      ghost var all;
      damage, all := ChangedTileRects(f, since);
      TilingInside(damage, f.w, f.h);
    }
  }

  /** The copy is the frame, pixel by pixel. */
  ghost predicate Shows(c: Copy, f: Frame) {
    c.Fits(f) && forall x: nat, y: nat :: x < f.w && y < f.h ==> c.Pix(x, y) == f.Pix(x, y)
  }

  /** Every pixel in which two copies of the same size differ is damaged. */
  ghost predicate CoversDifference(c: Copy, c': Copy, damage: seq<Rect>) {
    forall x: nat, y: nat :: x < c'.w && y < c'.h && c'.Pix(x, y) != c.Pix(x, y) ==> Covered(damage, x, y)
  }

  /** The damaged pixels were taken from the frame, the others are as before. */
  ghost predicate Refreshed(before: seq<Pixel>, after: seq<Pixel>, w: nat, h: nat, rects: seq<Rect>,
                            frame: seq<Pixel>)
  {
    && |after| == |before|
    && forall x: nat, y: nat :: x < w && y < h ==>
         PixOf(after, w, x, y) == if Covered(rects, x, y) then PixOf(frame, w, x, y) else PixOf(before, w, x, y)
  }

  lemma SeenNow(f: Frame, c: Copy)
    requires InSync(f, c)
    ensures c.seen <= f.now
  {
  }

  /** A copy whose damaged parts were refreshed is the frame, and every pixel that changed was damaged. */
  lemma CaughtUp(f: Frame, c: Copy, damage: seq<Rect>, before: seq<Pixel>, after: seq<Pixel>)
    requires InSync(f, c) && |before| == f.w * f.h && (c.Fits(f) ==> before == c.pix)
    requires damage == [Rect(0, 0, f.w, f.h)] || (c.Fits(f) && f.versions != [] && ShowsChanges(f, c.seen, damage))
    requires Refreshed(before, after, f.w, f.h, damage, f.pix)
    ensures var c' := Copy(f.w, f.h, after, f.now);
      c'.Fits(f) && Shows(c', f) && InSync(f, c') && (c.Fits(f) ==> CoversDifference(c, c', damage))
  {
    hide Covered, Frame.Version, PixOf;
    BoundsCovered(f.w, f.h);
    forall x: nat, y: nat | x < f.w && y < f.h
      ensures PixOf(after, f.w, x, y) == f.Pix(x, y)
    {
      if !Covered(damage, x, y) {
        assert f.InBounds(x, y) && f.Version(x, y) <= c.seen;
      }
    }
  }

  lemma FrameNotEmpty(f: Frame)
    requires f.Valid() && f.versions != []
    ensures f.w > 0 && f.h > 0
  {
    assert Cols(0) == 0;
  }

  lemma BoundsCovered(w: nat, h: nat)
    ensures forall x, y :: Covered([Rect(0, 0, w, h)], x, y) <==> 0 <= x < w && 0 <= y < h
  {
    var rects := [Rect(0, 0, w, h)];
    forall x, y
      ensures Covered(rects, x, y) <==> 0 <= x < w && 0 <= y < h
    {
      assert rects[0].Has(x, y) <==> 0 <= x < w && 0 <= y < h;
    }
  }

  lemma WholeTiling(w: nat, h: nat)
    ensures w > 0 && h > 0 ==> Tiling([Rect(0, 0, w, h)], w, h)
  {
  }

  lemma TilingInside(rects: seq<Rect>, w: nat, h: nat)
    requires Tiling(rects, w, h)
    ensures InsideAll(rects, w, h)
  {
  }

  ghost predicate InsideAll(rects: seq<Rect>, w: nat, h: nat) {
    forall k :: 0 <= k < |rects| ==> 0 <= rects[k].x0 <= rects[k].x1 <= w && 0 <= rects[k].y0 <= rects[k].y1 <= h
  }

  /** Whether any damaged part is visible. */
  method AnyDamage(damage: seq<Rect>, w: nat, h: nat) returns (any: bool)
    ensures any <==> exists x, y :: Covered(Clipped(damage, w, h), x, y)
  {
    ghost var clipped := Clipped(damage, w, h);
    var i := 0;
    while i < |damage|
      invariant 0 <= i <= |damage|
      invariant forall k, x, y :: 0 <= k < i ==> !clipped[k].Has(x, y)
    {
      var c := damage[i].Clip(w, h);
      if !c.Empty() {
        assert clipped[i].Has(c.x0, c.y0);
        assert Covered(clipped, c.x0, c.y0);
        return true;
      }
      i := i + 1;
    }
    return false;
  }

  lemma StampsBounded(versions: seq<nat>, out: seq<nat>, w: nat, h: nat, now: nat)
    requires |out| == |versions| == Cols(w) * Cols(h)
    requires forall t :: 0 <= t < |versions| ==> versions[t] <= now
    requires forall a: nat, b: nat :: a < Cols(w) && b < Cols(h) ==>
      StampAt(out, w, a, b) == now || StampAt(out, w, a, b) == StampAt(versions, w, a, b)
    ensures forall t :: 0 <= t < |out| ==> out[t] <= now
  {
    hide Cols, At;
    forall t | 0 <= t < |out|
      ensures out[t] <= now
    {
      var a, b := TileAt(out, w, h, t);
      assert StampAt(out, w, a, b) == now || StampAt(out, w, a, b) == StampAt(versions, w, a, b);
    }
  }

  /** Every stamp is the stamp of a tile. */
  lemma TileAt(versions: seq<nat>, w: nat, h: nat, t: nat) returns (a: nat, b: nat)
    requires t < |versions| == Cols(w) * Cols(h)
    ensures a < Cols(w) && b < Cols(h) && At(Cols(w), a, b) == t
  {
    AtOf(Cols(w), Cols(h), t);
    a, b := t % Cols(w), t / Cols(w);
  }

  /** Stamping what was drawn is a publication. */
  lemma PartStamped(f: Frame, f': Frame, damage: seq<Rect>, img: Img)
    requires f.versions != [] && f'.w == f.w && f'.h == f.h && f'.now == f.now + 1 && img.Holds(f.w, f.h)
    requires forall a: nat, b: nat :: a < Cols(f.w) && b < Cols(f.h) ==>
      f'.TileVersion(a, b) == if Touched(Clipped(damage, f.w, f.h), a, b) then f'.now else f.TileVersion(a, b)
    requires forall x: nat, y: nat :: x < f.w && y < f.h ==>
      f'.Pix(x, y) == if Covered(Clipped(damage, f.w, f.h), x, y) then img.P(x, y) else f.Pix(x, y)
    ensures Publishes(f, f')
  {
    forall x: nat, y: nat | f'.InBounds(x, y)
      ensures f'.Version(x, y) == f'.now || (f'.Version(x, y) == f.Version(x, y) && f'.Pix(x, y) == f.Pix(x, y))
    {
      if Covered(Clipped(damage, f.w, f.h), x, y) {
        CoveredTouched(Clipped(damage, f.w, f.h), x, y);
      }
    }
  }

  lemma WholeCovered(w: nat, h: nat)
    ensures forall x, y :: Covered(Clipped([Rect(0, 0, w, h)], w, h), x, y) <==> 0 <= x < w && 0 <= y < h
  {
    var c := Clipped([Rect(0, 0, w, h)], w, h);
    forall x, y
      ensures Covered(c, x, y) <==> 0 <= x < w && 0 <= y < h
    {
      assert c[0].Has(x, y) <==> 0 <= x < w && 0 <= y < h;
    }
  }

  lemma AllStamped(f: Frame, f': Frame)
    requires f'.now == f.now + 1 && f'.w > 0 && f'.h > 0 && |f'.versions| == Cols(f'.w) * Cols(f'.h)
    requires forall t :: 0 <= t < |f'.versions| ==> f'.versions[t] == f'.now
    ensures Publishes(f, f') && f'.versions != []
  {
    forall x: nat, y: nat | f'.InBounds(x, y)
      ensures f'.Version(x, y) == f'.now
    {
      AtBounds(Cols(f'.w), Cols(f'.h), x / TILE, y / TILE);
    }
    AtBounds(Cols(f'.w), Cols(f'.h), 0, 0);
  }

  /** A reader's pixels after the given parts were copied from the frame; parts it lacks read as blank. */
  method CopyRects(pix: seq<Pixel>, w: nat, h: nat, rects: seq<Rect>, frame: seq<Pixel>) returns (out: seq<Pixel>)
    requires |pix| == w * h && (frame == [] || |frame| == w * h)
    requires InsideAll(rects, w, h)
    ensures Refreshed(pix, out, w, h, rects, frame)
  {
    hide Covered;
    out := pix;
    var i := 0;
    NoneCovered(rects);
    while i < |rects|
      invariant 0 <= i <= |rects| && |out| == |pix|
      invariant forall x: nat, y: nat :: x < w && y < h ==>
        PixOf(out, w, x, y) == if Covered(rects[..i], x, y) then PixOf(frame, w, x, y) else PixOf(pix, w, x, y)
    {
      out := CopyRect(out, w, h, rects[i], frame);
      AppendedCover(rects[..i], rects[i]);
      assert rects[..i] + [rects[i]] == rects[..i + 1];
      i := i + 1;
    }
    assert rects[..i] == rects;
  }

  method CopyRect(pix: seq<Pixel>, w: nat, h: nat, r: Rect, frame: seq<Pixel>) returns (out: seq<Pixel>)
    requires |pix| == w * h && (frame == [] || |frame| == w * h)
    requires 0 <= r.x0 <= r.x1 <= w && 0 <= r.y0 <= r.y1 <= h
    ensures |out| == |pix|
    ensures forall x: nat, y: nat :: x < w && y < h ==>
      PixOf(out, w, x, y) == if r.Has(x, y) then PixOf(frame, w, x, y) else PixOf(pix, w, x, y)
  {
    out := pix;
    var y := r.y0;
    while y < r.y1
      invariant r.y0 <= y <= r.y1 && |out| == |pix|
      invariant forall a: nat, b: nat :: a < w && b < h ==>
        PixOf(out, w, a, b) == if r.(y1 := y).Has(a, b) then PixOf(frame, w, a, b) else PixOf(pix, w, a, b)
    {
      var start, end := At(w, r.x0, y), At(w, r.x0, y) + (r.x1 - r.x0);
      RowBounds(w, h, r, y);
      ghost var before := out;
      if end <= |frame| {
        out := out[..start] + frame[start..end] + out[end..];
      } else {
        out := out[..start] + seq(end - start, _ => 0) + out[end..];
      }
      RowCopied(w, h, pix, before, out, r, y, frame);
      y := y + 1;
    }
  }

  lemma RowBounds(w: nat, h: nat, r: Rect, y: nat)
    requires 0 <= r.x0 <= r.x1 <= w && y < h
    ensures At(w, r.x0, y) + (r.x1 - r.x0) <= w * h
  {
    MulStep(w, h, y);
  }

  lemma RowCopied(w: nat, h: nat, pix: seq<Pixel>, before: seq<Pixel>, out: seq<Pixel>, r: Rect, y: nat,
                  frame: seq<Pixel>)
    requires |out| == |before| == |pix| == w * h && (frame == [] || |frame| == w * h)
    requires 0 <= r.x0 <= r.x1 <= w && r.y0 <= y < h
    requires forall a: nat, b: nat :: a < w && b < h ==>
      PixOf(before, w, a, b) == if r.(y1 := y).Has(a, b) then PixOf(frame, w, a, b) else PixOf(pix, w, a, b)
    requires forall k :: 0 <= k < |out| ==>
      out[k] == if At(w, r.x0, y) <= k < At(w, r.x0, y) + (r.x1 - r.x0)
                then (if k < |frame| then frame[k] else 0) else before[k]
    ensures forall a: nat, b: nat :: a < w && b < h ==>
      PixOf(out, w, a, b) == if r.(y1 := y + 1).Has(a, b) then PixOf(frame, w, a, b) else PixOf(pix, w, a, b)
  {
    forall a: nat, b: nat | a < w && b < h
      ensures PixOf(out, w, a, b) == if r.(y1 := y + 1).Has(a, b) then PixOf(frame, w, a, b) else PixOf(pix, w, a, b)
    {
      AtBounds(w, h, a, b);
      var k := At(w, a, b);
      if At(w, r.x0, y) <= k < At(w, r.x0, y) + (r.x1 - r.x0) {
        var x := r.x0 + (k - At(w, r.x0, y));
        AtUnique(w, a, b, x, y);
      }
    }
  }
}
