/**
 * The part of the browser's 2D canvas API the compositor relies on, as pure
 * functions on a pixel map.  A surface maps every point of the canvas to a
 * pixel; an ImageData maps points RELATIVE to the corner it was read from
 * (as `getImageData` / `putImageData` do).  Points that fall outside the
 * surface are dropped, which is the canvas's clipping.
 */
module Canvas {

  /** A pixel is kept symbolic: `Over(dst, src)` is the result of drawing
      `src` on top of `dst` with the canvas's default source-over compositing.
      No law of alpha compositing is assumed, so no equation proved here
      depends on how the browser blends pixels.  Image data, on the other
      hand, is copied exactly. */
  datatype Pixel = Transparent | Color(rgba: nat) | Over(dst: Pixel, src: Pixel)

  datatype Point = Point(x: int, y: int)

  datatype Rect = Rect(left: int, top: int, width: nat, height: nat)

  type Surface = map<Point, Pixel>

  type ImageData = map<Point, Pixel>

  predicate InRect(p: Point, r: Rect) {
    r.left <= p.x < r.left + r.width && r.top <= p.y < r.top + r.height
  }

  function Shift(p: Point, dx: int, dy: int): Point {
    Point(p.x + dx, p.y + dy)
  }

  /** The finite set of points covered by a rectangle. */
  function RectPoints(r: Rect): (ps: set<Point>)
    ensures forall p :: p in ps <==> InRect(p, r)
  {
    var ps := set x: int, y: int | r.left <= x < r.left + r.width && r.top <= y < r.top + r.height :: Point(x, y);
    assert forall p :: InRect(p, r) ==> p in ps by {
      forall p | InRect(p, r) ensures p in ps {
        assert p == Point(p.x, p.y);
      }
    }
    ps
  }

  /** The points of a `width` x `height` canvas. */
  function CanvasPoints(width: nat, height: nat): set<Point> {
    RectPoints(Rect(0, 0, width, height))
  }

  /** A freshly created canvas: every pixel fully transparent. */
  function BlankSurface(width: nat, height: nat): (s: Surface)
    ensures s.Keys == CanvasPoints(width, height)
    ensures forall p :: p in s ==> s[p] == Transparent
  {
    map p | p in CanvasPoints(width, height) :: Transparent
  }

  /** `clearRect`: the pixels under `r` become transparent. */
  function ClearRect(s: Surface, r: Rect): (s': Surface)
    ensures s'.Keys == s.Keys
  {
    map p | p in s :: if InRect(p, r) then Transparent else s[p]
  }

  /** `getImageData(r.left, r.top, r.width, r.height)`: a copy of the pixels
      under `r`, indexed from the rectangle's corner. */
  function GetImageData(s: Surface, r: Rect): (img: ImageData)
    ensures forall q {:trigger q in img} :: q in img <==> InRect(q, Rect(0, 0, r.width, r.height)) && Shift(q, r.left, r.top) in s
  {
    map q | q in RectPoints(Rect(0, 0, r.width, r.height)) && Shift(q, r.left, r.top) in s :: s[Shift(q, r.left, r.top)]
  }

  /** `putImageData(img, dx, dy)`: every pixel of `img` replaces the surface
      pixel it lands on; no compositing. */
  function PutImageData(s: Surface, img: ImageData, dx: int, dy: int): (s': Surface)
    ensures s'.Keys == s.Keys
  {
    map p | p in s :: if Shift(p, -dx, -dy) in img then img[Shift(p, -dx, -dy)] else s[p]
  }

  /** `drawImage(bitmap, dx, dy)`: every pixel of the bitmap is composited
      over the surface pixel it lands on. */
  function DrawImage(s: Surface, bitmap: ImageData, dx: int, dy: int): (s': Surface)
    ensures s'.Keys == s.Keys
  {
    map p | p in s :: if Shift(p, -dx, -dy) in bitmap then Over(s[p], bitmap[Shift(p, -dx, -dy)]) else s[p]
  }

  /** Putting back the pixels read from `r` undoes any change that stayed
      inside `r`: the round trip that disposal to the previous contents
      relies on. */
  lemma RestoreRegion(before: Surface, after: Surface, r: Rect)
    requires after.Keys == before.Keys
    requires forall p :: p in before && !InRect(p, r) ==> after[p] == before[p]
    ensures PutImageData(after, GetImageData(before, r), r.left, r.top) == before
  {
    var restored := PutImageData(after, GetImageData(before, r), r.left, r.top);
    forall p | p in before
      ensures restored[p] == before[p]
    {
      RestorePoint(before, after, r, p);
    }
  }

  /** The pointwise step of `RestoreRegion`. */
  lemma RestorePoint(before: Surface, after: Surface, r: Rect, p: Point)
    requires after.Keys == before.Keys && p in before
    requires !InRect(p, r) ==> after[p] == before[p]
    ensures PutImageData(after, GetImageData(before, r), r.left, r.top)[p] == before[p]
  {
    var img := GetImageData(before, r);
    var q := Shift(p, -r.left, -r.top);
    assert Shift(q, r.left, r.top) == p;
    if InRect(p, r) {
      assert InRect(q, Rect(0, 0, r.width, r.height));
      assert q in img;
    } else {
      assert q !in img;
    }
  }

  /** Reading the whole canvas yields the surface itself. */
  lemma SnapshotWholeCanvas(s: Surface, width: nat, height: nat)
    requires s.Keys == CanvasPoints(width, height)
    ensures GetImageData(s, Rect(0, 0, width, height)) == s
  {
    var img := GetImageData(s, Rect(0, 0, width, height));
    forall q ensures q in img <==> q in s {
      assert Shift(q, 0, 0) == q;
    }
    forall q | q in img ensures img[q] == s[q] {
      assert Shift(q, 0, 0) == q;
    }
  }

  /** Putting a whole-canvas snapshot at the origin reproduces the snapshot. */
  lemma RestoreWholeCanvas(s: Surface, img: ImageData)
    requires img.Keys == s.Keys
    ensures PutImageData(s, img, 0, 0) == img
  {
    var s' := PutImageData(s, img, 0, 0);
    forall p | p in s ensures s'[p] == img[p] {
      assert Shift(p, -0, -0) == p;
    }
  }

  /** Clearing the whole canvas gives a blank canvas, whatever it showed. */
  lemma ClearWholeCanvas(s: Surface, width: nat, height: nat)
    requires s.Keys == CanvasPoints(width, height)
    ensures ClearRect(s, Rect(0, 0, width, height)) == BlankSurface(width, height)
  {
  }
}
