/** Where the projected video sits on the touch screen, and how raw touch coordinates map
    into the coordinates the phone expects. Exact arithmetic stands for floating point. */
module TouchMapping {

  function Times(a: real, b: real): real {
    a * b
  }

  function Over(a: real, b: real): real
    requires b > 0.0
  {
    a / b
  }

  // ---- The arithmetic the proofs need ----

  lemma OverTimes(a: real, b: real)
    requires b > 0.0
    ensures Times(Over(a, b), b) == a
  {
  }

  lemma Positive(a: real, b: real)
    requires a > 0.0 && b > 0.0
    ensures Times(a, b) > 0.0 && Over(a, b) > 0.0
  {
  }

  /** Multiplying by a positive number keeps the order. */
  lemma TimesOrder(a: real, b: real, c: real)
    requires c > 0.0
    ensures a <= b <==> Times(a, c) <= Times(b, c)
    ensures a < b <==> Times(a, c) < Times(b, c)
    ensures Times(0.0, c) == 0.0 && Times(1.0, c) == c
  {
    assert Times(b, c) - Times(a, c) == (b - a) * c;
    if a < b {
      Positive(b - a, c);
    } else if b < a {
      Positive(a - b, c);
      assert (a - b) * c == -((b - a) * c);
    }
  }

  lemma Regroup(a: real, b: real, c: real)
    ensures Times(Times(a, b), c) == Times(a, Times(b, c)) && Times(a, b) == Times(b, a)
  {
  }

  lemma FloorOrder(a: real, b: real)
    requires a <= b
    ensures a.Floor <= b.Floor
  {
  }

  // ---- Configuration ----

  datatype Config = Config(
    aaWidth: int, aaHeight: int, displayWidth: int, displayHeight: int,
    contentWidth: int, contentHeight: int,
    navbarEnabled: bool, navbarThickness: int, navbarEdge: string)

  /** A rectangle on the display, in pixels. */
  datatype Rect = Rect(x: real, y: real, w: real, h: real)

  /** The video rectangle in device units, and the phone's coordinate range. */
  datatype Mapping = Mapping(video: Rect, visibleWidth: int, visibleHeight: int)

  function AtLeastOne(n: int): (m: int)
    ensures m >= 1
  {
    if n < 1 then 1 else n
  }

  /** The display less the navigation bar. */
  function Effective(c: Config): (r: Rect)
    ensures r.w >= 1.0 && r.h >= 1.0
  {
    var bar := c.navbarEnabled && c.navbarThickness > 0;
    var horizontal := c.navbarEdge == "top" || c.navbarEdge == "bottom";
    var h := if bar && horizontal then c.displayHeight - c.navbarThickness else c.displayHeight;
    var w := if bar && !horizontal then c.displayWidth - c.navbarThickness else c.displayWidth;
    var y0 := if bar && horizontal && c.navbarEdge == "top" then c.navbarThickness else 0;
    var x0 := if bar && !horizontal && c.navbarEdge == "left" then c.navbarThickness else 0;
    Rect(x0 as real, y0 as real, AtLeastOne(w) as real, AtLeastOne(h) as real)
  }

  function VisibleWidth(c: Config): int {
    if c.contentWidth > 0 then c.contentWidth else c.aaWidth
  }

  function VisibleHeight(c: Config): int {
    if c.contentHeight > 0 then c.contentHeight else c.aaHeight
  }

  ghost predicate Drawable(c: Config) {
    VisibleWidth(c) > 0 && VisibleHeight(c) > 0
  }

  /** The largest rectangle of the content's shape inside the effective display, centred. */
  function VideoPixels(c: Config): Rect
    requires Drawable(c)
  {
    var e := Effective(c);
    var contentAspect := Over(VisibleWidth(c) as real, VisibleHeight(c) as real);
    if contentAspect > Over(e.w, e.h) then
      Positive(VisibleWidth(c) as real, VisibleHeight(c) as real);
      var h := Over(e.w, contentAspect);
      Rect(e.x, e.y + (e.h - h) / 2.0, e.w, h)
    else
      var w := Times(e.h, contentAspect);
      Rect(e.x + (e.w - w) / 2.0, e.y, w, e.h)
  }

  function ComputeLetterbox(c: Config, screenWidth: int, screenHeight: int): Mapping
    requires Drawable(c)
  {
    var p := VideoPixels(c);
    var sx := Over(screenWidth as real, AtLeastOne(c.displayWidth) as real);
    var sy := Over(screenHeight as real, AtLeastOne(c.displayHeight) as real);
    Mapping(Rect(Times(p.x, sx), Times(p.y, sy), Times(p.w, sx), Times(p.h, sy)), VisibleWidth(c), VisibleHeight(c))
  }

  function Clamp01(r: real): real {
    if r < 0.0 then 0.0 else if r > 1.0 then 1.0 else r
  }

  ghost predicate Valid(m: Mapping) {
    m.video.w > 0.0 && m.video.h > 0.0 && m.visibleWidth > 0 && m.visibleHeight > 0
  }

  function MapAxis(raw: int, origin: real, extent: real, visible: int): int
    requires extent > 0.0
  {
    Times(Clamp01(Over(raw as real - origin, extent)), visible as real).Floor
  }

  function MapX(m: Mapping, raw: int): int
    requires Valid(m)
  {
    MapAxis(raw, m.video.x, m.video.w, m.visibleWidth)
  }

  function MapY(m: Mapping, raw: int): int
    requires Valid(m)
  {
    MapAxis(raw, m.video.y, m.video.h, m.visibleHeight)
  }

  // ---- Properties ----

  /** The video keeps the content's shape, lies inside the effective display with equal bars,
      and fills it in one direction. */
  lemma VideoFits(c: Config)
    requires Drawable(c)
    ensures var e, p := Effective(c), VideoPixels(c);
            && p.w > 0.0 && p.h > 0.0
            && Times(p.w, VisibleHeight(c) as real) == Times(p.h, VisibleWidth(c) as real)
            && e.x <= p.x && p.x + p.w <= e.x + e.w && e.y <= p.y && p.y + p.h <= e.y + e.h
            && p.x - e.x == (e.x + e.w) - (p.x + p.w) && p.y - e.y == (e.y + e.h) - (p.y + p.h)
            && (p.w == e.w || p.h == e.h)
  {
    hide Times, Over, Effective, VisibleWidth, VisibleHeight;
    var e := Effective(c);
    var vw, vh := VisibleWidth(c) as real, VisibleHeight(c) as real;
    Positive(vw, vh);
    Positive(e.w, e.h);
    if Over(vw, vh) > Over(e.w, e.h) {
      WideShape(e.w, e.h, vw, vh);
    } else {
      TallShape(e.w, e.h, vw, vh);
    }
  }

  /** Content wider than the display: as wide as the display, and no higher. */
  lemma WideShape(ew: real, eh: real, vw: real, vh: real)
    requires ew > 0.0 && eh > 0.0 && vw > 0.0 && vh > 0.0
    requires Over(vw, vh) > 0.0 && Over(vw, vh) > Over(ew, eh)
    ensures var h := Over(ew, Over(vw, vh));
            0.0 < h <= eh && Times(ew, vh) == Times(h, vw)
  {
    hide Times, Over;
    var a := Over(vw, vh);
    var h := Over(ew, a);
    Positive(ew, a);
    OverTimes(vw, vh);
    OverTimes(ew, eh);
    OverTimes(ew, a);
    TimesOrder(a, Over(ew, eh), eh);
    TimesOrder(h, eh, a);
    Regroup(eh, a, vh);
    Regroup(h, a, vh);
  }

  /** Content no wider than the display: as high as the display, and no wider. */
  lemma TallShape(ew: real, eh: real, vw: real, vh: real)
    requires ew > 0.0 && eh > 0.0 && vw > 0.0 && vh > 0.0
    requires 0.0 < Over(vw, vh) <= Over(ew, eh)
    ensures var w := Times(eh, Over(vw, vh));
            0.0 < w <= ew && Times(w, vh) == Times(eh, vw)
  {
    hide Times, Over;
    var a := Over(vw, vh);
    OverTimes(vw, vh);
    OverTimes(ew, eh);
    Positive(eh, a);
    TimesOrder(a, Over(ew, eh), eh);
    Regroup(eh, a, vh);
  }

  lemma LetterboxValid(c: Config, screenWidth: int, screenHeight: int)
    requires Drawable(c) && screenWidth >= 1 && screenHeight >= 1
    ensures Valid(ComputeLetterbox(c, screenWidth, screenHeight))
  {
    hide VideoPixels, Times, Over, Effective;
    VideoFits(c);
    var p := VideoPixels(c);
    var dw, dh := AtLeastOne(c.displayWidth) as real, AtLeastOne(c.displayHeight) as real;
    Positive(screenWidth as real, dw);
    Positive(screenHeight as real, dh);
    Positive(p.w, Over(screenWidth as real, dw));
    Positive(p.h, Over(screenHeight as real, dh));
  }

  /** Coordinates stay in the phone's range, grow with the raw value, and a touch on a bar
      maps to the edge of the video next to it. */
  lemma AxisMaps(a: int, b: int, origin: real, extent: real, visible: int)
    requires extent > 0.0 && visible > 0 && a <= b
    ensures 0 <= MapAxis(a, origin, extent, visible) <= MapAxis(b, origin, extent, visible) <= visible
    ensures a as real <= origin ==> MapAxis(a, origin, extent, visible) == 0
    ensures b as real >= origin + extent ==> MapAxis(b, origin, extent, visible) == visible
  {
    hide Times, Over;
    var v, da, db := visible as real, a as real - origin, b as real - origin;
    var ra, rb := Over(da, extent), Over(db, extent);
    OverTimes(da, extent);
    OverTimes(db, extent);
    assert da <= db;
    TimesOrder(ra, rb, extent);
    TimesOrder(ra, 0.0, extent);
    TimesOrder(1.0, rb, extent);
    ScaledOrder(Clamp01(ra), Clamp01(rb), visible);
  }

  lemma ScaledOrder(p: real, q: real, visible: int)
    requires 0.0 <= p <= q <= 1.0 && visible > 0
    ensures 0 <= Times(p, visible as real).Floor <= Times(q, visible as real).Floor <= visible
    ensures Times(0.0, visible as real).Floor == 0 && Times(1.0, visible as real).Floor == visible
  {
    hide Times;
    var v := visible as real;
    TimesOrder(p, q, v);
    TimesOrder(0.0, p, v);
    TimesOrder(q, 1.0, v);
    FloorOrder(Times(p, v), Times(q, v));
    FloorOrder(0.0, Times(p, v));
    FloorOrder(Times(q, v), v);
  }
}
