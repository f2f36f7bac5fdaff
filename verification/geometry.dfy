/** Integer geometry of composite.py: Python's `int()` of a float product and
    floor division, the drop-shadow canvas of `add_drop_shadow`, and the subject
    placement and text anchors computed in `composite_screenshot`.
    Float ratios from the layout configuration are exact rationals here. */
module Geometry {
  import opened Arith

  datatype Fraction = Fraction(num: int, den: int)

  /** A layout ratio such as `phone_scale`, read exactly as num/den. */
  type Ratio = f: Fraction | f.den > 0 witness Fraction(0, 1)

  datatype Size = Size(w: int, h: int)
  datatype Point = Point(x: int, y: int)
  datatype Rect = Rect(x: int, y: int, w: int, h: int)

  /** Python's `int(n / d)` for d > 0: division truncating toward zero. */
  function TruncDiv(n: int, d: int): (q: int)
    requires d > 0
    ensures n >= 0 ==> 0 <= q && q * d <= n < q * d + d
    ensures n < 0 ==> q <= 0 && q * d - d < n <= q * d
  {
    if n >= 0 then
      DivBounds(n, d);
      n / d
    else
      DivBounds(-n, d);
      -((-n) / d)
  }

  /** Python's `a // d` for d > 0: division rounding down. */
  function FloorDiv(n: int, d: int): (q: int)
    requires d > 0
    ensures q * d <= n < q * d + d
  {
    DivBounds(n, d);
    n / d
  }

  /** Python's `int(x * ratio)`. */
  function Scale(x: int, q: Ratio): int {
    TruncDiv(x * q.num, q.den)
  }

  /** `r` lies inside `outer` (both as half-open pixel ranges). */
  predicate Inside(r: Rect, outer: Size) {
    0 <= r.x && 0 <= r.y && r.x + r.w <= outer.w && r.y + r.h <= outer.h
  }

  // ---------------------------------------------------------------------------
  // Drop shadow (`add_drop_shadow`)
  // ---------------------------------------------------------------------------

  /** The padded canvas, where the black shadow layer is pasted before the
      blur, and where the subject is pasted after it. */
  datatype ShadowLayout = ShadowLayout(canvas: Size, shadowAt: Point, subjectAt: Point, subject: Size)

  function SubjectRect(s: ShadowLayout): Rect {
    Rect(s.subjectAt.x, s.subjectAt.y, s.subject.w, s.subject.h)
  }

  function ShadowRect(s: ShadowLayout): Rect {
    Rect(s.shadowAt.x, s.shadowAt.y, s.subject.w, s.subject.h)
  }

  /** The subject sits 2*blur from every edge of the padded canvas, and the
      shadow layer is the subject's rectangle moved by (offset, offset). */
  function DropShadow(subject: Size, offset: int, blur: int): (s: ShadowLayout)
    ensures s.subject == subject
    ensures s.subjectAt.x == 2 * blur && s.subjectAt.y == 2 * blur
    ensures s.canvas.w - (s.subjectAt.x + subject.w) == 2 * blur
    ensures s.canvas.h - (s.subjectAt.y + subject.h) == 2 * blur
    ensures s.shadowAt == Point(s.subjectAt.x + offset, s.subjectAt.y + offset)
  {
    ShadowLayout(Size(subject.w + blur * 4, subject.h + blur * 4),
                 Point(blur * 2 + offset, blur * 2 + offset),
                 Point(blur * 2, blur * 2),
                 subject)
  }

  /** The padded canvas is exactly 4*blur larger in each axis. */
  lemma DropShadowSize(subject: Size, offset: int, blur: int)
    ensures DropShadow(subject, offset, blur).canvas == Size(subject.w + 4 * blur, subject.h + 4 * blur)
  {
  }

  /** With a non-negative blur and a non-negative subject size the subject lies
      wholly inside the padded canvas. */
  lemma SubjectInsideShadowCanvas(subject: Size, offset: int, blur: int)
    requires blur >= 0 && subject.w >= 0 && subject.h >= 0
    ensures Inside(SubjectRect(DropShadow(subject, offset, blur)), DropShadow(subject, offset, blur).canvas)
  {
  }

  /** The shadow layer is wholly inside the padded canvas exactly when the
      offset is at most the padding, so Pillow's paste clips nothing. */
  lemma ShadowInsideIff(subject: Size, offset: int, blur: int)
    ensures Inside(ShadowRect(DropShadow(subject, offset, blur)), DropShadow(subject, offset, blur).canvas)
            <==> -2 * blur <= offset <= 2 * blur
  {
  }

  // ---------------------------------------------------------------------------
  // Layout of one composite (`composite_screenshot`)
  // ---------------------------------------------------------------------------

  /** The numeric part of the `layout` section of the configuration. */
  datatype LayoutConfig = LayoutConfig(
    phoneScale: Ratio,
    cornerRadius: int,
    shadowOffset: int,
    shadowBlur: int,
    phoneYOffset: Ratio,
    titleY: Ratio,
    subtitleY: Ratio,
    glowRadius: int)

  /** Decoded images are at least one pixel in each direction. */
  type ImageSize = s: Size | s.w > 0 && s.h > 0 witness Size(1, 1)

  /** Where the scaled, rounded, shadowed subject goes on the canvas. */
  datatype SubjectPlacement = SubjectPlacement(
    scaled: Size,
    cornerRadius: int,
    shadow: ShadowLayout,
    pasteAt: Point)

  /** The scaled subject keeps the raw capture's aspect ratio up to truncation,
      the padded shadow image is centred horizontally (left margin rounded
      down) and pasted at the configured fraction of the canvas height. */
  function PlaceSubject(canvas: Size, raw: ImageSize, layout: LayoutConfig): (p: SubjectPlacement)
    ensures p.scaled.w == Scale(canvas.w, layout.phoneScale)
    ensures p.scaled.w >= 0 ==> p.scaled.h * raw.w <= raw.h * p.scaled.w < (p.scaled.h + 1) * raw.w
    ensures p.cornerRadius == Scale(layout.cornerRadius, layout.phoneScale)
    ensures p.shadow == DropShadow(p.scaled, layout.shadowOffset, layout.shadowBlur)
    ensures 2 * p.pasteAt.x <= canvas.w - p.shadow.canvas.w < 2 * p.pasteAt.x + 2
    ensures p.pasteAt.y == Scale(canvas.h, layout.phoneYOffset)
  {
    var phoneW := Scale(canvas.w, layout.phoneScale);
    var phoneH := TruncDiv(raw.h * phoneW, raw.w);
    var shadow := DropShadow(Size(phoneW, phoneH), layout.shadowOffset, layout.shadowBlur);
    SubjectPlacement(
      Size(phoneW, phoneH),
      Scale(layout.cornerRadius, layout.phoneScale),
      shadow,
      Point(FloorDiv(canvas.w - shadow.canvas.w, 2), Scale(canvas.h, layout.phoneYOffset)))
  }

  /** The rectangle of the canvas the subject itself covers: the paste position
      plus the subject's position inside the padded shadow image. */
  function VisibleSubject(p: SubjectPlacement): Rect {
    Rect(p.pasteAt.x + p.shadow.subjectAt.x, p.pasteAt.y + p.shadow.subjectAt.y,
         p.scaled.w, p.scaled.h)
  }

  /** The phone width is `floor(width * phone_scale)` for a non-negative scale. */
  lemma PhoneWidthIsFloor(canvas: Size, raw: ImageSize, layout: LayoutConfig)
    requires canvas.w >= 0 && layout.phoneScale.num >= 0
    ensures var w := PlaceSubject(canvas, raw, layout).scaled.w;
            0 <= w && w * layout.phoneScale.den <= canvas.w * layout.phoneScale.num
            < (w + 1) * layout.phoneScale.den
  {
    var w := PlaceSubject(canvas, raw, layout).scaled.w;
    assert canvas.w * layout.phoneScale.num >= 0 by {
      MulLeftMono(canvas.w, 0, layout.phoneScale.num);
    }
  }

  /** Left and right margins of the padded image differ by at most one pixel,
      the right one being the larger. */
  lemma CentredWithinOnePixel(canvas: Size, raw: ImageSize, layout: LayoutConfig)
    ensures var p := PlaceSubject(canvas, raw, layout);
            var left := p.pasteAt.x;
            var right := canvas.w - (p.pasteAt.x + p.shadow.canvas.w);
            left <= right <= left + 1
  {
  }

  /** The subject itself is centred the same way, and it appears at the paste
      position shifted by the shadow padding. */
  lemma VisibleSubjectCentred(canvas: Size, raw: ImageSize, layout: LayoutConfig)
    ensures var p := PlaceSubject(canvas, raw, layout);
            var v := VisibleSubject(p);
            var b := layout.shadowBlur;
            && v == Rect(p.pasteAt.x + 2 * b, p.pasteAt.y + 2 * b, p.scaled.w, p.scaled.h)
            && v.x <= canvas.w - (v.x + v.w) <= v.x + 1
  {
  }

  // ---------------------------------------------------------------------------
  // Text anchors (`composite_screenshot` calling `render_glow_text`)
  // ---------------------------------------------------------------------------

  /** `int(width * 0.065)` and `int(width * 0.035)`: the font sizes. */
  const TitleFontRatio: Ratio := Fraction(13, 200)
  const SubtitleFontRatio: Ratio := Fraction(7, 200)

  /** Anchors of the title and subtitle ("mt": middle-top) and the subtitle's
      glow radius. */
  datatype TextAnchors = TextAnchors(title: Point, subtitle: Point, titleGlow: int, subtitleGlow: int)

  function AnchorText(canvas: Size, layout: LayoutConfig): (a: TextAnchors)
    ensures a.title.x == a.subtitle.x
    ensures 2 * a.title.x <= canvas.w < 2 * a.title.x + 2
    ensures a.title.y == Scale(canvas.h, layout.titleY)
    ensures a.subtitle.y == Scale(canvas.h, layout.subtitleY)
    ensures a.titleGlow == layout.glowRadius
    ensures 2 * a.subtitleGlow <= layout.glowRadius < 2 * a.subtitleGlow + 2
  {
    TextAnchors(
      Point(FloorDiv(canvas.w, 2), Scale(canvas.h, layout.titleY)),
      Point(FloorDiv(canvas.w, 2), Scale(canvas.h, layout.subtitleY)),
      layout.glowRadius,
      FloorDiv(layout.glowRadius, 2))
  }

  /** A 200 x 400 device with `phone_scale` 0.8, `corner_radius` 20,
      `shadow_offset` 4, `shadow_blur` 8, `phone_y_offset` 0.3, `title_y` 0.1,
      `subtitle_y` 0.2 and `glow_radius` 6, and a 100 x 200 capture: the phone
      is 160 x 320 with radius 16, the shadowed image is 192 wide and pasted at
      (4, 120), the captions hang from (100, 40) and (100, 80), and the
      subtitle glow is 3. */
  lemma StoreLayoutExample()
    ensures var layout := LayoutConfig(Fraction(4, 5), 20, 4, 8, Fraction(3, 10), Fraction(1, 10), Fraction(1, 5), 6);
            var p := PlaceSubject(Size(200, 400), Size(100, 200), layout);
            var a := AnchorText(Size(200, 400), layout);
            && p.scaled == Size(160, 320) && p.cornerRadius == 16
            && p.shadow.canvas == Size(192, 352) && p.pasteAt == Point(4, 120)
            && VisibleSubject(p) == Rect(20, 136, 160, 320)
            && a.title == Point(100, 40) && a.subtitle == Point(100, 80) && a.subtitleGlow == 3
  {
  }

  /** Truncation toward zero is monotone. */
  lemma TruncDivMonotone(m: int, n: int, d: int)
    requires d > 0 && m <= n
    ensures TruncDiv(m, d) <= TruncDiv(n, d)
  {
    MulMono(m, n, d);
    TruncCross(m, d, n, d);
  }

  /** A ratio no larger than another gives a position no lower on a canvas of
      non-negative height: with `title_y <= subtitle_y` the title anchor is at
      or above the subtitle anchor. */
  lemma ScaleMonotoneInRatio(h: int, p: Ratio, q: Ratio)
    requires h >= 0 && p.num * q.den <= q.num * p.den
    ensures Scale(h, p) <= Scale(h, q)
  {
    // Compare h*p.num/p.den and h*q.num/q.den over the common denominator.
    ScaleBoth(h, p.num, q.den, q.num, p.den);
    TruncCross(h * p.num, p.den, h * q.num, q.den);
  }

  /** If m/d <= n/e as rationals, their truncations are ordered the same way. */
  lemma TruncCross(m: int, d: int, n: int, e: int)
    requires d > 0 && e > 0 && m * e <= n * d
    ensures TruncDiv(m, d) <= TruncDiv(n, e)
  {
    var a, b := TruncDiv(m, d), TruncDiv(n, e);
    SignOfProduct(m, e);
    SignOfProduct(n, d);
    if m >= 0 {
      // a <= m/d <= n/e < b + 1
      assert a * d <= m;
      assert n < b * e + e;
      CrossLe(a, d, m, e, n);
      BelowNext(a, b, e);
    } else if n < 0 {
      // a - 1 < m/d <= n/e <= b
      assert a * d - d < m;
      assert (a - 1) * d == a * d - d;
      assert n <= b * e;
      CrossLt(a - 1, d, m, e, n);
      BelowNext(a - 1, b, e);
    }
  }
}
