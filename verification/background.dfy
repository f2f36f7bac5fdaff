/** Background resolution of `create_background` in composite.py: the first of
    `{id}.png`, `{id}.jpg`, `{id}.jpeg` present in the backgrounds directory is
    loaded and resized to the canvas; otherwise a vertical gradient between the
    configured top and bottom colours is drawn, one full-width line per row. */
module Background {
  import opened Results
  import opened HexColor
  import opened Geometry
  import opened Search
  import opened Arith

  datatype Rgba = Rgba(r: int, g: int, b: int, a: int)

  /** A resolved background. A loaded file is only named: its pixels are
      decoded and resampled by Pillow. */
  datatype Background =
    | FromFile(file: string, size: Size)
    | Gradient(size: Size, rows: seq<Rgba>)

  /** KeyError for a missing configuration key, ValueError for a bad colour. */
  datatype BackgroundError = MissingKey(key: string) | BadColour(error: HexError)

  const Extensions: seq<string> := ["png", "jpg", "jpeg"]

  /** Background file names for one screenshot id, in the order they are tried. */
  function Candidates(id: string): (c: seq<string>)
    ensures |c| == |Extensions|
    ensures forall i :: 0 <= i < |c| ==> c[i] == id + "." + Extensions[i]
  {
    [id + ".png", id + ".jpg", id + ".jpeg"]
  }

  /** One channel of row y: Python's `int(top + (bottom - top) * (y / height))`,
      computed on the exact ratio y/height rather than its nearest double. */
  function Channel(top: int, bottom: int, y: int, height: int): (c: int)
    requires 0 <= y < height
    ensures y == 0 ==> c == top
  {
    TruncOfMultiple(top, height);
    TruncDiv(top * height + (bottom - top) * y, height)
  }

  function Row(top: Rgb, bottom: Rgb, y: int, height: int): Rgba
    requires 0 <= y < height
  {
    Rgba(Channel(top.r, bottom.r, y, height), Channel(top.g, bottom.g, y, height),
         Channel(top.b, bottom.b, y, height), 255)
  }

  /** The colour of every row of the fallback gradient, top to bottom. */
  function GradientRows(top: Rgb, bottom: Rgb, height: nat): (rows: seq<Rgba>)
    ensures |rows| == height
    ensures forall y :: 0 <= y < height ==> rows[y].a == 255
  {
    seq(height, y requires 0 <= y < height => Row(top, bottom, y, height))
  }

  /** Looks up `background.<key>` and parses it as a hex colour. */
  function GradientColour(section: map<string, string>, key: string): (r: Result<Rgb, BackgroundError>)
    ensures key !in section ==> r == Err(MissingKey(key))
    ensures key in section ==> (r.Ok? <==> HexToRgb(section[key]).Ok?)
    ensures r.Ok? ==> r.value == HexToRgb(section[key]).value
  {
    if key !in section then Err(MissingKey(key))
    else
      match HexToRgb(section[key])
      case Err(e) => Err(BadColour(e))
      case Ok(c) => Ok(c)
  }

  /** `create_background`. `files` are the names present in the backgrounds
      directory; `section` is the configuration's `background` object, if any.
      The gradient keys are only read when no file exists, top before bottom. */
  function CreateBackground(width: nat, height: nat, id: string, files: set<string>,
                            section: Option<map<string, string>>): (r: Result<Background, BackgroundError>)
    ensures r.Ok? ==> r.value.size == Size(width, height)
    ensures FirstIn(Candidates(id), files).Some? ==> r == Ok(FromFile(FirstIn(Candidates(id), files).value, Size(width, height)))
    ensures r.Err? || r.value.Gradient? ==> FirstIn(Candidates(id), files).None?
    ensures r.Ok? && r.value.Gradient? ==> |r.value.rows| == height
    ensures FirstIn(Candidates(id), files).None? && section.None? ==> r == Err(MissingKey("background"))
    ensures FirstIn(Candidates(id), files).None? && section.Some? ==>
              var top := GradientColour(section.value, "gradient_top");
              var bottom := GradientColour(section.value, "gradient_bottom");
              && (top.Err? ==> r == Err(top.error))
              && (top.Ok? && bottom.Err? ==> r == Err(bottom.error))
              && (top.Ok? && bottom.Ok? ==> r == Ok(Gradient(Size(width, height), GradientRows(top.value, bottom.value, height))))
  {
    match FirstIn(Candidates(id), files)
    case Some(file) => Ok(FromFile(file, Size(width, height)))
    case None =>
      if section.None? then Err(MissingKey("background"))
      else
        var top :- GradientColour(section.value, "gradient_top");
        var bottom :- GradientColour(section.value, "gradient_bottom");
        Ok(Gradient(Size(width, height), GradientRows(top, bottom, height)))
  }

  // ---------------------------------------------------------------------------
  // Lemmas
  // ---------------------------------------------------------------------------

  /** Extensions are tried in the order png, jpg, jpeg: the first one present wins,
      and the gradient is used only when none is present. */
  lemma BackgroundPreference(width: nat, height: nat, id: string, files: set<string>,
                             section: Option<map<string, string>>)
    ensures id + ".png" in files
            ==> CreateBackground(width, height, id, files, section) == Ok(FromFile(id + ".png", Size(width, height)))
    ensures id + ".png" !in files && id + ".jpg" in files
            ==> CreateBackground(width, height, id, files, section) == Ok(FromFile(id + ".jpg", Size(width, height)))
    ensures id + ".png" !in files && id + ".jpg" !in files && id + ".jpeg" in files
            ==> CreateBackground(width, height, id, files, section) == Ok(FromFile(id + ".jpeg", Size(width, height)))
    ensures (CreateBackground(width, height, id, files, section).Ok?
             && CreateBackground(width, height, id, files, section).value.Gradient?)
            ==> id + ".png" !in files && id + ".jpg" !in files && id + ".jpeg" !in files
  {
    var c := Candidates(id);
    assert c[0] == id + ".png" && c[1] == id + ".jpg" && c[2] == id + ".jpeg";
  }

  /** With both colours configured and valid and no file present, the
      background is the gradient between them. */
  lemma GradientFallback(width: nat, height: nat, id: string, files: set<string>,
                         section: map<string, string>)
    requires forall i :: 0 <= i < |Candidates(id)| ==> Candidates(id)[i] !in files
    requires "gradient_top" in section && HexToRgb(section["gradient_top"]).Ok?
    requires "gradient_bottom" in section && HexToRgb(section["gradient_bottom"]).Ok?
    ensures CreateBackground(width, height, id, files, Some(section))
            == Ok(Gradient(Size(width, height),
                           GradientRows(HexToRgb(section["gradient_top"]).value,
                                        HexToRgb(section["gradient_bottom"]).value, height)))
  {
  }

  /** The exact interpolation numerator lies between top*height and bottom*height. */
  lemma NumeratorBetween(top: int, bottom: int, y: int, height: int)
    requires 0 <= y < height
    ensures var n := top * height + (bottom - top) * y;
            (top <= bottom ==> top * height <= n <= bottom * height)
            && (bottom <= top ==> bottom * height <= n <= top * height)
  {
    var n := top * height + (bottom - top) * y;
    assert n == top * (height - y) + bottom * y;
    if top <= bottom {
      MulLeftMono(bottom - top, y, height);
      MulLeftMono(bottom - top, 0, y);
    }
    if bottom <= top {
      MulLeftMono(top - bottom, y, height);
      MulLeftMono(top - bottom, 0, y);
    }
  }

  /** The truncation of a value between two integers stays between them. */
  lemma ChannelBetween(top: int, bottom: int, y: int, height: int)
    requires 0 <= y < height
    ensures Between(Channel(top, bottom, y, height), top, bottom)
  {
    var n := top * height + (bottom - top) * y;
    NumeratorBetween(top, bottom, y, height);
    TruncOfMultiple(top, height);
    TruncOfMultiple(bottom, height);
    if top <= bottom {
      TruncDivMonotone(top * height, n, height);
      TruncDivMonotone(n, bottom * height, height);
    }
    if bottom <= top {
      TruncDivMonotone(bottom * height, n, height);
      TruncDivMonotone(n, top * height, height);
    }
  }

  lemma TruncOfMultiple(k: int, d: int)
    requires d > 0
    ensures TruncDiv(k * d, d) == k
  {
    var q := TruncDiv(k * d, d);
    if k >= 0 {
      MulMono(0, k, d);
      if q < k { MulMono(q + 1, k, d); }
      if q > k { MulMono(k + 1, q, d); }
    } else {
      MulStrictMono(k, 0, d);
      if q < k { MulMono(q + 1, k, d); }
      if q > k { MulMono(k + 1, q, d); }
    }
  }

  /** Every row is opaque, row 0 is exactly the top colour, and each channel
      lies between its top and bottom values. */
  lemma GradientBounds(top: Rgb, bottom: Rgb, height: nat)
    ensures var rows := GradientRows(top, bottom, height);
            && (height > 0 ==> rows[0] == Rgba(top.r, top.g, top.b, 255))
            && (forall y :: 0 <= y < height ==> rows[y].a == 255)
            && (forall y :: 0 <= y < height ==> Between(rows[y].r, top.r, bottom.r)
                                                && Between(rows[y].g, top.g, bottom.g)
                                                && Between(rows[y].b, top.b, bottom.b))
  {
    var rows := GradientRows(top, bottom, height);
    if height > 0 {
      TruncOfMultiple(top.r, height);
      TruncOfMultiple(top.g, height);
      TruncOfMultiple(top.b, height);
    }
    forall y | 0 <= y < height
      ensures Between(rows[y].r, top.r, bottom.r) && Between(rows[y].g, top.g, bottom.g)
              && Between(rows[y].b, top.b, bottom.b)
    {
      ChannelBetween(top.r, bottom.r, y, height);
      ChannelBetween(top.g, bottom.g, y, height);
      ChannelBetween(top.b, bottom.b, y, height);
    }
  }

  predicate Between(c: int, a: int, b: int) {
    (a <= b ==> a <= c <= b) && (b <= a ==> b <= c <= a)
  }

  /** For byte colours the channel is the floor of the exact interpolation,
      and itself a byte. */
  lemma ChannelIsFloor(top: int, bottom: int, y: int, height: int)
    requires 0 <= y < height && IsByte(top) && IsByte(bottom)
    ensures var c := Channel(top, bottom, y, height);
            var n := top * height + (bottom - top) * y;
            IsByte(c) && c * height <= n < (c + 1) * height
  {
    ChannelBetween(top, bottom, y, height);
    var n := top * height + (bottom - top) * y;
    assert n >= 0 by {
      if bottom >= top {
        MulLeftMono(top, 0, height);
        MulLeftMono(bottom - top, 0, y);
      } else {
        assert n == top * (height - y) + bottom * y;
        MulLeftMono(top, 0, height - y);
        MulLeftMono(bottom, 0, y);
      }
    }
  }

  /** Each channel moves monotonically down the rows: non-decreasing when the
      bottom value is at least the top value, non-increasing otherwise. */
  lemma ChannelMonotone(top: int, bottom: int, y1: int, y2: int, height: int)
    requires 0 <= y1 <= y2 < height
    ensures top <= bottom ==> Channel(top, bottom, y1, height) <= Channel(top, bottom, y2, height)
    ensures bottom <= top ==> Channel(top, bottom, y2, height) <= Channel(top, bottom, y1, height)
  {
    var n1 := top * height + (bottom - top) * y1;
    var n2 := top * height + (bottom - top) * y2;
    if top <= bottom {
      MulLeftMono(bottom - top, y1, y2);
      TruncDivMonotone(n1, n2, height);
    }
    if bottom <= top {
      MulLeftMono(top - bottom, y1, y2);
      assert n2 <= n1;
      TruncDivMonotone(n2, n1, height);
    }
  }

  /** The same, stated for whole gradient rows. */
  lemma GradientMonotone(top: Rgb, bottom: Rgb, height: nat, y1: int, y2: int)
    requires 0 <= y1 <= y2 < height
    ensures var rows := GradientRows(top, bottom, height);
            && Ordered(top.r, bottom.r, rows[y1].r, rows[y2].r)
            && Ordered(top.g, bottom.g, rows[y1].g, rows[y2].g)
            && Ordered(top.b, bottom.b, rows[y1].b, rows[y2].b)
  {
    ChannelMonotone(top.r, bottom.r, y1, y2, height);
    ChannelMonotone(top.g, bottom.g, y1, y2, height);
    ChannelMonotone(top.b, bottom.b, y1, y2, height);
  }

  /** c1 (higher row) and c2 (lower row) move from `a` towards `b`. */
  predicate Ordered(a: int, b: int, c1: int, c2: int) {
    (a <= b ==> c1 <= c2) && (b <= a ==> c2 <= c1)
  }
}
