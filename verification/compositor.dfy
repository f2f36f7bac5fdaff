/** `composite_screenshot` and `main` of composite.py: for every screenshot in
    configuration order and every device, either skip the pair (no raw capture)
    or produce the plan of one composite image: background, placed subject with
    shadow, and two glow-text captions. Pixel work is left to Pillow; the model
    records what is drawn where. */
module Compositor {
  import opened Results
  import opened HexColor
  import opened Geometry
  import opened Background
  import opened Fonts
  import opened Nested

  datatype ScreenshotSpec = ScreenshotSpec(id: string, title: string, subtitle: string, accent: string)

  datatype Device = Device(width: nat, height: nat)

  /** The parsed configuration; `devices` keeps the JSON object's key order. */
  datatype Config = Config(
    devices: seq<(string, Device)>,
    layout: LayoutConfig,
    screenshots: seq<ScreenshotSpec>,
    background: Option<map<string, string>>)

  /** The file system as seen by the script: decoded sizes of the captures in
      the raw directory, names in the backgrounds directory, font files that
      exist and the (path, size) pairs FreeType loads. */
  datatype Env = Env(
    captures: map<string, ImageSize>,
    backgroundFiles: set<string>,
    fontFiles: set<string>,
    fontLoads: set<(string, int)>)

  /** Text drawn twice at one anchor: blurred, then crisp. */
  datatype GlowText = GlowText(text: string, anchor: Point, color: Rgb, font: Font, glowRadius: int)

  const White := Rgb(255, 255, 255)

  /** Everything `composite_screenshot` decides for one written image. */
  datatype Composite = Composite(
    output: string,
    canvas: Size,
    background: Background,
    subject: SubjectPlacement,
    title: GlowText,
    subtitle: GlowText)

  datatype PairOutcome = Skipped(missing: string) | Written(composite: Composite)

  /** Exceptions that escape `composite_screenshot` and end the run. */
  datatype RunError = BackgroundFailed(cause: BackgroundError) | AccentInvalid(literal: HexError)

  /** `{id}_{device}.png`: the raw capture's name and the output's name. */
  function ImageName(id: string, key: string): string {
    id + "_" + key + ".png"
  }

  function CompositeScreenshot(sc: ScreenshotSpec, key: string, device: Device, config: Config, env: Env)
    : (r: Result<PairOutcome, RunError>)
    ensures r == Ok(Skipped(ImageName(sc.id, key))) <==> ImageName(sc.id, key) !in env.captures
    ensures r.Ok? && r.value.Skipped? ==> r.value.missing == ImageName(sc.id, key)
    ensures r.Err? ==> ImageName(sc.id, key) in env.captures
    ensures r.Err? <==> && ImageName(sc.id, key) in env.captures
                        && (CreateBackground(device.width, device.height, sc.id, env.backgroundFiles, config.background).Err?
                            || HexToRgb(sc.accent).Err?)
    ensures r.Err? && r.error.BackgroundFailed? ==>
              CreateBackground(device.width, device.height, sc.id, env.backgroundFiles, config.background) == Err(r.error.cause)
    ensures r.Err? && r.error.AccentInvalid? ==> HexToRgb(sc.accent) == Err(r.error.literal)
    ensures r.Err? && r.error.AccentInvalid?
            ==> CreateBackground(device.width, device.height, sc.id, env.backgroundFiles, config.background).Ok?
                && HexToRgb(sc.accent).Err?
    ensures r.Ok? && r.value.Written? ==> WellFormed(r.value.composite, sc, key, device, config, env)
  {
    var name := ImageName(sc.id, key);
    if name !in env.captures then Ok(Skipped(name))
    else
      var raw := env.captures[name];
      var canvas := Size(device.width, device.height);
      match CreateBackground(device.width, device.height, sc.id, env.backgroundFiles, config.background)
      case Err(e) => Err(BackgroundFailed(e))
      case Ok(bg) =>
        var subject := PlaceSubject(canvas, raw, config.layout);
        match HexToRgb(sc.accent)
        case Err(e) => Err(AccentInvalid(e))
        case Ok(accent) =>
          var titleFont := LoadFont(Scale(device.width, TitleFontRatio), env.fontFiles, env.fontLoads);
          var subtitleFont := LoadFont(Scale(device.width, SubtitleFontRatio), env.fontFiles, env.fontLoads);
          var anchors := AnchorText(canvas, config.layout);
          Ok(Written(Composite(
            name, canvas, bg, subject,
            GlowText(sc.title, anchors.title, accent, titleFont, anchors.titleGlow),
            GlowText(sc.subtitle, anchors.subtitle, White, subtitleFont, anchors.subtitleGlow))))
  }

  /** What a written composite promises about the pair it was made for. */
  ghost predicate WellFormed(c: Composite, sc: ScreenshotSpec, key: string, device: Device, config: Config, env: Env) {
    && c.output == ImageName(sc.id, key)
    && c.output in env.captures
    && c.canvas == Size(device.width, device.height)
    && Ok(c.background) == CreateBackground(device.width, device.height, sc.id, env.backgroundFiles, config.background)
    && c.background.size == c.canvas
    && c.subject == PlaceSubject(c.canvas, env.captures[c.output], config.layout)
    && c.title.text == sc.title && c.subtitle.text == sc.subtitle
    && HexToRgb(sc.accent) == Ok(c.title.color)
    && c.subtitle.color == White
    && c.title.anchor.x == c.subtitle.anchor.x
    && c.title.anchor.y == Scale(device.height, config.layout.titleY)
    && c.subtitle.anchor.y == Scale(device.height, config.layout.subtitleY)
    && 2 * c.title.anchor.x <= device.width < 2 * c.title.anchor.x + 2
    && c.title.glowRadius == config.layout.glowRadius
    && 2 * c.subtitle.glowRadius <= config.layout.glowRadius < 2 * c.subtitle.glowRadius + 2
    && c.title.font == LoadFont(Scale(device.width, TitleFontRatio), env.fontFiles, env.fontLoads)
    && c.subtitle.font == LoadFont(Scale(device.width, SubtitleFontRatio), env.fontFiles, env.fontLoads)
  }

  // ---------------------------------------------------------------------------
  // main: every (screenshot, device) pair, screenshot-major
  // ---------------------------------------------------------------------------

  /** One (screenshot, (device key, device)) step of the loops in `main`. */
  type Pair = (ScreenshotSpec, (string, Device))

  /** What `main` produced: the outcome of each pair visited, and the
      exception that stopped it, if any. */
  datatype RunReport = RunReport(outcomes: seq<PairOutcome>, failure: Option<RunError>)

  function PairResult(p: Pair, config: Config, env: Env): Result<PairOutcome, RunError> {
    CompositeScreenshot(p.0, p.1.0, p.1.1, config, env)
  }

  /** Pairs are processed in order until one raises; skipped pairs do not stop the run. */
  function RunPairs(pairs: seq<Pair>, config: Config, env: Env): (r: RunReport)
    ensures |r.outcomes| <= |pairs|
    ensures forall k :: 0 <= k < |r.outcomes| ==> PairResult(pairs[k], config, env) == Ok(r.outcomes[k])
    ensures r.failure.None? <==> |r.outcomes| == |pairs|
    ensures r.failure.Some? ==> PairResult(pairs[|r.outcomes|], config, env) == Err(r.failure.value)
  {
    if |pairs| == 0 then RunReport([], None)
    else
      match PairResult(pairs[0], config, env)
      case Err(e) => RunReport([], Some(e))
      case Ok(o) =>
        var rest := RunPairs(pairs[1..], config, env);
        RunReport([o] + rest.outcomes, rest.failure)
  }

  /** `main`: step k handles screenshot k / |devices| on device k % |devices|;
      the run covers every pair unless a pair raises, and that error ends it. */
  function Main(config: Config, env: Env): (r: RunReport)
    ensures |r.outcomes| <= |config.screenshots| * |config.devices|
    ensures r.failure.None? <==> |r.outcomes| == |config.screenshots| * |config.devices|
    ensures forall k :: 0 <= k < |r.outcomes| ==>
              PairResult(Step(config.screenshots, config.devices, k), config, env) == Ok(r.outcomes[k])
    ensures r.failure.Some? ==>
              PairResult(Step(config.screenshots, config.devices, |r.outcomes|), config, env) == Err(r.failure.value)
  {
    var pairs := Cross(config.screenshots, config.devices);
    assert forall k :: 0 <= k < |pairs| ==> pairs[k] == Step(config.screenshots, config.devices, k) by {
      forall k | 0 <= k < |pairs| {
        CrossAt(config.screenshots, config.devices, k);
      }
    }
    RunPairs(pairs, config, env)
  }

  /** A run that does not fail visits every pair, screenshots in configuration
      order and devices in key order within each; pair (i, j) is skipped
      exactly when its capture is missing, and otherwise writes `{id}_{device}.png`. */
  lemma MainVisitsEveryPair(config: Config, env: Env, i: nat, j: nat)
    requires Main(config, env).failure.None?
    requires i < |config.screenshots| && j < |config.devices|
    ensures var r := Main(config, env);
            var k := i * |config.devices| + j;
            var sc := config.screenshots[i];
            var (key, device) := config.devices[j];
            && |r.outcomes| == |config.screenshots| * |config.devices|
            && k < |r.outcomes|
            && (r.outcomes[k].Skipped? <==> ImageName(sc.id, key) !in env.captures)
            && (r.outcomes[k].Skipped? ==> r.outcomes[k].missing == ImageName(sc.id, key))
            && (r.outcomes[k].Written? ==> WellFormed(r.outcomes[k].composite, sc, key, device, config, env))
  {
    var pairs := Cross(config.screenshots, config.devices);
    var r := RunPairs(pairs, config, env);
    var k := i * |config.devices| + j;
    CrossIndex(config.screenshots, config.devices, i, j);
    assert |r.outcomes| == |pairs|;
    assert pairs[k] == (config.screenshots[i], config.devices[j]);
    assert PairResult(pairs[k], config, env) == Ok(r.outcomes[k]);
  }

  /** A missing capture is skipped without
      error and without output, and the run goes on to the next pair. */
  lemma MissingCaptureSkipped(config: Config, env: Env, p: Pair, rest: seq<Pair>)
    requires ImageName(p.0.id, p.1.0) !in env.captures
    ensures RunPairs([p] + rest, config, env)
            == RunReport([Skipped(ImageName(p.0.id, p.1.0))] + RunPairs(rest, config, env).outcomes,
                         RunPairs(rest, config, env).failure)
  {
    assert ([p] + rest)[1..] == rest;
  }
}
