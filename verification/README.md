# Gridcrack store-asset scripts: screenshot compositing and sound-effect batches

This project is a Dafny model of the bookkeeping in two asset scripts of the
Gridcrack game repository. The pixel work is done by Pillow and the audio by a
diffusion model; neither is modelled.

- `scripts/screenshots/composite.py` composites raw simulator captures into
  store images. The model covers:
  - parsing `#rrggbb` accent and gradient colours with Python's `int(…, 16)`;
  - choosing a background file by extension, or else building the vertical
    gradient fallback row by row;
  - the geometry of the drop-shadow canvas;
  - the search order of the monospaced fonts;
  - scaling, centring and placing the subject;
  - the title and subtitle anchors and glow radii;
  - skipping a (screenshot, device) pair whose capture is missing, and the
    output name;
  - the screenshot-major, device-minor order of `main`, which stops at the
    first exception.
- `scripts/sounds/generate_sfx.py` batch-generates sound effects. The model
  covers:
  - the fifteen-entry catalogue;
  - the `--only` / `--skip` filtering and its unknown-name error;
  - the per-variation seed, `_v{n}` file suffix and negative prompt;
  - agreement between what is generated and what the manifest records;
  - the spec-major, variation-minor job order;
  - the segment arithmetic of `make_seamless_loop`.

Modules, one per file:

| file | module | models |
|---|---|---|
| results.dfy | Results | `Option` and `Result` (an exception becomes `Err`) |
| arith.dfy | Arith | small monotonicity facts about multiplication |
| search.dfy | Search | first-match search over ordered candidates |
| nested.dfy | Nested | the visiting order of two nested `for` loops; `range(n)` |
| hex_color.dfy | HexColor | `hex_to_rgb`, including the grammar `int(s, 16)` accepts |
| geometry.dfy | Geometry | truncating and floor division, `add_drop_shadow`, subject placement, text anchors |
| background.dfy | Background | `create_background` |
| fonts.dfy | Fonts | `load_font` |
| compositor.dfy | Compositor | `composite_screenshot` and `main` of composite.py |
| sound_catalog.dfy | SoundCatalog | `SoundSpec`, `SOUND_SPECS`, `NEGATIVE_PROMPT` |
| sfx_select.dfy | SfxSelect | `--only` / `--skip` filtering in `main` of generate_sfx.py |
| sfx_batch.dfy | SfxBatch | `generate_sound` naming, seeds and prompts; the job loop and manifest of `main` |
| seamless_loop.dfy | SeamlessLoop | `make_seamless_loop` |

Modelling choices:
- The file system is an input. `Compositor.Env` holds:
  - the decoded sizes of the captures present;
  - the names in the backgrounds directory;
  - the font files that exist;
  - the (path, size) pairs that FreeType loads without `OSError` or `ValueError`.
- Layout ratios such as `phone_scale`, and the constants 0.065 and 0.035, are
  exact rationals.
- Python's `int()` of a float product becomes `Geometry.TruncDiv` applied to
  the exact rational product, truncating toward zero. The double rounding of
  the float is not modelled (see "## Left out"). Python's `//` becomes
  `Geometry.FloorDiv`.
- An exception that escapes `composite_screenshot` ends the run. It is
  modelled as an `Err` that stops `Compositor.RunPairs`:
  - `KeyError` for a missing `background`, `gradient_top` or `gradient_bottom` key;
  - `ValueError` for a malformed colour.
- Sample values in `make_seamless_loop` have an abstract type. The
  equal-power blend, the peak and the division are function parameters.

What composite.py does, and the model with it:
- The background is looked up per screenshot id as `{id}.png`, `{id}.jpg`,
  then `{id}.jpeg`, and each lookup goes to the directory again.
- The only effects are the rounded corners, the drop shadow and the glow text.
- A missing raw capture prints a message and the pair is skipped; the run
  goes on.

## Model

| member | source | states |
|---|---|---|
| HexColor.HexToRgb | scripts/screenshots/composite.py:33-35 | a colour exactly when all three slices `h[0:2]`, `h[2:4]`, `h[4:6]` of the `#`-stripped text read under `int(…, 16)` with ASCII digits, with the channels their readings (each in -15..255, since a two-character slice can carry a sign); otherwise the error names the first slice that does not read, with its offset 0, 2 or 4 |
| HexColor.ParseInt16 | scripts/screenshots/composite.py:35 | Python's `int(s, 16)`: whitespace (ASCII space, `\t`-`\r`, non-ASCII Unicode spaces) stripped, an optional sign, an optional `0x` prefix, hex digits with single underscores between them; a value needs a non-empty stripped literal and is negative only after `-` |
| HexColor.ParseField | scripts/screenshots/composite.py:35 | a slice of at most two characters reads as two hex digits, one digit, a digit with surrounding whitespace, or a signed digit; the value is in -15..255; any other ASCII slice raises |
| HexColor.FieldAgreesWithInt16 | scripts/screenshots/composite.py:35 | on every string of at most two characters, the slice reading equals the general model of Python's `int(s, 16)`: whitespace stripped, optional sign, optional `0x` prefix, single underscores between digits |
| HexColor.SignedOrSpacedDigit | scripts/screenshots/composite.py:35 | `int(…, 16)` accepts a sign with one digit and a digit after whitespace |
| HexColor.MalformedFields | scripts/screenshots/composite.py:35 | `int(…, 16)` rejects an empty string, a bare `0x`, an underscore before a digit, and a digit after the ASCII separator U+001C, which `int()` does not strip |
| HexColor.StripHashes | scripts/screenshots/composite.py:34 | `lstrip("#")`: the result is a suffix of the input with no leading `#`, and everything removed was `#` |
| HexColor.StripHashesIsSlice | scripts/screenshots/composite.py:34 | the stripped text is the slice `s[k:]` where the first k characters are all `#` |
| HexColor.Field | scripts/screenshots/composite.py:35 | Python's clamped slice `h[i:i+2]`: two characters when they exist, the rest `h[i:]` when only one remains, and empty past the end |
| HexColor.FieldPair | scripts/screenshots/composite.py:35 | a slice holding two hex digits reads as their two-digit value |
| HexColor.SixDigits | scripts/screenshots/composite.py:33-35 | for six hex digits the channels are the values of characters 0-1, 2-3 and 4-5, each in 0..255 |
| HexColor.RenderRoundTrip | scripts/screenshots/composite.py:33-35 | parsing the two-digit lower-case rendering of any byte triple, after any number of `#`, returns that triple |
| HexColor.LeadingHashesIgnored | scripts/screenshots/composite.py:34 | any number of leading `#` leaves the result unchanged |
| HexColor.StripHashesOfHashes | scripts/screenshots/composite.py:34 | stripping n leading `#` from a string that does not start with `#` gives that string |
| HexColor.ParseDigits | scripts/screenshots/composite.py:35 | any non-empty string of plain hex digits reads as its positional value |
| HexColor.FiveDigits | scripts/screenshots/composite.py:33-35 | five hex digits give a one-digit last channel, so `#abcde` is (0xab, 0xcd, 0xe) |
| HexColor.FourDigits | scripts/screenshots/composite.py:33-35 | four hex digits fail on the empty third slice at offset 4, because `int("", 16)` raises |
| Search.FirstIndex | scripts/screenshots/composite.py:41-45 | the first candidate in the good set, with none before it; None exactly when no candidate is good |
| Search.FirstIn | scripts/screenshots/composite.py:94-100 | the candidate found is good and every earlier one is not; None exactly when none is good |
| Background.Candidates | scripts/screenshots/composite.py:41-42 | the file names tried are `{id}.{ext}` for png, jpg and jpeg, in that order |
| Background.GradientColour | scripts/screenshots/composite.py:50-51 | a missing key is a KeyError naming it; otherwise the colour parses exactly when the configured literal does |
| Background.GradientRows | scripts/screenshots/composite.py:52-57 | one row per pixel row of the canvas, each fully opaque |
| Background.Channel | scripts/screenshots/composite.py:53-56 | one channel of row y, `int(top + (bottom - top) * y / height)` on the exact ratio; row 0 is exactly the top value |
| Background.CreateBackground | scripts/screenshots/composite.py:38-58 | the first existing file wins and sets the canvas size; otherwise a missing `background` section is a KeyError, then `gradient_top` is read and its KeyError or ValueError ends the call, then the same for `gradient_bottom`, and with both colours the result is their gradient, one row per pixel row |
| Background.BackgroundPreference | scripts/screenshots/composite.py:41-45 | png before jpg before jpeg; a gradient implies that none of the three files exists |
| Background.GradientFallback | scripts/screenshots/composite.py:47-58 | with no file and both colours valid, the background is the gradient from top to bottom |
| Background.GradientBounds | scripts/screenshots/composite.py:52-57 | row 0 is the top colour exactly, every row is opaque, and every channel lies between its top and bottom values |
| Background.ChannelBetween | scripts/screenshots/composite.py:53-56 | each channel of row y lies between the top and bottom values |
| Background.ChannelIsFloor | scripts/screenshots/composite.py:53-56 | for byte endpoints the channel is `floor(top + (bottom - top) * y / height)` |
| Background.ChannelMonotone | scripts/screenshots/composite.py:53-56 | a channel is non-decreasing in y when bottom >= top and non-increasing otherwise |
| Background.GradientMonotone | scripts/screenshots/composite.py:52-57 | whole rows are ordered channel by channel in the direction from top to bottom |
| Geometry.TruncDiv | scripts/screenshots/composite.py:144-149 | Python's `int(n / d)`: the quotient rounds toward zero |
| Geometry.FloorDiv | scripts/screenshots/composite.py:158 | Python's `n // d`: the quotient rounds down |
| Geometry.DropShadow | scripts/screenshots/composite.py:71-84 | the subject sits 2*blur from every edge of the padded canvas; the shadow layer is the subject's rectangle moved by (offset, offset) |
| Geometry.DropShadowSize | scripts/screenshots/composite.py:73 | the padded canvas is (w + 4*blur, h + 4*blur) |
| Geometry.SubjectInsideShadowCanvas | scripts/screenshots/composite.py:81-83 | for blur >= 0 the subject lies wholly inside the padded canvas |
| Geometry.ShadowInsideIff | scripts/screenshots/composite.py:76-78 | the shadow layer lies inside the padded canvas exactly when -2*blur <= offset <= 2*blur |
| Geometry.PlaceSubject | scripts/screenshots/composite.py:143-159 | the phone width is `int(width * phone_scale)`; the height keeps the capture's aspect ratio up to truncation; the corner radius scales; the shadowed image is centred with the left margin rounded down and placed at `int(height * phone_y_offset)` |
| Geometry.PhoneWidthIsFloor | scripts/screenshots/composite.py:144 | for a non-negative scale the phone width is `floor(width * phone_scale)` |
| Geometry.CentredWithinOnePixel | scripts/screenshots/composite.py:158 | the left and right margins of the shadowed image differ by at most one pixel, the right one being larger |
| Geometry.VisibleSubjectCentred | scripts/screenshots/composite.py:158-160 | the subject itself appears at the paste position plus 2*blur and is centred the same way |
| Geometry.AnchorText | scripts/screenshots/composite.py:166-178 | both captions share the x anchor `width // 2`; their y anchors scale the canvas height; the title glow is `glow_radius` and the subtitle glow is `glow_radius // 2` |
| Geometry.StoreLayoutExample | scripts/screenshots/composite.py:143-178 | a 200 x 400 device at `phone_scale` 0.8 with blur 8 and a 100 x 200 capture gives a 160 x 320 phone with radius 16, a 192-pixel shadowed image at (4, 120), captions at (100, 40) and (100, 80) and subtitle glow 3 |
| Geometry.TruncDivMonotone | scripts/screenshots/composite.py:144 | truncating division is monotone in the numerator |
| Geometry.ScaleMonotoneInRatio | scripts/screenshots/composite.py:144 | for a non-negative width, a larger `phone_scale` never gives a narrower phone |
| Fonts.LoadFont | scripts/screenshots/composite.py:87-100 | the font is the first of the three candidates that exists and loads, at the requested size; the default font is used exactly when none does |
| Fonts.FirstCandidateWins | scripts/screenshots/composite.py:94-97 | a first candidate that exists and loads is used, whatever else exists |
| Fonts.BrokenCandidateSkipped | scripts/screenshots/composite.py:94-99 | a candidate that exists but raises on loading is passed over for the next one |
| Compositor.CompositeScreenshot | scripts/screenshots/composite.py:124-184 | skipped exactly when `{id}_{device}.png` is missing; a written composite is named like the capture, has the device's size, the background `create_background` gives for the screenshot id, the placement of the capture, the parsed accent on the title, white on the subtitle, the captions at `title_y` and `subtitle_y` of the height, centred, and fonts sized 0.065 and 0.035 of the width; given the capture, it raises exactly when `create_background` or `hex_to_rgb(accent)` raises, with that call's error, the background being tried first |
| Compositor.RunPairs | scripts/screenshots/composite.py:193-196 | pairs are processed in order; each outcome is that pair's result; the run ends early exactly when a pair raises, and the error is that pair's |
| Compositor.Main | scripts/screenshots/composite.py:187-199 | outcome k is the result of screenshot k // devices on device k % devices; the run covers all pairs exactly when none raises, and otherwise ends with the error of the first pair that raises |
| Compositor.MainVisitsEveryPair | scripts/screenshots/composite.py:132-135 | a run without an error has one outcome per (screenshot, device) pair, at index i*devices + j; it is skipped exactly when the capture is missing, and otherwise writes the capture's name |
| Compositor.MissingCaptureSkipped | scripts/screenshots/composite.py:132-135 | a pair with no capture is skipped without error, and the run goes on with the next pair |
| Nested.Cross | scripts/screenshots/composite.py:193-196 | the nested loops visit len(xs) * len(ys) pairs |
| Nested.Range | scripts/sounds/generate_sfx.py:420 | `range(n)` is 0..n-1, and empty when n <= 0 |
| Nested.CrossIndex | scripts/sounds/generate_sfx.py:419-420 | step i*len(ys) + j of the nested loops visits (xs[i], ys[j]) |
| Nested.CrossAt | scripts/screenshots/composite.py:193-195 | conversely, step k of the nested loops is (xs[k // len(ys)], ys[k % len(ys)]) |
| SoundCatalog.SoundSpecs | scripts/sounds/generate_sfx.py:62-199 | the fifteen sounds in source order, each with its name, prompt, duration, extra negative prompt and loop flag (data only; no contract) |
| SfxSelect.FilterByName | scripts/sounds/generate_sfx.py:395-397 | a list comprehension over names keeps catalogue order, and keeps each spec exactly as often as it occurs when its name matches, otherwise not at all |
| SfxSelect.FirstUnknown | scripts/sounds/generate_sfx.py:392-394 | the first name in `--only` that names no spec, with every earlier one valid; None exactly when all are valid |
| SfxSelect.Select | scripts/sounds/generate_sfx.py:389-397 | an error exactly when `--only` is given and names an unknown sound, reporting the first one; otherwise a subsequence of the catalogue holding exactly the specs named by `--only` (all if absent) and not named by `--skip` |
| SfxSelect.SelectMembership | scripts/sounds/generate_sfx.py:389-397 | a spec is selected exactly when it is in the catalogue, named by `--only` if given, and not named by `--skip` |
| SfxSelect.SkipNeverFails | scripts/sounds/generate_sfx.py:396-397 | `--skip` alone never fails, even with unknown names |
| SfxSelect.NoOptionsSelectsAll | scripts/sounds/generate_sfx.py:389 | with neither option the whole catalogue is selected, in order |
| SfxSelect.FilterKeepsAll | scripts/sounds/generate_sfx.py:395-397 | a filter every spec passes changes nothing: `--only` naming every spec, or `--skip` naming none of them |
| SfxSelect.UnknownNameReported | scripts/sounds/generate_sfx.py:392-394 | an unknown name after a valid one is reported by name |
| SfxSelect.SubsequenceTransitive | scripts/sounds/generate_sfx.py:395-397 | filtering a filtered list still yields a subsequence of the catalogue |
| SfxBatch.DecimalRoundTrip | scripts/sounds/generate_sfx.py:225 | the decimal rendering of n is all digits and reads back as n |
| SfxBatch.NatToStringInjective | scripts/sounds/generate_sfx.py:225 | distinct numbers render differently |
| SfxBatch.Suffix | scripts/sounds/generate_sfx.py:225 | empty exactly for variation 0; otherwise `_v` followed by digits that read back as the variation |
| SfxBatch.OutputFile | scripts/sounds/generate_sfx.py:225-226 | the file name starts with the spec name and ends in `.wav`, with nothing between them exactly for variation 0 |
| SfxBatch.GenerateSound | scripts/sounds/generate_sfx.py:220-248 | the seed is the base seed plus the variation; the output file is `{name}{suffix}.wav`; the prompt, duration and steps pass through; the negative prompt is the shared one, plus `, extra` exactly when an extra is given |
| SfxBatch.MakeJob | scripts/sounds/generate_sfx.py:421-434 | the manifest entry records the seed, file, negative prompt, prompt, duration and steps used for generation |
| SfxBatch.ManifestFor | scripts/sounds/generate_sfx.py:424-434 | the entry records the spec's name, prompt and duration, the written file, seed plus variation and the steps; its inline negative prompt equals the one `generate_sound` builds |
| SfxBatch.Jobs | scripts/sounds/generate_sfx.py:419-434 | one job per spec and variation |
| SfxBatch.PlanRun | scripts/sounds/generate_sfx.py:388-434 | for any catalogue: an argparse error exactly when selection fails; nothing is generated exactly when the selection is empty; otherwise one job per selected sound and variation, job i*variations + v being variation v of selected sound i |
| SfxBatch.MainPlan | scripts/sounds/generate_sfx.py:388-434 | on the script's own catalogue with neither `--only` nor `--skip`, the plan is the jobs of the whole catalogue, so every sound is generated `variations` times in the order JobOrder states |
| SfxBatch.JobOrder | scripts/sounds/generate_sfx.py:419-434 | exactly len(specs) * variations jobs; job i*variations + v is variation v of spec i |
| SfxBatch.JobsInOrder | scripts/sounds/generate_sfx.py:419-434 | JobOrder for every spec and variation at once |
| SfxBatch.NoVariationsNoJobs | scripts/sounds/generate_sfx.py:420 | a non-positive variation count generates nothing |
| SfxBatch.FileNamesDistinct | scripts/sounds/generate_sfx.py:225-226 | different variations of one sound write different files |
| SfxBatch.FileNameShape | scripts/sounds/generate_sfx.py:225-226 | variation 0 writes `{name}.wav`, variation n > 0 writes `{name}_v{n}.wav` |
| SfxBatch.VariationExample | scripts/sounds/generate_sfx.py:224-226 | variation 2 of `game_win` with the default seed writes `game_win_v2.wav` with seed 2029 |
| SeamlessLoop.Linspace | scripts/sounds/generate_sfx.py:313 | `np.linspace(0, 1, n)`: starts at 0, ends at 1 when n >= 2, point i is i/(n-1) |
| SeamlessLoop.BlendSegments | scripts/sounds/generate_sfx.py:313-318 | output sample i blends only tail[i] and head[i], at curve position i |
| SeamlessLoop.LoopChannel | scripts/sounds/generate_sfx.py:307-321 | one channel loses one fade of samples; sample i < fade blends tail[i] and head[i]; samples from fade on keep their input values |
| SeamlessLoop.Crossfade | scripts/sounds/generate_sfx.py:307-321 | output is one fade shorter with the same channels; sample i < fade blends tail[i] and head[i]; samples from fade on are the body, in place |
| SeamlessLoop.Renormalize | scripts/sounds/generate_sfx.py:323-328 | the shape is kept; every sample is divided by the peak exactly when the peak is positive |
| SeamlessLoop.MakeSeamlessLoop | scripts/sounds/generate_sfx.py:293-328 | audio shorter than three fades comes back unchanged; otherwise one fade shorter with the same channels, output sample i < fade is the blend of tail sample i and head sample i, output sample j >= fade is input sample j, and each is divided by the peak of the cross-faded audio exactly when that peak is positive |
| SeamlessLoop.SegmentsPartition | scripts/sounds/generate_sfx.py:307-310 | head, body and tail concatenate back to the channel, with lengths fade, total - 2*fade and fade |
| SeamlessLoop.SeamlessAtBothJoins | scripts/sounds/generate_sfx.py:312-321 | given a blend that returns the tail at 0 and the head at 1, wrapping from the last output sample to the first continues the input, as does the join between the cross-fade and the body |
| SeamlessLoop.TooShortExample | scripts/sounds/generate_sfx.py:300-305 | ten seconds at 44.1 kHz are too short for the five-second fade and come back unchanged |

## Left out

- Pillow raster work is left out because its pixel results lie outside the model. This covers:
  - `Image.open` decoding and `convert`;
  - `resize` with LANCZOS;
  - the rounded-corner mask of `add_rounded_corners`;
  - `GaussianBlur`;
  - `alpha_composite` and text rasterising in `render_glow_text`;
  - RGB conversion and PNG encoding.

  The model records sizes, positions, colours, alphas and radii instead.
- Geometry.PlaceSubject and Compositor.CompositeScreenshot: Pillow's `resize` rejects a zero or negative phone width or height, and `GaussianBlur` rejects a negative blur. Those library errors are not modelled: the placement is computed for any input, and a pair whose phone height comes out zero is `Written` where the script raises and ends the run.
- HexColor.ParseInt16, HexColor.ParseField and HexColor.HexToRgb: non-ASCII Unicode decimal digits, which Python's `int` also accepts, are not modelled; only ASCII hex digits are. So `int("٣٣", 16)` is 51 and `#٣٣٣٣٣٣` is (51, 51, 51) in Python, while the model rejects both.
- Background.ChannelIsFloor: stated for endpoints in 0..255 only. `int()` truncates toward zero, which differs from floor for the negative channels that a signed one-digit field such as `-f` can produce.
- Fonts: exceptions other than `OSError` and `ValueError` from `ImageFont.truetype` are not modelled.
- Output to `print` and console messages is left out because it is I/O. So are `load_config`, `mkdir`, writing the PNG and WAV files and `save_manifest`'s JSON dump. The manifest is modelled as the list of entries.
- `load_model`, `torch.manual_seed`, `generate_diffusion_cond` and `rearrange` are left out because they are external model calls. The request record carries what they would receive.
- Float signal maths in `generate_sound` and `make_seamless_loop` is left out. This covers:
  - trimming to `int(duration * sample_rate)`;
  - peak normalisation with `clamp(min=1e-8)` and `clamp(-1, 1)`;
  - the `sqrt` curves;
  - the final renormalisation.

  The blend, the peak and the division are parameters; the structure is modelled exactly.
- SeamlessLoop.FadeSamples: an integer sample rate is assumed, so `int(5.0 * sample_rate)` is exactly 5 * rate.
- SfxBatch.Args: argparse's own parsing and `--list` printing are left out because they are command-line I/O. The parsed arguments are an input. An argparse error is modelled as the `Err` of `PlanRun`.
- `total_duration` and the timing printouts in `main` are left out because they only feed console output.
- `scripts/screenshots/generate_backgrounds.py` is not part of this model. It only invokes an image-generation pipeline.
- Background.Channel, Geometry.PlaceSubject and Geometry.AnchorText compute `int()` of the exact rational product, not of the double Python computes. Rounding can leave the double just below an integer, so Python's result can be one less: for a height of 49 and row 1 from 0 to 0x31, Python gives `int(49 * (1 / 49)) == 0`, while the model gives 1.
- SoundCatalog.SoundSpecs: the fifteen entries are modelled as data, with no lemma about them. Facts about a run are stated for any catalogue by SfxBatch.PlanRun, because the long prompt literals make every proof about the concrete list expensive.
