/** The batch bookkeeping of generate_sfx.py: per-variation seed and file name
    and the negative prompt in `generate_sound`, the manifest entry `main`
    records for the same call, and the spec-major, variation-minor job order. */
module SfxBatch {
  import opened Results
  import opened SoundCatalog
  import opened SfxSelect
  import opened Nested

  const DefaultSeed := 2027
  const DefaultSteps := 100

  /** Parsed command line; an empty `only` or `skip` is the option not given. */
  datatype Args = Args(seed: int, steps: int, only: seq<string>, skip: seq<string>, variations: int)

  // ---------------------------------------------------------------------------
  // Decimal rendering, as by an f-string
  // ---------------------------------------------------------------------------

  predicate IsDecimalDigit(c: char) {
    '0' <= c <= '9'
  }

  function NatToString(n: nat): (s: string)
    ensures |s| > 0 && forall i :: 0 <= i < |s| ==> IsDecimalDigit(s[i])
    ensures |s| > 1 ==> s[0] != '0'
  {
    if n < 10 then [('0' as int + n) as char]
    else NatToString(n / 10) + [('0' as int + n % 10) as char]
  }

  /** The number a string of decimal digits denotes. */
  function DecimalValue(s: string): nat
    requires forall i :: 0 <= i < |s| ==> IsDecimalDigit(s[i])
  {
    if |s| == 0 then 0
    else
      assert IsDecimalDigit(s[|s| - 1]);
      DecimalValue(s[..|s| - 1]) * 10 + (s[|s| - 1] as int - '0' as int)
  }

  lemma {:induction false} DecimalRoundTrip(n: nat)
    ensures DecimalValue(NatToString(n)) == n
  {
    if n >= 10 {
      var s := NatToString(n);
      var p := NatToString(n / 10);
      assert s[..|s| - 1] == p;
      DecimalRoundTrip(n / 10);
    }
  }

  lemma NatToStringInjective(a: nat, b: nat)
    requires NatToString(a) == NatToString(b)
    ensures a == b
  {
    DecimalRoundTrip(a);
    DecimalRoundTrip(b);
  }

  // ---------------------------------------------------------------------------
  // generate_sound
  // ---------------------------------------------------------------------------

  /** "" for variation 0, "_v{n}" after. */
  function Suffix(variation: nat): (s: string)
    ensures variation == 0 <==> s == ""
    ensures variation > 0 ==> |s| > 2 && s[..2] == "_v"
    ensures variation > 0 ==> (forall i :: 2 <= i < |s| ==> IsDecimalDigit(s[i])) && DecimalValue(s[2..]) == variation
  {
    if variation > 0 then
      DecimalRoundTrip(variation);
      assert ("_v" + NatToString(variation))[2..] == NatToString(variation);
      "_v" + NatToString(variation)
    else ""
  }

  /** `{spec.name}{suffix}.wav`: the spec name, then ".wav" at the end, with
      nothing between them exactly for variation 0. */
  function OutputFile(spec: SoundSpec, variation: nat): (f: string)
    ensures |f| >= |spec.name| + 4 && f[..|spec.name|] == spec.name && f[|f| - 4..] == ".wav"
    ensures variation == 0 <==> |f| == |spec.name| + 4
  {
    spec.name + Suffix(variation) + ".wav"
  }

  /** The negative prompt passed to the model. */
  function GenerationNegative(spec: SoundSpec): string {
    if spec.negativeExtra != "" then NegativePrompt + ", " + spec.negativeExtra
    else NegativePrompt
  }

  /** What one `generate_sound` call hands the diffusion model and writes. */
  datatype Request = Request(
    prompt: string,
    negative: string,
    seconds: real,
    seed: int,
    steps: int,
    file: string,
    loop: bool)

  function GenerateSound(spec: SoundSpec, seed: int, steps: int, variation: nat): (r: Request)
    ensures r.seed - seed == variation
    ensures r.prompt == spec.prompt && r.seconds == spec.duration && r.steps == steps
    ensures r.loop == spec.loop
    ensures r.file == spec.name + Suffix(variation) + ".wav"
    ensures spec.negativeExtra == "" ==> r.negative == NegativePrompt
    ensures spec.negativeExtra != "" ==> r.negative == NegativePrompt + ", " + spec.negativeExtra
  {
    Request(spec.prompt, GenerationNegative(spec), spec.duration, seed + variation, steps,
            OutputFile(spec, variation), spec.loop)
  }

  // ---------------------------------------------------------------------------
  // Manifest
  // ---------------------------------------------------------------------------

  datatype ManifestEntry = ManifestEntry(
    name: string,
    file: string,
    prompt: string,
    negativePrompt: string,
    duration: real,
    seed: int,
    steps: int)

  /** The entry `main` appends after a `generate_sound` call, built from its own
      expressions (not from the request) except for the returned file name. */
  function ManifestFor(spec: SoundSpec, written: string, seed: int, steps: int, variation: nat): (e: ManifestEntry)
    ensures e.name == spec.name && e.file == written && e.prompt == spec.prompt && e.duration == spec.duration
    ensures e.seed == seed + variation && e.steps == steps
    ensures e.negativePrompt == GenerationNegative(spec)
  {
    ManifestEntry(spec.name, written, spec.prompt,
                  NegativePrompt + (if spec.negativeExtra != "" then ", " + spec.negativeExtra else ""),
                  spec.duration, seed + variation, steps)
  }

  datatype Job = Job(request: Request, entry: ManifestEntry)

  /** One iteration of the inner loop of `main`: the request and what the
      manifest records about it agree on seed, file, prompts, duration and steps. */
  function MakeJob(spec: SoundSpec, seed: int, steps: int, variation: nat): (j: Job)
    ensures j.entry.seed == j.request.seed == seed + variation
    ensures j.entry.file == j.request.file
    ensures j.entry.negativePrompt == j.request.negative
    ensures j.entry.prompt == j.request.prompt && j.entry.duration == j.request.seconds
    ensures j.entry.steps == j.request.steps == steps
    ensures j.entry.name == spec.name
  {
    var request := GenerateSound(spec, seed, steps, variation);
    Job(request, ManifestFor(spec, request.file, seed, steps, variation))
  }

  /** Every spec, then every variation of it. */
  function Jobs(specs: seq<SoundSpec>, args: Args): (jobs: seq<Job>)
    ensures |jobs| == |specs| * |Range(args.variations)|
  {
    var steps := Cross(specs, Range(args.variations));
    seq(|steps|, k requires 0 <= k < |steps| => MakeJob(steps[k].0, args.seed, args.steps, steps[k].1))
  }

  /** The position of variation v of spec i when every spec has n variations. */
  function Slot(i: nat, v: nat, n: int): int {
    i * n + v
  }

  /** Job i*variations + v is variation v of spec i, for every spec and variation. */
  predicate InJobOrder(jobs: seq<Job>, specs: seq<SoundSpec>, args: Args) {
    forall i: nat, v: nat :: i < |specs| && v < args.variations ==>
      Slot(i, v, args.variations) < |jobs| && jobs[Slot(i, v, args.variations)] == MakeJob(specs[i], args.seed, args.steps, v)
  }

  /** What a run of `main` (without `--list`) does: stop with an argparse
      error, stop before loading the model because nothing is selected, or run
      the jobs and write their manifest. */
  datatype Plan = NothingToGenerate | Batch(jobs: seq<Job>)

  /** `main` after argument parsing, on the catalogue `catalogue`
      (`SOUND_SPECS` in the script: see MainPlan). */
  function PlanRun(catalogue: seq<SoundSpec>, args: Args): (r: Result<Plan, SelectError>)
    ensures r.Err? <==> Select(catalogue, args.only, args.skip).Err?
    ensures r.Ok? ==> (r.value == NothingToGenerate <==> Select(catalogue, args.only, args.skip).value == [])
    ensures r.Ok? && r.value.Batch? ==>
              |r.value.jobs| == |Select(catalogue, args.only, args.skip).value| * (if args.variations > 0 then args.variations else 0)
    ensures r.Ok? && r.value.Batch? ==> InJobOrder(r.value.jobs, Select(catalogue, args.only, args.skip).value, args)
  {
    var specs :- Select(catalogue, args.only, args.skip);
    if specs == [] then Ok(NothingToGenerate)
    else
      JobsInOrder(specs, args);
      Ok(Batch(Jobs(specs, args)))
  }

  /** `main` on the script's own catalogue: with no `--only` or `--skip`,
      every job of the whole catalogue is planned, in JobOrder's order. */
  function MainPlan(args: Args): (r: Result<Plan, SelectError>)
    ensures args.only == [] && args.skip == [] ==> r == Ok(Batch(Jobs(SoundSpecs, args)))
  {
    NoOptionsSelectsAll(SoundSpecs);
    PlanRun(SoundSpecs, args)
  }

  // ---------------------------------------------------------------------------
  // Lemmas
  // ---------------------------------------------------------------------------

  /** Exactly len(specs) * variations files, none for a non-positive count;
      job i*variations + v is variation v of spec i. */
  lemma JobOrder(specs: seq<SoundSpec>, args: Args, i: nat, v: nat)
    requires i < |specs| && v < args.variations
    ensures |Jobs(specs, args)| == |specs| * args.variations
    ensures i * args.variations + v < |Jobs(specs, args)|
            && Jobs(specs, args)[i * args.variations + v] == MakeJob(specs[i], args.seed, args.steps, v)
  {
    var steps := Cross(specs, Range(args.variations));
    var k := i * args.variations + v;
    CrossIndex(specs, Range(args.variations), i, v);
    assert |Range(args.variations)| == args.variations;
    assert steps[k] == (specs[i], v);
    assert Jobs(specs, args)[k] == MakeJob(steps[k].0, args.seed, args.steps, steps[k].1);
  }

  /** JobOrder for every spec and variation at once. */
  lemma JobsInOrder(specs: seq<SoundSpec>, args: Args)
    ensures InJobOrder(Jobs(specs, args), specs, args)
  {
    forall i: nat, v: nat | i < |specs| && v < args.variations
      ensures Slot(i, v, args.variations) < |Jobs(specs, args)|
              && Jobs(specs, args)[Slot(i, v, args.variations)] == MakeJob(specs[i], args.seed, args.steps, v)
    {
      JobOrder(specs, args, i, v);
    }
  }

  lemma NoVariationsNoJobs(specs: seq<SoundSpec>, args: Args)
    requires args.variations <= 0
    ensures Jobs(specs, args) == []
  {
  }

  /** Within one spec, different variations write different files. */
  lemma FileNamesDistinct(spec: SoundSpec, v1: nat, v2: nat)
    requires v1 != v2
    ensures OutputFile(spec, v1) != OutputFile(spec, v2)
  {
    if OutputFile(spec, v1) == OutputFile(spec, v2) {
      ConcatCancel(spec.name, Suffix(v1), Suffix(v2), ".wav");
      SuffixInjective(v1, v2);
    }
  }

  /** Different variations get different suffixes. */
  lemma SuffixInjective(v1: nat, v2: nat)
    requires Suffix(v1) == Suffix(v2)
    ensures v1 == v2
  {
  }

  lemma ConcatCancel(a: string, x: string, y: string, w: string)
    requires a + x + w == a + y + w
    ensures x == y
  {
    var f := a + x + w;
    assert |x| == |y|;
    assert x == f[|a|..|a| + |x|];
    assert y == (a + y + w)[|a|..|a| + |y|];
  }

  /** The file name is the spec name, the suffix and ".wav": variation 0 is the
      bare name, variation n > 0 carries "_v" and the decimal n. */
  lemma FileNameShape(spec: SoundSpec, v: nat)
    ensures v == 0 ==> OutputFile(spec, v) == spec.name + ".wav"
    ensures v > 0 ==> OutputFile(spec, v) == spec.name + "_v" + NatToString(v) + ".wav"
  {
  }

  /** Example: the third take of `game_win` is `game_win_v2.wav` with seed base + 2. */
  lemma VariationExample(spec: SoundSpec)
    requires spec.name == "game_win"
    ensures MakeJob(spec, DefaultSeed, DefaultSteps, 2).request.file == "game_win_v2.wav"
    ensures MakeJob(spec, DefaultSeed, DefaultSteps, 2).entry.seed == 2029
  {
  }
}
