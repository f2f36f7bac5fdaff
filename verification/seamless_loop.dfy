/** The segment arithmetic of `make_seamless_loop` in generate_sfx.py. Audio is
    (channels, samples); the last `fade` samples are cross-faded into the first
    `fade`, and the result is the cross-faded region followed by the body.
    Sample values are an abstract type `S`: the equal-power blend and the peak
    renormalisation are parameters, so only which input samples feed which
    output samples is modelled. */
module SeamlessLoop {

  /** CROSSFADE_SECONDS. */
  const CrossfadeSeconds := 5

  /** Samples by channel; every channel has `frames` samples. */
  datatype Audio<S> = Audio(channels: seq<seq<S>>, frames: nat)

  predicate Rectangular<S>(a: Audio<S>) {
    forall c :: 0 <= c < |a.channels| ==> |a.channels[c]| == a.frames
  }

  /** `int(CROSSFADE_SECONDS * sample_rate)` for an integer sample rate. */
  function FadeSamples(sampleRate: nat): nat {
    CrossfadeSeconds * sampleRate
  }

  /** The i-th of n points of `np.linspace(0, 1, n)`, as num/den. */
  datatype Position = Position(num: nat, den: nat)

  function Linspace(i: nat, n: nat): (t: Position)
    requires i < n
    ensures t.den > 0 && t.num <= t.den
    ensures i == 0 ==> t.num == 0
    ensures n >= 2 && i == n - 1 ==> t.num == t.den
    ensures n >= 2 ==> t.num * (n - 1) == i * t.den
  {
    if n == 1 then Position(0, 1) else Position(i, n - 1)
  }

  /** `tail * fade_out + head * fade_in`, sample by sample. */
  function BlendSegments<S>(tail: seq<S>, head: seq<S>, blend: (S, S, Position) -> S): (r: seq<S>)
    requires |tail| == |head|
    ensures |r| == |head|
    ensures forall i :: 0 <= i < |r| ==> r[i] == blend(tail[i], head[i], Linspace(i, |head|))
  {
    seq(|head|, i requires 0 <= i < |head| => blend(tail[i], head[i], Linspace(i, |head|)))
  }

  /** One channel: head [0, fade), body [fade, total - fade), tail [total - fade, total). */
  function LoopChannel<S>(ch: seq<S>, fade: nat, blend: (S, S, Position) -> S): (r: seq<S>)
    requires 2 * fade <= |ch|
    ensures |r| == |ch| - fade
    ensures forall i :: 0 <= i < fade ==> r[i] == blend(ch[|ch| - fade + i], ch[i], Linspace(i, fade))
    ensures forall j :: fade <= j < |ch| - fade ==> r[j] == ch[j]
  {
    var total := |ch|;
    var head := ch[..fade];
    var body := ch[fade..total - fade];
    var tail := ch[total - fade..];
    BlendSegments(tail, head, blend) + body
  }

  /** The looped audio before renormalisation. Output sample i < fade is the
      blend of tail[i] and head[i] only; output samples from fade on are the body, in place. */
  function Crossfade<S>(a: Audio<S>, fade: nat, blend: (S, S, Position) -> S): (r: Audio<S>)
    requires Rectangular(a) && 2 * fade <= a.frames
    ensures Rectangular(r) && |r.channels| == |a.channels| && r.frames == a.frames - fade
    ensures forall c, i :: 0 <= c < |a.channels| && 0 <= i < fade ==>
              r.channels[c][i] == blend(a.channels[c][a.frames - fade + i], a.channels[c][i], Linspace(i, fade))
    ensures forall c, j :: 0 <= c < |a.channels| && fade <= j < a.frames - fade ==>
              r.channels[c][j] == a.channels[c][j]
  {
    var chs := seq(|a.channels|, c requires 0 <= c < |a.channels| => LoopChannel(a.channels[c], fade, blend));
    Audio(chs, a.frames - fade)
  }

  /** One sample after renormalisation by peak `p`: divided when `p > 0`. */
  function Norm<S>(x: S, p: S, positive: S -> bool, divide: (S, S) -> S): S {
    if positive(p) then divide(x, p) else x
  }

  /** `looped / peak` when the peak is positive, else unchanged. */
  function Renormalize<S>(a: Audio<S>, peak: seq<seq<S>> -> S, positive: S -> bool, divide: (S, S) -> S): (r: Audio<S>)
    requires Rectangular(a)
    ensures Rectangular(r) && |r.channels| == |a.channels| && r.frames == a.frames
    ensures forall c, i :: 0 <= c < |a.channels| && 0 <= i < a.frames ==>
              r.channels[c][i] == Norm(a.channels[c][i], peak(a.channels), positive, divide)
  {
    var p := peak(a.channels);
    if !positive(p) then a
    else
      var chs := seq(|a.channels|, c requires 0 <= c < |a.channels| =>
                       seq(a.frames, i requires 0 <= i < a.frames => divide(a.channels[c][i], p)));
      Audio(chs, a.frames)
  }

  /** `make_seamless_loop`: unchanged when shorter than three fades; else one
      fade shorter with the same channels, where output sample i < fade is the
      blend of tail sample i and head sample i, output sample j >= fade is input
      sample j, and every sample is then renormalised by the peak of the
      cross-faded audio. */
  function MakeSeamlessLoop<S>(a: Audio<S>, sampleRate: nat, blend: (S, S, Position) -> S,
                               peak: seq<seq<S>> -> S, positive: S -> bool, divide: (S, S) -> S): (r: Audio<S>)
    requires Rectangular(a)
    ensures a.frames < 3 * FadeSamples(sampleRate) ==> r == a
    ensures a.frames >= 3 * FadeSamples(sampleRate) ==>
              r.frames == a.frames - FadeSamples(sampleRate) && |r.channels| == |a.channels| && Rectangular(r)
    ensures a.frames >= 3 * FadeSamples(sampleRate) ==>
              var fade := FadeSamples(sampleRate);
              var p := peak(Crossfade(a, fade, blend).channels);
              forall c, i :: 0 <= c < |a.channels| && 0 <= i < fade ==>
                r.channels[c][i] == Norm(blend(a.channels[c][a.frames - fade + i], a.channels[c][i], Linspace(i, fade)),
                                         p, positive, divide)
    ensures a.frames >= 3 * FadeSamples(sampleRate) ==>
              var fade := FadeSamples(sampleRate);
              var p := peak(Crossfade(a, fade, blend).channels);
              forall c, j :: 0 <= c < |a.channels| && fade <= j < a.frames - fade ==>
                r.channels[c][j] == Norm(a.channels[c][j], p, positive, divide)
  {
    var fade := FadeSamples(sampleRate);
    if a.frames < fade * 3 then a
    else Renormalize(Crossfade(a, fade, blend), peak, positive, divide)
  }

  // ---------------------------------------------------------------------------
  // Lemmas
  // ---------------------------------------------------------------------------

  /** Head, body and tail partition the channel. */
  lemma SegmentsPartition<S>(ch: seq<S>, fade: nat)
    requires 2 * fade <= |ch|
    ensures var total := |ch|;
            && ch[..fade] + ch[fade..total - fade] + ch[total - fade..] == ch
            && |ch[..fade]| == fade && |ch[total - fade..]| == fade
            && |ch[fade..total - fade]| == total - 2 * fade
  {
    var total := |ch|;
    assert ch[..fade] + ch[fade..total - fade] == ch[..total - fade];
  }

  /** The loop is seamless: wrapping from the last output sample to the first
      continues the input (total - fade - 1 then total - fade), and the end of
      the cross-fade continues into the body (fade - 1 then fade), provided the
      blend returns the tail sample at position 0 and the head sample at 1, as
      sqrt(1 - t) and sqrt(t) do. */
  lemma SeamlessAtBothJoins<S>(a: Audio<S>, fade: nat, blend: (S, S, Position) -> S, c: nat)
    requires Rectangular(a) && 3 * fade <= a.frames && fade >= 2 && c < |a.channels|
    requires forall x: S, y: S, t: Position :: t.num == 0 ==> blend(x, y, t) == x
    requires forall x: S, y: S, t: Position :: t.num == t.den ==> blend(x, y, t) == y
    ensures var out := Crossfade(a, fade, blend).channels[c];
            var ch := a.channels[c];
            var n := a.frames - fade;
            && out[n - 1] == ch[a.frames - fade - 1]
            && out[0] == ch[a.frames - fade]
            && out[fade - 1] == ch[fade - 1]
            && out[fade] == ch[fade]
  {
    var r := Crossfade(a, fade, blend);
    var n := a.frames - fade;
    assert r.channels[c][0] == blend(a.channels[c][a.frames - fade], a.channels[c][0], Linspace(0, fade));
    assert r.channels[c][fade - 1]
        == blend(a.channels[c][a.frames - 1], a.channels[c][fade - 1], Linspace(fade - 1, fade));
  }

  /** Audio shorter than three fades comes back untouched, with a 44.1 kHz
      example: 10 seconds are too short for a 5-second fade. */
  lemma TooShortExample<S>(a: Audio<S>, blend: (S, S, Position) -> S, peak: seq<seq<S>> -> S,
                           positive: S -> bool, divide: (S, S) -> S)
    requires Rectangular(a) && a.frames == 441000
    ensures MakeSeamlessLoop(a, 44100, blend, peak, positive, divide) == a
  {
  }
}
