/** The sound catalogue of scripts/sounds/generate_sfx.py: the `SoundSpec`
    record, the fifteen entries of `SOUND_SPECS` and the shared negative prompt. */
module SoundCatalog {

  /** `loop` marks sounds that are cross-faded into a seamless loop. */
  datatype SoundSpec = SoundSpec(name: string, prompt: string, duration: real, negativeExtra: string, loop: bool)

  const NegativePrompt: string :=
    "music, song, melody, vocals, singing, speech, voice, talking, low quality, distorted, noisy, hum, hiss, crackling, clipping"

  const CellSelectPrompt: string :=
    "short crisp digital click, cyberpunk UI confirmation beep, clean electronic tap, high-tech interface sound, single click"

  const SequenceProgressPrompt: string :=
    "short digital chime ascending tone, cyberpunk progress notification, electronic positive feedback beep, futuristic UI advancement sound"

  const SequenceCompletePrompt: string :=
    "electronic success jingle, short cyberpunk achievement fanfare, digital triumphant chime sequence, futuristic completion sound, ascending positive tones"

  const SequenceFailedPrompt: string :=
    "digital error buzz, cyberpunk failure notification, short electronic glitch warning sound, descending negative tone, harsh digital rejection beep"

  const GameWinPrompt: string :=
    "cyberpunk victory fanfare, triumphant electronic jingle, futuristic achievement sound with ascending digital tones, glowing positive synth chords, reward sound effect"

  const GameLosePrompt: string :=
    "cyberpunk defeat sound, digital shutdown powering down, descending electronic tones, somber futuristic game over, low glitchy failure sound"

  const ButtonTapPrompt: string :=
    "very short soft digital tap, minimal cyberpunk UI click, subtle electronic button press, clean high-tech touch sound"

  const TransitionWhooshPrompt: string :=
    "digital whoosh sweep, cyberpunk screen transition sound, fast electronic swipe, futuristic UI page turn, glitchy data stream passing"

  const TimerWarningPrompt: string :=
    "urgent digital alarm pulse, cyberpunk countdown warning beep, electronic time pressure alert, repeating futuristic warning tone, tense ticking notification"

  const TimerTickPrompt: string :=
    "sharp digital clock tick, cyberpunk countdown single tick, crisp electronic metronome pulse, futuristic timer beat"

  const GridRushNewGridPrompt: string :=
    "digital data loading sound, cyberpunk matrix initialization, electronic grid powering up, futuristic system boot chime, short digital reveal"

  const BonusAwardedPrompt: string :=
    "bright digital reward sound, cyberpunk bonus chime, sparkling electronic pickup, futuristic point collection, shimmering positive notification"

  const ToggleSwitchPrompt: string :=
    "very short digital switch toggle, minimal electronic on-off click, cyberpunk UI toggle sound, crisp binary flip"

  const DifficultySelectPrompt: string :=
    "digital selection lock-in sound, cyberpunk menu confirm, electronic option selected, futuristic UI choice made, short positive digital acknowledgement"

  const AmbientLoopPrompt: string :=
    "dark cyberpunk ambient drone, low digital hum with subtle data streams, atmospheric electronic background, futuristic server room ambience, moody sci-fi atmosphere with soft glitch textures, slow evolving pad, seamless continuous texture"

  /** The extra negative prompt of the ambient loop. */
  const AmbientNegativeExtra: string :=
    "loud, aggressive, drums, beat, rhythm, percussion, sudden changes"

  /** `SOUND_SPECS`, in source order. Prompts are named constants above. */
  const SoundSpecs: seq<SoundSpec> := [
    SoundSpec("cell_select", CellSelectPrompt, 0.5, "", false),
    SoundSpec("sequence_progress", SequenceProgressPrompt, 0.8, "", false),
    SoundSpec("sequence_complete", SequenceCompletePrompt, 1.5, "", false),
    SoundSpec("sequence_failed", SequenceFailedPrompt, 1.0, "", false),
    SoundSpec("game_win", GameWinPrompt, 2.5, "", false),
    SoundSpec("game_lose", GameLosePrompt, 2.0, "", false),
    SoundSpec("button_tap", ButtonTapPrompt, 0.3, "", false),
    SoundSpec("transition_whoosh", TransitionWhooshPrompt, 0.8, "", false),
    SoundSpec("timer_warning", TimerWarningPrompt, 1.5, "", false),
    SoundSpec("timer_tick", TimerTickPrompt, 0.3, "", false),
    SoundSpec("grid_rush_new_grid", GridRushNewGridPrompt, 1.0, "", false),
    SoundSpec("bonus_awarded", BonusAwardedPrompt, 1.0, "", false),
    SoundSpec("toggle_switch", ToggleSwitchPrompt, 0.3, "", false),
    SoundSpec("difficulty_select", DifficultySelectPrompt, 0.6, "", false),
    SoundSpec("ambient_loop", AmbientLoopPrompt, 47.0, AmbientNegativeExtra, true)
  ]
}
