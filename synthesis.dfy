/** synthesize of the speech front end and the decisions inside its
    offline fallback: input validation and truncation, the three tiers
    (neural, offline engine, silence) tried in order, the offline voice
    and rate, and the ".mp3" suffix of the normalised file. What each tier
    does with the audio is an outcome handed in by the caller. */
module Synthesis {
  import opened Wrappers
  import opened Text
  import opened TextFacts
  import opened Preprocess

  const MaxChars: nat := 6000
  const TargetFrameRate: nat := 16000
  const FallbackRate: int := 180

  /** The four characters appended to truncated text: a space and the
      characters U+00E2, U+20AC and U+00A6, which is how an ellipsis reads
      when its UTF-8 bytes are decoded as Windows-1252. */
  const TruncationMarker: string := [' ', '\U{E2}', '\U{20AC}', '\U{A6}']

  const OutputDir: string := "outputs"
  const OutputName: string := "echoverse_tts.mp3"

  /** Path("outputs") / "echoverse_tts.mp3", in posix form. */
  function FinalPath(): string {
    OutputDir + "/" + OutputName
  }

  // ---------------------------------------------------------------------
  // Path suffixes (PurePath.suffix and PurePath.with_suffix on a name)

  /** name.rfind('.'), or -1. */
  function LastDot(name: string): (i: int)
    ensures -1 <= i < |name|
    ensures i >= 0 ==> name[i] == '.'
    ensures forall k :: i < k < |name| ==> name[k] != '.'
  {
    if name == [] then -1
    else if name[|name| - 1] == '.' then |name| - 1
    else LastDot(name[..|name| - 1])
  }

  /** PurePath.suffix: from the last dot, when that dot is neither the
      first nor the last character of the name. */
  function Suffix(name: string): string {
    var i := LastDot(name);
    if 0 < i < |name| - 1 then name[i..] else []
  }

  /** The name without its suffix. */
  function Stem(name: string): string {
    name[..|name| - |Suffix(name)|]
  }

  /** A suffix with_suffix accepts and that has a single dot: "." and at
      least one more character, none of them '.' or '/'. */
  predicate PlainSuffix(suffix: string) {
    |suffix| >= 2 && suffix[0] == '.'
    && forall k :: 0 < k < |suffix| ==> suffix[k] != '.' && suffix[k] != '/'
  }

  /** PurePath.with_suffix on the last component of a path: an empty name
      raises ValueError (None); otherwise the old suffix is replaced. */
  function WithSuffix(name: string, suffix: string): Option<string>
    requires PlainSuffix(suffix)
  {
    if name == [] then None else Some(Stem(name) + suffix)
  }

  /** A non-empty name keeps a non-empty stem. */
  lemma StemNonEmpty(name: string)
    requires name != []
    ensures Stem(name) != []
  {
  }

  /** with_suffix gives a name with the new suffix and the old stem. */
  lemma WithSuffixShape(name: string, suffix: string)
    requires name != [] && PlainSuffix(suffix)
    ensures WithSuffix(name, suffix).Some?
    ensures Suffix(WithSuffix(name, suffix).value) == suffix
    ensures Stem(WithSuffix(name, suffix).value) == Stem(name)
  {
    var stem := Stem(name);
    var r := stem + suffix;
    StemNonEmpty(name);
    LastDotOfJoin(stem, suffix);
    assert r[|stem|..] == suffix;
  }

  lemma LastDotOfJoin(stem: string, suffix: string)
    requires stem != [] && PlainSuffix(suffix)
    ensures LastDot(stem + suffix) == |stem|
  {
    var r := stem + suffix;
    var i := LastDot(r);
    assert r[|stem|] == '.';
    assert forall k :: |stem| < k < |r| ==> r[k] == suffix[k - |stem|];
  }

  /** A name that already ends in the suffix is left as it is, so
      normalising "echoverse_tts.mp3" writes the very file synthesize
      returns. */
  lemma WithSuffixKeeps(name: string, suffix: string)
    requires PlainSuffix(suffix) && Suffix(name) == suffix
    ensures WithSuffix(name, suffix) == Some(name)
  {
    assert name == Stem(name) + Suffix(name);
  }

  lemma OutputNameIsMp3()
    ensures PlainSuffix(".mp3") && Suffix(OutputName) == ".mp3"
  {
    LastDotOfJoin("echoverse_tts", ".mp3");
    assert OutputName == "echoverse_tts" + ".mp3";
  }

  /** The audio parameters _normalize_to_mp3 fixes. */
  datatype Audio = Audio(channels: nat, frameRate: nat)

  /** _normalize_to_mp3: mono at 16 kHz, written under the name with its
      suffix replaced by ".mp3"; None when with_suffix raises. */
  function NormalizeToMp3(seg: Audio, name: string): (r: Option<(Audio, string)>)
    ensures r.Some? <==> name != []
    ensures r.Some? ==> r.value.0.channels == 1 && r.value.0.frameRate == TargetFrameRate
    ensures r.Some? ==> Suffix(r.value.1) == ".mp3"
  {
    OutputNameIsMp3();
    var out := WithSuffix(name, ".mp3");
    if out.None? then None
    else
      WithSuffixShape(name, ".mp3");
      Some((Audio(1, TargetFrameRate), out.value))
  }

  // ---------------------------------------------------------------------
  // Validation and truncation

  /** (text or "").strip() */
  function Cleaned(text: Option<string>): string {
    match text
    case None => []
    case Some(s) => Strip(s)
  }

  /** Text over 6000 characters keeps its first 6000 and gets the marker;
      shorter text passes unchanged. */
  function Truncate(t: string): (r: string)
    ensures |t| <= MaxChars ==> r == t
    ensures |t| > MaxChars ==> |r| == MaxChars + |TruncationMarker| && r[..MaxChars] == t[..MaxChars] && r[MaxChars..] == TruncationMarker
    ensures |r| <= MaxChars + |TruncationMarker|
  {
    if |t| > MaxChars then t[..MaxChars] + TruncationMarker else t
  }

  /** Truncating twice is truncating once. */
  lemma TruncateIdempotent(t: string)
    ensures Truncate(Truncate(t)) == Truncate(t)
  {
    var r := Truncate(t);
    if |t| > MaxChars {
      assert r[..MaxChars] + TruncationMarker == r;
    }
  }

  // ---------------------------------------------------------------------
  // The offline engine

  datatype VoiceChoice = KeepDefault | UseVoice(index: nat)

  /** The voice of the offline engine: voices[0] for a voiceLabel containing
      "VoiceA" when there is a voice, voices[1] for one containing
      "VoiceB" when there are two, the engine's default otherwise. */
  function ChooseVoice(voiceLabel: string, voiceCount: nat): (v: VoiceChoice)
    ensures v.UseVoice? ==> v.index < voiceCount
    ensures v == UseVoice(0) <==> Contains(voiceLabel, "VoiceA") && voiceCount > 0
    ensures v == UseVoice(1) <==> !(Contains(voiceLabel, "VoiceA") && voiceCount > 0) && Contains(voiceLabel, "VoiceB") && voiceCount > 1
    ensures v == KeepDefault <==> !(Contains(voiceLabel, "VoiceA") && voiceCount > 0) && !(Contains(voiceLabel, "VoiceB") && voiceCount > 1)
  {
    if Contains(voiceLabel, "VoiceA") && voiceCount > 0 then UseVoice(0)
    else if Contains(voiceLabel, "VoiceB") && voiceCount > 1 then UseVoice(1)
    else KeepDefault
  }

  /** The labels of the user interface's voice menu never name "VoiceA" or
      "VoiceB", so from the interface the engine's default voice is kept. */
  lemma InterfaceLabelsKeepDefault(voiceCount: nat)
    ensures ChooseVoice("Voice A - Warm & Natural", voiceCount) == KeepDefault
    ensures ChooseVoice("Voice B - Bold & Dramatic", voiceCount) == KeepDefault
    ensures ChooseVoice("Voice C - Calm & Soothing", voiceCount) == KeepDefault
    ensures ChooseVoice("Voice D - Energetic & Upbeat", voiceCount) == KeepDefault
  {
    WarmKeepsDefault(voiceCount);
    BoldKeepsDefault(voiceCount);
    CalmKeepsDefault(voiceCount);
    EnergeticKeepsDefault(voiceCount);
  }

  lemma WarmKeepsDefault(voiceCount: nat)
    ensures ChooseVoice("Voice A - Warm & Natural", voiceCount) == KeepDefault
  {
    NoVoiceName("Voice A - Warm & Natural");
  }

  lemma BoldKeepsDefault(voiceCount: nat)
    ensures ChooseVoice("Voice B - Bold & Dramatic", voiceCount) == KeepDefault
  {
    NoVoiceName("Voice B - Bold & Dramatic");
  }

  lemma CalmKeepsDefault(voiceCount: nat)
    ensures ChooseVoice("Voice C - Calm & Soothing", voiceCount) == KeepDefault
  {
    NoVoiceName("Voice C - Calm & Soothing");
  }

  lemma EnergeticKeepsDefault(voiceCount: nat)
    ensures ChooseVoice("Voice D - Energetic & Upbeat", voiceCount) == KeepDefault
  {
    NoVoiceName("Voice D - Energetic & Upbeat");
  }

  /** "Voice X ..." with a space at index 5 and no later 'V'. */
  lemma NoVoiceName(voiceLabel: string)
    requires |voiceLabel| >= 6 && voiceLabel[5] == ' '
    requires forall k :: 0 < k < |voiceLabel| ==> voiceLabel[k] != 'V'
    ensures !Contains(voiceLabel, "VoiceA") && !Contains(voiceLabel, "VoiceB")
  {
    AbsentPastHead(voiceLabel, "VoiceA", 5);
    AbsentPastHead(voiceLabel, "VoiceB", 5);
  }

  /** Python's int() on a float: truncation toward zero. */
  function Trunc(x: real): (n: int)
    ensures x >= 0.0 ==> n as real <= x < n as real + 1.0
    ensures x < 0.0 ==> n as real - 1.0 < x <= n as real
  {
    if x >= 0.0 then x.Floor else -((-x).Floor)
  }

  /** max(0.6, min(rate_factor, 1.6)) */
  function ClampFactor(f: real): (c: real)
    ensures 0.6 <= c <= 1.6
    ensures 0.6 <= f <= 1.6 ==> c == f
  {
    var m := if f < 1.6 then f else 1.6;
    if 0.6 > m then 0.6 else m
  }

  /** engine.getProperty("rate") or 180: a missing or zero rate gives
      180. */
  function BaseRate(engineRate: Option<int>): int {
    if engineRate.None? || engineRate.value == 0 then FallbackRate else engineRate.value
  }

  /** The rate the offline engine is set to. */
  function OfflineRate(engineRate: Option<int>, factor: real): int {
    Trunc(BaseRate(engineRate) as real * ClampFactor(factor))
  }

  /** For a positive base rate, the offline rate lies between
      int(0.6 * base) and int(1.6 * base), and a factor inside the clamp
      is used as it is. */
  lemma OfflineRateBounds(engineRate: Option<int>, factor: real)
    requires BaseRate(engineRate) > 0
    ensures Trunc(BaseRate(engineRate) as real * 0.6) <= OfflineRate(engineRate, factor)
    ensures OfflineRate(engineRate, factor) <= Trunc(BaseRate(engineRate) as real * 1.6)
  {
    RateBetween(BaseRate(engineRate), factor);
  }

  lemma RateBetween(base: int, factor: real)
    requires base > 0
    ensures Trunc(base as real * 0.6) <= Trunc(base as real * ClampFactor(factor)) <= Trunc(base as real * 1.6)
  {
    ScaledBetween(base as real, ClampFactor(factor));
  }

  lemma ScaledBetween(b: real, c: real)
    requires 0.0 <= b && 0.6 <= c <= 1.6
    ensures Trunc(b * 0.6) <= Trunc(b * c) <= Trunc(b * 1.6)
  {
    TruncScaled(b, 0.6, c);
    TruncScaled(b, c, 1.6);
  }

  /** A factor inside the clamp is used as it is. */
  lemma OfflineRateUnclamped(engineRate: Option<int>, factor: real)
    requires 0.6 <= factor <= 1.6
    ensures OfflineRate(engineRate, factor) == Trunc(BaseRate(engineRate) as real * factor)
  {
    assert ClampFactor(factor) == factor;
  }

  lemma TruncScaled(b: real, x: real, y: real)
    requires 0.0 <= b && 0.0 <= x <= y
    ensures Trunc(b * x) <= Trunc(b * y)
  {
    var lo, hi := b * x, b * y;
    assert 0.0 <= lo <= hi;
    TruncMonotonic(lo, hi);
  }

  lemma TruncMonotonic(x: real, y: real)
    requires 0.0 <= x <= y
    ensures Trunc(x) <= Trunc(y)
  {
  }

  /** The engine pyttsx3.init() hands back: how many voices it has,
      whether saving the given text to a file and converting that file
      succeed, and its voice and rate properties (a rate of None stands
      for any falsy value the engine reports). */
  class Engine {
    const voiceCount: nat
    const saves: string -> bool
    var voice: VoiceChoice
    var rate: Option<int>

    constructor (voiceCount: nat, rate: Option<int>, saves: string -> bool)
      ensures this.voiceCount == voiceCount && this.saves == saves
      ensures voice == KeepDefault && this.rate == rate
    {
      this.voiceCount := voiceCount;
      this.saves := saves;
      voice := KeepDefault;
      this.rate := rate;
    }
  }

  /** What _fallback_pyttsx3_to_mp3 returns: nothing without an engine or
      when saving fails, the output path otherwise. */
  function FallbackSpec(text: string, engine: Option<Engine>): Option<string>
    reads if engine.Some? then {engine.value} else {}
  {
    if engine.None? || !engine.value.saves(text) then None else Some(FinalPath())
  }

  /** _fallback_pyttsx3_to_mp3: picks the voice and sets the rate on the
      engine, then saves, normalises and copies to the output path. */
  method FallbackToMp3(text: string, voiceLabel: string, factor: real, engine: Option<Engine>) returns (mp3: Option<string>)
    modifies if engine.Some? then {engine.value} else {}
    ensures mp3 == FallbackSpec(text, engine)
    ensures engine.Some? && ChooseVoice(voiceLabel, engine.value.voiceCount).UseVoice? ==>
      engine.value.voice == ChooseVoice(voiceLabel, engine.value.voiceCount)
    ensures engine.Some? && ChooseVoice(voiceLabel, engine.value.voiceCount) == KeepDefault ==>
      engine.value.voice == old(engine.value.voice)
    ensures engine.Some? ==> engine.value.rate == Some(OfflineRate(old(engine.value.rate), factor))
  {
    if engine.None? {
      return None;
    }
    var e := engine.value;
    var choice := ChooseVoice(voiceLabel, e.voiceCount);
    if choice.UseVoice? {
      e.voice := choice;
    }
    var baseRate := BaseRate(e.rate);
    var newRate := Trunc(baseRate as real * ClampFactor(factor));
    assert newRate == OfflineRate(e.rate, factor);
    e.rate := Some(newRate);
    if !e.saves(text) {
      return None;
    }
    mp3 := Some(FinalPath());
  }

  // ---------------------------------------------------------------------
  // The tiers

  /** What synthesize_hf gives back: no path, or a path that is or is not
      an existing file. */
  datatype NeuralResult = NoWav | Wav(isFile: bool)

  /** The outcomes of the tiers: the neural result for the text it is
      given, whether converting its file (reading, normalising, removing)
      raises, the offline engine (None when pyttsx3 is missing or init
      raises), and whether exporting the silent clip raises. */
  datatype Tiers = Tiers(
    neural: string -> NeuralResult,
    convertRaises: bool,
    engine: Option<Engine>,
    silentRaises: bool)

  datatype Tier = Neural | Offline | Silent

  /** What synthesize does: return a path (and which tier produced it), or
      raise ValueError or RuntimeError. */
  datatype Synthesized = Saved(path: string, tier: Tier) | ValueError | RuntimeError

  /** The text the tiers are given. */
  function Spoken(text: Option<string>, spell: nat -> string): string {
    PreprocessText(Truncate(Cleaned(text)), spell)
  }

  /** The neural tier succeeds: a file came back and converting it did not
      raise. */
  predicate NeuralSucceeds(spoken: string, env: Tiers) {
    env.neural(spoken).Wav? && env.neural(spoken).isFile && !env.convertRaises
  }

  /** synthesize(text, voice_label, rate_factor), with num2words as
      `spell`. */
  function SynthesizeSpec(text: Option<string>, spell: nat -> string, env: Tiers): Synthesized
    reads if env.engine.Some? then {env.engine.value} else {}
  {
    if Cleaned(text) == [] then ValueError
    else
      var spoken := Spoken(text, spell);
      if NeuralSucceeds(spoken, env) then Saved(FinalPath(), Neural)
      else match FallbackSpec(spoken, env.engine)
        case Some(p) => Saved(p, Offline)
        case None => if env.silentRaises then RuntimeError else Saved(FinalPath(), Silent)
  }

  /** ValueError is raised exactly when the text, None read as "", is
      blank. */
  lemma ValueErrorIffBlank(text: Option<string>, spell: nat -> string, env: Tiers)
    ensures SynthesizeSpec(text, spell, env) == ValueError <==> text.None? || Blank(text.value)
  {
  }

  /** The tiers run in order: the offline engine only after the neural
      tier failed, the silent clip only after the engine failed too, and
      RuntimeError only when the silent export raises after both failed.
      Every returned path is outputs/echoverse_tts.mp3. */
  lemma TierOrder(text: Option<string>, spell: nat -> string, env: Tiers)
    ensures SynthesizeSpec(text, spell, env).Saved? ==> SynthesizeSpec(text, spell, env).path == FinalPath()
    ensures SynthesizeSpec(text, spell, env) == Saved(FinalPath(), Offline) ==>
      !NeuralSucceeds(Spoken(text, spell), env)
    ensures SynthesizeSpec(text, spell, env) == Saved(FinalPath(), Silent) ==>
      !NeuralSucceeds(Spoken(text, spell), env) && FallbackSpec(Spoken(text, spell), env.engine).None? && !env.silentRaises
    ensures SynthesizeSpec(text, spell, env) == RuntimeError <==>
      && Cleaned(text) != []
      && !NeuralSucceeds(Spoken(text, spell), env)
      && FallbackSpec(Spoken(text, spell), env.engine).None?
      && env.silentRaises
  {
  }

  /** synthesize: validate, truncate, preprocess, then try the tiers in
      order with early returns. */
  method Synthesize(text: Option<string>, voiceLabel: string, factor: real, spell: nat -> string, env: Tiers)
    returns (result: Synthesized)
    modifies if env.engine.Some? then {env.engine.value} else {}
    ensures result == SynthesizeSpec(text, spell, env)
    ensures env.engine.Some? && (Cleaned(text) == [] || NeuralSucceeds(Spoken(text, spell), env)) ==>
      unchanged(env.engine.value)
    ensures env.engine.Some? && Cleaned(text) != [] && !NeuralSucceeds(Spoken(text, spell), env) ==>
      && env.engine.value.rate == Some(OfflineRate(old(env.engine.value.rate), factor))
      && env.engine.value.voice == (if ChooseVoice(voiceLabel, env.engine.value.voiceCount).UseVoice?
                                    then ChooseVoice(voiceLabel, env.engine.value.voiceCount)
                                    else old(env.engine.value.voice))
  {
    var cleaned := Cleaned(text);
    if cleaned == [] {
      return ValueError;
    }
    if |cleaned| > MaxChars {
      cleaned := cleaned[..MaxChars] + TruncationMarker;
    }
    var preprocessed := PreprocessText(cleaned, spell);
    var hf := env.neural(preprocessed);
    if hf.Wav? && hf.isFile {
      if !env.convertRaises {
        return Saved(FinalPath(), Neural);
      }
    }
    var mp3 := FallbackToMp3(preprocessed, voiceLabel, factor, env.engine);
    if mp3.Some? {
      return Saved(mp3.value, Offline);
    }
    if env.silentRaises {
      return RuntimeError;
    }
    result := Saved(FinalPath(), Silent);
  }
}
