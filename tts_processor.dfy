/** The text-to-speech processor (`TTSProcessor`): choosing an engine with
    the piper, espeak, system fallback chain, and validating and describing
    a synthesis. The engines, their availability probes and the clock are
    outside the model: each probe's verdict and each engine's output are
    parameters. */
module TextToSpeech {
  import opened Wrappers
  import opened PyText
  import opened SwedishText

  /** The engines in the order the fallback tries them. */
  const Chain: seq<string> := ["piper", "espeak", "system"]

  /** Audio settings fixed by the constructor. */
  const SampleRate: nat := 22050
  const Channels: nat := 1

  /** Speech rate used for the duration estimate, in words per second. */
  const WordsPerSecond: real := 4.5

  /** Whether each engine's probe command (`piper --help`,
      `espeak --version`, `say --version`) exited with status 0; a timeout
      or a missing binary counts as false. */
  datatype Probes = Probes(piper: bool, espeak: bool, system: bool)

  /** The exceptions `__init__` lets escape. */
  datatype InitError =
    | UnsupportedProvider(name: string)   // ValueError
    | NoProviderAvailable                 // RuntimeError

  /** The probe verdict for the `k`-th engine of the chain. */
  predicate ProbeOk(probes: Probes, k: nat) {
    if k == 0 then probes.piper else if k == 1 then probes.espeak else probes.system
  }

  /** The position of `name` in the chain, if it names an engine. */
  function ChainIndex(name: string): (i: Option<nat>)
    ensures i.Some? <==> name in Chain
    ensures i.Some? ==> i.value < |Chain| && Chain[i.value] == name
  {
    if name == "piper" then Some(0)
    else if name == "espeak" then Some(1)
    else if name == "system" then Some(2)
    else None
  }

  /** The first engine at or after position `i` whose probe succeeds. */
  function FirstAvailableFrom(probes: Probes, i: nat): (j: Option<nat>)
    ensures j.Some? ==> i <= j.value < |Chain| && ProbeOk(probes, j.value)
    ensures j.Some? ==> forall k :: i <= k < j.value ==> !ProbeOk(probes, k)
    ensures j.None? ==> forall k :: i <= k < |Chain| ==> !ProbeOk(probes, k)
    decreases |Chain| - i
  {
    if i >= |Chain| then None
    else if ProbeOk(probes, i) then Some(i)
    else FirstAvailableFrom(probes, i + 1)
  }

  /** The engine a processor asked for `requested` ends up using, or the
      exception its construction raises. */
  function ResolveProvider(requested: string, probes: Probes): (r: Result<string, InitError>)
    ensures r.Success? ==>
      requested in Chain && r.value in Chain && ChainIndex(requested).value <= ChainIndex(r.value).value
    ensures r.Failure? ==> r.error == UnsupportedProvider(requested) || r.error == NoProviderAvailable
  {
    match ChainIndex(requested)
    case None => Failure(UnsupportedProvider(requested))
    case Some(i) =>
      match FirstAvailableFrom(probes, i)
      case None => Failure(NoProviderAvailable)
      case Some(j) => Success(Chain[j])
  }

  /** The provider-related attributes of a processor. An availability flag
      that the source never sets is false here. */
  datatype EngineState = EngineState(provider: string, piper: bool, espeak: bool, system: bool)

  /** The state after marking the `k`-th engine available. */
  function MarkAvailable(s: EngineState, k: nat): EngineState {
    if k == 0 then s.(piper := true)
    else if k == 1 then s.(espeak := true)
    else s.(system := true)
  }

  /** The effect of starting the chain at position `i`: the first engine
      that answers is marked available and becomes the provider (a
      fallback rewrites `provider`); when none answers, the provider is
      left at the last engine tried. */
  function InitializeFrom(s: EngineState, i: nat, probes: Probes): (EngineState, Outcome<InitError>) {
    match FirstAvailableFrom(probes, i)
    case Some(j) =>
      (MarkAvailable(if j == i then s else s.(provider := Chain[j]), j), Pass)
    case None =>
      (if i + 1 >= |Chain| then s else s.(provider := Chain[|Chain| - 1]), Fail(NoProviderAvailable))
  }

  /** What `synthesize` reports. */
  datatype SynthesisError =
    | EmptyText                 // ValueError("Text is empty")
    | UnknownProvider(name: string)
    | EngineFailed(name: string)

  datatype SynthesisResult =
    | Synthesized(audioData: seq<bv8>, text: string, estimatedAudioDuration: real,
                  sampleRate: nat, channels: nat, format: string,
                  provider: string, voice: string, textLength: nat, wordCount: nat)
    | SynthesisFailed(audioData: seq<bv8>, text: string, error: SynthesisError, provider: string)

  /** What each engine produces for the prepared text; `None` when it
      raises (non-zero exit status, timeout, unreadable output). */
  datatype EngineOutputs = EngineOutputs(piper: Option<seq<bv8>>, espeak: Option<seq<bv8>>, system: Option<seq<bv8>>)

  function EngineOutput(engines: EngineOutputs, k: nat): Option<seq<bv8>> {
    if k == 0 then engines.piper else if k == 1 then engines.espeak else engines.system
  }

  class TtsProcessor {
    var provider: string
    var voice: string
    var device: string
    var piperAvailable: bool
    var espeakAvailable: bool
    var systemAvailable: bool

    function State(): EngineState
      reads this
    {
      EngineState(provider, piperAvailable, espeakAvailable, systemAvailable)
    }

    /** The attribute assignments of `__init__`, before the provider is
        initialised. */
    constructor (provider: string, voice: string, device: string)
      ensures this.provider == provider && this.voice == voice && this.device == device
      ensures !piperAvailable && !espeakAvailable && !systemAvailable
    {
      this.provider := provider;
      this.voice := voice;
      this.device := device;
      piperAvailable := false;
      espeakAvailable := false;
      systemAvailable := false;
    }

    /** `_initialize_system`: the end of the chain. */
    method InitializeSystem(probes: Probes) returns (outcome: Outcome<InitError>)
      modifies this
      ensures (State(), outcome) == InitializeFrom(old(State()), 2, probes)
      ensures voice == old(voice) && device == old(device)
    {
      if probes.system {
        systemAvailable := true;
        outcome := Pass;
      } else {
        outcome := Fail(NoProviderAvailable);
      }
    }

    /** `_initialize_espeak`: falls back to the system engine. */
    method InitializeEspeak(probes: Probes) returns (outcome: Outcome<InitError>)
      modifies this
      ensures (State(), outcome) == InitializeFrom(old(State()), 1, probes)
      ensures voice == old(voice) && device == old(device)
    {
      if probes.espeak {
        espeakAvailable := true;
        outcome := Pass;
      } else {
        provider := "system";
        outcome := InitializeSystem(probes);
      }
    }

    /** `_initialize_piper`: falls back to espeak. */
    method InitializePiper(probes: Probes) returns (outcome: Outcome<InitError>)
      modifies this
      ensures (State(), outcome) == InitializeFrom(old(State()), 0, probes)
      ensures voice == old(voice) && device == old(device)
    {
      if probes.piper {
        piperAvailable := true;
        outcome := Pass;
      } else {
        provider := "espeak";
        outcome := InitializeEspeak(probes);
      }
    }

    /** `_initialize_provider`: starts the chain at the requested engine and
        rejects any other name. */
    method InitializeProvider(probes: Probes) returns (outcome: Outcome<InitError>)
      modifies this
      ensures ChainIndex(old(provider)).None? ==>
        State() == old(State()) && outcome == Fail(UnsupportedProvider(old(provider)))
      ensures ChainIndex(old(provider)).Some? ==>
        (State(), outcome) == InitializeFrom(old(State()), ChainIndex(old(provider)).value, probes)
      ensures voice == old(voice) && device == old(device)
    {
      if provider == "piper" {
        outcome := InitializePiper(probes);
      } else if provider == "espeak" {
        outcome := InitializeEspeak(probes);
      } else if provider == "system" {
        outcome := InitializeSystem(probes);
      } else {
        outcome := Fail(UnsupportedProvider(provider));
      }
    }

    /** `synthesize(text, output_format)`: the result for the current
        provider, given what each engine would produce. */
    function Synthesize(text: string, outputFormat: string, engines: EngineOutputs): (r: SynthesisResult)
      reads this
      ensures AllSpace(text) ==> r == SynthesisFailed([], text, EmptyText, provider)
      ensures r.SynthesisFailed? ==> r.audioData == [] && r.text == text && r.provider == provider
      ensures r.Synthesized? ==>
        r.text == PreparedForSwedish(Strip(text)) && r.provider == provider && r.voice == voice &&
        r.format == outputFormat && r.sampleRate == SampleRate && r.channels == Channels
    {
      if Strip(text) == "" then
        StripEmptyIff(text);
        SynthesisFailed([], text, EmptyText, provider)
      else
        StripEmptyIff(text);
        var cleaned := PreparedForSwedish(Strip(text));
        match ChainIndex(provider)
        case None => SynthesisFailed([], text, UnknownProvider(provider), provider)
        case Some(k) =>
          match EngineOutput(engines, k)
          case None => SynthesisFailed([], text, EngineFailed(provider), provider)
          case Some(audio) =>
            var wordCount := |Split(cleaned)|;
            Synthesized(audio, cleaned, wordCount as real / WordsPerSecond,
                        SampleRate, Channels, outputFormat, provider, voice, |cleaned|, wordCount)
    }
  }

  /** `TTSProcessor(provider, voice, device)`: construction either yields a
      processor on the resolved engine or raises. */
  method Create(provider: string, voice: string, device: string, probes: Probes)
    returns (r: Result<TtsProcessor, InitError>)
    ensures r.Failure? <==> ResolveProvider(provider, probes).Failure?
    ensures r.Failure? ==> r.error == ResolveProvider(provider, probes).error
    ensures r.Success? ==>
      fresh(r.value) &&
      r.value.provider == ResolveProvider(provider, probes).value &&
      r.value.voice == voice && r.value.device == device
    ensures r.Success? ==>
      r.value.piperAvailable == (r.value.provider == "piper") &&
      r.value.espeakAvailable == (r.value.provider == "espeak") &&
      r.value.systemAvailable == (r.value.provider == "system")
  {
    var p := new TtsProcessor(provider, voice, device);
    var outcome := p.InitializeProvider(probes);
    if outcome.Fail? {
      r := Failure(outcome.error);
    } else {
      r := Success(p);
    }
  }

  // ---------------------------------------------------------------------
  // The fallback chain

  /** A resolved engine answered its probe, and every engine the chain
      tried before it did not. */
  lemma ResolvedIsFirstAvailable(requested: string, probes: Probes)
    requires ResolveProvider(requested, probes).Success?
    ensures var i := ChainIndex(requested).value;
      var j := ChainIndex(ResolveProvider(requested, probes).value).value;
      i <= j && ProbeOk(probes, j) && forall k :: i <= k < j ==> !ProbeOk(probes, k)
  {
  }

  /** An engine that answers its probe is kept. */
  lemma AvailableRequestKept(requested: string, probes: Probes)
    requires requested in Chain && ProbeOk(probes, ChainIndex(requested).value)
    ensures ResolveProvider(requested, probes) == Success(requested)
  {
  }

  /** Construction fails with `RuntimeError` exactly when the requested
      engine and all the engines after it fail their probes. */
  lemma NoProviderIff(requested: string, probes: Probes)
    ensures ResolveProvider(requested, probes) == Failure(NoProviderAvailable) <==>
      (requested in Chain &&
       forall k :: ChainIndex(requested).value <= k < |Chain| ==> !ProbeOk(probes, k))
  {
  }

  /** Construction fails with `ValueError` exactly for a name outside the
      chain. */
  lemma UnsupportedIff(requested: string, probes: Probes)
    ensures (ResolveProvider(requested, probes).Failure? &&
             ResolveProvider(requested, probes).error.UnsupportedProvider?) <==> requested !in Chain
    ensures requested !in Chain ==>
      ResolveProvider(requested, probes) == Failure(UnsupportedProvider(requested))
  {
  }

  /** The chain only moves forward: espeak never falls back to piper, and
      system never falls back at all. */
  lemma FallbackMovesForward(probes: Probes)
    ensures ResolveProvider("espeak", probes) != Success("piper")
    ensures ResolveProvider("system", probes) ==
      (if probes.system then Success("system") else Failure(NoProviderAvailable))
  {
  }

  /** Asking for piper succeeds whenever any engine answers. */
  lemma PiperSucceedsIfAnyAvailable(probes: Probes)
    ensures ResolveProvider("piper", probes).Success? <==>
      (probes.piper || probes.espeak || probes.system)
  {
    if probes.piper || probes.espeak || probes.system {
      assert ProbeOk(probes, 0) || ProbeOk(probes, 1) || ProbeOk(probes, 2);
    }
  }

  /** The state transitions agree with the resolved engine: starting from a
      fresh processor, the chain ends on `ResolveProvider`'s engine with
      only that engine's flag set. */
  lemma InitializeFromResolves(requested: string, probes: Probes)
    requires requested in Chain
    ensures var s := EngineState(requested, false, false, false);
      var (t, outcome) := InitializeFrom(s, ChainIndex(requested).value, probes);
      (outcome.Pass? <==> ResolveProvider(requested, probes).Success?) &&
      (outcome.Pass? ==> t.provider == ResolveProvider(requested, probes).value &&
                         t.piper == (t.provider == "piper") &&
                         t.espeak == (t.provider == "espeak") &&
                         t.system == (t.provider == "system")) &&
      (outcome.Fail? ==> outcome.error == NoProviderAvailable)
  {
  }

  // ---------------------------------------------------------------------
  // Synthesis

  /** The error result for blank text depends on neither the engines nor
      the format. */
  lemma BlankTextIgnoresEngines(p: TtsProcessor, text: string, f1: string, f2: string,
                                e1: EngineOutputs, e2: EngineOutputs)
    requires AllSpace(text)
    ensures p.Synthesize(text, f1, e1) == p.Synthesize(text, f2, e2)
  {
  }

  /** Synthesis succeeds exactly when the text is not blank, the provider
      is an engine and that engine produces audio. */
  lemma SynthesizeSucceedsIff(p: TtsProcessor, text: string, format: string, engines: EngineOutputs)
    ensures p.Synthesize(text, format, engines).Synthesized? <==>
      (!AllSpace(text) && p.provider in Chain &&
       EngineOutput(engines, ChainIndex(p.provider).value).Some?)
  {
    StripEmptyIff(text);
  }

  /** On success the audio is the engine's, the reported length and word
      count are those of the prepared text, that text ends a sentence,
      is no shorter than the stripped input and has at least one word. */
  lemma SynthesizedFacts(p: TtsProcessor, text: string, format: string, engines: EngineOutputs)
    requires p.Synthesize(text, format, engines).Synthesized?
    ensures var r := p.Synthesize(text, format, engines);
      r.audioData == EngineOutput(engines, ChainIndex(p.provider).value).value &&
      r.textLength == |r.text| >= |Strip(text)| > 0 &&
      r.wordCount == |Split(r.text)| >= 1 &&
      r.estimatedAudioDuration == r.wordCount as real / WordsPerSecond &&
      EndsWithSentenceEnd(r.text)
  {
    var r := p.Synthesize(text, format, engines);
    var cleaned := PreparedForSwedish(Strip(text));
    SynthesizedFields(p, text, format, engines);
    assert r.text == cleaned && r.textLength == |cleaned| && r.wordCount == |Split(cleaned)|;
    PreparedTextFacts(Strip(text));
  }

  /** The fields of a successful result, read off the definition. */
  lemma SynthesizedFields(p: TtsProcessor, text: string, format: string, engines: EngineOutputs)
    requires p.Synthesize(text, format, engines).Synthesized?
    ensures var r := p.Synthesize(text, format, engines);
      var cleaned := PreparedForSwedish(Strip(text));
      Strip(text) != [] && p.provider in Chain &&
      r == Synthesized(EngineOutput(engines, ChainIndex(p.provider).value).value, cleaned,
                       |Split(cleaned)| as real / WordsPerSecond, SampleRate, Channels, format,
                       p.provider, p.voice, |cleaned|, |Split(cleaned)|)
  {
  }

  lemma PreparedTextFacts(s: string)
    ensures var t := PreparedForSwedish(s);
      |t| >= |s| && EndsWithSentenceEnd(t) && |Split(t)| >= 1
  {
    var t := PreparedForSwedish(s);
    assert !AllSpace(t) by {
      assert !IsSpace(t[|t| - 1]);
    }
    SplitEmptyIff(t);
  }

  /** A processor built by `Create` never reports an unknown provider: its
      provider is the resolved engine, and synthesis with it fails only on
      blank text or a failing engine. */
  lemma CreatedProviderKnown(p: TtsProcessor, requested: string, probes: Probes,
                             text: string, format: string, engines: EngineOutputs)
    requires ResolveProvider(requested, probes).Success?
    requires p.provider == ResolveProvider(requested, probes).value
    ensures var r := p.Synthesize(text, format, engines);
      r.SynthesisFailed? ==> r.error == EmptyText || r.error == EngineFailed(p.provider)
  {
  }
}
