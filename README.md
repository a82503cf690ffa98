# Speech-processing text logic of the AI evaluator

This project models the deterministic parts of the evaluator's two speech
modules and proves what they guarantee. It covers:

- **whisperx_processor.py**
  - `_clean_transcription`: collapses whitespace, capitalises the first
    character and makes the text end a sentence.
  - The language logic of `detect_language`:
    - filters the requested codes against the ten supported languages;
    - falls back to the default language when the model reports a
      language outside that set;
    - builds one alternative per detection language;
    - sorts the alternatives by descending confidence, stably.
- **tts_processor.py**
  - `_prepare_text_for_swedish`: adds terminal punctuation, then expands
    the five abbreviations kr, st, osv, t.ex and ca. Each takes two
    left-to-right, non-overlapping `str.replace` passes.
  - The provider initialisation chain: piper, then espeak, then system,
    then an error.
  - The input validation and bookkeeping of `synthesize`.

Files:

- `wrappers.dfy`: `Option`, `Result` and `Outcome`.
- `pytext.dfy` (module `PyText`): the Python string operations the code
  relies on, written out.
  - `str.split()` splits on the full `str.isspace` set.
  - `" ".join`, `strip` and `str.replace` are included.
  - `isupper`/`upper` are modelled for ASCII and Latin-1 letters.
  - Lemmas cover these functions, among them `Split(Join(ws)) == ws`.
- `transcript_cleaning.dfy` (module `TranscriptCleaning`): the clean-up,
  together with a reference definition on words (`CleanedWords`). They are
  proved equal, and the listed properties follow from that equality.
- `language_detection.dfy` (module `LanguageDetection`): the language
  filter and the fallback. It also holds the loop that builds the
  alternatives, as a method that fails exactly where Python divides by zero.
  The sort is an in-place insertion sort on an array, proved equal to the
  specification `SortedByConfidence`. That function is proved descending,
  a permutation and stable.
- `swedish_text.dfy` (module `SwedishText`): the preparation loop, as a
  method proved equal to `PreparedForSwedish`, with its properties.
- `tts_processor.dfy` (module `TextToSpeech`): class `TtsProcessor`.
  - Fields: `provider`, `voice`, `device` and the three availability flags.
  - Methods: `InitializeProvider`, `InitializePiper`, `InitializeEspeak`
    and `InitializeSystem`, which update those fields step by step.
  - Each method's new state is tied to `InitializeFrom`. That function is
    defined independently through `FirstAvailableFrom`, the first engine
    at or after a chain position whose probe succeeds.
  - `Create` models the constructor call with its exceptions.
  - `Synthesize` models `synthesize`.

Inputs the model cannot compute are parameters:

- a `Probes` value: whether each probe command exits with status 0;
- an `EngineOutputs` value: what each synthesis engine returns, or that it
  raises;
- `Option<ModelInfo>`: what the speech model reports, or that loading,
  preprocessing or transcription raised.

Raised exceptions become error values:

- `InitError`;
- `SynthesisError`, carried in a `SynthesisFailed` result;
- `DetectionError`, carried in the `error` field of a `DetectionResult`.

Two behaviours of the code are worth knowing. Neither is claimed as a
defect.

- **The '.' check comes before the replacements.** `_prepare_text_for_swedish`
  appends '.' before it replaces anything. An abbreviation at the very end
  of the text is therefore expanded even though the input held none of
  the patterns: "5 kr" becomes "5 kronor.". "Nothing but the '.' changes"
  holds when the *punctuated* text has no pattern (`PreparedUnchanged`);
  `PeriodCompletesAbbreviation` proves the "5 kr" case. The replace passes
  do not overlap: of " kr kr " only the first kr is expanded
  (`AdjacentAbbreviationsNotOverlapping`).
- **The default language may itself be outside the detection languages.**
  `detect_language` still falls back to it in that case. With exactly one
  detection language, the share computed for the other languages then
  divides by zero. The `except` handler turns that into an error result
  (`DividesByZeroOnlyOnFallback`, `DetectLanguage`).

## Model

| member | source | states |
|---|---|---|
| TranscriptCleaning.CleanTranscription | packages/ai-evaluator/src/whisperx_processor.py:359-384 | a non-empty result ends in '.', '!' or '?', starts with the upper case of the collapsed text's first character, and is at most one character longer than the collapsed text |
| TranscriptCleaning.Collapse | packages/ai-evaluator/src/whisperx_processor.py:373-376 | the `strip` after the join removes nothing: the collapsed text is single-spaced and has exactly the input's words |
| TranscriptCleaning.CleanEmptyIff | packages/ai-evaluator/src/whisperx_processor.py:369-383 | the cleaned text is empty exactly when the input is empty or whitespace only |
| TranscriptCleaning.CleanSingleSpaced | packages/ai-evaluator/src/whisperx_processor.py:373-376 | the result has no leading or trailing whitespace and single spaces between words |
| TranscriptCleaning.CleanWords | packages/ai-evaluator/src/whisperx_processor.py:373-382 | the result's words are the input's words, the first capitalised (rest unchanged) and the last given a '.' unless it ends in '.', '!' or '?' |
| TranscriptCleaning.CleanByWords | packages/ai-evaluator/src/whisperx_processor.py:359-384 | the three-step clean-up equals joining the reference word transformation with single spaces |
| TranscriptCleaning.CleanSentenceEnd | packages/ai-evaluator/src/whisperx_processor.py:381-382 | a non-empty result ends in '.', '!' or '?', and one character was added exactly when the input's last non-whitespace character was none of these |
| TranscriptCleaning.CleanFirstChar | packages/ai-evaluator/src/whisperx_processor.py:377-378 | the first character of a non-empty result is the upper case of the input's first non-whitespace character |
| TranscriptCleaning.CleanIdempotent | packages/ai-evaluator/src/whisperx_processor.py:359-384 | cleaning a cleaned text returns it unchanged |
| TranscriptCleaning.CapitaliseFirstChar | packages/ai-evaluator/src/whisperx_processor.py:377-378 | same length, first character upper-cased, the rest unchanged |
| TranscriptCleaning.EnsureSentenceEnd | packages/ai-evaluator/src/whisperx_processor.py:381-382 | a non-empty text ends a sentence afterwards, with one character added exactly when it did not before |
| LanguageDetection.FilterSupported | packages/ai-evaluator/src/whisperx_processor.py:103 | the filtered list holds only supported codes and is no longer than the request |
| LanguageDetection.FilterSupportedCount | packages/ai-evaluator/src/whisperx_processor.py:103 | every supported code occurs as often as in the request (duplicates kept), unsupported ones not at all |
| LanguageDetection.FilterSupportedAppend | packages/ai-evaluator/src/whisperx_processor.py:103 | filtering distributes over concatenation, so request order is kept |
| LanguageDetection.FilterSupportedKeepsSupported | packages/ai-evaluator/src/whisperx_processor.py:103 | a request of supported codes is returned unchanged |
| LanguageDetection.DetectionLanguages | packages/ai-evaluator/src/whisperx_processor.py:102-105 | the detection languages are supported codes, a non-empty request is never lengthened, and a missing or empty request yields all ten table keys in table order |
| LanguageDetection.ResolveDetected | packages/ai-evaluator/src/whisperx_processor.py:132-139 | a detected language outside the detection languages becomes the default with probability 0.5; otherwise the language and probability are kept (missing attributes read as default and 0.5) |
| LanguageDetection.ResolveDetectedIdempotent | packages/ai-evaluator/src/whisperx_processor.py:132-139 | feeding a resolved guess back changes nothing |
| LanguageDetection.OtherConfidence | packages/ai-evaluator/src/whisperx_processor.py:148 | the share for the other languages is at least 0.1 and at least (1 - p) / (n - 1) |
| LanguageDetection.BuildAlternatives | packages/ai-evaluator/src/whisperx_processor.py:142-149 | the loop yields one entry per detection language with its confidence, and fails with a division by zero exactly for one detection language different from the reported one; on success the list is `Alternatives` |
| LanguageDetection.Alternatives | packages/ai-evaluator/src/whisperx_processor.py:142-149 | one entry per detection language in their order; the reported language's entries carry its probability, all others at least 0.1 |
| LanguageDetection.DividesByZeroOnlyOnFallback | packages/ai-evaluator/src/whisperx_processor.py:136-148 | the division by zero happens only when the default language was reported and is not a detection language |
| LanguageDetection.SortedByConfidence | packages/ai-evaluator/src/whisperx_processor.py:152 | the stable descending sort the in-place sort is proved against; it has as many entries as its input (order and contents in the three rows below) |
| LanguageDetection.SortedDescending | packages/ai-evaluator/src/whisperx_processor.py:152 | the sorted alternatives have non-increasing confidences |
| LanguageDetection.SortedPermutation | packages/ai-evaluator/src/whisperx_processor.py:152 | the sorted alternatives are a permutation of the unsorted ones |
| LanguageDetection.SortedStable | packages/ai-evaluator/src/whisperx_processor.py:152 | alternatives of equal confidence keep their relative order |
| LanguageDetection.InsertAt | packages/ai-evaluator/src/whisperx_processor.py:152 | one step of the in-place sort: the prefix becomes the stable insertion of the element, the suffix is untouched |
| LanguageDetection.SortByConfidence | packages/ai-evaluator/src/whisperx_processor.py:152 | the in-place sort leaves the array equal to the stable descending sort of its old contents |
| LanguageDetection.DetectLanguage | packages/ai-evaluator/src/whisperx_processor.py:94-182 | the result for too-small audio, a failing model and the division by zero is the fallback result; otherwise it reports the resolved guess with a descending permutation of the alternatives |
| SwedishText.Punctuated | packages/ai-evaluator/src/tts_processor.py:182-183 | the result ends in '.', '!' or '?', keeps the text as a prefix and is at most one character longer; it is the text itself exactly when that already ended a sentence |
| SwedishText.PrepareTextForSwedish | packages/ai-evaluator/src/tts_processor.py:171-198 | the loop over the table yields the punctuated text with each entry's two replace passes applied in table order |
| SwedishText.PreparedForSwedish | packages/ai-evaluator/src/tts_processor.py:182-198 | the prepared text ends in '.', '!' or '?' (the input's own last character when it already did, otherwise '.') and is at least as long as the punctuated text, which is at least as long as the input |
| SwedishText.PreparedUnchanged | packages/ai-evaluator/src/tts_processor.py:182-198 | when the punctuated text contains none of the ten patterns, preparation adds at most the '.' |
| SwedishText.ExpandAbbreviationFacts | packages/ai-evaluator/src/tts_processor.py:194-196 | one entry's two replace passes keep the last character, do not shorten the text when the expansion is no shorter than the abbreviation, and change nothing when neither pattern occurs |
| SwedishText.ExpandAllAbsent | packages/ai-evaluator/src/tts_processor.py:194-196 | passes whose patterns do not occur leave the text unchanged |
| SwedishText.PeriodCompletesAbbreviation | packages/ai-evaluator/src/tts_processor.py:182-196 | "5 kr" contains no pattern, yet is prepared as "5 kronor." |
| SwedishText.AdjacentAbbreviationsNotOverlapping | packages/ai-evaluator/src/tts_processor.py:195 | the replace is non-overlapping: " kr kr " becomes " kronor kr " |
| TextToSpeech.ChainIndex | packages/ai-evaluator/src/tts_processor.py:50-57 | a name has a chain position exactly when it is piper, espeak or system |
| TextToSpeech.FirstAvailableFrom | packages/ai-evaluator/src/tts_processor.py:59-104 | the engine found answers its probe, lies at or after the start and every engine between failed its probe; none found means all from the start failed |
| TextToSpeech.ResolveProvider | packages/ai-evaluator/src/tts_processor.py:25-104 | a resolved engine is in the chain at or after the requested one; construction raises only the unsupported-provider ValueError or the RuntimeError |
| TextToSpeech.TtsProcessor.constructor | packages/ai-evaluator/src/tts_processor.py:25-38 | provider, voice and device are stored, and no availability flag is set yet |
| TextToSpeech.TtsProcessor.InitializeSystem | packages/ai-evaluator/src/tts_processor.py:91-104 | a working system engine sets its flag; otherwise "No TTS providers available" is raised |
| TextToSpeech.TtsProcessor.InitializeEspeak | packages/ai-evaluator/src/tts_processor.py:75-89 | a working espeak sets its flag; otherwise provider becomes system and the chain continues |
| TextToSpeech.TtsProcessor.InitializePiper | packages/ai-evaluator/src/tts_processor.py:59-73 | a working piper sets its flag; otherwise provider becomes espeak and the chain continues |
| TextToSpeech.TtsProcessor.InitializeProvider | packages/ai-evaluator/src/tts_processor.py:48-57 | the chain starts at the requested engine; another name raises the unsupported-provider error and changes nothing |
| TextToSpeech.Create | packages/ai-evaluator/src/tts_processor.py:25-57 | construction fails exactly when the resolution fails; otherwise the processor uses the resolved engine and only that engine's flag is set |
| TextToSpeech.ResolvedIsFirstAvailable | packages/ai-evaluator/src/tts_processor.py:59-104 | the resolved engine answered its probe, is at or after the requested one, and every engine tried before it failed |
| TextToSpeech.AvailableRequestKept | packages/ai-evaluator/src/tts_processor.py:59-104 | a requested engine that answers is kept |
| TextToSpeech.NoProviderIff | packages/ai-evaluator/src/tts_processor.py:91-104 | the RuntimeError is raised exactly when the requested engine and all later ones fail their probes |
| TextToSpeech.UnsupportedIff | packages/ai-evaluator/src/tts_processor.py:56-57 | the ValueError is raised exactly for a name outside piper, espeak, system |
| TextToSpeech.FallbackMovesForward | packages/ai-evaluator/src/tts_processor.py:75-104 | an espeak request never ends at piper; a system request ends at system or raises |
| TextToSpeech.PiperSucceedsIfAnyAvailable | packages/ai-evaluator/src/tts_processor.py:59-104 | a piper request succeeds exactly when some engine answers |
| TextToSpeech.InitializeFromResolves | packages/ai-evaluator/src/tts_processor.py:25-104 | from a fresh processor the state machine ends on the resolved engine with only its flag set, and fails only with the RuntimeError |
| TextToSpeech.TtsProcessor.Synthesize | packages/ai-evaluator/src/tts_processor.py:106-169 | blank text gives an error result; every error result has empty audio, the original text and the current provider; a success reports the prepared stripped text with the processor's settings |
| TextToSpeech.BlankTextIgnoresEngines | packages/ai-evaluator/src/tts_processor.py:119-169 | the result for blank text depends on neither the engines nor the format |
| TextToSpeech.SynthesizeSucceedsIff | packages/ai-evaluator/src/tts_processor.py:119-135 | synthesis succeeds exactly when the text is not blank, the provider is an engine and that engine produces audio |
| TextToSpeech.SynthesizedFacts | packages/ai-evaluator/src/tts_processor.py:125-155 | on success the audio is the engine's, text_length is the prepared text's length (at least the stripped input's), word_count its number of words (at least one), the estimate is word_count / 4.5, and the text ends a sentence |
| TextToSpeech.CreatedProviderKnown | packages/ai-evaluator/src/tts_processor.py:119-169 | synthesis on a processor whose provider is a resolved engine never reports an unknown provider: it fails only on blank text or a failing engine |

## Left out

- Subprocesses, temporary files and file reads. The probe commands and the three synthesis engines (including the ffmpeg conversion) are replaced by their verdicts and outputs, given as parameters.
- The speech model and its construction (`WhisperModel`, `transcribe`), device detection, and audio loading and preprocessing (`_preprocess_audio`, `_normalize_audio`). The model's report is a parameter.
- Timing: `duration`, `detection_duration` and `audio_duration` need the clock or the decoded audio, so they are not in the results.
- Logging, `get_status`, the command-line `main` functions, `transcribe_buffer`, per-segment confidences and `_assess_transcription_quality` are not part of this model.
- Confidences and the duration estimate are exact `real`s, not binary floating point. Rounding in `(1.0 - p) / (n - 1)` and `word_count / 4.5` is not modelled.
- PyText.Upper: case mapping covers ASCII and Latin-1 letters only. Characters whose upper case lies outside Latin-1 or is longer than one character (ß, ÿ, µ) and all other scripts are treated as caseless.
- Exception messages (`str(e)`) are replaced by error constructors. An engine's stderr text is not carried. Every engine failure is `EngineFailed` with the provider's name.
- Python's `list.sort` is Timsort. The model sorts by insertion, which yields the same list because a stable sort's result is determined by its keys. `SortedDescending`, `SortedPermutation` and `SortedStable` state that result.
- TextToSpeech.Create: an exception in `__init__` leaves no object. The model allocates the processor and returns a failure instead of it.
- TtsProcessor: an availability attribute that the source never assigns (a missing `hasattr` attribute) is a false flag. The fixed audio settings `sample_rate` and `channels` are module constants, not fields. `bit_depth` is set to 16 but never read by the modelled code, so it is omitted.
- The `text` argument of `synthesize` and the transcript are strings. `None` is not modelled.
- The `audio_format` argument of `detect_language` only names the temporary file, so it is omitted. An audio buffer is a byte sequence.
- TextToSpeech.Create: a probe verdict is only "exit status 0" or "timeout, missing binary or non-zero status". Any other exception from a probe's `subprocess.run` (a `PermissionError` or other `OSError`, a `UnicodeDecodeError` of the captured output) is not caught by the `except` clauses and escapes the constructor without fallback. The model has no such verdict, so `Create`, `NoProviderIff`, `PiperSucceedsIfAnyAvailable` and `InitializeFromResolves` hold only for probes that end in one of the two modelled ways.
- Default arguments (`TTSProcessor(provider="piper", voice="swedish_female", device="auto")`, `synthesize(output_format="wav")`, `detect_language(supported_languages=None)`, `WhisperXProcessor(language="sv")`) are not modelled as defaults: `Create`, `Synthesize` and `DetectLanguage` take every argument explicitly.
