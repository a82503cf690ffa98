/** Language detection (`WhisperXProcessor.detect_language`): the requested
    language codes are filtered against the supported table, the model's
    guess falls back to the default language when it is outside that set,
    and one alternative per detection language is built and sorted by
    descending confidence. */
module LanguageDetection {
  import opened Wrappers

  /** The keys of `supported_languages`, in the table's order: Swedish,
      English, Danish, Norwegian, Finnish, German, French, Spanish,
      Italian, Dutch. */
  const SupportedCodes: seq<string> := ["sv", "en", "da", "no", "fi", "de", "fr", "es", "it", "nl"]

  /** The shortest audio buffer, in bytes, that detection accepts. */
  const MinAudioBytes: nat := 1024

  /** `[lang for lang in requested if lang in self.supported_languages]`. */
  function FilterSupported(requested: seq<string>): (r: seq<string>)
    ensures |r| <= |requested|
    ensures forall i :: 0 <= i < |r| ==> r[i] in SupportedCodes
  {
    if requested == [] then []
    else (if requested[0] in SupportedCodes then [requested[0]] else []) + FilterSupported(requested[1..])
  }

  /** `detection_languages`: the filtered request, or every supported code
      when the request is missing or empty. Either way only supported codes
      remain, and a non-empty request is never lengthened. */
  function DetectionLanguages(requested: Option<seq<string>>): (langs: seq<string>)
    ensures forall i :: 0 <= i < |langs| ==> langs[i] in SupportedCodes
    ensures requested.None? || requested.value == [] ==> langs == SupportedCodes
    ensures requested.Some? && requested.value != [] ==> |langs| <= |requested.value|
  {
    if requested.Some? && requested.value != [] then FilterSupported(requested.value)
    else SupportedCodes
  }

  /** Each code occurs in the filtered list as often as in the request if
      it is supported, and not at all otherwise. */
  lemma {:induction false} FilterSupportedCount(requested: seq<string>, code: string)
    ensures multiset(FilterSupported(requested))[code] ==
      if code in SupportedCodes then multiset(requested)[code] else 0
  {
    if requested != [] {
      FilterSupportedCount(requested[1..], code);
      assert requested == [requested[0]] + requested[1..];
    }
  }

  /** Filtering keeps the request's order: it distributes over
      concatenation. */
  lemma {:induction false} FilterSupportedAppend(a: seq<string>, b: seq<string>)
    ensures FilterSupported(a + b) == FilterSupported(a) + FilterSupported(b)
  {
    if a != [] {
      assert (a + b)[1..] == a[1..] + b;
      FilterSupportedAppend(a[1..], b);
    } else {
      assert a + b == b;
    }
  }

  /** A request of supported codes only is kept as it is. */
  lemma {:induction false} FilterSupportedKeepsSupported(requested: seq<string>)
    requires forall i :: 0 <= i < |requested| ==> requested[i] in SupportedCodes
    ensures FilterSupported(requested) == requested
  {
    if requested != [] {
      FilterSupportedKeepsSupported(requested[1..]);
    }
  }

  // ---------------------------------------------------------------------
  // The detected language and its fallback

  /** What the model reports; a field is `None` when the result object
      lacks that attribute. */
  datatype ModelInfo = ModelInfo(language: Option<string>, languageProbability: Option<real>)

  /** A reported language with its probability. */
  datatype Guess = Guess(language: string, probability: real)

  /** `detected_language` and `language_probability` after the fallback. */
  function ResolveDetected(info: ModelInfo, langs: seq<string>, defaultLanguage: string): (g: Guess)
    ensures g.language in langs || g == Guess(defaultLanguage, 0.5)
    ensures info.language.GetOr(defaultLanguage) !in langs ==> g == Guess(defaultLanguage, 0.5)
    ensures info.language.GetOr(defaultLanguage) in langs ==>
      g == Guess(info.language.GetOr(defaultLanguage), info.languageProbability.GetOr(0.5))
  {
    var detected := info.language.GetOr(defaultLanguage);
    var probability := info.languageProbability.GetOr(0.5);
    if detected !in langs then Guess(defaultLanguage, 0.5) else Guess(detected, probability)
  }

  /** Resolving a resolved guess again changes nothing. */
  lemma ResolveDetectedIdempotent(info: ModelInfo, langs: seq<string>, defaultLanguage: string)
    ensures var g := ResolveDetected(info, langs, defaultLanguage);
      ResolveDetected(ModelInfo(Some(g.language), Some(g.probability)), langs, defaultLanguage) == g
  {
  }

  // ---------------------------------------------------------------------
  // Alternatives

  /** One entry of `all_languages`. */
  datatype Alternative = Alternative(language: string, confidence: real)

  /** `max(0.1, (1.0 - p) / (n - 1))`, the confidence given to every
      language other than the detected one. */
  function OtherConfidence(p: real, n: nat): (c: real)
    requires n > 1
    ensures c >= 0.1 && c >= (1.0 - p) / ((n - 1) as real)
  {
    var share := (1.0 - p) / ((n - 1) as real);
    if share > 0.1 then share else 0.1
  }

  /** The `else` branch of the loop divides by `n - 1 == 0`: a single
      detection language that is not the reported one. */
  predicate DividesByZero(langs: seq<string>, g: Guess) {
    |langs| == 1 && langs[0] != g.language
  }

  /** The confidence the loop gives to `lang`. */
  function ConfidenceFor(lang: string, langs: seq<string>, g: Guess): real
    requires lang == g.language || |langs| > 1
  {
    if lang == g.language then g.probability else OtherConfidence(g.probability, |langs|)
  }

  /** `all_languages` before sorting: one entry per detection language, in
      their order; the reported language's entries carry its probability
      and every other entry at least 0.1. */
  function Alternatives(langs: seq<string>, g: Guess): (alts: seq<Alternative>)
    requires !DividesByZero(langs, g)
    ensures |alts| == |langs|
    ensures forall k :: 0 <= k < |alts| ==> alts[k].language == langs[k]
    ensures forall k :: 0 <= k < |alts| && alts[k].language == g.language ==> alts[k].confidence == g.probability
    ensures forall k :: 0 <= k < |alts| && alts[k].language != g.language ==> alts[k].confidence >= 0.1
  {
    seq(|langs|, k requires 0 <= k < |langs| => Alternative(langs[k], ConfidenceFor(langs[k], langs, g)))
  }

  /** The loop that builds `all_languages`; it fails on the division by
      zero. */
  method BuildAlternatives(langs: seq<string>, g: Guess) returns (r: Result<seq<Alternative>, DetectionError>)
    ensures r.Failure? <==> DividesByZero(langs, g)
    ensures r.Failure? ==> r.error == ZeroDivision
    ensures r.Success? ==> |r.value| == |langs|
    ensures r.Success? ==> forall k :: 0 <= k < |langs| ==>
      (r.value[k].language == langs[k] && r.value[k].confidence == ConfidenceFor(langs[k], langs, g))
    ensures r.Success? ==> r.value == Alternatives(langs, g)
  {
    var all: seq<Alternative> := [];
    for i := 0 to |langs|
      invariant |all| == i
      invariant i > 0 ==> !DividesByZero(langs, g)
      invariant forall k :: 0 <= k < i ==>
        (all[k].language == langs[k] && all[k].confidence == ConfidenceFor(langs[k], langs, g))
    {
      if langs[i] == g.language {
        all := all + [Alternative(langs[i], g.probability)];
      } else {
        if |langs| - 1 == 0 {
          return Failure(ZeroDivision);
        }
        var confidence := OtherConfidence(g.probability, |langs|);
        all := all + [Alternative(langs[i], confidence)];
      }
    }
    r := Success(all);
  }

  /** The division by zero is reached only through the fallback: the
      default language is reported although it is not a detection
      language. */
  lemma DividesByZeroOnlyOnFallback(info: ModelInfo, langs: seq<string>, defaultLanguage: string)
    requires DividesByZero(langs, ResolveDetected(info, langs, defaultLanguage))
    ensures ResolveDetected(info, langs, defaultLanguage) == Guess(defaultLanguage, 0.5)
    ensures defaultLanguage !in langs
  {
  }

  // ---------------------------------------------------------------------
  // Stable sort by descending confidence

  /** Inserts `x` after every element of `t`, counted from the end, whose
      confidence is smaller; equal confidences keep `x` behind them. */
  function InsertByConfidence(t: seq<Alternative>, x: Alternative): (r: seq<Alternative>)
    ensures |r| == |t| + 1
    decreases |t|
  {
    if t == [] || t[|t| - 1].confidence >= x.confidence then t + [x]
    else InsertByConfidence(t[..|t| - 1], x) + [t[|t| - 1]]
  }

  /** `sorted(alts, key=confidence, reverse=True)`: insertion sort of the
      elements in order. */
  function SortedByConfidence(s: seq<Alternative>): (r: seq<Alternative>)
    ensures |r| == |s|
  {
    if s == [] then [] else InsertByConfidence(SortedByConfidence(s[..|s| - 1]), s[|s| - 1])
  }

  predicate Descending(s: seq<Alternative>) {
    forall i, j :: 0 <= i < j < |s| ==> s[i].confidence >= s[j].confidence
  }

  /** The elements of `s` whose confidence is `c`, in order. */
  function WithConfidence(s: seq<Alternative>, c: real): seq<Alternative> {
    if s == [] then []
    else WithConfidence(s[..|s| - 1], c) + (if s[|s| - 1].confidence == c then [s[|s| - 1]] else [])
  }

  lemma {:induction false} WithConfidenceAppend(a: seq<Alternative>, b: seq<Alternative>, c: real)
    ensures WithConfidence(a + b, c) == WithConfidence(a, c) + WithConfidence(b, c)
    decreases |b|
  {
    if b == [] {
      assert a + b == a;
    } else {
      assert (a + b)[..|a + b| - 1] == a + b[..|b| - 1];
      WithConfidenceAppend(a, b[..|b| - 1], c);
    }
  }

  lemma {:induction false} InsertDescending(t: seq<Alternative>, x: Alternative)
    requires Descending(t)
    ensures Descending(InsertByConfidence(t, x))
    ensures |InsertByConfidence(t, x)| == |t| + 1
    ensures forall i :: 0 <= i < |InsertByConfidence(t, x)| ==>
      InsertByConfidence(t, x)[i].confidence >= x.confidence || InsertByConfidence(t, x)[i] in t
    decreases |t|
  {
    if t != [] && t[|t| - 1].confidence < x.confidence {
      var u := t[..|t| - 1];
      InsertDescending(u, x);
      var v := InsertByConfidence(u, x);
      var last := t[|t| - 1];
      forall i | 0 <= i < |v| ensures v[i].confidence >= last.confidence {
        if v[i] in u {
          var k :| 0 <= k < |u| && u[k] == v[i];
          assert t[k] == u[k];
        }
      }
      assert forall i :: 0 <= i < |v| ==> v[i] in t || v[i].confidence >= x.confidence;
    }
  }

  lemma {:induction false} InsertPermutation(t: seq<Alternative>, x: Alternative)
    ensures multiset(InsertByConfidence(t, x)) == multiset(t) + multiset{x}
    decreases |t|
  {
    if t != [] && t[|t| - 1].confidence < x.confidence {
      InsertPermutation(t[..|t| - 1], x);
      assert t == t[..|t| - 1] + [t[|t| - 1]];
    }
  }

  lemma WithConfidenceSingle(x: Alternative, c: real)
    ensures WithConfidence([x], c) == if x.confidence == c then [x] else []
  {
    assert [x][..0] == [];
  }

  lemma {:induction false} InsertStable(t: seq<Alternative>, x: Alternative, c: real)
    ensures WithConfidence(InsertByConfidence(t, x), c) == WithConfidence(t + [x], c)
    decreases |t|
  {
    if t != [] && t[|t| - 1].confidence < x.confidence {
      var u, last := t[..|t| - 1], t[|t| - 1];
      assert t == u + [last];
      WithConfidenceSingle(x, c);
      WithConfidenceSingle(last, c);
      assert WithConfidence([x], c) + WithConfidence([last], c)
          == WithConfidence([last], c) + WithConfidence([x], c);
      calc {
        WithConfidence(InsertByConfidence(t, x), c);
        WithConfidence(InsertByConfidence(u, x) + [last], c);
        { WithConfidenceAppend(InsertByConfidence(u, x), [last], c); }
        WithConfidence(InsertByConfidence(u, x), c) + WithConfidence([last], c);
        { InsertStable(u, x, c); WithConfidenceAppend(u, [x], c); }
        WithConfidence(u, c) + WithConfidence([x], c) + WithConfidence([last], c);
        WithConfidence(u, c) + WithConfidence([last], c) + WithConfidence([x], c);
        { WithConfidenceAppend(u, [last], c); }
        WithConfidence(t, c) + WithConfidence([x], c);
        { WithConfidenceAppend(t, [x], c); }
        WithConfidence(t + [x], c);
      }
    }
  }

  /** The sorted list has non-increasing confidences. */
  lemma {:induction false} SortedDescending(s: seq<Alternative>)
    ensures Descending(SortedByConfidence(s))
  {
    if s != [] {
      SortedDescending(s[..|s| - 1]);
      InsertDescending(SortedByConfidence(s[..|s| - 1]), s[|s| - 1]);
    }
  }

  /** The sorted list is a permutation of the input. */
  lemma {:induction false} SortedPermutation(s: seq<Alternative>)
    ensures multiset(SortedByConfidence(s)) == multiset(s)
  {
    if s != [] {
      SortedPermutation(s[..|s| - 1]);
      InsertPermutation(SortedByConfidence(s[..|s| - 1]), s[|s| - 1]);
      assert s == s[..|s| - 1] + [s[|s| - 1]];
    }
  }

  /** The sort is stable: the elements of any one confidence keep their
      relative order. */
  lemma {:induction false} SortedStable(s: seq<Alternative>, c: real)
    ensures WithConfidence(SortedByConfidence(s), c) == WithConfidence(s, c)
  {
    if s != [] {
      var u, x := s[..|s| - 1], s[|s| - 1];
      SortedStable(u, c);
      InsertStable(SortedByConfidence(u), x, c);
      WithConfidenceAppend(SortedByConfidence(u), [x], c);
      WithConfidenceAppend(u, [x], c);
      assert s == u + [x];
    }
  }

  /** Inserting behind a prefix whose last confidence is at least `x`'s,
      when everything after it has a smaller confidence. */
  lemma {:induction false} InsertBehind(t: seq<Alternative>, x: Alternative, j: nat)
    requires j <= |t| && (j == 0 || t[j - 1].confidence >= x.confidence)
    requires forall k :: j <= k < |t| ==> t[k].confidence < x.confidence
    ensures InsertByConfidence(t, x) == t[..j] + [x] + t[j..]
    decreases |t|
  {
    if j < |t| {
      var u := t[..|t| - 1];
      assert u[..j] == t[..j];
      InsertBehind(u, x, j);
      assert t[j..] == u[j..] + [t[|t| - 1]];
    } else {
      assert t[..j] == t;
    }
  }

  /** The array after the inner loop, with `x` written at `j`. */
  lemma InsertPlaced(b: seq<Alternative>, b0: seq<Alternative>, x: Alternative, i: nat, j: nat)
    requires |b| == |b0| && i < |b| && x == b0[i]
    requires j <= i && (j == 0 || b0[j - 1].confidence >= x.confidence)
    requires forall k :: j <= k < i ==> b0[k].confidence < x.confidence
    requires forall k :: 0 <= k < j ==> b[k] == b0[k]
    requires b[j] == x
    requires forall k :: j < k <= i ==> b[k] == b0[k - 1]
    requires forall k :: i < k < |b| ==> b[k] == b0[k]
    ensures b[..i + 1] == InsertByConfidence(b0[..i], b0[i])
    ensures b[i + 1..] == b0[i + 1..]
  {
    var t := b0[..i];
    InsertBehind(t, x, j);
    assert b[..i + 1] == t[..j] + [x] + t[j..];
  }

  /** One step of the insertion sort: moves `a[i]` left past the
      elements of smaller confidence. */
  method InsertAt(a: array<Alternative>, i: nat)
    requires i < a.Length
    modifies a
    ensures a[..i + 1] == InsertByConfidence(old(a[..i]), old(a[i]))
    ensures a[i + 1..] == old(a[i + 1..])
  {
    var x := a[i];
    var j := i;
    while j > 0 && a[j - 1].confidence < x.confidence
      invariant 0 <= j <= i
      invariant forall k :: 0 <= k < j ==> a[k] == old(a[k])
      invariant forall k :: j < k <= i ==> a[k] == old(a[k - 1])
      invariant forall k :: i < k < a.Length ==> a[k] == old(a[k])
      invariant forall k :: j <= k < i ==> old(a[k]).confidence < x.confidence
    {
      a[j] := a[j - 1];
      j := j - 1;
    }
    a[j] := x;
    InsertPlaced(a[..], old(a[..]), x, i, j);
  }

  /** `all_languages.sort(key=lambda x: x['confidence'], reverse=True)`:
      insertion sort in place. */
  method SortByConfidence(a: array<Alternative>)
    modifies a
    ensures a[..] == SortedByConfidence(old(a[..]))
  {
    ghost var orig := a[..];
    var i := 0;
    while i < a.Length
      invariant 0 <= i <= a.Length
      invariant a[..i] == SortedByConfidence(orig[..i])
      invariant a[i..] == orig[i..]
    {
      assert orig[..i + 1][..i] == orig[..i];
      assert a[i] == orig[i];
      InsertAt(a, i);
      i := i + 1;
    }
    assert orig[..a.Length] == orig;
  }

  // ---------------------------------------------------------------------
  // `detect_language`

  /** The exceptions that `detect_language` catches. */
  datatype DetectionError =
    | AudioTooSmall   // "Audio buffer is empty or too small"
    | InferenceFailed // loading, preprocessing or the model raised
    | ZeroDivision    // the alternative confidence divided by zero

  datatype DetectionResult = DetectionResult(
    detectedLanguage: string,
    languageConfidence: real,
    allLanguages: seq<Alternative>,
    supportedLanguages: seq<string>,
    error: Option<DetectionError>)

  /** The result returned from the `except` handler. */
  function FailedDetection(defaultLanguage: string, langs: seq<string>, e: DetectionError): DetectionResult {
    DetectionResult(defaultLanguage, 0.5, [Alternative(defaultLanguage, 0.5)], langs, Some(e))
  }

  /** `detect_language`, with the audio pipeline and the model abstracted:
      `inference` is what the model reports, or `None` when loading,
      preprocessing or transcribing raised. */
  method DetectLanguage(audio: seq<bv8>, requested: Option<seq<string>>, inference: Option<ModelInfo>,
                        defaultLanguage: string) returns (r: DetectionResult)
    ensures |audio| < MinAudioBytes ==> r == FailedDetection(defaultLanguage, SupportedCodes, AudioTooSmall)
    ensures |audio| >= MinAudioBytes && inference.None? ==>
      r == FailedDetection(defaultLanguage, DetectionLanguages(requested), InferenceFailed)
    ensures |audio| >= MinAudioBytes && inference.Some? ==>
      var langs := DetectionLanguages(requested);
      var g := ResolveDetected(inference.value, langs, defaultLanguage);
      if DividesByZero(langs, g) then r == FailedDetection(defaultLanguage, langs, ZeroDivision)
      else r == DetectionResult(g.language, g.probability, SortedByConfidence(Alternatives(langs, g)), langs, None)
    ensures r.error.None? ==>
      Descending(r.allLanguages) && |r.allLanguages| == |r.supportedLanguages| &&
      multiset(r.allLanguages) == multiset(Alternatives(r.supportedLanguages, Guess(r.detectedLanguage, r.languageConfidence)))
  {
    if |audio| < MinAudioBytes {
      return FailedDetection(defaultLanguage, SupportedCodes, AudioTooSmall);
    }
    var langs := DetectionLanguages(requested);
    if inference.None? {
      return FailedDetection(defaultLanguage, langs, InferenceFailed);
    }
    var g := ResolveDetected(inference.value, langs, defaultLanguage);
    var built := BuildAlternatives(langs, g);
    if built.Failure? {
      return FailedDetection(defaultLanguage, langs, built.error);
    }
    var alts := built.value;
    assert alts == Alternatives(langs, g);
    var a := new Alternative[|alts|](k requires 0 <= k < |alts| => alts[k]);
    assert a[..] == alts;
    SortByConfidence(a);
    SortedDescending(alts);
    SortedPermutation(alts);
    r := DetectionResult(g.language, g.probability, a[..], langs, None);
  }
}
