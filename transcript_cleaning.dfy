/** Clean-up of a raw transcript (`WhisperXProcessor._clean_transcription`):
    whitespace is collapsed to single spaces, the first character is put
    in upper case and the text is made to end in sentence punctuation. */
module TranscriptCleaning {
  import opened PyText

  /** `_clean_transcription(text)`: the three steps of the source in turn.
      A non-empty result ends a sentence, starts with the upper case of the
      collapsed text's first character and is at most one character longer
      than the collapsed text. */
  function CleanTranscription(text: string): (r: string)
    ensures r == "" || EndsSentence(r[|r| - 1])
    ensures Collapse(text) != "" ==> r != "" && r[0] == Upper(Collapse(text)[0])
    ensures |r| <= |Collapse(text)| + 1
  {
    if text == "" then ""
    else EnsureSentenceEnd(CapitaliseFirstChar(Collapse(text)))
  }

  /** `" ".join(text.split()).strip()`. The `strip` has nothing left to
      remove: the result is single-spaced and has the input's words. */
  function Collapse(text: string): (c: string)
    ensures c == Join(Split(text))
    ensures SingleSpaced(c)
    ensures Split(c) == Split(text)
  {
    JoinSingleSpaced(Split(text));
    StripSingleSpaced(Join(Split(text)));
    SplitJoin(Split(text));
    Strip(Join(Split(text)))
  }

  /** Replaces a first character that is not upper case by its upper case. */
  function CapitaliseFirstChar(s: string): (c: string)
    ensures |c| == |s|
    ensures s != "" ==> c[0] == Upper(s[0]) && c[1..] == s[1..]
    ensures s != "" ==> (EndsSentence(c[|c| - 1]) <==> EndsSentence(s[|s| - 1]))
  {
    if s != "" && !IsUpper(s[0]) then [Upper(s[0])] + s[1..] else s
  }

  /** Appends `'.'` to a non-empty text whose last character does not end a
      sentence. */
  function EnsureSentenceEnd(s: string): (e: string)
    ensures s != "" ==> e != "" && EndsSentence(e[|e| - 1])
    ensures s != "" ==> |e| == |s| + (if EndsSentence(s[|s| - 1]) then 0 else 1)
    ensures |s| <= |e| && e[..|s|] == s
    ensures s == "" ==> e == ""
  {
    if s != "" && !EndsSentence(s[|s| - 1]) then s + "." else s
  }

  // ---------------------------------------------------------------------
  // A reference definition on words

  /** The word with its first character in upper case. */
  function Capitalise(w: string): (c: string)
    ensures |c| == |w| && (w != [] ==> c[0] == Upper(w[0]) && c[1..] == w[1..])
  {
    if w == [] then [] else [Upper(w[0])] + w[1..]
  }

  /** The word with a `'.'` added unless it already ends a sentence. */
  function Punctuate(w: string): (p: string)
    ensures p == w || p == w + "."
    ensures p != [] && EndsSentence(p[|p| - 1])
    ensures p == w <==> (w != [] && EndsSentence(w[|w| - 1]))
  {
    if w != [] && EndsSentence(w[|w| - 1]) then w else w + "."
  }

  /** What cleaning does to the word sequence: the first word is
      capitalised and the last one punctuated. */
  function CleanedWords(ws: seq<string>): (vs: seq<string>)
    ensures |vs| == |ws|
  {
    if ws == [] then []
    else if |ws| == 1 then [Punctuate(Capitalise(ws[0]))]
    else [Capitalise(ws[0])] + ws[1..|ws| - 1] + [Punctuate(ws[|ws| - 1])]
  }

  lemma {:induction false} CleanedWordsAreWords(ws: seq<string>)
    requires AllWords(ws)
    ensures AllWords(CleanedWords(ws))
  {
    var vs := CleanedWords(ws);
    forall i | 0 <= i < |vs| ensures IsWord(vs[i]) {
      var w := ws[i];
      forall k | 0 <= k < |w| ensures !IsSpace(Upper(w[k])) {
        UpperFacts(w[k]);
      }
      if i == 0 {
        assert IsWord(Capitalise(w)) by {
          assert forall k :: 1 <= k < |w| ==> Capitalise(w)[k] == w[k];
        }
      }
      if i == |ws| - 1 {
        var c := if i == 0 then Capitalise(w) else w;
        assert IsWord(c) by {
          assert forall k :: 1 <= k < |w| ==> c[k] == w[k];
        }
        assert vs[i] == Punctuate(c);
      } else if 0 < i {
        assert vs[i] == ws[i];
      }
    }
  }

  lemma {:induction false} CapitaliseJoin(ws: seq<string>)
    requires AllWords(ws) && ws != []
    ensures CapitaliseFirstChar(Join(ws)) == Join([Capitalise(ws[0])] + ws[1..])
  {
    var w0 := ws[0];
    UpperFacts(w0[0]);
    JoinReplaceFirst(ws, Upper(w0[0]));
    assert [[Upper(w0[0])] + w0[1..]] + ws[1..] == [Capitalise(w0)] + ws[1..];
  }

  lemma {:induction false} SentenceEndJoin(ws: seq<string>)
    requires AllWords(ws) && ws != []
    ensures EnsureSentenceEnd(Join(ws)) == Join(ws[..|ws| - 1] + [Punctuate(ws[|ws| - 1])])
  {
    var n := |ws|;
    var last := ws[n - 1];
    var j := Join(ws);
    assert j != "" && j[|j| - 1] == last[|last| - 1] by {
      JoinLastChar(ws);
    }
    if EndsSentence(last[|last| - 1]) {
      calc {
        Join(ws[..n - 1] + [Punctuate(last)]);
        { assert ws[..n - 1] + [Punctuate(last)] == ws; }
        j;
      }
    } else {
      calc {
        Join(ws[..n - 1] + [Punctuate(last)]);
        { JoinAppendLast(ws, "."); }
        j + ".";
      }
    }
  }

  /** Cleaning is joining the cleaned words of the input. */
  lemma {:induction false} CleanByWords(text: string)
    ensures CleanTranscription(text) == Join(CleanedWords(Split(text)))
  {
    var ws := Split(text);
    if text != "" && ws != [] {
      var w0 := ws[0];
      var cs := [Capitalise(w0)] + ws[1..];
      CapitaliseJoin(ws);
      CleanedWordsAreWords(ws);
      assert AllWords(cs) by {
        assert forall i :: 1 <= i < |cs| ==> cs[i] == ws[i];
        forall k | 0 <= k < |w0| ensures !IsSpace(cs[0][k]) {
          UpperFacts(w0[k]);
        }
      }
      SentenceEndJoin(cs);
      var n := |cs|;
      if n > 1 {
        assert cs[..n - 1] == [Capitalise(w0)] + ws[1..n - 1];
        assert cs[n - 1] == ws[n - 1];
      }
      assert cs[..n - 1] + [Punctuate(cs[n - 1])] == CleanedWords(ws);
    }
  }

  lemma {:induction false} CleanedWordsIdempotent(ws: seq<string>)
    requires AllWords(ws)
    ensures CleanedWords(CleanedWords(ws)) == CleanedWords(ws)
  {
    if ws != [] {
      var w0 := ws[0];
      UpperFacts(w0[0]);
      assert Capitalise(Capitalise(w0)) == Capitalise(w0);
      if |ws| == 1 {
        var c := Capitalise(w0);
        var p := Punctuate(c);
        assert Capitalise(p) == p;
        assert Punctuate(p) == p;
      } else {
        var vs := CleanedWords(ws);
        var n := |ws|;
        assert vs[0] == Capitalise(w0);
        assert vs[1..n - 1] == ws[1..n - 1];
        assert vs[n - 1] == Punctuate(ws[n - 1]);
      }
    }
  }

  // ---------------------------------------------------------------------
  // Properties of `_clean_transcription`

  /** The result is empty exactly when the input is empty or only
      whitespace. */
  lemma {:induction false} CleanEmptyIff(text: string)
    ensures (CleanTranscription(text) == "") <==> AllSpace(text)
  {
    var ws := Split(text);
    CleanByWords(text);
    SplitEmptyIff(text);
    CleanedWordsAreWords(ws);
    JoinNonEmpty(CleanedWords(ws));
  }

  /** The result has no leading or trailing whitespace and single spaces
      between its words. */
  lemma {:induction false} CleanSingleSpaced(text: string)
    ensures SingleSpaced(CleanTranscription(text))
  {
    CleanByWords(text);
    CleanedWordsAreWords(Split(text));
    JoinSingleSpaced(CleanedWords(Split(text)));
  }

  /** The words of the result are the words of the input, the first one
      capitalised and the last one punctuated. */
  lemma {:induction false} CleanWords(text: string)
    ensures Split(CleanTranscription(text)) == CleanedWords(Split(text))
  {
    CleanByWords(text);
    CleanedWordsAreWords(Split(text));
    SplitJoin(CleanedWords(Split(text)));
  }

  lemma {:induction false} JoinedLastChar(text: string)
    requires !AllSpace(text)
    ensures var j := Join(Split(text)); j != "" && j[|j| - 1] == LastNonSpace(text)
  {
    SplitLast(text);
    JoinLastChar(Split(text));
  }

  /** A non-empty result ends a sentence, and a `'.'` was added exactly
      when the last non-whitespace character of the input was not
      `'.'`, `'!'` or `'?'`. */
  lemma {:induction false} CleanSentenceEnd(text: string)
    requires !AllSpace(text)
    ensures var r := CleanTranscription(text);
      r != "" && EndsSentence(r[|r| - 1]) &&
      |r| == |Join(Split(text))| + (if EndsSentence(LastNonSpace(text)) then 0 else 1)
  {
    var j := Join(Split(text));
    CleanIsCapitalisedJoin(text);
    JoinedLastChar(text);
    CapitalisedSentenceEnd(j);
  }

  lemma CleanIsCapitalisedJoin(text: string)
    requires !AllSpace(text)
    ensures CleanTranscription(text) == EnsureSentenceEnd(CapitaliseFirstChar(Join(Split(text))))
  {
    assert text != "";
  }

  lemma CapitalisedSentenceEnd(s: string)
    requires s != ""
    ensures var r := EnsureSentenceEnd(CapitaliseFirstChar(s));
      r != "" && EndsSentence(r[|r| - 1]) &&
      |r| == |s| + (if EndsSentence(s[|s| - 1]) then 0 else 1)
  {
  }

  /** The first character of a non-empty result is the upper case of the
      first non-whitespace character of the input. */
  lemma {:induction false} CleanFirstChar(text: string)
    requires !AllSpace(text)
    ensures var r := CleanTranscription(text); r != "" && r[0] == Upper(FirstNonSpace(text))
  {
    var ws := Split(text);
    SplitFirst(text);
    CleanByWords(text);
    CleanedWordsAreWords(ws);
    var vs := CleanedWords(ws);
    assert vs[0][0] == Upper(ws[0][0]);
  }

  /** Cleaning an already cleaned transcript changes nothing. */
  lemma {:induction false} CleanIdempotent(text: string)
    ensures CleanTranscription(CleanTranscription(text)) == CleanTranscription(text)
  {
    var ws := Split(text);
    CleanByWords(text);
    CleanWords(text);
    CleanByWords(CleanTranscription(text));
    CleanedWordsIdempotent(ws);
  }
}
