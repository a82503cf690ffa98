/** Text preparation for Swedish speech (`TTSProcessor._prepare_text_for_swedish`):
    the text is made to end a sentence and five abbreviations are spelled
    out, each by two left-to-right `str.replace` passes. */
module SwedishText {
  import opened PyText

  /** The `replacements` table, in its iteration order. */
  const Abbreviations: seq<(string, string)> := [
    ("kr", "kronor"),
    ("st", "stycken"),
    ("osv", "och s\U{E5} vidare"),
    ("t.ex", "till exempel"),
    ("ca", "cirka")
  ]

  /** `text.endswith(('.', '!', '?'))`. */
  predicate EndsWithSentenceEnd(text: string) {
    text != [] && EndsSentence(text[|text| - 1])
  }

  /** The text with `'.'` appended unless it already ends a sentence: the
      result ends a sentence and extends the text by at most one
      character, and it is the text itself exactly when that already ended
      a sentence. */
  function Punctuated(text: string): (p: string)
    ensures EndsWithSentenceEnd(p)
    ensures |text| <= |p| <= |text| + 1 && p[..|text|] == text
    ensures p == text <==> EndsWithSentenceEnd(text)
  {
    if EndsWithSentenceEnd(text) then text else text + "."
  }

  /** The pattern of the first pass: the abbreviation between spaces. */
  function SpacedPattern(abbr: string): string { " " + abbr + " " }

  /** The pattern of the second pass: the abbreviation after a space and
      before a full stop. */
  function StopPattern(abbr: string): string { " " + abbr + "." }

  /** The two `replace` passes for one table entry. */
  function ExpandAbbreviation(text: string, abbr: string, full: string): string {
    var once := Replace(text, SpacedPattern(abbr), SpacedPattern(full));
    Replace(once, StopPattern(abbr), StopPattern(full))
  }

  /** The passes for the entries of `table`, first entry first. */
  function ExpandAll(text: string, table: seq<(string, string)>): string
    decreases |table|
  {
    if table == [] then text
    else
      var last := table[|table| - 1];
      ExpandAbbreviation(ExpandAll(text, table[..|table| - 1]), last.0, last.1)
  }

  /** What `_prepare_text_for_swedish(text)` returns. It always ends a
      sentence: with the input's own last character when the input already
      did, with an appended `'.'` otherwise. It is never shorter than the
      punctuated text. */
  function PreparedForSwedish(text: string): (r: string)
    ensures r != [] && EndsSentence(r[|r| - 1])
    ensures EndsWithSentenceEnd(text) ==> r[|r| - 1] == text[|text| - 1]
    ensures !EndsWithSentenceEnd(text) ==> r[|r| - 1] == '.'
    ensures |r| >= |Punctuated(text)| >= |text|
  {
    ExpandAllLastChar(Punctuated(text), Abbreviations);
    AbbreviationsLengthen();
    ExpandAllLength(Punctuated(text), Abbreviations);
    ExpandAll(Punctuated(text), Abbreviations)
  }

  /** `_prepare_text_for_swedish`: the loop over the table reassigns the
      text after each pass. */
  method PrepareTextForSwedish(text: string) returns (prepared: string)
    ensures prepared == PreparedForSwedish(text)
  {
    prepared := text;
    if !EndsWithSentenceEnd(prepared) {
      prepared := prepared + ".";
    }
    for i := 0 to |Abbreviations|
      invariant prepared == ExpandAll(Punctuated(text), Abbreviations[..i])
    {
      var (abbr, full) := Abbreviations[i];
      prepared := Replace(prepared, SpacedPattern(abbr), SpacedPattern(full));
      prepared := Replace(prepared, StopPattern(abbr), StopPattern(full));
      assert Abbreviations[..i + 1][..i] == Abbreviations[..i];
    }
    assert Abbreviations[..|Abbreviations|] == Abbreviations;
  }

  // ---------------------------------------------------------------------
  // Properties

  /** Neither pattern of any entry of `table` occurs in `s`. */
  predicate NoAbbreviation(s: string, table: seq<(string, string)>) {
    forall k :: 0 <= k < |table| ==>
      !Occurs(SpacedPattern(table[k].0), s) && !Occurs(StopPattern(table[k].0), s)
  }

  /** Every expansion is longer than its abbreviation. */
  predicate Lengthening(table: seq<(string, string)>) {
    forall k :: 0 <= k < |table| ==> |table[k].1| >= |table[k].0|
  }

  lemma AbbreviationsLengthen()
    ensures Lengthening(Abbreviations)
  {
  }

  /** One entry's two passes keep the last character, do not shorten the
      text when the expansion is no shorter than the abbreviation, and
      change nothing when neither pattern occurs. */
  lemma ExpandAbbreviationFacts(text: string, abbr: string, full: string)
    ensures text != [] ==>
      var r := ExpandAbbreviation(text, abbr, full); r != [] && r[|r| - 1] == text[|text| - 1]
    ensures |full| >= |abbr| ==> |ExpandAbbreviation(text, abbr, full)| >= |text|
    ensures !Occurs(SpacedPattern(abbr), text) && !Occurs(StopPattern(abbr), text) ==>
      ExpandAbbreviation(text, abbr, full) == text
  {
    var once := Replace(text, SpacedPattern(abbr), SpacedPattern(full));
    if text != [] {
      ReplaceLastChar(text, SpacedPattern(abbr), SpacedPattern(full));
      ReplaceLastChar(once, StopPattern(abbr), StopPattern(full));
    }
    if |full| >= |abbr| {
      ReplaceLength(text, SpacedPattern(abbr), SpacedPattern(full));
      ReplaceLength(once, StopPattern(abbr), StopPattern(full));
    }
    if !Occurs(SpacedPattern(abbr), text) && !Occurs(StopPattern(abbr), text) {
      ReplaceAbsent(text, SpacedPattern(abbr), SpacedPattern(full));
      ReplaceAbsent(text, StopPattern(abbr), StopPattern(full));
    }
  }

  lemma {:induction false} ExpandAllLastChar(text: string, table: seq<(string, string)>)
    requires text != []
    ensures var r := ExpandAll(text, table); r != [] && r[|r| - 1] == text[|text| - 1]
    decreases |table|
  {
    if table != [] {
      var last := table[|table| - 1];
      var s := ExpandAll(text, table[..|table| - 1]);
      ExpandAllLastChar(text, table[..|table| - 1]);
      ExpandAbbreviationFacts(s, last.0, last.1);
    }
  }

  lemma {:induction false} ExpandAllLength(text: string, table: seq<(string, string)>)
    requires Lengthening(table)
    ensures |ExpandAll(text, table)| >= |text|
    decreases |table|
  {
    if table != [] {
      var last := table[|table| - 1];
      var s := ExpandAll(text, table[..|table| - 1]);
      ExpandAllLength(text, table[..|table| - 1]);
      ExpandAbbreviationFacts(s, last.0, last.1);
    }
  }

  lemma {:induction false} ExpandAllAbsent(text: string, table: seq<(string, string)>)
    requires NoAbbreviation(text, table)
    ensures ExpandAll(text, table) == text
    decreases |table|
  {
    if table != [] {
      var last := table[|table| - 1];
      ExpandAllAbsent(text, table[..|table| - 1]);
      ExpandAbbreviationFacts(text, last.0, last.1);
    }
  }

  /** Nothing but the sentence end changes when the punctuated text holds
      no abbreviation pattern. */
  lemma PreparedUnchanged(text: string)
    requires NoAbbreviation(Punctuated(text), Abbreviations)
    ensures PreparedForSwedish(text) == Punctuated(text)
  {
    ExpandAllAbsent(Punctuated(text), Abbreviations);
  }

  lemma {:induction false} ExpandAllFirst(text: string, table: seq<(string, string)>)
    requires table != []
    ensures ExpandAll(text, table) == ExpandAll(ExpandAbbreviation(text, table[0].0, table[0].1), table[1..])
    decreases |table|
  {
    if |table| > 1 {
      var init := table[..|table| - 1];
      ExpandAllFirst(text, init);
      assert init[1..] == table[1..][..|table[1..]| - 1];
      assert init[0] == table[0];
    }
  }

  lemma NoAbbreviationInShortText()
    ensures NoAbbreviation("5 kr", Abbreviations)
  {
    forall k | 0 <= k < |Abbreviations|
      ensures !Occurs(SpacedPattern(Abbreviations[k].0), "5 kr")
      ensures !Occurs(StopPattern(Abbreviations[k].0), "5 kr")
    {
      var abbr := Abbreviations[k].0;
      assert SpacedPattern(abbr)[0] == StopPattern(abbr)[0] == ' ' != "5 kr"[0];
      AbsentByLength(SpacedPattern(abbr), "5 kr");
      AbsentByLength(StopPattern(abbr), "5 kr");
    }
  }

  lemma NoFurtherAbbreviation()
    ensures NoAbbreviation("5 kronor.", Abbreviations[1..])
  {
    var s1 := "5 kronor.";
    forall i | 0 <= i < |s1| - 1 ensures s1[i] != ' ' || s1[i + 1] == 'k' {
    }
    var rest := Abbreviations[1..];
    forall k | 0 <= k < |rest|
      ensures !Occurs(SpacedPattern(rest[k].0), s1)
      ensures !Occurs(StopPattern(rest[k].0), s1)
    {
      var abbr := rest[k].0;
      assert abbr[0] != 'k';
      AbsentByPair(SpacedPattern(abbr), s1);
      AbsentByPair(StopPattern(abbr), s1);
    }
  }

  lemma KronorExpanded()
    ensures ExpandAbbreviation("5 kr.", "kr", "kronor") == "5 kronor."
  {
    assert SpacedPattern("kr") == " kr " && SpacedPattern("kronor") == " kronor ";
    assert StopPattern("kr") == " kr." && StopPattern("kronor") == " kronor.";
    calc {
      ExpandAbbreviation("5 kr.", "kr", "kronor");
      Replace(Replace("5 kr.", " kr ", " kronor "), " kr.", " kronor.");
      { KronorFirstPass(); }
      Replace("5 kr.", " kr.", " kronor.");
      { KronorSecondPass(); }
      "5 kronor.";
    }
  }

  lemma KronorFirstPass()
    ensures Replace("5 kr.", " kr ", " kronor ") == "5 kr."
  {
    assert "5 kr."[..4] != " kr " by { assert "5 kr."[0] != ' '; }
    assert " kr."[..4] != " kr " by { assert " kr."[3] == '.'; }
    calc {
      Replace("5 kr.", " kr ", " kronor ");
      "5" + Replace(" kr.", " kr ", " kronor ");
      { assert " kr."[1..] == "kr."; }
      "5 " + Replace("kr.", " kr ", " kronor ");
    }
  }

  lemma KronorSecondPass()
    ensures Replace("5 kr.", " kr.", " kronor.") == "5 kronor."
  {
    assert "5 kr."[..4] != " kr." by { assert "5 kr."[0] != ' '; }
    assert " kr."[..4] == " kr.";
    assert " kr."[4..] == "";
  }

  /** The condition is on the punctuated text, not on the input: the `'.'`
      appended to "5 kr" makes the pattern " kr." appear. */
  lemma PeriodCompletesAbbreviation()
    ensures NoAbbreviation("5 kr", Abbreviations)
    ensures PreparedForSwedish("5 kr") == "5 kronor."
  {
    NoAbbreviationInShortText();
    assert Punctuated("5 kr") == "5 kr." by {
      assert !EndsSentence("5 kr"[3]);
    }
    calc {
      PreparedForSwedish("5 kr");
      ExpandAll("5 kr.", Abbreviations);
      { ExpandAllFirst("5 kr.", Abbreviations); }
      ExpandAll(ExpandAbbreviation("5 kr.", "kr", "kronor"), Abbreviations[1..]);
      { KronorExpanded(); }
      ExpandAll("5 kronor.", Abbreviations[1..]);
      { NoFurtherAbbreviation(); ExpandAllAbsent("5 kronor.", Abbreviations[1..]); }
      "5 kronor.";
    }
  }

  /** Each pass is a non-overlapping replace: the space that ends one
      " kr " is not reused to start the next, so only the first of two
      adjacent abbreviations is expanded. */
  lemma AdjacentAbbreviationsNotOverlapping()
    ensures Replace(" kr kr ", SpacedPattern("kr"), SpacedPattern("kronor")) == " kronor kr "
  {
    assert " kr kr "[..4] == " kr ";
    assert " kr kr "[4..] == "kr ";
  }
}
