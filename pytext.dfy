/** Python `str` operations used by both processors, given explicit
    definitions: character classes (`isspace`, `isupper`, `upper`),
    `split()` without arguments, `" ".join`, `strip()`, substring search
    and `replace`. */
module PyText {

  /** `c.isspace()`: the characters Python treats as whitespace in
      `split()` and `strip()` (the ASCII controls 9-13 and 28-31, the space,
      and the Unicode space separators and line/paragraph separators). */
  predicate IsSpace(c: char) {
    var n := c as int;
    n == 0x20 || 0x09 <= n <= 0x0D || 0x1C <= n <= 0x1F || n == 0x85 || n == 0xA0
    || n == 0x1680 || 0x2000 <= n <= 0x200A || n == 0x2028 || n == 0x2029
    || n == 0x202F || n == 0x205F || n == 0x3000
  }

  /** `c.isupper()` for one character: an upper-case ASCII or Latin-1 letter. */
  predicate IsUpper(c: char) {
    ('A' <= c <= 'Z') || ('\U{C0}' <= c <= '\U{DE}' && c != '\U{D7}')
  }

  /** A lower-case ASCII or Latin-1 letter with a one-character upper case. */
  predicate IsLower(c: char) {
    ('a' <= c <= 'z') || ('\U{E0}' <= c <= '\U{FE}' && c != '\U{F7}')
  }

  /** `c.upper()` for one character. */
  function Upper(c: char): (u: char)
    ensures IsLower(c) ==> IsUpper(u) && u as int == c as int - 32
    ensures !IsLower(c) ==> u == c
  {
    if IsLower(c) then (c as int - 32) as char else c
  }

  lemma UpperFacts(c: char)
    ensures IsUpper(c) ==> Upper(c) == c
    ensures Upper(Upper(c)) == Upper(c)
    ensures IsSpace(Upper(c)) == IsSpace(c)
    ensures EndsSentence(Upper(c)) == EndsSentence(c)
  {
  }

  /** The characters both processors accept as the end of a sentence:
      `'.'`, `'!'` and `'?'`. */
  predicate EndsSentence(c: char) {
    c == '.' || c == '!' || c == '?'
  }

  predicate AllSpace(s: string) {
    forall i :: 0 <= i < |s| ==> IsSpace(s[i])
  }

  /** A piece of `split()`'s result: non-empty and free of whitespace. */
  predicate IsWord(w: string) {
    w != [] && forall i :: 0 <= i < |w| ==> !IsSpace(w[i])
  }

  predicate AllWords(ws: seq<string>) {
    forall i :: 0 <= i < |ws| ==> IsWord(ws[i])
  }

  /** The longest prefix of `s` that holds no whitespace. */
  function TakeWord(s: string): (w: string)
    ensures |w| <= |s| && w == s[..|w|]
    ensures forall i :: 0 <= i < |w| ==> !IsSpace(w[i])
    ensures |w| == |s| || IsSpace(s[|w|])
  {
    if s == [] || IsSpace(s[0]) then "" else [s[0]] + TakeWord(s[1..])
  }

  /** `s.split()`: the maximal whitespace-free runs of `s`, in order. */
  function Split(s: string): (ws: seq<string>)
    ensures AllWords(ws)
    decreases |s|
  {
    if s == [] then []
    else if IsSpace(s[0]) then Split(s[1..])
    else
      var w := TakeWord(s);
      [w] + Split(s[|w|..])
  }

  /** `" ".join(ws)`. */
  function Join(ws: seq<string>): string {
    if ws == [] then ""
    else if |ws| == 1 then ws[0]
    else ws[0] + " " + Join(ws[1..])
  }

  /** No leading or trailing whitespace, and every whitespace character is a
      single space between two non-whitespace characters. */
  predicate SingleSpaced(r: string) {
    forall i :: 0 <= i < |r| && IsSpace(r[i]) ==>
      r[i] == ' ' && 0 < i < |r| - 1 && !IsSpace(r[i - 1]) && !IsSpace(r[i + 1])
  }

  function TrimStart(s: string): (r: string)
    ensures r == [] || !IsSpace(r[0])
    ensures |r| <= |s| && r == s[|s| - |r|..]
    ensures forall i :: 0 <= i < |s| - |r| ==> IsSpace(s[i])
  {
    if s != [] && IsSpace(s[0]) then TrimStart(s[1..]) else s
  }

  function TrimEnd(s: string): (r: string)
    ensures r == [] || !IsSpace(r[|r| - 1])
    ensures |r| <= |s| && r == s[..|r|]
    ensures forall i :: |r| <= i < |s| ==> IsSpace(s[i])
  {
    if s != [] && IsSpace(s[|s| - 1]) then TrimEnd(s[..|s| - 1]) else s
  }

  /** `s.strip()`. */
  function Strip(s: string): string {
    TrimEnd(TrimStart(s))
  }

  /** The first non-whitespace character of `s`. */
  function FirstNonSpace(s: string): char
    requires !AllSpace(s)
  {
    if IsSpace(s[0]) then FirstNonSpace(s[1..]) else s[0]
  }

  /** The last non-whitespace character of `s`. */
  function LastNonSpace(s: string): char
    requires !AllSpace(s)
  {
    if IsSpace(s[|s| - 1]) then LastNonSpace(s[..|s| - 1]) else s[|s| - 1]
  }

  /** `p in s` for strings: `p` occurs in `s` as a contiguous piece. */
  predicate Occurs(p: string, s: string)
    decreases |s|
  {
    |p| <= |s| && (s[..|p|] == p || (s != [] && Occurs(p, s[1..])))
  }

  /** `s.replace(pat, rep)`: scans left to right and replaces each
      non-overlapping occurrence of `pat`. */
  function Replace(s: string, pat: string, rep: string): string
    requires pat != []
    decreases |s|
  {
    if |s| < |pat| then s
    else if s[..|pat|] == pat then rep + Replace(s[|pat|..], pat, rep)
    else [s[0]] + Replace(s[1..], pat, rep)
  }

  // ---------------------------------------------------------------------
  // split / join

  lemma {:induction false} TakeWordOfJoin(w: string, rest: string)
    requires IsWord(w)
    requires rest == [] || IsSpace(rest[0])
    ensures TakeWord(w + rest) == w
  {
    if |w| > 1 {
      assert (w + rest)[1..] == w[1..] + rest;
      TakeWordOfJoin(w[1..], rest);
    } else {
      assert (w + rest)[1..] == rest;
    }
  }

  lemma {:induction false} JoinNonEmpty(ws: seq<string>)
    requires AllWords(ws)
    ensures (Join(ws) == []) == (ws == [])
  {
  }

  /** Splitting what `join` built gives back the words. */
  lemma {:induction false} SplitJoin(ws: seq<string>)
    requires AllWords(ws)
    ensures Split(Join(ws)) == ws
  {
    if ws != [] {
      var w := ws[0];
      var rest := if |ws| == 1 then "" else " " + Join(ws[1..]);
      assert Join(ws) == w + rest;
      TakeWordOfJoin(w, rest);
      assert (w + rest)[|w|..] == rest;
      if |ws| > 1 {
        assert rest[1..] == Join(ws[1..]);
        SplitJoin(ws[1..]);
        assert Split(rest) == ws[1..];
      }
    }
  }

  /** The joined words are single-spaced. */
  lemma {:induction false} JoinSingleSpaced(ws: seq<string>)
    requires AllWords(ws)
    ensures SingleSpaced(Join(ws))
  {
    if |ws| > 1 {
      var w, j := ws[0], Join(ws[1..]);
      JoinSingleSpaced(ws[1..]);
      JoinNonEmpty(ws[1..]);
      var r := Join(ws);
      assert r == w + " " + j;
      forall i | 0 <= i < |r| && IsSpace(r[i])
        ensures r[i] == ' ' && 0 < i < |r| - 1 && !IsSpace(r[i - 1]) && !IsSpace(r[i + 1])
      {
        if i == |w| {
          assert r[i - 1] == w[|w| - 1];
          assert r[i + 1] == j[0];
        } else if i > |w| {
          assert r[i] == j[i - |w| - 1];
          assert r[i + 1] == j[i - |w|];
          if i - 1 == |w| {
          } else {
            assert r[i - 1] == j[i - |w| - 2];
          }
        }
      }
    }
  }

  lemma {:induction false} SplitEmptyIff(s: string)
    ensures (Split(s) == []) == AllSpace(s)
    decreases |s|
  {
    if s != [] {
      if IsSpace(s[0]) {
        SplitEmptyIff(s[1..]);
        if AllSpace(s[1..]) {
          assert forall i :: 1 <= i < |s| ==> s[i] == s[1..][i - 1];
        } else {
          var i :| 0 <= i < |s[1..]| && !IsSpace(s[1..][i]);
          assert !IsSpace(s[i + 1]);
        }
      } else {
        assert !IsSpace(s[0]);
      }
    }
  }

  lemma NotAllSpaceTail(s: string)
    requires !AllSpace(s) && IsSpace(s[0])
    ensures !AllSpace(s[1..])
  {
    var j :| 0 <= j < |s| && !IsSpace(s[j]);
    assert s[1..][j - 1] == s[j];
  }

  /** The first word of `split()` starts with the first non-whitespace
      character. */
  lemma {:induction false} SplitFirst(s: string)
    requires !AllSpace(s)
    ensures Split(s) != [] && Split(s)[0][0] == FirstNonSpace(s)
    decreases |s|
  {
    SplitEmptyIff(s);
    if IsSpace(s[0]) {
      NotAllSpaceTail(s);
      SplitFirst(s[1..]);
    }
  }

  lemma {:induction false} LastNonSpaceAppend(a: string, b: string)
    requires !AllSpace(b)
    ensures !AllSpace(a + b) && LastNonSpace(a + b) == LastNonSpace(b)
    decreases |b|
  {
    var j :| 0 <= j < |b| && !IsSpace(b[j]);
    assert (a + b)[|a| + j] == b[j];
    if IsSpace(b[|b| - 1]) {
      assert (a + b)[..|a + b| - 1] == a + b[..|b| - 1];
      assert b[..|b| - 1][j] == b[j];
      LastNonSpaceAppend(a, b[..|b| - 1]);
    }
  }

  lemma {:induction false} LastNonSpaceAppendSpace(a: string, b: string)
    requires !AllSpace(a) && AllSpace(b)
    ensures !AllSpace(a + b) && LastNonSpace(a + b) == LastNonSpace(a)
    decreases |b|
  {
    var j :| 0 <= j < |a| && !IsSpace(a[j]);
    assert (a + b)[j] == a[j];
    if b != [] {
      assert (a + b)[|a + b| - 1] == b[|b| - 1];
      assert (a + b)[..|a + b| - 1] == a + b[..|b| - 1];
      LastNonSpaceAppendSpace(a, b[..|b| - 1]);
    } else {
      assert a + b == a;
    }
  }

  /** The last word of `split()` ends with the last non-whitespace
      character. */
  lemma {:induction false} SplitLast(s: string)
    requires !AllSpace(s)
    ensures var ws := Split(s);
      ws != [] && ws[|ws| - 1][|ws[|ws| - 1]| - 1] == LastNonSpace(s)
    decreases |s|
  {
    SplitEmptyIff(s);
    if IsSpace(s[0]) {
      NotAllSpaceTail(s);
      assert s == [s[0]] + s[1..];
      LastNonSpaceAppend([s[0]], s[1..]);
      SplitLast(s[1..]);
    } else {
      var w := TakeWord(s);
      var r := s[|w|..];
      assert s == w + r;
      if AllSpace(r) {
        SplitEmptyIff(r);
        assert IsWord(w) by { assert w[0] == s[0]; }
        LastNonSpaceAppendSpace(w, r);
      } else {
        LastNonSpaceAppend(w, r);
        SplitLast(r);
      }
    }
  }

  lemma {:induction false} JoinLastChar(ws: seq<string>)
    requires AllWords(ws) && ws != []
    ensures Join(ws) != [] && Join(ws)[|Join(ws)| - 1] == ws[|ws| - 1][|ws[|ws| - 1]| - 1]
  {
    if |ws| > 1 {
      JoinLastChar(ws[1..]);
    }
  }

  /** Appending to the last word appends to the joined string. */
  lemma {:induction false} JoinAppendLast(ws: seq<string>, x: string)
    requires ws != []
    ensures Join(ws[..|ws| - 1] + [ws[|ws| - 1] + x]) == Join(ws) + x
  {
    var vs := ws[..|ws| - 1] + [ws[|ws| - 1] + x];
    if |ws| > 1 {
      var us := ws[1..];
      assert vs[0] == ws[0];
      assert vs[1..] == us[..|us| - 1] + [us[|us| - 1] + x];
      calc {
        Join(vs);
        vs[0] + " " + Join(vs[1..]);
        { JoinAppendLast(us, x); }
        ws[0] + " " + (Join(us) + x);
        Join(ws) + x;
      }
    } else {
      assert vs == [ws[0] + x];
    }
  }

  /** Replacing the first character of the first word replaces the first
      character of the joined string. */
  lemma JoinReplaceFirst(ws: seq<string>, c: char)
    requires ws != [] && ws[0] != []
    ensures Join(ws) != []
    ensures Join([[c] + ws[0][1..]] + ws[1..]) == [c] + Join(ws)[1..]
  {
    var vs := [[c] + ws[0][1..]] + ws[1..];
    assert vs[1..] == ws[1..];
  }

  // ---------------------------------------------------------------------
  // strip

  lemma StripEmptyIff(s: string)
    ensures (Strip(s) == []) == AllSpace(s)
  {
    var t := TrimStart(s);
    if t == [] {
      assert s[..|s| - |t|] == s;
    } else {
      assert s[|s| - |t|] == t[0];
    }
  }

  lemma StripSingleSpaced(s: string)
    requires SingleSpaced(s)
    ensures Strip(s) == s
  {
    if s != [] {
      assert !IsSpace(s[0]);
      assert TrimStart(s) == s;
      assert !IsSpace(s[|s| - 1]);
      assert TrimEnd(s) == s;
    } else {
      assert TrimStart(s) == s;
    }
  }

  // ---------------------------------------------------------------------
  // replace

  /** A replace whose pattern does not occur changes nothing. */
  lemma {:induction false} ReplaceAbsent(s: string, pat: string, rep: string)
    requires pat != [] && !Occurs(pat, s)
    ensures Replace(s, pat, rep) == s
    decreases |s|
  {
    if |s| >= |pat| {
      ReplaceAbsent(s[1..], pat, rep);
      assert [s[0]] + s[1..] == s;
    }
  }

  /** A pattern whose first two characters never stand side by side in
      `s` does not occur in `s`. */
  lemma {:induction false} AbsentByPair(p: string, s: string)
    requires |p| >= 2
    requires forall i :: 0 <= i < |s| - 1 ==> s[i] != p[0] || s[i + 1] != p[1]
    ensures !Occurs(p, s)
    decreases |s|
  {
    if |p| <= |s| {
      assert s[..|p|] != p by {
        assert s[..|p|][0] == s[0] && s[..|p|][1] == s[1];
      }
      var t := s[1..];
      forall i | 0 <= i < |t| - 1 ensures t[i] != p[0] || t[i + 1] != p[1] {
        assert t[i] == s[i + 1] && t[i + 1] == s[i + 2];
      }
      AbsentByPair(p, t);
    }
  }

  /** A pattern at least as long as `s` occurs in it only as `s` itself. */
  lemma AbsentByLength(p: string, s: string)
    requires |p| >= |s| && p != s
    ensures !Occurs(p, s)
  {
    if |p| == |s| && s != [] {
      assert s[..|p|] == s;
      assert !Occurs(p, s[1..]);
    }
  }

  /** A replacement at least as long as its pattern never shortens. */
  lemma {:induction false} ReplaceLength(s: string, pat: string, rep: string)
    requires pat != [] && |rep| >= |pat|
    ensures |Replace(s, pat, rep)| >= |s|
    decreases |s|
  {
    if |s| >= |pat| {
      if s[..|pat|] == pat {
        ReplaceLength(s[|pat|..], pat, rep);
      } else {
        ReplaceLength(s[1..], pat, rep);
      }
    }
  }

  /** When pattern and replacement end with the same character, the last
      character of the string survives the replace. */
  lemma {:induction false} ReplaceLastChar(s: string, pat: string, rep: string)
    requires pat != [] && rep != [] && pat[|pat| - 1] == rep[|rep| - 1]
    requires s != []
    ensures var r := Replace(s, pat, rep); r != [] && r[|r| - 1] == s[|s| - 1]
    decreases |s|
  {
    if |s| < |pat| {
    } else if s[..|pat|] == pat {
      var t := s[|pat|..];
      if t == [] {
        assert s == pat;
        assert Replace(s, pat, rep) == rep + Replace(t, pat, rep);
      } else {
        ReplaceLastChar(t, pat, rep);
        assert s[|s| - 1] == t[|t| - 1];
      }
    } else if |s| > 1 {
      ReplaceLastChar(s[1..], pat, rep);
    }
  }
}
