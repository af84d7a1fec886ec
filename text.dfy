/** String normalisation shared by the movie and showtime validators
    (`cleanString`: trim, then replace every whitespace run by one space),
    the blankness test behind `isBlank`, and the decimal rendering of
    numbers that error messages use. */
module Text {

  import opened Wrappers

  /** The one whitespace class used for `isBlank`, `trim` and the regular
      expression `\s+`: space, tab, line feed, vertical tab, form feed and
      carriage return. */
  predicate IsWhitespace(c: char) {
    c == ' ' || c == '\t' || c == '\n' || c == '\U{000B}' || c == '\U{000C}' || c == '\r'
  }

  predicate IsBlank(s: string) {
    forall i :: 0 <= i < |s| ==> IsWhitespace(s[i])
  }

  predicate HasNoWhitespace(s: string) {
    forall i :: 0 <= i < |s| ==> !IsWhitespace(s[i])
  }

  /** Neither the first nor the last character is whitespace. */
  predicate NoEdgeWhitespace(s: string) {
    s == [] || (!IsWhitespace(s[0]) && !IsWhitespace(s[|s| - 1]))
  }

  /** Every whitespace character is a plain space, and no two whitespace
      characters are adjacent. */
  ghost predicate SingleSpaced(s: string) {
    && (forall i :: 0 <= i < |s| && IsWhitespace(s[i]) ==> s[i] == ' ')
    && (forall i, j :: 0 <= i < j < |s| && j == i + 1 ==> !(IsWhitespace(s[i]) && IsWhitespace(s[j])))
  }

  /** Drops the leading whitespace. */
  function TrimStart(s: string): (r: string)
    ensures |r| <= |s| && r == s[|s| - |r|..]
    ensures forall i :: 0 <= i < |s| - |r| ==> IsWhitespace(s[i])
    ensures r == [] || !IsWhitespace(r[0])
  {
    if |s| > 0 && IsWhitespace(s[0]) then TrimStart(s[1..]) else s
  }

  /** Drops the trailing whitespace. */
  function TrimEnd(s: string): (r: string)
    ensures |r| <= |s| && r == s[..|r|]
    ensures forall i :: |r| <= i < |s| ==> IsWhitespace(s[i])
    ensures r == [] || !IsWhitespace(r[|r| - 1])
  {
    if |s| > 0 && IsWhitespace(s[|s| - 1]) then TrimEnd(s[..|s| - 1]) else s
  }

  /** `r` is what is left of `s` once a blank prefix and a blank suffix are cut off. */
  ghost predicate IsCoreOf(r: string, s: string) {
    exists i :: 0 <= i <= |s| - |r| && r == s[i..i + |r|] && IsBlank(s[..i]) && IsBlank(s[i + |r|..])
  }

  /** `String.trim`: both ends stripped; a blank string becomes empty. The
      result is the slice of the input between a blank prefix and a blank
      suffix, and has no whitespace at either end. */
  function Trim(s: string): (r: string)
    ensures |r| <= |s|
    ensures IsCoreOf(r, s)
    ensures NoEdgeWhitespace(r)
    ensures r == [] <==> IsBlank(s)
  {
    var t := TrimStart(s);
    var r := TrimEnd(t);
    TrimmedCore(s, t, r);
    r
  }

  /** What `Trim` needs of a blank-prefix cut followed by a blank-suffix cut. */
  lemma TrimmedCore(s: string, t: string, r: string)
    requires |t| <= |s| && t == s[|s| - |t|..] && forall j :: 0 <= j < |s| - |t| ==> IsWhitespace(s[j])
    requires |r| <= |t| && r == t[..|r|] && forall j :: |r| <= j < |t| ==> IsWhitespace(t[j])
    requires t == [] || !IsWhitespace(t[0])
    requires r == [] || !IsWhitespace(r[|r| - 1])
    ensures IsCoreOf(r, s)
    ensures NoEdgeWhitespace(r)
    ensures r == [] <==> IsBlank(s)
  {
    SliceBetweenBlanks(s, t, r);
    if r != [] {
      assert r[0] == t[0] == s[|s| - |t|];
    }
  }

  /** A suffix after a blank prefix, cut before a blank tail, is a slice of
      the whole between a blank prefix and a blank suffix. */
  lemma SliceBetweenBlanks(s: string, t: string, r: string)
    requires |t| <= |s| && t == s[|s| - |t|..] && forall j :: 0 <= j < |s| - |t| ==> IsWhitespace(s[j])
    requires |r| <= |t| && r == t[..|r|] && forall j :: |r| <= j < |t| ==> IsWhitespace(t[j])
    ensures var i := |s| - |t|; r == s[i..i + |r|] && IsBlank(s[..i]) && IsBlank(s[i + |r|..])
  {
    var i := |s| - |t|;
    assert s[i..i + |r|] == t[..|r|];
    assert IsBlank(s[..i]) by {
      forall j | 0 <= j < i
        ensures IsWhitespace(s[..i][j])
      {
        assert s[..i][j] == s[j];
      }
    }
    var tail := s[i + |r|..];
    assert IsBlank(tail) by {
      forall j | 0 <= j < |tail|
        ensures IsWhitespace(tail[j])
      {
        assert tail[j] == t[|r| + j];
      }
    }
  }

  /** `replaceAll("\\s+", " ")`: every maximal whitespace run becomes one space. */
  function CollapseRuns(s: string): (r: string)
    ensures SingleSpaced(r)
    ensures s == [] <==> r == []
    ensures s != [] && !IsWhitespace(s[0]) ==> r[0] == s[0]
    ensures s != [] && !IsWhitespace(s[|s| - 1]) ==> r[|r| - 1] == s[|s| - 1]
    ensures s != [] && IsWhitespace(s[0]) ==> r[0] == ' '
    ensures s != [] && IsWhitespace(s[|s| - 1]) ==> r[|r| - 1] == ' '
    decreases |s|
  {
    if s == [] then []
    else if IsWhitespace(s[0]) then
      " " + CollapseRuns(TrimStart(s))
    else
      [s[0]] + CollapseRuns(s[1..])
  }

  /** `cleanString` on a present value: trim, then collapse whitespace runs. */
  function Clean(s: string): (r: string)
    ensures NoEdgeWhitespace(r) && SingleSpaced(r)
    ensures r == [] <==> IsBlank(s)
  {
    CollapseRuns(Trim(s))
  }

  /** `cleanString`, which passes null through. */
  function CleanString(value: Option<string>): (r: Option<string>)
    ensures r.None? <==> value.None?
    ensures value.Some? ==> NoEdgeWhitespace(r.value) && SingleSpaced(r.value)
    ensures value.Some? ==> r.value == JoinWords(Words(value.value))
  {
    match value
    case None => None
    case Some(s) =>
      CleanIsJoinedWords(s);
      Some(Clean(s))
  }

  // ----- properties of Clean -----

  lemma SingleSpacedSuffix(s: string, k: nat)
    requires SingleSpaced(s) && k <= |s|
    ensures SingleSpaced(s[k..])
  {
    var t := s[k..];
    forall i, j | 0 <= i < j < |t| && j == i + 1
      ensures !(IsWhitespace(t[i]) && IsWhitespace(t[j]))
    {
      assert t[i] == s[k + i] && t[j] == s[k + j];
    }
  }

  lemma HeadTail(s: string)
    requires s != []
    ensures s == [s[0]] + s[1..]
  {
  }

  lemma Associative(a: string, b: string, c: string)
    ensures (a + b) + c == a + (b + c)
  {
  }

  /** Run collapsing on a single space followed by something that does not
      start with whitespace. */
  lemma CollapseRunsOfSpaceFirst(s: string)
    requires s != [] && s[0] == ' ' && (|s| == 1 || !IsWhitespace(s[1]))
    ensures CollapseRuns(s) == " " + CollapseRuns(s[1..])
  {
    assert TrimStart(s) == TrimStart(s[1..]);
    assert TrimStart(s[1..]) == s[1..];
  }

  /** A string that is already single-spaced and does not start with
      whitespace is left alone by run collapsing. */
  lemma {:induction false} CollapseRunsFixesSingleSpaced(s: string)
    requires SingleSpaced(s) && (s == [] || !IsWhitespace(s[0]))
    ensures CollapseRuns(s) == s
    decreases |s|
  {
    if s != [] {
      var rest := s[1..];
      SingleSpacedSuffix(s, 1);
      HeadTail(s);
      if rest != [] && IsWhitespace(rest[0]) {
        var tail := rest[1..];
        assert rest[0] == ' ';
        assert |rest| == 1 || !IsWhitespace(rest[1]);
        CollapseRunsOfSpaceFirst(rest);
        SingleSpacedSuffix(rest, 1);
        CollapseRunsFixesSingleSpaced(tail);
        HeadTail(rest);
      } else {
        CollapseRunsFixesSingleSpaced(rest);
      }
    }
  }

  /** A string that is already normalised is its own `cleanString`. */
  lemma CleanFixesNormalised(s: string)
    requires NoEdgeWhitespace(s) && SingleSpaced(s)
    ensures Clean(s) == s
  {
    assert TrimStart(s) == s;
    assert TrimEnd(s) == s;
    CollapseRunsFixesSingleSpaced(s);
  }

  /** `cleanString` is idempotent. */
  lemma CleanIdempotent(s: string)
    ensures Clean(Clean(s)) == Clean(s)
  {
    CleanFixesNormalised(Clean(s));
  }

  // ----- Clean against an independent reference: the words of the string joined by single spaces -----

  /** The longest prefix free of whitespace. */
  function Word(s: string): (w: string)
    ensures |w| <= |s| && w == s[..|w|]
    ensures forall i :: 0 <= i < |w| ==> !IsWhitespace(s[i])
    ensures |w| < |s| ==> IsWhitespace(s[|w|])
    ensures s != [] && !IsWhitespace(s[0]) ==> w != []
  {
    if s != [] && !IsWhitespace(s[0]) then [s[0]] + Word(s[1..]) else []
  }

  /** The maximal whitespace-free pieces of `s`, in order. */
  function Words(s: string): seq<string>
    decreases |s|
  {
    var t := TrimStart(s);
    if t == [] then []
    else
      var w := Word(t);
      [w] + Words(t[|w|..])
  }

  /** The words joined by single spaces. */
  function JoinWords(ws: seq<string>): string {
    if ws == [] then ""
    else if |ws| == 1 then ws[0]
    else ws[0] + " " + JoinWords(ws[1..])
  }

  lemma {:induction false} TrimEndOfBlankTail(w: string, tail: string)
    requires NoEdgeWhitespace(w) && IsBlank(tail)
    ensures TrimEnd(w + tail) == w
    decreases |tail|
  {
    if tail != [] {
      assert (w + tail)[..|w + tail| - 1] == w + tail[..|tail| - 1];
      TrimEndOfBlankTail(w, tail[..|tail| - 1]);
    } else {
      assert w + tail == w;
    }
  }

  lemma {:induction false} TrimEndKeepsPrefix(a: string, b: string)
    requires !IsBlank(b)
    ensures TrimEnd(a + b) == a + TrimEnd(b)
    decreases |b|
  {
    if IsWhitespace(b[|b| - 1]) {
      var b' := b[..|b| - 1];
      assert !IsBlank(b') by {
        var i :| 0 <= i < |b| && !IsWhitespace(b[i]);
        assert i < |b| - 1 && b'[i] == b[i];
      }
      assert (a + b)[..|a + b| - 1] == a + b';
      TrimEndKeepsPrefix(a, b');
    }
  }

  lemma {:induction false} TrimStartOfBlankPrefix(run: string, x: string)
    requires IsBlank(run) && (x == [] || !IsWhitespace(x[0]))
    ensures TrimStart(run + x) == x
    decreases |run|
  {
    if run != [] {
      assert (run + x)[1..] == run[1..] + x;
      TrimStartOfBlankPrefix(run[1..], x);
    } else {
      assert run + x == x;
    }
  }

  lemma {:induction false} CollapseRunsKeepsWord(w: string, y: string)
    requires HasNoWhitespace(w)
    ensures CollapseRuns(w + y) == w + CollapseRuns(y)
    decreases |w|
  {
    if w != [] {
      var t := w[1..];
      assert (w + y)[0] == w[0] && (w + y)[1..] == t + y;
      assert CollapseRuns(w + y) == [w[0]] + CollapseRuns(t + y);
      CollapseRunsKeepsWord(t, y);
      HeadTail(w);
      Associative([w[0]], t, CollapseRuns(y));
    } else {
      assert w + y == y;
    }
  }

  lemma WordsOfWordStart(t: string)
    requires t != [] && !IsWhitespace(t[0])
    ensures Words(t) == [Word(t)] + Words(t[|Word(t)|..])
  {
    assert TrimStart(t) == t;
  }

  lemma WordsSkipLeadingRun(s: string)
    ensures Words(s) == Words(TrimStart(s))
  {
    var t := TrimStart(s);
    assert TrimStart(t) == t;
  }

  lemma SplitRun(rest: string) returns (run: string, t': string)
    ensures rest == run + t' && t' == TrimStart(rest)
    ensures IsBlank(run) && (t' == [] || !IsWhitespace(t'[0]))
  {
    t' := TrimStart(rest);
    run := rest[..|rest| - |t'|];
    assert rest == run + t';
  }

  /** A string that starts with a word splits into that word, a whitespace
      run, and a remainder that starts with the next word (if any). */
  /** The first word of a string that starts with one, and what follows it. */
  lemma FirstWord(t: string) returns (w: string, rest: string)
    requires t != [] && !IsWhitespace(t[0])
    ensures w == Word(t) && rest == t[|w|..] && t == w + rest
    ensures w != [] && HasNoWhitespace(w)
    ensures rest == [] || IsWhitespace(rest[0])
  {
    w := Word(t);
    rest := t[|w|..];
    if rest != [] { assert rest[0] == t[|w|]; }
  }

  /** A string that starts with a word splits into that word, a whitespace
      run, and a remainder that starts with the next word (if any). */
  lemma SplitFirstWord(t: string) returns (w: string, run: string, t': string)
    requires t != [] && !IsWhitespace(t[0])
    ensures t == w + (run + t') && w == Word(t) && w != [] && HasNoWhitespace(w)
    ensures IsBlank(run) && (t' == [] || !IsWhitespace(t'[0]))
    ensures t' != [] ==> run != []
    ensures Words(t) == [w] + Words(t')
  {
    var rest;
    w, rest := FirstWord(t);
    WordsOfWordStart(t);
    run, t' := SplitRun(rest);
    WordsSkipLeadingRun(rest);
  }

  lemma CollapseRunsAfterRun(run: string, x: string)
    requires IsBlank(run) && run != []
    requires x != [] && !IsWhitespace(x[0])
    ensures CollapseRuns(run + x) == " " + CollapseRuns(x)
  {
    assert (run + x)[0] == run[0];
    TrimStartOfBlankPrefix(run, x);
  }

  /** The inductive step once the first word has been split off. */
  lemma CollapseAfterSplit(w: string, run: string, t': string)
    requires w != [] && HasNoWhitespace(w) && IsBlank(run) && run != []
    requires t' != [] && !IsWhitespace(t'[0])
    ensures CollapseRuns(TrimEnd(w + (run + t'))) == w + (" " + CollapseRuns(TrimEnd(t')))
  {
    assert !IsBlank(t') by { assert !IsWhitespace(t'[0]); }
    TrimEndKeepsPrefix(w + run, t');
    var x := TrimEnd(t');
    Associative(w, run, t');
    Associative(w, run, x);
    assert x != [] && x[0] == t'[0];
    CollapseRunsKeepsWord(w, run + x);
    CollapseRunsAfterRun(run, x);
  }

  lemma JoinWordsCons(w: string, ws: seq<string>)
    requires ws != []
    ensures JoinWords([w] + ws) == w + (" " + JoinWords(ws))
  {
    assert ([w] + ws)[1..] == ws;
    Associative(w, " ", JoinWords(ws));
  }

  /** The base case: one word followed only by whitespace. */
  lemma CollapseLastWord(w: string, run: string)
    requires w != [] && HasNoWhitespace(w) && IsBlank(run)
    ensures CollapseRuns(TrimEnd(w + (run + []))) == JoinWords([w] + Words([]))
  {
    assert run + [] == run;
    TrimEndOfBlankTail(w, run);
    CollapseRunsKeepsWord(w, []);
    assert w + [] == w;
    assert [w] + Words([]) == [w];
  }

  /** The heart of the reference proof, for a string with no leading whitespace. */
  lemma {:induction false} CollapsedTrimmedIsJoinedWords(t: string)
    requires t == [] || !IsWhitespace(t[0])
    ensures CollapseRuns(TrimEnd(t)) == JoinWords(Words(t))
    decreases |t|
  {
    if t != [] {
      var w, run, t' := SplitFirstWord(t);
      if t' == [] {
        CollapseLastWord(w, run);
      } else {
        CollapseAfterSplit(w, run, t');
        CollapsedTrimmedIsJoinedWords(t');
        assert Words(t') != [] by { assert TrimStart(t') == t'; }
        JoinWordsCons(w, Words(t'));
      }
    }
  }

  /** `cleanString` yields exactly the words of its input joined by single spaces. */
  lemma CleanIsJoinedWords(s: string)
    ensures Clean(s) == JoinWords(Words(s))
  {
    var t := TrimStart(s);
    assert TrimStart(t) == t;
    assert Words(s) == Words(t);
    CollapsedTrimmedIsJoinedWords(t);
  }

  /** Prepending a non-whitespace character either starts a new first word
      or extends the first word. */
  lemma WordsAfterLetter(c: char, x: string)
    requires !IsWhitespace(c)
    ensures x == [] || IsWhitespace(x[0]) ==> Words([c] + x) == [[c]] + Words(x)
    ensures x != [] && !IsWhitespace(x[0]) ==> Words(x) != [] && Words([c] + x) == [[c] + Words(x)[0]] + Words(x)[1..]
  {
    var cx := [c] + x;
    assert cx[0] == c && cx[1..] == x;
    WordsOfWordStart(cx);
    assert Word(cx) == [c] + Word(x);
    if x != [] && !IsWhitespace(x[0]) {
      WordsOfWordStart(x);
      assert cx[|Word(cx)|..] == x[|Word(x)|..];
    }
  }

  lemma WordsAfterSpace(x: string)
    ensures Words(" " + x) == Words(x)
  {
    WordsSkipLeadingRun(" " + x);
    WordsSkipLeadingRun(x);
    assert (" " + x)[1..] == x;
    assert TrimStart(" " + x) == TrimStart(x);
  }

  /** Collapsing whitespace runs keeps the words of the string: only the
      whitespace between them changes. */
  lemma {:induction false} CollapseRunsKeepsWords(s: string)
    ensures Words(CollapseRuns(s)) == Words(s)
    decreases |s|
  {
    if s != [] {
      if IsWhitespace(s[0]) {
        var t := TrimStart(s);
        assert t == TrimStart(s[1..]);
        CollapseRunsKeepsWords(t);
        WordsAfterSpace(CollapseRuns(t));
        WordsSkipLeadingRun(s);
      } else {
        var x := s[1..];
        CollapseRunsKeepsWords(x);
        WordsAfterLetter(s[0], x);
        WordsAfterLetter(s[0], CollapseRuns(x));
        HeadTail(s);
      }
    }
  }

  /** A single word with whitespace padding on both sides is cleaned to the word. */
  lemma CleanPaddedWord(pre: string, w: string, post: string)
    requires IsBlank(pre) && IsBlank(post) && w != [] && HasNoWhitespace(w)
    ensures Clean(pre + w + post) == w
  {
    Associative(pre, w, post);
    TrimStartOfBlankPrefix(pre, w + post);
    TrimEndOfBlankTail(w, post);
    CollapseRunsKeepsWord(w, []);
    assert w + [] == w;
  }

  /** The normalisations the unit tests of the services expect. */
  lemma CleanExampleTitle()
    ensures Clean("  Inception  ") == "Inception"
  {
    assert "  Inception  " == "  " + "Inception" + "  ";
    CleanPaddedWord("  ", "Inception", "  ");
  }

  lemma CleanExampleGenre()
    ensures Clean("  Sci-Fi  ") == "Sci-Fi"
  {
    assert "  Sci-Fi  " == "  " + "Sci-Fi" + "  ";
    CleanPaddedWord("  ", "Sci-Fi", "  ");
  }

  lemma CleanExampleTheater()
    ensures Clean("Main Hall") == "Main Hall"
  {
    CleanFixesNormalised("Main Hall");
  }

  // ----- decimal rendering used in error messages -----

  predicate IsDigits(t: string) {
    forall i :: 0 <= i < |t| ==> '0' <= t[i] <= '9'
  }

  /** The value of a string of decimal digits, most significant digit first. */
  function DecimalValue(t: string): int
    decreases |t|
  {
    if t == [] then 0 else DecimalValue(t[..|t| - 1]) * 10 + (t[|t| - 1] as int - '0' as int)
  }

  /** `t` is the canonical decimal numeral of `n`: digits only, no leading
      zero, denoting `n`. */
  ghost predicate IsNumeral(t: string, n: nat) {
    t != [] && IsDigits(t) && (t[0] == '0' ==> |t| == 1) && DecimalValue(t) == n
  }

  /** `t` is Java's decimal rendering of `i`: a minus sign before the numeral
      of the magnitude when `i` is negative. */
  ghost predicate IsJavaDecimal(t: string, i: int) {
    if i < 0 then t != [] && t[0] == '-' && IsNumeral(t[1..], -i) else IsNumeral(t, i)
  }

  function DigitChar(d: int): (c: char)
    requires 0 <= d < 10
    ensures c as int - '0' as int == d
  {
    "0123456789"[d]
  }

  function NatToString(n: nat): (r: string)
    ensures IsNumeral(r, n)
  {
    if n < 10 then
      var r := [DigitChar(n)];
      assert r[..0] == [];
      r
    else
      var p := NatToString(n / 10);
      var r := p + [DigitChar(n % 10)];
      assert r[..|r| - 1] == p;
      assert r[0] == p[0];
      r
  }

  /** Java's decimal rendering of an integral value, as in `"..." + id`. */
  function IntToString(i: int): (r: string)
    ensures IsJavaDecimal(r, i)
  {
    if i < 0 then
      var r := "-" + NatToString(-i);
      assert r[1..] == NatToString(-i);
      r
    else NatToString(i)
  }

  lemma {:induction false} LeadingDigitPositive(t: string)
    requires t != [] && IsDigits(t) && t[0] != '0'
    ensures DecimalValue(t) > 0
    decreases |t|
  {
    if |t| > 1 {
      var p := t[..|t| - 1];
      assert p[0] == t[0];
      LeadingDigitPositive(p);
    } else {
      assert t[..0] == [];
    }
  }

  /** `m` is `prefix`, then Java's rendering of `i`, then `suffix`: the shape
      of a message built as `prefix + i + suffix`. */
  ghost predicate IsNumberMessage(m: string, prefix: string, i: int, suffix: string) {
    && |prefix| + |suffix| <= |m|
    && m[..|prefix|] == prefix
    && m[|m| - |suffix|..] == suffix
    && IsJavaDecimal(m[|prefix|..|m| - |suffix|], i)
  }

  lemma NumberMessage(prefix: string, i: int, suffix: string)
    ensures IsNumberMessage(prefix + IntToString(i) + suffix, prefix, i, suffix)
  {
    var m := prefix + IntToString(i) + suffix;
    assert m[..|prefix|] == prefix;
    assert m[|m| - |suffix|..] == suffix;
    assert m[|prefix|..|m| - |suffix|] == IntToString(i);
  }

  /** A number has exactly one canonical numeral: the one `NatToString` gives. */
  lemma {:induction false} NumeralIsNatToString(t: string, n: nat)
    requires IsNumeral(t, n)
    ensures t == NatToString(n)
    decreases |t|
  {
    var last := t[|t| - 1];
    var d := last as int - '0' as int;
    var p := t[..|t| - 1];
    assert t == p + [last];
    if |t| == 1 {
      assert p == [];
      assert DecimalValue(t) == DecimalValue(p) * 10 + d;
      assert n == d;
      assert DigitChar(d) as int == last as int;
    } else {
      assert p[0] == t[0];
      LeadingDigitPositive(p);
      var m := DecimalValue(p);
      assert n / 10 == m && n % 10 == d;
      NumeralIsNatToString(p, m);
      assert DigitChar(n % 10) == last;
    }
  }

  /** Java's rendering of an integral value is pinned by `IsJavaDecimal`. */
  lemma JavaDecimalIsIntToString(t: string, i: int)
    requires IsJavaDecimal(t, i)
    ensures t == IntToString(i)
  {
    if i < 0 {
      var m := t[1..];
      NumeralIsNatToString(m, -i);
      assert IntToString(i) == "-" + NatToString(-i);
      assert t == [t[0]] + m;
    } else {
      NumeralIsNatToString(t, i);
    }
  }
}
