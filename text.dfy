/**
 * The Python string operations the storefront relies on (`strip`, `lower`,
 * `upper`, `split`, `join`, `startswith`, `in`, `int(...)`, `str(...)`,
 * slicing, `title`), over ASCII text. Unicode case mapping and Unicode
 * whitespace are not modelled.
 */
module Text {
  import opened Wrappers

  // ---------------------------------------------------------------------------
  // Character classes
  // ---------------------------------------------------------------------------

  /** Python's `str.isspace()` restricted to ASCII: space, \t \n \v \f \r and \x1c-\x1f. */
  predicate IsSpace(c: char) {
    c == ' ' || ('\t' <= c <= '\r') || ('\U{001C}' <= c <= '\U{001F}')
  }

  predicate IsDigit(c: char) { '0' <= c <= '9' }

  predicate IsLower(c: char) { 'a' <= c <= 'z' }

  predicate IsUpper(c: char) { 'A' <= c <= 'Z' }

  predicate IsLetter(c: char) { IsLower(c) || IsUpper(c) }

  /** The regular-expression class `\w` over ASCII. */
  predicate IsWordChar(c: char) { IsLetter(c) || IsDigit(c) || c == '_' }

  predicate AllDigits(s: string) { forall c <- s :: IsDigit(c) }

  function LowerChar(c: char): (r: char)
    ensures !IsUpper(r)
    ensures IsLetter(c) <==> IsLetter(r)
  {
    if IsUpper(c) then (c as int + 32) as char else c
  }

  function UpperChar(c: char): (r: char)
    ensures !IsLower(r)
    ensures IsLetter(c) <==> IsLetter(r)
  {
    if IsLower(c) then (c as int - 32) as char else c
  }

  // ---------------------------------------------------------------------------
  // Case mapping
  // ---------------------------------------------------------------------------

  /** `s.lower()` */
  function Lower(s: string): (r: string)
    ensures |r| == |s|
    ensures forall i :: 0 <= i < |s| ==> r[i] == LowerChar(s[i])
  {
    if s == [] then [] else [LowerChar(s[0])] + Lower(s[1..])
  }

  /** `s.upper()` */
  function Upper(s: string): (r: string)
    ensures |r| == |s|
    ensures forall i :: 0 <= i < |s| ==> r[i] == UpperChar(s[i])
  {
    if s == [] then [] else [UpperChar(s[0])] + Upper(s[1..])
  }

  lemma UpperIdempotent(s: string)
    ensures Upper(Upper(s)) == Upper(s)
  {
  }

  /**
   * `s.title()`: a letter is upper-cased when it does not follow a letter and
   * lower-cased when it does; other characters are kept.
   */
  function Title(s: string): string {
    TitleAfter(s, false)
  }

  function TitleAfter(s: string, afterLetter: bool): (r: string)
    ensures |r| == |s|
    ensures forall i :: 0 <= i < |s| && !IsLetter(s[i]) ==> r[i] == s[i]
    ensures forall i :: 0 <= i < |s| ==> (IsLetter(r[i]) <==> IsLetter(s[i]))
    ensures |s| > 0 && IsLetter(s[0]) && !afterLetter ==> IsUpper(r[0])
  {
    if s == [] then []
    else
      var c := s[0];
      var d := if !IsLetter(c) then c else if afterLetter then LowerChar(c) else UpperChar(c);
      [d] + TitleAfter(s[1..], IsLetter(c))
  }

  /** `s.replace(a, b)` for single characters. */
  function ReplaceChar(s: string, a: char, b: char): (r: string)
    ensures |r| == |s|
    ensures forall i :: 0 <= i < |s| ==> r[i] == (if s[i] == a then b else s[i])
  {
    if s == [] then [] else [if s[0] == a then b else s[0]] + ReplaceChar(s[1..], a, b)
  }

  /** `s.replace(a, "")` for a single character. */
  function RemoveChar(s: string, a: char): (r: string)
    ensures a !in r
    ensures |r| <= |s|
  {
    if s == [] then [] else (if s[0] == a then [] else [s[0]]) + RemoveChar(s[1..], a)
  }

  // ---------------------------------------------------------------------------
  // Stripping whitespace
  // ---------------------------------------------------------------------------

  /** The number of whitespace characters `s` starts with. */
  function LeadingSpaces(s: string): (n: nat)
    ensures n <= |s|
    ensures n == |s| || !IsSpace(s[n])
  {
    if |s| > 0 && IsSpace(s[0]) then 1 + LeadingSpaces(s[1..]) else 0
  }

  /** The number of whitespace characters `s` ends with. */
  function TrailingSpaces(s: string): (n: nat)
    ensures n <= |s|
    ensures n == |s| || !IsSpace(s[|s| - 1 - n])
  {
    if |s| > 0 && IsSpace(s[|s| - 1]) then 1 + TrailingSpaces(s[..|s| - 1]) else 0
  }

  /** The leading run counted is all whitespace. */
  lemma {:induction false} LeadingSpacesAreSpaces(s: string)
    ensures forall i :: 0 <= i < LeadingSpaces(s) ==> IsSpace(s[i])
  {
    if |s| > 0 && IsSpace(s[0]) {
      LeadingSpacesAreSpaces(s[1..]);
      forall i | 0 < i < LeadingSpaces(s) ensures IsSpace(s[i]) {
        assert s[i] == s[1..][i - 1];
      }
    }
  }

  /** The trailing run counted is all whitespace. */
  lemma {:induction false} TrailingSpacesAreSpaces(s: string)
    ensures forall i :: |s| - TrailingSpaces(s) <= i < |s| ==> IsSpace(s[i])
  {
    if |s| > 0 && IsSpace(s[|s| - 1]) {
      var t := s[..|s| - 1];
      TrailingSpacesAreSpaces(t);
      forall i | |s| - TrailingSpaces(s) <= i < |s| - 1 ensures IsSpace(s[i]) {
        assert s[i] == t[i];
      }
    }
  }

  /** `s.lstrip()` */
  function TrimStart(s: string): string {
    s[LeadingSpaces(s)..]
  }

  /** `s.rstrip()` */
  function TrimEnd(s: string): string {
    s[..|s| - TrailingSpaces(s)]
  }

  /** `s.strip()` */
  function Strip(s: string): string {
    TrimEnd(TrimStart(s))
  }

  /** A string that neither starts nor ends with whitespace. */
  predicate IsStripped(s: string) {
    s == [] || (!IsSpace(s[0]) && !IsSpace(s[|s| - 1]))
  }

  /**
   * Stripping leaves a stripped infix of the input: what it removed in front
   * is the leading whitespace.
   */
  lemma StripSpec(s: string)
    ensures IsStripped(Strip(s))
    ensures LeadingSpaces(s) + |Strip(s)| <= |s|
    ensures Strip(s) == s[LeadingSpaces(s)..LeadingSpaces(s) + |Strip(s)|]
  {
    var n := LeadingSpaces(s);
    var t := s[n..];
    var m := TrailingSpaces(t);
    var r := t[..|t| - m];
    assert Strip(s) == r;
    assert r == s[n..n + |r|];
    if r != [] {
      assert r[0] == t[0] && r[|r| - 1] == t[|t| - 1 - m];
    }
  }

  lemma StripOfStripped(s: string)
    requires IsStripped(s)
    ensures Strip(s) == s
  {
    assert LeadingSpaces(s) == 0;
    assert s[0..] == s;
    assert TrailingSpaces(s) == 0;
  }

  /** Stripping twice is stripping once. */
  lemma StripIdempotent(s: string)
    ensures Strip(Strip(s)) == Strip(s)
  {
    StripSpec(s);
    StripOfStripped(Strip(s));
  }

  /** A string without whitespace is its own strip. */
  lemma StripNoSpace(s: string)
    requires forall c <- s :: !IsSpace(c)
    ensures Strip(s) == s
  {
    if s != [] {
      assert s[0] in s && s[|s| - 1] in s;
    }
    StripOfStripped(s);
  }

  /** A string strips to nothing exactly when it is all whitespace (Python's `not s.strip()`). */
  lemma StripEmptyIff(s: string)
    ensures Strip(s) == [] <==> forall i :: 0 <= i < |s| ==> IsSpace(s[i])
  {
    var n := LeadingSpaces(s);
    LeadingSpacesAreSpaces(s);
    if n < |s| {
      var t := s[n..];
      TrailingSpacesAreSpaces(t);
      assert t[0] == s[n];
      assert !IsSpace(t[0]);
      assert TrailingSpaces(t) < |t|;
      assert |Strip(s)| == |t| - TrailingSpaces(t);
    }
  }

  // ---------------------------------------------------------------------------
  // Searching
  // ---------------------------------------------------------------------------

  predicate StartsWith(s: string, prefix: string) {
    |prefix| <= |s| && s[..|prefix|] == prefix
  }

  /** `pat` occurs in `s` at index `i`. */
  predicate OccursAt(s: string, pat: string, i: int) {
    0 <= i && i + |pat| <= |s| && s[i..i + |pat|] == pat
  }

  /** The first index at or after `from` where `pat` occurs (Python's `s.find(pat, from)`). */
  function IndexOfFrom(s: string, pat: string, from: nat): (r: Option<nat>)
    requires from <= |s|
    ensures r.Some? ==> from <= r.value && OccursAt(s, pat, r.value)
    ensures r.Some? ==> forall j :: from <= j < r.value ==> !OccursAt(s, pat, j)
    ensures r.None? ==> forall j :: from <= j ==> !OccursAt(s, pat, j)
    decreases |s| - from
  {
    if from + |pat| > |s| then None
    else if s[from..from + |pat|] == pat then Some(from)
    else if from == |s| then None
    else IndexOfFrom(s, pat, from + 1)
  }

  /** The first index where `pat` occurs in `s`. */
  function IndexOf(s: string, pat: string): (r: Option<nat>)
    ensures r.Some? ==> OccursAt(s, pat, r.value)
    ensures r.Some? ==> forall j :: 0 <= j < r.value ==> !OccursAt(s, pat, j)
    ensures r.None? ==> forall j :: !OccursAt(s, pat, j)
  {
    IndexOfFrom(s, pat, 0)
  }

  /** Python's `pat in s`. */
  predicate Contains(s: string, pat: string) {
    IndexOf(s, pat).Some?
  }

  /**
   * The first occurrence of `pat` depends only on the text up to the end of
   * that occurrence: a string that agrees with `s` there finds it at the same place.
   */
  lemma IndexOfSharedPrefix(s: string, t: string, pat: string, i: nat)
    requires IndexOf(s, pat) == Some(i)
    requires i + |pat| <= |t| && s[..i + |pat|] == t[..i + |pat|]
    ensures IndexOf(t, pat) == Some(i)
  {
    var m := i + |pat|;
    forall k | 0 <= k < m
      ensures s[k] == t[k]
    {
      assert s[..m][k] == s[k] && t[..m][k] == t[k];
    }
    forall j | 0 <= j <= i
      ensures OccursAt(t, pat, j) == OccursAt(s, pat, j)
    {
      assert t[j..j + |pat|] == s[j..j + |pat|];
    }
  }

  /** A string in which a one-character pattern does not occur holds no such character. */
  lemma CharFree(p: string, c: char)
    requires !Contains(p, [c])
    ensures c !in p
  {
    forall i | 0 <= i < |p| ensures p[i] != c {
      assert !OccursAt(p, [c], i);
      assert p[i..i + 1] == [p[i]];
    }
  }

  /** Stripping adds no character. */
  lemma StripKeepsOut(p: string, c: char)
    requires c !in p
    ensures c !in Strip(p)
  {
    StripSpec(p);
    var n := LeadingSpaces(p);
    forall i | 0 <= i < |Strip(p)| ensures Strip(p)[i] != c {
      assert Strip(p)[i] == p[n + i];
    }
  }

  // ---------------------------------------------------------------------------
  // Splitting and joining
  // ---------------------------------------------------------------------------

  /** Python's `s.split(sep)` for a non-empty separator: never empty, keeps empty pieces. */
  function Split(s: string, sep: string): (parts: seq<string>)
    requires |sep| > 0
    ensures |parts| >= 1
    decreases |s|
  {
    match IndexOf(s, sep)
    case None => [s]
    case Some(i) => [s[..i]] + Split(s[i + |sep|..], sep)
  }

  /** Python's `sep.join(parts)`. */
  function Join(parts: seq<string>, sep: string): string {
    if |parts| == 0 then ""
    else if |parts| == 1 then parts[0]
    else parts[0] + sep + Join(parts[1..], sep)
  }

  /** Joining the pieces of a split with the same separator gives back the string. */
  lemma {:induction false} JoinSplit(s: string, sep: string)
    requires |sep| > 0
    ensures Join(Split(s, sep), sep) == s
    decreases |s|
  {
    var found := IndexOf(s, sep);
    if found.Some? {
      var i := found.value;
      assert OccursAt(s, sep, i);
      var head, rest := s[..i], s[i + |sep|..];
      var tail := Split(rest, sep);
      assert Split(s, sep) == [head] + tail;
      JoinSplit(rest, sep);
      JoinCons(head, tail, sep);
      assert s == s[..i] + s[i..i + |sep|] + s[i + |sep|..];
    } else {
      assert Split(s, sep) == [s];
    }
  }

  /** Joining a piece in front of a non-empty list puts one separator between. */
  lemma JoinCons(head: string, tail: seq<string>, sep: string)
    requires |tail| >= 1
    ensures Join([head] + tail, sep) == head + sep + Join(tail, sep)
  {
    assert ([head] + tail)[1..] == tail;
  }

  /** No piece of a split contains the separator. */
  lemma {:induction false} SplitPiecesFree(s: string, sep: string)
    requires |sep| > 0
    ensures forall p <- Split(s, sep) :: !Contains(p, sep)
    decreases |s|
  {
    match IndexOf(s, sep)
    case None =>
    case Some(i) =>
      var rest := Split(s[i + |sep|..], sep);
      SplitPiecesFree(s[i + |sep|..], sep);
      HeadBeforeFirstFree(s, sep, i);
      assert Split(s, sep) == [s[..i]] + rest;
      forall p <- Split(s, sep) ensures !Contains(p, sep) {
        if p != s[..i] { assert p in rest; }
      }
  }

  /** The text before the first occurrence of a separator does not contain it. */
  lemma HeadBeforeFirstFree(s: string, sep: string, i: nat)
    requires |sep| > 0 && IndexOf(s, sep) == Some(i)
    ensures !Contains(s[..i], sep)
  {
    var head := s[..i];
    if Contains(head, sep) {
      var j := IndexOf(head, sep).value;
      assert head[j..j + |sep|] == s[j..j + |sep|];
      assert OccursAt(s, sep, j);
    }
  }

  /** The first occurrence of a one-character separator is right after a piece free of it. */
  lemma IndexOfAfterFreePrefix(p: string, c: char, rest: string)
    requires c !in p
    ensures IndexOf(p + [c] + rest, [c]) == Some(|p|)
  {
    var s := p + [c] + rest;
    assert OccursAt(s, [c], |p|);
    forall j | 0 <= j < |p|
      ensures !OccursAt(s, [c], j)
    {
      assert s[j] == p[j];
      assert p[j] in p;
    }
  }

  lemma IndexOfFree(p: string, c: char)
    requires c !in p
    ensures IndexOf(p, [c]) == None
  {
    forall j | 0 <= j < |p|
      ensures !OccursAt(p, [c], j)
    {
      assert p[j] in p;
      assert j + 1 <= |p| ==> p[j..j + 1] == [p[j]];
    }
  }

  /**
   * Splitting a join on a one-character separator that no piece contains gives
   * back the pieces.
   */
  lemma {:induction false} SplitJoin(parts: seq<string>, c: char)
    requires |parts| >= 1
    requires forall p <- parts :: c !in p
    ensures Split(Join(parts, [c]), [c]) == parts
  {
    if |parts| == 1 {
      assert parts[0] in parts;
      IndexOfFree(parts[0], c);
    } else {
      var rest := Join(parts[1..], [c]);
      assert parts[0] in parts;
      assert Join(parts, [c]) == parts[0] + [c] + rest;
      IndexOfAfterFreePrefix(parts[0], c, rest);
      assert (parts[0] + [c] + rest)[|parts[0]| + 1..] == rest;
      assert (parts[0] + [c] + rest)[..|parts[0]|] == parts[0];
      forall p <- parts[1..] ensures c !in p {
        assert p in parts;
      }
      SplitJoin(parts[1..], c);
    }
  }

  // ---------------------------------------------------------------------------
  // Whitespace-separated words (`s.split()` with no argument)
  // ---------------------------------------------------------------------------

  /** The length of the leading run of non-whitespace characters. */
  function WordLength(s: string): (n: nat)
    ensures n <= |s|
    ensures forall i :: 0 <= i < n ==> !IsSpace(s[i])
    ensures n == |s| || IsSpace(s[n])
  {
    if s == [] || IsSpace(s[0]) then 0 else 1 + WordLength(s[1..])
  }

  /** `s.split()`: the maximal runs of non-whitespace characters, in order. */
  function Words(s: string): (ws: seq<string>)
    ensures forall w <- ws :: |w| > 0 && forall c <- w :: !IsSpace(c)
    ensures ws == [] <==> LeadingSpaces(s) == |s|
    decreases |s|
  {
    var t := TrimStart(s);
    if t == [] then []
    else
      var n := WordLength(t);
      [t[..n]] + Words(t[n..])
  }

  /** A word: non-empty and free of whitespace. */
  predicate IsWord(w: string) {
    |w| > 0 && forall i :: 0 <= i < |w| ==> !IsSpace(w[i])
  }

  /** A word followed by whitespace or nothing is read whole. */
  lemma {:induction false} WordLengthOfWord(w: string, rest: string)
    requires forall i :: 0 <= i < |w| ==> !IsSpace(w[i])
    requires rest == [] || IsSpace(rest[0])
    ensures WordLength(w + rest) == |w|
  {
    if w != [] {
      assert (w + rest)[1..] == w[1..] + rest;
      WordLengthOfWord(w[1..], rest);
    } else {
      assert w + rest == rest;
    }
  }

  /** Leading whitespace does not change the words. */
  lemma WordsAfterSpace(c: char, s: string)
    requires IsSpace(c)
    ensures Words([c] + s) == Words(s)
  {
    assert ([c] + s)[1..] == s;
    assert LeadingSpaces([c] + s) == 1 + LeadingSpaces(s);
    assert TrimStart([c] + s) == TrimStart(s);
  }

  /** A word followed by whitespace or nothing is the first word. */
  lemma WordsOfWordThen(w: string, rest: string)
    requires IsWord(w)
    requires rest == [] || IsSpace(rest[0])
    ensures Words(w + rest) == [w] + Words(rest)
  {
    var j := w + rest;
    assert j[0] == w[0];
    assert LeadingSpaces(j) == 0;
    assert TrimStart(j) == j;
    WordLengthOfWord(w, rest);
    assert j[..|w|] == w && j[|w|..] == rest;
  }

  /** The words of a single-space join of words are those words: `" ".join(ws).split() == ws`. */
  lemma {:induction false} WordsOfJoin(ws: seq<string>)
    requires forall i :: 0 <= i < |ws| ==> IsWord(ws[i])
    ensures Words(Join(ws, " ")) == ws
  {
    if |ws| == 1 {
      assert IsWord(ws[0]);
      assert Join(ws, " ") == ws[0] + "";
      WordsOfWordThen(ws[0], "");
    } else if |ws| > 1 {
      var tail := Join(ws[1..], " ");
      calc {
        Words(Join(ws, " "));
        { JoinSpaceCons(ws); }
        Words(ws[0] + (" " + tail));
        { assert IsWord(ws[0]); WordsOfWordThen(ws[0], " " + tail); }
        [ws[0]] + Words(" " + tail);
        { WordsAfterSpace(' ', tail); }
        [ws[0]] + Words(tail);
        { WordsOfJoin(ws[1..]); }
        [ws[0]] + ws[1..];
        ws;
      }
    }
  }

  /** `" ".join(ws)` is the first word, a space, and the join of the rest. */
  lemma JoinSpaceCons(ws: seq<string>)
    requires |ws| > 1
    ensures Join(ws, " ") == ws[0] + (" " + Join(ws[1..], " "))
  {
  }

  // ---------------------------------------------------------------------------
  // Python slicing
  // ---------------------------------------------------------------------------

  /** `s[:n]`, where a negative `n` counts from the end. */
  function SliceTo(s: string, n: int): (r: string)
    ensures |r| <= |s| && r == s[..|r|]
    ensures 0 <= n ==> |r| == if n < |s| then n else |s|
  {
    if n >= 0 then (if n < |s| then s[..n] else s)
    else if |s| + n > 0 then s[..|s| + n]
    else []
  }

  // ---------------------------------------------------------------------------
  // Integers as text: `str(n)` and `int(s)`
  // ---------------------------------------------------------------------------

  function DigitChar(d: nat): (c: char)
    requires d < 10
    ensures IsDigit(c)
  {
    ('0' as int + d) as char
  }

  function DigitValue(c: char): (d: nat)
    requires IsDigit(c)
    ensures d < 10
  {
    c as int - '0' as int
  }

  /** `str(n)` for a natural number. */
  function NatToString(n: nat): (r: string)
    ensures |r| >= 1 && AllDigits(r)
  {
    if n < 10 then [DigitChar(n)] else NatToString(n / 10) + [DigitChar(n % 10)]
  }

  /** `str(i)` */
  function IntToString(i: int): (r: string)
    ensures |r| >= 1
  {
    if i < 0 then "-" + NatToString(-i) else NatToString(i)
  }

  /** The value of a string of decimal digits (leading zeros allowed). */
  function DigitsValue(ds: string): nat
    requires AllDigits(ds)
  {
    if ds == [] then 0 else DigitsValue(ds[..|ds| - 1]) * 10 + DigitValue(ds[|ds| - 1])
  }

  lemma {:induction false} DigitsValueOfNatToString(n: nat)
    ensures DigitsValue(NatToString(n)) == n
  {
    if n >= 10 {
      var r := NatToString(n);
      assert r[..|r| - 1] == NatToString(n / 10);
      DigitsValueOfNatToString(n / 10);
    }
  }

  /**
   * The digit part Python's `int()` accepts: digits in groups separated by
   * single underscores, with no underscore at either end (`"1_000"`).
   */
  predicate IsDigitGroups(b: string) {
    && |b| > 0
    && IsDigit(b[0])
    && IsDigit(b[|b| - 1])
    && (forall i :: 0 <= i < |b| ==> IsDigit(b[i]) || b[i] == '_')
    && (forall i :: 0 <= i < |b| - 1 ==> !(b[i] == '_' && b[i + 1] == '_'))
  }

  function DropUnderscores(b: string): (r: string)
    requires forall i :: 0 <= i < |b| ==> IsDigit(b[i]) || b[i] == '_'
    ensures AllDigits(r)
  {
    if b == [] then []
    else (if b[0] == '_' then [] else [b[0]]) + DropUnderscores(b[1..])
  }

  /**
   * Python's `int(s)` in base 10: surrounding whitespace is ignored, an
   * optional sign, then digit groups; anything else raises ValueError (None).
   */
  function ParseInt(s: string): Option<int> {
    var t := Strip(s);
    if |t| > 0 && (t[0] == '-' || t[0] == '+') then
      var body := t[1..];
      if IsDigitGroups(body) then
        var v: int := DigitsValue(DropUnderscores(body));
        Some(if t[0] == '-' then -v else v)
      else None
    else if IsDigitGroups(t) then Some(DigitsValue(DropUnderscores(t)))
    else None
  }

  lemma DropUnderscoresOfDigits(ds: string)
    requires AllDigits(ds)
    ensures DropUnderscores(ds) == ds
  {
    if ds != [] {
      assert ds[0] in ds;
      assert AllDigits(ds[1..]) by {
        forall c <- ds[1..] ensures IsDigit(c) { assert c in ds; }
      }
      DropUnderscoresOfDigits(ds[1..]);
    }
  }

  lemma NatToStringForm(n: nat)
    ensures IsDigitGroups(NatToString(n))
    ensures Strip(NatToString(n)) == NatToString(n)
    ensures DropUnderscores(NatToString(n)) == NatToString(n)
  {
    var r := NatToString(n);
    assert r[0] in r && r[|r| - 1] in r;
    forall i | 0 <= i < |r| ensures IsDigit(r[i]) { assert r[i] in r; }
    StripNoSpace(r);
    DropUnderscoresOfDigits(r);
  }

  /** `int(str(i)) == i`: the decimal rendering of an integer parses back to it. */
  lemma ParseIntOfIntToString(i: int)
    ensures ParseInt(IntToString(i)) == Some(i)
  {
    if i < 0 {
      ParseIntOfNegativeText(i);
    } else {
      ParseIntOfNatText(i);
    }
  }

  /** The rendering of a natural number parses back to it. */
  lemma ParseIntOfNatText(n: nat)
    ensures ParseInt(NatToString(n)) == Some(n)
  {
    var d := NatToString(n);
    NatToStringForm(n);
    DigitsValueOfNatToString(n);
    assert d[0] != '-' && d[0] != '+';
  }

  /** The rendering of a negative number, a minus sign and its digits, parses back to it. */
  lemma ParseIntOfNegativeText(i: int)
    requires i < 0
    ensures ParseInt(IntToString(i)) == Some(i)
  {
    var n: nat := -i;
    MinusDigitsForm(n);
    assert IntToString(i) == "-" + NatToString(n);
    ParseIntOfMinus(IntToString(i));
  }

  /** A minus sign and the rendering of `n`: stripped, signed, digit groups worth `n`. */
  lemma MinusDigitsForm(n: nat)
    ensures var t := "-" + NatToString(n);
      && |t| > 0 && t[0] == '-' && IsStripped(t)
      && IsDigitGroups(t[1..]) && DigitsValue(DropUnderscores(t[1..])) == n
  {
    var d := NatToString(n);
    NatToStringForm(n);
    DigitsValueOfNatToString(n);
    var t := "-" + d;
    assert t[1..] == d;
    assert t[|t| - 1] == d[|d| - 1];
  }

  /** Stripped text of a minus sign and digit groups parses to the negated value of the digits. */
  lemma ParseIntOfMinus(t: string)
    requires |t| > 0 && t[0] == '-' && IsStripped(t) && IsDigitGroups(t[1..])
    ensures ParseInt(t) == Some(-(DigitsValue(DropUnderscores(t[1..])) as int))
  {
    StripOfStripped(t);
  }

  /** The decimal rendering of an integer never contains an underscore. */
  lemma IntToStringNoUnderscore(i: int)
    ensures '_' !in IntToString(i)
  {
    var n: nat := if i < 0 then -i else i;
    assert AllDigits(NatToString(n));
  }

  /** `10 ** k` */
  function Pow10(k: nat): nat {
    if k == 0 then 1 else 10 * Pow10(k - 1)
  }

  /** A number below `10 ** k` has at most `k` digits. */
  lemma {:induction false} NatToStringLength(n: nat, k: nat)
    requires 1 <= k && n < Pow10(k)
    ensures |NatToString(n)| <= k
  {
    if n >= 10 {
      assert n / 10 < Pow10(k - 1);
      NatToStringLength(n / 10, k - 1);
    }
  }
}
