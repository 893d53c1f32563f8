/**
 * The URL path of a forwarded request: version, service, user and the path to ask the service for.
 * The main results say when the parts that went into a path come out of it again, and that whatever
 * is accepted was put together from such parts.
 */
module RequestPath {
  import opened Bytes
  import opened Text
  import opened NamePattern

  const SLASH: byte := 47
  const NEWLINE: byte := 10
  const LETTER_V: byte := 118
  const LETTER_W: byte := 119
  const LETTER_S: byte := 115

  predicate IsDigit(c: byte) {
    48 <= c <= 57
  }

  // ---------------------------------------------------------------- /v([1-9]\d{0,3})/([\w-]+)/?(.*)

  /** How many characters each repetition of the pattern takes. */
  datatype Cuts = Cuts(digits: nat, word: nat, slash: nat, rest: nat)

  function WordAt(i: nat, c: Cuts): nat { i + 3 + c.digits }

  function SlashAt(i: nat, c: Cuts): nat { WordAt(i, c) + c.word }

  function RestAt(i: nat, c: Cuts): nat { SlashAt(i, c) + c.slash }

  function EndAt(i: nat, c: Cuts): nat { RestAt(i, c) + c.rest }

  /** One way in which the pattern matches at `i`. */
  predicate Way(s: bytes, i: nat, c: Cuts) {
    && EndAt(i, c) <= |s|
    && s[i] == SLASH && s[i + 1] == LETTER_V
    && 1 <= c.digits <= 4 && s[i + 2] != 48
    && (forall k | i + 2 <= k < i + 2 + c.digits :: IsDigit(s[k]))
    && s[i + 2 + c.digits] == SLASH
    && 1 <= c.word && (forall k | WordAt(i, c) <= k < SlashAt(i, c) :: WordChar(s[k]))
    && c.slash <= 1 && (c.slash == 1 ==> s[SlashAt(i, c)] == SLASH)
    && (forall k | RestAt(i, c) <= k < EndAt(i, c) :: s[k] != NEWLINE)
  }

  /** A greedy engine prefers the longest first repetition, then the longest second one, and so on. */
  predicate Preferred(c: Cuts, d: Cuts) {
    || c.digits > d.digits
    || (c.digits == d.digits
        && (c.word > d.word
            || (c.word == d.word && (c.slash > d.slash || (c.slash == d.slash && c.rest >= d.rest)))))
  }

  function DigitsLen(s: bytes, i: nat): (n: nat)
    requires i <= |s|
    ensures i + n <= |s| && (forall k | i <= k < i + n :: IsDigit(s[k]))
    ensures i + n < |s| ==> !IsDigit(s[i + n])
    decreases |s| - i
  {
    if i == |s| || !IsDigit(s[i]) then 0 else 1 + DigitsLen(s, i + 1)
  }

  function LineLen(s: bytes, i: nat): (n: nat)
    requires i <= |s|
    ensures i + n <= |s| && (forall k | i <= k < i + n :: s[k] != NEWLINE)
    ensures i + n < |s| ==> s[i + n] == NEWLINE
    decreases |s| - i
  {
    if i == |s| || s[i] == NEWLINE then 0 else 1 + LineLen(s, i + 1)
  }

  /** The match at `i`, each part taken as long as it goes. */
  function MatchAt(s: bytes, i: nat): (r: Option<Cuts>)
    ensures r.Some? ==> Way(s, i, r.value)
  {
    if !(i + 1 < |s| && s[i] == SLASH && s[i + 1] == LETTER_V) then None
    else
      var d := DigitsLen(s, i + 2);
      if !(1 <= d <= 4 && s[i + 2] != 48 && i + 2 + d < |s| && s[i + 2 + d] == SLASH) then None
      else
        var w := RunLen(s, i + 3 + d);
        if w == 0 then None
        else
          var slash := if i + 3 + d + w < |s| && s[i + 3 + d + w] == SLASH then 1 else 0;
          Some(Cuts(d, w, slash, LineLen(s, i + 3 + d + w + slash)))
  }

  /** There is a match wherever there is a way to match, and it is the one the engine prefers. */
  lemma MatchAtIsPreferred(s: bytes, i: nat, c: Cuts)
    requires Way(s, i, c)
    ensures MatchAt(s, i).Some? && Preferred(MatchAt(s, i).value, c)
  {
    DigitsAre(s, i + 2, c.digits);
    var w := RunLen(s, WordAt(i, c));
    assert w >= c.word;
    var m := MatchAt(s, i).value;
    assert w == c.word && m.slash == c.slash ==> m.rest >= c.rest;
  }

  lemma {:induction false} DigitsAre(s: bytes, i: nat, n: nat)
    requires i + n <= |s| && (forall k | i <= k < i + n :: IsDigit(s[k])) && (i + n < |s| ==> !IsDigit(s[i + n]))
    ensures DigitsLen(s, i) == n
    decreases n
  {
    if n > 0 { DigitsAre(s, i + 1, n - 1); }
  }

  lemma {:induction false} LineIs(s: bytes, i: nat, n: nat)
    requires i + n <= |s| && (forall k | i <= k < i + n :: s[k] != NEWLINE) && (i + n < |s| ==> s[i + n] == NEWLINE)
    ensures LineLen(s, i) == n
    decreases n
  {
    if n > 0 { LineIs(s, i + 1, n - 1); }
  }

  /** FindAllSubmatch: the successive matches, each with its place. */
  function FindPaths(s: bytes, from: nat): seq<(nat, Cuts)>
    requires from <= |s|
    decreases |s| - from
  {
    if from == |s| then []
    else
      match MatchAt(s, from)
      case Some(c) => [(from, c)] + FindPaths(s, EndAt(from, c))
      case None => FindPaths(s, from + 1)
  }

  /** The next match is the leftmost that there is, cut the preferred way, and the search goes on behind it. */
  lemma {:induction false} FindPathsLeftmost(s: bytes, from: nat)
    requires from <= |s|
    ensures FindPaths(s, from) == [] ==> forall j, c | from <= j :: !Way(s, j, c)
    ensures FindPaths(s, from) != []
            ==> var (i, c) := FindPaths(s, from)[0];
                && from <= i && Way(s, i, c)
                && (forall d | Way(s, i, d) :: Preferred(c, d))
                && (forall j, d | from <= j < i :: !Way(s, j, d))
                && FindPaths(s, from)[1..] == FindPaths(s, EndAt(i, c))
    decreases |s| - from
  {
    hide Way, Preferred, MatchAt, FindPaths;
    FindPathsStep(s, from);
    if from < |s| {
      forall d | Way(s, from, d) ensures MatchAt(s, from).Some? && Preferred(MatchAt(s, from).value, d) {
        MatchAtIsPreferred(s, from, d);
      }
      if MatchAt(s, from).None? {
        FindPathsLeftmost(s, from + 1);
      }
    } else {
      NoWayAtEnd(s);
    }
  }

  lemma FindPathsStep(s: bytes, from: nat)
    requires from <= |s|
    ensures FindPaths(s, from)
         == if from == |s| then []
            else match MatchAt(s, from)
                 case Some(c) => [(from, c)] + FindPaths(s, EndAt(from, c))
                 case None => FindPaths(s, from + 1)
  {
    hide MatchAt;
  }

  lemma NoWayAtEnd(s: bytes)
    ensures forall j, c | |s| <= j :: !Way(s, j, c)
  {
  }

  // ---------------------------------------------------------------- the request's detail

  datatype Detail = Detail(version: nat, service: bytes, user: bytes, rest: bytes)

  const WS: bytes := [SLASH, LETTER_W, LETTER_S]

  /** The path without a leading "/ws". */
  function PathWithKey(path: bytes): bytes {
    if WS <= path then path[3..] else path
  }

  /** strconv.ParseUint with its error dropped. */
  function Version(key: bytes, i: nat, c: Cuts): nat
    requires Way(key, i, c)
  {
    match Value(key[i + 2..i + 2 + c.digits], 10)
    case Some(v) => v
    case None => 0
  }

  function Rest(key: bytes, i: nat, c: Cuts): bytes
    requires Way(key, i, c)
  {
    key[RestAt(i, c)..EndAt(i, c)]
  }

  /** The path part of ExtractRequestDetailFromFasthttpRequest. The names are looked for in the whole path. */
  function ExtractDetail(path: bytes): Option<Detail> {
    var key := PathWithKey(path);
    var ms := FindPaths(key, 0);
    FindPathsLeftmost(key, 0);
    if |ms| != 1 then None
    else
      match ExtractNames(path)
      case None => None
      case Some(names) =>
        var (i, c) := ms[0];
        Some(Detail(Version(key, i, c), names.service, names.user, Rest(key, i, c)))
  }

  lemma DetailNames(path: bytes)
    requires ExtractDetail(path).Some?
    ensures ExtractNames(path) == Some(Names(ExtractDetail(path).value.service, ExtractDetail(path).value.user))
  {
    hide FindPaths, ExtractNames, Version, Rest;
  }

  /** The one match that the pattern has in a text, cut the way the engine prefers. */
  ghost predicate OnlyMatch(s: bytes, i: nat, c: Cuts) {
    && Way(s, i, c)
    && (forall d | Way(s, i, d) :: Preferred(c, d))
    && (forall j: nat, d | j < i || EndAt(i, c) <= j :: !Way(s, j, d))
  }

  lemma PreferredIsOne(c: Cuts, d: Cuts)
    requires Preferred(c, d) && Preferred(d, c)
    ensures c == d
  {
  }

  lemma FoundIsOnly(s: bytes, i: nat, c: Cuts)
    requires FindPaths(s, 0) == [(i, c)]
    ensures OnlyMatch(s, i, c)
  {
    hide FindPaths, Way, Preferred;
    FindPathsLeftmost(s, 0);
    WayIsInside(s, i, c);
    assert [(i, c)][1..] == [];
    FindPathsLeftmost(s, EndAt(i, c));
  }

  lemma NoneBehind(s: bytes, from: nat)
    requires from <= |s| && forall j: nat, d | from <= j :: !Way(s, j, d)
    ensures FindPaths(s, from) == []
  {
    hide FindPaths, Preferred;
    FindPathsLeftmost(s, from);
    var found := FindPaths(s, from);
    var (i, c) := if found == [] then (0, Cuts(0, 0, 0, 0)) else found[0];
  }

  lemma OnlyIsFound(s: bytes, i: nat, c: Cuts)
    requires OnlyMatch(s, i, c)
    ensures FindPaths(s, 0) == [(i, c)]
  {
    hide FindPaths, Way, Preferred;
    FindPathsLeftmost(s, 0);
    var found := FindPaths(s, 0);
    var (i', c') := found[0];
    assert i' == i;
    PreferredIsOne(c, c');
    WayIsInside(s, i, c);
    NoneBehind(s, EndAt(i, c));
    assert found == [found[0]] + found[1..] && found[0] == (i, c);
  }

  /** The engine finds one match exactly when there is one to find. */
  lemma OnePathIff(s: bytes, i: nat, c: Cuts)
    ensures FindPaths(s, 0) == [(i, c)] <==> OnlyMatch(s, i, c)
  {
    hide FindPaths, OnlyMatch;
    if FindPaths(s, 0) == [(i, c)] { FoundIsOnly(s, i, c); }
    if OnlyMatch(s, i, c) { OnlyIsFound(s, i, c); }
  }

  lemma WayIsInside(s: bytes, i: nat, c: Cuts)
    requires Way(s, i, c)
    ensures EndAt(i, c) <= |s|
  {
  }

  /** The parts that a match and a run cut out. */
  ghost predicate CutsOut(path: bytes, key: bytes, i: nat, c: Cuts, j: nat, n: nat, d: Detail) {
    && OnlyMatch(key, i, c) && IsOnlyLongRun(path, j, n)
    && Value(key[i + 2..i + 2 + c.digits], 10) == Some(d.version)
    && d.service == path[j..j + 10] && d.user == path[j + 10..j + n]
    && d.rest == key[RestAt(i, c)..EndAt(i, c)]
  }

  /**
   * For every path: it is understood exactly when the path without a leading "/ws" has one single match
   * of the first pattern, wherever that is, and the whole path one single long run; and then as the parts
   * that the two cut out.
   */
  lemma ExtractDetailIff(path: bytes, d: Detail)
    ensures var key := if [47, 119, 115] <= path then path[3..] else path;
            ExtractDetail(path) == Some(d)
            <==> exists i: nat, c: Cuts, j: nat, n: nat :: CutsOut(path, key, i, c, j, n, d)
  {
    var key := PathWithKey(path);
    if ExtractDetail(path) == Some(d) {
      DetailCutsOut(path, d);
    }
    forall i: nat, c: Cuts, j: nat, n: nat | CutsOut(path, key, i, c, j, n, d) ensures ExtractDetail(path) == Some(d) {
      CutOutIsDetail(path, i, c, j, n, d);
    }
  }

  lemma DetailParts(path: bytes, d: Detail) returns (i: nat, c: Cuts)
    requires ExtractDetail(path) == Some(d)
    ensures var key := PathWithKey(path);
            && FindPaths(key, 0) == [(i, c)] && Way(key, i, c)
            && d.version == Version(key, i, c) && d.rest == Rest(key, i, c)
  {
    hide FindPaths, ExtractNames, PathWithKey, Way, Version, Rest, Preferred;
    var key := PathWithKey(path);
    FindPathsLeftmost(key, 0);
    i, c := FindPaths(key, 0)[0].0, FindPaths(key, 0)[0].1;
  }

  lemma DetailCutsOut(path: bytes, d: Detail)
    requires ExtractDetail(path) == Some(d)
    ensures exists i: nat, c: Cuts, j: nat, n: nat :: CutsOut(path, PathWithKey(path), i, c, j, n, d)
  {
    hide FindPaths, ExtractDetail, ExtractNames, PathWithKey, Way, OnlyMatch;
    var key := PathWithKey(path);
    var i, c := DetailParts(path, d);
    OnePathIff(key, i, c);
    VersionIsValue(key, i, c);
    DetailNames(path);
    ExtractNamesIff(path, Names(d.service, d.user));
    var j: nat, n: nat :| IsOnlyLongRun(path, j, n)
      && Names(d.service, d.user) == Names(path[j..j + ID_LENGTH], path[j + ID_LENGTH..j + n]);
    assert CutsOut(path, key, i, c, j, n, d);
  }

  lemma VersionIsValue(key: bytes, i: nat, c: Cuts)
    requires Way(key, i, c)
    ensures EndAt(i, c) <= |key|
    ensures Value(key[i + 2..i + 2 + c.digits], 10) == Some(Version(key, i, c))
  {
    DigitsAreNumeral(key[i + 2..i + 2 + c.digits]);
  }

  lemma CutOutIsDetail(path: bytes, i: nat, c: Cuts, j: nat, n: nat, d: Detail)
    requires CutsOut(path, PathWithKey(path), i, c, j, n, d)
    ensures ExtractDetail(path) == Some(d)
  {
    var key := PathWithKey(path);
    OnePathIff(key, i, c);
    ExtractNamesIff(path, Names(d.service, d.user));
    hide FindPaths, ExtractNames, IsOnlyLongRun, PathWithKey, Way, OnlyMatch, Preferred;
  }

  // ---------------------------------------------------------------- version numbers

  predicate VersionText(s: bytes) {
    |s| > 0 && s[0] != 48 && forall k | 0 <= k < |s| :: IsDigit(s[k])
  }

  /** Digits without a leading zero are the numeral of their value. */
  lemma {:induction false} DigitsAreNumeral(s: bytes)
    requires VersionText(s)
    ensures Value(s, 10).Some? && 1 <= Value(s, 10).value < Pow(10, |s|)
    ensures Numeral(Value(s, 10).value, 10) == s
  {
    hide Value, Numeral, Pow;
    var n := |s| - 1;
    assert IsDigit(s[n]);
    if n == 0 {
      OneDigit(s[0]);
      assert s == [s[0]];
    } else {
      DigitsAreNumeral(s[..n]);
      OneMoreDigit(s[..n], s[n], Value(s[..n], 10).value);
      PowTen(n);
      assert s == s[..n] + [s[n]];
    }
  }

  lemma OneDigit(c: byte)
    requires 48 < c <= 57
    ensures Value([c], 10) == Some(c - 48) && Numeral(c - 48, 10) == [c] && 1 <= c - 48 < Pow(10, 1)
  {
    assert Pow(10, 1) == 10 * Pow(10, 0);
  }

  lemma OneMoreDigit(s: bytes, c: byte, high: nat)
    requires s != [] && 48 <= c <= 57 && high > 0
    requires Value(s, 10) == Some(high) && Numeral(high, 10) == s
    ensures Value(s + [c], 10) == Some(10 * high + (c - 48))
    ensures Numeral(10 * high + (c - 48), 10) == s + [c]
  {
    hide Value, Numeral;
    assert Digit(c - 48) == c;
    hide Digit;
    ValueSnoc(s, c - 48, 10);
    NumeralSnoc(high, c - 48);
  }

  lemma NumeralSnoc(high: nat, d: nat)
    requires high > 0 && d < 10
    ensures Numeral(10 * high + d, 10) == Numeral(high, 10) + [Digit(d)]
  {
    hide Digit;
    var v := 10 * high + d;
    assert v / 10 == high && v % 10 == d;
  }

  lemma PowTen(k: nat)
    ensures Pow(10, k + 1) == 10 * Pow(10, k)
  {
  }

  lemma {:induction false} NumeralIsVersion(n: nat)
    requires n >= 1
    ensures VersionText(Numeral(n, 10))
    decreases n
  {
    if n >= 10 {
      NumeralIsVersion(n / 10);
    }
  }

  lemma FourDigits(n: nat)
    requires n < 10000
    ensures |Numeral(n, 10)| <= 4
  {
    PowerOfFour();
    NumeralLength(n, 10, 4);
  }

  lemma PowerOfFour()
    ensures Pow(10, 4) == 10000 && Pow(10, 3) == 1000 && Pow(10, 2) == 100 && Pow(10, 1) == 10
  {
    assert Pow(10, 0) == 1;
    assert Pow(10, 1) == 10 * Pow(10, 0);
    assert Pow(10, 2) == 10 * Pow(10, 1);
    assert Pow(10, 3) == 10 * Pow(10, 2);
  }

  // ---------------------------------------------------------------- putting a path together

  /** "/v{n}/{seg}" */
  function Head(n: nat, seg: bytes): bytes {
    [SLASH, LETTER_V] + Numeral(n, 10) + [SLASH] + seg
  }

  function Lead(ws: bool): bytes {
    if ws then WS else []
  }

  /** What follows the segment, without the one slash that the pattern drops. */
  function AfterSlash(tail: bytes): bytes {
    if tail != [] && tail[0] == SLASH then tail[1..] else tail
  }

  predicate EndsSegment(tail: bytes) {
    tail == [] || !WordChar(tail[0])
  }

  function HeadCuts(n: nat, seg: bytes, tail: bytes): Cuts {
    Cuts(|Numeral(n, 10)|, |seg|, |tail| - |AfterSlash(tail)|, |AfterSlash(tail)|)
  }

  /** Where the parts of such a path stand. */
  predicate Layout(key: bytes, num: bytes, seg: bytes, tail: bytes) {
    && |key| == 3 + |num| + |seg| + |tail|
    && key[0] == SLASH && key[1] == LETTER_V && key[2 + |num|] == SLASH
    && (forall k | 2 <= k < 2 + |num| :: key[k] == num[k - 2])
    && (forall k | 3 + |num| <= k < 3 + |num| + |seg| :: key[k] == seg[k - 3 - |num|])
    && (forall k | 3 + |num| + |seg| <= k < |key| :: key[k] == tail[k - 3 - |num| - |seg|])
  }

  lemma HeadLayout(n: nat, seg: bytes, tail: bytes)
    ensures Layout(Head(n, seg) + tail, Numeral(n, 10), seg, tail)
  {
    hide Numeral;
  }

  lemma LayoutMatches(key: bytes, num: bytes, seg: bytes, tail: bytes, c: Cuts)
    requires Layout(key, num, seg, tail) && VersionText(num) && |num| <= 4
    requires AllWord(seg) && seg != [] && EndsSegment(tail) && Free(tail, NEWLINE)
    requires c == Cuts(|num|, |seg|, |tail| - |AfterSlash(tail)|, |AfterSlash(tail)|)
    ensures Way(key, 0, c) && EndAt(0, c) == |key| && MatchAt(key, 0) == Some(c)
  {
    LayoutIsWay(key, num, seg, tail, c);
    assert SlashAt(0, c) < |key| ==> key[SlashAt(0, c)] == tail[0];
    LongestWay(key, c);
  }

  /** A way that leaves nothing over for any repetition is the match. */
  lemma LongestWay(key: bytes, c: Cuts)
    requires Way(key, 0, c) && EndAt(0, c) == |key|
    requires SlashAt(0, c) < |key| ==> !WordChar(key[SlashAt(0, c)]) && (key[SlashAt(0, c)] == SLASH ==> c.slash == 1)
    ensures MatchAt(key, 0) == Some(c)
  {
    hide DigitsLen, RunLen, LineLen, WordChar;
    DigitsAre(key, 2, c.digits);
    RunLenIs(key, WordAt(0, c), c.word);
    LineIs(key, RestAt(0, c), c.rest);
  }

  lemma LayoutIsWay(key: bytes, num: bytes, seg: bytes, tail: bytes, c: Cuts)
    requires Layout(key, num, seg, tail) && VersionText(num) && |num| <= 4
    requires AllWord(seg) && seg != [] && Free(tail, NEWLINE)
    requires c == Cuts(|num|, |seg|, |tail| - |AfterSlash(tail)|, |AfterSlash(tail)|)
    ensures Way(key, 0, c) && EndAt(0, c) == |key|
  {
    assert key[2] == num[0];
    forall k | 2 <= k < 2 + c.digits ensures IsDigit(key[k]) {
      assert IsDigit(num[k - 2]);
    }
    forall k | WordAt(0, c) <= k < SlashAt(0, c) ensures WordChar(key[k]) {
      assert WordChar(seg[k - 3 - |num|]);
    }
    forall k | RestAt(0, c) <= k < EndAt(0, c) ensures key[k] != NEWLINE {
      assert tail[k - 3 - |num| - |seg|] != NEWLINE;
    }
  }

  /** What the match spells out. */
  lemma LayoutSpells(key: bytes, num: bytes, seg: bytes, tail: bytes, c: Cuts)
    requires Layout(key, num, seg, tail) && Way(key, 0, c)
    requires c == Cuts(|num|, |seg|, |tail| - |AfterSlash(tail)|, |AfterSlash(tail)|)
    ensures key[2..2 + c.digits] == num && Rest(key, 0, c) == AfterSlash(tail)
  {
    hide Way;
  }

  lemma HeadIsWay(n: nat, seg: bytes, tail: bytes)
    requires 1 <= n < 10000 && AllWord(seg) && seg != [] && EndsSegment(tail) && Free(tail, NEWLINE)
    ensures var key, c := Head(n, seg) + tail, HeadCuts(n, seg, tail);
            && MatchAt(key, 0) == Some(c)
            && Way(key, 0, c) && EndAt(0, c) == |key|
            && Version(key, 0, c) == n && Rest(key, 0, c) == AfterSlash(tail)
  {
    hide Numeral, Value, Layout, Way, MatchAt, Head, AllWord, EndsSegment, Free, VersionText, Rest, AfterSlash, EndAt;
    var num, key, c := Numeral(n, 10), Head(n, seg) + tail, HeadCuts(n, seg, tail);
    NumeralIsVersion(n);
    FourDigits(n);
    NumeralRoundTrip(n, 10);
    HeadLayout(n, seg, tail);
    LayoutMatches(key, num, seg, tail, c);
    LayoutSpells(key, num, seg, tail, c);
  }

  /** The only match of such a path is the whole of it. */
  lemma OneWholeMatch(n: nat, seg: bytes, tail: bytes)
    requires 1 <= n < 10000 && AllWord(seg) && seg != [] && EndsSegment(tail) && Free(tail, NEWLINE)
    ensures var key := Head(n, seg) + tail; FindPaths(key, 0) == [(0, HeadCuts(n, seg, tail))]
  {
    HeadIsWay(n, seg, tail);
    var key := Head(n, seg) + tail;
    assert FindPaths(key, |key|) == [];
  }

  lemma LeadComesOff(ws: bool, n: nat, seg: bytes, tail: bytes)
    ensures PathWithKey(Lead(ws) + Head(n, seg) + tail) == Head(n, seg) + tail
  {
    var path := Lead(ws) + Head(n, seg) + tail;
    assert path == Lead(ws) + (Head(n, seg) + tail);
    if ws {
      assert WS <= path;
    } else {
      assert path[1] == LETTER_V;
    }
  }

  lemma RunsOfJoined(a: bytes, b: bytes)
    ensures LongRuns(a + [SLASH] + b) == LongRuns(a) + LongRuns(b)
  {
    hide LongRuns;
    assert a + [SLASH] + b == a + ([SLASH] + b);
    RunsOfParts(a, [SLASH] + b);
    RunsAfter(SLASH, b);
  }

  lemma HeadIsJoined(ws: bool, n: nat, seg: bytes)
    ensures Lead(ws) + Head(n, seg) == Lead(ws) + [SLASH] + ([LETTER_V] + Numeral(n, 10)) + [SLASH] + seg
  {
    hide Numeral, Lead;
  }

  lemma RunsOfLead(ws: bool)
    ensures LongRuns(Lead(ws)) == []
  {
    hide LongRuns;
    RunsOfNothing();
    if ws {
      RunsOfWord([LETTER_W, LETTER_S]);
      RunsAfter(SLASH, [LETTER_W, LETTER_S]);
      assert Lead(ws) == [SLASH] + [LETTER_W, LETTER_S];
    }
  }

  lemma RunsOfVersion(n: nat)
    requires 1 <= n < 10000
    ensures LongRuns([LETTER_V] + Numeral(n, 10)) == []
  {
    hide LongRuns, Numeral;
    NumeralIsVersion(n);
    FourDigits(n);
    assert forall k | 0 <= k < |Numeral(n, 10)| :: IsDigit(Numeral(n, 10)[k]);
    RunsOfWord([LETTER_V] + Numeral(n, 10));
  }

  lemma RunsOfTail(tail: bytes)
    ensures LongRuns(tail) == LongRuns(AfterSlash(tail))
  {
    hide LongRuns;
    if tail != [] && tail[0] == SLASH {
      assert tail == [SLASH] + tail[1..];
      RunsAfter(SLASH, tail[1..]);
    }
  }

  /** The long runs of such a path: the segment when it is long, and those behind it. */
  lemma RunsOfPath(ws: bool, n: nat, seg: bytes, tail: bytes)
    requires 1 <= n < 10000 && AllWord(seg) && EndsSegment(tail)
    ensures LongRuns(Lead(ws) + Head(n, seg) + tail)
         == (if |seg| >= SHORTEST then [seg] else []) + LongRuns(AfterSlash(tail))
  {
    hide LongRuns, Numeral, Lead, Head, AllWord, AfterSlash;
    var v := [LETTER_V] + Numeral(n, 10);
    HeadIsJoined(ws, n, seg);
    RunsOfParts(Lead(ws) + Head(n, seg), tail);
    RunsOfJoined(Lead(ws) + [SLASH] + v, seg);
    RunsOfJoined(Lead(ws), v);
    RunsOfLead(ws);
    RunsOfVersion(n);
    RunsOfWord(seg);
    RunsOfTail(tail);
  }

  /** A path of the documented shape is understood from its one long run, wherever that is. */
  lemma DetailOfPath(ws: bool, n: nat, seg: bytes, tail: bytes)
    requires 1 <= n < 10000 && AllWord(seg) && seg != [] && EndsSegment(tail) && Free(tail, NEWLINE)
    ensures var path, rest := Lead(ws) + Head(n, seg) + tail, AfterSlash(tail);
            var runs := (if |seg| >= SHORTEST then [seg] else []) + LongRuns(rest);
            && (|runs| != 1 ==> ExtractDetail(path) == None)
            && (|runs| == 1 ==>
                  |runs[0]| >= SHORTEST
                  && ExtractDetail(path) == Some(Detail(n, runs[0][..ID_LENGTH], runs[0][ID_LENGTH..], rest)))
  {
    LeadComesOff(ws, n, seg, tail);
    OneWholeMatch(n, seg, tail);
    HeadIsWay(n, seg, tail);
    RunsOfPath(ws, n, seg, tail);
    NamesOfRuns(Lead(ws) + Head(n, seg) + tail);
    hide LongRuns, ExtractNames, FindPaths, Way, Version, Rest, Head, PathWithKey, AllWord, MatchAt;
  }

  /**
   * Round trip: "/v{n}/{id}{user}/{rest}", with or without "/ws" in front, gives back its parts if and
   * only if no text of eleven or more word characters stands in the rest.
   */
  lemma PathRoundTripIff(ws: bool, n: nat, id: bytes, user: bytes, rest: bytes)
    requires 1 <= n < 10000 && |id| == 10 && user != [] && AllWord(id + user) && Free(rest, 10)
    ensures ExtractDetail(Lead(ws) + Head(n, id + user) + [SLASH] + rest) == Some(Detail(n, id, user, rest))
       <==> LongRuns(rest) == []
  {
    hide LongRuns, ExtractDetail, Head;
    var seg, tail := id + user, [SLASH] + rest;
    assert AfterSlash(tail) == rest;
    assert Lead(ws) + Head(n, seg) + [SLASH] + rest == Lead(ws) + Head(n, seg) + tail;
    DetailOfPath(ws, n, seg, tail);
    assert seg[..ID_LENGTH] == id && seg[ID_LENGTH..] == user;
  }

  /** A segment too short for id and user is skipped: service and user are then read from the rest. */
  lemma ShortSegmentIsSkipped(ws: bool, n: nat, seg: bytes, rest: bytes)
    requires 1 <= n < 10000 && AllWord(seg) && 0 < |seg| < SHORTEST && Free(rest, NEWLINE)
    ensures ExtractDetail(Lead(ws) + Head(n, seg) + [SLASH] + rest)
         == match ExtractNames(rest)
            case None => None
            case Some(names) => Some(Detail(n, names.service, names.user, rest))
  {
    hide LongRuns, ExtractDetail, Head, ExtractNames;
    var tail := [SLASH] + rest;
    assert AfterSlash(tail) == rest;
    assert Lead(ws) + Head(n, seg) + [SLASH] + rest == Lead(ws) + Head(n, seg) + tail;
    DetailOfPath(ws, n, seg, tail);
    NamesOfRuns(rest);
  }

  const TESTKEY: bytes := [116, 101, 115, 116, 107, 101, 121]
  const APRONSERVI: bytes := [97, 112, 114, 111, 110, 115, 101, 114, 118, 105]
  const CETEST: bytes := [99, 101, 116, 101, 115, 116]

  /** "/v1/testkey/apronservicetest": the user is not testkey but the end of the rest. */
  lemma TestPathNamesNoTestkey()
    ensures ExtractDetail([47, 118, 49, 47] + TESTKEY + [47] + (APRONSERVI + CETEST))
         == Some(Detail(1, APRONSERVI, CETEST, APRONSERVI + CETEST))
  {
    assert Numeral(1, 10) == [49];
    assert Lead(false) + Head(1, TESTKEY) + [SLASH] + (APRONSERVI + CETEST)
        == [47, 118, 49, 47] + TESTKEY + [47] + (APRONSERVI + CETEST);
    hide ExtractDetail, Head, ExtractNames, LongRuns;
    var rest := APRONSERVI + CETEST;
    assert AllWord(TESTKEY);
    assert AllWord(APRONSERVI) && AllWord(CETEST);
    assert AllWord(rest);
    assert forall i | 0 <= i < |rest| :: rest[i] != NEWLINE;
    ShortSegmentIsSkipped(false, 1, TESTKEY, rest);
    RunsOfWord(rest);
    NamesOfRuns(rest);
    assert rest[..ID_LENGTH] == APRONSERVI && rest[ID_LENGTH..] == CETEST;
  }

  // ---------------------------------------------------------------- whatever is accepted

  ghost predicate Spells(key: bytes, i: nat, d: Detail, seg: bytes, slash: bytes) {
    var text := Head(d.version, seg) + slash + d.rest;
    && i + |text| <= |key| && key[i..i + |text|] == text
    && (i + |text| < |key| ==> key[i + |text|] == NEWLINE)
  }

  ghost predicate SpellsOut(key: bytes, d: Detail) {
    exists i, seg, slash | Spells(key, i, d, seg, slash) ::
      seg != [] && AllWord(seg) && (slash == [] || slash == [SLASH])
  }

  /** An accepted path holds, on one line, a version from 1 to 9999, a segment and the rest. */
  lemma AcceptedPathSpells(path: bytes)
    requires ExtractDetail(path).Some?
    ensures var d := ExtractDetail(path).value;
            1 <= d.version < 10000 && Free(d.rest, 10) && SpellsOut(PathWithKey(path), d)
  {
    hide Version, Rest, Way, ExtractNames, Spells, SpellsOut, PathWithKey, Free, Preferred;
    var key, d := PathWithKey(path), ExtractDetail(path).value;
    FindPathsLeftmost(key, 0);
    FirstIsMatch(key, 0);
    hide FindPaths;
    var (i, c) := FindPaths(key, 0)[0];
    MatchSpells(key, i, c, d);
  }

  lemma {:induction false} FirstIsMatch(key: bytes, from: nat)
    requires from <= |key| && FindPaths(key, from) != []
    ensures var (i, c) := FindPaths(key, from)[0]; MatchAt(key, i) == Some(c)
    decreases |key| - from
  {
    hide MatchAt;
    if MatchAt(key, from).None? { FirstIsMatch(key, from + 1); }
  }

  lemma MatchSpells(key: bytes, i: nat, c: Cuts, d: Detail)
    requires MatchAt(key, i) == Some(c) && d.version == Version(key, i, c) && d.rest == Rest(key, i, c)
    ensures 1 <= d.version < 10000 && Free(d.rest, NEWLINE) && SpellsOut(key, d)
  {
    hide MatchAt, Numeral, Value, Head;
    VersionSpelled(key, i, c);
    var seg := key[WordAt(i, c)..SlashAt(i, c)];
    var slash := key[SlashAt(i, c)..RestAt(i, c)];
    assert EndAt(i, c) < |key| ==> key[EndAt(i, c)] == NEWLINE by {
      if EndAt(i, c) < |key| { MatchEndsLine(key, i, c); }
    }
    PiecesSpell(key, i, c, d, seg, slash);
    assert Spells(key, i, d, seg, slash);
    assert AllWord(seg);
    if c.slash == 1 { assert slash == [SLASH]; }
  }

  lemma MatchEndsLine(key: bytes, i: nat, c: Cuts)
    requires MatchAt(key, i) == Some(c) && EndAt(i, c) < |key|
    ensures key[EndAt(i, c)] == NEWLINE
  {
  }

  lemma PiecesSpell(key: bytes, i: nat, c: Cuts, d: Detail, seg: bytes, slash: bytes)
    requires Way(key, i, c) && Numeral(d.version, 10) == key[i + 2..i + 2 + c.digits] && d.rest == Rest(key, i, c)
    requires seg == key[WordAt(i, c)..SlashAt(i, c)] && slash == key[SlashAt(i, c)..RestAt(i, c)]
    ensures key[i..EndAt(i, c)] == Head(d.version, seg) + slash + d.rest
  {
    assert key[i] == SLASH && key[i + 1] == LETTER_V && key[i + 2 + c.digits] == SLASH && EndAt(i, c) <= |key|;
    hide Way, Numeral;
    var at := i + 2 + c.digits;
    assert key[i..i + 2] == [SLASH, LETTER_V];
    assert key[at..at + 1] == [SLASH];
    JoinSlices(key, i, i + 2, at);
    JoinSlices(key, i, at, at + 1);
    JoinSlices(key, i, at + 1, SlashAt(i, c));
    JoinSlices(key, i, SlashAt(i, c), RestAt(i, c));
    JoinSlices(key, i, RestAt(i, c), EndAt(i, c));
  }

  lemma JoinSlices(s: bytes, i: nat, j: nat, k: nat)
    requires i <= j <= k <= |s|
    ensures s[i..j] + s[j..k] == s[i..k]
  {
  }

  lemma VersionSpelled(key: bytes, i: nat, c: Cuts)
    requires Way(key, i, c)
    ensures 1 <= Version(key, i, c) < 10000
    ensures Numeral(Version(key, i, c), 10) == key[i + 2..i + 2 + c.digits]
  {
    DigitsAreNumeral(key[i + 2..i + 2 + c.digits]);
    VersionBound(c.digits);
  }

  lemma VersionBound(k: nat)
    requires 1 <= k <= 4
    ensures Pow(10, k) <= 10000
  {
    PowerOfFour();
  }

  // ---------------------------------------------------------------- the method

  class RequestDetail {
    var path: bytes
    var version: nat
    var serviceName: bytes
    var userKey: bytes
    var proxyRequestPath: bytes

    constructor ()
      ensures version == 0 && path == [] && serviceName == [] && userKey == [] && proxyRequestPath == []
    {
      path, version, serviceName, userKey, proxyRequestPath := [], 0, [], [], [];
    }

    /** False is the error "invalid path format", which can come after some fields are set. */
    method Extract(requestPath: bytes) returns (ok: bool)
      modifies this
      ensures ok <==> ExtractDetail(requestPath).Some?
      ensures path == requestPath
      ensures ok ==> Detail(version, serviceName, userKey, proxyRequestPath) == ExtractDetail(requestPath).value
      ensures !ok ==> proxyRequestPath == old(proxyRequestPath)
      ensures !ok && ExtractNames(requestPath).None? && |FindPaths(PathWithKey(requestPath), 0)| == 1
              ==> 1 <= version < 10000 && serviceName == [] && userKey == []
      ensures |FindPaths(PathWithKey(requestPath), 0)| != 1
              ==> !ok && version == old(version) && serviceName == old(serviceName) && userKey == old(userKey)
    {
      hide MatchAt, FindPaths, ExtractNames;
      path := requestPath;
      var pathWithKey := path;
      if WS <= path {
        pathWithKey := pathWithKey[3..];
      }
      var pathMatchResult := FindPaths(pathWithKey, 0);
      FindPathsLeftmost(pathWithKey, 0);
      if |pathMatchResult| != 1 {
        return false;
      }
      var (i, c) := pathMatchResult[0];
      version := Version(pathWithKey, i, c);
      VersionSpelled(pathWithKey, i, c);
      match ExtractNames(path)
      case None =>
        serviceName, userKey := [], [];
        return false;
      case Some(names) =>
        serviceName, userKey := names.service, names.user;
        proxyRequestPath := Rest(pathWithKey, i, c);
        return true;
    }
  }
}
