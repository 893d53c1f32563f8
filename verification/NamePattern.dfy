/**
 * The pattern that finds a service id and a user key in a path: what the regular expression engine
 * promises, the same matches as maximal runs, and the runs of a path put together from parts.
 */
module NamePattern {
  import opened Bytes

  /** [\w-] */
  predicate WordChar(c: byte) {
    48 <= c <= 57 || 65 <= c <= 90 || 97 <= c <= 122 || c == 95 || c == 45
  }

  /** Digits, letters, the underscore and the dash, and none of their neighbours. */
  lemma WordCharBounds(c: byte)
    ensures c in {45, 48, 57, 65, 90, 95, 97, 122} ==> WordChar(c)
    ensures c in {44, 46, 47, 58, 64, 91, 94, 96, 123} || c >= 128 ==> !WordChar(c)
  {
  }

  predicate AllWord(s: bytes) {
    forall i | 0 <= i < |s| :: WordChar(s[i])
  }

  // ---------------------------------------------------------------- ([\w-]{10})([\w-]+)

  /** Number of word characters from `i` on. */
  function RunLen(s: bytes, i: nat): (n: nat)
    requires i <= |s|
    ensures i + n <= |s| && (forall k | i <= k < i + n :: WordChar(s[k]))
    ensures i + n < |s| ==> !WordChar(s[i + n])
    decreases |s| - i
  {
    if i == |s| || !WordChar(s[i]) then 0 else 1 + RunLen(s, i + 1)
  }

  /** Shortest text the pattern matches. */
  const SHORTEST: nat := 11
  const ID_LENGTH: nat := 10

  /** The pattern can match `n` characters at `i`. */
  predicate CanMatch(s: bytes, i: nat, n: nat) {
    n >= SHORTEST && i + n <= |s| && forall k | i <= k < i + n :: WordChar(s[k])
  }

  /** FindAllSubmatch: start and length of the successive leftmost, longest matches. */
  function FindAll(s: bytes, from: nat): seq<(nat, nat)>
    requires from <= |s|
    decreases |s| - from
  {
    if from == |s| then []
    else
      var n := RunLen(s, from);
      if n >= SHORTEST then [(from, n)] + FindAll(s, from + n) else FindAll(s, from + 1)
  }

  /** What the regular expression engine promises of its next match. */
  predicate LeftmostLongest(s: bytes, from: nat, i: nat, n: nat) {
    && from <= i && CanMatch(s, i, n)
    && (forall j, m | from <= j < i && 0 <= m <= |s| :: !CanMatch(s, j, m))
    && (forall m | n < m <= |s| :: !CanMatch(s, i, m))
  }

  lemma {:induction false} FindAllLeftmostLongest(s: bytes, from: nat)
    requires from <= |s|
    ensures FindAll(s, from) == []
            ==> forall j, m | from <= j <= |s| && 0 <= m <= |s| :: !CanMatch(s, j, m)
    ensures FindAll(s, from) != []
            ==> var (i, n) := FindAll(s, from)[0];
                LeftmostLongest(s, from, i, n) && FindAll(s, from)[1..] == FindAll(s, i + n)
    decreases |s| - from
  {
    hide FindAll, RunLen, CanMatch;
    FindAllStep(s, from);
    if from == |s| {
      NoMatchAtEnd(s);
    } else if RunLen(s, from) < SHORTEST {
      FindAllLeftmostLongest(s, from + 1);
      NoMatchInShortRun(s, from);
    } else {
      LongestInRun(s, from);
    }
  }

  lemma NoMatchAtEnd(s: bytes)
    ensures forall m | 0 <= m <= |s| :: !CanMatch(s, |s|, m)
  {
  }

  lemma LongestInRun(s: bytes, i: nat)
    requires i < |s| && RunLen(s, i) >= SHORTEST
    ensures CanMatch(s, i, RunLen(s, i)) && forall m | RunLen(s, i) < m <= |s| :: !CanMatch(s, i, m)
  {
    hide WordChar;
    var n := RunLen(s, i);
    forall m | n < m <= |s| && i + m <= |s| ensures !CanMatch(s, i, m) {
      assert !WordChar(s[i + n]);
    }
  }

  lemma NoMatchInShortRun(s: bytes, i: nat)
    requires i < |s| && RunLen(s, i) < SHORTEST
    ensures forall m | 0 <= m <= |s| :: !CanMatch(s, i, m)
  {
  }

  /** A run of word characters that cannot be extended, in the part of `s` from `from` on. */
  predicate MaximalRun(s: bytes, from: nat, i: nat, n: nat) {
    && from <= i && i + n <= |s| && (forall k | i <= k < i + n :: WordChar(s[k]))
    && (i + n < |s| ==> !WordChar(s[i + n]))
    && (i > from ==> !WordChar(s[i - 1]))
  }

  /** The matches are exactly the maximal runs of at least eleven word characters. */
  lemma {:induction false} MatchesAreLongRuns(s: bytes, from: nat, i: nat, n: nat)
    requires from <= |s|
    ensures (i, n) in FindAll(s, from) <==> n >= SHORTEST && MaximalRun(s, from, i, n)
    decreases |s| - from
  {
    hide MaximalRun, RunLen, FindAll;
    FindAllStep(s, from);
    if from == |s| {
      if n >= SHORTEST { NoRunAtEnd(s, i, n); }
    } else {
      var len := RunLen(s, from);
      if len >= SHORTEST {
        MatchesAreLongRuns(s, from + len, i, n);
        if n >= SHORTEST { LongRunFirst(s, from, i, n); }
      } else {
        MatchesAreLongRuns(s, from + 1, i, n);
        if n >= SHORTEST { ShortRunFirst(s, from, i, n); }
      }
    }
  }

  lemma FindAllStep(s: bytes, from: nat)
    requires from <= |s|
    ensures from == |s| ==> FindAll(s, from) == []
    ensures from < |s| ==>
              var n := RunLen(s, from);
              FindAll(s, from)
              == if n >= SHORTEST then [(from, n)] + FindAll(s, from + n) else FindAll(s, from + 1)
  {
  }

  lemma NoRunAtEnd(s: bytes, i: nat, n: nat)
    requires n >= SHORTEST
    ensures !MaximalRun(s, |s|, i, n)
  {
  }

  lemma LongRunFirst(s: bytes, from: nat, i: nat, n: nat)
    requires from < |s| && RunLen(s, from) >= SHORTEST && n >= SHORTEST
    ensures var len := RunLen(s, from);
            MaximalRun(s, from, i, n)
            <==> (i == from && n == len) || MaximalRun(s, from + len, i, n)
  {
    var len := RunLen(s, from);
    if MaximalRun(s, from, i, n) {
      if i == from {
        assert n == len;
      } else {
        assert i > from + len;
      }
    }
    assert MaximalRun(s, from + len, i, n) ==> i > from + len;
  }

  lemma ShortRunFirst(s: bytes, from: nat, i: nat, n: nat)
    requires from < |s| && RunLen(s, from) < SHORTEST && n >= SHORTEST
    ensures MaximalRun(s, from, i, n) <==> MaximalRun(s, from + 1, i, n)
  {
    var len := RunLen(s, from);
    assert MaximalRun(s, from, i, n) ==> i > from;
    assert MaximalRun(s, from + 1, i, n) && i == from + 1 ==> !WordChar(s[from]);
  }

  /** A single pass over the text that remembers where the current run began. */
  function Scan(s: bytes, start: nat, i: nat): seq<(nat, nat)>
    requires start <= i <= |s|
    decreases |s| - i
  {
    var run := if i - start >= SHORTEST then [(start, i - start)] else [];
    if i == |s| then run
    else if WordChar(s[i]) then Scan(s, start, i + 1)
    else run + Scan(s, i + 1, i + 1)
  }

  /** The single pass finds the same matches. */
  lemma {:induction false} ScanFindsAll(s: bytes, start: nat, i: nat)
    requires start <= i <= |s| && forall k | start <= k < i :: WordChar(s[k])
    ensures Scan(s, start, i) == FindAll(s, start)
    decreases |s| - i
  {
    hide FindAll;
    if i == |s| || !WordChar(s[i]) {
      RunLenIs(s, start, i - start);
      RunLenIs(s, i, 0);
      hide RunLen;
      FindAllStep(s, start);
      FindAllStep(s, i);
      if i - start < SHORTEST {
        SkipShortRun(s, start, i);
      }
      if i < |s| {
        ScanFindsAll(s, i + 1, i + 1);
      }
    } else {
      ScanFindsAll(s, start, i + 1);
    }
  }

  lemma {:induction false} RunLenIs(s: bytes, i: nat, n: nat)
    requires i + n <= |s| && (forall k | i <= k < i + n :: WordChar(s[k])) && (i + n < |s| ==> !WordChar(s[i + n]))
    ensures RunLen(s, i) == n
    decreases n
  {
    if n > 0 {
      RunLenIs(s, i + 1, n - 1);
    }
  }

  lemma {:induction false} SkipShortRun(s: bytes, start: nat, i: nat)
    requires start <= i <= |s| && i - start < SHORTEST
    requires (forall k | start <= k < i :: WordChar(s[k])) && (i < |s| ==> !WordChar(s[i]))
    ensures FindAll(s, start) == FindAll(s, i)
    decreases i - start
  {
    if start < i {
      RunLenIs(s, start, i - start);
      SkipShortRun(s, start + 1, i);
    }
  }

  // ---------------------------------------------------------------- the two names

  datatype Names = Names(service: bytes, user: bytes)

  /** ExtractServiceIdAndUserKey */
  function ExtractNames(path: bytes): (r: Option<Names>)
    ensures r.Some? ==> |r.value.service| == ID_LENGTH && |r.value.user| > 0
  {
    var ms := FindAll(path, 0);
    if |ms| == 1 then
      FindAllLeftmostLongest(path, 0);
      var (i, n) := ms[0];
      Some(Names(path[i..i + ID_LENGTH], path[i + ID_LENGTH..i + n]))
    else None
  }

  ghost predicate IsOnlyLongRun(s: bytes, i: nat, n: nat) {
    && n >= SHORTEST && MaximalRun(s, 0, i, n)
    && forall j: nat, m: nat | m >= SHORTEST && MaximalRun(s, 0, j, m) :: j == i && m == n
  }

  lemma {:induction false} MatchesDistinct(s: bytes, from: nat)
    requires from <= |s|
    ensures forall a | 0 <= a < |FindAll(s, from)| :: FindAll(s, from)[a].0 >= from
    ensures forall a, b | 0 <= a < b < |FindAll(s, from)| :: FindAll(s, from)[a].0 < FindAll(s, from)[b].0
    decreases |s| - from
  {
    if from < |s| {
      var n := RunLen(s, from);
      MatchesDistinct(s, if n >= SHORTEST then from + n else from + 1);
    }
  }

  /** Exactly one match is exactly one long run. */
  lemma OneMatchIff(path: bytes, i: nat, n: nat)
    ensures FindAll(path, 0) == [(i, n)] <==> IsOnlyLongRun(path, i, n)
  {
    hide FindAll, MaximalRun;
    var ms := FindAll(path, 0);
    forall j: nat, m: nat ensures (j, m) in ms <==> m >= SHORTEST && MaximalRun(path, 0, j, m) {
      MatchesAreLongRuns(path, 0, j, m);
    }
    MatchesDistinct(path, 0);
    if IsOnlyLongRun(path, i, n) {
      assert (i, n) in ms;
      assert ms[0] in ms && ms[|ms| - 1] in ms;
    }
  }

  /** Names are found exactly when the path has one single long run, and they are its two parts. */
  lemma ExtractNamesIff(path: bytes, r: Names)
    ensures ExtractNames(path) == Some(r)
       <==> exists i: nat, n: nat | IsOnlyLongRun(path, i, n) ::
              r == Names(path[i..i + ID_LENGTH], path[i + ID_LENGTH..i + n])
  {
    hide FindAll;
    if ExtractNames(path) == Some(r) {
      var (i, n) := FindAll(path, 0)[0];
      assert FindAll(path, 0) == [(i, n)];
      OneMatchIff(path, i, n);
    }
    forall i: nat, n: nat | IsOnlyLongRun(path, i, n) ensures FindAll(path, 0) == [(i, n)] {
      OneMatchIff(path, i, n);
    }
  }

  lemma NamesAreWords(path: bytes)
    requires ExtractNames(path).Some?
    ensures AllWord(ExtractNames(path).value.service) && AllWord(ExtractNames(path).value.user)
  {
    FindAllLeftmostLongest(path, 0);
    hide FindAll, WordChar;
    var (i, n) := FindAll(path, 0)[0];
    assert CanMatch(path, i, n);
  }

  // ---------------------------------------------------------------- paths put together from parts

  /** The texts of the matches. */
  function LongRuns(s: bytes): seq<bytes> {
    if s == [] then []
    else
      var n := RunLen(s, 0);
      if n >= SHORTEST then [s[..n]] + LongRuns(s[n..]) else LongRuns(s[1..])
  }

  predicate AreTexts(texts: seq<bytes>, s: bytes, ms: seq<(nat, nat)>) {
    && |texts| == |ms|
    && forall k | 0 <= k < |ms| ::
         ms[k].0 + ms[k].1 <= |s| && texts[k] == s[ms[k].0..ms[k].0 + ms[k].1]
  }

  lemma {:induction false} RunLenOfRest(s: bytes, from: nat)
    requires from <= |s|
    ensures RunLen(s[from..], 0) == RunLen(s, from)
  {
    RunLenIs(s[from..], 0, RunLen(s, from));
  }

  lemma TextsNext(texts: seq<bytes>, s: bytes, ms: seq<(nat, nat)>, i: nat, n: nat)
    requires AreTexts(texts, s, ms) && i + n <= |s|
    ensures AreTexts([s[i..i + n]] + texts, s, [(i, n)] + ms)
  {
  }

  lemma NoTexts(s: bytes)
    ensures AreTexts([], s, [])
  {
  }

  lemma {:induction false} LongRunsAreMatches(s: bytes, from: nat)
    requires from <= |s|
    ensures AreTexts(LongRuns(s[from..]), s, FindAll(s, from))
    decreases |s| - from
  {
    hide LongRuns, FindAll, RunLen, AreTexts, WordChar;
    FindAllStep(s, from);
    if from == |s| {
      RunsOfNothing();
      NoTexts(s);
    } else {
      RunLenOfRest(s, from);
      var n := RunLen(s, from);
      LongRunsStep(s[from..], n);
      if n >= SHORTEST {
        LongRunsAreMatches(s, from + n);
        assert s[from..][n..] == s[from + n..];
        assert s[from..][..n] == s[from..from + n];
        TextsNext(LongRuns(s[from + n..]), s, FindAll(s, from + n), from, n);
      } else {
        LongRunsAreMatches(s, from + 1);
        assert s[from..][1..] == s[from + 1..];
      }
    }
  }

  /** The names found in a path, from the texts of its long runs. */
  lemma NamesOfRuns(path: bytes)
    ensures var runs := LongRuns(path);
            |runs| == 1
            ==> |runs[0]| >= SHORTEST
                && ExtractNames(path) == Some(Names(runs[0][..ID_LENGTH], runs[0][ID_LENGTH..]))
    ensures |LongRuns(path)| != 1 ==> ExtractNames(path) == None
  {
    hide LongRuns, FindAll, ExtractNames;
    LongRunsAreMatches(path, 0);
    assert path[0..] == path;
    OneMatchNames(path);
  }

  lemma OneMatchNames(path: bytes)
    ensures var ms := FindAll(path, 0);
            && (|ms| != 1 ==> ExtractNames(path) == None)
            && (|ms| == 1 ==>
                  var (i, n) := ms[0];
                  && SHORTEST <= n && i + n <= |path|
                  && var text := path[i..i + n];
                     ExtractNames(path) == Some(Names(text[..ID_LENGTH], text[ID_LENGTH..])))
  {
    FindAllLeftmostLongest(path, 0);
    hide FindAll, RunLen, WordChar;
    var ms := FindAll(path, 0);
    if |ms| == 1 {
      var (i, n) := ms[0];
      assert path[i..i + n][..ID_LENGTH] == path[i..i + ID_LENGTH];
      assert path[i..i + n][ID_LENGTH..] == path[i + ID_LENGTH..i + n];
    }
  }

  lemma LongRunsStep(s: bytes, n: nat)
    requires s != [] && RunLen(s, 0) == n
    ensures LongRuns(s) == if n >= SHORTEST then [s[..n]] + LongRuns(s[n..]) else LongRuns(s[1..])
  {
  }

  lemma RunLenOfParts(a: bytes, b: bytes)
    requires b == [] || !WordChar(b[0])
    ensures RunLen(a + b, 0) == RunLen(a, 0)
  {
    hide WordChar;
    var n := RunLen(a, 0);
    assert n < |a| ==> (a + b)[n] == a[n];
    assert n == |a| && n < |a + b| ==> (a + b)[n] == b[0];
    RunLenIs(a + b, 0, n);
  }

  /** No run goes across a character that is not a word character. */
  lemma {:induction false} RunsOfParts(a: bytes, b: bytes)
    requires b == [] || !WordChar(b[0])
    ensures LongRuns(a + b) == LongRuns(a) + LongRuns(b)
  {
    hide LongRuns, RunLen, WordChar;
    if a == [] {
      RunsOfNothing();
      assert a + b == b;
    } else {
      var n := RunLen(a, 0);
      RunLenOfParts(a, b);
      LongRunsStep(a, n);
      LongRunsStep(a + b, n);
      var k := if n >= SHORTEST then n else 1;
      RunsOfParts(a[k..], b);
      assert (a + b)[k..] == a[k..] + b;
      assert n >= SHORTEST ==> (a + b)[..n] == a[..n];
    }
  }

  lemma RunsOfNothing()
    ensures LongRuns([]) == []
  {
  }

  lemma {:induction false} RunsOfWord(s: bytes)
    requires AllWord(s)
    ensures LongRuns(s) == if |s| >= SHORTEST then [s] else []
  {
    if s != [] {
      RunLenIs(s, 0, |s|);
      if |s| >= SHORTEST {
        assert s[|s|..] == [] && s[..|s|] == s;
      } else {
        RunsOfWord(s[1..]);
      }
    }
  }

  /** Runs of a separator and what follows it. */
  lemma RunsAfter(sep: byte, s: bytes)
    requires !WordChar(sep)
    ensures LongRuns([sep] + s) == LongRuns(s)
  {
    RunLenIs([sep] + s, 0, 0);
    assert ([sep] + s)[1..] == s;
  }
}
