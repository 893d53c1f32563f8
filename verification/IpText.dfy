/**
 * The text of an IP address as net.IP.String prints it (RFC 5952, section 4, with IPv4-mapped
 * addresses printed as IPv4), an independent reader of such text, and the round trip between them.
 */
module IpText {
  import opened Bytes
  import opened Text

  const COLON: byte := 58

  type Ip4 = a: bytes | |a| == 4 witness [0, 0, 0, 0]
  type Ip16 = a: bytes | |a| == 16 witness [0, 0, 0, 0, 0, 0, 0, 0, 0, 0, 0, 0, 0, 0, 0, 0]
  type Groups = g: seq<nat> | |g| == 8 && Below(g, 0x1_0000) witness [0, 0, 0, 0, 0, 0, 0, 0]

  /** ::ffff:0:0/96 */
  const MAPPED: bytes := [0, 0, 0, 0, 0, 0, 0, 0, 0, 0, 255, 255]

  predicate IsMapped(a: Ip16) {
    a[..12] == MAPPED
  }

  /** An address as sixteen bytes, IPv4 in its mapped form. */
  function To16(a: bytes): Ip16
    requires |a| == 4 || |a| == 16
  {
    if |a| == 4 then MAPPED + a else a
  }

  // ---------------------------------------------------------------- groups of sixteen bits

  function GroupsOf(a: bytes): (g: seq<nat>)
    requires |a| % 2 == 0
    ensures |g| == |a| / 2 && Below(g, 0x1_0000)
  {
    if a == [] then [] else [Word(a[0], a[1])] + GroupsOf(a[2..])
  }

  function BytesOf(g: seq<nat>): (a: bytes)
    requires Below(g, 0x1_0000)
    ensures |a| == 2 * |g|
  {
    if g == [] then [] else [g[0] / 256, g[0] % 256] + BytesOf(g[1..])
  }

  lemma {:induction false} GroupsRoundTrip(a: bytes)
    requires |a| % 2 == 0
    ensures BytesOf(GroupsOf(a)) == a
  {
    if a != [] {
      GroupsRoundTrip(a[2..]);
      assert a == [a[0], a[1]] + a[2..];
      assert GroupsOf(a)[1..] == GroupsOf(a[2..]);
    }
  }

  // ---------------------------------------------------------------- printing

  /** Number of zero groups from position `i` on. */
  function ZeroRun(g: seq<nat>, i: nat): (n: nat)
    requires i <= |g|
    ensures i + n <= |g|
    ensures forall k | i <= k < i + n :: g[k] == 0
    ensures i + n < |g| ==> g[i + n] != 0
    decreases |g| - i
  {
    if i == |g| || g[i] != 0 then 0 else 1 + ZeroRun(g, i + 1)
  }

  /** The first longest run of at least two zero groups at or behind `i`; length 0 when there is none. */
  function Shortened(g: seq<nat>, i: nat, best: (nat, nat)): (r: (nat, nat))
    requires i <= |g| && best.0 + best.1 <= |g|
    requires forall k | best.0 <= k < best.0 + best.1 :: g[k] == 0
    ensures r.0 + r.1 <= |g| && forall k | r.0 <= k < r.0 + r.1 :: g[k] == 0
    decreases |g| - i
  {
    if i == |g| then best
    else
      var n := ZeroRun(g, i);
      Shortened(g, i + 1, if n >= 2 && n > best.1 then (i, n) else best)
  }

  lemma ShortenedStep(g: seq<nat>, i: nat, best: (nat, nat))
    requires i < |g| && best.0 + best.1 <= |g|
    requires forall k | best.0 <= k < best.0 + best.1 :: g[k] == 0
    ensures var n := ZeroRun(g, i);
            Shortened(g, i, best) == Shortened(g, i + 1, if n >= 2 && n > best.1 then (i, n) else best)
  {
    hide ZeroRun;
  }

  /** `r` is `best`, or the first of the longest runs at or behind `i`, and no run there is longer. */
  ghost predicate FirstLongest(g: seq<nat>, i: nat, best: (nat, nat), r: (nat, nat))
    requires i <= |g|
  {
    && r.1 >= best.1
    && (r.1 == best.1 ==> r == best)
    && (forall k | i <= k < |g| && ZeroRun(g, k) >= 2 ::
          ZeroRun(g, k) <= r.1 && (ZeroRun(g, k) == r.1 && r != best ==> r.0 <= k))
    && (r != best ==> i <= r.0 < |g| && r.1 == ZeroRun(g, r.0) >= 2)
  }

  lemma FirstLongestStep(g: seq<nat>, i: nat, best: (nat, nat), r: (nat, nat))
    requires i < |g|
    requires var n := ZeroRun(g, i);
             FirstLongest(g, i + 1, if n >= 2 && n > best.1 then (i, n) else best, r)
    ensures FirstLongest(g, i, best, r)
  {
    hide ZeroRun;
  }

  lemma NothingBehind(g: seq<nat>, best: (nat, nat))
    requires best.0 + best.1 <= |g| && forall k | best.0 <= k < best.0 + best.1 :: g[k] == 0
    ensures FirstLongest(g, |g|, best, Shortened(g, |g|, best))
  {
  }

  /** The shortened run is a longest one, and the first among equals (RFC 5952, section 4.2). */
  lemma {:induction false} ShortenedIsFirstLongest(g: seq<nat>, i: nat, best: (nat, nat))
    requires i <= |g| && best.0 + best.1 <= |g|
    requires forall k | best.0 <= k < best.0 + best.1 :: g[k] == 0
    ensures FirstLongest(g, i, best, Shortened(g, i, best))
    decreases |g| - i
  {
    hide *;
    if i == |g| {
      NothingBehind(g, best);
    } else {
      var n := ZeroRun(g, i);
      ShortenedStep(g, i, best);
      ShortenedIsFirstLongest(g, i + 1, if n >= 2 && n > best.1 then (i, n) else best);
      FirstLongestStep(g, i, best, Shortened(g, i, best));
    }
  }

  function Text6(g: Groups): bytes {
    var r := Shortened(g, 0, (0, 0));
    if r.1 == 0 then Join(Numerals(g, 16), COLON)
    else
      Join(Numerals(g[..r.0], 16), COLON) + [COLON, COLON] + Join(Numerals(g[r.0 + r.1..], 16), COLON)
  }

  function Text4(a: Ip4): bytes {
    Join(Numerals([a[0], a[1], a[2], a[3]], 10), DOT)
  }

  function IpString(a: bytes): bytes
    requires |a| == 4 || |a| == 16
  {
    if |a| == 4 then Text4(a)
    else if IsMapped(a) then Text4(a[12..])
    else Text6(GroupsOf(a))
  }

  // ---------------------------------------------------------------- reading

  /** Position of the first "::", or None. */
  function FindDouble(s: bytes): (r: Option<nat>)
    ensures r.Some? ==> r.value + 2 <= |s| && s[r.value] == COLON && s[r.value + 1] == COLON
  {
    if |s| < 2 then None
    else if s[0] == COLON && s[1] == COLON then Some(0)
    else
      match FindDouble(s[1..])
      case None => None
      case Some(k) => Some(k + 1)
  }

  function ReadGroups(s: bytes): Option<seq<nat>> {
    if s == [] then Some([]) else Values(Split(s, COLON), 16, 0x1_0000)
  }

  function Read6(s: bytes): Option<Ip16> {
    match FindDouble(s)
    case None =>
      (match ReadGroups(s)
       case Some(g) => if |g| == 8 then AsIp16(g) else None
       case None => None)
    case Some(k) =>
      (match (ReadGroups(s[..k]), ReadGroups(s[k + 2..]))
       case (Some(left), Some(right)) =>
         if |left| + |right| < 8 then AsIp16(left + seq(8 - |left| - |right|, _ => 0) + right) else None
       case _ => None)
  }

  function AsIp16(g: seq<nat>): Option<Ip16>
    requires |g| == 8
  {
    if Below(g, 0x1_0000) then Some(BytesOf(g)) else None
  }

  function Read4(s: bytes): Option<Ip16> {
    match Values(Split(s, DOT), 10, 256)
    case Some(v) => if |v| == 4 && Below(v, 256) then Some(MAPPED + AsBytes(v)) else None
    case None => None
  }

  function AsBytes(v: seq<nat>): bytes
    requires |v| == 4 && Below(v, 256)
  {
    [v[0], v[1], v[2], v[3]]
  }

  /** A text with a colon is read as IPv6, any other as dotted decimal. */
  function ReadIp(s: bytes): Option<Ip16> {
    if Free(s, COLON) then Read4(s) else Read6(s)
  }

  // ---------------------------------------------------------------- round trip

  lemma Text4RoundTrip(a: Ip4)
    ensures Free(Text4(a), COLON) && Read4(Text4(a)) == Some(MAPPED + a)
  {
    var ns: seq<nat> := [a[0], a[1], a[2], a[3]];
    NumeralsFree(ns, 10, DOT);
    NumeralsFree(ns, 10, COLON);
    SplitJoin(Numerals(ns, 10), DOT);
    ValuesRoundTrip(ns, 10, 256);
    JoinFree(Numerals(ns, 10), DOT, COLON);
    assert AsBytes(ns) == a;
  }

  lemma {:induction false} JoinFree(parts: seq<bytes>, sep: byte, other: byte)
    requires AllFree(parts, other) && sep != other
    ensures Free(Join(parts, sep), other)
  {
    if |parts| > 1 {
      JoinFree(parts[1..], sep, other);
    }
  }

  /** A joined list of non-empty colon-free pieces does not start or end with a colon or hold two in a row. */
  predicate SingleColons(s: bytes) {
    && (s != [] ==> s[0] != COLON && s[|s| - 1] != COLON)
    && forall i | 0 <= i < |s| - 1 :: !(s[i] == COLON && s[i + 1] == COLON)
  }

  lemma {:induction false} JoinSingleColons(ns: seq<nat>)
    ensures SingleColons(Join(Numerals(ns, 16), COLON))
    ensures ns != [] ==> Join(Numerals(ns, 16), COLON) != []
  {
    if ns != [] {
      NumeralDigits(ns[0], 16);
      JoinSingleColons(ns[1..]);
      var head, tail := Numeral(ns[0], 16), Join(Numerals(ns[1..], 16), COLON);
      assert Numerals(ns, 16)[1..] == Numerals(ns[1..], 16);
      hide Numeral, Numerals, Join, DigitValue;
      HeadJoin(ns);
      assert forall i | 0 <= i < |head| :: head[i] != COLON by { NotADigit(); }
    }
  }

  lemma NotADigit()
    ensures DigitValue(COLON).None? && DigitValue(DOT).None?
  {
  }

  lemma HeadJoin(ns: seq<nat>)
    requires ns != []
    ensures Join(Numerals(ns, 16), COLON)
         == if |ns| == 1 then Numeral(ns[0], 16)
            else Numeral(ns[0], 16) + [COLON] + Join(Numerals(ns[1..], 16), COLON)
  {
    assert Numerals(ns, 16)[1..] == Numerals(ns[1..], 16);
  }

  lemma {:induction false} FindDoubleIn(left: bytes, right: bytes)
    requires SingleColons(left)
    ensures FindDouble(left + [COLON, COLON] + right) == Some(|left|)
  {
    var s := left + [COLON, COLON] + right;
    if left != [] {
      assert s[1..] == left[1..] + [COLON, COLON] + right;
      FindDoubleAfter(left[1..], right);
    }
  }

  /** The same for a rest of such a text, which may start with a colon. */
  lemma {:induction false} FindDoubleAfter(left: bytes, right: bytes)
    requires left != [] ==> left[|left| - 1] != COLON
    requires forall i | 0 <= i < |left| - 1 :: !(left[i] == COLON && left[i + 1] == COLON)
    ensures FindDouble(left + [COLON, COLON] + right) == Some(|left|)
  {
    var s := left + [COLON, COLON] + right;
    if left != [] {
      assert s[1..] == left[1..] + [COLON, COLON] + right;
      FindDoubleAfter(left[1..], right);
    }
  }

  lemma {:induction false} NoDouble(s: bytes)
    requires forall i | 0 <= i < |s| - 1 :: !(s[i] == COLON && s[i + 1] == COLON)
    ensures FindDouble(s) == None
  {
    if |s| >= 2 {
      NoDouble(s[1..]);
    }
  }

  lemma ReadGroupsRoundTrip(ns: seq<nat>)
    requires Below(ns, 0x1_0000)
    ensures ReadGroups(Join(Numerals(ns, 16), COLON)) == Some(ns)
  {
    hide Numeral, Value, DigitValue, Values, Split;
    if ns != [] {
      NotADigit();
      NumeralsFree(ns, 16, COLON);
      SplitJoin(Numerals(ns, 16), COLON);
      ValuesRoundTrip(ns, 16, 0x1_0000);
      JoinSingleColons(ns);
    }
  }

  lemma {:induction false} JoinedHasColon(ns: seq<nat>)
    requires |ns| > 1
    ensures !Free(Join(Numerals(ns, 16), COLON), COLON)
  {
    hide Numeral, Numerals, Join;
    HeadJoin(ns);
    assert Join(Numerals(ns, 16), COLON)[|Numeral(ns[0], 16)|] == COLON;
  }

  lemma Text6RoundTrip(g: Groups)
    ensures !Free(Text6(g), COLON) && Read6(Text6(g)) == Some(BytesOf(g))
  {
    hide Free, Numerals, Join, Shortened, Read6, BytesOf;
    var r := Shortened(g, 0, (0, 0));
    if r.1 == 0 {
      PlainRoundTrip(g);
    } else {
      ShortenedRoundTrip(g, r.0, r.1);
    }
  }

  lemma PlainRoundTrip(g: Groups)
    ensures var s := Join(Numerals(g, 16), COLON);
            !Free(s, COLON) && Read6(s) == Some(BytesOf(g))
  {
    hide Free, Numeral, Numerals, Join, FindDouble, ReadGroups, BytesOf;
    ReadGroupsRoundTrip(g);
    JoinSingleColons(g);
    NoDouble(Join(Numerals(g, 16), COLON));
    JoinedHasColon(g);
  }

  lemma ShortenedRoundTrip(g: Groups, i: nat, n: nat)
    requires n > 0 && i + n <= 8 && forall k | i <= k < i + n :: g[k] == 0
    ensures var s := Join(Numerals(g[..i], 16), COLON) + [COLON, COLON] + Join(Numerals(g[i + n..], 16), COLON);
            !Free(s, COLON) && Read6(s) == Some(BytesOf(g))
  {
    hide Numeral, Numerals, Join, FindDouble, ReadGroups, BytesOf, SingleColons, Read6;
    var left, right := g[..i], g[i + n..];
    ReadGroupsRoundTrip(left);
    ReadGroupsRoundTrip(right);
    JoinSingleColons(left);
    FindDoubleIn(Join(Numerals(left, 16), COLON), Join(Numerals(right, 16), COLON));
    assert left + seq(8 - |left| - |right|, _ => 0) + right == g;
    ReadShortened(Join(Numerals(left, 16), COLON), Join(Numerals(right, 16), COLON), left, right);
  }

  lemma ReadShortened(l: bytes, t: bytes, left: seq<nat>, right: seq<nat>)
    requires FindDouble(l + [COLON, COLON] + t) == Some(|l|)
    requires ReadGroups(l) == Some(left) && ReadGroups(t) == Some(right) && |left| + |right| < 8
    requires Below(left, 0x1_0000) && Below(right, 0x1_0000)
    ensures var s := l + [COLON, COLON] + t;
            !Free(s, COLON) && Read6(s) == Some(BytesOf(left + seq(8 - |left| - |right|, _ => 0) + right))
  {
    hide FindDouble, ReadGroups, BytesOf;
    var s := l + [COLON, COLON] + t;
    assert s[..|l|] == l && s[|l| + 2..] == t;
    assert s[|l|] == COLON;
  }

  /** The text of every address reads back as that address, IPv4-mapped taken as IPv4. */
  lemma IpStringRoundTrip(a: bytes)
    requires |a| == 4 || |a| == 16
    ensures ReadIp(IpString(a)) == Some(To16(a))
  {
    hide Text4, Text6, Read4, Read6, GroupsOf, BytesOf;
    if |a| == 4 {
      Text4RoundTrip(a);
    } else if IsMapped(a) {
      Text4RoundTrip(a[12..]);
      assert a == MAPPED + a[12..];
    } else {
      GroupsRoundTrip(a);
      Text6RoundTrip(GroupsOf(a));
    }
  }

  /** The text fits into a length byte. */
  lemma IpStringShort(a: bytes)
    requires |a| == 4 || |a| == 16
    ensures 0 < |IpString(a)| <= 42
  {
    IpStringRoundTrip(a);
    if |a| == 4 {
      Text4Short(a);
    } else if IsMapped(a) {
      Text4Short(a[12..]);
    } else {
      Text6Short(GroupsOf(a));
    }
    NotEmptyText();
  }

  lemma NotEmptyText()
    ensures ReadIp([]) == None
  {
  }

  lemma NumeralsShort(ns: seq<nat>, base: nat, k: nat)
    requires 2 <= base <= 16 && k > 0 && Below(ns, Pow(base, k))
    ensures |Join(Numerals(ns, base), if base == 10 then DOT else COLON)| <= |ns| * (k + 1)
  {
    forall i | 0 <= i < |ns| ensures |Numerals(ns, base)[i]| <= k {
      NumeralLength(ns[i], base, k);
    }
    JoinLength(Numerals(ns, base), if base == 10 then DOT else COLON, k);
  }

  lemma Text4Short(a: Ip4)
    ensures |Text4(a)| <= 16
  {
    assert Pow(10, 3) == 1000;
    NumeralsShort([a[0], a[1], a[2], a[3]], 10, 3);
  }

  lemma Text6Short(g: Groups)
    ensures |Text6(g)| <= 42
  {
    assert Pow(16, 4) == 0x1_0000;
    hide Shortened, Numerals, Join, Pow;
    var r := Shortened(g, 0, (0, 0));
    NumeralsShort(g, 16, 4);
    NumeralsShort(g[..r.0], 16, 4);
    NumeralsShort(g[r.0 + r.1..], 16, 4);
  }

  // ---------------------------------------------------------------- what the text looks like

  predicate Zeros(g: seq<nat>, i: nat, n: nat) {
    i + n <= |g| && forall k | i <= k < i + n :: g[k] == 0
  }

  /** A longest run of at least two zero groups, and the first of its length. */
  ghost predicate FirstLongestRun(g: seq<nat>, i: nat, n: nat) {
    && n >= 2 && Zeros(g, i, n)
    && forall j: nat, m: nat | Zeros(g, j, m) :: m <= n && (m == n ==> i <= j)
  }

  /** Two zero groups side by side. */
  ghost predicate TwoZeros(g: seq<nat>) {
    exists k | 0 <= k < |g| - 1 :: g[k] == 0 && g[k + 1] == 0
  }

  lemma RunIsShort(g: seq<nat>, j: nat, m: nat)
    requires Zeros(g, j, m)
    ensures ZeroRun(g, j) >= m
  {
    var n := ZeroRun(g, j);
    hide ZeroRun;
  }

  lemma RunsAreShort(g: Groups, j: nat, m: nat)
    requires Zeros(g, j, m) && m >= 2
    ensures var r := Shortened(g, 0, (0, 0)); m <= r.1 && (m == r.1 ==> r.0 <= j)
  {
    ShortenedIsFirstLongest(g, 0, (0, 0));
    RunIsShort(g, j, m);
    hide ZeroRun, Shortened;
  }

  lemma ShortenedRun(g: Groups)
    ensures var r := Shortened(g, 0, (0, 0)); r.1 == 0 || (r.1 >= 2 && Zeros(g, r.0, r.1))
  {
    ShortenedIsFirstLongest(g, 0, (0, 0));
    hide ZeroRun, Shortened;
  }

  /** The groups that are left out are that run; none are when there are no two zero groups side by side. */
  lemma ShortenedIsThatRun(g: Groups)
    ensures var r := Shortened(g, 0, (0, 0));
            && (r.1 == 0 || FirstLongestRun(g, r.0, r.1))
            && (r.1 == 0 <==> !TwoZeros(g))
  {
    hide ZeroRun, Shortened, Zeros, TwoZeros;
    var r := Shortened(g, 0, (0, 0));
    ShortenedRun(g);
    forall j: nat, m: nat | Zeros(g, j, m) && m >= 2 ensures m <= r.1 && (m == r.1 ==> r.0 <= j) {
      RunsAreShort(g, j, m);
    }
    if r.1 > 0 {
      FirstTwo(g, r.0, r.1);
    }
    if TwoZeros(g) {
      var k := TwoTogether(g);
      RunsAreShort(g, k, 2);
    }
  }

  lemma FirstTwo(g: Groups, i: nat, n: nat)
    requires Zeros(g, i, n) && n >= 2
    ensures TwoZeros(g)
  {
    assert g[i] == 0 && g[i + 1] == 0;
  }

  lemma TwoTogether(g: Groups) returns (k: nat)
    requires TwoZeros(g)
    ensures Zeros(g, k, 2)
  {
    k :| 0 <= k < |g| - 1 && g[k] == 0 && g[k + 1] == 0;
  }

  /** An address is written with dots exactly when it is an IPv4 address, mapped or not. */
  lemma DottedIff(a: bytes)
    requires |a| == 4 || |a| == 16
    ensures Free(IpString(a), 58)
       <==> |a| == 4 || a[..12] == [0, 0, 0, 0, 0, 0, 0, 0, 0, 0, 255, 255]
  {
    hide Text4, Text6, Free;
    if |a| == 4 {
      Text4RoundTrip(a);
    } else if IsMapped(a) {
      Text4RoundTrip(a[12..]);
    } else {
      Text6RoundTrip(GroupsOf(a));
    }
  }

  /** The texts on the two sides of "::" name the groups on the two sides of the run. */
  ghost predicate DoubleForRun(s: bytes, k: nat, g: seq<nat>, i: nat, n: nat) {
    && FirstLongestRun(g, i, n) && k + 2 <= |s|
    && Below(g, 0x1_0000)
    && ReadGroups(s[..k]) == Some(g[..i]) && ReadGroups(s[k + 2..]) == Some(g[i + n..])
  }

  /**
   * Any other address is written in groups, with "::" for the first longest run of zero groups, if two
   * stand side by side anywhere, and without it if they do not (section 4.2 of RFC 5952).
   */
  lemma GroupsTextLooks(a: Ip16)
    requires a[..12] != [0, 0, 0, 0, 0, 0, 0, 0, 0, 0, 255, 255]
    ensures var s, g := IpString(a), GroupsOf(a);
            && (FindDouble(s).Some? <==> TwoZeros(g))
            && (FindDouble(s).None? ==> ReadGroups(s) == Some(g))
            && (FindDouble(s).Some? ==> exists i: nat, n: nat :: DoubleForRun(s, FindDouble(s).value, g, i, n))
  {
    hide GroupsOf, Shortened, FindDouble, ReadGroups, FirstLongestRun, TwoZeros, DoubleForRun, Join, Numerals;
    var g := GroupsOf(a);
    ShortenedIsThatRun(g);
    var r := Shortened(g, 0, (0, 0));
    assert IpString(a) == Text6(g);
    if r.1 == 0 {
      PlainLooks(g);
    } else {
      ShortenedLooks(g, r.0, r.1);
      var s := Join(Numerals(g[..r.0], 16), COLON) + [COLON, COLON] + Join(Numerals(g[r.0 + r.1..], 16), COLON);
      assert IpString(a) == s;
    }
  }

  lemma PlainLooks(g: Groups)
    ensures var s := Join(Numerals(g, 16), COLON); FindDouble(s).None? && ReadGroups(s) == Some(g)
  {
    hide Numeral, Numerals, Join, FindDouble, ReadGroups;
    ReadGroupsRoundTrip(g);
    JoinSingleColons(g);
    NoDouble(Join(Numerals(g, 16), COLON));
  }

  lemma ShortenedLooks(g: Groups, i: nat, n: nat)
    requires FirstLongestRun(g, i, n) && i + n <= 8
    ensures var s := Join(Numerals(g[..i], 16), COLON) + [COLON, COLON] + Join(Numerals(g[i + n..], 16), COLON);
            FindDouble(s).Some? && DoubleForRun(s, FindDouble(s).value, g, i, n)
  {
    hide Numeral, Numerals, Join, FindDouble, ReadGroups, FirstLongestRun, SingleColons;
    var left, right := g[..i], g[i + n..];
    ReadGroupsRoundTrip(left);
    ReadGroupsRoundTrip(right);
    JoinSingleColons(left);
    var l, t := Join(Numerals(left, 16), COLON), Join(Numerals(right, 16), COLON);
    FindDoubleIn(l, t);
    var s := l + [COLON, COLON] + t;
    assert s[..|l|] == l && s[|l| + 2..] == t;
  }
}
