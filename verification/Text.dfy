/** Numbers in text, and joining and splitting text at a separator byte. */
module Text {
  import opened Bytes

  const DOT: byte := 46

  // ---------------------------------------------------------------- digits

  /** The character of a digit, lower case for the letters of base 16. */
  function Digit(d: nat): byte
    requires d < 16
  {
    if d < 10 then 48 + d else 87 + d
  }

  function DigitValue(c: byte): (r: Option<nat>)
    ensures r.Some? ==> r.value < 16
  {
    if 48 <= c <= 57 then Some(c - 48) else if 97 <= c <= 102 then Some(c - 87) else None
  }

  /** The text of `n` in the given base, without leading zeros. */
  function Numeral(n: nat, base: nat): (r: bytes)
    requires 2 <= base <= 16
    ensures |r| > 0
    decreases n
  {
    if n < base then [Digit(n)] else Numeral(n / base, base) + [Digit(n % base)]
  }

  /** The value of a text that `Numeral` can have produced: digits of the base, no leading zero. */
  function Value(s: bytes, base: nat): (r: Option<nat>)
    requires 2 <= base <= 16
    decreases |s|
  {
    if s == [] then None
    else
      var last := DigitValue(s[|s| - 1]);
      if last.None? || last.value >= base then None
      else if |s| == 1 then last
      else
        match Value(s[..|s| - 1], base)
        case None => None
        case Some(high) => if high == 0 then None else Some(base * high + last.value)
  }

  lemma {:induction false} NumeralRoundTrip(n: nat, base: nat)
    requires 2 <= base <= 16
    ensures Value(Numeral(n, base), base) == Some(n)
    decreases n
  {
    if n >= base {
      hide Value, Digit, Numeral;
      var q, r := LastDigit(n, base);
      NumeralRoundTrip(q, base);
      ValueSnoc(Numeral(q, base), r, base);
    }
  }

  lemma LastDigit(n: nat, base: nat) returns (q: nat, r: nat)
    requires 2 <= base <= 16 && n >= base
    ensures 0 < q < n && r < base && n == base * q + r
    ensures Numeral(n, base) == Numeral(q, base) + [Digit(r)]
  {
    hide Digit;
    q, r := n / base, n % base;
    QuotientPositive(n, base);
  }

  lemma ValueSnoc(s: bytes, d: nat, base: nat)
    requires 2 <= base <= 16 && d < base
    requires s != [] && Value(s, base).Some? && Value(s, base).value != 0
    ensures Value(s + [Digit(d)], base) == Some(base * Value(s, base).value + d)
  {
    assert (s + [Digit(d)])[..|s|] == s;
  }

  lemma QuotientPositive(n: nat, base: nat)
    requires 0 < base <= n
    ensures n / base > 0
  {
    assert n == base * (n / base) + n % base;
  }

  /** Digits only: no separator can occur inside a numeral. */
  lemma {:induction false} NumeralDigits(n: nat, base: nat)
    requires 2 <= base <= 16
    ensures forall i | 0 <= i < |Numeral(n, base)| :: DigitValue(Numeral(n, base)[i]).Some?
    ensures base <= 10 ==> forall i | 0 <= i < |Numeral(n, base)| :: 48 <= Numeral(n, base)[i] <= 57
    decreases n
  {
    if n >= base {
      hide Numeral;
      var q, r := LastDigit(n, base);
      NumeralDigits(q, base);
    }
  }

  function Pow(base: nat, k: nat): nat {
    if k == 0 then 1 else base * Pow(base, k - 1)
  }

  lemma {:induction false} NumeralLength(n: nat, base: nat, k: nat)
    requires 2 <= base <= 16 && k > 0 && n < Pow(base, k)
    ensures |Numeral(n, base)| <= k
    decreases k
  {
    if n >= base {
      assert Pow(base, 1) == base * Pow(base, 0);
      QuotientBelow(n, base, Pow(base, k - 1));
      NumeralLength(n / base, base, k - 1);
    }
  }

  lemma QuotientBelow(n: nat, base: nat, m: nat)
    requires base > 0 && n < base * m
    ensures n / base < m
  {
    var q := n / base;
    assert n == base * q + n % base;
    assert base * (q - m) == base * q - base * m;
  }

  // ---------------------------------------------------------------- join and split

  function Join(parts: seq<bytes>, sep: byte): bytes {
    if parts == [] then []
    else if |parts| == 1 then parts[0]
    else parts[0] + [sep] + Join(parts[1..], sep)
  }

  /** The pieces between the separators; always at least one piece. */
  function Split(s: bytes, sep: byte): (r: seq<bytes>)
    ensures |r| > 0
  {
    if s == [] then [[]]
    else if s[0] == sep then [[]] + Split(s[1..], sep)
    else
      var more := Split(s[1..], sep);
      [[s[0]] + more[0]] + more[1..]
  }

  predicate Free(s: bytes, sep: byte) {
    forall i | 0 <= i < |s| :: s[i] != sep
  }

  lemma {:induction false} SplitFree(s: bytes, sep: byte)
    requires Free(s, sep)
    ensures Split(s, sep) == [s]
  {
    if s != [] {
      SplitFree(s[1..], sep);
      assert [s[0]] + s[1..] == s;
    }
  }

  lemma {:induction false} SplitAtFirst(head: bytes, tail: bytes, sep: byte)
    requires Free(head, sep)
    ensures Split(head + [sep] + tail, sep) == [head] + Split(tail, sep)
  {
    var s := head + [sep] + tail;
    if head == [] {
      assert s[1..] == tail;
    } else {
      SplitAtFirst(head[1..], tail, sep);
      assert s[1..] == head[1..] + [sep] + tail;
      assert [head[0]] + head[1..] == head;
    }
  }

  predicate AllFree(parts: seq<bytes>, sep: byte) {
    forall i | 0 <= i < |parts| :: Free(parts[i], sep)
  }

  lemma {:induction false} SplitJoin(parts: seq<bytes>, sep: byte)
    requires parts != [] && AllFree(parts, sep)
    ensures Split(Join(parts, sep), sep) == parts
  {
    if |parts| == 1 {
      SplitFree(parts[0], sep);
    } else {
      SplitAtFirst(parts[0], Join(parts[1..], sep), sep);
      SplitJoin(parts[1..], sep);
    }
  }

  lemma {:induction false} JoinLength(parts: seq<bytes>, sep: byte, k: nat)
    requires forall i | 0 <= i < |parts| :: |parts[i]| <= k
    ensures |Join(parts, sep)| <= |parts| * (k + 1)
  {
    if |parts| > 1 {
      JoinLength(parts[1..], sep, k);
      assert |parts| * (k + 1) == (|parts| - 1) * (k + 1) + (k + 1);
    }
  }

  /** Values of all pieces, or None when one is no numeral below the bound. */
  function Values(parts: seq<bytes>, base: nat, bound: nat): (r: Option<seq<nat>>)
    requires 2 <= base <= 16
  {
    if parts == [] then Some([])
    else
      match (Value(parts[0], base), Values(parts[1..], base, bound))
      case (Some(v), Some(more)) => if v < bound then Some([v] + more) else None
      case _ => None
  }

  function Numerals(ns: seq<nat>, base: nat): (r: seq<bytes>)
    requires 2 <= base <= 16
    ensures |r| == |ns|
    ensures forall i | 0 <= i < |ns| :: r[i] == Numeral(ns[i], base)
  {
    if ns == [] then [] else [Numeral(ns[0], base)] + Numerals(ns[1..], base)
  }

  predicate Below(ns: seq<nat>, bound: nat) {
    forall i | 0 <= i < |ns| :: ns[i] < bound
  }

  lemma {:induction false} ValuesRoundTrip(ns: seq<nat>, base: nat, bound: nat)
    requires 2 <= base <= 16 && Below(ns, bound)
    ensures Values(Numerals(ns, base), base, bound) == Some(ns)
  {
    if ns != [] {
      NumeralRoundTrip(ns[0], base);
      ValuesRoundTrip(ns[1..], base, bound);
      hide Value, Numeral;
      assert [ns[0]] + ns[1..] == ns;
    }
  }

  lemma NumeralsFree(ns: seq<nat>, base: nat, sep: byte)
    requires 2 <= base <= 16 && DigitValue(sep).None?
    ensures AllFree(Numerals(ns, base), sep)
  {
    forall i | 0 <= i < |ns| ensures Free(Numerals(ns, base)[i], sep) {
      NumeralDigits(ns[i], base);
    }
  }
}
