/** The length-prefixed frame format of the gateway's streams: writer, reader specification, whole streams. */
module Frames {
  import opened Bytes

  /** Number of values of a non-negative Go int: the bound on a slice length. */
  const MAX_SLICE: nat := 0x8000_0000_0000_0000

  const HEADER: nat := 8

  /** A byte slice the writer can be given. */
  type Payload = p: bytes | |p| < MAX_SLICE

  /** What one frame read ends with. `LengthPanic` is `make` refusing a length that is no Go int. */
  datatype FrameError = EOF | UnexpectedEOF | LengthPanic
  datatype FrameResult = Ok(data: bytes) | Fail(error: FrameError)

  datatype Parsed = Parsed(result: FrameResult, rest: bytes)
  datatype Frames = Frames(frames: seq<bytes>, error: FrameError)

  lemma HeaderCoversLength()
    ensures Pow256(8) == U64
  {
    assert Pow256(2) == 0x1_0000;
    assert Pow256(4) == 0x1_0000_0000;
    assert Pow256(6) == 0x1_0000_0000_0000;
  }

  function Frame(data: bytes): (r: bytes)
    ensures |r| == HEADER + |data|
  {
    BigEndian(|data|, HEADER) + data
  }

  function EncodeAll(payloads: seq<bytes>): bytes {
    if payloads == [] then [] else Frame(payloads[0]) + EncodeAll(payloads[1..])
  }

  predicate AllPayloads(payloads: seq<bytes>) {
    forall i | 0 <= i < |payloads| :: |payloads[i]| < MAX_SLICE
  }

  /**
   * The outcome of one frame read from a stream that holds exactly `s` and then ends, and the bytes
   * of `s` that the read leaves. An end before the first byte of the header or of a non-empty body
   * is a plain EOF; an end inside either is an unexpected EOF.
   */
  function ParseFrame(s: bytes): (r: Parsed)
    ensures r.result.Ok? ==> |r.rest| + HEADER + |r.result.data| == |s|
    ensures |r.rest| <= |s|
  {
    if s == [] then Parsed(Fail(EOF), [])
    else if |s| < HEADER then Parsed(Fail(UnexpectedEOF), [])
    else
      var n := FromBigEndian(s[..HEADER]);
      if n >= MAX_SLICE then Parsed(Fail(LengthPanic), s[HEADER..])
      else if HEADER + n <= |s| then Parsed(Ok(s[HEADER..HEADER + n]), s[HEADER + n..])
      else if |s| == HEADER then Parsed(Fail(EOF), [])
      else Parsed(Fail(UnexpectedEOF), [])
  }

  /** The length is refused exactly when its highest bit is set. */
  lemma LengthPanicIff(s: bytes)
    ensures ParseFrame(s).result == Fail(LengthPanic) <==> |s| >= 8 && s[0] >= 128
  {
    if |s| >= HEADER {
      var top, low := s[0], s[1..HEADER];
      assert s[..HEADER] == [top] + low;
      FromBigEndianHead(top, low);
      SevenBytes();
    }
  }

  lemma SevenBytes()
    ensures Pow256(7) == 0x100_0000_0000_0000
  {
    HeaderCoversLength();
    assert Pow256(8) == 256 * Pow256(7);
  }

  lemma {:induction false} FromBigEndianHead(top: byte, low: bytes)
    ensures FromBigEndian([top] + low) == top * Pow256(|low|) + FromBigEndian(low)
    ensures FromBigEndian(low) < Pow256(|low|)
  {
    if low == [] {
      assert [top] + low == [top] && [top][..0] == [];
    } else {
      var n := |low| - 1;
      FromBigEndianHead(top, low[..n]);
      assert ([top] + low)[..n + 1] == [top] + low[..n];
      assert 256 * (top * Pow256(n)) == top * (256 * Pow256(n));
    }
  }

  /** Frame after frame up to the first error. */
  function ParseAll(s: bytes): Frames
    decreases |s|
  {
    var p := ParseFrame(s);
    match p.result
    case Fail(e) => Frames([], e)
    case Ok(data) =>
      var more := ParseAll(p.rest);
      Frames([data] + more.frames, more.error)
  }

  lemma ParseAllStep(s: bytes)
    ensures var p := ParseFrame(s);
            && (p.result.Fail? ==> ParseAll(s) == Frames([], p.result.error))
            && (p.result.Ok? ==>
                  ParseAll(s) == Frames([p.result.data] + ParseAll(p.rest).frames, ParseAll(p.rest).error))
  {
  }

  // ---------------------------------------------------------------- reading back what was written

  lemma ParseFrameOfFrame(p: Payload, t: bytes)
    ensures ParseFrame(Frame(p) + t) == Parsed(Ok(p), t)
  {
    var s := Frame(p) + t;
    HeaderCoversLength();
    BigEndianRoundTrip(|p|, HEADER);
    assert s[..HEADER] == BigEndian(|p|, HEADER);
    assert s[HEADER..HEADER + |p|] == p;
    assert s[HEADER + |p|..] == t;
  }

  lemma ParseAllOfFrame(p: Payload, t: bytes)
    ensures ParseAll(Frame(p) + t) == Frames([p] + ParseAll(t).frames, ParseAll(t).error)
  {
    ParseFrameOfFrame(p, t);
  }

  lemma {:induction false} ParseAllAppend(payloads: seq<bytes>, t: bytes)
    requires AllPayloads(payloads)
    ensures ParseAll(EncodeAll(payloads) + t)
         == Frames(payloads + ParseAll(t).frames, ParseAll(t).error)
  {
    hide ParseFrame, ParseAll, BigEndian, FromBigEndian, Frame;
    if payloads == [] {
      assert EncodeAll(payloads) + t == t;
      assert payloads + ParseAll(t).frames == ParseAll(t).frames;
    } else {
      var rest := EncodeAll(payloads[1..]) + t;
      ParseAllOfFrame(payloads[0], rest);
      ParseAllAppend(payloads[1..], t);
      assert EncodeAll(payloads) + t == Frame(payloads[0]) + rest;
      assert [payloads[0]] + (payloads[1..] + ParseAll(t).frames) == payloads + ParseAll(t).frames;
    }
  }

  /** The stream of any list of payloads reads back as that list, then a plain EOF. */
  lemma FramedStreamRoundTrip(payloads: seq<bytes>)
    requires AllPayloads(payloads)
    ensures ParseAll(EncodeAll(payloads)) == Frames(payloads, EOF)
  {
    ParseAllAppend(payloads, []);
    assert EncodeAll(payloads) + [] == EncodeAll(payloads);
    assert payloads + [] == payloads;
  }

  lemma {:induction false} EncodeAllAppend(a: seq<bytes>, b: seq<bytes>)
    ensures EncodeAll(a + b) == EncodeAll(a) + EncodeAll(b)
  {
    if a == [] {
      assert a + b == b;
    } else {
      assert (a + b)[1..] == a[1..] + b;
      EncodeAllAppend(a[1..], b);
    }
  }

  lemma EncodeAllStep(a: seq<bytes>)
    ensures EncodeAll(a) == if a == [] then [] else Frame(a[0]) + EncodeAll(a[1..])
  {
  }

  /** A frame at the front of a stream can be taken off in one way only. */
  lemma SameFrontFrame(p: Payload, s: bytes, q: Payload, t: bytes)
    requires Frame(p) + s == Frame(q) + t
    ensures p == q && s == t
  {
    hide Frame, ParseFrame;
    ParseFrameOfFrame(p, s);
    ParseFrameOfFrame(q, t);
  }

  lemma PrefixOfRest(a: seq<bytes>, b: seq<bytes>)
    requires a != [] && b != [] && a[0] == b[0] && a[1..] <= b[1..]
    ensures a <= b
  {
    assert forall i | 0 < i < |a| :: a[i] == a[1..][i - 1] && b[i] == b[1..][i - 1];
  }

  /** One framed stream is a prefix of another only if its list of payloads is. */
  lemma {:induction false} EncodeAllPrefix(a: seq<bytes>, b: seq<bytes>, t: bytes)
    requires AllPayloads(a) && AllPayloads(b)
    requires EncodeAll(a) + t == EncodeAll(b)
    ensures a <= b
  {
    if a != [] {
      hide Frame, EncodeAll;
      EncodeAllStep(a);
      EncodeAllStep(b);
      FrameNotEmpty(a[0]);
      assert EncodeAll(a) + t == Frame(a[0]) + (EncodeAll(a[1..]) + t);
      SameFrontFrame(a[0], EncodeAll(a[1..]) + t, b[0], EncodeAll(b[1..]));
      EncodeAllPrefix(a[1..], b[1..], t);
      PrefixOfRest(a, b);
    }
  }

  lemma FrameNotEmpty(p: bytes)
    ensures |Frame(p)| > 0
  {
  }

  lemma EncodeAllSnoc(a: seq<bytes>, p: bytes)
    ensures EncodeAll(a + [p]) == EncodeAll(a) + Frame(p)
  {
    EncodeAllAppend(a, [p]);
    assert EncodeAll([p]) == Frame(p);
  }

  /** Reading invents nothing: for any bytes at all, the frames read re-encode to a prefix of them. */
  lemma {:induction false} ParseAllIsPrefix(s: bytes)
    ensures AllPayloads(ParseAll(s).frames)
    ensures EncodeAll(ParseAll(s).frames) <= s
    decreases |s|
  {
    ParsedFrameIsPrefix(s);
    hide ParseFrame, Frame;
    var p := ParseFrame(s);
    if p.result.Ok? {
      ParseAllIsPrefix(p.rest);
      assert ParseAll(s).frames[1..] == ParseAll(p.rest).frames;
    }
  }

  /** A frame that was read is a prefix of what it was read from. */
  lemma ParsedFrameIsPrefix(s: bytes)
    ensures ParseFrame(s).result.Ok? ==>
              && |ParseFrame(s).result.data| < MAX_SLICE
              && s == Frame(ParseFrame(s).result.data) + ParseFrame(s).rest
  {
    if ParseFrame(s).result.Ok? {
      FromBigEndianRoundTrip(s[..HEADER]);
    }
  }

  lemma TornFrame(s: bytes)
    ensures ParseFrame(s).result == Fail(UnexpectedEOF) ==> s != [] && ParseFrame(s).rest == []
  {
  }

  // ---------------------------------------------------------------- truncated streams

  /** One frame cut short after `d` bytes: a plain EOF exactly at its start and right after its header. */
  lemma CutFrame(p: Payload, d: nat)
    requires d < HEADER + |p|
    ensures ParseFrame(Frame(p)[..d]).result
         == Fail(if d == 0 || d == HEADER then EOF else UnexpectedEOF)
  {
    var s := Frame(p)[..d];
    if d >= HEADER {
      HeaderCoversLength();
      BigEndianRoundTrip(|p|, HEADER);
      assert s[..HEADER] == BigEndian(|p|, HEADER);
    }
  }

  lemma NothingToRead()
    ensures ParseAll([]) == Frames([], EOF)
  {
  }

  /** Number of leading payloads whose frames lie completely within the first `k` bytes. */
  function WholeFrames(payloads: seq<bytes>, k: nat): (m: nat)
    ensures m <= |payloads|
  {
    if payloads == [] || k < HEADER + |payloads[0]| then 0
    else 1 + WholeFrames(payloads[1..], k - (HEADER + |payloads[0]|))
  }

  /**
   * A stream cut after its first `k` bytes yields exactly the payloads whose frames are complete, then
   * a plain EOF if the cut is at a frame boundary or right behind the header of a frame that has a
   * body, and an unexpected EOF anywhere else.
   */
  lemma {:induction false} TruncatedStream(payloads: seq<bytes>, k: nat)
    requires AllPayloads(payloads)
    requires k <= |EncodeAll(payloads)|
    ensures var m := WholeFrames(payloads, k);
            var whole := EncodeAll(payloads[..m]);
            && |whole| <= k
            && (m < |payloads| ==> k < |whole| + HEADER + |payloads[m]|)
            && ParseAll(EncodeAll(payloads)[..k])
               == Frames(payloads[..m],
                         if k == |whole| || k == |whole| + HEADER then EOF else UnexpectedEOF)
  {
    hide ParseFrame, BigEndian, FromBigEndian, Frame;
    var s := EncodeAll(payloads);
    var cut := s[..k];
    if payloads == [] {
      assert cut == [];
      NothingToRead();
    } else if k < HEADER + |payloads[0]| {
      assert cut == Frame(payloads[0])[..k];
      CutFrame(payloads[0], k);
    } else {
      var f := HEADER + |payloads[0]|;
      var rest := payloads[1..];
      CutBehindFrame(payloads, k, WholeFrames(rest, k - f));
      hide EncodeAll, ParseAll;
      TruncatedStream(rest, k - f);
      ParseAllOfFrame(payloads[0], EncodeAll(rest)[..k - f]);
    }
  }

  lemma CutBehindFrame(payloads: seq<bytes>, k: nat, m: nat)
    requires payloads != [] && HEADER + |payloads[0]| <= k <= |EncodeAll(payloads)| && m < |payloads|
    ensures var f, rest := HEADER + |payloads[0]|, payloads[1..];
            && |EncodeAll(rest)| == |EncodeAll(payloads)| - f
            && EncodeAll(payloads)[..k] == Frame(payloads[0]) + EncodeAll(rest)[..k - f]
            && payloads[..m + 1] == [payloads[0]] + rest[..m]
            && |EncodeAll(payloads[..m + 1])| == f + |EncodeAll(rest[..m])|
  {
    hide Frame, EncodeAll;
    EncodeAllStep(payloads);
    EncodeAllStep(payloads[..m + 1]);
    assert payloads[..m + 1][1..] == payloads[1..][..m];
  }
}
