/**
 * Reading frames through bufio: the persistent reader of the service-side agent, and the loops that
 * put a fresh reader around the connection for every frame and so forget what the last one read ahead.
 */
module FrameReaders {
  import opened Bytes
  import opened Frames
  import opened Bufio

  // ---------------------------------------------------------------- one frame

  /** ReadOneFrameDataFromStream on a reader in state `s`: its result and the state it leaves. */
  function FrameStep(s: Stream): (FrameResult, Stream) {
    var header := FullRead(s, HEADER);
    if |header.data| < HEADER then
      (Fail(if header.data == [] then EOF else UnexpectedEOF), header.stream)
    else
      var n := FromBigEndian(header.data);
      if n >= MAX_SLICE then (Fail(LengthPanic), header.stream)
      else
        var body := FullRead(header.stream, n);
        if |body.data| < n then (Fail(if body.data == [] then EOF else UnexpectedEOF), body.stream)
        else (Ok(body.data), body.stream)
  }

  /** The result depends on the bytes alone, never on how they were cut into chunks. */
  lemma FrameStepReadsPending(s: Stream)
    requires WellFormed(s)
    ensures var (result, s') := FrameStep(s);
            && WellFormed(s')
            && result == ParseFrame(Pending(s)).result
            && Pending(s') == ParseFrame(Pending(s)).rest
  {
    hide FullRead, FromBigEndian, Flatten;
    FullReadTakesPrefix(s, HEADER);
    var header := FullRead(s, HEADER);
    if |header.data| == HEADER {
      var n := FromBigEndian(header.data);
      FullReadTakesPrefix(header.stream, n);
    }
  }

  // ---------------------------------------------------------------- one reader for all frames

  function PersistentRun(s: Stream): Frames
    requires WellFormed(s)
    decreases |Pending(s)|
  {
    FrameStepReadsPending(s);
    var (result, s') := FrameStep(s);
    match result
    case Fail(e) => Frames([], e)
    case Ok(data) =>
      var more := PersistentRun(s');
      Frames([data] + more.frames, more.error)
  }

  lemma {:induction false} PersistentRunReadsPending(s: Stream)
    requires WellFormed(s)
    ensures PersistentRun(s) == ParseAll(Pending(s))
    decreases |Pending(s)|
  {
    FrameStepReadsPending(s);
    hide FrameStep, ParseFrame, Pending, WellFormed;
    var (result, s') := FrameStep(s);
    if result.Ok? {
      PersistentRunReadsPending(s');
    }
  }

  /** Whatever the chunks, a persistent reader returns exactly the payloads written, then EOF. */
  lemma PersistentReaderCorrect(payloads: seq<bytes>, chunks: seq<bytes>)
    requires AllPayloads(payloads) && NonEmpty(chunks)
    requires Flatten(chunks) == EncodeAll(payloads)
    ensures PersistentRun(Stream([], chunks)) == Frames(payloads, EOF)
  {
    PersistentRunReadsPending(Stream([], chunks));
    FramedStreamRoundTrip(payloads);
    assert Pending(Stream([], chunks)) == EncodeAll(payloads);
  }

  /** On a stream cut short it returns the complete frames, and tells a clean cut from a torn frame. */
  lemma PersistentReaderOnTruncatedStream(payloads: seq<bytes>, chunks: seq<bytes>)
    requires AllPayloads(payloads) && NonEmpty(chunks)
    requires Flatten(chunks) <= EncodeAll(payloads)
    ensures var k := |Flatten(chunks)|;
            var m := WholeFrames(payloads, k);
            var whole := EncodeAll(payloads[..m]);
            && |whole| <= k
            && (m < |payloads| ==> k < |whole| + HEADER + |payloads[m]|)
            && PersistentRun(Stream([], chunks))
               == Frames(payloads[..m],
                         if k == |whole| || k == |whole| + HEADER then EOF else UnexpectedEOF)
  {
    hide PersistentRun, ParseAll, EncodeAll, WholeFrames, Flatten, NonEmpty;
    PersistentRunReadsPending(Stream([], chunks));
    assert Pending(Stream([], chunks)) == Flatten(chunks);
    assert Flatten(chunks) == EncodeAll(payloads)[..|Flatten(chunks)|];
    TruncatedStream(payloads, |Flatten(chunks)|);
  }

  // ---------------------------------------------------------------- a fresh reader for each frame

  /** One frame through a reader made for it; `lost` is the read-ahead that goes away with the reader. */
  datatype Fresh = Fresh(result: FrameResult, chunks: seq<bytes>, lost: bytes)

  function FreshStep(chunks: seq<bytes>): Fresh {
    var (result, s') := FrameStep(Stream([], chunks));
    Fresh(result, s'.chunks, s'.buffered)
  }

  lemma FreshStepReads(chunks: seq<bytes>)
    requires NonEmpty(chunks)
    ensures var f := FreshStep(chunks);
            && NonEmpty(f.chunks)
            && f.result == ParseFrame(Flatten(chunks)).result
            && f.lost + Flatten(f.chunks) == ParseFrame(Flatten(chunks)).rest
            && (f.lost == [] ==> FrameStep(Stream([], chunks)).1 == Stream([], f.chunks))
  {
    FrameStepReadsPending(Stream([], chunks));
    hide FrameStep, ParseFrame, Flatten, NonEmpty;
    assert Pending(Stream([], chunks)) == Flatten(chunks);
  }

  /** Each frame drops less than one buffer. */
  lemma LossIsBounded(chunks: seq<bytes>)
    ensures |FreshStep(chunks).lost| <= BUFFER - 1
  {
    hide FullRead, FromBigEndian;
    var s := Stream([], chunks);
    FullReadReadAhead(s, HEADER);
    var header := FullRead(s, HEADER);
    if |header.data| == HEADER {
      FullReadReadAhead(header.stream, FromBigEndian(header.data));
    }
  }

  /** What a whole loop of fresh readers sees, and what each of its calls lost. */
  datatype FreshRunResult = FreshRunResult(frames: seq<bytes>, error: FrameError, lost: seq<bytes>)

  function FreshRun(chunks: seq<bytes>): FreshRunResult
    requires NonEmpty(chunks)
    decreases |Flatten(chunks)|
  {
    FreshStepReads(chunks);
    var f := FreshStep(chunks);
    match f.result
    case Fail(e) => FreshRunResult([], e, [f.lost])
    case Ok(data) =>
      var more := FreshRun(f.chunks);
      FreshRunResult([data] + more.frames, more.error, [f.lost] + more.lost)
  }

  lemma FreshRunStep(chunks: seq<bytes>)
    requires NonEmpty(chunks)
    ensures var f := FreshStep(chunks);
            && (f.result.Fail? ==> FreshRun(chunks) == FreshRunResult([], f.result.error, [f.lost]))
            && (f.result.Ok? ==>
                  && NonEmpty(f.chunks)
                  && var more := FreshRun(f.chunks);
                     FreshRun(chunks) == FreshRunResult([f.result.data] + more.frames, more.error,
                                                        [f.lost] + more.lost))
  {
    FreshStepReads(chunks);
  }

  predicate Lossless(lost: seq<bytes>) {
    forall i | 0 <= i < |lost| :: lost[i] == []
  }

  /** Conservation: what the source held covers the frames returned and everything lost. */
  lemma {:induction false} FreshRunConserves(chunks: seq<bytes>)
    requires NonEmpty(chunks)
    ensures var run := FreshRun(chunks);
            |EncodeAll(run.frames)| + |Flatten(run.lost)| <= |Flatten(chunks)|
    decreases |Flatten(chunks)|
  {
    FreshStepReads(chunks);
    hide FreshStep, ParseFrame, NonEmpty;
    var f := FreshStep(chunks);
    if f.result.Ok? {
      FreshRunConserves(f.chunks);
      var more := FreshRun(f.chunks);
      assert ([f.result.data] + more.frames)[1..] == more.frames;
      assert ([f.lost] + more.lost)[1..] == more.lost;
    } else {
      assert Flatten([f.lost]) == f.lost;
    }
  }

  lemma {:induction false} FlattenEmpty(lost: seq<bytes>)
    ensures Flatten(lost) == [] <==> Lossless(lost)
  {
    if lost != [] {
      FlattenEmpty(lost[1..]);
      assert lost == [lost[0]] + lost[1..];
      assert Lossless(lost) <==> lost[0] == [] && Lossless(lost[1..]);
    }
  }

  lemma {:induction false} LosslessRunIsPersistent(chunks: seq<bytes>)
    requires NonEmpty(chunks) && Lossless(FreshRun(chunks).lost)
    ensures var run := FreshRun(chunks);
            Frames(run.frames, run.error) == ParseAll(Flatten(chunks))
    decreases |Flatten(chunks)|
  {
    hide FreshStep, ParseFrame, ParseAll, FreshRun, Flatten, NonEmpty;
    var f, run := FreshStep(chunks), FreshRun(chunks);
    FreshStepReads(chunks);
    ParseAllStep(Flatten(chunks));
    FreshRunStep(chunks);
    assert run.lost[0] == [];
    if f.result.Ok? {
      assert run.lost[1..] == FreshRun(f.chunks).lost;
      assert [] + Flatten(f.chunks) == Flatten(f.chunks);
      LosslessRunIsPersistent(f.chunks);
    }
  }

  /** The loop of fresh readers returns what was written exactly when no call reads ahead. */
  lemma FreshReaderCorrectIff(payloads: seq<bytes>, chunks: seq<bytes>)
    requires AllPayloads(payloads) && NonEmpty(chunks)
    requires Flatten(chunks) == EncodeAll(payloads)
    ensures FreshRun(chunks).frames == payloads <==> Lossless(FreshRun(chunks).lost)
    ensures FreshRun(chunks).frames == payloads ==> FreshRun(chunks).error == EOF
  {
    FreshRunConserves(chunks);
    FramedStreamRoundTrip(payloads);
    FlattenEmpty(FreshRun(chunks).lost);
    if Lossless(FreshRun(chunks).lost) {
      LosslessRunIsPersistent(chunks);
    }
  }

  // ---------------------------------------------------------------- when is nothing lost

  /**
   * A frame that begins with the first chunk leaves no read-ahead; `header` and `need` are the missing
   * bytes of its header and of the whole frame. It does when it ends at the end of a chunk. Inside a
   * chunk it does when its part there is read without the buffer, which takes a complete header and as
   * many missing bytes as a buffer has; with the header in that part, one buffer is filled before that.
   */
  predicate FrameFits(chunks: seq<bytes>, header: nat, need: nat) {
    && chunks != []
    && var c := |chunks[0]|;
       if need < c then (if header == 0 then need >= BUFFER else need == BUFFER || need >= 2 * BUFFER)
       else need == c || FrameFits(chunks[1..], header - Min(header, c), need - c)
  }

  /** Each frame fits, behind the one before it. */
  predicate FramesFit(chunks: seq<bytes>, payloads: seq<bytes>)
    decreases |payloads|
  {
    if payloads == [] then chunks == []
    else
      var n := |Frame(payloads[0])|;
      n <= |Flatten(chunks)| && FrameFits(chunks, HEADER, n) && FramesFit(DropBytes(chunks, n), payloads[1..])
  }

  /** The first read of a frame, when it does not end it. */
  lemma FitsBehindRead(chunks: seq<bytes>, header: nat, need: nat, k: nat)
    requires chunks != [] && header <= HEADER && 0 < need
    requires k == if header == 0 && need >= BUFFER then need else BUFFER
    ensures var (got, rest) := ReadChunk(chunks, k);
            && (|got| >= need ==>
                  (|got| == need <==> FrameFits(chunks, header, need)))
            && (|got| < need && rest != [] ==>
                  (FrameFits(rest, header - Min(header, |got|), need - |got|) <==> FrameFits(chunks, header, need)))
  {
    var c := chunks[0];
    if |c| > k {
      var rest := [c[k..]] + chunks[1..];
      assert rest[1..] == chunks[1..];
    }
  }

  lemma DropInside(chunks: seq<bytes>, cut: seq<bytes>, k: nat, need: nat)
    requires chunks != [] && 0 < k < |chunks[0]| && k <= need <= |Flatten(chunks)|
    requires cut == [chunks[0][k..]] + chunks[1..]
    ensures need - k <= |Flatten(cut)| && DropBytes(chunks, need) == DropBytes(cut, need - k)
  {
    assert cut[1..] == chunks[1..];
    var c := chunks[0];
    assert k < need < |c| ==> c[k..][need - k..] == c[need..];
  }

  lemma DropAfterRead(chunks: seq<bytes>, k: nat, need: nat)
    requires NonEmpty(chunks) && k > 0 && need <= |Flatten(chunks)|
    ensures var (got, rest) := ReadChunk(chunks, k);
            |got| <= need ==>
              need - |got| <= |Flatten(rest)| && DropBytes(chunks, need) == DropBytes(rest, need - |got|)
  {
    hide Flatten;
    if chunks != [] && |chunks[0]| > k {
      if need >= k {
        DropInside(chunks, [chunks[0][k..]] + chunks[1..], k, need);
      }
    }
  }

  /** Reading a frame leaves nothing in the buffer exactly when the frame fits. */
  lemma {:induction false} ReadOnLosesNothingIff(chunks: seq<bytes>, header: nat, need: nat)
    requires NonEmpty(chunks) && 0 < need <= |Flatten(chunks)| && header <= HEADER
    ensures ReadOn(chunks, header, need).0 == 0 <==> FrameFits(chunks, header, need)
    ensures ReadOn(chunks, header, need).0 == 0 ==> ReadOn(chunks, header, need).1 == DropBytes(chunks, need)
    decreases need
  {
    hide ReadOn, ReadChunk, FrameFits, Flatten, NonEmpty, DropBytes;
    var k := if header == 0 && need >= BUFFER then need else BUFFER;
    var (got, rest) := ReadChunk(chunks, k);
    ReadOnStep(chunks, header, need);
    FlattenNonEmpty(chunks);
    FlattenNonEmpty(rest);
    FitsBehindRead(chunks, header, need, k);
    DropAfterRead(chunks, k, need);
    if |got| < need {
      ReadOnLosesNothingIff(rest, header - Min(header, |got|), need - |got|);
    } else if |got| == need {
      DropNothing(rest);
    }
  }

  lemma DropNothing(chunks: seq<bytes>)
    ensures DropBytes(chunks, 0) == chunks
  {
  }

  lemma FreshStepReadsOn(chunks: seq<bytes>, p: Payload, tail: bytes)
    requires NonEmpty(chunks) && Flatten(chunks) == Frame(p) + tail
    ensures var f := FreshStep(chunks);
            f.result == Ok(p) && (|f.lost|, f.chunks) == ReadOn(chunks, HEADER, |Frame(p)|)
  {
    hide FullRead, FromBigEndian, Flatten, NonEmpty, ParseFrame, Frame;
    ParseFrameOfFrame(p, tail);
    FreshStepReads(chunks);
    HeaderRead(chunks, HEADER, |p|);
  }

  /** A frame that ends inside its first chunk, which one refill takes whole: the rest of the chunk is lost. */
  lemma FirstOfChunk(p: Payload, t: bytes, more: seq<bytes>)
    requires |Frame(p) + t| <= BUFFER && NonEmpty(more)
    ensures var chunks := [Frame(p) + t] + more;
            NonEmpty(chunks) && FreshStep(chunks) == Fresh(Ok(p), more, t)
  {
    var chunks := [Frame(p) + t] + more;
    hide FreshStep, Frame, ReadOn, ParseFrame;
    assert chunks[1..] == more;
    assert Flatten(chunks) == Frame(p) + (t + Flatten(more));
    assert NonEmpty(chunks);
    FreshStepReadsOn(chunks, p, t + Flatten(more));
    ReadOnStep(chunks, HEADER, |Frame(p)|);
    FreshStepReads(chunks);
    ParseFrameOfFrame(p, t + Flatten(more));
    assert FreshStep(chunks).chunks == more;
    var lost := FreshStep(chunks).lost;
    assert (lost + Flatten(more))[..|t|] == (t + Flatten(more))[..|t|];
  }

  /** Two chunks that each begin with a frame: what stands behind the first one is lost. */
  lemma TwoChunks(p: Payload, t: bytes, q: Payload)
    requires |Frame(p) + t| <= BUFFER && |Frame(q)| <= BUFFER
    ensures var chunks := [Frame(p) + t, Frame(q)];
            && NonEmpty(chunks) && Flatten(chunks) == Frame(p) + t + Frame(q)
            && FreshRun(chunks).frames == [p, q] && FreshRun(chunks).lost == [t, [], []]
            && (Lossless(FreshRun(chunks).lost) <==> t == [])
  {
    hide FreshStep, Frame, FreshRun;
    var chunks := [Frame(p) + t, Frame(q)];
    assert chunks == [Frame(p) + t] + [Frame(q)] && chunks[1..] == [Frame(q)];
    assert Flatten([Frame(q)]) == Frame(q);
    assert Frame(q) + [] == Frame(q) && [Frame(q)] + [] == [Frame(q)];
    FirstOfChunk(q, [], []);
    FirstOfChunk(p, t, [Frame(q)]);
    FreshRunStep(chunks);
    FreshRunStep([Frame(q)]);
    EmptySource();
    assert FreshRun(chunks).lost[0] == t;
  }

  /** No call of the loop reads ahead exactly when every frame fits. */
  lemma {:induction false} LosslessIffFramesFit(payloads: seq<bytes>, chunks: seq<bytes>)
    requires AllPayloads(payloads) && NonEmpty(chunks)
    requires Flatten(chunks) == EncodeAll(payloads)
    ensures Lossless(FreshRun(chunks).lost) <==> FramesFit(chunks, payloads)
    decreases |payloads|
  {
    hide FreshStep, FreshRun, Flatten, Frame, NonEmpty, ReadOn, FrameFits, DropBytes;
    FlattenNonEmpty(chunks);
    if payloads == [] {
      EmptySource();
    } else {
      var p, tail := payloads[0], EncodeAll(payloads[1..]);
      FreshStepReadsOn(chunks, p, tail);
      FreshRunStep(chunks);
      ReadOnLosesNothingIff(chunks, HEADER, |Frame(p)|);
      var f, run := FreshStep(chunks), FreshRun(chunks);
      var more := FreshRun(f.chunks);
      assert run.lost[0] == f.lost && run.lost[1..] == more.lost;
      assert Lossless(run.lost) <==> f.lost == [] && Lossless(more.lost);
      if f.lost == [] {
        assert (Frame(p) + tail)[|Frame(p)|..] == tail;
        LosslessIffFramesFit(payloads[1..], f.chunks);
      }
    }
  }

  /**
   * However the bytes arrive, the loop of fresh readers is correct exactly when every frame fits its
   * chunks, a condition on the sizes of frames and chunks alone.
   */
  lemma FreshReaderCorrectIffFramesFit(payloads: seq<bytes>, chunks: seq<bytes>)
    requires AllPayloads(payloads) && NonEmpty(chunks)
    requires Flatten(chunks) == EncodeAll(payloads)
    ensures FreshRun(chunks).frames == payloads <==> FramesFit(chunks, payloads)
  {
    hide FreshRun, Flatten, FramesFit;
    FreshReaderCorrectIff(payloads, chunks);
    LosslessIffFramesFit(payloads, chunks);
  }

  // ---------------------------------------------------------------- frames that end with a chunk

  /** The chunks fall into consecutive groups, one group per frame. */
  predicate Aligned(chunks: seq<bytes>, payloads: seq<bytes>)
    decreases |payloads|
  {
    if payloads == [] then chunks == []
    else exists m | 0 <= m <= |chunks| ::
      Flatten(chunks[..m]) == Frame(payloads[0]) && Aligned(chunks[m..], payloads[1..])
  }

  predicate SmallChunks(chunks: seq<bytes>) {
    forall i | 0 <= i < |chunks| :: |chunks[i]| <= BUFFER
  }

  lemma EmptySource()
    ensures NonEmpty([]) && FreshRun([]) == FreshRunResult([], EOF, [[]])
  {
    assert FreshStep([]) == Fresh(Fail(EOF), [], []);
  }

  lemma AlignedGroup(chunks: seq<bytes>, payloads: seq<bytes>) returns (m: nat)
    requires Aligned(chunks, payloads) && payloads != []
    ensures m <= |chunks| && Flatten(chunks[..m]) == Frame(payloads[0])
    ensures Aligned(chunks[m..], payloads[1..])
  {
    m :| 0 <= m <= |chunks|
      && Flatten(chunks[..m]) == Frame(payloads[0]) && Aligned(chunks[m..], payloads[1..]);
  }

  /** A frame made of the first `m` chunks fits. */
  lemma {:induction false} GroupFits(chunks: seq<bytes>, m: nat, header: nat)
    requires NonEmpty(chunks) && 0 < m <= |chunks|
    ensures FrameFits(chunks, header, |Flatten(chunks[..m])|)
    ensures |Flatten(chunks[..m])| <= |Flatten(chunks)|
    ensures DropBytes(chunks, |Flatten(chunks[..m])|) == chunks[m..]
    decreases m
  {
    assert chunks[..m][1..] == chunks[1..][..m - 1];
    assert chunks[1..][m - 1..] == chunks[m..];
    if m > 1 {
      GroupFits(chunks[1..], m - 1, header - Min(header, |chunks[0]|));
    } else {
      DropNothing(chunks[1..]);
    }
  }

  lemma {:induction false} AlignedFits(chunks: seq<bytes>, payloads: seq<bytes>)
    requires NonEmpty(chunks) && Aligned(chunks, payloads)
    ensures FramesFit(chunks, payloads) && Flatten(chunks) == EncodeAll(payloads)
    decreases |payloads|
  {
    hide Flatten, Frame, FrameFits, DropBytes;
    FlattenNonEmpty(chunks);
    if payloads != [] {
      var m := AlignedGroup(chunks, payloads);
      NonEmptyGroup(chunks, m);
      GroupFits(chunks, m, HEADER);
      FlattenPrefix(chunks, m);
      AlignedFits(chunks[m..], payloads[1..]);
    }
  }

  lemma NonEmptyGroup(chunks: seq<bytes>, m: nat)
    requires m <= |chunks| && |Flatten(chunks[..m])| > 0
    ensures m > 0
  {
  }

  /** Chunks that end wherever a frame ends are always enough, whatever their size. */
  lemma AlignedIsLossless(chunks: seq<bytes>, payloads: seq<bytes>)
    requires AllPayloads(payloads) && NonEmpty(chunks) && Aligned(chunks, payloads)
    ensures FreshRun(chunks).frames == payloads && Lossless(FreshRun(chunks).lost)
  {
    hide FreshRun, Flatten, FramesFit;
    AlignedFits(chunks, payloads);
    FreshReaderCorrectIff(payloads, chunks);
    LosslessIffFramesFit(payloads, chunks);
  }

  lemma {:induction false} FitsInSmallChunks(chunks: seq<bytes>, header: nat, need: nat) returns (m: nat)
    requires NonEmpty(chunks) && SmallChunks(chunks) && FrameFits(chunks, header, need) && need <= |Flatten(chunks)|
    ensures 0 < m <= |chunks| && |Flatten(chunks[..m])| == need
    decreases |chunks|
  {
    var c := |chunks[0]|;
    if need == c {
      m := 1;
      assert chunks[..1] == [chunks[0]];
    } else {
      var k := FitsInSmallChunks(chunks[1..], header - Min(header, c), need - c);
      m := k + 1;
      assert chunks[..m][1..] == chunks[1..][..k];
    }
  }

  lemma {:induction false} SmallFitsAligned(chunks: seq<bytes>, payloads: seq<bytes>)
    requires NonEmpty(chunks) && SmallChunks(chunks) && FramesFit(chunks, payloads)
    requires Flatten(chunks) == EncodeAll(payloads)
    ensures Aligned(chunks, payloads)
    decreases |payloads|
  {
    hide Flatten, Frame, FrameFits, DropBytes;
    if payloads != [] {
      var n, tail := |Frame(payloads[0])|, EncodeAll(payloads[1..]);
      var m := FitsInSmallChunks(chunks, HEADER, n);
      GroupFits(chunks, m, HEADER);
      FlattenPrefix(chunks, m);
      assert (Frame(payloads[0]) + tail)[..n] == Frame(payloads[0]);
      assert (Frame(payloads[0]) + tail)[n..] == tail;
      SmallFitsAligned(chunks[m..], payloads[1..]);
    }
  }

  /** For chunks no longer than the buffer, every frame has to end at the end of a chunk. */
  lemma FreshReaderCorrectIffAligned(payloads: seq<bytes>, chunks: seq<bytes>)
    requires AllPayloads(payloads) && NonEmpty(chunks) && SmallChunks(chunks)
    requires Flatten(chunks) == EncodeAll(payloads)
    ensures FreshRun(chunks).frames == payloads <==> Aligned(chunks, payloads)
  {
    hide FreshRun, Flatten, FramesFit, Aligned;
    FreshReaderCorrectIffFramesFit(payloads, chunks);
    if FramesFit(chunks, payloads) {
      SmallFitsAligned(chunks, payloads);
    }
    if Aligned(chunks, payloads) {
      AlignedFits(chunks, payloads);
    }
  }

  /** The bound on the loss is reached: a header split after seven bytes, an empty body, a full refill. */
  lemma LossBoundIsReached()
    ensures var chunks := [seq(7, _ => 0), seq(BUFFER, _ => 0)];
            NonEmpty(chunks) && |FreshStep(chunks).lost| == BUFFER - 1
  {
    var chunks: seq<bytes> := [seq(7, _ => 0), seq(BUFFER, _ => 0)];
    var s0 := Stream([], chunks);
    var s1 := Stream([], [chunks[1]]);
    var s2 := Stream(chunks[1][1..], []);
    assert chunks[1..] == [chunks[1]] && chunks[0][7..] == [];
    assert ReadSome(s0, HEADER) == Got(chunks[0], s1);
    assert s1.chunks[1..] == [];
    assert ReadSome(s1, 1) == Got([0], s2);
    FullReadStep(s0, HEADER);
    FullReadStep(s1, 1);
    FullReadStep(s2, 0);
    var header := FullRead(s0, HEADER).data;
    assert header == seq(8, _ => 0);
    ZeroHeader(header);
  }

  lemma {:induction false} ZeroHeader(s: bytes)
    requires forall i | 0 <= i < |s| :: s[i] == 0
    ensures FromBigEndian(s) == 0
  {
    if s != [] {
      ZeroHeader(s[..|s| - 1]);
    }
  }

  // ---------------------------------------------------------------- the gateway's first read

  /**
   * The init request of a client socket: the header is read in full, the body by one plain read into
   * a zeroed buffer, and the reader is dropped. `full` says the one read returned the whole body.
   */
  datatype InitRead = InitRead(result: FrameResult, full: bool, chunks: seq<bytes>, lost: bytes)

  function InitStep(chunks: seq<bytes>): InitRead {
    var header := FullRead(Stream([], chunks), HEADER);
    if |header.data| < HEADER then
      InitRead(Fail(if header.data == [] then EOF else UnexpectedEOF), false,
               header.stream.chunks, header.stream.buffered)
    else
      var n := FromBigEndian(header.data);
      if n >= MAX_SLICE then
        InitRead(Fail(LengthPanic), false, header.stream.chunks, header.stream.buffered)
      else if n == 0 then
        InitRead(Ok([]), true, header.stream.chunks, header.stream.buffered)
      else
        var body := ReadSome(header.stream, n);
        InitRead(if body.data == [] then Fail(EOF) else Ok(body.data + seq(n - |body.data|, _ => 0)),
                 |body.data| == n, body.stream.chunks, body.stream.buffered)
  }

  /** A plain read that returns all it is asked for is a full read. */
  lemma FullAtOnce(s: Stream, n: nat)
    requires n > 0 && |ReadSome(s, n).data| == n
    ensures FullRead(s, n) == ReadSome(s, n)
  {
    hide ReadSome, FullRead;
    var body := ReadSome(s, n);
    FullReadStep(s, n);
    FullReadStep(body.stream, 0);
    assert body.data + [] == body.data;
  }

  /** A full and lossless init read is a frame read. */
  lemma FullInitReadIsFrameRead(chunks: seq<bytes>)
    requires NonEmpty(chunks) && InitStep(chunks).full
    ensures var i := InitStep(chunks);
            FreshStep(chunks) == Fresh(i.result, i.chunks, i.lost)
  {
    hide FullRead, ReadSome, FromBigEndian, Flatten;
    var header := FullRead(Stream([], chunks), HEADER);
    var n := FromBigEndian(header.data);
    if n > 0 {
      FullAtOnce(header.stream, n);
      var body := ReadSome(header.stream, n);
      var zeros: bytes := seq(n - |body.data|, _ => 0);
      assert body.data + zeros == body.data;
    } else {
      FullReadStep(header.stream, 0);
    }
  }

  /** The gateway gets past its first read exactly when a header has come that can be a length, and of a body a byte. */
  lemma InitReadOkIff(chunks: seq<bytes>)
    requires NonEmpty(chunks)
    ensures var s := Flatten(chunks);
            InitStep(chunks).result.Ok? <==> |s| >= 8 && s[0] < 128 && (FromBigEndian(s[..8]) == 0 || |s| > 8)
  {
    var s := Flatten(chunks);
    hide FullRead, ReadSome, FromBigEndian, Flatten, NonEmpty;
    FullReadTakesPrefix(Stream([], chunks), HEADER);
    assert Pending(Stream([], chunks)) == s;
    if |s| >= HEADER {
      LengthPanicIff(s);
    }
  }

  /**
   * For an init request that fits the buffer with its header: the plain read of its body is full, and
   * nothing is read ahead, exactly when no chunk ends inside the body and one ends with it.
   */
  lemma InitReadFullIff(chunks: seq<bytes>, p: Payload, tail: bytes)
    requires NonEmpty(chunks) && Flatten(chunks) == Frame(p) + tail && p != [] && 8 + |p| < BUFFER
    ensures var i := InitStep(chunks);
            i.full && i.lost == [] <==> Uncut(chunks, 8, 8 + |p|) && ChunkEnds(chunks, 8 + |p|)
    ensures InitStep(chunks).full ==> InitStep(chunks).result == Ok(p)
  {
    FrameHeader(p);
    hide Flatten, Frame, FullRead, ReadSome, FromBigEndian, NonEmpty, ChunkEnds, Uncut;
    var s := Stream([], chunks);
    var header := FullRead(s, HEADER);
    FullReadTakesPrefix(s, HEADER);
    assert Pending(s) == Frame(p) + tail;
    assert (Frame(p) + tail)[..HEADER] == Frame(p)[..HEADER];
    var n := |p|;
    assert header.stream == After(chunks, 8);
    PlainReadFullIff(chunks, 8, n);
    var body := ReadSome(header.stream, n);
    if |body.data| == n {
      FullAtOnce(header.stream, n);
      FullReadsCompose(s, HEADER, n);
      assert body.stream == After(chunks, 8 + n);
      NothingBufferedIff(chunks, 8 + n);
      FullReadTakesPrefix(header.stream, n);
      assert (Frame(p) + tail)[HEADER..] == p + tail;
      assert (p + tail)[..n] == p;
      assert p + seq(0, _ => 0) == p;
    }
  }

  /**
   * When the plain read of the body is short, the gateway decodes what came followed by zeros: for a
   * frame whose first part is a chunk of its own, all of the body that is not in that part.
   */
  lemma ShortInitReadIsPadded(p: Payload, k: nat, more: seq<bytes>)
    requires 8 < k < 8 + |p| && k <= BUFFER && NonEmpty(more)
    ensures var i := InitStep([Frame(p)[..k]] + more);
            i == InitRead(Ok(p[..k - 8] + seq(|p| - (k - 8), _ => 0)), false, more, [])
  {
    var first := Frame(p)[..k];
    var chunks := [first] + more;
    assert chunks[1..] == more;
    FrameHeader(p);
    assert first[..HEADER] == Frame(p)[..HEADER] && first[HEADER..] == p[..k - 8];
    hide Frame, FromBigEndian, FullRead;
    AfterRefill(chunks, HEADER);
    BufferedRead(first, more, HEADER);
    FullReadTakesPrefix(Stream([], chunks), HEADER);
    assert Pending(Stream([], chunks)) == first + Flatten(more);
    assert (first + Flatten(more))[..HEADER] == first[..HEADER];
    var body := first[HEADER..];
    assert body[..|body|] == body && body[|body|..] == [];
  }

  lemma FrameHeader(p: Payload)
    ensures FromBigEndian(Frame(p)[..HEADER]) == |p| && Frame(p)[HEADER..] == p
  {
    HeaderCoversLength();
    BigEndianRoundTrip(|p|, HEADER);
    assert Frame(p)[..HEADER] == BigEndian(|p|, HEADER);
  }

  /** In numbers: of 5000 bytes behind a frame of 11, in one chunk, 4085 are lost and 915 are left. */
  lemma LossInNumbers(p: Payload, t: bytes)
    requires |p| == 3 && |t| == 5000
    ensures FreshStep([[0, 0, 0, 0, 0, 0, 0, 3] + p + t]) == Fresh(Ok(p), [t[4085..]], t[..4085])
  {
    var chunk := Frame(p) + t;
    var chunks := [chunk];
    ThreeBytes(p);
    assert [0, 0, 0, 0, 0, 0, 0, 3] + p + t == chunk;
    assert Flatten(chunks) == Frame(p) + t by { assert Flatten(chunks) == chunk + Flatten(chunks[1..]); }
    hide FreshStep, Frame, ReadOn, ParseFrame;
    var none: seq<bytes> := [];
    assert chunks[1..] == none;
    assert chunk[BUFFER..] == t[4085..];
    FreshStepReadsOn(chunks, p, t);
    ReadOnStep(chunks, HEADER, |Frame(p)|);
    FreshStepReads(chunks);
    ParseFrameOfFrame(p, t);
    var f := FreshStep(chunks);
    assert [chunk[BUFFER..]] + none == [t[4085..]];
    assert f.chunks == [t[4085..]];
    assert Flatten(f.chunks) == t[4085..];
    assert (f.lost + t[4085..])[..4085] == t[..4085];
  }

  lemma ThreeBytes(p: Payload)
    requires |p| == 3
    ensures Frame(p) == [0, 0, 0, 0, 0, 0, 0, 3] + p
  {
    BytesOfSmall(3, 8);
  }

  lemma {:induction false} BytesOfSmall(n: nat, k: nat)
    requires n < 256 && k > 0
    ensures BigEndian(n, k) == seq(k - 1, _ => 0) + [n]
    decreases k
  {
    if k > 1 {
      BytesOfSmall(0, k - 1);
      assert seq(k - 2, _ => 0) + [0] == seq(k - 1, _ => 0);
    } else {
      assert BigEndian(n / 256, 0) == [];
    }
  }

  // ---------------------------------------------------------------- the loops

  /**
   * Reads one frame. bufio.NewReader returns its argument when that is a reader with a large enough
   * buffer, so a caller that passes such a reader keeps its read-ahead from call to call.
   */
  method ReadOneFrame(reader: Reader) returns (res: FrameResult)
    requires reader.Valid()
    modifies reader, reader.conn, reader.buf
    ensures reader.Valid()
    ensures (res, reader.State()) == FrameStep(old(reader.State()))
  {
    hide FullRead, FromBigEndian, NonEmpty;
    var header := new byte[HEADER];
    var got := reader.ReadFull(header);
    if got < HEADER {
      return Fail(if got == 0 then EOF else UnexpectedEOF);
    }
    var msgLen := FromBigEndian(header[..]);
    assert header[..got] == header[..];
    if msgLen >= MAX_SLICE {
      return Fail(LengthPanic);
    }
    var dataBuf := new byte[msgLen];
    var readCnt := reader.ReadFull(dataBuf);
    if readCnt < msgLen {
      return Fail(if readCnt == 0 then EOF else UnexpectedEOF);
    }
    assert dataBuf[..readCnt] == dataBuf[..];
    return Ok(dataBuf[..]);
  }

  /** The agent's read loop, up to the error on which its consumer stops. */
  method ReadAllFrames(reader: Reader) returns (frames: seq<bytes>, error: FrameError)
    requires reader.Valid()
    modifies reader, reader.conn, reader.buf
    ensures Frames(frames, error) == ParseAll(Pending(old(reader.State())))
  {
    hide FrameStep, ParseFrame, ParseAll, Flatten;
    frames := [];
    ghost var whole := ParseAll(Pending(reader.State()));
    assert frames + whole.frames == whole.frames;
    while true
      invariant reader.Valid()
      invariant var more := ParseAll(Pending(reader.State()));
                whole == Frames(frames + more.frames, more.error)
      decreases |Pending(reader.State())|
    {
      ghost var s := reader.State();
      FrameStepReadsPending(s);
      ParseAllStep(Pending(s));
      var res := ReadOneFrame(reader);
      match res {
        case Fail(e) =>
          assert frames + [] == frames;
          return frames, e;
        case Ok(data) =>
          assert frames + ([data] + ParseAll(Pending(reader.State())).frames)
              == frames + [data] + ParseAll(Pending(reader.State())).frames;
          frames := frames + [data];
      }
    }
  }

  /**
   * The gateway's loop over a client socket: a new reader for every frame, a plain EOF ends it, any
   * other error is retried, and a length that `make` refuses panics. `sent` is what it passes on.
   */
  method ReadClientFrames(conn: Conn) returns (sent: seq<bytes>, panicked: bool)
    requires NonEmpty(conn.chunks)
    modifies conn
    ensures sent == FreshRun(old(conn.chunks)).frames
    ensures panicked <==> FreshRun(old(conn.chunks)).error == LengthPanic
  {
    hide FrameStep, FreshRun, Flatten, NonEmpty;
    sent := [];
    ghost var whole := FreshRun(conn.chunks);
    assert sent + whole.frames == whole.frames;
    while true
      invariant NonEmpty(conn.chunks)
      invariant whole.frames == sent + FreshRun(conn.chunks).frames
      invariant whole.error == LengthPanic <==> FreshRun(conn.chunks).error == LengthPanic
      decreases |Flatten(conn.chunks)|
    {
      FreshRound(conn.chunks);
      var reader := new Reader(conn);
      var res := ReadOneFrame(reader);
      match res {
        case Ok(data) =>
          assert sent + ([data] + FreshRun(conn.chunks).frames)
              == sent + [data] + FreshRun(conn.chunks).frames;
          sent := sent + [data];
        case Fail(EOF) =>
          assert sent + [] == sent;
          return sent, false;
        case Fail(LengthPanic) =>
          assert sent + [] == sent;
          return sent, true;
        case Fail(UnexpectedEOF) =>
          EmptySource();
          FlattenNonEmpty(conn.chunks);
      }
    }
  }

  lemma FreshStepIsFrameStep(chunks: seq<bytes>)
    ensures var (result, s') := FrameStep(Stream([], chunks));
            FreshStep(chunks) == Fresh(result, s'.chunks, s'.buffered)
  {
  }

  /** One round of a loop with a new reader: what is left of the run, or how it ends. */
  lemma FreshRound(chunks: seq<bytes>)
    requires NonEmpty(chunks)
    ensures var (result, s') := FrameStep(Stream([], chunks));
            var run := FreshRun(chunks);
            && NonEmpty(s'.chunks)
            && (result.Ok? ==>
                  && |Flatten(s'.chunks)| < |Flatten(chunks)|
                  && run.frames == [result.data] + FreshRun(s'.chunks).frames
                  && run.error == FreshRun(s'.chunks).error)
            && (result.Fail? ==> run.frames == [] && run.error == result.error)
            && (result == Fail(UnexpectedEOF) ==> s'.chunks == [] && |Flatten(chunks)| > 0)
  {
    hide FrameStep, FreshStep, FreshRun, ParseFrame, Flatten, NonEmpty;
    FreshStepIsFrameStep(chunks);
    FreshStepReads(chunks);
    FreshRunStep(chunks);
    if FreshStep(chunks).result == Fail(UnexpectedEOF) {
      TornFrameDrains(chunks);
    }
  }

  /** A frame torn by the end of the connection leaves nothing to read. */
  lemma TornFrameDrains(chunks: seq<bytes>)
    requires NonEmpty(chunks) && FreshStep(chunks).result == Fail(UnexpectedEOF)
    ensures FreshStep(chunks).chunks == [] && FreshStep(chunks).lost == []
    ensures |Flatten(chunks)| > 0
  {
    hide FreshStep, ParseFrame, Flatten, NonEmpty;
    FreshStepReads(chunks);
    TornFrame(Flatten(chunks));
    var f := FreshStep(chunks);
    assert f.lost + Flatten(f.chunks) == [];
    FlattenNonEmpty(f.chunks);
  }
}
