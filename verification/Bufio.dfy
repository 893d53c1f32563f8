/**
 * Go's bufio.Reader over a connection, and io.ReadFull on top of it.
 *
 * A connection is the list of non-empty chunks that successive reads can return: a read of up to `k`
 * bytes returns a prefix of the first chunk and never crosses into the next one; when no chunk is
 * left it returns end of file. A statement for all chunk lists covers every timing of arrivals.
 * The first half of the module says what the reads do as functions of (buffered bytes, chunks); the
 * second half is the reader with its array and its two indices, each method proved against those.
 */
module Bufio {
  import opened Bytes

  /** Default buffer size of bufio.NewReader. */
  const BUFFER: nat := 4096

  /** What a reader can still deliver: bytes it has read ahead, and chunks it has not asked for. */
  datatype Stream = Stream(buffered: bytes, chunks: seq<bytes>)

  function Pending(s: Stream): bytes {
    s.buffered + Flatten(s.chunks)
  }

  predicate WellFormed(s: Stream) {
    NonEmpty(s.chunks)
  }

  datatype Got = Got(data: bytes, stream: Stream)

  // ---------------------------------------------------------------- one read of the connection

  /** One read of at most `k` bytes; no bytes means end of file. */
  function ReadChunk(chunks: seq<bytes>, k: nat): (r: (bytes, seq<bytes>))
    requires k > 0
    ensures |r.0| <= k
    ensures r.0 + Flatten(r.1) == Flatten(chunks)
    ensures NonEmpty(chunks) ==> NonEmpty(r.1) && (r.0 == [] <==> chunks == [])
  {
    if chunks == [] then ([], [])
    else if |chunks[0]| <= k then (chunks[0], chunks[1..])
    else
      var rest := [chunks[0][k..]] + chunks[1..];
      assert Flatten(rest) == chunks[0][k..] + Flatten(chunks[1..]) by {
        assert rest[1..] == chunks[1..];
      }
      (chunks[0][..k], rest)
  }

  /**
   * One bufio read of at most `k` bytes: buffered bytes first; with an empty buffer a request of at
   * least the buffer's size goes straight to the connection, a smaller one refills the buffer once.
   */
  function ReadSome(s: Stream, k: nat): (g: Got)
    requires k > 0
    ensures |g.data| <= k
    ensures g.data + Pending(g.stream) == Pending(s)
    ensures WellFormed(s) ==> WellFormed(g.stream) && (g.data == [] <==> Pending(s) == [])
  {
    if s.buffered != [] then
      var n := Min(k, |s.buffered|);
      Got(s.buffered[..n], Stream(s.buffered[n..], s.chunks))
    else if k >= BUFFER then
      var r := ReadChunk(s.chunks, k);
      Got(r.0, Stream([], r.1))
    else
      var r := ReadChunk(s.chunks, BUFFER);
      var n := Min(k, |r.0|);
      Got(r.0[..n], Stream(r.0[n..], r.1))
  }

  /** With an empty buffer: a read of the connection, or a refill and then a read of what came. */
  lemma EmptyBufferSome(chunks: seq<bytes>, k: nat)
    requires k > 0
    ensures k >= BUFFER ==>
              ReadSome(Stream([], chunks), k) == Got(ReadChunk(chunks, k).0, Stream([], ReadChunk(chunks, k).1))
    ensures k < BUFFER ==>
              var (came, rest) := ReadChunk(chunks, BUFFER);
              ReadSome(Stream([], chunks), k)
              == if came == [] then Got([], Stream([], rest)) else ReadSome(Stream(came, rest), k)
  {
    hide ReadChunk;
  }

  /** io.ReadFull: reads until `k` bytes have come or a read returns end of file. */
  function FullRead(s: Stream, k: nat): (g: Got)
    ensures |g.data| <= k
    decreases k
  {
    if k == 0 then Got([], s)
    else
      var g := ReadSome(s, k);
      if g.data == [] then g
      else
        var more := FullRead(g.stream, k - |g.data|);
        Got(g.data + more.data, more.stream)
  }

  lemma FullReadStep(s: Stream, k: nat)
    ensures k == 0 ==> FullRead(s, k) == Got([], s)
    ensures k > 0 && ReadSome(s, k).data == [] ==> FullRead(s, k) == ReadSome(s, k)
    ensures k > 0 && ReadSome(s, k).data != [] ==>
              var g := ReadSome(s, k);
              var more := FullRead(g.stream, k - |g.data|);
              FullRead(s, k) == Got(g.data + more.data, more.stream)
  {
    hide ReadSome;
  }

  /** `data` has been read towards a full read of `k` bytes that began at `s`, and `s'` is left. */
  predicate ReadSoFar(s: Stream, k: nat, data: bytes, s': Stream) {
    && |data| <= k
    && var more := FullRead(s', k - |data|);
       FullRead(s, k) == Got(data + more.data, more.stream)
  }

  lemma FullReadFromStart(s: Stream, k: nat)
    ensures ReadSoFar(s, k, [], s)
  {
    hide FullRead;
    assert [] + FullRead(s, k).data == FullRead(s, k).data;
  }

  lemma FullReadGoesOn(s: Stream, k: nat, data: bytes, s': Stream, g: Got)
    requires ReadSoFar(s, k, data, s') && |data| < k && g == ReadSome(s', k - |data|)
    ensures g.data == [] ==> FullRead(s, k) == Got(data + g.data, g.stream)
    ensures g.data != [] ==> ReadSoFar(s, k, data + g.data, g.stream)
  {
    hide FullRead, ReadSome;
    FullReadStep(s', k - |data|);
    if g.data != [] {
      var more := FullRead(g.stream, k - |data| - |g.data|);
      assert data + (g.data + more.data) == data + g.data + more.data;
    }
  }

  lemma FullReadIsDone(s: Stream, k: nat, data: bytes, s': Stream)
    requires ReadSoFar(s, k, data, s') && |data| == k
    ensures FullRead(s, k) == Got(data, s')
  {
    hide FullRead;
    FullReadStep(s', 0);
    assert data + [] == data;
  }

  /** However the bytes arrive, ReadFull returns the next `k` of them, or all there are. */
  lemma {:induction false} FullReadTakesPrefix(s: Stream, k: nat)
    requires WellFormed(s)
    ensures var g := FullRead(s, k);
            && WellFormed(g.stream)
            && g.data == Pending(s)[..Min(k, |Pending(s)|)]
            && Pending(g.stream) == Pending(s)[|g.data|..]
    decreases k
  {
    hide ReadSome, Flatten;
    if k > 0 {
      var g := ReadSome(s, k);
      if g.data != [] {
        FullReadTakesPrefix(g.stream, k - |g.data|);
      }
    }
  }

  // ---------------------------------------------------------------- which chunks a read touches

  /** The chunks without their first `n` bytes. */
  function DropBytes(chunks: seq<bytes>, n: nat): (r: seq<bytes>)
    requires n <= |Flatten(chunks)|
    ensures NonEmpty(chunks) ==> NonEmpty(r)
    ensures Flatten(r) == Flatten(chunks)[n..]
    decreases |chunks|
  {
    if n == 0 then chunks
    else if |chunks[0]| <= n then DropBytes(chunks[1..], n - |chunks[0]|)
    else
      var r := [chunks[0][n..]] + chunks[1..];
      assert r[1..] == chunks[1..];
      r
  }

  /** What a reader with an empty buffer leaves when `n` bytes are read: bytes read ahead, and chunks. */
  lemma {:induction false} EmptyBufferRead(chunks: seq<bytes>, n: nat)
    requires NonEmpty(chunks) && n <= |Flatten(chunks)|
    ensures FullRead(Stream([], chunks), n).stream.chunks == ReadOn(chunks, 0, n).1
    ensures |FullRead(Stream([], chunks), n).stream.buffered| == ReadOn(chunks, 0, n).0
    decreases n
  {
    hide FullRead, ReadOn, ReadChunk, Flatten, NonEmpty;
    FullReadStep(Stream([], chunks), n);
    ReadOnStep(chunks, 0, n);
    if n > 0 {
      var r := ReadChunk(chunks, if n >= BUFFER then n else BUFFER);
      var m := Min(n, |r.0|);
      assert ReadSome(Stream([], chunks), n) == Got(r.0[..m], Stream(r.0[m..], r.1));
      FlattenNonEmpty(chunks);
      if |r.0| < n {
        assert r.0[m..] == [];
        EmptyBufferRead(r.1, n - m);
      } else {
        FullReadStep(Stream(r.0[m..], r.1), 0);
      }
    }
  }

  /** With bytes in the buffer these are used up first. */
  lemma BufferedRead(buffered: bytes, chunks: seq<bytes>, n: nat)
    ensures n <= |buffered|
            ==> FullRead(Stream(buffered, chunks), n).stream == Stream(buffered[n..], chunks)
    ensures n > |buffered|
            ==> FullRead(Stream(buffered, chunks), n).stream
                == FullRead(Stream([], chunks), n - |buffered|).stream
  {
    hide FullRead;
    var s := Stream(buffered, chunks);
    FullReadStep(s, n);
    if n > 0 && buffered != [] {
      var m := Min(n, |buffered|);
      assert ReadSome(s, n) == Got(buffered[..m], Stream(buffered[m..], chunks));
      FullReadStep(Stream(buffered[m..], chunks), 0);
      assert n >= |buffered| ==> buffered[m..] == [];
    }
  }

  /**
   * A reader with an empty buffer reads on, first the `header` missing bytes of a header and then the
   * rest of the `need` missing bytes of its frame: the number of bytes read ahead, and the chunks left.
   * A read of the connection asks for a whole buffer, or for all that is missing when that is as much
   * and the header is complete.
   */
  function ReadOn(chunks: seq<bytes>, header: nat, need: nat): (nat, seq<bytes>)
    requires NonEmpty(chunks) && need <= |Flatten(chunks)|
    decreases need
  {
    if need == 0 then (0, chunks)
    else
      FlattenNonEmpty(chunks);
      var (got, rest) := ReadChunk(chunks, if header == 0 && need >= BUFFER then need else BUFFER);
      if |got| >= need then (|got| - need, rest)
      else ReadOn(rest, header - Min(header, |got|), need - |got|)
  }

  lemma ReadOnStep(chunks: seq<bytes>, header: nat, need: nat)
    requires NonEmpty(chunks) && need <= |Flatten(chunks)|
    ensures need == 0 ==> ReadOn(chunks, header, need) == (0, chunks)
    ensures need > 0 ==>
              var (got, rest) := ReadChunk(chunks, if header == 0 && need >= BUFFER then need else BUFFER);
              && got != []
              && ReadOn(chunks, header, need)
                 == if |got| >= need then (|got| - need, rest)
                    else ReadOn(rest, header - Min(header, |got|), need - |got|)
  {
    FlattenNonEmpty(chunks);
    hide ReadChunk;
  }

  /** A header and a body read one after the other. */
  lemma {:induction false} HeaderRead(chunks: seq<bytes>, h: nat, n: nat)
    requires NonEmpty(chunks) && h + n <= |Flatten(chunks)| && 0 < h < BUFFER
    ensures var s := FullRead(FullRead(Stream([], chunks), h).stream, n).stream;
            (|s.buffered|, s.chunks) == ReadOn(chunks, h, h + n)
    decreases h
  {
    hide FullRead, ReadOn, ReadChunk, Flatten, NonEmpty;
    var r := ReadChunk(chunks, BUFFER);
    var m := Min(h, |r.0|);
    FlattenNonEmpty(chunks);
    FullReadStep(Stream([], chunks), h);
    ReadOnStep(chunks, h, h + n);
    assert ReadSome(Stream([], chunks), h) == Got(r.0[..m], Stream(r.0[m..], r.1));
    if |r.0| < h {
      assert r.0[m..] == [];
      HeaderRead(r.1, h - m, n);
    } else {
      FullReadStep(Stream(r.0[m..], r.1), 0);
      BufferedRead(r.0[m..], r.1, n);
      if n > |r.0| - h {
        EmptyBufferRead(r.1, n - (|r.0| - h));
      }
    }
  }

  lemma ReadSomeReadAhead(s: Stream, k: nat)
    requires |s.buffered| < BUFFER && k > 0
    ensures |ReadSome(s, k).stream.buffered| < BUFFER
  {
  }

  /** Read-ahead is what one refill leaves behind: never a whole buffer. */
  lemma {:induction false} FullReadReadAhead(s: Stream, k: nat)
    requires |s.buffered| < BUFFER
    ensures |FullRead(s, k).stream.buffered| < BUFFER
    decreases k
  {
    hide FullRead, ReadSome;
    FullReadStep(s, k);
    if k > 0 {
      var g := ReadSome(s, k);
      ReadSomeReadAhead(s, k);
      if g.data != [] {
        FullReadReadAhead(g.stream, k - |g.data|);
      }
    }
  }

  // ---------------------------------------------------------------- small reads, told from the arrival

  /** A chunk ends behind the first `n` bytes. */
  predicate ChunkEnds(chunks: seq<bytes>, n: nat) {
    exists m | 0 <= m <= |chunks| :: |Flatten(chunks[..m])| == n
  }

  lemma ChunkEndsFirst(chunks: seq<bytes>, n: nat)
    requires NonEmpty(chunks) && chunks != [] && n > 0
    ensures ChunkEnds(chunks, n) <==> n >= |chunks[0]| && ChunkEnds(chunks[1..], n - |chunks[0]|)
  {
    var c := |chunks[0]|;
    if ChunkEnds(chunks, n) {
      var m :| 0 <= m <= |chunks| && |Flatten(chunks[..m])| == n;
      assert m > 0;
      assert chunks[..m][1..] == chunks[1..][..m - 1];
    }
    if n >= c && ChunkEnds(chunks[1..], n - c) {
      var m :| 0 <= m <= |chunks[1..]| && |Flatten(chunks[1..][..m])| == n - c;
      assert chunks[..m + 1][1..] == chunks[1..][..m];
      assert |Flatten(chunks[..m + 1])| == n;
    }
  }

  lemma ChunkEndsAtStart(chunks: seq<bytes>)
    ensures ChunkEnds(chunks, 0)
  {
    assert |Flatten(chunks[..0])| == 0;
  }

  /** What a reader that began with an empty buffer is left with behind the first `n` bytes. */
  function After(chunks: seq<bytes>, n: nat): Stream {
    FullRead(Stream([], chunks), n).stream
  }

  lemma AfterNothing(chunks: seq<bytes>)
    ensures After(chunks, 0) == Stream([], chunks)
  {
  }

  /** Fewer bytes than a buffer holds are read from the bytes of one refill. */
  lemma AfterRefill(chunks: seq<bytes>, n: nat)
    requires 0 < n < BUFFER && ReadChunk(chunks, BUFFER).0 != []
    ensures After(chunks, n)
         == FullRead(Stream(ReadChunk(chunks, BUFFER).0, ReadChunk(chunks, BUFFER).1), n).stream
  {
    hide FullRead, ReadSome, ReadChunk;
    EmptyBufferSome(chunks, n);
    FullReadStep(Stream([], chunks), n);
    FullReadStep(Stream(ReadChunk(chunks, BUFFER).0, ReadChunk(chunks, BUFFER).1), n);
  }

  lemma AfterInside(chunks: seq<bytes>, n: nat)
    requires chunks != [] && 0 < n < |chunks[0]| && n < BUFFER
    ensures var (came, rest) := ReadChunk(chunks, BUFFER);
            |came| == Min(|chunks[0]|, BUFFER) && After(chunks, n) == Stream(came[n..], rest)
  {
    hide FullRead;
    var (came, rest) := ReadChunk(chunks, BUFFER);
    AfterRefill(chunks, n);
    BufferedRead(came, rest, n);
  }

  lemma AfterChunk(chunks: seq<bytes>, n: nat)
    requires NonEmpty(chunks) && chunks != [] && |chunks[0]| <= n < BUFFER
    ensures After(chunks, n) == After(chunks[1..], n - |chunks[0]|)
  {
    hide FullRead;
    AfterRefill(chunks, n);
    BufferedRead(chunks[0], chunks[1..], n);
    AfterNothing(chunks[1..]);
    assert chunks[0][|chunks[0]|..] == [];
  }

  /** Behind fewer bytes than a buffer holds nothing is read ahead exactly when a chunk ends there. */
  lemma {:induction false} NothingBufferedIff(chunks: seq<bytes>, n: nat)
    requires NonEmpty(chunks) && n < BUFFER && n <= |Flatten(chunks)|
    ensures After(chunks, n).buffered == [] <==> ChunkEnds(chunks, n)
    decreases n
  {
    hide After, ChunkEnds, NonEmpty, ReadChunk;
    if n == 0 {
      AfterNothing(chunks);
      ChunkEndsAtStart(chunks);
    } else {
      assert chunks != [];
      ChunkEndsFirst(chunks, n);
      if n < |chunks[0]| {
        AfterInside(chunks, n);
      } else {
        AfterChunk(chunks, n);
        RestNonEmpty(chunks);
        NothingBufferedIff(chunks[1..], n - |chunks[0]|);
      }
    }
  }

  lemma RestNonEmpty(chunks: seq<bytes>)
    requires NonEmpty(chunks) && chunks != []
    ensures NonEmpty(chunks[1..]) && |chunks[0]| > 0 && |Flatten(chunks)| == |chunks[0]| + |Flatten(chunks[1..])|
  {
  }

  /** No chunk ends strictly between two places. */
  ghost predicate Uncut(chunks: seq<bytes>, from: nat, to: nat) {
    forall n: nat | from < n < to :: !ChunkEnds(chunks, n)
  }

  lemma UncutFirst(chunks: seq<bytes>, from: nat, to: nat)
    requires NonEmpty(chunks) && chunks != [] && from < to
    ensures from < |chunks[0]| ==> (Uncut(chunks, from, to) <==> to <= |chunks[0]|)
    ensures from >= |chunks[0]| ==>
              (Uncut(chunks, from, to) <==> Uncut(chunks[1..], from - |chunks[0]|, to - |chunks[0]|))
  {
    hide ChunkEnds, NonEmpty;
    var c := |chunks[0]|;
    RestNonEmpty(chunks);
    forall n: nat | n > 0 ensures ChunkEnds(chunks, n) <==> n >= c && ChunkEnds(chunks[1..], n - c) {
      ChunkEndsFirst(chunks, n);
    }
    ChunkEndsAtStart(chunks[1..]);
    assert ChunkEnds(chunks, c);
    if from >= c && Uncut(chunks, from, to) {
      forall n: nat | from - c < n < to - c ensures !ChunkEnds(chunks[1..], n) {
        assert !ChunkEnds(chunks, n + c);
      }
    }
  }

  /** A plain read of `k` bytes behind the first `n` gets them all exactly when no chunk ends inside them. */
  lemma {:induction false} PlainReadFullIff(chunks: seq<bytes>, n: nat, k: nat)
    requires NonEmpty(chunks) && 0 < k && n + k < BUFFER && n + k <= |Flatten(chunks)|
    ensures |ReadSome(After(chunks, n), k).data| == k <==> Uncut(chunks, n, n + k)
    decreases n
  {
    hide After, ChunkEnds, NonEmpty, Uncut;
    RestNonEmpty(chunks);
    UncutFirst(chunks, n, n + k);
    var c := |chunks[0]|;
    if n == 0 {
      AfterNothing(chunks);
    } else if n < c {
      AfterInside(chunks, n);
    } else {
      AfterChunk(chunks, n);
      PlainReadFullIff(chunks[1..], n - c, k);
    }
  }

  // ---------------------------------------------------------------- reads one after the other

  /** A full read of `a` bytes and then of `b` is one of `a + b`, for fewer bytes than a buffer holds. */
  lemma {:induction false} FullReadsCompose(s: Stream, a: nat, b: nat)
    requires WellFormed(s) && a + b < BUFFER && a + b <= |Pending(s)|
    ensures FullRead(FullRead(s, a).stream, b).stream == FullRead(s, a + b).stream
    decreases a, |s.chunks|
  {
    hide FullRead, ReadSome, ReadChunk;
    var buffered, chunks := s.buffered, s.chunks;
    if a == 0 {
      FullReadStep(s, 0);
    } else if b == 0 {
      FullReadStep(FullRead(s, a).stream, 0);
    } else {
      BufferedRead(buffered, chunks, a);
      BufferedRead(buffered, chunks, a + b);
      if a < |buffered| {
        BufferedRead(buffered[a..], chunks, b);
        assert buffered[a..][Min(b, |buffered| - a)..] == buffered[Min(a + b, |buffered|)..];
      } else if a == |buffered| {
        assert buffered[a..] == [];
      } else if buffered != [] {
        FullReadsCompose(Stream([], chunks), a - |buffered|, b);
      } else {
        RestNonEmpty(chunks);
        RefillsCompose(chunks, a, b);
      }
    }
  }

  lemma {:induction false} RefillsCompose(chunks: seq<bytes>, a: nat, b: nat)
    requires NonEmpty(chunks) && 0 < a && 0 < b && a + b < BUFFER && a + b <= |Flatten(chunks)|
    ensures FullRead(After(chunks, a), b).stream == After(chunks, a + b)
    decreases |chunks|
  {
    hide FullRead, ReadChunk, Flatten, NonEmpty;
    FlattenNonEmpty(chunks);
    RestNonEmpty(chunks);
    var c := |chunks[0]|;
    if a < c {
      AfterInside(chunks, a);
      var (came, rest) := ReadChunk(chunks, BUFFER);
      AfterRefill(chunks, a + b);
      BufferedRead(came[a..], rest, b);
      BufferedRead(came, rest, a + b);
      assert a + b <= |came| ==> came[a..][b..] == came[a + b..];
    } else {
      AfterChunk(chunks, a);
      AfterChunk(chunks, a + b);
      if a == c {
        AfterNothing(chunks[1..]);
      } else {
        RefillsCompose(chunks[1..], a - c, b);
      }
    }
  }

  /** A short read gets what a full read of as many bytes gets. */
  lemma ShortReadIsFull(s: Stream, k: nat)
    requires WellFormed(s) && 0 < k < BUFFER
    ensures var g := ReadSome(s, k); FullRead(s, |g.data|) == g
  {
    hide FullRead, ReadSome, Pending, Flatten, NonEmpty, WellFormed;
    var g := ReadSome(s, k);
    FullReadStep(s, |g.data|);
    if g.data != [] {
      SameSome(s, k);
      FullReadStep(g.stream, 0);
      assert g.data + [] == g.data;
    } else {
      EmptyRead(s, k);
    }
  }

  lemma EmptyRead(s: Stream, k: nat)
    requires WellFormed(s) && k > 0 && ReadSome(s, k).data == []
    ensures ReadSome(s, k) == Got([], s)
  {
  }

  lemma SameSome(s: Stream, k: nat)
    requires WellFormed(s) && 0 < k < BUFFER && ReadSome(s, k).data != []
    ensures ReadSome(s, |ReadSome(s, k).data|) == ReadSome(s, k)
  {
    hide ReadChunk;
  }

  // ---------------------------------------------------------------- the reader itself

  /** The receiving end of a connection. */
  class Conn {
    var chunks: seq<bytes>

    constructor (chunks: seq<bytes>)
      ensures this.chunks == chunks
    {
      this.chunks := chunks;
    }

    /** Reads into p[lo..hi]; returns the number of bytes, 0 for end of file. */
    method Read(p: array<byte>, lo: nat, hi: nat) returns (n: nat)
      requires lo < hi <= p.Length
      requires NonEmpty(chunks)
      modifies this, p
      ensures n <= hi - lo
      ensures (p[lo..lo + n], chunks) == ReadChunk(old(chunks), hi - lo)
      ensures p[..lo] == old(p[..lo]) && p[lo + n..] == old(p[lo + n..])
      ensures p[hi..] == old(p[hi..])
    {
      if chunks == [] {
        n := 0;
        assert p[lo..lo] == [];
        return;
      }
      var c := chunks[0];
      n := if |c| <= hi - lo then |c| else hi - lo;
      forall i | 0 <= i < n {
        p[lo + i] := c[i];
      }
      chunks := if n == |c| then chunks[1..] else [c[n..]] + chunks[1..];
      assert p[lo..lo + n] == c[..n];
      assert c[..|c|] == c;
    }
  }

  class Reader {
    const conn: Conn
    const buf: array<byte>
    var r: nat
    var w: nat

    ghost predicate Valid()
      reads this, conn
    {
      buf.Length == BUFFER && r <= w <= BUFFER && NonEmpty(conn.chunks)
    }

    ghost function State(): Stream
      requires Valid()
      reads this, conn, buf
    {
      Stream(buf[r..w], conn.chunks)
    }

    constructor (conn: Conn)
      requires NonEmpty(conn.chunks)
      ensures Valid() && fresh(buf)
      ensures this.conn == conn && State() == Stream([], conn.chunks)
    {
      this.conn := conn;
      buf := new byte[BUFFER];
      r, w := 0, 0;
    }

    /** One read into p[lo..hi]. */
    method Read(p: array<byte>, lo: nat, hi: nat) returns (n: nat)
      requires Valid() && p != buf && lo < hi <= p.Length
      modifies this, conn, buf, p
      ensures Valid() && n <= hi - lo
      ensures Got(p[lo..lo + n], State()) == ReadSome(old(State()), hi - lo)
      ensures p[..lo] == old(p[..lo]) && p[lo + n..] == old(p[lo + n..])
      ensures p[hi..] == old(p[hi..])
    {
      hide ReadChunk, ReadSome, Flatten, NonEmpty;
      EmptyBufferSome(conn.chunks, hi - lo);
      if r == w {
        assert State() == Stream([], conn.chunks);
        if hi - lo >= BUFFER {
          n := conn.Read(p, lo, hi);
          assert State() == Stream([], conn.chunks);
          return;
        }
        Refill();
        if r == w {
          assert State() == Stream([], conn.chunks);
          assert p[lo..lo] == [];
          return 0;
        }
      }
      n := Take(p, lo, hi);
    }

    /** One read of the connection into the empty buffer. */
    method Refill()
      requires Valid() && r == w
      modifies this`r, this`w, conn, buf
      ensures Valid()
      ensures (State().buffered, State().chunks) == ReadChunk(old(conn.chunks), BUFFER)
    {
      hide ReadChunk, Flatten;
      r, w := 0, 0;
      w := conn.Read(buf, 0, BUFFER);
    }

    /** Copies as many buffered bytes as fit. */
    method Take(p: array<byte>, lo: nat, hi: nat) returns (n: nat)
      requires Valid() && p != buf && lo < hi <= p.Length && r < w
      modifies this`r, p
      ensures Valid() && n <= hi - lo
      ensures Got(p[lo..lo + n], State()) == ReadSome(old(State()), hi - lo)
      ensures p[..lo] == old(p[..lo]) && p[lo + n..] == old(p[lo + n..])
      ensures p[hi..] == old(p[hi..])
    {
      hide ReadChunk, Flatten, NonEmpty;
      ghost var b, before := buf[r..w], p[..lo];
      n := if hi - lo <= w - r then hi - lo else w - r;
      forall i | 0 <= i < n {
        p[lo + i] := buf[r + i];
      }
      assert forall i | 0 <= i < n :: p[lo + i] == b[i];
      assert p[..lo] == before;
      assert p[lo..lo + n] == b[..n];
      r := r + n;
      assert buf[r..w] == b[n..];
    }

    /** io.ReadFull of a whole array: `n` is its length unless the connection ended first. */
    method ReadFull(p: array<byte>) returns (n: nat)
      requires Valid() && p != buf
      modifies this, conn, buf, p
      ensures Valid() && n <= p.Length
      ensures Got(p[..n], State()) == FullRead(old(State()), p.Length)
    {
      hide *;
      n := 0;
      ghost var s := State();
      FullReadFromStart(s, p.Length);
      assert p[..0] == [];
      while n < p.Length
        invariant Valid() && n <= p.Length
        invariant ReadSoFar(s, p.Length, p[..n], State())
      {
        ghost var before, s' := p[..n], State();
        var got := Read(p, n, p.Length);
        assert p[..n + got] == before + p[n..n + got];
        FullReadGoesOn(s, p.Length, before, s', Got(p[n..n + got], State()));
        n := n + got;
        if got == 0 {
          return;
        }
      }
      FullReadIsDone(s, p.Length, p[..n], State());
    }
  }
}
