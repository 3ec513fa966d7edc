/** The pipe's ring buffer (lab/lib/pipe.c) with one reader and one writer, interleaved
    at every load, store and increment of shared memory. */
module PipeRing {
  import opened Basics

  const PIPEBUFSIZ: nat := 32
  const LIMIT: int := 0x8000_0000              // positions are off_t, a 32-bit signed type

  /** Where devpipe_write is: between bytes; with byte `c` to store; having loaded the
      read position `r`; past the full test; having stored the byte. */
  datatype Writer = WIdle | WWant(c: byte) | WLoaded(c: byte, r: int) | WRoom(c: byte) | WStored(c: byte)

  /** Where devpipe_read is: between bytes; having loaded the write position `w`; past
      the empty test; holding the byte `c` it took. */
  datatype Reader = RIdle | RLoaded(w: int) | RAvail | RTook(c: byte)

  /** `sent` are the bytes whose write has completed, `got` the bytes taken out. */
  datatype Pipe = Pipe(rpos: int, wpos: int, buf: seq<byte>, writer: Writer, reader: Reader, sent: seq<byte>, got: seq<byte>)

  datatype Act =
    | Begin(c: byte)                           // next byte of a write call
    | LoadR | TestFull | StoreByte | IncW
    | LoadW | TestEmpty | TakeByte | IncR
    | GiveUp                                   // either side returns or yields between bytes

  predicate Enabled(p: Pipe, a: Act) {
    match a
    case Begin(_) => p.writer.WIdle? && p.wpos < LIMIT - PIPEBUFSIZ
    case LoadR => p.writer.WWant?
    case TestFull => p.writer.WLoaded?
    case StoreByte => p.writer.WRoom?
    case IncW => p.writer.WStored?
    case LoadW => p.reader.RIdle?
    case TestEmpty => p.reader.RLoaded?
    case TakeByte => p.reader.RAvail?
    case IncR => p.reader.RTook?
    case GiveUp => p.writer.WWant?
  }

  function Step(p: Pipe, a: Act): Pipe
    requires Enabled(p, a) && |p.buf| == PIPEBUFSIZ && p.rpos >= 0 && p.wpos >= 0
  {
    match a
    case Begin(c) => p.(writer := WWant(c))
    case LoadR => p.(writer := WLoaded(p.writer.c, p.rpos))
    case TestFull => p.(writer := if p.wpos >= p.writer.r + PIPEBUFSIZ then WWant(p.writer.c) else WRoom(p.writer.c))
    case StoreByte => p.(buf := p.buf[p.wpos % PIPEBUFSIZ := p.writer.c], writer := WStored(p.writer.c))
    case IncW => p.(wpos := p.wpos + 1, writer := WIdle, sent := p.sent + [p.writer.c])
    case LoadW => p.(reader := RLoaded(p.wpos))
    case TestEmpty => p.(reader := if p.rpos == p.reader.w then RIdle else RAvail)
    case TakeByte => p.(reader := RTook(p.buf[p.rpos % PIPEBUFSIZ]))
    case IncR => p.(rpos := p.rpos + 1, reader := RIdle, got := p.got + [p.reader.c])
    case GiveUp => p.(writer := WIdle)
  }

  ghost predicate Initial(p: Pipe) {
    p.rpos == 0 && p.wpos == 0 && |p.buf| == PIPEBUFSIZ && p.writer == WIdle && p.reader == RIdle && p.sent == [] && p.got == []
  }

  /** The ring holds the bytes sent and not yet taken, and each side's local copy of the
      other's position is on the safe side. */
  ghost predicate Safe(p: Pipe) {
    && |p.buf| == PIPEBUFSIZ && |p.sent| == p.wpos && |p.got| == p.rpos
    && 0 <= p.wpos - p.rpos <= PIPEBUFSIZ && p.wpos < LIMIT
    && p.got <= p.sent
    && (forall k :: p.rpos <= k < p.wpos ==> p.buf[k % PIPEBUFSIZ] == p.sent[k])
    && WriterOk(p) && ReaderOk(p)
  }

  ghost predicate WriterOk(p: Pipe)
    requires |p.buf| == PIPEBUFSIZ
  {
    match p.writer
    case WIdle => true
    case WWant(_) => p.wpos < LIMIT - PIPEBUFSIZ
    case WLoaded(_, r) => r <= p.rpos && p.wpos < LIMIT - PIPEBUFSIZ
    case WRoom(_) => p.wpos < p.rpos + PIPEBUFSIZ && p.wpos < LIMIT - PIPEBUFSIZ
    case WStored(c) => 0 <= p.wpos < p.rpos + PIPEBUFSIZ && p.wpos < LIMIT - PIPEBUFSIZ && p.buf[p.wpos % PIPEBUFSIZ] == c
  }

  ghost predicate ReaderOk(p: Pipe)
    requires |p.sent| == p.wpos
  {
    match p.reader
    case RIdle => true
    case RLoaded(w) => p.rpos <= w <= p.wpos
    case RAvail => p.rpos < p.wpos
    case RTook(c) => 0 <= p.rpos < p.wpos && c == p.sent[p.rpos]
  }

  lemma StepSafe(p: Pipe, a: Act)
    requires Safe(p) && Enabled(p, a)
    ensures Safe(Step(p, a))
  {
    if a.StoreByte? {
      forall k | p.rpos <= k < p.wpos ensures k % PIPEBUFSIZ != p.wpos % PIPEBUFSIZ {
        Apart(k, p.wpos);
      }
    }
  }

  /** Positions less than a buffer length apart fall on different bytes of the ring. */
  lemma Apart(a: int, b: int)
    requires 0 <= a < b < a + PIPEBUFSIZ
    ensures a % PIPEBUFSIZ != b % PIPEBUFSIZ
  {
  }

  ghost predicate Reaches(p: Pipe, acts: seq<Act>, p': Pipe)
    requires Safe(p)
    decreases |acts|
  {
    if acts == [] then p' == p
    else Enabled(p, acts[0]) && (StepSafe(p, acts[0]); Reaches(Step(p, acts[0]), acts[1..], p'))
  }

  /** In every interleaving the bytes read are a prefix of the bytes written, and the
      positions are never more than the buffer size apart. */
  lemma {:induction false} RingIsFifo(p: Pipe, acts: seq<Act>, p': Pipe)
    requires Safe(p) && Reaches(p, acts, p')
    ensures Safe(p') && p'.got <= p'.sent && 0 <= p'.wpos - p'.rpos <= PIPEBUFSIZ
    ensures p.sent <= p'.sent && p.got <= p'.got
    decreases |acts|
  {
    if acts == [] {
    } else {
      StepSafe(p, acts[0]);
      RingIsFifo(Step(p, acts[0]), acts[1..], p');
    }
  }

  lemma InitialIsSafe(p: Pipe)
    requires Initial(p)
    ensures Safe(p)
  {
  }

  // ---- what is sent, and that bytes move ----

  /** The byte the writer is busy with. */
  function Offered(w: Writer): Option<byte> {
    match w
    case WIdle => None
    case WWant(c) => Some(c)
    case WLoaded(c, _) => Some(c)
    case WRoom(c) => Some(c)
    case WStored(c) => Some(c)
  }

  /** The bytes whose write the steps complete: each offered last before it was counted. */
  function Completed(acts: seq<Act>, offered: Option<byte>): seq<byte> {
    if acts == [] then []
    else
      match acts[0]
      case Begin(c) => Completed(acts[1..], Some(c))
      case GiveUp => Completed(acts[1..], None)
      case IncW => (if offered.Some? then [offered.value] else []) + Completed(acts[1..], None)
      case _ => Completed(acts[1..], offered)
  }

  /** In every interleaving the bytes sent are the bytes offered, in order. */
  lemma {:induction false} SentIsOffered(p: Pipe, acts: seq<Act>, p': Pipe)
    requires Safe(p) && Reaches(p, acts, p')
    ensures p'.sent == p.sent + Completed(acts, Offered(p.writer))
    decreases |acts|
  {
    if acts == [] {
    } else {
      StepSafe(p, acts[0]);
      SentIsOffered(Step(p, acts[0]), acts[1..], p');
    }
  }

  const PUT: seq<Act> := [LoadR, TestFull, StoreByte, IncW]
  const GET: seq<Act> := [LoadW, TestEmpty, TakeByte, IncR]

  /** Uninterrupted, the writer puts its byte in exactly if there is room for it. */
  lemma PutWhenRoom(p: Pipe, c: byte)
    requires Safe(p) && p.writer == WWant(c)
    ensures p.wpos - p.rpos < 32 ==>
              Reaches(p, PUT, p.(buf := p.buf[p.wpos % 32 := c], wpos := p.wpos + 1, writer := WIdle, sent := p.sent + [c]))
    ensures p.wpos - p.rpos >= 32 ==> Reaches(p, PUT[..2], p)
  {
    var p1 := Step(p, LoadR);
    StepSafe(p, LoadR);
    var p2 := Step(p1, TestFull);
    StepSafe(p1, TestFull);
    if p.wpos - p.rpos < 32 {
      var p3 := Step(p2, StoreByte);
      StepSafe(p2, StoreByte);
      var p4 := Step(p3, IncW);
      StepSafe(p3, IncW);
      Four(p, p1, p2, p3, p4, PUT);
    } else {
      assert PUT[..2][1..] == [TestFull] && PUT[..2][1..][1..] == [];
      assert Reaches(p1, [TestFull], p2);
    }
  }

  /** Uninterrupted, the reader takes the next byte exactly if there is one. */
  lemma GetWhenSome(p: Pipe)
    requires Safe(p) && p.reader == RIdle
    ensures p.rpos < p.wpos ==> Reaches(p, GET, p.(rpos := p.rpos + 1, got := p.got + [p.sent[p.rpos]]))
    ensures p.rpos == p.wpos ==> Reaches(p, GET[..2], p)
  {
    var p1 := Step(p, LoadW);
    StepSafe(p, LoadW);
    var p2 := Step(p1, TestEmpty);
    StepSafe(p1, TestEmpty);
    if p.rpos < p.wpos {
      var p3 := Step(p2, TakeByte);
      StepSafe(p2, TakeByte);
      var p4 := Step(p3, IncR);
      StepSafe(p3, IncR);
      Four(p, p1, p2, p3, p4, GET);
    } else {
      assert GET[..2][1..] == [TestEmpty] && GET[..2][1..][1..] == [];
      assert Reaches(p1, [TestEmpty], p2);
    }
  }

  lemma Four(p: Pipe, p1: Pipe, p2: Pipe, p3: Pipe, p4: Pipe, acts: seq<Act>)
    requires |acts| == 4 && Safe(p) && Safe(p1) && Safe(p2) && Safe(p3) && Safe(p4)
    requires Enabled(p, acts[0]) && p1 == Step(p, acts[0]) && Enabled(p1, acts[1]) && p2 == Step(p1, acts[1])
    requires Enabled(p2, acts[2]) && p3 == Step(p2, acts[2]) && Enabled(p3, acts[3]) && p4 == Step(p3, acts[3])
    ensures Reaches(p, acts, p4)
  {
    hide Step, Safe, Enabled;
    assert acts[3..][1..] == [] && Reaches(p3, acts[3..], p4);
    assert acts[2..][1..] == acts[3..] && Reaches(p2, acts[2..], p4);
    assert acts[1..][1..] == acts[2..] && Reaches(p1, acts[1..], p4);
  }
}
