/** Draining a FIFO under two clocks and a byte cap: `_read_fifo_text`. Time is in milliseconds. */
module Fifo {
  import opened Json

  type Byte = x: int | 0 <= x < 256

  const CHUNK := 65536
  const IDLE := 30000
  const TOTAL := 300000
  const MAX_INPUT_BYTES := 64 * 1024 * 1024

  /** One `os.read`, and for a read that would block, whether the poll after it reported the pipe ready. A failed
      allocation is one outcome whether reading or appending asked for it. */
  datatype Read = Chunk(data: seq<Byte>) | WouldBlock(ready: bool) | Eof | Failed | NoMemory

  /** One turn of the loop: the clock at its head and the read it makes. */
  datatype Turn = Turn(now: int, read: Read)

  datatype Decoding = Decoded(text: string) | NotUtf8 | NoRoom

  /** Everything outside: whether the pipe opens, when the drain started, each turn, and UTF-8 decoding. */
  datatype Pipe = Pipe(opens: bool, started: int, turns: nat -> Turn, decode: seq<Byte> -> Decoding)

  function Left(io: Pipe, k: nat): int {
    TOTAL - (io.turns(k).now - io.started)
  }

  /** A chunk is a nonempty read of at most one page of pipe. */
  predicate Sane(t: Turn) {
    t.read.Chunk? ==> 1 <= |t.read.data| <= CHUNK
  }

  /** The clock never runs back; a poll that times out takes its whole wait; a wake-up with nothing to read after
      all takes some time. Chunks may arrive with no time passing between them. */
  predicate Advances(io: Pipe, k: nat) {
    var t, next := io.turns(k), io.turns(k + 1).now;
    && next >= t.now
    && (t.read == WouldBlock(true) ==> next > t.now)
    && (t.read == WouldBlock(false) ==> next >= t.now + (if Left(io, k) < IDLE then Left(io, k) else IDLE))
  }

  ghost predicate Fair(io: Pipe) {
    && io.started <= io.turns(0).now
    && (forall k: nat :: Sane(io.turns(k)))
    && (forall k: nat :: Advances(io, k))
  }

  /** Everything the first `n` turns delivered. */
  function Delivered(io: Pipe, n: nat): seq<Byte> {
    if n == 0 then []
    else
      Delivered(io, n - 1) + match io.turns(n - 1).read case Chunk(data) => data case _ => []
  }

  /** Turn `k` is one the drain goes on from. */
  predicate GoesOn(io: Pipe, k: nat) {
    && Left(io, k) > 0
    && match io.turns(k).read
       case Chunk(data) => |Delivered(io, k + 1)| <= MAX_INPUT_BYTES
       case WouldBlock(ready) => ready || Left(io, k) <= IDLE
       case _ => false
  }

  predicate Runs(io: Pipe, n: nat) {
    forall k :: 0 <= k < n ==> GoesOn(io, k)
  }

  /** Each turn spends time or room, so the clocks and the cap bound the turns. */
  lemma {:induction false} EveryTurnSpends(io: Pipe, n: nat)
    requires Fair(io) && Runs(io, n)
    ensures n <= io.turns(n).now - io.started + |Delivered(io, n)|
    ensures |Delivered(io, n)| <= MAX_INPUT_BYTES
  {
    if n > 0 {
      EveryTurnSpends(io, n - 1);
      assert GoesOn(io, n - 1) && Sane(io.turns(n - 1)) && Advances(io, n - 1);
    }
  }

  lemma TurnsAreBounded(io: Pipe, n: nat)
    requires Fair(io) && Runs(io, n)
    ensures n <= TOTAL + MAX_INPUT_BYTES
  {
    if n > 0 {
      EveryTurnSpends(io, n - 1);
      assert GoesOn(io, n - 1);
    }
  }

  datatype Refusal =
    | CannotOpen
    | TookTooLong(delivered: nat)
    | WentQuiet(delivered: nat)
    | TooLarge(delivered: nat)
    | ReadFailed
    | DidNotFit(delivered: nat)
    | NoData
    | Undecodable
    | NoRoomForText(delivered: nat)

  /** What reaching end of file means: a matter of the bytes alone, never of when they came. */
  predicate AtEof(bytes: seq<Byte>, decode: seq<Byte> -> Decoding, r: Result<string, Refusal>) {
    if bytes == [] then r == Err(NoData)
    else
      match decode(bytes)
      case Decoded(text) => r == Ok(text)
      case NotUtf8 => r == Err(Undecodable)
      case NoRoom => r == Err(NoRoomForText(|bytes|))
  }

  /** The drain ended at turn `n` with `r`: the first turn it does not go on from, and why. */
  predicate EndsAt(io: Pipe, n: nat, r: Result<string, Refusal>) {
    && Runs(io, n) && !GoesOn(io, n)
    && var before := |Delivered(io, n)|;
       if Left(io, n) <= 0 then r == Err(TookTooLong(before))
       else
         match io.turns(n).read
         case Eof => AtEof(Delivered(io, n), io.decode, r)
         case Chunk(data) => r == Err(TooLarge(before + |data|))
         case WouldBlock(_) => r == Err(WentQuiet(before))
         case Failed => r == Err(ReadFailed)
         case NoMemory => r == Err(DidNotFit(before))
  }

  /** `_read_fifo_text`: it always returns, and only end of file can make it succeed. The buffer
      at turn `k` is `Delivered(io, k)`. */
  method ReadFifoText(io: Pipe) returns (r: Result<string, Refusal>)
    requires Fair(io)
    ensures !io.opens ==> r == Err(CannotOpen)
    ensures io.opens ==> exists n: nat :: EndsAt(io, n, r)
  {
    if !io.opens {
      return Err(CannotOpen);
    }
    var buf: seq<Byte>, delivered: nat := [], 0;
    var k: nat := 0;
    while true
      invariant k <= TOTAL + MAX_INPUT_BYTES
      invariant Runs(io, k) && buf == Delivered(io, k) && delivered == |buf| <= MAX_INPUT_BYTES
      decreases TOTAL + MAX_INPUT_BYTES - k
    {
      var turn := io.turns(k);
      assert Sane(turn);
      var left := TOTAL - (turn.now - io.started);
      if left <= 0 {
        r := Err(TookTooLong(delivered));
        assert EndsAt(io, k, r);
        return;
      }
      match turn.read {
        case Failed =>
          r := Err(ReadFailed);
          assert EndsAt(io, k, r);
          return;
        case NoMemory =>
          r := Err(DidNotFit(delivered));
          assert EndsAt(io, k, r);
          return;
        case Eof =>
          break;
        case WouldBlock(ready) =>
          if !ready && left > IDLE {
            r := Err(WentQuiet(delivered));
            assert EndsAt(io, k, r);
            return;
          }
        case Chunk(data) =>
          buf := buf + data;
          delivered := delivered + |data|;
          if delivered > MAX_INPUT_BYTES {
            r := Err(TooLarge(delivered));
            assert EndsAt(io, k, r);
            return;
          }
      }
      assert GoesOn(io, k);
      k := k + 1;
      TurnsAreBounded(io, k);
    }
    if buf == [] {
      r := Err(NoData);
    } else {
      match io.decode(buf)
      case Decoded(text) => r := Ok(text);
      case NotUtf8 => r := Err(Undecodable);
      case NoRoom => r := Err(NoRoomForText(delivered));
    }
    assert EndsAt(io, k, r);
  }

  lemma NotPastTheEnd(io: Pipe, m: nat, n: nat)
    requires Runs(io, n) && !GoesOn(io, m)
    ensures n <= m
  {
  }

  /** There is one ending: the schedule decides it, and nothing else. */
  lemma EndingIsUnique(io: Pipe, m: nat, n: nat, r: Result<string, Refusal>, q: Result<string, Refusal>)
    requires EndsAt(io, m, r) && EndsAt(io, n, q)
    ensures m == n && r == q
  {
    NotPastTheEnd(io, m, n);
    NotPastTheEnd(io, n, m);
  }

  /** A success is the whole input: nonempty, within the cap, every byte delivered before end of file and in order,
      with no bound reached on the way. */
  lemma SuccessIsTheWholeInput(io: Pipe, n: nat, text: string)
    requires Fair(io) && EndsAt(io, n, Ok(text))
    ensures io.turns(n).read.Eof? && Left(io, n) > 0
    ensures forall k :: 0 <= k < n ==> Left(io, k) > 0 && (io.turns(k).read.Chunk? || io.turns(k).read.WouldBlock?)
    ensures 0 < |Delivered(io, n)| <= MAX_INPUT_BYTES && io.decode(Delivered(io, n)) == Decoded(text)
  {
    EveryTurnSpends(io, n);
    forall k | 0 <= k < n
      ensures Left(io, k) > 0 && (io.turns(k).read.Chunk? || io.turns(k).read.WouldBlock?)
    {
      assert GoesOn(io, k);
    }
  }

  /** A refusal names the bound it hit, and only a bound that was hit: the total time at a reading of the clock, a poll
      that waited a whole idle window in vain, or more bytes than the cap. */
  lemma RefusalsNameTheirBound(io: Pipe, n: nat, why: Refusal)
    requires EndsAt(io, n, Err(why))
    ensures why.TookTooLong? <==> io.turns(n).now - io.started >= TOTAL
    ensures why.WentQuiet? <==> io.turns(n).read == WouldBlock(false) && io.turns(n).now - io.started < TOTAL - IDLE
    ensures why.TooLarge? ==> io.turns(n).read.Chunk? && why.delivered == |Delivered(io, n)| + |io.turns(n).read.data| > MAX_INPUT_BYTES
  {
    assert Delivered(io, n + 1) == Delivered(io, n) + match io.turns(n).read case Chunk(data) => data case _ => [];
  }

  /** In time, what the last read was decides: at end of file nothing delivered is no data and bytes are what they decode to;
      a failed read and memory that gave out are reported as such, with what had come. */
  lemma LastReadDecides(io: Pipe, n: nat, r: Result<string, Refusal>)
    requires EndsAt(io, n, r) && Left(io, n) > 0
    ensures var read, bytes := io.turns(n).read, Delivered(io, n);
            && (r == Err(ReadFailed) <==> read.Failed?) && (r == Err(DidNotFit(|bytes|)) <==> read.NoMemory?)
            && (r == Err(NoData) <==> read.Eof? && |bytes| == 0)
            && (r.Ok? <==> read.Eof? && |bytes| > 0 && io.decode(bytes).Decoded?)
            && (r == Err(Undecodable) <==> read.Eof? && |bytes| > 0 && io.decode(bytes).NotUtf8?)
            && (r == Err(NoRoomForText(|bytes|)) <==> read.Eof? && |bytes| > 0 && io.decode(bytes).NoRoom?)
  {
  }

  /** Two schedules that deliver the same bytes to end of file are answered the same: whether the first probe found
      a silent writer or none is never what decides. */
  lemma ScheduleDoesNotDecide(a: Pipe, b: Pipe, m: nat, n: nat, r: Result<string, Refusal>, q: Result<string, Refusal>)
    requires EndsAt(a, m, r) && EndsAt(b, n, q) && a.decode == b.decode
    requires a.turns(m).read.Eof? && Left(a, m) > 0 && b.turns(n).read.Eof? && Left(b, n) > 0
    requires Delivered(a, m) == Delivered(b, n)
    ensures r == q
  {
  }

  /** A poll cut short by the total bound never reads on: the very next turn reports that bound. */
  lemma LastWaitEndsTheDrain(io: Pipe, k: nat)
    requires Fair(io) && Runs(io, k + 1)
    requires io.turns(k).read == WouldBlock(false)
    ensures EndsAt(io, k + 1, Err(TookTooLong(|Delivered(io, k)|)))
  {
    assert GoesOn(io, k) && Advances(io, k);
  }

  /** The buffer never holds more than the cap and one chunk, and past the cap only to refuse. */
  lemma BufferStaysBounded(io: Pipe, n: nat, r: Result<string, Refusal>, k: nat)
    requires Fair(io) && EndsAt(io, n, r) && k <= n + 1
    ensures k <= n ==> |Delivered(io, k)| <= MAX_INPUT_BYTES
    ensures |Delivered(io, k)| <= MAX_INPUT_BYTES + CHUNK
    ensures |Delivered(io, n + 1)| > MAX_INPUT_BYTES && Left(io, n) > 0 ==> r == Err(TooLarge(|Delivered(io, n + 1)|))
  {
    EveryTurnSpends(io, if k <= n then k else n);
    EveryTurnSpends(io, n);
    assert Sane(io.turns(n));
  }
}
