/** The reassembly loop of pppd_read (src/io.c): reads of arbitrary size fill a
  * sliding buffer from which whole frames are taken, and the unfinished rest moves
  * to the front.
  */
module PtyReader {
  import opened Wrappers
  import opened Fcs
  import opened Hdlc
  import opened HdlcDecoder

  /** PKT_BUF_SZ */
  const BUFFER_SIZE: nat := 4096

  type Packet = seq<Byte>

  // ---- one buffer

  /** What one pass over the buffer takes out, what it leaves, and whether a frame
    * could not be decoded, which ends the thread.
    */
  datatype Drained = Drained(packets: seq<Packet>, rest: seq<Byte>, failed: bool)

  function Drain(b: seq<Byte>): Drained
    decreases |b|
  {
    match FindFrame(b)
    case None => Drained([], b, false)
    case Some(f) =>
      match DecodeFrame(b[f.start..f.end], f.end - f.start)
      case Failure(_) => Drained([], b[f.start..], true)
      case Success(p) =>
        var more := Drain(b[f.end..]);
        Drained([p] + more.packets, more.rest, more.failed)
  }

  lemma {:induction false} DrainShrinks(b: seq<Byte>)
    ensures |Drain(b).rest| <= |b|
    decreases |b|
  {
    hide DecodeFrame;
    hide FindFrame;
    match FindFrame(b)
    case None =>
    case Some(f) =>
      match DecodeFrame(b[f.start..f.end], f.end - f.start)
      case Failure(_) =>
      case Success(_) => DrainShrinks(b[f.end..]);
  }

  /** Drain, one frame at a time, on a window of a longer buffer. */
  lemma DrainWindow(b: seq<Byte>, f: Span)
    requires FindFrame(b) == Some(f)
    ensures match DecodeFrame(b[f.start..f.end], f.end - f.start)
            case Failure(_) => Drain(b) == Drained([], b[f.start..], true)
            case Success(p) =>
              && Drain(b).packets == [p] + Drain(b[f.end..]).packets
              && Drain(b).rest == Drain(b[f.end..]).rest
              && Drain(b).failed == Drain(b[f.end..]).failed
  {
    hide DecodeFrame;
    hide FindFrame;
  }

  lemma DrainNothing(b: seq<Byte>)
    requires FindFrame(b).None?
    ensures Drain(b) == Drained([], b, false)
  {
    hide DecodeFrame;
    hide FindFrame;
  }

  // ---- a run of reads

  datatype Status = Reading | EndOfInput | DecodeError

  datatype Reader = Reader(pool: seq<Packet>, residue: seq<Byte>, unread: seq<Byte>, status: Status)

  /** How much the next read delivers when the other side lets it have at most cut + 1
    * bytes: never more than the free room or what is left, and nothing only at the
    * end of the input or with a full buffer.
    */
  function ReadSize(cut: nat, room: nat, left: nat): (n: nat)
    ensures n <= room && n <= left && (n == 0 <==> room == 0 || left == 0)
  {
    if cut + 1 <= room && cut + 1 <= left then cut + 1
    else if room <= left then room
    else left
  }

  function ReadOnce(r: Reader, cut: nat): (next: Reader)
    requires |r.residue| <= BUFFER_SIZE
    ensures |next.residue| <= BUFFER_SIZE
  {
    hide Drain;
    var n := ReadSize(cut, BUFFER_SIZE - |r.residue|, |r.unread|);
    if r.status != Reading then r
    else if n == 0 then r.(status := EndOfInput)
    else
      var d := Drain(r.residue + r.unread[..n]);
      DrainShrinks(r.residue + r.unread[..n]);
      Reader(r.pool + d.packets, d.rest, r.unread[n..], if d.failed then DecodeError else Reading)
  }

  function ReadAll(r: Reader, cuts: seq<nat>): (last: Reader)
    requires |r.residue| <= BUFFER_SIZE
    ensures |last.residue| <= BUFFER_SIZE
    decreases |cuts|
  {
    hide ReadOnce;
    if cuts == [] then r else ReadAll(ReadOnce(r, cuts[0]), cuts[1..])
  }

  function Start(stream: seq<Byte>): Reader {
    Reader([], [], stream, Reading)
  }

  // ---- the loop of the source

  /** The reading thread, given the whole stream of the other side and the sizes in
    * which it arrives. The packets it queues and the way it ends are those of ReadAll.
    */
  method PppdRead(stream: seq<Byte>, cuts: seq<nat>) returns (pool: seq<Packet>, status: Status)
    ensures pool == ReadAll(Start(stream), cuts).pool
    ensures status == ReadAll(Start(stream), cuts).status
  {
    hide Drain;
    hide ReadAll;
    var buf := new Byte[BUFFER_SIZE];
    var offW := 0;
    var next := 0;
    var turn := 0;
    pool := [];
    status := Reading;
    ghost var r := Start(stream);
    ghost var goal := ReadAll(r, cuts);
    assert cuts[0..] == cuts;
    while turn < |cuts| && status == Reading
      invariant 0 <= turn <= |cuts| && 0 <= next <= |stream| && 0 <= offW <= BUFFER_SIZE
      invariant buf.Length == BUFFER_SIZE && |r.residue| <= BUFFER_SIZE
      invariant r.pool == pool && r.status == status
      invariant status == Reading ==> r.residue == buf[..offW] && r.unread == stream[next..]
      invariant goal == ReadAll(r, cuts[turn..])
      decreases |cuts| - turn
    {
      var n := ReadSize(cuts[turn], BUFFER_SIZE - offW, |stream| - next);
      ReadAllStep(r, cuts, turn);
      r := ReadOnce(r, cuts[turn]);
      if n == 0 {
        status := EndOfInput;
      } else {
        assert stream[next..][..n] == stream[next..next + n];
        assert stream[next..][n..] == stream[next + n..];
        var packets, ok;
        packets, offW, ok := Absorb(buf, offW, stream[next..next + n]);
        next := next + n;
        pool := pool + packets;
        if !ok {
          status := DecodeError;
        }
      }
      turn := turn + 1;
    }
    if status == Reading {
      ReadAllOfNothing(r, cuts[turn..]);
    } else {
      StoppedStaysStopped(r, cuts[turn..]);
    }
  }

  lemma ReadAllStep(r: Reader, cuts: seq<nat>, turn: nat)
    requires |r.residue| <= BUFFER_SIZE && turn < |cuts|
    ensures ReadAll(r, cuts[turn..]) == ReadAll(ReadOnce(r, cuts[turn]), cuts[turn + 1..])
  {
    hide ReadOnce;
    assert cuts[turn..][1..] == cuts[turn + 1..];
  }

  lemma ReadAllOfNothing(r: Reader, cuts: seq<nat>)
    requires |r.residue| <= BUFFER_SIZE && cuts == []
    ensures ReadAll(r, cuts) == r
  {
  }

  /** One turn after a successful read: append, take the frames, keep the rest. */
  method Absorb(buf: array<Byte>, offW: nat, data: seq<Byte>) returns (packets: seq<Packet>, left: nat, ok: bool)
    requires offW + |data| <= buf.Length
    modifies buf
    ensures left <= buf.Length
    ensures packets == Drain(old(buf[..offW]) + data).packets
    ensures ok == !Drain(old(buf[..offW]) + data).failed
    ensures ok ==> buf[..left] == Drain(old(buf[..offW]) + data).rest
  {
    hide Drain;
    var size := offW + |data|;
    ghost var goal := buf[..offW] + data;
    forall k | 0 <= k < |data| {
      buf[offW + k] := data[k];
    }
    assert buf[..size] == goal;
    var offR;
    packets, offR, ok := TakeFrames(buf, size);
    left := size;
    if ok {
      MoveToFront(buf, offR, size);
      left := size - offR;
    }
  }

  lemma ArraySlice(buf: array<Byte>, size: nat, start: nat, end: nat)
    requires start <= end <= size <= buf.Length
    ensures buf[start..end] == buf[..size][start..end]
    ensures end == size ==> buf[start..end] == buf[..size][start..]
  {
  }

  lemma SliceOfSlice(data: seq<Byte>, at: nat, start: nat, end: nat)
    requires at <= start <= end <= |data|
    ensures data[at..][start - at..end - at] == data[start..end]
    ensures data[at..][end - at..] == data[end..]
  {
  }

  /** The inner loop: queue every whole frame of the buffer. */
  method TakeFrames(buf: array<Byte>, size: nat) returns (packets: seq<Packet>, offR: nat, ok: bool)
    requires size <= buf.Length
    ensures offR <= size
    ensures ok == !Drain(buf[..size]).failed
    ensures packets == Drain(buf[..size]).packets
    ensures ok ==> buf[offR..size] == Drain(buf[..size]).rest
  {
    hide DecodeFrame;
    hide FindFrame;
    hide Drain;
    packets := [];
    offR := 0;
    ghost var all := buf[..size];
    ghost var goal := Drain(all);
    assert all[0..] == all;
    while true
      invariant 0 <= offR <= size && buf[..size] == all
      invariant goal.packets == packets + Drain(all[offR..]).packets
      invariant goal.rest == Drain(all[offR..]).rest
      invariant goal.failed == Drain(all[offR..]).failed
      decreases size - offR
    {
      ghost var b := all[offR..];
      ArraySlice(buf, size, offR, size);
      var found := FindFrameIn(buf, size, offR);
      if found.None? {
        DrainNothing(b);
        return packets, offR, true;
      }
      var f := found.value;
      DrainWindow(b, Span(f.start - offR, f.end - offR));
      SliceOfSlice(all, offR, f.start, f.end);
      ArraySlice(buf, size, f.start, f.end);
      var content := buf[f.start..f.end];
      var packet := new Byte[f.end - f.start];
      var decoded := Decode(content, packet);
      if decoded.Failure? {
        return packets, f.start, false;
      }
      packets := packets + [packet[..decoded.value]];
      offR := f.end;
    }
  }

  /** The memmove of the source. */
  method MoveToFront(buf: array<Byte>, from: nat, to: nat)
    requires from <= to <= buf.Length
    modifies buf
    ensures buf[..to - from] == old(buf[from..to])
  {
    forall k | 0 <= k < to - from {
      buf[k] := buf[from + k];
    }
  }

  lemma {:induction false} StoppedStaysStopped(r: Reader, cuts: seq<nat>)
    requires |r.residue| <= BUFFER_SIZE && r.status != Reading
    ensures ReadAll(r, cuts) == r
    decreases |cuts|
  {
    hide Drain;
    if cuts != [] {
      StoppedStaysStopped(r, cuts[1..]);
    }
  }
}
