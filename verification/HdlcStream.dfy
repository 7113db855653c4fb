/** End to end: packets encoded back to back and read in arbitrary pieces. */
module HdlcStream {
  import opened Wrappers
  import opened Fcs
  import opened Hdlc
  import opened HdlcEncoder
  import opened HdlcDecoder
  import opened PtyReader

  // ---- the stream

  /** What one framer writes for a sequence of packets. */
  function Stream(packets: seq<Packet>, needFlag: bool): seq<Byte> {
    if packets == [] then []
    else Encoded(packets[0], needFlag) + Stream(packets[1..], false)
  }

  /** The frames, each with its closing flag only. */
  function Bodies(packets: seq<Packet>): seq<Byte> {
    if packets == [] then []
    else FrameBody(packets[0]) + [FLAG] + Bodies(packets[1..])
  }

  method EncodeAll(packets: seq<Packet>) returns (stream: seq<Byte>)
    ensures stream == Stream(packets, true)
  {
    hide Encoded;
    var framer := new Framer.Init();
    stream := [];
    var i := 0;
    assert packets[0..] == packets;
    while i < |packets|
      invariant 0 <= i <= |packets|
      invariant stream + Stream(packets[i..], framer.needFlagSequence) == Stream(packets, true)
    {
      var written := EncodeForCaller(framer, packets[i]);
      assert packets[i..][1..] == packets[i + 1..];
      stream := stream + written;
      i := i + 1;
    }
  }

  lemma {:induction false} StreamIsBodies(packets: seq<Packet>)
    ensures Stream(packets, false) == Bodies(packets)
    ensures packets != [] ==> Stream(packets, true) == [FLAG] + Bodies(packets)
  {
    hide FrameBody;
    if packets != [] {
      StreamIsBodies(packets[1..]);
      var body, rest := FrameBody(packets[0]), Bodies(packets[1..]);
      assert Encoded(packets[0], false) == body + [FLAG];
      assert Encoded(packets[0], true) == [FLAG] + body + [FLAG];
      hide Encoded;
      assert [FLAG] + body + [FLAG] + rest == [FLAG] + (body + [FLAG] + rest);
    }
  }

  // ---- one pass over a prefix of the stream

  predicate NoEmpty(packets: seq<Packet>) {
    forall i :: 0 <= i < |packets| ==> packets[i] != []
  }

  /** The frame with both flags fits in the reader's buffer. */
  predicate Fits(p: Packet) {
    |FrameBody(p)| + 2 <= BUFFER_SIZE
  }

  lemma FrameBodyShape(p: Packet)
    ensures |FrameBody(p)| >= |p| + 5
    ensures FLAG !in FrameBody(p)
  {
    hide Crc;
    assert |Content(p)| == |p| + 2;
    StuffLength(Content(p));
    FrameBodyTransparent(p);
    forall i | 0 <= i < |FrameBody(p)| ensures FrameBody(p)[i] != FLAG {
      assert TransparentAt(FrameBody(p), i);
    }
  }

  lemma FirstFrame(u: seq<Byte>, body: seq<Byte>)
    requires body != [] && FLAG !in body
    requires |u| >= |body| + 2 && u[0] == FLAG && u[1..|body| + 1] == body && u[|body| + 1] == FLAG
    ensures FindFrame(u) == Some(Span(1, |body| + 1))
  {
    assert NextFlag(u, 0) == 0;
    assert u[1] == body[0];
    assert SkipFlags(u, 1) == 1;
    assert forall k :: 1 <= k < |body| + 1 ==> u[k] == body[k - 1];
    assert NextFlag(u, 1) == |body| + 1;
  }

  lemma UnfinishedFrame(u: seq<Byte>, body: seq<Byte>)
    requires FLAG !in body
    requires |u| >= 1 && u[0] == FLAG && u[1..] <= body
    ensures FindFrame(u).None?
  {
    assert forall k :: 1 <= k < |u| ==> u[k] == u[1..][k - 1] == body[k - 1];
  }

  /** The start of flag-delimited frames gives up exactly its whole frames, all of
    * which fitted, and leaves an unfinished frame behind a flag.
    */
  lemma {:induction false} DrainPrefix(ps: seq<Packet>, u: seq<Byte>) returns (j: nat)
    requires NoEmpty(ps) && u != [] && u <= [FLAG] + Bodies(ps)
    ensures j <= |ps|
    ensures Drain(u).packets == ps[..j] && !Drain(u).failed
    ensures Drain(u).rest != []
    ensures Drain(u).rest + ([FLAG] + Bodies(ps))[|u|..] == [FLAG] + Bodies(ps[j..])
    ensures forall i :: 0 <= i < j ==> |FrameBody(ps[i])| + 2 <= |u|
    ensures if j == |ps| then Drain(u).rest == [FLAG] else |Drain(u).rest| <= |FrameBody(ps[j])| + 1
    decreases |ps|
  {
    hide FrameBody;
    hide DecodeFrame;
    hide FindFrame;
    hide Drain;
    var s := [FLAG] + Bodies(ps);
    if ps == [] {
      assert u == [FLAG];
      UnfinishedFrame(u, []);
      DrainNothing(u);
      j := 0;
      assert ps[..0] == [] && ps[0..] == [];
    } else {
      var body := FrameBody(ps[0]);
      var m := |body|;
      FrameBodyShape(ps[0]);
      assert s == [FLAG] + body + [FLAG] + Bodies(ps[1..]);
      hide Bodies;
      if |u| >= m + 2 {
        WholeFrame(ps[0], s, u, Bodies(ps[1..]));
        assert Drain(u).rest == Drain(u[m + 1..]).rest;
        var more := DrainPrefix(ps[1..], u[m + 1..]);
        j := more + 1;
        assert s[m + 1..][|u| - (m + 1)..] == s[|u|..];
        ShiftByOne(ps, more, |u|);
      } else {
        assert u[1..] <= body;
        UnfinishedFrame(u, body);
        DrainNothing(u);
        j := 0;
        assert ps[..0] == [] && ps[0..] == ps;
      }
    }
  }

  /** The first whole frame of the buffer gives up its packet; its closing flag stays. */
  lemma WholeFrame(p: Packet, s: seq<Byte>, u: seq<Byte>, tail: seq<Byte>)
    requires p != []
    requires s == [FLAG] + FrameBody(p) + [FLAG] + tail && u <= s && |u| >= |FrameBody(p)| + 2
    ensures
      var end := |FrameBody(p)| + 1;
      && u[end..] != [] && u[end..] <= [FLAG] + tail && s[end..] == [FLAG] + tail
      && Drain(u).packets == [p] + Drain(u[end..]).packets
      && Drain(u).rest == Drain(u[end..]).rest && Drain(u).failed == Drain(u[end..]).failed
  {
    hide FrameBody, DecodeFrame, FindFrame, Drain;
    var body := FrameBody(p);
    FrameBodyShape(p);
    FirstFrameOfStream(s, u, body, tail);
    DrainWhole(p, u);
  }

  lemma DrainWhole(p: Packet, u: seq<Byte>)
    requires p != [] && |u| >= |FrameBody(p)| + 2
    requires u[0] == FLAG && u[1..|FrameBody(p)| + 1] == FrameBody(p) && u[|FrameBody(p)| + 1] == FLAG
    ensures
      var more := Drain(u[|FrameBody(p)| + 1..]);
      Drain(u).packets == [p] + more.packets && Drain(u).rest == more.rest && Drain(u).failed == more.failed
  {
    hide FrameBody, DecodeFrame, FindFrame, Drain;
    FrameBodyShape(p);
    FirstFrame(u, FrameBody(p));
    RoundTrip(p, |FrameBody(p)|);
    DrainWindow(u, Span(1, |FrameBody(p)| + 1));
  }

  lemma ShiftByOne(ps: seq<Packet>, more: nat, size: nat)
    requires ps != [] && more < |ps|
    ensures ps[..more + 1] == [ps[0]] + ps[1..][..more] && ps[more + 1..] == ps[1..][more..]
    ensures more + 1 < |ps| ==> ps[more + 1] == ps[1..][more]
    ensures |FrameBody(ps[0])| + 2 <= size && (forall i :: 0 <= i < more ==> |FrameBody(ps[1..][i])| + 2 <= size) ==>
              forall i :: 0 <= i < more + 1 ==> |FrameBody(ps[i])| + 2 <= size
  {
    hide FrameBody;
    assert forall i :: 1 <= i < |ps| ==> ps[i] == ps[1..][i - 1];
  }

  lemma FirstFrameOfStream(s: seq<Byte>, u: seq<Byte>, body: seq<Byte>, tail: seq<Byte>)
    requires s == [FLAG] + body + [FLAG] + tail && u <= s && |u| >= |body| + 2
    ensures u[0] == FLAG && u[1..|body| + 1] == body && u[|body| + 1] == FLAG
    ensures s[|body| + 1..] == [FLAG] + tail
    ensures u[|body| + 1..] <= [FLAG] + tail
  {
  }

  // ---- every run of reads

  /** The reader is at packet k: it has queued the packets before it, all of which
    * fitted, and what it holds and what is unread make up the frames from k on.
    */
  ghost predicate OnTrack(packets: seq<Packet>, r: Reader, k: nat) {
    && k <= |packets| && r.status != DecodeError
    && r.pool == packets[..k]
    && (forall i :: 0 <= i < k ==> Fits(packets[i]))
    && |r.residue| <= BUFFER_SIZE
    && if r.residue == [] then k == 0 && r.unread == Stream(packets, true)
       else
         && r.residue + r.unread == [FLAG] + Bodies(packets[k..])
         && if k == |packets| then r.residue == [FLAG] else |r.residue| <= |FrameBody(packets[k])| + 1
  }

  /** What is in the buffer after a read is the front of the remaining frames. */
  lemma Window(packets: seq<Packet>, r: Reader, k: nat, n: nat)
    requires OnTrack(packets, r, k) && 0 < n <= |r.unread|
    ensures
      var u, s := r.residue + r.unread[..n], [FLAG] + Bodies(packets[k..]);
      u != [] && u <= s && s[|u|..] == r.unread[n..]
  {
    hide FrameBody;
    StreamIsBodies(packets);
    assert packets[0..] == packets;
    var s := r.residue + r.unread;
    assert s == [FLAG] + Bodies(packets[k..]) by {
      hide Bodies;
      if r.residue == [] {
        assert s == r.unread;
        assert packets == [] ==> r.unread == [];
      }
    }
    hide Bodies, Stream;
    var u := r.residue + r.unread[..n];
    assert s[..|u|] == u && s[|u|..] == r.unread[n..];
  }

  lemma OneRead(packets: seq<Packet>, r: Reader, k: nat, cut: nat) returns (k': nat)
    requires NoEmpty(packets) && OnTrack(packets, r, k)
    ensures k <= k' && OnTrack(packets, ReadOnce(r, cut), k')
  {
    hide FrameBody, Drain, Bodies, Stream;
    k' := k;
    var n := ReadSize(cut, BUFFER_SIZE - |r.residue|, |r.unread|);
    if r.status == Reading && n > 0 {
      Window(packets, r, k, n);
      var u := r.residue + r.unread[..n];
      var j := DrainPrefix(packets[k..], u);
      k' := k + j;
      ShiftBy(packets, k, j);
      assert |u| <= BUFFER_SIZE;
      assert forall i :: 0 <= i < j ==> Fits(packets[k..][i]);
      hide Fits;
    }
  }

  lemma ShiftBy(packets: seq<Packet>, k: nat, j: nat)
    requires k + j <= |packets|
    ensures packets[..k + j] == packets[..k] + packets[k..][..j] && packets[k + j..] == packets[k..][j..]
    ensures k + j < |packets| ==> packets[k + j] == packets[k..][j]
    ensures (forall i :: 0 <= i < k ==> Fits(packets[i])) && (forall i :: 0 <= i < j ==> Fits(packets[k..][i])) ==>
              forall i :: 0 <= i < k + j ==> Fits(packets[i])
  {
    hide Fits;
    assert forall i :: k <= i < |packets| ==> packets[i] == packets[k..][i - k];
  }

  /** Whatever the sizes of the reads, the queue is at every moment a prefix of the
    * packets sent and decoding never fails.
    */
  lemma {:induction false} AnyReads(packets: seq<Packet>, r: Reader, k: nat, cuts: seq<nat>) returns (k': nat)
    requires NoEmpty(packets) && OnTrack(packets, r, k)
    ensures k <= k' && OnTrack(packets, ReadAll(r, cuts), k')
    ensures var last := ReadAll(r, cuts);
            last.status == Reading ==> |last.unread| + |cuts| <= |r.unread|
    ensures var last := ReadAll(r, cuts);
            last.status == EndOfInput && r.status == Reading ==>
            |last.residue| == BUFFER_SIZE || last.unread == []
    decreases |cuts|
  {
    hide ReadOnce;
    hide OnTrack;
    assert |r.residue| <= BUFFER_SIZE by { OnTrackBound(packets, r, k); }
    k' := k;
    if cuts != [] {
      var next := ReadOnce(r, cuts[0]);
      k' := OneRead(packets, r, k, cuts[0]);
      ReadProgress(r, cuts[0]);
      if next.status == Reading {
        k' := AnyReads(packets, next, k', cuts[1..]);
      } else {
        StoppedStaysStopped(next, cuts[1..]);
      }
    }
  }

  lemma OnTrackBound(packets: seq<Packet>, r: Reader, k: nat)
    requires OnTrack(packets, r, k)
    ensures |r.residue| <= BUFFER_SIZE
  {
  }

  lemma ReadProgress(r: Reader, cut: nat)
    requires |r.residue| <= BUFFER_SIZE
    ensures var next := ReadOnce(r, cut);
            && (next.status == Reading ==> r.status == Reading && |next.unread| < |r.unread|)
            && (next.status == EndOfInput && r.status == Reading ==>
                  next.residue == r.residue && next.unread == r.unread
                  && (|r.residue| == BUFFER_SIZE || r.unread == []))
  {
    hide Drain;
  }

  /** The packets the buffer has room for, up to the first that is too long. */
  function FittingPrefix(packets: seq<Packet>): seq<Packet> {
    if packets == [] || !Fits(packets[0]) then [] else [packets[0]] + FittingPrefix(packets[1..])
  }

  lemma {:induction false} FittingPrefixIs(packets: seq<Packet>, k: nat)
    requires k <= |packets| && forall i :: 0 <= i < k ==> Fits(packets[i])
    requires k < |packets| ==> !Fits(packets[k])
    ensures FittingPrefix(packets) == packets[..k]
    decreases |packets|
  {
    hide Fits;
    if packets != [] && k > 0 {
      FittingPrefixIs(packets[1..], k - 1);
      assert packets[..k] == [packets[0]] + packets[1..][..k - 1];
    }
  }

  /** Whatever the pieces and however many were read so far, the queue holds the first
    * packets sent, in order and unchanged, and no frame was refused.
    */
  lemma NeverWrong(packets: seq<Packet>, cuts: seq<nat>)
    requires NoEmpty(packets)
    ensures ReadAll(Start(Stream(packets, true)), cuts).pool <= packets
    ensures ReadAll(Start(Stream(packets, true)), cuts).status != DecodeError
  {
    hide ReadAll;
    hide Stream;
    var r := Start(Stream(packets, true));
    assert packets[..0] == [];
    assert OnTrack(packets, r, 0);
    var k := AnyReads(packets, r, 0, cuts);
  }

  /** Packets encoded back to back and read in any pieces, with at least one read per
    * byte of the stream available: exactly the packets before the first one whose
    * frame does not fit in the buffer come out, in order and unchanged.
    */
  lemma Delivered(packets: seq<Packet>, cuts: seq<nat>)
    requires NoEmpty(packets)
    requires |cuts| > |Stream(packets, true)|
    ensures ReadAll(Start(Stream(packets, true)), cuts).pool == FittingPrefix(packets)
    ensures ReadAll(Start(Stream(packets, true)), cuts).status == EndOfInput
  {
    hide FrameBody;
    hide ReadAll;
    var r := Start(Stream(packets, true));
    assert packets[..0] == [] && packets[0..] == packets;
    assert OnTrack(packets, r, 0);
    var k := AnyReads(packets, r, 0, cuts);
    var last := ReadAll(r, cuts);
    assert k < |packets| ==> packets[k..][0] == packets[k];
    if last.residue != [] && last.unread == [] && k < |packets| {
      assert false;
    }
    FittingPrefixIs(packets, k);
  }

  /** Every packet arrives exactly when every frame, with both its flags, fits. */
  lemma AllDeliveredExactlyWhenAllFit(packets: seq<Packet>, cuts: seq<nat>)
    requires NoEmpty(packets)
    requires |cuts| > |Stream(packets, true)|
    ensures ReadAll(Start(Stream(packets, true)), cuts).pool == packets
       <==> forall i :: 0 <= i < |packets| ==> Fits(packets[i])
  {
    hide ReadAll;
    hide Fits;
    Delivered(packets, cuts);
    FittingPrefixWhole(packets);
  }

  lemma {:induction false} FittingPrefixWhole(packets: seq<Packet>)
    ensures FittingPrefix(packets) == packets <==> forall i :: 0 <= i < |packets| ==> Fits(packets[i])
  {
    hide Fits;
    if packets != [] {
      FittingPrefixWhole(packets[1..]);
      if FittingPrefix(packets) == packets {
        assert FittingPrefix(packets)[1..] == packets[1..];
        forall i | 0 <= i < |packets| ensures Fits(packets[i]) {
          assert i > 0 ==> packets[i] == packets[1..][i - 1];
        }
      }
    }
  }
}
