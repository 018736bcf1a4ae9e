/** Packets of tftp as bytes, and the two loops of the utility as machines that
    are cut at their only blocking call, `readpkt`. */
module TftpPackets {
  import opened Basics

  type byte = x: int | 0 <= x < 256

  const BLKSIZE := 512
  const HDRSIZE := 4
  const PKTSIZE := 516
  const NRETRIES := 5

  const OP_DATA := 3
  const OP_ACK := 4
  const OP_ERR := 5

  /** `packack` and `packdata`: the block number is cut to 16 bits. */
  function Header(op: int, blkno: int): (h: seq<byte>)
    requires 0 <= op < 65536 && 0 <= blkno
    ensures |h| == HDRSIZE
  {
    [op / 256, op % 256, blkno / 256 % 256, blkno % 256]
  }

  function UnpackOp(buf: seq<byte>): (op: int)
    requires |buf| >= 2
    ensures 0 <= op < 65536
  {
    256 * (buf[0] as int) + buf[1] as int
  }

  function UnpackBlkno(buf: seq<byte>): (b: int)
    requires |buf| >= 4
    ensures 0 <= b < 65536
  {
    256 * (buf[2] as int) + buf[3] as int
  }

  /** Unpacking gives back the opcode, and the block number modulo 65536. */
  lemma HeaderRoundTrip(op: int, blkno: int, rest: seq<byte>)
    requires 0 <= op < 65536 && 0 <= blkno
    ensures UnpackOp(Header(op, blkno) + rest) == op
    ensures UnpackBlkno(Header(op, blkno) + rest) == blkno % 65536
  {
    assert blkno == 65536 * (blkno / 65536) + blkno % 65536;
    assert blkno % 65536 == 256 * (blkno % 65536 / 256) + blkno % 65536 % 256;
    assert blkno / 256 % 256 == blkno % 65536 / 256 && blkno % 256 == blkno % 65536 % 256;
  }

  /** A fixed buffer after the bytes p have been written into it at offset k. */
  function Overlay(buf: seq<byte>, k: nat, p: seq<byte>): (r: seq<byte>)
    requires k + |p| <= |buf|
    ensures |r| == |buf| && r[k..k + |p|] == p && r[..k] == buf[..k]
  {
    buf[..k] + p + buf[k + |p|..]
  }

  // ------------------------------------------------------------- putfile

  /** Where a loop stands: a value of `state`, or one of its two ends. */
  datatype Control = Request | Data | Ack | Error | Returned | Exited

  /** The variables of `putfile` with `timeout`; `waiting` means that it sits in
      `readpkt`, and pos is how far standard input has been read. */
  datatype Sender = Sender(
    state: Control, waiting: bool,
    inbuf: seq<byte>, inb: int, outbuf: seq<byte>, outb: int,
    blkno: int, nextblkno: int, done: bool, timeout: int, pos: nat)

  ghost predicate SenderOk(s: Sender, file: seq<byte>) {
    |s.inbuf| == PKTSIZE && |s.outbuf| == PKTSIZE && 0 <= s.outb <= BLKSIZE && s.nextblkno >= 0 && s.pos <= |file|
  }

  predicate Running(c: Control) { c != Returned && c != Exited }

  function Min(a: int, b: int): int { if a < b then a else b }

  /** What a read of a block from a file returns at position pos. */
  function ReadBlock(file: seq<byte>, pos: nat): (b: seq<byte>)
    requires pos <= |file|
    ensures |b| <= BLKSIZE
  {
    file[pos..Min(pos + BLKSIZE, |file|)]
  }

  /** `putfile` from the head of its loop to the next `readpkt`, or to the next
      head; also the packet it writes. */
  function SenderRun(s: Sender, file: seq<byte>, request: seq<byte>): (r: (Sender, Option<seq<byte>>))
    requires SenderOk(s, file) && Running(s.state) && !s.waiting && |request| <= BLKSIZE
    ensures SenderOk(r.0, file)
  {
    match s.state
    case Request =>
      var t := s.(outbuf := Overlay(s.outbuf, 0, request), outb := |request|, waiting := true);
      (t, Some(request))
    case Data =>
      var t := if s.blkno == s.nextblkno then
                 var b := ReadBlock(file, s.pos);
                 s.(nextblkno := s.nextblkno + 1,
                    outbuf := Overlay(Overlay(s.outbuf, 0, Header(OP_DATA, s.nextblkno + 1)), HDRSIZE, b),
                    outb := |b|,
                    pos := s.pos + |b|,
                    done := s.done || |b| < BLKSIZE)
               else s;
      (t.(waiting := true), Some(t.outbuf[..t.outb + HDRSIZE]))
    case Ack =>
      if s.inb < HDRSIZE then (s.(state := Exited), None)
      else
        var b := UnpackBlkno(s.inbuf);
        if b == s.nextblkno && s.done then (s.(blkno := b, state := Returned), None)
        else (s.(blkno := b, state := Data), None)
    case _ => (s.(state := Exited), None)
  }

  /** The state an opcode leads to, when `wanted` is the opcode expected. */
  function Dispatch(op: int, wanted: int, ok: Control): Control {
    if op == wanted then ok else if op == OP_ERR then Error else Exited
  }

  /** `readpkt` in `putfile` returns: a packet, or nothing in time. */
  function SenderGet(s: Sender, file: seq<byte>, got: Option<seq<byte>>): (r: Sender)
    requires SenderOk(s, file) && s.waiting && Running(s.state)
    ensures SenderOk(r, file)
  {
    match got
    case None =>
      s.(timeout := s.timeout + 1, inb := -1, waiting := false,
         state := if s.timeout + 1 == NRETRIES then Exited else s.state)
    case Some(p) =>
      var q := if |p| <= PKTSIZE then p else p[..PKTSIZE];
      var buf := Overlay(s.inbuf, 0, q);
      s.(timeout := 0, inb := |q|, inbuf := buf, waiting := false,
         state := if |q| > 0 then Dispatch(UnpackOp(buf), OP_ACK, Ack) else s.state)
  }

  // ------------------------------------------------------------- getfile

  /** The variables of `getfile`; out is what it has written to standard output. */
  datatype Receiver = Receiver(
    state: Control, waiting: bool,
    buf: seq<byte>, n: int,
    blkno: int, nextblkno: int, done: bool, timeout: int, out: seq<byte>)

  ghost predicate ReceiverOk(r: Receiver) {
    |r.buf| == PKTSIZE && r.n <= PKTSIZE && r.blkno >= 0 && r.nextblkno >= 1
  }

  /** `getfile` from the head of its loop to the next `readpkt` or head. */
  function ReceiverRun(r: Receiver, request: seq<byte>): (q: (Receiver, Option<seq<byte>>))
    requires ReceiverOk(r) && Running(r.state) && !r.waiting && |request| <= BLKSIZE
    ensures ReceiverOk(q.0)
  {
    match r.state
    case Request => (r.(buf := Overlay(r.buf, 0, request), waiting := true), Some(request))
    case Data =>
      var n := r.n - HDRSIZE;
      if n < 0 then (r.(n := n, state := Exited), None)
      else
        var b := UnpackBlkno(r.buf);
        var t := if b == r.nextblkno
                 then r.(nextblkno := r.nextblkno + 1, out := r.out + r.buf[HDRSIZE..HDRSIZE + n])
                 else r;
        (t.(n := n, blkno := b, done := r.done || n < BLKSIZE, state := Ack), None)
    case Ack =>
      var a := Header(OP_ACK, r.blkno);
      var t := r.(buf := Overlay(r.buf, 0, a), n := HDRSIZE);
      (if r.done then t.(state := Returned) else t.(waiting := true), Some(a))
    case _ => (r.(state := Exited), None)
  }

  function ReceiverGet(r: Receiver, got: Option<seq<byte>>): (q: Receiver)
    requires ReceiverOk(r) && r.waiting && Running(r.state)
    ensures ReceiverOk(q)
  {
    match got
    case None =>
      r.(timeout := r.timeout + 1, n := -1, waiting := false,
         state := if r.timeout + 1 == NRETRIES then Exited else r.state)
    case Some(p) =>
      var p1 := if |p| <= PKTSIZE then p else p[..PKTSIZE];
      var buf := Overlay(r.buf, 0, p1);
      r.(timeout := 0, n := |p1|, buf := buf, waiting := false,
         state := if |p1| > 0 then Dispatch(UnpackOp(buf), OP_DATA, Data) else r.state)
  }
}

/** The loops of `getfile` and `putfile` as they run: fields updated in place,
    fixed packet buffers, one method for the part of a turn before `readpkt` and
    one for what `readpkt` leaves behind. */
module TftpLoops {
  import opened Basics
  import opened TftpPackets

  /** memcpy(buf + k, p, |p|). */
  method Copy(buf: array<byte>, k: nat, p: seq<byte>)
    requires k + |p| <= buf.Length
    modifies buf
    ensures buf[..] == Overlay(old(buf[..]), k, p)
  {
    var i := 0;
    while i < |p|
      invariant i <= |p|
      invariant buf[..] == Overlay(old(buf[..]), k, p[..i])
    {
      buf[k + i] := p[i];
      assert p[..i + 1] == p[..i] + [p[i]];
      i := i + 1;
    }
    assert p[..i] == p;
  }

  class PutFile {
    const file: seq<byte>
    const request: seq<byte>
    const inbuf: array<byte>
    const outbuf: array<byte>
    var state: Control
    var waiting: bool
    var inb: int
    var outb: int
    var blkno: int
    var nextblkno: int
    var done: bool
    var timeout: int
    var pos: nat

    ghost function S(): Sender
      reads this, inbuf, outbuf
    {
      Sender(state, waiting, inbuf[..], inb, outbuf[..], outb, blkno, nextblkno, done, timeout, pos)
    }

    ghost predicate Valid()
      reads this, inbuf, outbuf
    {
      inbuf != outbuf && SenderOk(S(), file) && |request| <= BLKSIZE
    }

    constructor (file: seq<byte>, request: seq<byte>, garbage: int)
      requires |request| <= BLKSIZE
      ensures Valid() && this.file == file && this.request == request && fresh(inbuf) && fresh(outbuf)
      ensures state == Request && !waiting && nextblkno == 0 && !done && timeout == 0 && pos == 0 && blkno == garbage
    {
      this.file, this.request := file, request;
      inbuf, outbuf := new byte[PKTSIZE](_ => 0), new byte[PKTSIZE](_ => 0);
      state, waiting, inb, outb, blkno, nextblkno := Request, false, 0, 0, garbage, 0;
      done, timeout, pos := false, 0, 0;
    }

    /** From the head of the loop to `readpkt` or back to the head. */
    method Turn() returns (sent: Option<seq<byte>>)
      requires Valid() && Running(state) && !waiting
      modifies this, outbuf
      ensures Valid() && (S(), sent) == SenderRun(old(S()), file, request)
    {
      sent := None;
      if state == Request {
        Copy(outbuf, 0, request);
        outb, waiting, sent := |request|, true, Some(request);
      } else if state == Data {
        sent := SendData();
      } else if state == Ack {
        TakeAck();
      } else {
        state := Exited;
      }
    }

    method SendData() returns (sent: Option<seq<byte>>)
      requires Valid() && state == Data && !waiting
      modifies this, outbuf
      ensures Valid() && (S(), sent) == SenderRun(old(S()), file, request)
    {
      if blkno == nextblkno { PackBlock(); }
      sent, waiting := Some(outbuf[..outb + HDRSIZE]), true;
    }

    method TakeAck()
      requires Valid() && state == Ack && !waiting
      modifies this
      ensures Valid() && (S(), None) == SenderRun(old(S()), file, request)
    {
      if inb < HDRSIZE {
        state := Exited;
      } else {
        blkno := UnpackBlkno(inbuf[..]);
        state := if blkno == nextblkno && done then Returned else Data;
      }
    }

    /** Reads the next block of the file into the packet. */
    method PackBlock()
      requires Valid()
      modifies this, outbuf
      ensures Valid()
      ensures var s, b := old(S()), ReadBlock(file, old(pos));
              S() == s.(nextblkno := s.nextblkno + 1,
                        outbuf := Overlay(Overlay(s.outbuf, 0, Header(OP_DATA, s.nextblkno + 1)), HDRSIZE, b),
                        outb := |b|, pos := s.pos + |b|, done := s.done || |b| < BLKSIZE)
    {
      nextblkno := nextblkno + 1;
      Copy(outbuf, 0, Header(OP_DATA, nextblkno));
      var block := ReadBlock(file, pos);
      pos := pos + |block|;
      Copy(outbuf, HDRSIZE, block);
      outb := |block|;
      if outb < BLKSIZE { done := true; }
    }

    /** A datagram has been read over the start of the buffer. */
    method TakePacket(p: seq<byte>)
      requires Valid() && |p| <= PKTSIZE
      modifies this`inb, this`timeout, this`state, inbuf
      ensures var s := old(S());
              var buf := Overlay(s.inbuf, 0, p);
              S() == s.(timeout := 0, inb := |p|, inbuf := buf,
                        state := if |p| > 0 then Dispatch(UnpackOp(buf), OP_ACK, Ack) else s.state)
    {
      Copy(inbuf, 0, p);
      inb, timeout := |p|, 0;
      if inb > 0 { state := Dispatch(UnpackOp(inbuf[..]), OP_ACK, Ack); }
    }

    /** `readpkt` returns with a datagram, or has timed out. */
    method Arrive(got: Option<seq<byte>>)
      requires Valid() && waiting && Running(state)
      modifies this, inbuf
      ensures Valid() && S() == SenderGet(old(S()), file, got)
    {
      waiting := false;
      if got.None? {
        inb, timeout := -1, timeout + 1;
        if timeout == NRETRIES { state := Exited; }
      } else {
        var p := if |got.value| <= PKTSIZE then got.value else got.value[..PKTSIZE];
        TakePacket(p);
      }
    }
  }

  class GetFile {
    const request: seq<byte>
    const buf: array<byte>
    var state: Control
    var waiting: bool
    var n: int
    var blkno: int
    var nextblkno: int
    var done: bool
    var timeout: int
    var out: seq<byte>

    ghost function S(): Receiver
      reads this, buf
    {
      Receiver(state, waiting, buf[..], n, blkno, nextblkno, done, timeout, out)
    }

    ghost predicate Valid()
      reads this, buf
    {
      ReceiverOk(S()) && |request| <= BLKSIZE
    }

    constructor (request: seq<byte>)
      requires |request| <= BLKSIZE
      ensures Valid() && this.request == request && fresh(buf)
      ensures state == Request && !waiting && nextblkno == 1 && !done && timeout == 0 && out == []
    {
      this.request := request;
      buf := new byte[PKTSIZE](_ => 0);
      state, waiting, n, blkno, nextblkno := Request, false, 0, 0, 1;
      done, timeout, out := false, 0, [];
    }

    method Turn() returns (sent: Option<seq<byte>>)
      requires Valid() && Running(state) && !waiting
      modifies this, buf
      ensures Valid() && (S(), sent) == ReceiverRun(old(S()), request)
    {
      sent := None;
      if state == Request {
        Copy(buf, 0, request);
        waiting, sent := true, Some(request);
      } else if state == Data {
        n := n - HDRSIZE;
        if n < 0 {
          state := Exited;
        } else {
          blkno := UnpackBlkno(buf[..]);
          if blkno == nextblkno {
            nextblkno := nextblkno + 1;
            out := out + buf[HDRSIZE..HDRSIZE + n];
          }
          if n < BLKSIZE { done := true; }
          state := Ack;
        }
      } else if state == Ack {
        var ack := Header(OP_ACK, blkno);
        Copy(buf, 0, ack);
        n, sent := HDRSIZE, Some(ack);
        if done { state := Returned; } else { waiting := true; }
      } else {
        state := Exited;
      }
    }

    method Arrive(got: Option<seq<byte>>)
      requires Valid() && waiting && Running(state)
      modifies this, buf
      ensures Valid() && S() == ReceiverGet(old(S()), got)
    {
      waiting := false;
      if got.None? {
        n, timeout := -1, timeout + 1;
        if timeout == NRETRIES { state := Exited; }
      } else {
        var p := if |got.value| <= PKTSIZE then got.value else got.value[..PKTSIZE];
        ghost var was := buf[..];
        Copy(buf, 0, p);
        assert buf[..] == Overlay(was, 0, p);
        n, timeout := |p|, 0;
        if n > 0 { state := Dispatch(UnpackOp(buf[..]), OP_DATA, Data); }
      }
    }
  }
}
