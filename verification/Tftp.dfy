/** One transfer: the loop of `putfile` sends a file to the loop of `getfile`
    over a channel that may lose, repeat and reorder packets but not invent or
    change them.  The reader's request takes the part of the acknowledgement of
    block 0, which is what the answer to a write request is in RFC 1350,
    section 4. */
module Tftp {
  import opened Basics
  import opened TftpPackets

  /** Both ends, and all packets ever put on the channel in each direction. */
  datatype Sys = Sys(s: Sender, r: Receiver, toSender: set<seq<byte>>, toReceiver: set<seq<byte>>)

  /** The file, and the bytes of the two requests. */
  datatype Setup = Setup(file: seq<byte>, getRequest: seq<byte>, putRequest: seq<byte>)

  ghost predicate SetupOk(u: Setup) { |u.getRequest| <= BLKSIZE && |u.putRequest| <= BLKSIZE }

  /** `block` of the sender is not initialised in the source: any value. */
  ghost predicate Init(u: Setup, y: Sys) {
    && SenderOk(y.s, u.file) && ReceiverOk(y.r)
    && y.s.state == Request && !y.s.waiting && y.s.nextblkno == 0 && !y.s.done && y.s.timeout == 0 && y.s.pos == 0
    && y.r.state == Request && !y.r.waiting && y.r.nextblkno == 1 && !y.r.done && y.r.timeout == 0 && y.r.out == []
    && y.toSender == {} && y.toReceiver == {}
  }

  /** The reader's request, seen from the writer. */
  function AsAck(request: seq<byte>): seq<byte> { Header(OP_ACK, 0) }

  ghost predicate SenderRuns(u: Setup, y: Sys, z: Sys) {
    && SenderOk(y.s, u.file) && SetupOk(u) && Running(y.s.state) && !y.s.waiting
    && var (s, sent) := SenderRun(y.s, u.file, u.putRequest);
       z == y.(s := s,
               toReceiver := if sent.Some? && y.s.state == Data then y.toReceiver + {sent.value} else y.toReceiver)
  }

  ghost predicate SenderGets(u: Setup, y: Sys, z: Sys, got: Option<seq<byte>>) {
    && SenderOk(y.s, u.file) && Running(y.s.state) && y.s.waiting
    && (got.Some? ==> got.value in y.toSender)
    && z == y.(s := SenderGet(y.s, u.file, got))
  }

  ghost predicate ReceiverRuns(u: Setup, y: Sys, z: Sys) {
    && ReceiverOk(y.r) && SetupOk(u) && Running(y.r.state) && !y.r.waiting
    && var (r, sent) := ReceiverRun(y.r, u.getRequest);
       z == y.(r := r,
               toSender := if sent.None? then y.toSender
                           else y.toSender + {if y.r.state == Request then AsAck(sent.value) else sent.value})
  }

  ghost predicate ReceiverGets(u: Setup, y: Sys, z: Sys, got: Option<seq<byte>>) {
    && ReceiverOk(y.r) && Running(y.r.state) && y.r.waiting
    && (got.Some? ==> got.value in y.toReceiver)
    && z == y.(r := ReceiverGet(y.r, got))
  }

  datatype Action = SRun | RRun | SGet(p: Option<seq<byte>>) | RGet(p: Option<seq<byte>>)

  ghost predicate Next(u: Setup, y: Sys, a: Action, z: Sys) {
    match a
    case SRun => SenderRuns(u, y, z)
    case RRun => ReceiverRuns(u, y, z)
    case SGet(p) => SenderGets(u, y, z, p)
    case RGet(p) => ReceiverGets(u, y, z, p)
  }

  /** A finite run of any length, with the steps of both ends interleaved and the
      packets delivered in any way. */
  ghost predicate IsRun(u: Setup, run: seq<Sys>, acts: seq<Action>) {
    && |run| == |acts| + 1 && SetupOk(u) && Init(u, run[0])
    && forall i :: 0 <= i < |acts| ==> Next(u, run[i], acts[i], run[i + 1])
  }

  ghost predicate Reachable(u: Setup, y: Sys) {
    exists run, acts :: IsRun(u, run, acts) && run[|run| - 1] == y
  }

  // ------------------------------------------------------------ invariant

  /** The number of DATA packets of a file: a last one is always short. */
  function Blocks(file: seq<byte>): nat { |file| / BLKSIZE + 1 }

  /** Bytes in the first k blocks. */
  function Upto(file: seq<byte>, k: nat): nat { if k * BLKSIZE < |file| then k * BLKSIZE else |file| }

  function Block(file: seq<byte>, k: nat): seq<byte>
    requires k >= 1
  {
    file[Upto(file, k - 1)..Upto(file, k)]
  }

  function DataPacket(file: seq<byte>, k: nat): seq<byte>
    requires k >= 1
  {
    Header(OP_DATA, k) + Block(file, k)
  }

  lemma BlockFacts(file: seq<byte>, k: nat)
    requires 1 <= k <= Blocks(file)
    ensures |Block(file, k)| <= BLKSIZE && (|Block(file, k)| < BLKSIZE <==> k == Blocks(file))
    ensures Upto(file, k) == Upto(file, k - 1) + |Block(file, k)|
    ensures file[..Upto(file, k)] == file[..Upto(file, k - 1)] + Block(file, k)
    ensures k < Blocks(file) ==> Upto(file, k) == k * BLKSIZE
    ensures ReadBlock(file, Upto(file, k - 1)) == Block(file, k)
    ensures Upto(file, Blocks(file)) == |file|
  {
    var q, m := |file| / BLKSIZE, |file| % BLKSIZE;
    assert |file| == q * BLKSIZE + m;
    if k < Blocks(file) {
      assert k * BLKSIZE <= q * BLKSIZE;
    }
  }

  /** The sender: how many blocks it has read and sent, and what it holds. */
  ghost predicate SenderInv(u: Setup, y: Sys, sent: nat, got: nat) {
    && SenderOk(y.s, u.file) && y.s.nextblkno == sent
    && sent <= Blocks(u.file) && sent <= 65536
    && y.s.pos == Upto(u.file, sent) && (y.s.done <==> sent == Blocks(u.file))
    && (sent >= 1 ==> y.s.outbuf[..y.s.outb + HDRSIZE] == DataPacket(u.file, sent))
    && (y.s.state == Data && y.s.blkno == sent ==> !y.s.waiting && sent == got && sent < Blocks(u.file))
    && (y.s.state == Data ==> sent >= 1 || y.s.blkno == 0)
    && (y.s.state == Request ==> sent == 0)
    && (y.s.state == Ack ==> exists j :: 0 <= j <= got && IsAck(y.s.inbuf, j))
    && (y.s.state == Returned ==> got == sent == Blocks(u.file))
  }

  ghost predicate IsAck(p: seq<byte>, j: int) {
    |p| >= HDRSIZE && 0 <= j && p[..HDRSIZE] == Header(OP_ACK, j)
  }

  /** The receiver: it has written the first `got` blocks. */
  ghost predicate ReceiverInv(u: Setup, y: Sys, sent: nat, got: nat) {
    && ReceiverOk(y.r) && y.r.nextblkno == got + 1 && got <= 65535 && got <= sent <= got + 1
    && y.r.out == u.file[..Upto(u.file, got)]
    && (y.r.waiting ==> y.r.state != Data)
    && (y.r.state == Data ==> exists i :: 1 <= i <= sent && HoldsData(u.file, y.r, i))
    && (y.r.state == Ack ==> exists j :: 0 <= j <= got && y.r.blkno % 65536 == j % 65536)
    && (y.r.done ==> sent == Blocks(u.file) && (got == sent || sent == 65536))
    && (y.r.state == Returned ==> y.r.done)
  }

  ghost predicate HoldsData(file: seq<byte>, r: Receiver, i: int) {
    1 <= i && r.n == |DataPacket(file, i)| && r.n <= |r.buf| && r.buf[..r.n] == DataPacket(file, i)
  }

  /** The channel holds only blocks already sent and acknowledgements of blocks
      already written. */
  ghost predicate ChannelInv(u: Setup, y: Sys, sent: nat, got: nat) {
    && (forall p :: p in y.toReceiver ==> exists i :: 1 <= i <= sent && p == DataPacket(u.file, i))
    && (forall p :: p in y.toSender ==> exists j :: 0 <= j <= got && p == Header(OP_ACK, j))
  }

  ghost predicate Inv(u: Setup, y: Sys) {
    && SetupOk(u) && y.s.nextblkno >= 0 && y.r.nextblkno >= 1
    && SenderInv(u, y, y.s.nextblkno, y.r.nextblkno - 1)
    && ReceiverInv(u, y, y.s.nextblkno, y.r.nextblkno - 1)
    && ChannelInv(u, y, y.s.nextblkno, y.r.nextblkno - 1)
  }

  lemma InitInv(u: Setup, y: Sys)
    requires SetupOk(u) && Init(u, y)
    ensures Inv(u, y)
  {
    assert u.file[..0] == [];
  }

  /** Only the low 16 bits of a block number are on the wire. */
  lemma HeaderModulo(op: int, b: int)
    requires 0 <= op < 65536 && 0 <= b
    ensures Header(op, b % 65536) == Header(op, b)
  {
    assert b == 65536 * (b / 65536) + b % 65536;
    assert b / 256 % 256 == b % 65536 / 256 && b % 256 == b % 65536 % 256;
    assert b % 65536 / 256 % 256 == b % 65536 / 256;
  }

  lemma OverlayPrefix(buf: seq<byte>, p: seq<byte>, k: nat)
    requires k <= |p| <= |buf|
    ensures Overlay(buf, 0, p)[..k] == p[..k]
  {
  }

  lemma UnpackPrefix(buf: seq<byte>, op: int, b: int)
    requires |buf| >= HDRSIZE && 0 <= op < 65536 && 0 <= b && buf[..HDRSIZE] == Header(op, b)
    ensures UnpackOp(buf) == op && UnpackBlkno(buf) == b % 65536
  {
    HeaderRoundTrip(op, b, []);
    var h := Header(op, b);
    assert h + [] == h;
    assert buf[0] == buf[..HDRSIZE][0] && buf[1] == buf[..HDRSIZE][1] && buf[2] == buf[..HDRSIZE][2] &&
           buf[3] == buf[..HDRSIZE][3];
  }

  lemma DataPacketSize(file: seq<byte>, k: nat)
    requires 1 <= k <= Blocks(file)
    ensures HDRSIZE <= |DataPacket(file, k)| <= PKTSIZE && DataPacket(file, k)[..HDRSIZE] == Header(OP_DATA, k)
    ensures DataPacket(file, k)[HDRSIZE..] == Block(file, k)
  {
    BlockFacts(file, k);
  }

  // ----------------------------------------------------- the sender's steps

  /** Sending the next block: it is read behind its header. */
  lemma SendsBlock(s: Sender, file: seq<byte>, request: seq<byte>, k: nat)
    requires SenderOk(s, file) && |request| <= BLKSIZE && s.state == Data && !s.waiting &&
             s.blkno == s.nextblkno == k - 1
    requires 1 <= k <= Blocks(file) && s.pos == Upto(file, k - 1)
    ensures var (t, sent) := SenderRun(s, file, request);
            && sent == Some(DataPacket(file, k)) && t.outbuf[..t.outb + HDRSIZE] == DataPacket(file, k)
            && t.state == Data && t.waiting && t.nextblkno == k && t.blkno == s.blkno
            && t.pos == Upto(file, k) && (t.done <==> s.done || k == Blocks(file))
  {
    BlockFacts(file, k);
    PacketInBuffer(s.outbuf, Header(OP_DATA, k), Block(file, k));
  }

  /** The sender sends a new block only when its last one is acknowledged. */
  lemma SenderSendsNext(u: Setup, y: Sys, z: Sys)
    requires Inv(u, y) && SenderRuns(u, y, z) && y.s.state == Data && y.s.blkno == y.s.nextblkno
    ensures Inv(u, z)
  {
    var k := y.s.nextblkno + 1;
    SendsBlock(y.s, u.file, u.putRequest, k);
    SentInv(u, y, z, k);
  }

  lemma SentInv(u: Setup, y: Sys, z: Sys, k: nat)
    requires Inv(u, y) && y.s.state == Data && y.s.blkno == y.s.nextblkno == k - 1 && k >= 1
    requires z == y.(s := z.s, toReceiver := y.toReceiver + {DataPacket(u.file, k)}) && SenderOk(z.s, u.file)
    requires z.s.outbuf[..z.s.outb + HDRSIZE] == DataPacket(u.file, k) && z.s.pos == Upto(u.file, k)
    requires z.s.state == Data && z.s.waiting && z.s.nextblkno == k && z.s.blkno == k - 1
    requires z.s.done <==> y.s.done || k == Blocks(u.file)
    ensures Inv(u, z)
  {
    SentChannel(u, y, z, k, y.r.nextblkno - 1);
  }

  lemma SentChannel(u: Setup, y: Sys, z: Sys, k: nat, got: nat)
    requires k >= 1 && ChannelInv(u, y, k - 1, got)
    requires z.toReceiver == y.toReceiver + {DataPacket(u.file, k)} && z.toSender == y.toSender
    ensures ChannelInv(u, z, k, got)
  {
    forall p | p in z.toReceiver ensures exists i :: 1 <= i <= k && p == DataPacket(u.file, i) {
      if p in y.toReceiver {
        var i :| 1 <= i <= k - 1 && p == DataPacket(u.file, i);
      }
    }
  }

  lemma PacketInBuffer(buf: seq<byte>, h: seq<byte>, b: seq<byte>)
    requires |h| == HDRSIZE && |buf| == PKTSIZE && |b| <= BLKSIZE
    ensures Overlay(Overlay(buf, 0, h), HDRSIZE, b)[..|b| + HDRSIZE] == h + b
  {
  }

  /** The last block is sent again. */
  lemma SenderSendsAgain(u: Setup, y: Sys, z: Sys)
    requires Inv(u, y) && SenderRuns(u, y, z) && y.s.state == Data && y.s.blkno != y.s.nextblkno
    ensures Inv(u, z)
  {
    assert z.toReceiver == y.toReceiver + {DataPacket(u.file, y.s.nextblkno)};
  }

  lemma SenderReadsAck(u: Setup, y: Sys, z: Sys)
    requires Inv(u, y) && SenderRuns(u, y, z) && y.s.state == Ack
    ensures Inv(u, z)
  {
    var j :| 0 <= j <= y.r.nextblkno - 1 && IsAck(y.s.inbuf, j);
    UnpackPrefix(y.s.inbuf, OP_ACK, j);
    Modulo(j);
  }

  lemma SenderOtherwise(u: Setup, y: Sys, z: Sys)
    requires Inv(u, y) && SenderRuns(u, y, z) && y.s.state != Data && y.s.state != Ack
    ensures Inv(u, z)
  {
  }

  lemma SenderRunInv(u: Setup, y: Sys, z: Sys)
    requires Inv(u, y) && SenderRuns(u, y, z)
    ensures Inv(u, z)
  {
    match y.s.state
    case Data => if y.s.blkno == y.s.nextblkno { SenderSendsNext(u, y, z); } else { SenderSendsAgain(u, y, z); }
    case Ack => SenderReadsAck(u, y, z);
    case _ => SenderOtherwise(u, y, z);
  }

  lemma SenderGetInv(u: Setup, y: Sys, z: Sys, p: Option<seq<byte>>)
    requires Inv(u, y) && SenderGets(u, y, z, p)
    ensures Inv(u, z)
  {
    if p.Some? {
      var got := y.r.nextblkno - 1;
      var j :| 0 <= j <= got && p.value == Header(OP_ACK, j);
      OverlayPrefix(y.s.inbuf, p.value, HDRSIZE);
      assert IsAck(z.s.inbuf, j);
      UnpackPrefix(z.s.inbuf, OP_ACK, j);
    }
  }

  // --------------------------------------------------- the receiver's steps

  lemma DataArrived(file: seq<byte>, r: Receiver, i: int)
    requires |r.buf| == PKTSIZE && 1 <= i <= Blocks(file) && HoldsData(file, r, i)
    ensures UnpackBlkno(r.buf) == i % 65536
    ensures HDRSIZE <= r.n <= PKTSIZE && r.buf[HDRSIZE..r.n] == Block(file, i) && r.n - HDRSIZE == |Block(file, i)|
  {
    DataPacketSize(file, i);
    BlockFacts(file, i);
    assert r.buf[..HDRSIZE] == r.buf[..r.n][..HDRSIZE];
    UnpackPrefix(r.buf, OP_DATA, i);
    assert r.buf[HDRSIZE..r.n] == r.buf[..r.n][HDRSIZE..];
  }

  lemma TakeData(file: seq<byte>, r: Receiver, request: seq<byte>, i: int) returns (q: Receiver)
    requires ReceiverOk(r) && r.state == Data && !r.waiting && |request| <= BLKSIZE
    requires 1 <= i <= Blocks(file) && HoldsData(file, r, i)
    ensures q == ReceiverRun(r, request).0 && ReceiverRun(r, request).1 == None
    ensures q.state == Ack && !q.waiting && q.blkno == i % 65536
    ensures q.nextblkno == r.nextblkno + if i % 65536 == r.nextblkno then 1 else 0
    ensures q.out == r.out + if i % 65536 == r.nextblkno then Block(file, i) else []
    ensures q.done <==> r.done || i == Blocks(file)
  {
    DataArrived(file, r, i);
    BlockFacts(file, i);
    q := ReceiverRun(r, request).0;
  }

  /** A DATA packet is written if and only if it is the next block and its number
      fits in 16 bits. */
  lemma ReceiverTakesData(u: Setup, y: Sys, z: Sys, i: int)
    requires Inv(u, y) && ReceiverRuns(u, y, z) && y.r.state == Data
    requires 1 <= i <= y.s.nextblkno && HoldsData(u.file, y.r, i)
    ensures Inv(u, z)
    ensures z.r.nextblkno == if i == y.r.nextblkno < 65536 then y.r.nextblkno + 1 else y.r.nextblkno
  {
    var q := TakeData(u.file, y.r, u.getRequest, i);
    Modulo(i);
    TakenOut(u.file, y.r.out, y.r.nextblkno, i);
    ReceiverStill(u, y, z, i);
  }

  lemma TakenOut(file: seq<byte>, out: seq<byte>, next: int, i: int)
    requires 1 <= i <= Blocks(file) && next >= 1 && out == file[..Upto(file, next - 1)]
    ensures i == next ==> out + Block(file, i) == file[..Upto(file, i)]
    ensures out + [] == out
  {
    BlockFacts(file, i);
  }

  lemma Modulo(i: int)
    requires 0 <= i <= 65536
    ensures i % 65536 % 65536 == i % 65536 && (i < 65536 ==> i % 65536 == i) && (i == 65536 ==> i % 65536 == 0)
  {
  }

  lemma ReceiverStill(u: Setup, y: Sys, z: Sys, i: int)
    requires Inv(u, y) && z == y.(r := z.r) && ReceiverOk(z.r) && z.r.state == Ack && !z.r.waiting
    requires 1 <= i <= y.s.nextblkno && z.r.blkno == i % 65536 && i <= y.r.nextblkno
    requires z.r.nextblkno == y.r.nextblkno + if i == y.r.nextblkno < 65536 then 1 else 0
    requires z.r.out == u.file[..Upto(u.file, z.r.nextblkno - 1)]
    requires z.r.done <==> y.r.done || i == Blocks(u.file)
    ensures Inv(u, z)
  {
    Modulo(i);
    var got := z.r.nextblkno - 1;
    assert z.r.blkno % 65536 == (if i == 65536 then 0 else i) % 65536;
    assert i < 65536 ==> i <= got;
    assert ReceiverInv(u, z, y.s.nextblkno, got);
  }

  lemma ReceiverRunInv(u: Setup, y: Sys, z: Sys)
    requires Inv(u, y) && ReceiverRuns(u, y, z)
    ensures Inv(u, z)
  {
    var sent, got := y.s.nextblkno, y.r.nextblkno - 1;
    match y.r.state
    case Data =>
      var i :| 1 <= i <= sent && HoldsData(u.file, y.r, i);
      ReceiverTakesData(u, y, z, i);
    case Ack =>
      var j :| 0 <= j <= got && y.r.blkno % 65536 == j % 65536;
      HeaderModulo(OP_ACK, y.r.blkno);
      HeaderModulo(OP_ACK, j);
      assert z.toSender == y.toSender + {Header(OP_ACK, j)};
    case _ =>
  }

  lemma DataArrives(r: Receiver, file: seq<byte>, k: nat)
    requires ReceiverOk(r) && r.waiting && Running(r.state) && 1 <= k <= Blocks(file)
    ensures var q := ReceiverGet(r, Some(DataPacket(file, k)));
            && q.state == Data && !q.waiting && HoldsData(file, q, k)
            && q.done == r.done && q.nextblkno == r.nextblkno
  {
    var p := DataPacket(file, k);
    DataPacketSize(file, k);
    OverlayPrefix(r.buf, p, |p|);
    OverlayPrefix(r.buf, p, HDRSIZE);
    assert p[..|p|] == p;
    UnpackPrefix(Overlay(r.buf, 0, p), OP_DATA, k);
  }

  lemma ReceiverGetInv(u: Setup, y: Sys, z: Sys, p: Option<seq<byte>>)
    requires Inv(u, y) && ReceiverGets(u, y, z, p)
    ensures Inv(u, z)
  {
    if p.Some? {
      var sent := y.s.nextblkno;
      var i :| 1 <= i <= sent && p.value == DataPacket(u.file, i);
      DataArrives(y.r, u.file, i);
    }
  }

  lemma NextInv(u: Setup, y: Sys, a: Action, z: Sys)
    requires Inv(u, y) && Next(u, y, a, z)
    ensures Inv(u, z)
  {
    match a
    case SRun => SenderRunInv(u, y, z);
    case RRun => ReceiverRunInv(u, y, z);
    case SGet(p) => SenderGetInv(u, y, z, p);
    case RGet(p) => ReceiverGetInv(u, y, z, p);
  }

  lemma {:induction false} RunInv(u: Setup, run: seq<Sys>, acts: seq<Action>, n: nat)
    requires IsRun(u, run, acts) && n <= |acts|
    ensures Inv(u, run[n])
    decreases n
  {
    if n == 0 {
      InitInv(u, run[0]);
    } else {
      RunInv(u, run, acts, n - 1);
      NextInv(u, run[n - 1], acts[n - 1], run[n - 1 + 1]);
    }
  }

  lemma ReachableInv(u: Setup, y: Sys)
    requires Reachable(u, y)
    ensures Inv(u, y)
  {
    var run, acts :| IsRun(u, run, acts) && run[|run| - 1] == y;
    RunInv(u, run, acts, |acts|);
  }

  // ------------------------------------------------------------- theorems

  /** At every moment of every run, what the receiver has written is a prefix of
      the file. */
  lemma WrittenIsPrefix(u: Setup, y: Sys)
    requires Reachable(u, y)
    ensures y.r.out <= u.file
  {
    ReachableInv(u, y);
  }

  /** When the sender returns, the receiver has written the whole file. */
  lemma SenderReturnsComplete(u: Setup, y: Sys)
    requires Reachable(u, y) && y.s.state == Returned
    ensures y.r.out == u.file
  {
    ReachableInv(u, y);
    BlockFacts(u.file, Blocks(u.file));
    assert u.file[..|u.file|] == u.file;
  }

  /** The lengths for which the last, short block has number 65536, which is 0 on
      the wire, and is not empty. */
  predicate CutShort(file: seq<byte>) { 65535 * BLKSIZE < |file| < 65536 * BLKSIZE }

  /** When the receiver returns it has written the whole file, unless the file's
      length is CutShort; then it has lost the last block. */
  lemma ReceiverReturns(u: Setup, y: Sys)
    requires Reachable(u, y) && y.r.state == Returned
    ensures y.r.out == u.file <==> !CutShort(u.file)
    ensures |u.file| < 65536 * BLKSIZE
  {
    ReachableInv(u, y);
    BlockFacts(u.file, Blocks(u.file));
    var got := y.r.nextblkno - 1;
    if got == y.s.nextblkno {
      assert y.r.out == u.file[..|u.file|] == u.file;
      assert Blocks(u.file) <= 65535;
    } else {
      assert Blocks(u.file) == 65536 && got == 65535;
      assert Upto(u.file, 65535) == 65535 * BLKSIZE;
      assert |y.r.out| == 65535 * BLKSIZE;
      if |u.file| == 65535 * BLKSIZE { assert u.file[..|u.file|] == u.file; }
    }
  }

  // ------------------------------------------- runs that reach the end

  lemma ReachStep(u: Setup, y: Sys, a: Action, z: Sys)
    requires Reachable(u, y) && Next(u, y, a, z)
    ensures Reachable(u, z) && SenderOk(z.s, u.file) && ReceiverOk(z.r)
  {
    Reaches(u, y, a, z);
    ReachableInv(u, z);
  }

  lemma Reaches(u: Setup, y: Sys, a: Action, z: Sys)
    requires Reachable(u, y) && Next(u, y, a, z)
    ensures Reachable(u, z)
  {
    var run, acts :| IsRun(u, run, acts) && run[|run| - 1] == y;
    var run', acts' := run + [z], acts + [a];
    forall i | 0 <= i < |acts'| ensures Next(u, run'[i], acts'[i], run'[i + 1]) {
      if i < |acts| { assert Next(u, run[i], acts[i], run[i + 1]); }
    }
    assert IsRun(u, run', acts') && run'[|run'| - 1] == z;
  }

  /** Block k is acknowledged, the sender is about to send the next one and the
      receiver waits for it. */
  ghost predicate Synced(u: Setup, y: Sys, k: nat) {
    && Reachable(u, y) && SenderOk(y.s, u.file) && ReceiverOk(y.r)
    && y.s.state == Data && !y.s.waiting && y.s.blkno == y.s.nextblkno == k && y.r.nextblkno == k + 1
    && (y.r.state == Request || y.r.state == Ack) && y.r.waiting && !y.r.done
  }

  function Zeros(): (z: seq<byte>)
    ensures |z| == PKTSIZE
  {
    seq(PKTSIZE, _ => 0)
  }

  lemma Handshake(u: Setup) returns (y: Sys)
    requires SetupOk(u)
    ensures Synced(u, y, 0)
  {
    var s0 := Sender(Request, false, Zeros(), -1, Zeros(), 0, 0, 0, false, 0, 0);
    var r0 := Receiver(Request, false, Zeros(), 0, 0, 1, false, 0, []);
    var y0 := Sys(s0, r0, {}, {});
    assert IsRun(u, [y0], []) && [y0][|[y0]| - 1] == y0;
    ReachableInv(u, y0);
    var ack := Header(OP_ACK, 0);
    var y1 := y0.(r := ReceiverRun(r0, u.getRequest).0, toSender := {ack});
    ReachStep(u, y0, RRun, y1);
    var y2 := y1.(s := SenderRun(s0, u.file, u.putRequest).0);
    ReachStep(u, y1, SRun, y2);
    var y3 := y2.(s := SenderGet(y2.s, u.file, Some(ack)));
    ReachStep(u, y2, SGet(Some(ack)), y3);
    AckArrives(y2.s, u.file, 0);
    y := y3.(s := SenderRun(y3.s, u.file, u.putRequest).0);
    ReachStep(u, y3, SRun, y);
  }

  lemma AckArrives(s: Sender, file: seq<byte>, k: nat)
    requires SenderOk(s, file) && s.waiting && Running(s.state) && k <= 65535
    ensures var t := SenderGet(s, file, Some(Header(OP_ACK, k)));
            && t.state == Ack && t.inb == HDRSIZE && UnpackBlkno(t.inbuf) == k && !t.waiting
            && t.done == s.done && t.nextblkno == s.nextblkno
  {
    var h := Header(OP_ACK, k);
    OverlayPrefix(s.inbuf, h, HDRSIZE);
    assert h[..HDRSIZE] == h;
    UnpackPrefix(Overlay(s.inbuf, 0, h), OP_ACK, k);
    Modulo(k);
  }

  /** The sender sends the next block and the receiver takes it in. */
  lemma SendOne(u: Setup, y: Sys, k: nat) returns (z: Sys)
    requires Synced(u, y, k)
    ensures Reachable(u, z) && SenderOk(z.s, u.file) && ReceiverOk(z.r)
    ensures z.s.state == Data && z.s.waiting && z.s.nextblkno == k + 1
    ensures z.r.state == Ack && !z.r.waiting && z.r.blkno == (k + 1) % 65536
    ensures z.r.nextblkno == if k + 1 < 65536 then k + 2 else k + 1
    ensures z.r.done <==> k + 1 == Blocks(u.file)
    ensures z.s.done <==> k + 1 == Blocks(u.file)
  {
    var y1 := SendPart(u, y, k);
    var y2 := GetPart(u, y1, k);
    z := TakePart(u, y2, k);
    ReachableInv(u, z);
  }

  lemma GetPart(u: Setup, y: Sys, k: nat) returns (z: Sys)
    requires Reachable(u, y) && ReceiverOk(y.r) && y.r.waiting && Running(y.r.state)
    requires DataPacket(u.file, k + 1) in y.toReceiver && k + 1 <= Blocks(u.file)
    ensures Reachable(u, z) && z.s == y.s && ReceiverOk(z.r) && !z.r.waiting && z.r.state == Data
    ensures HoldsData(u.file, z.r, k + 1) && z.r.done == y.r.done && z.r.nextblkno == y.r.nextblkno
  {
    var p := DataPacket(u.file, k + 1);
    DataArrives(y.r, u.file, k + 1);
    z := y.(r := ReceiverGet(y.r, Some(p)));
    assert Next(u, y, RGet(Some(p)), z);
    Reaches(u, y, RGet(Some(p)), z);
  }

  lemma TakePart(u: Setup, y: Sys, k: nat) returns (z: Sys)
    requires SetupOk(u) && Reachable(u, y) && ReceiverOk(y.r) && !y.r.waiting && y.r.state == Data
    requires HoldsData(u.file, y.r, k + 1) && k + 1 <= Blocks(u.file) && k <= 65535
    requires !y.r.done && y.r.nextblkno == k + 1
    ensures Reachable(u, z) && z.s == y.s
    ensures z.r.state == Ack && !z.r.waiting && z.r.blkno == (k + 1) % 65536
    ensures z.r.nextblkno == if k + 1 < 65536 then k + 2 else k + 1
    ensures z.r.done <==> k + 1 == Blocks(u.file)
  {
    var q := TakeData(u.file, y.r, u.getRequest, k + 1);
    z := y.(r := q);
    assert Next(u, y, RRun, z);
    Reaches(u, y, RRun, z);
    Modulo(k + 1);
  }

  lemma SendPart(u: Setup, y: Sys, k: nat) returns (z: Sys)
    requires Synced(u, y, k)
    ensures Reachable(u, z) && SenderOk(z.s, u.file) && ReceiverOk(z.r) && z.r == y.r &&
            DataPacket(u.file, k + 1) in z.toReceiver
    ensures z.s.state == Data && z.s.waiting && z.s.nextblkno == k + 1 && k <= 65535 && k + 1 <= Blocks(u.file)
  {
    SyncedFacts(u, y, k);
    SendsBlock(y.s, u.file, u.putRequest, k + 1);
    z := y.(s := SenderRun(y.s, u.file, u.putRequest).0, toReceiver := y.toReceiver + {DataPacket(u.file, k + 1)});
    ReachStep(u, y, SRun, z);
  }

  lemma SyncedFacts(u: Setup, y: Sys, k: nat)
    requires Synced(u, y, k)
    ensures SetupOk(u) && k <= 65535 && k + 1 <= Blocks(u.file) && y.s.pos == Upto(u.file, k)
  {
    ReachableInv(u, y);
  }

  /** The receiver acknowledges the block it has taken. */
  lemma AckPart(u: Setup, y: Sys, k: nat) returns (z: Sys)
    requires Reachable(u, y) && ReceiverOk(y.r) && k + 1 <= 65535
    requires y.r.state == Ack && !y.r.waiting && y.r.blkno == (k + 1) % 65536
    ensures Reachable(u, z) && ReceiverOk(z.r) && z.s == y.s && Header(OP_ACK, k + 1) in z.toSender
    ensures z.r.nextblkno == y.r.nextblkno && z.r.done == y.r.done
    ensures if y.r.done then z.r.state == Returned else z.r.state == Ack && z.r.waiting
  {
    Modulo(k + 1);
    z := y.(r := ReceiverRun(y.r, u.getRequest).0, toSender := y.toSender + {Header(OP_ACK, k + 1)});
    Reaches(u, y, RRun, z);
  }

  /** The sender takes the acknowledgement. */
  lemma AckTaken(u: Setup, y: Sys, k: nat) returns (z: Sys)
    requires Reachable(u, y) && SenderOk(y.s, u.file) && k + 1 <= 65535 && Header(OP_ACK, k + 1) in y.toSender
    requires y.s.state == Data && y.s.waiting && y.s.nextblkno == k + 1
    ensures Reachable(u, z) && SenderOk(z.s, u.file) && z.r == y.r
    ensures if y.s.done then z.s.state == Returned
            else z.s.state == Data && !z.s.waiting && z.s.blkno == z.s.nextblkno == k + 1
  {
    var ack := Header(OP_ACK, k + 1);
    AckArrives(y.s, u.file, k + 1);
    var y1 := y.(s := SenderGet(y.s, u.file, Some(ack)));
    Reaches(u, y, SGet(Some(ack)), y1);
    z := y1.(s := SenderRun(y1.s, u.file, u.putRequest).0);
    Reaches(u, y1, SRun, z);
  }

  /** One round on a channel that delivers: block k + 1 goes over and its
      acknowledgement comes back. */
  lemma Round(u: Setup, y: Sys, k: nat) returns (z: Sys)
    requires Synced(u, y, k) && k + 1 <= 65535
    ensures k + 1 < Blocks(u.file) ==> Synced(u, z, k + 1)
    ensures k + 1 == Blocks(u.file) ==> Reachable(u, z) && z.s.state == Returned && z.r.state == Returned
  {
    var y1 := SendOne(u, y, k);
    var y2 := AckPart(u, y1, k);
    z := AckTaken(u, y2, k);
  }

  lemma {:induction false} Rounds(u: Setup, k: nat) returns (y: Sys)
    requires SetupOk(u) && k < Blocks(u.file) && k <= 65535
    ensures Synced(u, y, k)
    decreases k
  {
    if k == 0 {
      y := Handshake(u);
    } else {
      y := Rounds(u, k - 1);
      y := Round(u, y, k - 1);
    }
  }

  /** The transfer can be completed on both sides exactly for files of at most
      65535 blocks. */
  lemma BothReturnIff(u: Setup)
    requires SetupOk(u)
    ensures (exists y :: Reachable(u, y) && y.s.state == Returned && y.r.state == Returned) <==> Blocks(u.file) <= 65535
  {
    if Blocks(u.file) <= 65535 {
      var y := Rounds(u, Blocks(u.file) - 1);
      var z := Round(u, y, Blocks(u.file) - 1);
    }
    forall y | Reachable(u, y) && y.s.state == Returned ensures Blocks(u.file) <= 65535 {
      ReachableInv(u, y);
    }
  }

  /** A receiver that returns has the whole file, on every run, if and only if
      the file's length is not CutShort. */
  lemma ReceiverCompleteIff(u: Setup)
    requires SetupOk(u)
    ensures (forall y :: Reachable(u, y) && y.r.state == Returned ==> y.r.out == u.file) <==> !CutShort(u.file)
  {
    forall y | Reachable(u, y) && y.r.state == Returned ensures y.r.out == u.file <==> !CutShort(u.file) {
      ReceiverReturns(u, y);
    }
    if CutShort(u.file) {
      var y := Rounds(u, 65535);
      var y3 := SendOne(u, y, 65535);
      var a := ReceiverRun(y3.r, u.getRequest).1.value;
      var z := y3.(r := ReceiverRun(y3.r, u.getRequest).0, toSender := y3.toSender + {a});
      ReachStep(u, y3, RRun, z);
      ReceiverReturns(u, z);
    }
  }
}
