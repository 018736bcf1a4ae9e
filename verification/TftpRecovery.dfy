/** What is sent, also when it has been sent before, and how a transfer goes on
    after packets were lost. */
module TftpRecovery {
  import opened Basics
  import opened TftpPackets
  import opened Tftp

  // -------------------------------------------------------------- packets

  /** The bytes of DATA and ACK packets (section 5 of RFC 1350): opcode 3 or 4, and
      the block number, both with the high byte first. */
  lemma PacketBytes(file: seq<byte>, k: nat)
    requires 1 <= k <= 65535
    ensures Header(OP_ACK, k) == [0, 4, k / 256, k % 256]
    ensures DataPacket(file, k) == [0, 3, k / 256, k % 256] + file[Upto(file, k - 1)..Upto(file, k)]
  {
  }

  /** In every reachable state the sender in DATA writes the packet of the block it
      is at, whether for the first time or again. */
  lemma SenderWrites(u: Setup, y: Sys)
    requires Reachable(u, y) && y.s.state == Data && !y.s.waiting
    ensures SenderOk(y.s, u.file) && |u.putRequest| <= BLKSIZE
    ensures var (t, sent) := SenderRun(y.s, u.file, u.putRequest);
            && t.nextblkno == (if y.s.blkno == y.s.nextblkno then y.s.nextblkno + 1 else y.s.nextblkno)
            && t.nextblkno >= 1 && sent == Some(DataPacket(u.file, t.nextblkno)) && t.state == Data && t.waiting
  {
    ReachableInv(u, y);
    if y.s.blkno == y.s.nextblkno { SendsBlock(y.s, u.file, u.putRequest, y.s.nextblkno + 1); }
  }

  /** And the receiver in ACK acknowledges the packet it has read last, again and
      again; it waits for another unless the last block was among those read. */
  lemma ReceiverWrites(u: Setup, y: Sys)
    requires Reachable(u, y) && y.r.state == Ack && !y.r.waiting
    ensures ReceiverOk(y.r) && |u.getRequest| <= BLKSIZE
    ensures var (t, sent) := ReceiverRun(y.r, u.getRequest);
            && sent == Some(Header(OP_ACK, y.r.blkno)) && t.blkno == y.r.blkno && t.out == y.r.out
            && (if y.r.done then t.state == Returned else t.state == Ack && t.waiting)
  {
    ReachableInv(u, y);
  }

  // --------------------------------------------------------------- losses

  /** A step, or the loss of all that is on its way. */
  datatype Event = Act(a: Action) | Lose

  function Cleared(y: Sys): Sys { y.(toSender := {}, toReceiver := {}) }

  ghost predicate Happens(u: Setup, y: Sys, e: Event, z: Sys) {
    match e
    case Act(a) => Next(u, y, a, z)
    case Lose => z == Cleared(y)
  }

  ghost predicate Leads(u: Setup, y: Sys, es: seq<Event>, z: Sys)
    decreases |es|
  {
    if es == [] then y == z else exists m :: Happens(u, y, es[0], m) && Leads(u, m, es[1..], z)
  }

  lemma {:induction false} LeadsOn(u: Setup, y: Sys, es: seq<Event>, m: Sys, fs: seq<Event>, z: Sys)
    requires Leads(u, y, es, m) && Leads(u, m, fs, z)
    ensures Leads(u, y, es + fs, z)
    decreases |es|
  {
    if es == [] {
      assert es + fs == fs;
    } else {
      var n :| Happens(u, y, es[0], n) && Leads(u, n, es[1..], m);
      assert (es + fs)[0] == es[0] && (es + fs)[1..] == es[1..] + fs;
      LeadsOn(u, n, es[1..], m, fs, z);
    }
  }

  lemma LeadsOne(u: Setup, y: Sys, e: Event, z: Sys)
    requires Happens(u, y, e, z)
    ensures Leads(u, y, [e], z)
  {
    assert [e][1..] == [] && Leads(u, z, [], z);
  }

  lemma LeadsStep(u: Setup, y: Sys, es: seq<Event>, m: Sys, e: Event, z: Sys)
    requires Leads(u, y, es, m) && Happens(u, m, e, z)
    ensures Leads(u, y, es + [e], z)
  {
    LeadsOne(u, m, e, z);
    LeadsOn(u, y, es, m, [e], z);
  }

  /** What happens with losses happens without them too, with more packets left on
      their way; so all that holds of reachable states holds here. */
  lemma {:induction false} LossesCovered(u: Setup, y: Sys, es: seq<Event>, z: Sys, y0: Sys) returns (z0: Sys)
    requires Leads(u, y, es, z) && Reachable(u, y0)
    requires y.s == y0.s && y.r == y0.r && y.toSender <= y0.toSender && y.toReceiver <= y0.toReceiver
    ensures Reachable(u, z0)
    ensures z.s == z0.s && z.r == z0.r && z.toSender <= z0.toSender && z.toReceiver <= z0.toReceiver
    decreases |es|
  {
    if es == [] {
      z0 := y0;
    } else {
      var m :| Happens(u, y, es[0], m) && Leads(u, m, es[1..], z);
      var m0 := y0;
      if es[0].Act? {
        m0 := Sys(m.s, m.r, y0.toSender + m.toSender, y0.toReceiver + m.toReceiver);
        NextCovered(u, y, es[0].a, m, y0, m0);
        Reaches(u, y0, es[0].a, m0);
      }
      z0 := LossesCovered(u, m, es[1..], z, m0);
    }
  }

  lemma NextCovered(u: Setup, y: Sys, a: Action, m: Sys, y0: Sys, m0: Sys)
    requires Next(u, y, a, m) && y.s == y0.s && y.r == y0.r
    requires y.toSender <= y0.toSender && y.toReceiver <= y0.toReceiver
    requires m0 == Sys(m.s, m.r, y0.toSender + m.toSender, y0.toReceiver + m.toReceiver)
    ensures Next(u, y0, a, m0)
  {
    match a
    case SRun =>
      assert m0.toSender == y0.toSender;
      var sent := SenderRun(y.s, u.file, u.putRequest).1;
      assert m0.toReceiver == if sent.Some? && y.s.state == Data then y0.toReceiver + {sent.value} else y0.toReceiver;
    case RRun =>
      assert m0.toReceiver == y0.toReceiver;
      var sent := ReceiverRun(y.r, u.getRequest).1;
      assert m0.toSender == if sent.None? then y0.toSender
                            else y0.toSender + {if y.r.state == Request then AsAck(sent.value) else sent.value};
    case _ => assert m0.toSender == y0.toSender && m0.toReceiver == y0.toReceiver;
  }

  // ---------------------------------------------------------------- timers

  /** A sender that has just taken an acknowledgement has no timeouts counted. */
  ghost predicate TimerOk(s: Sender) {
    && (s.state == Ack ==> s.timeout == 0 && !s.waiting)
    && (s.state == Data && !s.waiting && s.blkno == s.nextblkno ==> s.timeout == 0)
  }

  lemma {:induction false} TimerRun(u: Setup, run: seq<Sys>, acts: seq<Action>, n: nat)
    requires IsRun(u, run, acts) && n <= |acts|
    ensures TimerOk(run[n].s)
    decreases n
  {
    if n > 0 {
      TimerRun(u, run, acts, n - 1);
      RunInv(u, run, acts, n - 1);
      assert Next(u, run[n - 1], acts[n - 1], run[n - 1 + 1]);
      TimerNext(u, run[n - 1], acts[n - 1], run[n]);
    }
  }

  lemma TimerNext(u: Setup, y: Sys, a: Action, z: Sys)
    requires Inv(u, y) && TimerOk(y.s) && Next(u, y, a, z)
    ensures TimerOk(z.s)
  {
  }

  lemma SyncedTimer(u: Setup, y: Sys, k: nat)
    requires Synced(u, y, k)
    ensures y.s.timeout == 0 && (y.s.done <==> k == Blocks(u.file)) && y.r.out == u.file[..Upto(u.file, k)]
  {
    ReachableInv(u, y);
    var run, acts :| IsRun(u, run, acts) && run[|run| - 1] == y;
    TimerRun(u, run, acts, |acts|);
  }

  // -------------------------------------------------------------- recovery

  /** The sender is about to send block k + 1, for the first time or again, after t
      timeouts; the receiver waits for it. */
  ghost predicate Sending(u: Setup, y: Sys, k: nat, t: nat) {
    && SetupOk(u) && SenderOk(y.s, u.file) && ReceiverOk(y.r) && k + 1 <= Blocks(u.file) && k + 1 <= 65535
    && y.s.state == Data && !y.s.waiting && y.s.blkno == k && y.s.timeout == t
    && (Fresh(u, y.s, k) || Pending(u, y.s, k))
    && (y.r.state == Request || y.r.state == Ack) && y.r.waiting && y.r.nextblkno == k + 1 && !y.r.done
    && y.r.out == u.file[..Upto(u.file, k)]
  }

  ghost predicate Fresh(u: Setup, s: Sender, k: nat) {
    s.nextblkno == k && s.pos == Upto(u.file, k) && !s.done
  }

  ghost predicate Pending(u: Setup, s: Sender, k: nat)
    requires SenderOk(s, u.file)
  {
    && s.nextblkno == k + 1 && s.pos == Upto(u.file, k + 1) && (s.done <==> k + 1 == Blocks(u.file))
    && s.outbuf[..s.outb + HDRSIZE] == DataPacket(u.file, k + 1)
  }

  /** The sender waits after t timeouts, and the receiver is about to acknowledge
      block k + 1. */
  ghost predicate Acking(u: Setup, y: Sys, k: nat, t: nat) {
    && SetupOk(u) && SenderOk(y.s, u.file) && ReceiverOk(y.r) && k + 1 <= Blocks(u.file) && k + 1 <= 65535
    && y.s.state == Data && y.s.waiting && y.s.blkno == k && y.s.timeout == t && Pending(u, y.s, k)
    && y.r.state == Ack && !y.r.waiting && y.r.blkno == k + 1 && y.r.nextblkno == k + 2
    && (y.r.done <==> k + 1 == Blocks(u.file)) && y.r.out == u.file[..Upto(u.file, k + 1)]
  }

  lemma Sends(u: Setup, y: Sys, k: nat, t: nat) returns (z: Sys)
    requires Sending(u, y, k, t)
    ensures Happens(u, y, Act(SRun), z) && z.r == y.r && z.toReceiver == y.toReceiver + {DataPacket(u.file, k + 1)}
    ensures SenderOk(z.s, u.file) && z.s.state == Data && z.s.waiting && z.s.blkno == k && z.s.timeout == t
    ensures Pending(u, z.s, k)
  {
    if Fresh(u, y.s, k) { SendsBlock(y.s, u.file, u.putRequest, k + 1); }
    z := y.(s := SenderRun(y.s, u.file, u.putRequest).0, toReceiver := y.toReceiver + {DataPacket(u.file, k + 1)});
  }

  const LOST_DATA := [Act(SRun), Lose, Act(SGet(None))]

  /** Block k + 1 is lost on its way. */
  lemma DataLost(u: Setup, y: Sys, k: nat, t: nat) returns (z: Sys)
    requires Sending(u, y, k, t) && t + 1 <= 4
    ensures Leads(u, y, LOST_DATA, z) && Sending(u, z, k, t + 1) && Pending(u, z.s, k)
  {
    var y1 := Sends(u, y, k, t);
    var y2 := Cleared(y1);
    z := y2.(s := SenderGet(y2.s, u.file, None));
    ThreeEvents(u, y, Act(SRun), y1, Lose, y2, Act(SGet(None)), z);
  }

  lemma ThreeEvents(u: Setup, y: Sys, e: Event, y1: Sys, f: Event, y2: Sys, g: Event, z: Sys)
    requires Happens(u, y, e, y1) && Happens(u, y1, f, y2) && Happens(u, y2, g, z)
    ensures Leads(u, y, [e, f, g], z)
  {
    LeadsOne(u, y, e, y1);
    LeadsStep(u, y, [e], y1, f, y2);
    assert [e] + [f] == [e, f] && [e, f] + [g] == [e, f, g];
    LeadsStep(u, y, [e, f], y2, g, z);
  }

  /** The receiver takes a block in and, if it is the next one, writes it. */
  lemma Takes(u: Setup, r: Receiver, k: nat) returns (r1: Receiver, r2: Receiver)
    requires SetupOk(u) && ReceiverOk(r) && r.waiting && Running(r.state) && k + 1 <= Blocks(u.file) && k + 1 <= 65535
    ensures r1 == ReceiverGet(r, Some(DataPacket(u.file, k + 1))) && Running(r1.state) && !r1.waiting
    ensures (r2, None) == ReceiverRun(r1, u.getRequest)
    ensures r2.state == Ack && !r2.waiting && r2.blkno == k + 1 && (r2.done <==> r.done || k + 1 == Blocks(u.file))
    ensures r2.nextblkno == r.nextblkno + if k + 1 == r.nextblkno then 1 else 0
    ensures r2.out == r.out + if k + 1 == r.nextblkno then Block(u.file, k + 1) else []
  {
    r1 := Arrives(u.file, r, k);
    r2 := Wrote(u, r1, k);
  }

  lemma Arrives(file: seq<byte>, r: Receiver, k: nat) returns (r1: Receiver)
    requires ReceiverOk(r) && r.waiting && Running(r.state) && k + 1 <= Blocks(file)
    ensures r1 == ReceiverGet(r, Some(DataPacket(file, k + 1))) && r1.state == Data && !r1.waiting
    ensures HoldsData(file, r1, k + 1) && r1.done == r.done && r1.nextblkno == r.nextblkno && r1.out == r.out
  {
    DataArrives(r, file, k + 1);
    r1 := ReceiverGet(r, Some(DataPacket(file, k + 1)));
  }

  lemma Wrote(u: Setup, r: Receiver, k: nat) returns (q: Receiver)
    requires SetupOk(u) && ReceiverOk(r) && r.state == Data && !r.waiting
    requires k + 1 <= Blocks(u.file) && k + 1 <= 65535 && HoldsData(u.file, r, k + 1)
    ensures (q, None) == ReceiverRun(r, u.getRequest)
    ensures q.state == Ack && !q.waiting && q.blkno == k + 1 && (q.done <==> r.done || k + 1 == Blocks(u.file))
    ensures q.nextblkno == r.nextblkno + if k + 1 == r.nextblkno then 1 else 0
    ensures q.out == r.out + if k + 1 == r.nextblkno then Block(u.file, k + 1) else []
  {
    Modulo(k + 1);
    q := TakeData(u.file, r, u.getRequest, k + 1);
  }

  /** Both steps of it. */
  lemma TakesIn(u: Setup, y: Sys, y1: Sys, k: nat) returns (z: Sys)
    requires SetupOk(u) && Happens(u, y, Act(SRun), y1) && DataPacket(u.file, k + 1) in y1.toReceiver
    requires ReceiverOk(y1.r) && y1.r.waiting && Running(y1.r.state) && k + 1 <= Blocks(u.file) && k + 1 <= 65535
    ensures Leads(u, y, DataOver(u, k), z) && z.s == y1.s && ReceiverOk(z.r)
    ensures z.r.state == Ack && !z.r.waiting && z.r.blkno == k + 1
    ensures z.r.done <==> y1.r.done || k + 1 == Blocks(u.file)
    ensures z.r.nextblkno == y1.r.nextblkno + if k + 1 == y1.r.nextblkno then 1 else 0
    ensures z.r.out == y1.r.out + if k + 1 == y1.r.nextblkno then Block(u.file, k + 1) else []
  {
    var p := DataPacket(u.file, k + 1);
    var r1, r2 := Takes(u, y1.r, k);
    var y2 := y1.(r := r1);
    z := y2.(r := r2);
    ThreeEvents(u, y, Act(SRun), y1, Act(RGet(Some(p))), y2, Act(RRun), z);
  }

  function DataOver(u: Setup, k: nat): seq<Event> {
    [Act(SRun), Act(RGet(Some(DataPacket(u.file, k + 1)))), Act(RRun)]
  }

  /** Block k + 1 gets over. */
  lemma DataDelivered(u: Setup, y: Sys, k: nat, t: nat) returns (z: Sys)
    requires Sending(u, y, k, t)
    ensures Leads(u, y, DataOver(u, k), z) && Acking(u, z, k, t)
  {
    var y1 := Sends(u, y, k, t);
    z := TakesIn(u, y, y1, k);
    BlockFacts(u.file, k + 1);
  }

  function AckAway(u: Setup, k: nat): seq<Event> {
    [Act(RRun), Lose, Act(SGet(None))] + DataOver(u, k)
  }

  /** Its acknowledgement is lost: the block is sent again, not written again, and
      about to be acknowledged again. */
  lemma AckLost(u: Setup, y: Sys, k: nat, t: nat) returns (z: Sys)
    requires Acking(u, y, k, t) && t + 1 <= 4 && k + 1 < Blocks(u.file)
    ensures Leads(u, y, AckAway(u, k), z) && Acking(u, z, k, t + 1)
  {
    var m := AckVanishes(u, y, k, t);
    var y1 := SendsAgain(u, m, k, t + 1);
    z := TakesIn(u, m, y1, k);
    assert m.r.out + [] == m.r.out;
    LeadsOn(u, y, [Act(RRun), Lose, Act(SGet(None))], m, DataOver(u, k), z);
  }

  /** The sender is about to send block k + 1 again, which the receiver has. */
  ghost predicate Repeating(u: Setup, y: Sys, k: nat, t: nat) {
    && SetupOk(u) && SenderOk(y.s, u.file) && ReceiverOk(y.r) && k + 1 <= Blocks(u.file) && k + 1 <= 65535
    && y.s.state == Data && !y.s.waiting && y.s.blkno == k && y.s.timeout == t && Pending(u, y.s, k)
    && y.r.state == Ack && y.r.waiting && y.r.nextblkno == k + 2 && !y.r.done
    && y.r.out == u.file[..Upto(u.file, k + 1)]
  }

  lemma AckVanishes(u: Setup, y: Sys, k: nat, t: nat) returns (z: Sys)
    requires Acking(u, y, k, t) && t + 1 <= 4 && k + 1 < Blocks(u.file)
    ensures Leads(u, y, [Act(RRun), Lose, Act(SGet(None))], z) && Repeating(u, z, k, t + 1)
  {
    var ack := ReceiverRun(y.r, u.getRequest).1.value;
    var y1 := y.(r := ReceiverRun(y.r, u.getRequest).0, toSender := y.toSender + {ack});
    var y2 := Cleared(y1);
    z := y2.(s := SenderGet(y2.s, u.file, None));
    ThreeEvents(u, y, Act(RRun), y1, Lose, y2, Act(SGet(None)), z);
  }

  lemma SendsAgain(u: Setup, y: Sys, k: nat, t: nat) returns (z: Sys)
    requires Repeating(u, y, k, t)
    ensures Happens(u, y, Act(SRun), z) && z.r == y.r && DataPacket(u.file, k + 1) in z.toReceiver
    ensures z.s == y.s.(waiting := true) && SenderOk(z.s, u.file)
  {
    z := y.(s := SenderRun(y.s, u.file, u.putRequest).0, toReceiver := y.toReceiver + {DataPacket(u.file, k + 1)});
  }

  function AckOver(k: nat): seq<Event> {
    [Act(RRun), Act(SGet(Some(Header(OP_ACK, k + 1)))), Act(SRun)]
  }

  /** The acknowledgement gets back. */
  lemma AckDelivered(u: Setup, y: Sys, k: nat, t: nat) returns (z: Sys)
    requires Acking(u, y, k, t)
    ensures Leads(u, y, AckOver(k), z)
    ensures k + 1 == Blocks(u.file) ==> z.s.state == z.r.state == Returned && z.r.out == u.file
    ensures k + 1 < Blocks(u.file) ==> Moved(u, z, k + 1)
  {
    var ack := Header(OP_ACK, k + 1);
    var y1 := y.(r := ReceiverRun(y.r, u.getRequest).0, toSender := y.toSender + {ack});
    AckArrives(y1.s, u.file, k + 1);
    var y2 := y1.(s := SenderGet(y1.s, u.file, Some(ack)));
    z := y2.(s := SenderRun(y2.s, u.file, u.putRequest).0);
    ThreeEvents(u, y, Act(RRun), y1, Act(SGet(Some(ack))), y2, Act(SRun), z);
    BlockFacts(u.file, Blocks(u.file));
    assert u.file[..|u.file|] == u.file;
  }

  /** Block k is acknowledged and both sides are ready for the next one. */
  ghost predicate Moved(u: Setup, y: Sys, k: nat) {
    && SenderOk(y.s, u.file) && ReceiverOk(y.r)
    && y.s.state == Data && !y.s.waiting && y.s.blkno == y.s.nextblkno == k && y.r.nextblkno == k + 1
    && y.r.state == Ack && y.r.waiting && !y.r.done && y.r.out == u.file[..Upto(u.file, k)]
  }

  function Times(es: seq<Event>, n: nat): seq<Event> { if n == 0 then [] else Times(es, n - 1) + es }

  lemma {:induction false} DataLostTimes(u: Setup, y: Sys, k: nat, n: nat) returns (z: Sys)
    requires Sending(u, y, k, 0) && n <= 4
    ensures Leads(u, y, Times(LOST_DATA, n), z) && Sending(u, z, k, n)
    decreases n
  {
    if n == 0 {
      z := y;
    } else {
      var m := DataLostTimes(u, y, k, n - 1);
      z := DataLost(u, m, k, n - 1);
      LeadsOn(u, y, Times(LOST_DATA, n - 1), m, LOST_DATA, z);
    }
  }

  lemma {:induction false} AckLostTimes(u: Setup, y: Sys, k: nat, t: nat, n: nat) returns (z: Sys)
    requires Acking(u, y, k, t) && t + n <= 4 && (n > 0 ==> k + 1 < Blocks(u.file))
    ensures Leads(u, y, Times(AckAway(u, k), n), z) && Acking(u, z, k, t + n)
    decreases n
  {
    if n == 0 {
      z := y;
    } else {
      var m := AckLostTimes(u, y, k, t, n - 1);
      z := AckLost(u, m, k, t + n - 1);
      LeadsOn(u, y, Times(AckAway(u, k), n - 1), m, AckAway(u, k), z);
    }
  }

  /** The block is lost i times, then the acknowledgement j times. */
  function Schedule(u: Setup, k: nat, i: nat, j: nat): seq<Event> {
    Times(LOST_DATA, i) + DataOver(u, k) + Times(AckAway(u, k), j) + AckOver(k)
  }

  lemma SyncedSending(u: Setup, y: Sys, k: nat)
    requires Synced(u, y, k) && k + 1 <= 65535
    ensures Sending(u, Cleared(y), k, 0)
  {
    SyncedFacts(u, y, k);
    SyncedTimer(u, y, k);
  }

  /** From any synchronised state, with nothing on its way, up to four losses of the
      next block or of its acknowledgement still lead to the block after it, or to
      the end on both sides.  Only the last acknowledgement must not be lost. */
  lemma Recovers(u: Setup, y: Sys, k: nat, i: nat, j: nat) returns (z: Sys)
    requires Synced(u, y, k) && k + 1 <= 65535 && i + j <= 4 && (j > 0 ==> k + 1 < Blocks(u.file))
    ensures Leads(u, Cleared(y), Schedule(u, k, i, j), z)
    ensures k + 1 == Blocks(u.file) ==> z.s.state == z.r.state == Returned && z.r.out == u.file
    ensures k + 1 < Blocks(u.file) ==>
              Moved(u, z, k + 1) && exists z0 :: Synced(u, z0, k + 1) && z0.s == z.s && z0.r == z.r
  {
    var y0 := Cleared(y);
    SyncedSending(u, y, k);
    var y1 := DataLostTimes(u, y0, k, i);
    var y2 := DataDelivered(u, y1, k, i);
    var y3 := AckLostTimes(u, y2, k, i, j);
    z := AckDelivered(u, y3, k, i + j);
    LeadsOn(u, y0, Times(LOST_DATA, i), y1, DataOver(u, k), y2);
    LeadsOn(u, y0, Times(LOST_DATA, i) + DataOver(u, k), y2, Times(AckAway(u, k), j), y3);
    LeadsOn(u, y0, Times(LOST_DATA, i) + DataOver(u, k) + Times(AckAway(u, k), j), y3, AckOver(k), z);
    var z0 := LossesCovered(u, y0, Schedule(u, k, i, j), z, y);
    if k + 1 < Blocks(u.file) { assert Synced(u, z0, k + 1); }
  }

  /** Four is the limit: the fifth timeout ends the sender. */
  lemma GivesUp(u: Setup, y: Sys, k: nat) returns (z: Sys)
    requires Synced(u, y, k) && k + 1 <= 65535
    ensures Leads(u, Cleared(y), Times(LOST_DATA, 5), z) && z.s.state == Exited
  {
    SyncedSending(u, y, k);
    var m := DataLostTimes(u, Cleared(y), k, 4);
    var y1 := Sends(u, m, k, 4);
    var y2 := Cleared(y1);
    z := y2.(s := SenderGet(y2.s, u.file, None));
    ThreeEvents(u, m, Act(SRun), y1, Lose, y2, Act(SGet(None)), z);
    LeadsOn(u, Cleared(y), Times(LOST_DATA, 4), m, LOST_DATA, z);
  }

  /** The receiver is gone and no acknowledgement is left. */
  ghost predicate Stuck(u: Setup, y: Sys) {
    y.r.state == Returned && y.toSender == {} &&
    (y.s.state == Exited || (y.s.state == Data && y.s.blkno != y.s.nextblkno))
  }

  lemma StuckStays(u: Setup, y: Sys, e: Event, z: Sys)
    requires Stuck(u, y) && Happens(u, y, e, z)
    ensures Stuck(u, z)
  {
  }

  lemma {:induction false} StuckForever(u: Setup, y: Sys, es: seq<Event>, z: Sys)
    requires Stuck(u, y) && Leads(u, y, es, z)
    ensures Stuck(u, z)
    decreases |es|
  {
    if es != [] {
      var m :| Happens(u, y, es[0], m) && Leads(u, m, es[1..], z);
      StuckStays(u, y, es[0], m);
      StuckForever(u, m, es[1..], z);
    }
  }

  /** When the last acknowledgement is lost the file is complete, but the sender
      never returns, whatever happens then. */
  lemma LastAckLost(u: Setup, y: Sys, k: nat, es: seq<Event>, z: Sys) returns (m: Sys)
    requires Synced(u, y, k) && k + 1 == Blocks(u.file) <= 65535
    ensures Leads(u, Cleared(y), DataOver(u, k) + [Act(RRun), Lose], m) && m.r.state == Returned && m.r.out == u.file
    ensures Leads(u, m, es, z) ==> z.s.state != Returned
  {
    SyncedSending(u, y, k);
    var y1 := DataDelivered(u, Cleared(y), k, 0);
    var ack := ReceiverRun(y1.r, u.getRequest).1.value;
    var y2 := y1.(r := ReceiverRun(y1.r, u.getRequest).0, toSender := y1.toSender + {ack});
    m := Cleared(y2);
    LeadsStep(u, Cleared(y), DataOver(u, k), y1, Act(RRun), y2);
    LeadsStep(u, Cleared(y), DataOver(u, k) + [Act(RRun)], y2, Lose, m);
    assert DataOver(u, k) + [Act(RRun)] + [Lose] == DataOver(u, k) + [Act(RRun), Lose];
    BlockFacts(u.file, Blocks(u.file));
    assert u.file[..|u.file|] == u.file;
    if Leads(u, m, es, z) { StuckForever(u, m, es, z); }
  }
}
