/** Transfers over channels that lose nothing, repeat nothing and keep the order, where only the
    sender's reads may time out: a premature time-out is paid for by every block from then on, and so
    the retries of one block are a budget for the whole transfer. */
module LosslessTransfer {
  import opened Bytes
  import opened Tftp
  import Codec
  import S = Sender
  import opened Transfer
  import opened InOrderTransfer

  // ---------------------------------------------------------------- counting what is under way

  function Count(s: seq<Datagram>, d: Datagram): nat {
    if s == [] then 0 else (if s[0] == d then 1 else 0) + Count(s[1..], d)
  }

  lemma {:induction false} CountPush(s: seq<Datagram>, d: Datagram, e: Datagram)
    ensures Count(s + [e], d) == Count(s, d) + if e == d then 1 else 0
  {
    if s == [] {
      assert s + [e] == [e] && [e][1..] == [];
    } else {
      CountPush(s[1..], d, e);
      assert (s + [e])[1..] == s[1..] + [e];
    }
  }

  lemma {:induction false} CountBounds(s: seq<Datagram>, d: Datagram)
    ensures Count(s, d) <= |s|
    ensures (forall j :: 0 <= j < |s| ==> s[j] == d) ==> Count(s, d) == |s|
    ensures d !in s ==> Count(s, d) == 0
  {
    if s != [] {
      CountBounds(s[1..], d);
    }
  }

  lemma CountHead(s: seq<Datagram>, d: Datagram)
    requires s != []
    ensures Count(s, d) == Count(Without(s, 0), d) + if s[0] == d then 1 else 0
    ensures s[0] != d ==> Count(s, d) < |s|
  {
    assert Without(s, 0) == s[1..];
    CountBounds(s[1..], d);
  }

  // ---------------------------------------------------------------- the invariant

  /** How often the current block has been written. */
  function Tries(retries: nat, y: System): int {
    retries - y.sender.left + if y.waiting then 1 else 0
  }

  /** Copies of block k under way, as packets or as ACKs. */
  function Copies(payload: seq<Byte>, y: System, k: nat): nat
    requires k <= BlockCount(payload)
  {
    Count(y.data, Slot(payload, k)) + Count(y.acks, AckOf(k))
  }

  predicate NoErrors(y: System) {
    && !y.client.quit
    && (forall d :: d in y.data ==> !IsErr(d) && d != [])
    && (forall d :: d in y.acks ==> !IsErr(d))
  }

  /** While the transfer is going on: one datagram under way for every time-out and one for the read
      that is waiting; those of the current block are all its writes. */
  predicate Flow(payload: seq<Byte>, retries: nat, y: System)
    requires Valid(payload, retries, y)
  {
    && |y.data| + |y.acks| == y.timeouts + (if y.waiting then 1 else 0)
    && Copies(payload, y, y.sender.block) == Tries(retries, y)
  }

  /** Each block that is done was written once more than there had been time-outs when it was done. */
  predicate Ledger(y: System, done: nat) {
    && |y.stamps| == done <= |y.writes|
    && forall j :: 0 <= j < done ==> y.writes[j] == 1 + y.stamps[j]
  }

  predicate Inv(payload: seq<Byte>, retries: nat, y: System)
    requires Valid(payload, retries, y)
  {
    && Holds(payload, retries, y)
    && NoErrors(y)
    && match y.sender.outcome
       case Running =>
         && Flow(payload, retries, y) && Ledger(y, y.sender.block - 1)
         && (if Tries(retries, y) == 0 then |y.writes| == y.sender.block - 1
             else |y.writes| == y.sender.block && y.writes[y.sender.block - 1] == Tries(retries, y))
       case Complete => Ledger(y, y.sender.block) && y.stamps[y.sender.block - 1] == y.timeouts < retries
       case Exhausted => y.timeouts >= retries && Ledger(y, y.sender.block - 1)
       case _ => false
  }

  // ---------------------------------------------------------------- every step keeps it

  /** The head of a channel with no ERROR in it is the old or the new datagram. */
  lemma HeadIs(s: seq<Datagram>, older: Datagram, newer: Datagram)
    requires Fifo(s, older, newer) && s != [] && !IsErr(s[0])
    ensures s[0] == older || s[0] == newer
  {}

  lemma AllNew(s: seq<Datagram>, older: Datagram, newer: Datagram)
    requires Fifo(s, older, newer) && older !in s && forall d :: d in s ==> !IsErr(d)
    ensures Count(s, newer) == |s|
  {
    forall j | 0 <= j < |s|
      ensures s[j] == newer
    {
      assert s[j] in s;
    }
    CountBounds(s, newer);
  }

  lemma {:induction false} WriteInv(payload: seq<Byte>, retries: nat, y: System)
    requires Valid(payload, retries, y) && Inv(payload, retries, y)
    ensures Inv(payload, retries, Step(payload, retries, y, Write))
  {
    hide Count, Packet, AckOf, InOrderTransfer.Inv, IsErr;
    WriteKeeps(payload, retries, y);
    var k := y.sender.block;
    SlotsDiffer(payload, k - 1, k);
    PacketDecodes(payload, k);
    CountPush(y.data, Slot(payload, k), Packet(payload, k));
  }

  lemma {:induction false} ExpireInv(payload: seq<Byte>, retries: nat, y: System)
    requires Valid(payload, retries, y) && Inv(payload, retries, y)
    ensures Inv(payload, retries, Step(payload, retries, y, Expire))
  {
    hide Count, Slot, AckOf, InOrderTransfer.Inv, IsErr, DecodeAck, DecodeErr, S.Advance;
    StepKeeps(payload, retries, y, Expire);
    var k := y.sender.block;
    CountBounds(y.data, Slot(payload, k));
    CountBounds(y.acks, AckOf(k));
  }

  /** The receiver answers the head with an ACK of the same block. */
  lemma {:induction false} Answer(payload: seq<Byte>, retries: nat, y: System) returns (i: nat)
    requires Valid(payload, retries, y) && Holds(payload, retries, y) && NoErrors(y) && y.data != []
    ensures 1 <= i && (i == y.sender.block || i == y.sender.block - 1)
    ensures y.data[0] == Slot(payload, i) && Receive(y.client, y.data[0]).1 == [AckOf(i)]
    ensures !IsErr(AckOf(i)) && !Receive(y.client, y.data[0]).0.quit
  {
    hide Packet, AckOf, Fifo, Front, Receive, IsErr;
    var k := y.sender.block;
    SlotsDiffer(payload, k - 1, k);
    assert y.data[0] in y.data;
    HeadIs(y.data, Slot(payload, k - 1), Slot(payload, k));
    if y.data[0] == Slot(payload, k) {
      i := k;
      ReceiveNew(payload, k, y.client);
    } else {
      i := k - 1;
      ReceiveOld(payload, k - 1, y.client);
    }
  }

  lemma FifoWithoutSubset(s: seq<Datagram>)
    requires s != []
    ensures Without(s, 0) == s[1..] && forall d :: d in Without(s, 0) ==> d in s
  {}

  lemma {:induction false} DeliverInv(payload: seq<Byte>, retries: nat, y: System)
    requires Valid(payload, retries, y) && Inv(payload, retries, y)
    ensures Inv(payload, retries, Step(payload, retries, y, Deliver(0)))
  {
    hide Count, Packet, AckOf, InOrderTransfer.Inv, Fifo, Front, Receive, IsErr;
    StepKeeps(payload, retries, y, Deliver(0));
    if y.data != [] {
      var k := y.sender.block;
      var i := Answer(payload, retries, y);
      SlotsDiffer(payload, k - 1, k);
      CountHead(y.data, Slot(payload, k));
      CountPush(y.acks, AckOf(k), AckOf(i));
      FifoWithoutSubset(y.data);
    }
  }

  /** The head acknowledges the current block: every copy of it has come through, so it was written
      once more than there were time-outs. */
  lemma {:induction false} AckInv(payload: seq<Byte>, retries: nat, y: System)
    requires Valid(payload, retries, y) && Inv(payload, retries, y)
    requires y.sender.outcome.Running? && y.waiting && y.acks != [] && y.acks[0] == AckOf(y.sender.block)
    ensures Tries(retries, y) == y.timeouts + 1
    ensures var k := y.sender.block;
            k < BlockCount(payload)
            ==> Count(y.data, Slot(payload, k + 1)) == 0 && Count(Without(y.acks, 0), AckOf(k + 1)) == 0
  {
    hide Count, Packet, EncodeAck, Front, IsErr;
    var k := y.sender.block;
    SlotsDiffer(payload, k - 1, k);
    assert y.acks[0] in y.acks;
    FifoHeadNew(y.acks, AckOf(k - 1), AckOf(k));
    AllNew(y.data, Slot(payload, k - 1), Slot(payload, k));
    AllNew(y.acks, AckOf(k - 1), AckOf(k));
    if k < BlockCount(payload) {
      SlotsDiffer(payload, k, k + 1);
      SlotsDiffer(payload, k - 1, k + 1);
      FifoWithout(y.acks, 0, AckOf(k - 1), AckOf(k));
      FifoNext(y.data, Slot(payload, k - 1), Slot(payload, k), Slot(payload, k + 1));
      FifoNext(Without(y.acks, 0), AckOf(k - 1), AckOf(k), AckOf(k + 1));
      CountBounds(y.data, Slot(payload, k + 1));
      CountBounds(Without(y.acks, 0), AckOf(k + 1));
    }
  }

  lemma AckIsNoErr(buf: seq<Byte>, k: nat)
    requires |buf| == DATAGRAM_SIZE
    ensures DecodeErr(Overlay(buf, AckOf(k))).None?
  {
    Codec.AckOverStale(buf, k % 0x1_0000);
  }

  lemma {:induction false} ReadOldInv(payload: seq<Byte>, retries: nat, y: System)
    requires Valid(payload, retries, y) && Inv(payload, retries, y)
    requires y.sender.outcome.Running? && y.waiting && y.acks != [] && y.acks[0] != AckOf(y.sender.block)
    ensures Inv(payload, retries, Step(payload, retries, y, Read(0)))
  {
    hide Count, Slot, AckOf, InOrderTransfer.Inv, Fifo, IsErr, Overlay, DecodeAck, DecodeErr, S.Advance;
    StepKeeps(payload, retries, y, Read(0));
    var k, d := y.sender.block, y.acks[0];
    assert d in y.acks;
    HeadKind(payload, k, y.client, y.data, y.acks);
    ReadDecodes(y.sender.buf, k, d);
    FifoWithoutSubset(y.acks);
    AckIsNoErr(y.sender.buf, k - 1);
    CountHead(y.acks, AckOf(k));
    CountBounds(y.data, Slot(payload, k));
  }

  lemma {:induction false} ReadNewInv(payload: seq<Byte>, retries: nat, y: System)
    requires Valid(payload, retries, y) && Inv(payload, retries, y)
    requires y.sender.outcome.Running? && y.waiting && y.acks != [] && y.acks[0] == AckOf(y.sender.block)
    ensures Inv(payload, retries, Step(payload, retries, y, Read(0)))
  {
    hide Count, Packet, AckOf, InOrderTransfer.Inv, Fifo, IsErr, Overlay, DecodeAck, DecodeErr;
    StepKeeps(payload, retries, y, Read(0));
    ReadDecodes(y.sender.buf, y.sender.block, y.acks[0]);
    PacketSize(payload, y.sender.block);
    FifoWithoutSubset(y.acks);
    AckInv(payload, retries, y);
  }

  lemma {:induction false} ReadInv(payload: seq<Byte>, retries: nat, y: System)
    requires Valid(payload, retries, y) && Inv(payload, retries, y)
    ensures Inv(payload, retries, Step(payload, retries, y, Read(0)))
  {
    hide Inv, AckOf, S.OnReply;
    if y.sender.outcome.Running? && y.waiting && y.acks != [] {
      if y.acks[0] == AckOf(y.sender.block) {
        ReadNewInv(payload, retries, y);
      } else {
        ReadOldInv(payload, retries, y);
      }
    }
  }

  lemma StartInv(payload: seq<Byte>, retries: nat)
    ensures Inv(payload, retries, Init(retries))
  {
    InOrderTransfer.StartHolds(payload, retries);
  }

  lemma {:induction false} RunInv(payload: seq<Byte>, retries: nat, events: seq<Event>)
    requires All(events, Lossless)
    ensures Inv(payload, retries, Exec(payload, retries, events))
  {
    hide Step, Inv;
    if events == [] {
      StartInv(payload, retries);
    } else {
      var n := |events| - 1;
      RunInv(payload, retries, events[..n]);
      var y := Exec(payload, retries, events[..n]);
      match events[n]
      case Write => WriteInv(payload, retries, y);
      case Expire => ExpireInv(payload, retries, y);
      case Deliver(_) => DeliverInv(payload, retries, y);
      case Read(_) => ReadInv(payload, retries, y);
    }
  }

  // ---------------------------------------------------------------- what follows

  /** The pipeline of a lossless run: copies of the block before the current one and behind them copies of
      the current one, ACKs ahead of packets; one for every time-out so far and one for the read that is
      waiting. */
  lemma {:induction false} Pipeline(payload: seq<Byte>, retries: nat, events: seq<Event>)
    requires All(events, Lossless)
    ensures var y := Exec(payload, retries, events);
            var k := y.sender.block;
            && (forall j :: 0 <= j < |y.acks| ==> y.acks[j] == AckOf(k - 1) || y.acks[j] == AckOf(k))
            && (forall j :: 0 <= j < |y.data| ==> y.data[j] == Slot(payload, k - 1) || y.data[j] == Slot(payload, k))
            && (forall i, j :: 0 <= i < j < |y.acks| && y.acks[i] == AckOf(k) ==> y.acks[j] == AckOf(k))
            && (forall i, j :: 0 <= i < j < |y.data| && y.data[i] == Slot(payload, k) ==> y.data[j] == Slot(payload, k))
            && (AckOf(k) in y.acks ==> Slot(payload, k - 1) !in y.data)
            && (y.sender.outcome.Running? ==> |y.acks| + |y.data| == y.timeouts + if y.waiting then 1 else 0)
  {
    hide Exec, Slot, AckOf, Count, Front, IsErr, Ledger;
    RunInv(payload, retries, events);
    var y := Exec(payload, retries, events);
    assert forall j :: 0 <= j < |y.acks| ==> y.acks[j] in y.acks;
    assert forall j :: 0 <= j < |y.data| ==> y.data[j] in y.data;
  }

  /** In every lossless run, each block the sender has left behind was written exactly once more than
      its reads had timed out, over the whole transfer, by then. */
  lemma {:induction false} WritesPerBlock(payload: seq<Byte>, retries: nat, events: seq<Event>, k: nat)
    requires All(events, Lossless)
    requires k >= 1 && S.Past(Exec(payload, retries, events).sender, k)
    ensures var y := Exec(payload, retries, events);
            k <= |y.stamps| && k <= |y.writes| && y.writes[k - 1] == 1 + y.stamps[k - 1]
  {
    hide Exec, Holds, NoErrors, Flow;
    RunInv(payload, retries, events);
  }

  lemma InOrderAll(events: seq<Event>)
    requires All(events, Lossless)
    ensures All(events, InOrder)
  {}

  /** A lossless run that is over has completed exactly when its reads timed out less often than the
      number of retries, and is exhausted otherwise; when it completed, the receiver has the payload. */
  lemma {:induction false} Verdict(payload: seq<Byte>, retries: nat, events: seq<Event>)
    requires All(events, Lossless) && !Exec(payload, retries, events).sender.outcome.Running?
    ensures var y := Exec(payload, retries, events);
            && (y.sender.outcome.Complete? <==> y.timeouts < retries)
            && (y.sender.outcome.Exhausted? <==> y.timeouts >= retries)
            && (y.timeouts < retries ==> y.client.delivered == payload)
  {
    hide Exec, Holds, NoErrors, Flow, Ledger;
    RunInv(payload, retries, events);
    InOrderAll(events);
    Safety(payload, retries, events);
  }

  // ---------------------------------------------------------------- progress

  /** The event is no time-out, and it changes something. */
  predicate Stirs(payload: seq<Byte>, retries: nat, y: System, e: Event)
    requires Valid(payload, retries, y)
  {
    Lossless(e) && !e.Expire? && Step(payload, retries, y, e) != y
  }

  /** Every event of more stirs the transfer where it comes. */
  predicate Lively(payload: seq<Byte>, retries: nat, events: seq<Event>, more: seq<Event>) {
    forall j :: 0 <= j < |more| ==> Stirs(payload, retries, Exec(payload, retries, events + more[..j]), more[j])
  }

  /** There is always something to do. */
  lemma {:induction false} NextEvent(payload: seq<Byte>, retries: nat, y: System) returns (e: Event)
    requires Valid(payload, retries, y) && Inv(payload, retries, y)
    ensures y.sender.outcome.Running? && y.timeouts < retries ==> Stirs(payload, retries, y, e)
  {
    hide Holds, Packet, Receive, DecodeAck, DecodeErr, Copies;
    e := if !y.waiting then Write else if y.acks != [] then Read(0) else Deliver(0);
  }

  /** Completed, or under way with retries to spare. */
  predicate Open(retries: nat, y: System) {
    (y.sender.outcome.Running? || y.sender.outcome.Complete?) && y.timeouts < retries
  }

  /** From y to z the transfer comes nearer to its end: in its blocks, its retries, or on the channels. */
  predicate Nearer(retries: nat, y: System, z: System) {
    if y.sender.outcome.Complete? then z.sender.outcome.Complete? && |z.data| < |y.data|
    else if z.sender.outcome.Complete? then y.sender.left >= 1 && |z.data| <= |y.data|
    else
      && z.sender.outcome.Running?
      && (|| (z.sender.block == y.sender.block + 1 && z.sender.left == retries)
          || (z.sender.block == y.sender.block && z.sender.left < y.sender.left)
          || (z.sender == y.sender && !y.waiting && z.waiting && |z.data| == |y.data| + 1)
          || (z.sender == y.sender && z.waiting == y.waiting && |z.data| < |y.data|))
  }

  lemma DeliverNearer(payload: seq<Byte>, retries: nat, y: System)
    requires Valid(payload, retries, y)
    ensures var z := Step(payload, retries, y, Deliver(0));
            Open(retries, y) && z != y ==> z.timeouts == y.timeouts && Nearer(retries, y, z)
  {
    hide Receive;
  }

  lemma ReadNearer(payload: seq<Byte>, retries: nat, y: System)
    requires Valid(payload, retries, y) && Inv(payload, retries, Step(payload, retries, y, Read(0)))
    ensures var z := Step(payload, retries, y, Read(0));
            Open(retries, y) && z != y ==> z.timeouts == y.timeouts && Nearer(retries, y, z)
  {
    hide Packet, Holds, NoErrors, Flow, DecodeAck, DecodeErr, Overlay;
  }

  lemma WriteNearer(payload: seq<Byte>, retries: nat, y: System)
    requires Valid(payload, retries, y)
    ensures var z := Step(payload, retries, y, Write);
            Open(retries, y) && z != y ==> z.timeouts == y.timeouts && Nearer(retries, y, z)
  {
    hide Packet;
  }

  lemma {:induction false} StirredNearer(payload: seq<Byte>, retries: nat, y: System, e: Event)
    requires Valid(payload, retries, y) && Inv(payload, retries, y)
    ensures var z := Step(payload, retries, y, e);
            Open(retries, y) && Stirs(payload, retries, y, e) ==>
              z.timeouts == y.timeouts && Inv(payload, retries, z) && Nearer(retries, y, z)
  {
    hide Inv, Step, Nearer, Open;
    match e
    case Write =>
      WriteInv(payload, retries, y);
      WriteNearer(payload, retries, y);
    case Read(_) =>
      ReadInv(payload, retries, y);
      ReadNearer(payload, retries, y);
    case Deliver(_) =>
      DeliverInv(payload, retries, y);
      DeliverNearer(payload, retries, y);
    case _ =>
  }

  /** The passes of the retry loop that are left. */
  function Passes(blocks: int, left: nat, retries: nat): int {
    blocks * (retries + 1) + left
  }

  /** How far a transfer under way is from its end when so many passes are left. */
  function Distance(passes: int, load: nat, retries: nat): int {
    passes * (2 * retries + 2) + load
  }

  /** How far the transfer is from its end, in events. */
  function Rank(payload: seq<Byte>, retries: nat, y: System): int
    requires Valid(payload, retries, y)
  {
    if !y.sender.outcome.Running? then |y.data|
    else
      Distance(Passes(BlockCount(payload) - y.sender.block, y.sender.left, retries),
               (if y.waiting then 0 else retries + 1) + |y.data|, retries)
  }

  lemma {:induction false} Product(a: int, b: int, c: nat)
    requires a < b
    ensures a * c + c <= b * c
  {
    if c > 0 {
      Product(a, b, c - 1);
      assert a * c == a * (c - 1) + a && b * c == b * (c - 1) + b;
    }
  }

  lemma PassesFall(a: int, l: nat, b: int, m: nat, retries: nat)
    requires (b == a - 1 && m <= retries) || (b == a && m < l)
    ensures Passes(b, m, retries) < Passes(a, l, retries)
  {
    if b < a {
      Product(b, a, retries + 1);
    }
  }

  lemma DistanceFalls(p: int, x: nat, q: int, y: nat, retries: nat)
    requires q < p && y < 2 * retries + 2
    ensures Distance(q, y, retries) < Distance(p, x, retries)
  {
    Product(q, p, 2 * retries + 2);
  }

  lemma DistanceFar(p: int, x: nat, retries: nat)
    requires p >= 1
    ensures Distance(p, x, retries) > x
  {
    Product(0, p, 2 * retries + 2);
  }

  lemma PassesLeft(blocks: nat, left: nat, retries: nat)
    ensures Passes(blocks, left, retries) >= left
  {
    Product(-1, blocks, retries + 1);
  }

  lemma LoadFalls(p: int, x: nat, y: nat, retries: nat)
    requires y < x
    ensures Distance(p, y, retries) < Distance(p, x, retries)
  {}

  lemma RankFalls(payload: seq<Byte>, retries: nat, y: System, z: System)
    requires Valid(payload, retries, y) && Valid(payload, retries, z) && Nearer(retries, y, z)
    requires y.sender.outcome.Running? || y.sender.outcome.Complete?
    requires y.sender.outcome.Running? && !y.waiting ==> |y.data| < retries
    requires z.sender.outcome.Running? ==> |z.data| <= retries
    ensures Rank(payload, retries, z) < Rank(payload, retries, y)
  {
    hide BlockCount, Passes, Distance;
    var a, b := BlockCount(payload) - y.sender.block, BlockCount(payload) - z.sender.block;
    var p, q := Passes(a, y.sender.left, retries), Passes(b, z.sender.left, retries);
    var before := (if y.waiting then 0 else retries + 1) + |y.data|;
    var after := (if z.waiting then 0 else retries + 1) + |z.data|;
    if y.sender.outcome.Running? && z.sender.outcome.Running? {
      if z.sender == y.sender {
        LoadFalls(p, before, after, retries);
      } else {
        PassesFall(a, y.sender.left, b, z.sender.left, retries);
        DistanceFalls(p, before, q, after, retries);
      }
    } else if y.sender.outcome.Running? {
      PassesLeft(a, y.sender.left, retries);
      DistanceFar(p, before, retries);
    }
  }

  lemma PassesBound(a: nat, blocks: nat, left: nat, retries: nat)
    requires a < blocks && left <= retries
    ensures Passes(a, left, retries) < blocks * (retries + 1)
  {
    Product(a, blocks, retries + 1);
  }

  lemma NoLoad(p: int, retries: nat)
    ensures Distance(p, 0, retries) == p * (2 * retries + 2)
  {}

  lemma RankBounds(payload: seq<Byte>, retries: nat, y: System)
    requires Valid(payload, retries, y) && y.sender.outcome.Running? && |y.data| <= retries
    ensures 0 <= Rank(payload, retries, y) < BlockCount(payload) * (retries + 1) * (2 * retries + 2)
  {
    hide BlockCount, Passes, Distance;
    var a := BlockCount(payload) - y.sender.block;
    var p, load := Passes(a, y.sender.left, retries), (if y.waiting then 0 else retries + 1) + |y.data|;
    PassesLeft(a, y.sender.left, retries);
    DistanceFar(p, load, retries);
    PassesBound(a, BlockCount(payload), y.sender.left, retries);
    DistanceFalls(BlockCount(payload) * (retries + 1), 0, p, load, retries);
    NoLoad(BlockCount(payload) * (retries + 1), retries);
  }

  lemma DataUnderWay(payload: seq<Byte>, retries: nat, y: System)
    requires Valid(payload, retries, y) && Inv(payload, retries, y)
    ensures y.sender.outcome.Running? && y.timeouts < retries ==> |y.data| < retries + if y.waiting then 1 else 0
  {
    hide Holds, NoErrors, Copies;
  }

  lemma {:induction false} StirredRank(payload: seq<Byte>, retries: nat, y: System, e: Event)
    requires Valid(payload, retries, y) && Inv(payload, retries, y)
    ensures var z := Step(payload, retries, y, e);
            Open(retries, y) && Stirs(payload, retries, y, e) ==>
              z.timeouts == y.timeouts && Open(retries, z) && Rank(payload, retries, z) < Rank(payload, retries, y)
  {
    hide Inv, Step, Rank, Stirs;
    if Open(retries, y) && Stirs(payload, retries, y, e) {
      var z := Step(payload, retries, y, e);
      StirredNearer(payload, retries, y, e);
      DataUnderWay(payload, retries, y);
      DataUnderWay(payload, retries, z);
      RankFalls(payload, retries, y, z);
    }
  }

  lemma LivelyFront(payload: seq<Byte>, retries: nat, events: seq<Event>, more: seq<Event>, n: nat)
    requires Lively(payload, retries, events, more) && n <= |more|
    ensures Lively(payload, retries, events, more[..n])
  {
    hide Stirs, Exec;
    assert forall j :: 0 <= j < n ==> more[..n][..j] == more[..j];
  }

  lemma {:induction false} LivelyRun(payload: seq<Byte>, retries: nat, events: seq<Event>, more: seq<Event>)
    requires All(events, Lossless) && Lively(payload, retries, events, more)
    requires Exec(payload, retries, events).sender.outcome.Running? && Exec(payload, retries, events).timeouts < retries
    ensures All(events + more, Lossless)
    ensures var y, z := Exec(payload, retries, events), Exec(payload, retries, events + more);
            && z.timeouts == y.timeouts && (z.sender.outcome.Running? || z.sender.outcome.Complete?)
            && Rank(payload, retries, z) + |more| <= Rank(payload, retries, y)
  {
    hide Exec, Step, Inv, Rank;
    if more == [] {
      assert events + more == events;
    } else {
      var n := |more| - 1;
      LivelyFront(payload, retries, events, more, n);
      LivelyRun(payload, retries, events, more[..n]);
      RunInv(payload, retries, events + more[..n]);
      StirredRank(payload, retries, Exec(payload, retries, events + more[..n]), more[n]);
      OneMoreEvent(payload, retries, events + more[..n], more[n]);
      assert events + more == events + more[..n] + [more[n]];
    }
  }

  lemma NoRankBelow(payload: seq<Byte>, retries: nat, z: System)
    requires Valid(payload, retries, z) && !z.sender.outcome.Running?
    ensures Rank(payload, retries, z) >= 0
  {}

  /** However a lossless run with fewer time-outs than retries goes on without another one: it gets fewer
      than 2 * blocks * (Retries + 1)^2 events further, and once nothing is left to happen it has completed
      and the receiver has the payload. */
  lemma {:induction false} MustComplete(payload: seq<Byte>, retries: nat, events: seq<Event>, more: seq<Event>)
    requires All(events, Lossless) && Lively(payload, retries, events, more)
    requires Exec(payload, retries, events).sender.outcome.Running? && Exec(payload, retries, events).timeouts < retries
    ensures |more| < BlockCount(payload) * (retries + 1) * (2 * retries + 2)
    ensures var y := Exec(payload, retries, events + more);
            (forall e :: !Stirs(payload, retries, y, e)) ==> y.sender.outcome.Complete? && y.client.delivered == payload
  {
    hide Exec, Inv, Rank, Stirs;
    var y, z := Exec(payload, retries, events), Exec(payload, retries, events + more);
    RunInv(payload, retries, events);
    LivelyRun(payload, retries, events, more);
    DataUnderWay(payload, retries, y);
    RankBounds(payload, retries, y);
    RunInv(payload, retries, events + more);
    if z.sender.outcome.Running? {
      DataUnderWay(payload, retries, z);
      RankBounds(payload, retries, z);
      var e := NextEvent(payload, retries, z);
    } else {
      NoRankBelow(payload, retries, z);
      Verdict(payload, retries, events + more);
    }
  }

  lemma LivelyCons(payload: seq<Byte>, retries: nat, events: seq<Event>, e: Event, rest: seq<Event>)
    requires Stirs(payload, retries, Exec(payload, retries, events), e)
    requires Lively(payload, retries, events + [e], rest)
    ensures Lively(payload, retries, events, [e] + rest)
  {
    hide Stirs, Exec;
    var more := [e] + rest;
    forall j | 0 <= j < |more|
      ensures Stirs(payload, retries, Exec(payload, retries, events + more[..j]), more[j])
    {
      if j == 0 {
        assert events + more[..0] == events;
      } else {
        assert more[..j] == [e] + rest[..j - 1];
        assert events + more[..j] == events + [e] + rest[..j - 1];
      }
    }
  }

  lemma LivelyEmpty(payload: seq<Byte>, retries: nat, events: seq<Event>)
    ensures Lively(payload, retries, events, [])
  {}

  lemma StirsLossless(payload: seq<Byte>, retries: nat, y: System, e: Event)
    requires Valid(payload, retries, y)
    ensures Stirs(payload, retries, y, e) ==> Lossless(e) && !e.Expire?
  {
    hide Step;
  }

  /** In particular it can be carried on to its normal end. */
  lemma {:induction false} CanComplete(payload: seq<Byte>, retries: nat, events: seq<Event>) returns (more: seq<Event>)
    requires All(events, Lossless)
    requires Exec(payload, retries, events).sender.outcome.Running? && Exec(payload, retries, events).timeouts < retries
    ensures Lively(payload, retries, events, more)
    ensures Exec(payload, retries, events + more).sender.outcome.Complete?
    decreases Rank(payload, retries, Exec(payload, retries, events))
  {
    hide Exec, Inv, Step, Rank, Stirs, Lively;
    var y := Exec(payload, retries, events);
    RunInv(payload, retries, events);
    DataUnderWay(payload, retries, y);
    RankBounds(payload, retries, y);
    var e := NextEvent(payload, retries, y);
    StirsLossless(payload, retries, y, e);
    StirredRank(payload, retries, y, e);
    OneMoreEvent(payload, retries, events, e);
    var rest := [];
    if Exec(payload, retries, events + [e]).sender.outcome.Running? {
      rest := CanComplete(payload, retries, events + [e]);
    } else {
      assert events + [e] + [] == events + [e];
      LivelyEmpty(payload, retries, events + [e]);
    }
    LivelyCons(payload, retries, events, e, rest);
    more := [e] + rest;
    assert events + more == events + [e] + rest;
  }

  /** The client stays away for so many reads. */
  function Silence(t: nat): seq<Event> {
    if t == 0 then [] else Silence(t - 1) + [Write] + [Expire]
  }

  lemma NoEvents(payload: seq<Byte>, retries: nat)
    ensures Exec(payload, retries, []) == Init(retries)
  {}

  lemma {:induction false} SilentRun(payload: seq<Byte>, retries: nat, t: nat)
    requires retries >= 1 && t <= retries
    ensures All(Silence(t), Lossless)
    ensures var y := Exec(payload, retries, Silence(t));
            && y.timeouts == t && !y.waiting
            && y.sender == S.State(1, retries - t, y.sender.buf, if t == retries then S.Exhausted else S.Running)
  {
    hide Exec, Packet;
    if t == 0 {
      NoEvents(payload, retries);
    } else {
      SilentRun(payload, retries, t - 1);
      OneMoreEvent(payload, retries, Silence(t - 1), Write);
      OneMoreEvent(payload, retries, Silence(t - 1) + [Write], Expire);
    }
  }

  /** Both ends of the budget are reached, for every payload: with any number of time-outs below Retries some
      lossless run completes, and with Retries of them one is exhausted. */
  lemma {:induction false} EveryBudget(payload: seq<Byte>, retries: nat, t: nat) returns (events: seq<Event>)
    requires retries >= 1 && t <= retries
    ensures All(events, Lossless)
    ensures var y := Exec(payload, retries, events);
            && y.timeouts == t
            && (if t < retries then y.sender.outcome.Complete? && y.client.delivered == payload
                else y.sender.outcome.Exhausted?)
  {
    hide Exec, Lively, Rank;
    SilentRun(payload, retries, t);
    events := Silence(t);
    if t < retries {
      var more := CanComplete(payload, retries, events);
      LivelyRun(payload, retries, events, more);
      events := events + more;
      Verdict(payload, retries, events);
    }
  }
}
