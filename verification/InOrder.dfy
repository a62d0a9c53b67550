/** Transfers over channels that may lose and repeat datagrams but keep their order: the receiver
    never holds anything but a front part of the payload, for payloads of any length, because only two
    neighbouring blocks are ever under way and so the 16-bit numbers cannot be confused. */
module InOrderTransfer {
  import opened Bytes
  import opened Tftp
  import Codec
  import S = Sender
  import opened Transfer

  // ---------------------------------------------------------------- ordered channels

  predicate IsErr(d: Datagram) {
    |d| >= 2 && GetU16(d) == OP_ERR
  }

  /** Only the old and the new datagram, besides ERROR packets, and no old one behind a new one. */
  predicate Fifo(s: seq<Datagram>, older: Datagram, newer: Datagram) {
    && (forall j :: 0 <= j < |s| ==> s[j] == older || s[j] == newer || IsErr(s[j]))
    && (forall i, j :: 0 <= i < j < |s| && s[i] == newer ==> s[j] != older)
  }

  lemma FifoWithout(s: seq<Datagram>, i: nat, older: Datagram, newer: Datagram)
    requires Fifo(s, older, newer) && i < |s|
    ensures Fifo(Without(s, i), older, newer)
    ensures forall d :: d in Without(s, i) ==> d in s
  {
    hide IsErr;
    var t := Without(s, i);
    assert forall j :: 0 <= j < |t| ==> t[j] == s[if j < i then j else j + 1];
  }

  lemma FifoTwice(s: seq<Datagram>, i: nat, older: Datagram, newer: Datagram)
    requires Fifo(s, older, newer) && i < |s| && older != newer
    ensures Fifo(Twice(s, i), older, newer)
    ensures forall d :: d in Twice(s, i) ==> d in s
  {
    hide IsErr;
    var t := Twice(s, i);
    assert forall j :: 0 <= j < |t| ==> t[j] == s[if j <= i then j else j - 1];
  }

  lemma FifoPush(s: seq<Datagram>, d: Datagram, older: Datagram, newer: Datagram)
    requires Fifo(s, older, newer) && older != newer && !IsErr(older)
    requires d == newer || IsErr(d) || (d == older && newer !in s)
    ensures Fifo(s + [d], older, newer)
    ensures newer in s + [d] ==> d == newer || newer in s
  {
    hide IsErr;
    var t := s + [d];
    assert forall j :: 0 <= j < |s| ==> t[j] == s[j];
  }

  /** Once the head is new, what follows can serve as the old part of the next pair. */
  lemma FifoHeadNew(s: seq<Datagram>, older: Datagram, newer: Datagram)
    requires Fifo(s, older, newer) && s != [] && s[0] == newer && older != newer
    ensures older !in s
  {
    hide IsErr;
    forall j | 0 <= j < |s|
      ensures s[j] != older
    {
    }
  }

  lemma FifoNext(s: seq<Datagram>, older: Datagram, newer: Datagram, next: Datagram)
    requires Fifo(s, older, newer) && older !in s && next != newer && !IsErr(next) && next != older
    ensures Fifo(s, newer, next) && next !in s
  {
    hide IsErr;
    assert forall j :: 0 <= j < |s| ==> s[j] in s;
  }

  // ---------------------------------------------------------------- the two packets under way

  /** The packet of block k; before the first block nothing can be under way. */
  function Slot(payload: seq<Byte>, k: nat): Datagram
    requires k <= BlockCount(payload)
  {
    if k == 0 then [] else Packet(payload, k)
  }

  function AckOf(k: nat): Datagram {
    EncodeAck(k % 0x1_0000)
  }

  lemma SlotsDiffer(payload: seq<Byte>, j: nat, k: nat)
    requires j < k <= BlockCount(payload) && k - j < 0x1_0000
    ensures Slot(payload, j) != Slot(payload, k) && AckOf(j) != AckOf(k)
    ensures !IsErr(Slot(payload, j)) && !IsErr(Slot(payload, k)) && !IsErr(AckOf(j)) && !IsErr(AckOf(k))
  {
    PacketDecodes(payload, k);
    if j > 0 {
      PacketDecodes(payload, j);
    }
    assert AckOf(j)[2..] == PutU16(j % 0x1_0000) && AckOf(k)[2..] == PutU16(k % 0x1_0000);
  }

  /** k: the sender's block; the receiver holds it or lacks just this one. */
  predicate Inv(payload: seq<Byte>, k: nat, complete: bool, c: Client, data: seq<Datagram>, acks: seq<Datagram>)
    requires 1 <= k <= BlockCount(payload)
  {
    && k - 1 <= c.blocks <= k
    && c.delivered == Front(payload, c.blocks)
    && (c.done <==> c.blocks == BlockCount(payload))
    && Fifo(data, Slot(payload, k - 1), Slot(payload, k))
    && Fifo(acks, AckOf(k - 1), AckOf(k))
    && (AckOf(k) in acks ==> c.blocks == k && Slot(payload, k - 1) !in data)
    && (complete ==> c.blocks == k == BlockCount(payload))
  }

  lemma ReceiveNew(payload: seq<Byte>, k: nat, c: Client)
    requires 1 <= k <= BlockCount(payload) && k - 1 <= c.blocks <= k
    requires c.delivered == Front(payload, c.blocks) && (c.done <==> c.blocks == BlockCount(payload))
    ensures Receive(c, Packet(payload, k))
         == (c.(blocks := k, delivered := Front(payload, k), done := k == BlockCount(payload)), [AckOf(k)])
  {
    PacketDecodes(payload, k);
    PacketSize(payload, k);
    FrontGrows(payload, k);
  }

  lemma ReceiveOld(payload: seq<Byte>, k: nat, c: Client)
    requires 1 <= k < BlockCount(payload) && k <= c.blocks <= k + 1
    ensures Receive(c, Packet(payload, k)) == (c, [AckOf(k)])
  {
    PacketDecodes(payload, k);
  }

  lemma OthersUnanswered(c: Client, d: Datagram)
    requires d == [] || IsErr(d)
    ensures Receive(c, d) == (c, [])
  {}

  lemma {:induction false} DeliverKeeps(payload: seq<Byte>, k: nat, complete: bool, c: Client,
                                             data: seq<Datagram>, acks: seq<Datagram>)
    requires 1 <= k <= BlockCount(payload) && Inv(payload, k, complete, c, data, acks) && data != []
    ensures var (c', answer) := Receive(c, data[0]);
            Inv(payload, k, complete, c', Without(data, 0), acks + answer)
  {
    hide Packet, EncodeAck, Front, Receive, IsErr;
    var older, newer := Slot(payload, k - 1), Slot(payload, k);
    SlotsDiffer(payload, k - 1, k);
    FifoWithout(data, 0, older, newer);
    var (c', answer) := Receive(c, data[0]);
    if data[0] == newer {
      ReceiveNew(payload, k, c);
      FifoHeadNew(data, older, newer);
      FifoPush(acks, AckOf(k), AckOf(k - 1), AckOf(k));
    } else if data[0] == older && k > 1 {
      ReceiveOld(payload, k - 1, c);
      assert older in data;
      FifoPush(acks, AckOf(k - 1), AckOf(k - 1), AckOf(k));
    } else {
      OthersUnanswered(c, data[0]);
      assert acks + [] == acks;
    }
  }

  /** The ACK of the sender's block is at the head: everything older has gone, and the next block may
      follow. */
  lemma {:induction false} AckKeeps(payload: seq<Byte>, k: nat, c: Client, data: seq<Datagram>, acks: seq<Datagram>)
    requires 1 <= k <= BlockCount(payload) && Inv(payload, k, false, c, data, acks)
    requires acks != [] && acks[0] == AckOf(k)
    ensures c.blocks == k
    ensures k < BlockCount(payload) ==> Inv(payload, k + 1, false, c, data, Without(acks, 0))
    ensures k == BlockCount(payload) ==> Inv(payload, k, true, c, data, Without(acks, 0))
  {
    hide Packet, EncodeAck, Front, IsErr;
    var rest := Without(acks, 0);
    SlotsDiffer(payload, k - 1, k);
    FifoWithout(acks, 0, AckOf(k - 1), AckOf(k));
    FifoHeadNew(acks, AckOf(k - 1), AckOf(k));
    assert acks[0] in acks;
    if k < BlockCount(payload) {
      SlotsDiffer(payload, k, k + 1);
      SlotsDiffer(payload, k - 1, k + 1);
      FifoNext(data, Slot(payload, k - 1), Slot(payload, k), Slot(payload, k + 1));
      FifoNext(rest, AckOf(k - 1), AckOf(k), AckOf(k + 1));
    }
  }

  /** What the sender makes of the datagrams that can reach it. */
  lemma ReadDecodes(buf: seq<Byte>, k: nat, d: Datagram)
    requires |buf| == DATAGRAM_SIZE && k >= 1
    requires d == AckOf(k - 1) || d == AckOf(k) || IsErr(d)
    ensures DecodeAck(Overlay(buf, d)) == Some(k % 0x1_0000) <==> d == AckOf(k)
  {
    if IsErr(d) {
      assert Overlay(buf, d)[0] == d[0] && Overlay(buf, d)[1] == d[1];
    } else {
      Codec.AckOverStale(buf, k % 0x1_0000);
      Codec.AckOverStale(buf, (k - 1) % 0x1_0000);
    }
  }

  // ---------------------------------------------------------------- whole runs

  predicate Holds(payload: seq<Byte>, retries: nat, y: System)
    requires Valid(payload, retries, y)
  {
    Inv(payload, y.sender.block, y.sender.outcome.Complete?, y.client, y.data, y.acks)
  }

  lemma HeadKind(payload: seq<Byte>, k: nat, c: Client, data: seq<Datagram>, acks: seq<Datagram>)
    requires 1 <= k <= BlockCount(payload) && Inv(payload, k, false, c, data, acks) && acks != []
    ensures acks[0] == AckOf(k - 1) || acks[0] == AckOf(k) || IsErr(acks[0])
    ensures Fifo(Without(acks, 0), AckOf(k - 1), AckOf(k)) && forall d :: d in Without(acks, 0) ==> d in acks
  {
    FifoWithout(acks, 0, AckOf(k - 1), AckOf(k));
  }

  /** Dropping and repeating datagrams in place changes nothing that matters. */
  lemma ShrinkKeeps(payload: seq<Byte>, k: nat, complete: bool, c: Client, data: seq<Datagram>, acks: seq<Datagram>,
                    data': seq<Datagram>, acks': seq<Datagram>)
    requires 1 <= k <= BlockCount(payload) && Inv(payload, k, complete, c, data, acks)
    requires Fifo(data, Slot(payload, k - 1), Slot(payload, k)) ==> Fifo(data', Slot(payload, k - 1), Slot(payload, k))
    requires Fifo(acks, AckOf(k - 1), AckOf(k)) ==> Fifo(acks', AckOf(k - 1), AckOf(k))
    requires (forall d :: d in data' ==> d in data) && (forall d :: d in acks' ==> d in acks)
    ensures Inv(payload, k, complete, c, data', acks')
  {
    hide Fifo, Packet, EncodeAck, Front;
  }

  lemma {:induction false} ReadKeeps(payload: seq<Byte>, retries: nat, y: System)
    requires Valid(payload, retries, y) && Holds(payload, retries, y)
    ensures Holds(payload, retries, Step(payload, retries, y, Read(0)))
  {
    hide Inv, Packet, DecodeErr, AckOf, Overlay, DecodeAck, Without;
    if y.sender.outcome.Running? && y.waiting && y.acks != [] {
      var k, d := y.sender.block, y.acks[0];
      HeadKind(payload, k, y.client, y.data, y.acks);
      ReadDecodes(y.sender.buf, k, d);
      PacketSize(payload, k);
      if d == AckOf(k) {
        AckKeeps(payload, k, y.client, y.data, y.acks);
      } else {
        ShrinkKeeps(payload, k, false, y.client, y.data, y.acks, y.data, Without(y.acks, 0));
      }
    }
  }

  lemma {:induction false} ChannelKeeps(payload: seq<Byte>, retries: nat, y: System, e: Event)
    requires Valid(payload, retries, y) && Holds(payload, retries, y)
    requires e.LoseData? || e.LoseAck? || e.RepeatData? || e.RepeatAck?
    ensures Holds(payload, retries, Step(payload, retries, y, e))
  {
    hide Fifo, Packet, AckOf, Without, Twice, Front;
    var k := y.sender.block;
    var older, newer, oldAck, newAck := Slot(payload, k - 1), Slot(payload, k), AckOf(k - 1), AckOf(k);
    SlotsDiffer(payload, k - 1, k);
    match e
    case LoseData(i) => if i < |y.data| { FifoWithout(y.data, i, older, newer); }
    case LoseAck(i) => if i < |y.acks| { FifoWithout(y.acks, i, oldAck, newAck); }
    case RepeatData(i) => if i < |y.data| { FifoTwice(y.data, i, older, newer); }
    case RepeatAck(i) => if i < |y.acks| { FifoTwice(y.acks, i, oldAck, newAck); }
  }

  lemma {:induction false} WriteKeeps(payload: seq<Byte>, retries: nat, y: System)
    requires Valid(payload, retries, y) && Holds(payload, retries, y)
    ensures Holds(payload, retries, Step(payload, retries, y, Write))
  {
    hide Fifo, Packet, AckOf, Front;
    var k := y.sender.block;
    SlotsDiffer(payload, k - 1, k);
    FifoPush(y.data, Slot(payload, k), Slot(payload, k - 1), Slot(payload, k));
  }

  lemma {:induction false} AbortKeeps(payload: seq<Byte>, retries: nat, y: System, code: Uint16, message: seq<Byte>)
    requires Valid(payload, retries, y) && Holds(payload, retries, y)
    ensures Holds(payload, retries, Step(payload, retries, y, Abort(0, code, message)))
  {
    hide Fifo, Packet, AckOf, Front;
    var k, d := y.sender.block, EncodeErr(code, message);
    if y.data != [] {
      SlotsDiffer(payload, k - 1, k);
      FifoWithout(y.data, 0, Slot(payload, k - 1), Slot(payload, k));
      assert IsErr(d);
      FifoPush(y.acks, d, AckOf(k - 1), AckOf(k));
    }
  }

  lemma {:induction false} StepKeeps(payload: seq<Byte>, retries: nat, y: System, e: Event)
    requires Valid(payload, retries, y) && Holds(payload, retries, y) && InOrder(e)
    ensures Holds(payload, retries, Step(payload, retries, y, e))
  {
    hide Inv, Receive, Packet, Without, Twice;
    match e
    case Write => WriteKeeps(payload, retries, y);
    case Fault =>
    case Expire =>
    case Read(_) => ReadKeeps(payload, retries, y);
    case Deliver(_) =>
      if !y.client.quit && y.data != [] {
        DeliverKeeps(payload, y.sender.block, y.sender.outcome.Complete?, y.client, y.data, y.acks);
      }
    case Abort(_, code, message) => AbortKeeps(payload, retries, y, code, message);
    case _ => ChannelKeeps(payload, retries, y, e);
  }

  lemma StartHolds(payload: seq<Byte>, retries: nat)
    ensures Holds(payload, retries, Init(retries))
  {}

  lemma {:induction false} RunHolds(payload: seq<Byte>, retries: nat, events: seq<Event>)
    requires All(events, InOrder)
    ensures Holds(payload, retries, Exec(payload, retries, events))
  {
    hide Step, Inv;
    if events == [] {
      StartHolds(payload, retries);
    } else {
      var n := |events| - 1;
      RunHolds(payload, retries, events[..n]);
      StepKeeps(payload, retries, Exec(payload, retries, events[..n]), events[n]);
    }
  }

  lemma HoldsFaithful(payload: seq<Byte>, retries: nat, y: System)
    requires Valid(payload, retries, y) && Holds(payload, retries, y)
    ensures Faithful(payload, y)
  {
    hide Fifo, Packet, AckOf;
    if y.client.blocks == BlockCount(payload) {
      FrontGrows(payload, y.client.blocks);
    }
  }

  /** Order kept, anything lost or repeated, any payload length, any interleaving, either side giving up
      at any time: what the receiver holds is always a front part of the payload, and it is the whole
      payload once the receiver has seen a short block or the sender has ended normally. */
  lemma {:induction false} Safety(payload: seq<Byte>, retries: nat, events: seq<Event>)
    requires All(events, InOrder)
    ensures var y := Exec(payload, retries, events);
            && y.client.delivered <= payload
            && (y.client.done ==> y.client.delivered == payload)
            && (y.sender.outcome.Complete? ==> y.client.done && y.client.delivered == payload)
  {
    hide Exec, Holds;
    RunHolds(payload, retries, events);
    HoldsFaithful(payload, retries, Exec(payload, retries, events));
  }

  lemma NoErrPacket(d: Datagram)
    requires DecodeData(d).Some?
    ensures !IsErr(d) && d != []
  {}

  /** However often the numbers have wrapped: an ACK that would match the sender's number is of a block
      the receiver does hold, and a packet that would match the receiver's is the very block it lacks. */
  lemma {:induction false} NumbersUnambiguous(payload: seq<Byte>, retries: nat, events: seq<Event>, j: nat)
    requires All(events, InOrder)
    ensures var y := Exec(payload, retries, events);
            j < |y.acks| && DecodeAck(Overlay(y.sender.buf, y.acks[j])) == Some(y.sender.block % 0x1_0000)
            ==> y.client.blocks == y.sender.block
    ensures var y := Exec(payload, retries, events);
            j < |y.data| && !y.client.done && DecodeData(y.data[j]).Some?
            && DecodeData(y.data[j]).value.0 == (y.client.blocks + 1) % 0x1_0000
            ==> y.client.blocks < BlockCount(payload) && y.data[j] == Packet(payload, y.client.blocks + 1)
  {
    hide Exec, Packet, AckOf, Overlay, DecodeAck, IsErr, Front;
    var y := Exec(payload, retries, events);
    var k := y.sender.block;
    RunHolds(payload, retries, events);
    if j < |y.acks| {
      assert y.acks[j] in y.acks;
      ReadDecodes(y.sender.buf, k, y.acks[j]);
    }
    if j < |y.data| && DecodeData(y.data[j]).Some? {
      NoErrPacket(y.data[j]);
      PacketDecodes(payload, k);
      if k > 1 {
        PacketDecodes(payload, k - 1);
      }
    }
  }
}
