/** Transfers over channels that may also reorder datagrams at will: the 16-bit block numbers then
    carry the whole burden, and they bear it for 65536 blocks and not for one more. */
module AnyOrderTransfer {
  import opened Bytes
  import opened Tftp
  import Codec
  import S = Sender
  import opened Transfer
  import opened InOrderTransfer

  const NUMBERS := 0x1_0000

  // ---------------------------------------------------------------- up to 65536 blocks

  /** A packet of one of the blocks written so far, however old. */
  predicate Sendable(payload: seq<Byte>, k: nat, d: Datagram)
    requires k <= BlockCount(payload)
  {
    exists i :: 1 <= i <= k && d == Slot(payload, i)
  }

  /** An ACK of one of the blocks the receiver holds, or an ERROR. */
  predicate Answerable(b: nat, d: Datagram) {
    IsErr(d) || exists i :: 1 <= i <= b && d == AckOf(i)
  }

  predicate Inv(payload: seq<Byte>, k: nat, complete: bool, c: Client, data: seq<Datagram>, acks: seq<Datagram>)
    requires 1 <= k <= BlockCount(payload)
  {
    && k - 1 <= c.blocks <= k
    && c.delivered == Front(payload, c.blocks)
    && (c.done <==> c.blocks == BlockCount(payload))
    && (forall d :: d in data ==> Sendable(payload, k, d))
    && (forall d :: d in acks ==> Answerable(c.blocks, d))
    && (complete ==> c.blocks == k == BlockCount(payload))
  }

  predicate Holds(payload: seq<Byte>, retries: nat, y: System)
    requires Valid(payload, retries, y)
  {
    Inv(payload, y.sender.block, y.sender.outcome.Complete?, y.client, y.data, y.acks)
  }

  lemma ReceiveAny(payload: seq<Byte>, i: nat, c: Client)
    requires 1 <= i <= BlockCount(payload) <= NUMBERS && i <= c.blocks + 1 <= BlockCount(payload) + 1
    requires c.done <==> c.blocks == BlockCount(payload)
    requires c.delivered == Front(payload, c.blocks)
    ensures var (c', answer) := Receive(c, Slot(payload, i));
            && answer == [AckOf(i)]
            && c' == if i <= c.blocks then c
                     else c.(blocks := i, delivered := Front(payload, i), done := i == BlockCount(payload))
  {
    if i == c.blocks + 1 {
      ReceiveNew(payload, i, c);
    } else {
      PacketDecodes(payload, i);
    }
  }

  lemma {:induction false} DeliverKeeps(payload: seq<Byte>, k: nat, complete: bool, c: Client,
                                             data: seq<Datagram>, acks: seq<Datagram>, j: nat)
    requires 1 <= k <= BlockCount(payload) <= NUMBERS && Inv(payload, k, complete, c, data, acks) && j < |data|
    ensures var (c', answer) := Receive(c, data[j]);
            Inv(payload, k, complete, c', Without(data, j), acks + answer)
  {
    hide Slot, AckOf, Front, Receive, IsErr;
    assert data[j] in data;
    var i :| 1 <= i <= k && data[j] == Slot(payload, i);
    ReceiveAny(payload, i, c);
    assert forall d :: d in Without(data, j) ==> d in data;
  }

  /** An ACK with the sender's current number is that of its current block. */
  lemma ReadDecodesAny(buf: seq<Byte>, k: nat, b: nat, d: Datagram)
    requires |buf| == DATAGRAM_SIZE && 1 <= k <= NUMBERS && b <= NUMBERS && Answerable(b, d)
    ensures DecodeAck(Overlay(buf, d)) == Some(k % 0x1_0000) ==> k <= b
  {
    if IsErr(d) {
      ReadDecodes(buf, k, d);
    } else {
      var i :| 1 <= i <= b && d == AckOf(i);
      Codec.AckOverStale(buf, i % 0x1_0000);
    }
  }

  lemma {:induction false} ReadKeeps(payload: seq<Byte>, retries: nat, y: System, i: nat)
    requires Valid(payload, retries, y) && Holds(payload, retries, y) && BlockCount(payload) <= NUMBERS
    ensures Holds(payload, retries, Step(payload, retries, y, Read(i)))
  {
    hide Packet, DecodeErr, AckOf, Overlay, DecodeAck, Front, IsErr;
    if y.sender.outcome.Running? && y.waiting && i < |y.acks| {
      ReadDecodesAny(y.sender.buf, y.sender.block, y.client.blocks, y.acks[i]);
      PacketSize(payload, y.sender.block);
      assert forall d :: d in Without(y.acks, i) ==> d in y.acks;
    }
  }

  lemma ErrIsErr(code: Uint16, message: seq<Byte>)
    ensures IsErr(EncodeErr(code, message))
  {}

  lemma {:induction false} StepKeeps(payload: seq<Byte>, retries: nat, y: System, e: Event)
    requires Valid(payload, retries, y) && Holds(payload, retries, y) && BlockCount(payload) <= NUMBERS
    ensures Holds(payload, retries, Step(payload, retries, y, e))
  {
    hide Packet, AckOf, Front, Receive, DecodeAck, DecodeErr, S.Advance, IsErr;
    match e
    case Write => assert Sendable(payload, y.sender.block, Slot(payload, y.sender.block));
    case Fault =>
    case Expire =>
    case Read(i) => ReadKeeps(payload, retries, y, i);
    case Deliver(i) =>
      if !y.client.quit && i < |y.data| {
        DeliverKeeps(payload, y.sender.block, y.sender.outcome.Complete?, y.client, y.data, y.acks, i);
      }
    case Abort(i, code, message) => ErrIsErr(code, message);
    case _ =>
  }

  lemma StartHolds(payload: seq<Byte>, retries: nat)
    ensures Holds(payload, retries, Init(retries))
  {}

  lemma {:induction false} RunHolds(payload: seq<Byte>, retries: nat, events: seq<Event>)
    requires BlockCount(payload) <= NUMBERS
    ensures Holds(payload, retries, Exec(payload, retries, events))
  {
    hide Step, Inv;
    if events == [] {
      StartHolds(payload, retries);
    } else {
      var n := |events| - 1;
      RunHolds(payload, retries, events[..n]);
      StepKeeps(payload, retries, Exec(payload, retries, events[..n]), events[n]);
    }
  }

  lemma HoldsFaithful(payload: seq<Byte>, retries: nat, y: System)
    requires Valid(payload, retries, y) && Holds(payload, retries, y)
    ensures Faithful(payload, y)
  {
    hide Sendable, Answerable;
    if y.client.blocks == BlockCount(payload) {
      FrontGrows(payload, y.client.blocks);
    }
  }

  // ---------------------------------------------------------------- and not for one more

  /** The ACKs of the first b blocks, in order. */
  function Stock(b: nat): seq<Datagram> {
    seq(b, i requires 0 <= i < b => AckOf(i + 1))
  }

  /** The sender is about to write block k, the receiver holds b blocks and is not done, and one ACK of
      each of these is under way. */
  predicate Stocked(payload: seq<Byte>, retries: nat, y: System, k: nat, b: nat) {
    && y.sender.block == k && y.sender.left == retries && y.sender.outcome.Running? && !y.waiting
    && y.acks == Stock(b)
    && b <= BlockCount(payload) && y.client == Client(b, Front(payload, b), false, false)
  }

  /** An ACK with the current number is read: the sender moves on, whichever block it was of. */
  lemma ReadMatch(payload: seq<Byte>, retries: nat, y: System, i: nat, j: nat)
    requires Valid(payload, retries, y) && y.sender.outcome.Running? && y.waiting
    requires i < |y.acks| && y.acks[i] == AckOf(j) && j % NUMBERS == y.sender.block % NUMBERS
    ensures var z := Step(payload, retries, y, Read(i));
            && z.acks == Without(y.acks, i) && z.client == y.client && z.data == y.data && !z.waiting
            && if y.sender.block == BlockCount(payload) then z.sender.outcome.Complete?
               else z.sender == S.State(y.sender.block + 1, retries, z.sender.buf, S.Running)
  {
    hide Packet, DecodeErr, Overlay, DecodeAck;
    Codec.AckOverStale(y.sender.buf, j % NUMBERS);
    PacketSize(payload, y.sender.block);
  }

  /** An ordinary round, but for one copy of the ACK that the network holds back. */
  lemma {:induction false} KeepBack(payload: seq<Byte>, retries: nat, y: System, k: nat) returns (z: System)
    requires Valid(payload, retries, y) && 1 <= k < BlockCount(payload)
    requires Stocked(payload, retries, y, k, k - 1) && y.data == []
    ensures z == Step(payload, retries, Step(payload, retries, Step(payload, retries, Step(payload, retries, y, Write),
                   Deliver(0)), RepeatAck(k - 1)), Read(k))
    ensures Stocked(payload, retries, z, k + 1, k) && z.data == []
  {
    hide Receive, Packet, Front, AckOf, S.OnReply;
    var written := Step(payload, retries, y, Write);
    assert written.data == [Packet(payload, k)];
    ReceiveNew(payload, k, y.client);
    var delivered := Step(payload, retries, written, Deliver(0));
    assert delivered.acks == Stock(k - 1) + [AckOf(k)] == Stock(k);
    var repeated := Step(payload, retries, delivered, RepeatAck(k - 1));
    assert repeated.acks == Stock(k) + [AckOf(k)];
    ReadMatch(payload, retries, repeated, k, k);
    z := Step(payload, retries, repeated, Read(k));
    assert z.acks == Stock(k);
  }

  lemma RepeatedAndTaken<T>(s: seq<T>, i: nat)
    requires i < |s|
    ensures |Twice(s, i)| == |s| + 1 && Twice(s, i)[i] == s[i] && Without(Twice(s, i), i) == s
  {}

  lemma StockAt(b: nat, j: nat)
    requires j < b
    ensures |Stock(b)| == b && Stock(b)[j] == AckOf(j + 1)
  {}

  /** A lap later the old ACKs fit again: the sender is answered although the receiver is cut off. */
  lemma {:induction false} PlayBack(payload: seq<Byte>, retries: nat, y: System, k: nat) returns (z: System)
    requires Valid(payload, retries, y) && NUMBERS < k <= BlockCount(payload)
    requires Stocked(payload, retries, y, k, NUMBERS)
    ensures var j := (k - 1) % NUMBERS;
            z == Step(payload, retries, Step(payload, retries, Step(payload, retries, y, Write), RepeatAck(j)), Read(j))
    ensures if k < BlockCount(payload) then Stocked(payload, retries, z, k + 1, NUMBERS)
            else z.sender.outcome.Complete? && z.client == y.client
  {
    hide Receive, Packet, Front, AckOf, S.OnReply, Without, Twice, Tally, Stock;
    var j := (k - 1) % NUMBERS;
    var written := Step(payload, retries, y, Write);
    var repeated := Step(payload, retries, written, RepeatAck(j));
    StockAt(NUMBERS, j);
    Codec.Successor(k);
    RepeatedAndTaken(y.acks, j);
    ReadMatch(payload, retries, repeated, j, j + 1);
    z := Step(payload, retries, repeated, Read(j));
  }

  lemma NothingStocked(payload: seq<Byte>, retries: nat)
    requires retries >= 1
    ensures var y := Exec(payload, retries, []);
            Stocked(payload, retries, y, 1, 0) && y.data == []
  {
    assert Stock(0) == [];
  }

  lemma {:induction false} FirstLap(payload: seq<Byte>, retries: nat, b: nat) returns (events: seq<Event>)
    requires retries >= 1 && b <= NUMBERS < BlockCount(payload)
    ensures var y := Exec(payload, retries, events);
            Stocked(payload, retries, y, b + 1, b) && y.data == []
  {
    hide Exec, Step, Stocked;
    if b == 0 {
      events := [];
      NothingStocked(payload, retries);
    } else {
      var before := FirstLap(payload, retries, b - 1);
      var y := Exec(payload, retries, before);
      var z := KeepBack(payload, retries, y, b);
      OneMoreEvent(payload, retries, before, Write);
      OneMoreEvent(payload, retries, before + [Write], Deliver(0));
      OneMoreEvent(payload, retries, before + [Write] + [Deliver(0)], RepeatAck(b - 1));
      OneMoreEvent(payload, retries, before + [Write] + [Deliver(0)] + [RepeatAck(b - 1)], Read(b));
      events := before + [Write] + [Deliver(0)] + [RepeatAck(b - 1)] + [Read(b)];
    }
  }

  /** The sender has been led to block k, or past the last block, on one lap of real ACKs. */
  lemma {:induction false} LaterLaps(payload: seq<Byte>, retries: nat, k: nat) returns (events: seq<Event>)
    requires retries >= 1 && NUMBERS < BlockCount(payload) && NUMBERS < k <= BlockCount(payload) + 1
    ensures var y := Exec(payload, retries, events);
            && y.client == Client(NUMBERS, Front(payload, NUMBERS), false, false)
            && if k <= BlockCount(payload) then Stocked(payload, retries, y, k, NUMBERS)
               else y.sender.outcome.Complete?
  {
    hide Exec, Step;
    if k == NUMBERS + 1 {
      events := FirstLap(payload, retries, NUMBERS);
    } else {
      var before := LaterLaps(payload, retries, k - 1);
      var y := Exec(payload, retries, before);
      var z := PlayBack(payload, retries, y, k - 1);
      var j := (k - 2) % NUMBERS;
      OneMoreEvent(payload, retries, before, Write);
      OneMoreEvent(payload, retries, before + [Write], RepeatAck(j));
      OneMoreEvent(payload, retries, before + [Write] + [RepeatAck(j)], Read(j));
      events := before + [Write] + [RepeatAck(j)] + [Read(j)];
    }
  }

  /** With 65537 blocks or more there is a run in which the sender ends normally while the receiver has
      seen 65536 blocks, is still waiting, and, unless the last block is the 65537th and empty, lacks
      part of the payload. */
  lemma {:induction false} Overrun(payload: seq<Byte>, retries: nat) returns (events: seq<Event>)
    requires retries >= 1 && BlockCount(payload) > NUMBERS
    ensures var y := Exec(payload, retries, events);
            && y.sender.outcome.Complete? && !y.client.done
            && y.client.delivered == payload[..NUMBERS * BLOCK_SIZE]
            && (|payload| > NUMBERS * BLOCK_SIZE ==> y.client.delivered != payload)
            && !Faithful(payload, y)
  {
    hide Exec;
    events := LaterLaps(payload, retries, BlockCount(payload) + 1);
  }

  /** Exactly the payloads of at most 65536 blocks, that is of less than 65536 * 512 bytes, are
      transferred faithfully in every run. */
  lemma {:induction false} SafeExactlyUpToNumbers(payload: seq<Byte>, retries: nat)
    requires retries >= 1
    ensures (forall events: seq<Event> :: Faithful(payload, Exec(payload, retries, events)))
        <==> |payload| < 0x1_0000 * BLOCK_SIZE
  {
    hide Exec, Faithful, Holds;
    if BlockCount(payload) <= NUMBERS {
      forall events: seq<Event>
        ensures Faithful(payload, Exec(payload, retries, events))
      {
        RunHolds(payload, retries, events);
        HoldsFaithful(payload, retries, Exec(payload, retries, events));
      }
    } else {
      var events := Overrun(payload, retries);
    }
  }
}
