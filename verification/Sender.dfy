/** The transfer loop of Server.handle (chapter6/server.go) as an automaton: one turn is one pass of
    the retry loop, a write followed by whatever the network answers. The theorems here hold for
    every sequence of turns, however hostile. */
module Sender {
  import opened Bytes
  import opened Tftp
  import Codec

  datatype Outcome = Running | Complete | ClientError | Exhausted | WriteFailed | ReadFailed

  /** What conn.Read comes back with. */
  datatype Reply = Timeout | Fatal | Arrived(datagram: Datagram)

  datatype Turn = WriteFault | Written(reply: Reply)

  /** block: the current block, counted without wrap-around; left: the retry counter i. */
  datatype State = State(block: nat, left: nat, buf: seq<Byte>, outcome: Outcome)

  predicate Valid(payload: seq<Byte>, retries: nat, s: State) {
    && 1 <= s.block <= BlockCount(payload)
    && |s.buf| == DATAGRAM_SIZE
    && s.left <= retries
    && (s.outcome.Running? ==> s.left >= 1)
  }

  function Start(retries: nat): State {
    State(1, retries, Zeros(DATAGRAM_SIZE), if retries == 0 then Exhausted else Running)
  }

  /** One retry is spent; the block is written again unless it was the last. */
  function Retry(s: State): State
    requires s.left >= 1
  {
    s.(left := s.left - 1, outcome := if s.left == 1 then Exhausted else Running)
  }

  /** The block is acknowledged: on to the next, unless its packet was a short one. */
  function Advance(payload: seq<Byte>, retries: nat, s: State): State
    requires Valid(payload, retries, s)
  {
    if |Packet(payload, s.block)| < DATAGRAM_SIZE then s.(outcome := Complete)
    else s.(block := s.block + 1, left := retries)
  }

  /** The switch on the reply, decoding the whole buffer it was read into. */
  function OnReply(payload: seq<Byte>, retries: nat, s: State, reply: Reply): (r: State)
    requires Valid(payload, retries, s) && s.outcome.Running?
    ensures Valid(payload, retries, r)
  {
    match reply
    case Timeout => Retry(s)
    case Fatal => s.(outcome := ReadFailed)
    case Arrived(d) =>
      var t := s.(buf := Overlay(s.buf, d));
      match DecodeAck(t.buf)
      case Some(n) => if n == s.block % 0x1_0000 then Advance(payload, retries, t) else Retry(t)
      case None => if DecodeErr(t.buf).Some? then t.(outcome := ClientError) else Retry(t)
  }

  function OnTurn(payload: seq<Byte>, retries: nat, s: State, turn: Turn): (r: State)
    requires Valid(payload, retries, s)
    ensures Valid(payload, retries, r)
  {
    if !s.outcome.Running? then s
    else
      match turn
      case WriteFault => s.(outcome := WriteFailed)
      case Written(reply) => OnReply(payload, retries, s, reply)
  }

  function Run(payload: seq<Byte>, retries: nat, turns: seq<Turn>): (s: State)
    ensures Valid(payload, retries, s)
  {
    if turns == [] then Start(retries)
    else
      var n := |turns| - 1;
      OnTurn(payload, retries, Run(payload, retries, turns[..n]), turns[n])
  }

  /** The datagrams written in a run, in order. */
  function Sent(payload: seq<Byte>, retries: nat, turns: seq<Turn>): seq<Datagram> {
    if turns == [] then []
    else
      var n := |turns| - 1;
      var s := Run(payload, retries, turns[..n]);
      Sent(payload, retries, turns[..n])
      + if s.outcome.Running? && turns[n].Written? then [Packet(payload, s.block)] else []
  }

  lemma NoTurns(payload: seq<Byte>, retries: nat)
    ensures Run(payload, retries, []) == Start(retries) && Sent(payload, retries, []) == []
  {}

  lemma OneMoreTurn(payload: seq<Byte>, retries: nat, turns: seq<Turn>, turn: Turn)
    ensures var s := Run(payload, retries, turns);
            && Run(payload, retries, turns + [turn]) == OnTurn(payload, retries, s, turn)
            && Sent(payload, retries, turns + [turn])
               == Sent(payload, retries, turns)
                  + if s.outcome.Running? && turn.Written? then [Packet(payload, s.block)] else []
  {
    hide OnTurn, Packet;
    assert (turns + [turn])[..|turns|] == turns;
  }

  // ---------------------------------------------------------------- termination

  /** The most turns a transfer in this state can have had. */
  function Spent(retries: nat, s: State): int {
    s.block * retries - if s.outcome.Running? then s.left else 0
  }

  lemma TurnEffect(payload: seq<Byte>, retries: nat, s: State, turn: Turn)
    requires Valid(payload, retries, s) && s.outcome.Running?
    ensures var r := OnTurn(payload, retries, s, turn);
            || (r.block == s.block && (r.outcome.Running? ==> r.left == s.left - 1))
            || (r.block == s.block + 1 && r.left == retries && r.outcome.Running?)
  {}

  lemma TurnSpends(payload: seq<Byte>, retries: nat, s: State, turn: Turn)
    requires Valid(payload, retries, s) && s.outcome.Running?
    ensures Spent(retries, OnTurn(payload, retries, s, turn)) >= Spent(retries, s) + 1
  {
    hide OnTurn;
    TurnEffect(payload, retries, s, turn);
    assert (s.block + 1) * retries == s.block * retries + retries;
  }

  /** Every turn that keeps the transfer going uses up one of the retries of one of the blocks. */
  lemma {:induction false} TurnsUsed(payload: seq<Byte>, retries: nat, turns: seq<Turn>)
    ensures var s := Run(payload, retries, turns);
            && |Sent(payload, retries, turns)| <= Spent(retries, s)
            && (s.outcome.Running? ==> |turns| <= Spent(retries, s))
  {
    if turns != [] {
      var n := |turns| - 1;
      TurnsUsed(payload, retries, turns[..n]);
      var s := Run(payload, retries, turns[..n]);
      if s.outcome.Running? {
        TurnSpends(payload, retries, s, turns[n]);
      }
    }
  }

  lemma BlocksBound(blocks: nat, block: nat, retries: nat)
    requires block <= blocks
    ensures block * retries <= blocks * retries
  {}

  /** Whatever the network does, the transfer is over after Retries * (len/512 + 1) turns, and that
      many writes are never exceeded. */
  lemma {:induction false} Terminates(payload: seq<Byte>, retries: nat, turns: seq<Turn>)
    ensures |Sent(payload, retries, turns)| <= retries * (|payload| / BLOCK_SIZE + 1)
    ensures |turns| >= retries * (|payload| / BLOCK_SIZE + 1) ==> !Run(payload, retries, turns).outcome.Running?
  {
    TurnsUsed(payload, retries, turns);
    BlocksBound(BlockCount(payload), Run(payload, retries, turns).block, retries);
  }

  lemma OverIsOver(payload: seq<Byte>, retries: nat, s: State, turn: Turn)
    requires Valid(payload, retries, s) && !s.outcome.Running?
    ensures OnTurn(payload, retries, s, turn) == s
  {}

  /** A transfer that is over stays as it ended and writes nothing more. */
  lemma {:induction false} EndIsFinal(payload: seq<Byte>, retries: nat, turns: seq<Turn>, more: seq<Turn>)
    requires !Run(payload, retries, turns).outcome.Running?
    ensures Run(payload, retries, turns + more) == Run(payload, retries, turns)
    ensures Sent(payload, retries, turns + more) == Sent(payload, retries, turns)
  {
    hide OnTurn;
    if more == [] {
      assert turns + more == turns;
    } else {
      var m := |more| - 1;
      EndIsFinal(payload, retries, turns, more[..m]);
      assert (turns + more)[..|turns| + m] == turns + more[..m];
      OverIsOver(payload, retries, Run(payload, retries, turns), more[m]);
    }
  }

  lemma TurnBefore(payload: seq<Byte>, retries: nat, s: State, turn: Turn)
    requires Valid(payload, retries, s)
    ensures var r := OnTurn(payload, retries, s, turn);
            r.outcome.Running? && r.left < retries ==> s.outcome.Running? && s.block == r.block && s.left == r.left + 1
  {}

  /** The retry counter tells how many passes of the current block are gone: they were the last turns, all
      on this block, counting down one by one. */
  lemma {:induction false} RetriesSpent(payload: seq<Byte>, retries: nat, turns: seq<Turn>, j: nat)
    requires Run(payload, retries, turns).outcome.Running?
    requires j <= retries - Run(payload, retries, turns).left
    ensures j <= |turns|
    ensures var s, r := Run(payload, retries, turns), Run(payload, retries, turns[..|turns| - j]);
            r.outcome.Running? && r.block == s.block && r.left == s.left + j
  {
    hide OnTurn;
    if j == 0 {
      assert turns[..|turns|] == turns;
    } else {
      var n := |turns| - 1;
      if turns != [] {
        TurnBefore(payload, retries, Run(payload, retries, turns[..n]), turns[n]);
        RetriesSpent(payload, retries, turns[..n], j - 1);
        assert turns[..n][..n - (j - 1)] == turns[..|turns| - j];
      }
    }
  }

  /** The turn brings neither an ACK of block k nor an ERROR. */
  predicate Unhelpful(s: State, turn: Turn, k: nat) {
    && turn.Written?
    && match turn.reply
       case Timeout => true
       case Fatal => false
       case Arrived(d) =>
         DecodeAck(Overlay(s.buf, d)) != Some(k % 0x1_0000) && DecodeErr(Overlay(s.buf, d)).None?
  }

  lemma ExhaustingTurn(payload: seq<Byte>, retries: nat, s: State, turn: Turn)
    requires Valid(payload, retries, s) && s.outcome.Running?
    ensures OnTurn(payload, retries, s, turn).outcome.Exhausted? <==> s.left == 1 && Unhelpful(s, turn, s.block)
  {}

  lemma UnhelpfulTurn(payload: seq<Byte>, retries: nat, s: State, turn: Turn)
    requires Valid(payload, retries, s) && s.outcome.Running?
    ensures var r := OnTurn(payload, retries, s, turn);
            r.outcome.Running? && r.block == s.block ==> Unhelpful(s, turn, s.block)
  {}

  /** Each turn since the retry counter was set was on the current block, and did not help. */
  lemma {:induction false} EarlierPass(payload: seq<Byte>, retries: nat, turns: seq<Turn>, j: nat)
    requires Run(payload, retries, turns).outcome.Running?
    requires |turns| - (retries - Run(payload, retries, turns).left) <= j < |turns|
    ensures var t, k := Run(payload, retries, turns[..j]), Run(payload, retries, turns).block;
            t.outcome.Running? && t.block == k && Unhelpful(t, turns[j], k)
  {
    hide OnTurn, Unhelpful;
    RetriesSpent(payload, retries, turns, |turns| - j);
    RetriesSpent(payload, retries, turns, |turns| - j - 1);
    assert turns[..j + 1][..j] == turns[..j];
    UnhelpfulTurn(payload, retries, Run(payload, retries, turns[..j]), turns[j]);
  }

  /** A transfer is exhausted only by R turns in a row on one block, each of which brought neither the ACK
      of the block nor an ERROR. */
  lemma {:induction false} ExhaustedByR(payload: seq<Byte>, retries: nat, turns: seq<Turn>) returns (n: nat, k: nat)
    requires retries >= 1 && Run(payload, retries, turns).outcome.Exhausted?
    ensures retries <= n <= |turns|
    ensures forall j :: n - retries <= j < n ==>
              var s := Run(payload, retries, turns[..j]);
              s.outcome.Running? && s.block == k && Unhelpful(s, turns[j], k)
  {
    hide OnTurn, Unhelpful;
    var last := |turns| - 1;
    assert turns != [];
    var s := Run(payload, retries, turns[..last]);
    if !s.outcome.Running? {
      OverIsOver(payload, retries, s, turns[last]);
      n, k := ExhaustedByR(payload, retries, turns[..last]);
      assert forall j :: 0 <= j < n ==> turns[..last][..j] == turns[..j];
    } else {
      n, k := |turns|, s.block;
      ExhaustingTurn(payload, retries, s, turns[last]);
      RetriesSpent(payload, retries, turns[..last], retries - 1);
      forall j | n - retries <= j < n
        ensures var t := Run(payload, retries, turns[..j]);
                t.outcome.Running? && t.block == k && Unhelpful(t, turns[j], k)
      {
        if j < last {
          EarlierPass(payload, retries, turns[..last], j);
          assert turns[..last][..j] == turns[..j];
        }
      }
    }
  }

  /** The turn ends the transfer for this reason. */
  predicate Ends(payload: seq<Byte>, s: State, turn: Turn, outcome: Outcome) {
    match outcome
    case Running => false
    case WriteFailed => turn.WriteFault?
    case ReadFailed => turn.Written? && turn.reply.Fatal?
    case ClientError =>
      && turn.Written? && turn.reply.Arrived?
      && DecodeAck(Overlay(s.buf, turn.reply.datagram)).None?
      && DecodeErr(Overlay(s.buf, turn.reply.datagram)).Some?
    case Complete =>
      && s.block == |payload| / 512 + 1 && turn.Written? && turn.reply.Arrived?
      && DecodeAck(Overlay(s.buf, turn.reply.datagram)) == Some(s.block % 0x1_0000)
    case Exhausted => s.left == 1 && Unhelpful(s, turn, s.block)
  }

  lemma EndingTurn(payload: seq<Byte>, retries: nat, s: State, turn: Turn, outcome: Outcome)
    requires Valid(payload, retries, s) && s.outcome.Running? && !outcome.Running?
    ensures OnTurn(payload, retries, s, turn).outcome == outcome <==> Ends(payload, s, turn, outcome)
  {
    hide Packet, DecodeAck, DecodeErr, Overlay;
    PacketSize(payload, s.block);
    if turn.Written? && turn.reply.Arrived? {
      Codec.DecodersExclusive(Overlay(s.buf, turn.reply.datagram));
    }
  }

  /** The n-th turn found the transfer going on, and ended it. */
  predicate EndedAt(payload: seq<Byte>, retries: nat, turns: seq<Turn>, n: nat, outcome: Outcome) {
    && n < |turns| && Run(payload, retries, turns[..n]).outcome.Running?
    && Ends(payload, Run(payload, retries, turns[..n]), turns[n], outcome)
  }

  lemma EndedInFront(payload: seq<Byte>, retries: nat, turns: seq<Turn>, last: nat, n: nat, outcome: Outcome)
    requires n < last <= |turns|
    ensures EndedAt(payload, retries, turns[..last], n, outcome) <==> EndedAt(payload, retries, turns, n, outcome)
  {
    hide Run, Ends;
    assert turns[..last][..n] == turns[..n];
  }

  lemma NotEndedYet(payload: seq<Byte>, retries: nat, outcome: Outcome)
    ensures forall n: nat :: !EndedAt(payload, retries, [], n, outcome)
  {}

  lemma EndedLast(payload: seq<Byte>, retries: nat, turns: seq<Turn>, outcome: Outcome)
    requires turns != []
    ensures var last := |turns| - 1;
            var s := Run(payload, retries, turns[..last]);
            && (EndedAt(payload, retries, turns, last, outcome)
                <==> s.outcome.Running? && Ends(payload, s, turns[last], outcome))
            && (forall n: nat :: EndedAt(payload, retries, turns, n, outcome) ==> n <= last)
            && (forall n: nat :: EndedAt(payload, retries, turns[..last], n, outcome) ==> n < last)
  {
    hide Run, Ends;
  }

  /** A transfer is over once a turn has ended it, and for the reason that turn gave: a failed write or read,
      an ERROR, the ACK of the last block, or the last retry gone unhelpfully. No later turn changes that. */
  lemma {:induction false} EndsExactly(payload: seq<Byte>, retries: nat, turns: seq<Turn>, outcome: Outcome)
    requires retries >= 1 && !outcome.Running?
    ensures Run(payload, retries, turns).outcome == outcome
       <==> exists n: nat :: EndedAt(payload, retries, turns, n, outcome)
  {
    hide OnTurn, Ends, EndedAt;
    if turns == [] {
      NotEndedYet(payload, retries, outcome);
    } else {
      var last := |turns| - 1;
      var s := Run(payload, retries, turns[..last]);
      EndsExactly(payload, retries, turns[..last], outcome);
      EndedLast(payload, retries, turns, outcome);
      forall n | 0 <= n < last
        ensures EndedAt(payload, retries, turns[..last], n, outcome) <==> EndedAt(payload, retries, turns, n, outcome)
      {
        EndedInFront(payload, retries, turns, last, n, outcome);
      }
      if s.outcome.Running? {
        EndingTurn(payload, retries, s, turns[last], outcome);
      } else {
        OverIsOver(payload, retries, s, turns[last]);
      }
    }
  }

  /** The slowest client: it lets every block time out as often as the server bears, then answers. */
  function Slow(retries: nat, blocks: nat): seq<Turn>
    requires retries >= 1
  {
    if blocks == 0 then []
    else Slow(retries, blocks - 1) + seq(retries - 1, _ => Written(Timeout))
         + [Written(Arrived(EncodeAck(blocks % 0x1_0000)))]
  }

  lemma {:induction false} TimeoutsPass(payload: seq<Byte>, retries: nat, turns: seq<Turn>, j: nat)
    requires Run(payload, retries, turns).outcome.Running? && j < Run(payload, retries, turns).left
    ensures var s := Run(payload, retries, turns);
            Run(payload, retries, turns + seq(j, _ => Written(Timeout))) == s.(left := s.left - j)
    ensures |Sent(payload, retries, turns + seq(j, _ => Written(Timeout)))| == |Sent(payload, retries, turns)| + j
  {
    hide Run, Sent, Packet;
    var all := turns + seq(j, _ => Written(Timeout));
    if j == 0 {
      assert all == turns;
    } else {
      var most := turns + seq(j - 1, _ => Written(Timeout));
      TimeoutsPass(payload, retries, turns, j - 1);
      assert all == most + [Written(Timeout)];
      OneMoreTurn(payload, retries, most, Written(Timeout));
    }
  }

  lemma {:induction false} SlowLength(retries: nat, blocks: nat)
    requires retries >= 1
    ensures |Slow(retries, blocks)| == retries * blocks
  {
    if blocks > 0 {
      SlowLength(retries, blocks - 1);
      assert retries * blocks == retries * (blocks - 1) + retries;
    }
  }

  lemma AnsweredTurn(payload: seq<Byte>, retries: nat, s: State)
    requires Valid(payload, retries, s) && s.outcome.Running?
    ensures var r := OnTurn(payload, retries, s, Written(Arrived(EncodeAck(s.block % 0x1_0000))));
            if s.block == BlockCount(payload) then r.outcome.Complete?
            else r == State(s.block + 1, retries, r.buf, Running)
  {
    Codec.AckOverStale(s.buf, s.block % 0x1_0000);
    PacketSize(payload, s.block);
  }

  lemma {:induction false} SlowRun(payload: seq<Byte>, retries: nat, blocks: nat)
    requires retries >= 1 && blocks <= BlockCount(payload)
    ensures var s := Run(payload, retries, Slow(retries, blocks));
            if blocks == BlockCount(payload) then s.outcome.Complete?
            else s == State(blocks + 1, retries, s.buf, Running)
    ensures |Sent(payload, retries, Slow(retries, blocks))| == |Slow(retries, blocks)|
  {
    hide Run, Sent, Packet, OnTurn, EncodeAck;
    if blocks == 0 {
      NoTurns(payload, retries);
    } else {
      var before := Slow(retries, blocks - 1);
      SlowRun(payload, retries, blocks - 1);
      TimeoutsPass(payload, retries, before, retries - 1);
      var waited := before + seq(retries - 1, _ => Written(Timeout));
      var s := Run(payload, retries, waited);
      AnsweredTurn(payload, retries, s);
      OneMoreTurn(payload, retries, waited, Written(Arrived(EncodeAck(blocks % 0x1_0000))));
    }
  }

  /** A transfer that is still going on has not used all the turns it can get. */
  lemma {:induction false} TurnLeft(payload: seq<Byte>, retries: nat, turns: seq<Turn>)
    requires Run(payload, retries, turns).outcome.Running?
    ensures |turns| < retries * (|payload| / BLOCK_SIZE + 1)
  {
    TurnsUsed(payload, retries, turns);
    BlocksBound(BlockCount(payload), Run(payload, retries, turns).block, retries);
  }

  /** The bound is reached: for every payload and every number of retries some run makes that many
      writes, and it completes. */
  lemma {:induction false} BoundReached(payload: seq<Byte>, retries: nat) returns (turns: seq<Turn>)
    requires retries >= 1
    ensures |Sent(payload, retries, turns)| == retries * (|payload| / BLOCK_SIZE + 1)
    ensures Run(payload, retries, turns).outcome.Complete?
  {
    hide Run, Sent;
    turns := Slow(retries, BlockCount(payload));
    SlowLength(retries, BlockCount(payload));
    SlowRun(payload, retries, BlockCount(payload));
  }

  // ---------------------------------------------------------------- what is written

  /** Consecutive equal datagrams merged into one. */
  function Collapse<T(==)>(s: seq<T>): seq<T> {
    if |s| <= 1 then s
    else
      var n := |s| - 1;
      if s[n] == s[n - 1] then Collapse(s[..n]) else Collapse(s[..n]) + [s[n]]
  }

  lemma CollapseAppend<T>(s: seq<T>, d: T)
    ensures Collapse(s + [d]) == if s != [] && s[|s| - 1] == d then Collapse(s) else Collapse(s) + [d]
  {
    assert (s + [d])[..|s|] == s;
  }

  lemma PacketsDiffer(payload: seq<Byte>, k: nat)
    requires 1 <= k < BlockCount(payload)
    ensures Packet(payload, k) != Packet(payload, k + 1)
  {
    PacketDecodes(payload, k);
    PacketDecodes(payload, k + 1);
  }

  /** The block last written: the current one as soon as one of its turns has been played. */
  function LastWritten(payload: seq<Byte>, retries: nat, turns: seq<Turn>): nat
  {
    if turns == [] then 0
    else
      var n := |turns| - 1;
      var s := Run(payload, retries, turns[..n]);
      if s.outcome.Running? && turns[n].Written? then s.block else LastWritten(payload, retries, turns[..n])
  }

  lemma TakeOneMore<T>(all: seq<T>, w: nat)
    requires w < |all|
    ensures all[..w + 1] == all[..w] + [all[w]]
  {}

  /** Writing the same element again, or the next one, of a list whose neighbours differ. */
  lemma CollapseNext<T>(all: seq<T>, sent: seq<T>, w: nat, k: nat)
    requires w <= k <= w + 1 && 1 <= k <= |all|
    requires Collapse(sent) == all[..w]
    requires if w == 0 then sent == [] else sent != [] && sent[|sent| - 1] == all[w - 1]
    requires 0 < w < k ==> all[w - 1] != all[w]
    ensures Collapse(sent + [all[k - 1]]) == all[..k]
  {
    hide Collapse;
    CollapseAppend(sent, all[k - 1]);
    if w < k {
      TakeOneMore(all, w);
    }
  }

  lemma BlockAfterTurn(payload: seq<Byte>, retries: nat, s: State, turn: Turn)
    requires Valid(payload, retries, s) && s.outcome.Running?
    ensures var r := OnTurn(payload, retries, s, turn);
            && s.block <= r.block <= s.block + 1
            && (r.block > s.block || r.outcome.Complete? ==> turn.Written?)
            && (r.outcome.Complete? ==> r.block == s.block == BlockCount(payload))
  {
    PacketSize(payload, s.block);
  }

  /** What has been written when block w was the last one written. */
  predicate Shape(payload: seq<Byte>, w: nat, sent: seq<Datagram>) {
    && w <= BlockCount(payload)
    && Collapse(sent) == Packets(payload)[..w]
    && if w == 0 then sent == [] else sent != [] && sent[|sent| - 1] == Packet(payload, w)
  }

  lemma ShapeNext(payload: seq<Byte>, w: nat, sent: seq<Datagram>, k: nat)
    requires Shape(payload, w, sent) && 1 <= k <= BlockCount(payload) && w <= k <= w + 1
    ensures Shape(payload, k, sent + [Packet(payload, k)])
  {
    var all := Packets(payload);
    assert all[k - 1] == Packet(payload, k);
    if w > 0 {
      assert all[w - 1] == Packet(payload, w);
      if w < k {
        PacketsDiffer(payload, w);
      }
    }
    CollapseNext(all, sent, w, k);
  }

  lemma {:induction false} SentShape(payload: seq<Byte>, retries: nat, turns: seq<Turn>)
    ensures var s, w := Run(payload, retries, turns), LastWritten(payload, retries, turns);
            && w <= s.block <= w + 1 && (s.outcome.Complete? ==> w == s.block == BlockCount(payload))
            && Shape(payload, w, Sent(payload, retries, turns))
  {
    if turns != [] {
      var n := |turns| - 1;
      SentShape(payload, retries, turns[..n]);
      var s, w := Run(payload, retries, turns[..n]), LastWritten(payload, retries, turns[..n]);
      var before := Sent(payload, retries, turns[..n]);
      assert before + [] == before;
      if s.outcome.Running? {
        BlockAfterTurn(payload, retries, s, turns[n]);
        if turns[n].Written? {
          ShapeNext(payload, w, before, s.block);
        }
      }
    }
  }

  /** Every run writes the packets of the payload in order, each some number of times in a row and
      byte for byte the same; a run that completes has written all of them. */
  lemma {:induction false} InOrderRetransmission(payload: seq<Byte>, retries: nat, turns: seq<Turn>)
    ensures Collapse(Sent(payload, retries, turns)) <= Packets(payload)
    ensures Run(payload, retries, turns).outcome.Complete?
        ==> Collapse(Sent(payload, retries, turns)) == Packets(payload)
  {
    SentShape(payload, retries, turns);
  }

  /** With repeats merged, the bodies of what is written are a front part of the payload, and the whole of it
      when the transfer completes. */
  lemma {:induction false} SentBodies(payload: seq<Byte>, retries: nat, turns: seq<Turn>)
    ensures Codec.Bodies(Collapse(Sent(payload, retries, turns))) <= payload
    ensures Run(payload, retries, turns).outcome.Complete?
        ==> Codec.Bodies(Collapse(Sent(payload, retries, turns))) == payload
  {
    hide Run, Sent, Collapse, Packets;
    InOrderRetransmission(payload, retries, turns);
    Codec.FrontBodies(payload, Collapse(Sent(payload, retries, turns)));
  }

  // ---------------------------------------------------------------- what lets it advance

  /** The turn brings, over the buffer as it stood, an ACK of block k. */
  predicate Acknowledges(s: State, turn: Turn, k: nat) {
    && turn.Written? && turn.reply.Arrived?
    && DecodeAck(Overlay(s.buf, turn.reply.datagram)) == Some(k % 0x1_0000)
  }

  /** Block k counts as done: a later one is current, or the transfer has completed with it. */
  predicate Past(s: State, k: nat) {
    s.block > k || (s.block == k && s.outcome.Complete?)
  }

  /** A block is left behind exactly by a turn that acknowledges it. */
  lemma {:induction false} AdvancesExactlyOnAck(payload: seq<Byte>, retries: nat, s: State, turn: Turn)
    requires Valid(payload, retries, s) && s.outcome.Running?
    ensures Past(OnTurn(payload, retries, s, turn), s.block) <==> Acknowledges(s, turn, s.block)
  {}

  /** Nothing of block k + 1 is written, and completion is not reached, before a turn in which block k
      had just been written and was acknowledged. */
  lemma {:induction false} AckedBefore(payload: seq<Byte>, retries: nat, turns: seq<Turn>, k: nat) returns (m: nat)
    requires k >= 1 && Past(Run(payload, retries, turns), k)
    ensures m < |turns|
    ensures var s := Run(payload, retries, turns[..m]);
            && s.outcome.Running? && s.block == k && Acknowledges(s, turns[m], k)
            && LastWritten(payload, retries, turns[..m + 1]) == k
  {
    hide OnReply;
    var n := |turns| - 1;
    assert turns != [];
    var s := Run(payload, retries, turns[..n]);
    if Past(s, k) {
      m := AckedBefore(payload, retries, turns[..n], k);
      assert turns[..n][..m] == turns[..m] && turns[..n][..m + 1] == turns[..m + 1];
    } else {
      m := n;
      AdvancesExactlyOnAck(payload, retries, s, turns[n]);
      BlockAfterTurn(payload, retries, s, turns[n]);
      assert turns[..n + 1] == turns;
    }
  }

  /** The last turn of the run leaves its block behind, although the datagram d it brought is no ACK: bytes
      that an earlier read left in the buffer made it one. */
  predicate Misled(payload: seq<Byte>, retries: nat, turns: seq<Turn>, d: Datagram) {
    && DecodeAck(d).None?
    && turns != [] && turns[|turns| - 1] == Written(Arrived(d))
    && var s := Run(payload, retries, turns[..|turns| - 1]);
       s.outcome.Running? && Past(Run(payload, retries, turns), s.block)
  }

  /** The first block whose number has this high byte. */
  function LeastBlock(high: nat): nat {
    if high == 0 then 1 else high * 0x100
  }

  /** The datagram is a fragment of an ACK header, and of the ACK of a block that the payload has. */
  predicate CompletesAck(payload: seq<Byte>, retries: nat, d: Datagram) {
    && retries >= 2 && 1 <= |d| <= 3 && !Codec.RulesOut(d, OP_ACK)
    && (|d| == 3 ==> LeastBlock(d[2]) <= BlockCount(payload))
  }

  /** What the buffer of a transfer that goes on never holds: the ACK of the block under way; and, where one
      pass is all a block gets, its low byte. */
  predicate Harmless(retries: nat, s: State)
    requires |s.buf| == DATAGRAM_SIZE
  {
    && DecodeAck(s.buf) != Some(s.block % 0x1_0000)
    && (retries == 1 ==> s.buf[3] != s.block % 0x100)
  }

  lemma NextNumber(k: nat)
    ensures k % 0x1_0000 != (k + 1) % 0x1_0000 && k % 0x100 != (k + 1) % 0x100
  {}

  lemma LowByte(k: nat)
    ensures k % 0x1_0000 % 0x100 == k % 0x100
    ensures k % 0x1_0000 / 0x100 == k / 0x100 % 0x100
  {
    var a, b := k % 0x1_0000 / 0x100, k % 0x1_0000 % 0x100;
    assert k == 0x100 * (0x100 * (k / 0x1_0000) + a) + b;
  }

  lemma TurnHarmless(payload: seq<Byte>, retries: nat, s: State, turn: Turn)
    requires Valid(payload, retries, s) && s.outcome.Running? && Harmless(retries, s)
    ensures var r := OnTurn(payload, retries, s, turn);
            r.outcome.Running? ==> Harmless(retries, r)
  {
    hide Packet, DecodeErr, Overlay;
    NextNumber(s.block);
    LowByte(s.block);
  }

  lemma {:induction false} RunHarmless(payload: seq<Byte>, retries: nat, turns: seq<Turn>)
    requires Run(payload, retries, turns).outcome.Running?
    ensures Harmless(retries, Run(payload, retries, turns))
  {
    hide OnTurn;
    if turns != [] {
      var n := |turns| - 1;
      var s := Run(payload, retries, turns[..n]);
      if s.outcome.Running? {
        RunHarmless(payload, retries, turns[..n]);
        TurnHarmless(payload, retries, s, turns[n]);
      } else {
        OverIsOver(payload, retries, s, turns[n]);
      }
    }
  }

  /** What has to come together for bytes of two reads to make an ACK. */
  lemma FragmentOfAck(payload: seq<Byte>, retries: nat, s: State, d: Datagram)
    requires Valid(payload, retries, s) && s.outcome.Running? && Harmless(retries, s) && DecodeAck(d).None?
    requires DecodeAck(Overlay(s.buf, d)) == Some(s.block % 0x1_0000)
    ensures CompletesAck(payload, retries, d)
  {
    Codec.AckOwnHeader(s.buf, d);
    var p := Overlay(s.buf, d);
    assert GetU16(p[2..4]) == s.block % 0x1_0000;
    LowByte(s.block);
  }

  /** A malformed packet that leaves the rest of the ACK of block k behind. */
  function Bait(k: nat): Datagram {
    [9, 4, k / 0x100 % 0x100, k % 0x100]
  }

  lemma BaitBytes(buf: seq<Byte>, high: Byte, low: Byte, d: Datagram)
    requires |buf| == DATAGRAM_SIZE
    requires 1 <= |d| <= 3 && !Codec.RulesOut(d, OP_ACK) && (|d| == 3 ==> d[2] == high)
    ensures var left := Overlay(buf, [9, 4, high, low]);
            && DecodeAck(left).None? && DecodeErr(left).None?
            && Overlay(left, d)[..4] == [0, 4, high, low]
  {
    var left := Overlay(buf, [9, 4, high, low]);
    assert left[..4] == [9, 4, high, low];
    assert GetU16(left) == 0x904;
  }

  lemma BaitTaken(buf: seq<Byte>, k: nat, d: Datagram)
    requires |buf| == DATAGRAM_SIZE
    requires 1 <= |d| <= 3 && !Codec.RulesOut(d, OP_ACK) && (|d| == 3 ==> d[2] == k / 0x100 % 0x100)
    ensures var left := Overlay(buf, Bait(k));
            && DecodeAck(left).None? && DecodeErr(left).None?
            && DecodeAck(Overlay(left, d)) == Some(k % 0x1_0000)
  {
    hide Overlay, DecodeErr, Codec.RulesOut;
    BaitBytes(buf, k / 0x100 % 0x100, k % 0x100, d);
    var p := Overlay(Overlay(buf, Bait(k)), d);
    assert p[2..4] == p[..4][2..4] && p[0] == p[..4][0] && p[1] == p[..4][1];
    LowByte(k);
  }

  /** The block whose ACK the fragment is made part of. */
  function BaitBlock(d: Datagram): nat {
    if |d| == 3 then LeastBlock(d[2]) else 1
  }

  lemma BaitBlockFits(payload: seq<Byte>, retries: nat, d: Datagram)
    requires CompletesAck(payload, retries, d)
    ensures 1 <= BaitBlock(d) <= BlockCount(payload)
    ensures |d| == 3 ==> d[2] == BaitBlock(d) / 0x100 % 0x100
  {}

  lemma ShortIsNoAck(d: Datagram)
    ensures |d| < 4 ==> DecodeAck(d).None?
  {}

  lemma BaitedTurns(payload: seq<Byte>, retries: nat, s: State, d: Datagram)
    requires Valid(payload, retries, s) && s.outcome.Running? && s.left >= 2
    requires 1 <= |d| <= 3 && !Codec.RulesOut(d, OP_ACK) && (|d| == 3 ==> d[2] == s.block / 0x100 % 0x100)
    ensures var t := OnTurn(payload, retries, s, Written(Arrived(Bait(s.block))));
            && t == State(s.block, s.left - 1, Overlay(s.buf, Bait(s.block)), Running)
            && Past(OnTurn(payload, retries, t, Written(Arrived(d))), s.block)
  {
    hide Packet, DecodeAck, DecodeErr, Overlay, Bait;
    BaitTaken(s.buf, s.block, d);
    PacketSize(payload, s.block);
  }

  lemma {:induction false} BaitedRun(payload: seq<Byte>, retries: nat, d: Datagram) returns (turns: seq<Turn>)
    requires CompletesAck(payload, retries, d)
    ensures Misled(payload, retries, turns, d)
  {
    hide Run, Sent, OnTurn, DecodeAck, Overlay, Bait, Slow, BaitBlock, BlockCount, Codec.RulesOut;
    var k := BaitBlock(d);
    BaitBlockFits(payload, retries, d);
    var before := Slow(retries, k - 1);
    SlowRun(payload, retries, k - 1);
    var bait, last := Written(Arrived(Bait(k))), Written(Arrived(d));
    BaitedTurns(payload, retries, Run(payload, retries, before), d);
    OneMoreTurn(payload, retries, before, bait);
    OneMoreTurn(payload, retries, before + [bait], last);
    turns := before + [bait] + [last];
    assert turns[..|turns| - 1] == before + [bait];
    ShortIsNoAck(d);
  }

  lemma {:induction false} MisledOnlyBy(payload: seq<Byte>, retries: nat, turns: seq<Turn>, d: Datagram)
    requires Misled(payload, retries, turns, d)
    ensures CompletesAck(payload, retries, d)
  {
    hide OnTurn, DecodeAck, Overlay, CompletesAck, Harmless;
    var n := |turns| - 1;
    var s := Run(payload, retries, turns[..n]);
    RunHarmless(payload, retries, turns[..n]);
    AdvancesExactlyOnAck(payload, retries, s, turns[n]);
    FragmentOfAck(payload, retries, s, d);
  }

  /** Exactly which datagrams, themselves no ACK, can move some run of a transfer on. */
  lemma {:induction false} MisledExactly(payload: seq<Byte>, retries: nat, d: Datagram)
    ensures (exists turns :: Misled(payload, retries, turns, d)) <==> CompletesAck(payload, retries, d)
  {
    hide CompletesAck, Run, OnTurn, DecodeAck, Overlay, Harmless;
    if CompletesAck(payload, retries, d) {
      var turns := BaitedRun(payload, retries, d);
    }
    if turns :| Misled(payload, retries, turns, d) {
      MisledOnlyBy(payload, retries, turns, d);
    }
  }

  /** When no such datagram arrives, nothing left in the buffer by an earlier read moves the transfer on:
      the acknowledging turn brought the ACK of block k itself. */
  lemma {:induction false} FreshAckBefore(payload: seq<Byte>, retries: nat, turns: seq<Turn>, k: nat) returns (m: nat)
    requires k >= 1 && Past(Run(payload, retries, turns), k)
    requires forall t :: 0 <= t < |turns| && turns[t].Written? && turns[t].reply.Arrived?
               ==> !CompletesAck(payload, retries, turns[t].reply.datagram)
    ensures m < |turns| && turns[m].Written? && turns[m].reply.Arrived?
    ensures DecodeAck(turns[m].reply.datagram) == Some(k % 0x1_0000)
    ensures Run(payload, retries, turns[..m]).outcome.Running? && Run(payload, retries, turns[..m]).block == k
  {
    hide OnTurn, DecodeAck, Overlay, CompletesAck;
    m := AckedBefore(payload, retries, turns, k);
    var d := turns[m].reply.datagram;
    var s := Run(payload, retries, turns[..m]);
    AdvancesExactlyOnAck(payload, retries, s, turns[m]);
    assert turns[..m + 1][..m] == turns[..m];
    if DecodeAck(d).None? {
      MisledOnlyBy(payload, retries, turns[..m + 1], d);
    }
    ShortIsNoAck(d);
    Codec.AckOwnHeader(s.buf, d);
  }

  lemma MalformedIsNoError(buf: seq<Byte>)
    requires |buf| >= 2 && buf[1] == 9
    ensures DecodeErr(buf).None?
  {}

  lemma OverlayTwo(buf: seq<Byte>, a: Byte, b: Byte)
    requires |buf| == DATAGRAM_SIZE
    ensures var p := Overlay(buf, [a, b]);
            p[0] == a && p[1] == b && p[2..4] == [buf[2], buf[3]]
  {}

  /** For example: a two-byte datagram completes what an earlier malformed packet left behind; neither is an
      ACK, and yet the transfer moves on to block 2. */
  lemma {:induction false} StaleBytesAdvance(payload: seq<Byte>, retries: nat)
    requires retries >= 2 && BlockCount(payload) >= 2
    ensures var turns: seq<Turn> := [Written(Arrived([0, 9, 0, 1])), Written(Arrived([0, 4]))];
            && (forall t :: 0 <= t < 2 ==> DecodeAck(turns[t].reply.datagram).None?)
            && Run(payload, retries, turns).block == 2
  {
    hide Run, Packet, DecodeErr;
    var one, two := Written(Arrived([0, 9, 0, 1])), Written(Arrived([0, 4]));
    NoTurns(payload, retries);
    OneMoreTurn(payload, retries, [], one);
    OneMoreTurn(payload, retries, [one], two);
    assert [] + [one] == [one] && [one] + [two] == [one, two];
    var s := Run(payload, retries, [one]);
    assert s.buf == [0, 9, 0, 1] + Zeros(DATAGRAM_SIZE)[4..];
    MalformedIsNoError(s.buf);
    assert s == State(1, retries - 1, s.buf, Running);
    OverlayTwo(s.buf, 0, 4);
    PacketSize(payload, 1);
  }
}
