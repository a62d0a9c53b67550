/** A whole transfer: the sender of chapter6/server.go, the receiver that chapter6/README.md
    describes, and the two datagram channels between them. A run is any sequence of events; an event
    that is not possible where it comes leaves the transfer as it is. */
module Transfer {
  import opened Bytes
  import opened Tftp
  import S = Sender

  // ---------------------------------------------------------------- the receiver

  /** blocks: how many blocks it holds; it expects the next number modulo 65536. quit: it has
      answered with an ERROR. */
  datatype Client = Client(blocks: nat, delivered: seq<Byte>, done: bool, quit: bool)

  /** The receiver takes the block it expects until it has seen a short one, and acknowledges every
      DATA packet it is sent. */
  function Receive(c: Client, d: Datagram): (Client, seq<Datagram>) {
    match DecodeData(d)
    case None => (c, [])
    case Some((number, body)) =>
      if !c.done && number == (c.blocks + 1) % 0x1_0000
      then
        (c.(blocks := c.blocks + 1, delivered := c.delivered + body, done := |body| < BLOCK_SIZE),
         [EncodeAck(number)])
      else (c, [EncodeAck(number)])
  }

  // ---------------------------------------------------------------- the system

  /** data, acks: the datagrams under way, oldest first. The last three are records of the run: the
      read time-outs so far, how often each block was written, and the time-outs there had been when
      each block was left behind. */
  datatype System = System(
    sender: S.State, waiting: bool, client: Client, data: seq<Datagram>, acks: seq<Datagram>,
    timeouts: nat, writes: seq<nat>, stamps: seq<nat>)

  datatype Event =
    | Write                  // the sender writes its current packet
    | Fault                  // its write, or its read, fails for good
    | Expire                 // its read times out
    | Read(i: nat)           // its read returns the i-th datagram under way
    | Deliver(i: nat)        // the receiver is handed the i-th datagram under way and answers it
    | Abort(i: nat, code: Uint16, message: seq<Byte>) // ... and answers it with an ERROR for good
    | LoseData(i: nat)
    | LoseAck(i: nat)
    | RepeatData(i: nat)     // a duplicate, right behind the original
    | RepeatAck(i: nat)

  function Without<T>(s: seq<T>, i: nat): seq<T>
    requires i < |s|
  {
    s[..i] + s[i + 1..]
  }

  function Twice<T>(s: seq<T>, i: nat): seq<T>
    requires i < |s|
  {
    s[..i + 1] + s[i..]
  }

  function Tally(writes: seq<nat>, block: nat): seq<nat>
    requires block >= 1
  {
    if |writes| < block then writes + [1] else writes[block - 1 := writes[block - 1] + 1]
  }

  predicate Valid(payload: seq<Byte>, retries: nat, y: System) {
    S.Valid(payload, retries, y.sender)
  }

  function Init(retries: nat): System {
    System(S.Start(retries), false, Client(0, [], false, false), [], [], 0, [], [])
  }

  /** The sender, waiting, gets this reply. */
  function Answered(payload: seq<Byte>, retries: nat, y: System, reply: S.Reply): (z: System)
    requires Valid(payload, retries, y) && y.sender.outcome.Running?
    ensures Valid(payload, retries, z)
  {
    var s := S.OnReply(payload, retries, y.sender, reply);
    y.(sender := s, waiting := false,
       stamps := if S.Past(s, y.sender.block) then y.stamps + [y.timeouts] else y.stamps)
  }

  function Step(payload: seq<Byte>, retries: nat, y: System, e: Event): (z: System)
    requires Valid(payload, retries, y)
    ensures Valid(payload, retries, z)
  {
    var running := y.sender.outcome.Running?;
    match e
    case Write =>
      if !running || y.waiting then y
      else y.(waiting := true, data := y.data + [Packet(payload, y.sender.block)],
              writes := Tally(y.writes, y.sender.block))
    case Fault =>
      if !running then y
      else y.(sender := y.sender.(outcome := if y.waiting then S.ReadFailed else S.WriteFailed), waiting := false)
    case Expire =>
      if !running || !y.waiting then y
      else Answered(payload, retries, y, S.Timeout).(timeouts := y.timeouts + 1)
    case Read(i) =>
      if !running || !y.waiting || i >= |y.acks| then y
      else Answered(payload, retries, y, S.Arrived(y.acks[i])).(acks := Without(y.acks, i))
    case Deliver(i) =>
      if y.client.quit || i >= |y.data| then y
      else
        var (c, answer) := Receive(y.client, y.data[i]);
        y.(client := c, data := Without(y.data, i), acks := y.acks + answer)
    case Abort(i, code, message) =>
      if y.client.quit || i >= |y.data| then y
      else y.(client := y.client.(quit := true), data := Without(y.data, i),
              acks := y.acks + [EncodeErr(code, message)])
    case LoseData(i) => if i >= |y.data| then y else y.(data := Without(y.data, i))
    case LoseAck(i) => if i >= |y.acks| then y else y.(acks := Without(y.acks, i))
    case RepeatData(i) => if i >= |y.data| then y else y.(data := Twice(y.data, i))
    case RepeatAck(i) => if i >= |y.acks| then y else y.(acks := Twice(y.acks, i))
  }

  function Exec(payload: seq<Byte>, retries: nat, events: seq<Event>): (y: System)
    ensures Valid(payload, retries, y)
  {
    if events == [] then Init(retries)
    else
      var n := |events| - 1;
      Step(payload, retries, Exec(payload, retries, events[..n]), events[n])
  }

  lemma OneMoreEvent(payload: seq<Byte>, retries: nat, events: seq<Event>, e: Event)
    ensures Exec(payload, retries, events + [e]) == Step(payload, retries, Exec(payload, retries, events), e)
  {
    hide Step;
    assert (events + [e])[..|events|] == events;
  }

  // ---------------------------------------------------------------- what losing and giving up mean

  lemma TakenOut<T>(s: seq<T>, i: nat)
    requires i < |s|
    ensures multiset(Without(s, i)) == multiset(s) - multiset{s[i]}
    ensures multiset(Twice(s, i)) == multiset(s) + multiset{s[i]}
  {
    assert s == s[..i] + [s[i]] + s[i + 1..];
    assert s[..i + 1] == s[..i] + [s[i]] && s[i..] == [s[i]] + s[i + 1..];
  }

  /** A lost datagram is gone, a repeated one is there once more, and nothing else changes. */
  lemma Channels(payload: seq<Byte>, retries: nat, y: System, i: nat)
    requires Valid(payload, retries, y)
    ensures i < |y.data| ==>
              var lost, repeated := Step(payload, retries, y, LoseData(i)), Step(payload, retries, y, RepeatData(i));
              && lost == y.(data := lost.data) && repeated == y.(data := repeated.data)
              && multiset(lost.data) == multiset(y.data) - multiset{y.data[i]}
              && multiset(repeated.data) == multiset(y.data) + multiset{y.data[i]}
    ensures i < |y.acks| ==>
              var lost, repeated := Step(payload, retries, y, LoseAck(i)), Step(payload, retries, y, RepeatAck(i));
              && lost == y.(acks := lost.acks) && repeated == y.(acks := repeated.acks)
              && multiset(lost.acks) == multiset(y.acks) - multiset{y.acks[i]}
              && multiset(repeated.acks) == multiset(y.acks) + multiset{y.acks[i]}
  {
    if i < |y.data| {
      TakenOut(y.data, i);
    }
    if i < |y.acks| {
      TakenOut(y.acks, i);
    }
  }

  /** Any datagram under way may be the next to arrive: it is used up, and its receiver deals with just it. */
  lemma Arrivals(payload: seq<Byte>, retries: nat, y: System, i: nat)
    requires Valid(payload, retries, y)
    ensures i < |y.data| && !y.client.quit ==>
              var z := Step(payload, retries, y, Deliver(i));
              && z == y.(client := Receive(y.client, y.data[i]).0, data := z.data,
                         acks := y.acks + Receive(y.client, y.data[i]).1)
              && multiset(z.data) == multiset(y.data) - multiset{y.data[i]}
    ensures i < |y.acks| && y.waiting && y.sender.outcome.Running? ==>
              var z := Step(payload, retries, y, Read(i));
              && z == y.(sender := z.sender, waiting := false, acks := z.acks, stamps := z.stamps)
              && z.sender == S.OnTurn(payload, retries, y.sender, S.Written(S.Arrived(y.acks[i])))
              && multiset(z.acks) == multiset(y.acks) - multiset{y.acks[i]}
  {
    hide Receive, S.OnReply;
    if i < |y.data| {
      TakenOut(y.data, i);
    }
    if i < |y.acks| {
      TakenOut(y.acks, i);
    }
  }

  /** A receiver that gives up on a datagram has used it up and says so; a sender that fails has ended. */
  lemma GivingUp(payload: seq<Byte>, retries: nat, y: System, i: nat, code: Uint16, message: seq<Byte>)
    requires Valid(payload, retries, y)
    ensures i < |y.data| && !y.client.quit ==>
              var z := Step(payload, retries, y, Abort(i, code, message));
              && z == y.(client := y.client.(quit := true), data := z.data, acks := y.acks + [EncodeErr(code, message)])
              && multiset(z.data) == multiset(y.data) - multiset{y.data[i]}
    ensures y.sender.outcome.Running? ==>
              Step(payload, retries, y, Fault).sender.outcome == if y.waiting then S.ReadFailed else S.WriteFailed
  {
    if i < |y.data| {
      TakenOut(y.data, i);
    }
  }

  /** From y to z no datagram has come into the channel that was not there. */
  predicate NothingNew(y: seq<Datagram>, z: seq<Datagram>) {
    forall d :: d in z ==> d in y
  }

  lemma StepGivenUp(payload: seq<Byte>, retries: nat, y: System, e: Event)
    requires Valid(payload, retries, y)
    ensures var z := Step(payload, retries, y, e);
            && (y.client.quit ==> z.client == y.client && NothingNew(y.acks, z.acks))
            && (!y.sender.outcome.Running? ==> z.sender == y.sender && NothingNew(y.data, z.data))
  {
    hide S.OnReply, S.Past, Receive, Packet, EncodeErr;
  }

  /** Whoever has given up, or ended, does nothing more: the receiver takes no block and sends no answer, the
      sender does not change and writes nothing, whatever happens afterwards. */
  lemma {:induction false} GivenUp(payload: seq<Byte>, retries: nat, events: seq<Event>, more: seq<Event>)
    ensures var y, z := Exec(payload, retries, events), Exec(payload, retries, events + more);
            && (y.client.quit ==> z.client == y.client && NothingNew(y.acks, z.acks))
            && (!y.sender.outcome.Running? ==> z.sender == y.sender && NothingNew(y.data, z.data))
  {
    hide Step, Exec;
    if more == [] {
      assert events + more == events;
    } else {
      var m := |more| - 1;
      GivenUp(payload, retries, events, more[..m]);
      assert events + more == events + more[..m] + [more[m]];
      OneMoreEvent(payload, retries, events + more[..m], more[m]);
      StepGivenUp(payload, retries, Exec(payload, retries, events + more[..m]), more[m]);
    }
  }

  // ---------------------------------------------------------------- kinds of runs

  /** Datagrams are received in the order they were sent. */
  predicate InOrder(e: Event) {
    (e.Read? || e.Deliver? || e.Abort?) ==> e.i == 0
  }

  /** In order, nothing lost or repeated, nobody giving up; only the sender's read may time out. */
  predicate Lossless(e: Event) {
    e.Write? || e.Expire? || ((e.Read? || e.Deliver?) && e.i == 0)
  }

  predicate All(events: seq<Event>, p: Event -> bool) {
    forall j :: 0 <= j < |events| ==> p(events[j])
  }

  /** What a file transfer is for. */
  predicate Faithful(payload: seq<Byte>, y: System) {
    && y.client.delivered <= payload
    && (y.client.done ==> y.client.delivered == payload)
    && (y.sender.outcome.Complete? ==> y.client.done && y.client.delivered == payload)
  }

  // ---------------------------------------------------------------- the sender's own view

  /** The turn of the transfer loop that an event completes, if it completes one. */
  function TurnOf(y: System, e: Event): Option<S.Turn> {
    if !y.sender.outcome.Running? then None
    else if !y.waiting then (if e.Fault? then Some(S.WriteFault) else None)
    else
      match e
      case Fault => Some(S.Written(S.Fatal))
      case Expire => Some(S.Written(S.Timeout))
      case Read(i) => if i < |y.acks| then Some(S.Written(S.Arrived(y.acks[i]))) else None
      case _ => None
  }

  function Turns(payload: seq<Byte>, retries: nat, events: seq<Event>): seq<S.Turn> {
    if events == [] then []
    else
      var n := |events| - 1;
      Turns(payload, retries, events[..n])
      + match TurnOf(Exec(payload, retries, events[..n]), events[n])
        case None => []
        case Some(t) => [t]
  }

  lemma StepIsTurn(payload: seq<Byte>, retries: nat, y: System, e: Event)
    requires Valid(payload, retries, y)
    ensures Step(payload, retries, y, e).sender
         == match TurnOf(y, e) case None => y.sender case Some(t) => S.OnTurn(payload, retries, y.sender, t)
  {
    hide S.Advance, S.Past, Receive, DecodeAck, DecodeErr, Packet;
  }

  /** In every run of the system the sender has done what the loop does on those turns. */
  lemma {:induction false} SenderRuns(payload: seq<Byte>, retries: nat, events: seq<Event>)
    ensures Exec(payload, retries, events).sender == S.Run(payload, retries, Turns(payload, retries, events))
  {
    hide S.Run, S.OnTurn, Step, TurnOf;
    if events == [] {
      S.NoTurns(payload, retries);
    } else {
      var n := |events| - 1;
      SenderRuns(payload, retries, events[..n]);
      var y, before := Exec(payload, retries, events[..n]), Turns(payload, retries, events[..n]);
      StepIsTurn(payload, retries, y, events[n]);
      assert before + [] == before;
      if TurnOf(y, events[n]).Some? {
        S.OneMoreTurn(payload, retries, before, TurnOf(y, events[n]).value);
      }
    }
  }

  // ---------------------------------------------------------------- the records of a run

  /** How often block k has been written in these turns, and how often a read has timed out. */
  function WritesIn(payload: seq<Byte>, retries: nat, turns: seq<S.Turn>, k: nat): nat {
    if turns == [] then 0
    else
      var n := |turns| - 1;
      var s := S.Run(payload, retries, turns[..n]);
      WritesIn(payload, retries, turns[..n], k)
      + if s.outcome.Running? && s.block == k && turns[n].Written? then 1 else 0
  }

  function TimeoutsIn(payload: seq<Byte>, retries: nat, turns: seq<S.Turn>): nat {
    if turns == [] then 0
    else
      var n := |turns| - 1;
      TimeoutsIn(payload, retries, turns[..n])
      + if S.Run(payload, retries, turns[..n]).outcome.Running? && turns[n] == S.Written(S.Timeout) then 1 else 0
  }

  function Recorded(y: System, k: nat): nat {
    if 1 <= k <= |y.writes| then y.writes[k - 1] else 0
  }

  /** A write that still waits for its answer belongs to no turn yet. */
  ghost predicate TrueRecords(payload: seq<Byte>, retries: nat, y: System, turns: seq<S.Turn>) {
    && y.timeouts == TimeoutsIn(payload, retries, turns)
    && (forall k: nat :: k >= 1 ==>
          Recorded(y, k) == WritesIn(payload, retries, turns, k)
                            + if y.waiting && y.sender.outcome.Running? && y.sender.block == k then 1 else 0)
    && y.sender.block - 1 <= |y.writes| <= y.sender.block
    && (y.waiting && y.sender.outcome.Running? ==> |y.writes| == y.sender.block)
  }

  lemma TurnCounts(payload: seq<Byte>, retries: nat, turns: seq<S.Turn>, t: S.Turn)
    ensures var s := S.Run(payload, retries, turns);
            && TimeoutsIn(payload, retries, turns + [t])
               == TimeoutsIn(payload, retries, turns)
                  + (if s.outcome.Running? && t == S.Written(S.Timeout) then 1 else 0)
            && forall k: nat :: WritesIn(payload, retries, turns + [t], k)
                 == WritesIn(payload, retries, turns, k)
                    + (if s.outcome.Running? && s.block == k && t.Written? then 1 else 0)
  {
    hide S.Run;
    assert (turns + [t])[..|turns|] == turns;
  }

  lemma StepRecords(payload: seq<Byte>, retries: nat, y: System, e: Event, turns: seq<S.Turn>)
    requires Valid(payload, retries, y) && TrueRecords(payload, retries, y, turns)
    requires y.sender == S.Run(payload, retries, turns)
    ensures var after := turns + match TurnOf(y, e) case None => [] case Some(t) => [t];
            TrueRecords(payload, retries, Step(payload, retries, y, e), after)
  {
    hide S.Run, S.OnTurn, S.Past, Receive, Packet, EncodeErr, TimeoutsIn, WritesIn, Without, Twice;
    StepIsTurn(payload, retries, y, e);
    match TurnOf(y, e)
    case None => assert turns + [] == turns;
    case Some(t) =>
      TurnCounts(payload, retries, turns, t);
      S.TurnEffect(payload, retries, y.sender, t);
  }

  lemma NoRecords(payload: seq<Byte>, retries: nat)
    ensures TrueRecords(payload, retries, Init(retries), [])
  {}

  /** The records tell the truth: timeouts is the number of turns whose read timed out, and writes counts the
      turns in which each block was written, and the write whose answer is still awaited. */
  lemma {:induction false} RecordsTrue(payload: seq<Byte>, retries: nat, events: seq<Event>)
    ensures TrueRecords(payload, retries, Exec(payload, retries, events), Turns(payload, retries, events))
  {
    hide S.Run, Step, TurnOf, TrueRecords;
    if events == [] {
      NoRecords(payload, retries);
    } else {
      var n := |events| - 1;
      RecordsTrue(payload, retries, events[..n]);
      SenderRuns(payload, retries, events[..n]);
      var y, turns := Exec(payload, retries, events[..n]), Turns(payload, retries, events[..n]);
      StepRecords(payload, retries, y, events[n], turns);
    }
  }

  /** The blocks the sender has left behind. */
  function Done(y: System): int {
    y.sender.block - if y.sender.outcome.Complete? then 0 else 1
  }

  lemma StepStamps(payload: seq<Byte>, retries: nat, y: System, e: Event)
    requires Valid(payload, retries, y) && |y.stamps| == Done(y)
    ensures var z := Step(payload, retries, y, e);
            && |z.stamps| == Done(z) && y.stamps <= z.stamps
            && (Done(z) == Done(y) || (Done(z) == Done(y) + 1 && z.stamps == y.stamps + [z.timeouts]))
  {
    hide Receive, Packet, EncodeErr, Without, Twice, DecodeAck, DecodeErr, Overlay;
  }

  lemma {:induction false} StampCount(payload: seq<Byte>, retries: nat, events: seq<Event>)
    ensures |Exec(payload, retries, events).stamps| == Done(Exec(payload, retries, events))
  {
    hide Step;
    if events != [] {
      var n := |events| - 1;
      StampCount(payload, retries, events[..n]);
      StepStamps(payload, retries, Exec(payload, retries, events[..n]), events[n]);
    }
  }

  /** stamps holds, for each block the sender has left behind, the time-outs there had been when it did: at the
      n-th event, before which it had not. */
  lemma {:induction false} StampsTrue(payload: seq<Byte>, retries: nat, events: seq<Event>, k: nat) returns (n: nat)
    requires k >= 1 && S.Past(Exec(payload, retries, events).sender, k)
    ensures n < |events| && k <= |Exec(payload, retries, events).stamps|
    ensures !S.Past(Exec(payload, retries, events[..n]).sender, k)
    ensures var z := Exec(payload, retries, events[..n + 1]);
            S.Past(z.sender, k) && Exec(payload, retries, events).stamps[k - 1] == z.timeouts
  {
    hide Step;
    assert events != [];
    var last := |events| - 1;
    var y := Exec(payload, retries, events[..last]);
    StampCount(payload, retries, events[..last]);
    StepStamps(payload, retries, y, events[last]);
    if S.Past(y.sender, k) {
      n := StampsTrue(payload, retries, events[..last], k);
      assert events[..last][..n] == events[..n] && events[..last][..n + 1] == events[..n + 1];
    } else {
      n := last;
      assert events[..last + 1] == events;
    }
  }
}
