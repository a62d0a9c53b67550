/** All the handlers that Serve() starts, running side by side in any interleaving: each owns its socket,
    packets and buffer, and all share the one Server. */
module Handlers {
  import opened Bytes
  import opened Tftp
  import Codec
  import S = Sender
  import opened Server

  /** A goroutine in handle(): its local variables, between two passes of the retry loop. */
  class Handler {
    const server: Server
    const started: Started
    const conn: Conn
    const dataPkt: Data
    const ackPkt: Ack
    const errPkt: Err
    const buf: array<Byte>
    var data: Datagram
    var i: nat
    var outcome: S.Outcome
    ghost var block: nat
    ghost var acts: nat
    ghost const limit: nat
    ghost const owned: set<object>

    ghost function State(): S.State
      reads this, buf
    {
      S.State(block, i, buf[..], outcome)
    }

    /** What belongs to the handler and to no one else; the server is not part of it. */
    ghost predicate Owns()
      reads owned
    {
      && {this, conn, dataPkt, ackPkt, errPkt, buf} <= owned && dataPkt.payload in owned
      && server !in owned
    }

    /** After its turns so far the handler stands where the automaton of Sender does, and has written the
        same datagrams. */
    ghost predicate Valid()
      reads owned, server`retries
    {
      && Owns() && !dataPkt.payload.broken
      && server.retries == limit
      && At(server.Content(), limit, conn.script, acts, conn.sent, State())
      && (outcome.Running? ==>
            && conn.turn == acts
            && 1 <= block <= BlockCount(server.Content())
            && data == Packet(server.Content(), block) && dataPkt.block == block % 0x1_0000
            && (|data| == DATAGRAM_SIZE ==>
                  Ready(server.Content(), block + 1, dataPkt.block, dataPkt.payload.rest)))
    }

    /** handle() up to its first write, on the socket connected to the client. */
    constructor (server: Server, started: Started, script: nat -> S.Turn)
      ensures Valid() && fresh(owned) && this in owned && server !in owned && this.server == server
      ensures this.started == started && conn.script == script && acts == 0
    {
      hide At, Server.Content, S.Run, S.Sent, S.Start, Packet, EncodeData, BlockCount, Ready, Unread, Turns;
      this.server, this.started := server, started;
      var c := new Conn(script);
      var reader := new Reader(server.Content());
      var d := new Data(reader);
      var a := new Ack();
      var e := new Err();
      var b := new Byte[DATAGRAM_SIZE](_ => 0);
      conn, dataPkt, ackPkt, errPkt, buf := c, d, a, e, b;
      block, acts, limit := 1, 0, server.retries;
      owned := {this, c, d, reader, a, e, b};
      i := server.retries;
      outcome := if server.retries == 0 then S.Exhausted else S.Running;
      new;
      assert fresh(owned);
      label Made:
      StartOfAll(server.Content(), server.retries, script, b[..]);
      assert At(server.Content(), limit, conn.script, acts, conn.sent, State());
      NextPacket(1);
      assert State() == old@Made(State());
    }

    /** The head of the outer loop: the next packet is made and the retry counter is read afresh. */
    method NextPacket(ghost k: nat)
      requires Owns() && !dataPkt.payload.broken
      requires Ready(server.Content(), k, dataPkt.block, dataPkt.payload.rest)
      modifies this`data, this`i, dataPkt`block, dataPkt.payload
      ensures i == server.retries
      ensures 1 <= k <= BlockCount(server.Content())
      ensures data == Packet(server.Content(), k) && dataPkt.block == k % 0x1_0000
      ensures |data| == DATAGRAM_SIZE ==> Ready(server.Content(), k + 1, dataPkt.block, dataPkt.payload.rest)
    {
      hide Packet, EncodeData, BlockCount, Ready, Unread;
      Marshalled(server.Content(), k, dataPkt.block, dataPkt.payload.rest);
      var failed: bool;
      data, failed := dataPkt.MarshalBinary();
      if failed {
        assert false;
      }
      i := server.retries;
    }

    /** One turn of the goroutine: a pass of the retry loop and, after an acknowledged full packet, the next
        packet and a fresh retry counter from the shared server. */
    method Turn()
      requires Valid()
      modifies owned
      ensures Valid() && acts == old(acts) + 1
    {
      hide At, Server.Content, S.Run, S.Sent, S.OnTurn, S.Retry, Packet, EncodeData, BlockCount, Ready, Unread, Turns;
      if !outcome.Running? {
        TurnIdle(server.Content(), limit, conn.script, acts, conn.sent, State());
        acts := acts + 1;
        return;
      }
      TurnPlayed(server.Content(), limit, conn.script, acts, conn.sent, State());
      var n, verdict := server.Pass(conn, data, dataPkt, ackPkt, errPkt, buf, server.Content(), State());
      acts := acts + 1;
      match verdict
      case Acked =>
        if n == DATAGRAM_SIZE {
          NextPacket(block + 1);
          block := block + 1;
        } else {
          outcome := S.Complete;
        }
      case Again =>
        Retried(block, i, buf[..]);
        i := i - 1;
        outcome := if i == 0 then S.Exhausted else S.Running;
      case Stop(o) =>
        outcome := o;
    }
  }

  /** Another Serve() is called on the server, its socket receives a packet or fails, or the goroutine of
      one of the handlers makes a turn. */
  datatype Event = Begin | Arrive(packet: Incoming) | Act(handler: nat)

  /** What the socket came back with, failures included. */
  function Arrivals(events: seq<Event>): seq<Incoming> {
    if events == [] then []
    else
      var n := |events| - 1;
      Arrivals(events[..n]) + if events[n].Arrive? then [events[n].packet] else []
  }

  /** The turns handler j has made since it was started. */
  function Acts(events: seq<Event>, j: nat): nat {
    if events == [] then 0
    else
      var n := |events| - 1;
      Acts(events[..n], j)
      + if events[n] == Act(j) && j < |Accepted(Arrivals(events[..n]))| then 1 else 0
  }

  /** Serve() has returned: a read has failed. */
  predicate Closed(incoming: seq<Incoming>) {
    ReadError in incoming
  }

  lemma {:induction false} AcceptedNext(incoming: seq<Incoming>, packet: Incoming)
    ensures Accepted(incoming + [packet])
         == Accepted(incoming) + if Closed(incoming) || packet.ReadError? then [] else Judged(packet)
    ensures Closed(incoming + [packet]) == (Closed(incoming) || packet.ReadError?)
  {
    hide Judged;
    if incoming == [] {
      assert incoming + [packet] == [packet] && [packet][1..] == [];
    } else {
      AcceptedNext(incoming[1..], packet);
      assert (incoming + [packet])[1..] == incoming[1..] + [packet];
    }
  }

  /** A failed read ends it: whatever arrives afterwards, no handler is started. */
  lemma {:induction false} NothingAfterFailure(before: seq<Incoming>, after: seq<Incoming>)
    ensures Accepted(before + [ReadError] + after) == Accepted(before)
  {
    var all := before + [ReadError] + after;
    if after == [] {
      assert all == before + [ReadError];
      AcceptedNext(before, ReadError);
    } else {
      var m := |after| - 1;
      NothingAfterFailure(before, after[..m]);
      assert all == before + [ReadError] + after[..m] + [after[m]];
      AcceptedNext(before + [ReadError] + after[..m], after[m]);
    }
  }

  lemma OneMoreEvent(events: seq<Event>, e: Event)
    ensures var incoming := Arrivals(events);
            && Arrivals(events + [e]) == (if e.Arrive? then incoming + [e.packet] else incoming)
            && forall j: nat :: Acts(events + [e], j)
                 == Acts(events, j) + (if e == Act(j) && j < |Accepted(incoming)| then 1 else 0)
  {
    hide Accepted;
    assert (events + [e])[..|events|] == events;
    assert Arrivals(events) + [] == Arrivals(events);
  }

  lemma NothingYet()
    ensures Arrivals([]) == [] && Accepted([]) == [] && !Closed([])
  {}

  lemma {:induction false} NotStartedYet(events: seq<Event>, j: nat)
    requires j >= |Accepted(Arrivals(events))|
    ensures Acts(events, j) == 0
  {
    hide Judged;
    if events != [] {
      var n := |events| - 1;
      if events[n].Arrive? {
        AcceptedNext(Arrivals(events[..n]), events[n].packet);
      } else {
        assert Arrivals(events[..n]) + [] == Arrivals(events[..n]);
      }
      NotStartedYet(events[..n], j);
    }
  }

  lemma AtMostOne(packet: Incoming)
    requires packet.Received?
    ensures |Judged(packet)| <= 1
  {}

  /** No two handlers own an object in common. */
  ghost predicate Apart(handlers: seq<Handler?>) {
    forall a, b :: 0 <= a < b < |handlers| && handlers[a] != null && handlers[b] != null
            ==> handlers[a].owned !! handlers[b].owned
  }

  /** The file a server has to serve. */
  function File(server: Server): seq<Byte> {
    if server.payload.Some? then server.payload.value else []
  }

  /** A handler at work on this server, for this client, over this network, after so many turns. */
  ghost predicate Serving(h: Handler, server: Server, started: Started, script: nat -> S.Turn, acts: nat)
    reads h.owned, server`retries
  {
    && h in h.owned && server !in h.owned && h.server == server && h.Valid()
    && h.started == started && h.conn.script == script && h.acts == acts
  }

  lemma StandsAlone(h: Handler, server: Server, started: Started, script: nat -> S.Turn, acts: nat)
    requires Serving(h, server, started, script, acts)
    ensures h.started == started
    ensures h.State() == S.Run(server.Content(), server.retries, Turns(script, acts))
    ensures h.conn.sent == S.Sent(server.Content(), server.retries, Turns(script, acts))
    ensures var file, bodies := File(server), Codec.Bodies(S.Collapse(h.conn.sent));
            bodies <= file && (h.outcome.Complete? ==> bodies == file)
  {
    hide S.Run, S.Sent, S.Collapse, Codec.Bodies;
    S.SentBodies(server.Content(), server.retries, Turns(script, acts));
  }

  /** Everything that belongs to some handler. */
  ghost function Owned(handlers: seq<Handler?>): set<object> {
    set j, o | 0 <= j < |handlers| && handlers[j] != null && o in handlers[j].owned :: o
  }

  /** The handlers after these events. */
  ghost predicate Pool(server: Server, dials: nat -> Option<nat -> S.Turn>, events: seq<Event>,
                       started: seq<Started>, handlers: seq<Handler?>)
    reads Owned(handlers), server`retries
  {
    && started == Accepted(Arrivals(events)) && |handlers| == |started|
    && Apart(handlers)
    && (forall j :: 0 <= j < |handlers| ==> (handlers[j] == null <==> dials(j).None?))
    && (forall j :: 0 <= j < |handlers| && handlers[j] != null ==>
          Serving(handlers[j], server, started[j], dials(j).value, Acts(events, j)))
  }

  /** The event finds no one to act on it. */
  predicate Idle(events: seq<Event>, e: Event, handlers: seq<Handler?>) {
    match e
    case Begin => true
    case Arrive(packet) => packet.ReadError? || Closed(Arrivals(events))
    case Act(j) => j >= |handlers| || handlers[j] == null
  }

  lemma PoolIdle(server: Server, dials: nat -> Option<nat -> S.Turn>, events: seq<Event>, e: Event,
                 started: seq<Started>, handlers: seq<Handler?>)
    requires Pool(server, dials, events, started, handlers)
    ensures Idle(events, e, handlers) ==> Pool(server, dials, events + [e], started, handlers)
    ensures Closed(Arrivals(events + [e])) == (Closed(Arrivals(events)) || e == Arrive(ReadError))
  {
    hide Accepted, Judged, Arrivals, Acts, Closed, Serving;
    OneMoreEvent(events, e);
    if e.Arrive? {
      AcceptedNext(Arrivals(events), e.packet);
    }
  }

  /** The goroutine of one handler makes a turn; the others do not notice. */
  method Run(server: Server, dials: nat -> Option<nat -> S.Turn>, ghost events: seq<Event>,
             ghost started: seq<Started>, handlers: seq<Handler?>, j: nat)
    requires Pool(server, dials, events, started, handlers) && j < |handlers| && handlers[j] != null
    modifies Owned(handlers)
    ensures Pool(server, dials, events + [Act(j)], started, handlers) && unchanged(server)
  {
    hide Accepted, Arrivals, Acts, Handler.Valid;
    OneMoreEvent(events, Act(j));
    assert forall o :: o in handlers[j].owned ==> o in Owned(handlers);
    handlers[j].Turn();
  }

  /** A packet is read: a request that is accepted starts a handler, unless its client cannot be dialled. */
  method Receive(server: Server, rrq: ReadReq, dials: nat -> Option<nat -> S.Turn>, ghost events: seq<Event>,
                 before: seq<Started>, handlers: seq<Handler?>, packet: Incoming)
    returns (started: seq<Started>, after: seq<Handler?>)
    requires Pool(server, dials, events, before, handlers) && rrq !in Owned(handlers)
    requires packet.Received? && !Closed(Arrivals(events))
    modifies rrq
    ensures Pool(server, dials, events + [Arrive(packet)], started, after)
    ensures fresh(Owned(after) - Owned(handlers))
  {
    hide Accepted, Arrivals, Acts, Judged, Handler.Valid, Closed;
    OneMoreEvent(events, Arrive(packet));
    AcceptedNext(Arrivals(events), packet);
    NotStartedYet(events, |before|);
    AtMostOne(packet);
    var admitted := server.Admit(packet, rrq);
    started := before + admitted;
    if admitted == [] {
      return started, handlers;
    }
    var h: Handler? := null;
    if dials(|before|).Some? {
      h := new Handler(server, admitted[0], dials(|before|).value);
    }
    after := handlers + [h];
  }

  /** Serve() and its handlers under an arbitrary schedule. Exactly the acceptable requests before the first
      failed read start a handler, in order, whatever the others are doing; each handler whose client can
      be dialled has done exactly what it would have done alone in as many turns; and the retry count and
      the timeout they all read stay as the first Serve() left them. */
  method Interleave(server: Server, dials: nat -> Option<nat -> S.Turn>, events: seq<Event>)
    returns (started: seq<Started>, handlers: seq<Handler?>)
    modifies server
    ensures server.payload.None? ==> started == [] && handlers == [] && unchanged(server)
    ensures server.payload.Some? ==>
              && started == Accepted(Arrivals(events)) && |handlers| == |started|
              && server.retries == (if old(server.retries) == 0 then 10 else old(server.retries))
              && server.timeout == (if old(server.timeout) == 0 then 6_000_000_000 else old(server.timeout))
    ensures Apart(handlers)
    ensures forall j :: 0 <= j < |handlers| ==> (handlers[j] == null <==> dials(j).None?)
    ensures forall j :: 0 <= j < |handlers| && handlers[j] != null ==>
              var h, turns := handlers[j], Turns(dials(j).value, Acts(events, j));
              && h.started == started[j]
              && h.State() == S.Run(server.Content(), server.retries, turns)
              && h.conn.sent == S.Sent(server.Content(), server.retries, turns)
    ensures forall j :: 0 <= j < |handlers| && handlers[j] != null ==>
              var bodies := Codec.Bodies(S.Collapse(handlers[j].conn.sent));
              && bodies <= server.payload.value
              && (handlers[j].outcome.Complete? ==> bodies == server.payload.value)
  {
    hide S.Run, S.Sent, Accepted, Judged, Closed, Arrivals, Acts, Handler.Valid, Handler.State, Turns, Serving;
    hide S.Collapse, Codec.Bodies;
    started, handlers := [], [];
    if server.payload.None? {
      return;
    }
    server.FillDefaults();
    var rrq := new ReadReq();
    var closed := false;
    NothingYet();
    assert events[..0] == [];
    for k := 0 to |events|
      invariant server.retries == (if old(server.retries) == 0 then 10 else old(server.retries))
      invariant server.timeout == (if old(server.timeout) == 0 then 6_000_000_000 else old(server.timeout))
      invariant fresh(rrq) && closed == Closed(Arrivals(events[..k]))
      invariant Pool(server, dials, events[..k], started, handlers)
      invariant fresh(Owned(handlers)) && rrq !in Owned(handlers)
    {
      hide Pool;
      assert events[..k + 1] == events[..k] + [events[k]];
      PoolIdle(server, dials, events[..k], events[k], started, handlers);
      match events[k]
      case Begin =>
        server.FillDefaults();
      case Arrive(packet) =>
        if packet.ReadError? {
          closed := true;
        } else if !closed {
          started, handlers := Receive(server, rrq, dials, events[..k], started, handlers, packet);
        }
      case Act(j) =>
        if j < |handlers| && handlers[j] != null {
          Run(server, dials, events[..k], started, handlers, j);
        }
    }
    assert events[..|events|] == events;
    forall j | 0 <= j < |handlers| && handlers[j] != null
      ensures var h, turns := handlers[j], Turns(dials(j).value, Acts(events, j));
              && h.started == started[j]
              && h.State() == S.Run(server.Content(), server.retries, turns)
              && h.conn.sent == S.Sent(server.Content(), server.retries, turns)
      ensures var bodies := Codec.Bodies(S.Collapse(handlers[j].conn.sent));
              && bodies <= server.payload.value
              && (handlers[j].outcome.Complete? ==> bodies == server.payload.value)
    {
      StandsAlone(handlers[j], server, started[j], dials(j).value, Acts(events, j));
    }
  }

  lemma MoreTurns(script: nat -> S.Turn, a: nat, b: nat)
    requires a <= b
    ensures Turns(script, b) == Turns(script, a) + seq(b - a, i requires 0 <= i < b - a => script(a + i))
  {}

  lemma {:induction false} EndKept(payload: seq<Byte>, retries: nat, script: nat -> S.Turn, a: nat, b: nat)
    requires a <= b && !S.Run(payload, retries, Turns(script, a)).outcome.Running?
    ensures S.Run(payload, retries, Turns(script, b)) == S.Run(payload, retries, Turns(script, a))
    ensures S.Sent(payload, retries, Turns(script, b)) == S.Sent(payload, retries, Turns(script, a))
  {
    hide S.Run, S.Sent, Turns;
    MoreTurns(script, a, b);
    S.EndIsFinal(payload, retries, Turns(script, a), seq(b - a, i requires 0 <= i < b - a => script(a + i)));
  }

  /** Whatever the schedule, a handler with acts turns behind it is over once these are as many as a transfer
      can take, and then has ended as handle() does by itself on the same network, after n turns, and has
      written the same datagrams. */
  lemma {:induction false} EndsAsHandle(payload: seq<Byte>, retries: nat, script: nat -> S.Turn, acts: nat, n: nat)
    requires !S.Run(payload, retries, Turns(script, n)).outcome.Running?
    ensures acts >= Most(payload, retries) ==> !S.Run(payload, retries, Turns(script, acts)).outcome.Running?
    ensures !S.Run(payload, retries, Turns(script, acts)).outcome.Running? ==>
              && S.Run(payload, retries, Turns(script, acts)) == S.Run(payload, retries, Turns(script, n))
              && S.Sent(payload, retries, Turns(script, acts)) == S.Sent(payload, retries, Turns(script, n))
  {
    hide S.Run, S.Sent;
    S.Terminates(payload, retries, Turns(script, acts));
    if !S.Run(payload, retries, Turns(script, acts)).outcome.Running? {
      if acts <= n {
        EndKept(payload, retries, script, acts, n);
      } else {
        EndKept(payload, retries, script, n, acts);
      }
    }
  }
}
