/** The server of chapter6/server.go as it runs: handle() with its packet objects, its reused buffer and
    its labelled loops, and Serve() handing each accepted request to a handler of its own. */
module Server {
  import opened Bytes
  import opened Tftp
  import Codec
  import S = Sender

  datatype ReadResult = Arrived | TimedOut | Failed

  /** The connected socket of one handler. The network is a script: what happens to the t-th write and
      to the read that follows it. */
  class Conn {
    const script: nat -> S.Turn
    var turn: nat
    var sent: seq<Datagram>

    constructor (script: nat -> S.Turn)
      ensures this.script == script && turn == 0 && sent == []
    {
      this.script := script;
      turn, sent := 0, [];
    }

    /** A UDP write takes the whole datagram or fails. */
    method Write(p: Datagram) returns (n: nat, failed: bool)
      modifies this
      ensures failed == script(old(turn)).WriteFault?
      ensures failed ==> n == 0 && turn == old(turn) + 1 && sent == old(sent)
      ensures !failed ==> n == |p| && turn == old(turn) && sent == old(sent) + [p]
    {
      if script(turn).WriteFault? {
        turn := turn + 1;
        return 0, true;
      }
      sent := sent + [p];
      return |p|, false;
    }

    /** A read overwrites the front of the buffer and no more. */
    method Read(buf: array<Byte>) returns (r: ReadResult)
      requires script(turn).Written?
      modifies this`turn, buf
      ensures turn == old(turn) + 1
      ensures forall i :: 0 <= i < buf.Length ==>
                var reply := script(old(turn)).reply;
                buf[i] == if reply.Arrived? && i < |reply.datagram| then reply.datagram[i] else old(buf[i])
      ensures match script(old(turn)).reply
              case Timeout => r == TimedOut && buf[..] == old(buf[..])
              case Fatal => r == Failed && buf[..] == old(buf[..])
              case Arrived(d) => r == Arrived && buf[..] == Overlay(old(buf[..]), d)
    {
      var reply := script(turn).reply;
      turn := turn + 1;
      match reply
      case Timeout => r := TimedOut;
      case Fatal => r := Failed;
      case Arrived(d) =>
        var n := Min(|d|, buf.Length);
        forall i | 0 <= i < n {
          buf[i] := d[i];
        }
        OverlayAt(old(buf[..]), d);
        assert buf[..] == Overlay(old(buf[..]), d);
        r := Arrived;
    }
  }

  /** The first n turns of a script. */
  function Turns(script: nat -> S.Turn, n: nat): seq<S.Turn> {
    seq(n, i requires 0 <= i < n => script(i))
  }

  lemma TurnsGrow(script: nat -> S.Turn, n: nat)
    ensures Turns(script, n + 1) == Turns(script, n) + [script(n)]
  {}

  /** Where a handler stands at its n-th turn, and what it has written. */
  predicate At(payload: seq<Byte>, retries: nat, script: nat -> S.Turn, n: nat, sent: seq<Datagram>, s: S.State) {
    && s == S.Run(payload, retries, Turns(script, n))
    && sent == S.Sent(payload, retries, Turns(script, n))
  }

  /** The most turns a handler can take. */
  function Most(payload: seq<Byte>, retries: nat): nat {
    retries * (|payload| / BLOCK_SIZE + 1)
  }

  /** What the reader of the data packet has left once block k has been taken from it. */
  function Unread(payload: seq<Byte>, k: nat): seq<Byte> {
    payload[Min(k * BLOCK_SIZE, |payload|)..]
  }

  /** The data packet object is about to make block k. */
  predicate Ready(payload: seq<Byte>, k: nat, block: Uint16, rest: seq<Byte>) {
    1 <= k <= BlockCount(payload) && block == (k - 1) % 0x1_0000 && rest == Unread(payload, k - 1)
  }

  /** Block k with i retries to go. */
  function Fresh(k: nat, i: nat, buf: seq<Byte>): S.State {
    S.State(k, i, buf, if i == 0 then S.Exhausted else S.Running)
  }

  lemma StartOfAll(payload: seq<Byte>, retries: nat, script: nat -> S.Turn, buf: seq<Byte>)
    requires |buf| == DATAGRAM_SIZE && forall i :: 0 <= i < |buf| ==> buf[i] == 0
    ensures At(payload, retries, script, 0, [], Fresh(1, retries, buf))
    ensures Ready(payload, 1, 0, payload)
    ensures 0 <= Most(payload, retries) && 1 <= BlockCount(payload)
  {
    assert Turns(script, 0) == [];
    S.NoTurns(payload, retries);
    assert buf == Zeros(DATAGRAM_SIZE);
  }

  /** One turn of the loop, seen from the outside. */
  lemma TurnPlayed(payload: seq<Byte>, retries: nat, script: nat -> S.Turn, n: nat, sent: seq<Datagram>, s: S.State)
    requires At(payload, retries, script, n, sent, s) && s.outcome.Running?
    ensures S.Valid(payload, retries, s)
    ensures At(payload, retries, script, n + 1,
               sent + (if script(n).Written? then [Tftp.Packet(payload, s.block)] else []),
               S.OnTurn(payload, retries, s, script(n)))
    ensures n + 1 <= Most(payload, retries)
  {
    hide S.Run, S.OnTurn, S.Sent, Tftp.Packet;
    TurnsGrow(script, n);
    S.OneMoreTurn(payload, retries, Turns(script, n), script(n));
    S.TurnLeft(payload, retries, Turns(script, n));
  }

  /** A handler that has returned makes no more of its turns. */
  lemma TurnIdle(payload: seq<Byte>, retries: nat, script: nat -> S.Turn, n: nat, sent: seq<Datagram>, s: S.State)
    requires At(payload, retries, script, n, sent, s) && !s.outcome.Running?
    ensures At(payload, retries, script, n + 1, sent, s)
  {
    hide S.Run, S.OnTurn, S.Sent, Tftp.Packet;
    TurnsGrow(script, n);
    S.OneMoreTurn(payload, retries, Turns(script, n), script(n));
    S.OverIsOver(payload, retries, s, script(n));
    assert sent + [] == sent;
  }

  lemma Retried(k: nat, i: nat, buf: seq<Byte>)
    requires i >= 1
    ensures S.Retry(S.State(k, i, buf, S.Running))
         == Fresh(k, i - 1, buf)
  {}

  lemma Marshalled(payload: seq<Byte>, k: nat, block: Uint16, rest: seq<Byte>)
    requires Ready(payload, k, block, rest)
    ensures (block + 1) % 0x1_0000 == k % 0x1_0000
    ensures EncodeData(k % 0x1_0000, rest[..Min(BLOCK_SIZE, |rest|)]) == Tftp.Packet(payload, k)
    ensures rest[Min(BLOCK_SIZE, |rest|)..] == Unread(payload, k)
    ensures 1 <= k <= BlockCount(payload) && |Tftp.Packet(payload, k)| <= DATAGRAM_SIZE
    ensures |Tftp.Packet(payload, k)| == DATAGRAM_SIZE
        ==> k < BlockCount(payload) && Ready(payload, k + 1, k % 0x1_0000, Unread(payload, k))
  {
    PacketSize(payload, k);
    Codec.NextBlock(payload, k);
    Codec.Successor(k);
  }

  /** The outcomes of one turn, case by case. */
  lemma TurnOutcomes(payload: seq<Byte>, retries: nat, s: S.State, turn: S.Turn)
    requires S.Valid(payload, retries, s) && s.outcome.Running?
    ensures var r := S.OnTurn(payload, retries, s, turn);
            match turn
            case WriteFault => r == s.(outcome := S.WriteFailed)
            case Written(Timeout) => r == S.Retry(s)
            case Written(Fatal) => r == s.(outcome := S.ReadFailed)
            case Written(Arrived(d)) =>
              var t := s.(buf := Overlay(s.buf, d));
              if DecodeAck(t.buf).Some? then
                if DecodeAck(t.buf).value == s.block % 0x1_0000 then
                  if s.block == BlockCount(payload) then r == t.(outcome := S.Complete)
                  else r == S.State(s.block + 1, retries, t.buf, S.Running)
                else r == S.Retry(t)
              else if DecodeErr(t.buf).Some? then r == t.(outcome := S.ClientError)
              else r == S.Retry(t)
    ensures |Tftp.Packet(payload, s.block)| == DATAGRAM_SIZE <==> s.block < BlockCount(payload)
  {
    PacketSize(payload, s.block);
    hide Tftp.Packet, DecodeAck, DecodeErr, Overlay;
  }

  /** What one pass of the retry loop leads to. */
  datatype Verdict = Acked | Again | Stop(outcome: S.Outcome)

  type Uint8 = n: int | 0 <= n < 0x100

  const DEFAULT_RETRIES: Uint8 := 10
  const SECOND: int := 1_000_000_000
  const DEFAULT_TIMEOUT: int := 6 * SECOND

  /** What happens at the listening socket. */
  datatype Incoming = ReadError | Received(from: nat, datagram: Datagram)

  datatype ServeError = NilConnection | PayloadRequired | ConnectionClosed

  /** A handler as it is started: who it serves and the request it is passed. */
  datatype Started = Started(from: nat, request: Request)

  /** The handler a received packet leads to, if any: the packet is judged by its own bytes in a zeroed
      buffer. */
  function Judged(packet: Incoming): seq<Started>
    requires packet.Received?
  {
    match DecodeRequest(Overlay(Zeros(DATAGRAM_SIZE), packet.datagram))
    case None => []
    case Some(q) => [Started(packet.from, q)]
  }

  /** The handlers that the packets arriving before the socket fails lead to. */
  function Accepted(incoming: seq<Incoming>): seq<Started> {
    if incoming == [] || incoming[0].ReadError? then [] else Judged(incoming[0]) + Accepted(incoming[1..])
  }

  lemma AcceptedFrom(started: seq<Started>, incoming: seq<Incoming>, i: nat)
    requires i <= |incoming|
    ensures started + Accepted(incoming[i..])
         == if i == |incoming| || incoming[i].ReadError? then started
            else started + Judged(incoming[i]) + Accepted(incoming[i + 1..])
  {
    hide Judged;
    if i < |incoming| {
      assert incoming[i..][1..] == incoming[i + 1..];
    }
  }

  /** What the bytes of the datagram, read into a zeroed buffer, lead to: an acceptable request at the front
      starts a handler for it, with the address the packet came from; anything else starts none. */
  lemma JudgedExactly(from: nat, d: Datagram, s: Started)
    ensures |Judged(Received(from, d))| <= 1
    ensures var buf := (d + Zeros(516))[..516];
            s in Judged(Received(from, d))
            <==> && s.from == from && s.request.filename != [] && NulFree(s.request.filename)
                 && Lower(s.request.mode) == OCTET && EncodeRequest(s.request) <= buf
  {
    hide DecodeRequest, Lower, NulFree, EncodeRequest;
    assert Overlay(Zeros(DATAGRAM_SIZE), d) == (d + Zeros(516))[..516];
    Codec.RequestExactly((d + Zeros(516))[..516], s.request);
  }

  /** A request that is sent starts a handler for just this request if it is one that can be served. If it is
      not and has no NUL in its strings, it starts none; otherwise it is the request up to these NULs that is
      served, or not. */
  lemma RequestServed(from: nat, q: Request)
    ensures var started := Accepted([Received(from, EncodeRequest(q))]);
            && (Codec.Sendable(q) ==> started == [Started(from, Request(q.filename, Codec.SentMode(q)))])
            && (!Codec.Sendable(q) && NulFree(q.filename) && NulFree(Codec.SentMode(q)) ==> started == [])
            && (var seen := Codec.Seen(q);
                started == if seen.mode != [] && Codec.Sendable(seen) then [Started(from, seen)] else [])
  {
    hide DecodeRequest, Lower, NulFree, Overlay;
    var packet := Received(from, EncodeRequest(q));
    assert [packet][1..] == [];
    Codec.RequestSeen(q);
    Codec.SeenWhole(q);
  }

  /** A filename with a NUL in it: a request that cannot be served as it is, and for which nevertheless a
      handler is started, with what stands before and behind the NUL as filename and mode. */
  lemma NulInFilename(from: nat, q: Request, mode: seq<Byte>)
    requires Codec.Sendable(q) && q.mode != []
    ensures var sent := Request(q.filename + [0] + q.mode, mode);
            !Codec.Sendable(sent) && Accepted([Received(from, EncodeRequest(sent))]) == [Started(from, q)]
  {
    hide Accepted, Lower, NulFree, EncodeRequest;
    Codec.SeenWhole(q);
    Codec.SeenBehindNul(q.filename, q.mode, mode);
    RequestServed(from, Request(q.filename + [0] + q.mode, mode));
  }

  /** Every handler that Serve starts comes from a packet that arrived before any failure, has its address
      and a request that its bytes begin with. */
  lemma {:induction false} StartedFrom(incoming: seq<Incoming>, j: nat) returns (i: nat)
    requires j < |Accepted(incoming)|
    ensures i < |incoming| && forall k :: 0 <= k <= i ==> incoming[k].Received?
    ensures var s := Accepted(incoming)[j];
            && s.from == incoming[i].from && s in Judged(incoming[i])
            && EncodeRequest(s.request) <= (incoming[i].datagram + Zeros(516))[..516]
  {
    hide Judged, NulFree, Lower, EncodeRequest;
    var first := Judged(incoming[0]);
    if j < |first| {
      i := 0;
      JudgedExactly(incoming[0].from, incoming[0].datagram, first[j]);
    } else {
      var k := StartedFrom(incoming[1..], j - |first|);
      i := k + 1;
    }
  }

  class Server {
    const payload: Option<seq<Byte>>
    var retries: Uint8
    var timeout: int

    constructor (payload: Option<seq<Byte>>, retries: Uint8, timeout: int)
      ensures this.payload == payload && this.retries == retries && this.timeout == timeout
    {
      this.payload := payload;
      this.retries, this.timeout := retries, timeout;
    }

    /** One pass of the retry loop: write, wait, and look at what came. */
    method Pass(conn: Conn, data: Datagram, dataPkt: Data, ackPkt: Ack, errPkt: Err, buf: array<Byte>,
                ghost content: seq<Byte>, ghost s: S.State)
      returns (n: nat, verdict: Verdict)
      requires S.Valid(content, retries, s) && s.outcome.Running? && buf[..] == s.buf
      requires data == Tftp.Packet(content, s.block) && dataPkt.block == s.block % 0x1_0000
      modifies conn, ackPkt, errPkt, buf
      ensures conn.turn == old(conn.turn) + 1
      ensures conn.sent == old(conn.sent) + if conn.script(old(conn.turn)).Written? then [data] else []
      ensures n == if conn.script(old(conn.turn)).Written? then |data| else 0
      ensures var r := S.OnTurn(content, retries, s, conn.script(old(conn.turn)));
              match verdict
              case Acked => && n == |data|
                            && r == if n == DATAGRAM_SIZE then Fresh(s.block + 1, retries, buf[..])
                                    else S.State(s.block, s.left, buf[..], S.Complete)
              case Again => n == |data| && r == S.Retry(S.State(s.block, s.left, buf[..], S.Running))
              case Stop(outcome) => r == S.State(s.block, s.left, buf[..], outcome) && !outcome.Running?
    {
      hide S.OnTurn, S.Run, S.Sent, Tftp.Packet, DecodeAck, DecodeErr, Overlay, S.Advance;
      TurnOutcomes(content, retries, s, conn.script(conn.turn));
      PacketSize(content, s.block);
      assert conn.sent + [] == conn.sent;
      var failed: bool;
      n, failed := conn.Write(data);
      if failed {
        return n, Stop(S.WriteFailed);
      }
      var r := conn.Read(buf);
      if r == TimedOut {
        return n, Again;
      }
      if r == Failed {
        return n, Stop(S.ReadFailed);
      }
      var ok := ackPkt.UnmarshalBinary(buf[..]);
      if ok {
        if ackPkt.block == dataPkt.block {
          return n, Acked;
        }
      } else {
        ok := errPkt.UnmarshalBinary(buf[..]);
        if ok {
          return n, Stop(S.ClientError);
        }
      }
      return n, Again;
    }

    /** What a handler sends: a nil payload reads as an empty one. */
    function Content(): seq<Byte> {
      if payload.None? then [] else payload.value
    }

    /** The retry loop: block k is written until it is acknowledged, the retries are spent or something
        ends the transfer. */
    method Transmit(conn: Conn, data: Datagram, dataPkt: Data, ackPkt: Ack, errPkt: Err, buf: array<Byte>,
                    ghost k: nat)
      returns (n: nat, verdict: Verdict, ghost s: S.State)
      requires At(Content(), retries, conn.script, conn.turn, conn.sent, Fresh(k, retries, buf[..]))
      requires 1 <= k <= BlockCount(Content()) && conn.turn <= Most(Content(), retries)
      requires data == Tftp.Packet(Content(), k) && dataPkt.block == k % 0x1_0000
      modifies conn, ackPkt, errPkt, buf
      ensures At(Content(), retries, conn.script, conn.turn, conn.sent, s)
      ensures conn.turn <= Most(Content(), retries)
      ensures match verdict
              case Acked => && n == |data|
                            && if n == DATAGRAM_SIZE then s == Fresh(k + 1, retries, buf[..])
                               else s.outcome.Complete?
              case Again => false
              case Stop(outcome) => s.outcome == outcome && !outcome.Running?
    {
      hide At, Content, S.OnTurn, S.Run, S.Sent, S.Retry, S.Valid, Tftp.Packet, BlockCount, Most, Turns;
      var i: nat := retries;
      s := Fresh(k, retries, buf[..]);
      label RETRY: while i > 0
        invariant At(Content(), retries, conn.script, conn.turn, conn.sent, s)
        invariant s == Fresh(k, i, buf[..]) && conn.turn <= Most(Content(), retries)
        decreases i
      {
        TurnPlayed(Content(), retries, conn.script, conn.turn, conn.sent, s);
        ghost var turn := conn.script(conn.turn);
        n, verdict := Pass(conn, data, dataPkt, ackPkt, errPkt, buf, Content(), s);
        s := S.OnTurn(Content(), retries, s, turn);
        match verdict {
          case Again =>
            Retried(k, i, buf[..]);
          case _ =>
            return n, verdict, s;
        }
        i := i - 1;
      }
      return DATAGRAM_SIZE, Stop(S.Exhausted), s;
    }

    lemma Finished(conn: Conn, s: S.State)
      requires At(Content(), retries, conn.script, conn.turn, conn.sent, s)
      requires conn.turn <= Most(Content(), retries)
      ensures var turns := Turns(conn.script, conn.turn);
              s == S.Run(Content(), retries, turns) && conn.sent == S.Sent(Content(), retries, turns)
      ensures var file := if payload.Some? then payload.value else [];
              && Codec.Bodies(S.Collapse(conn.sent)) <= file
              && (s.outcome.Complete? ==> Codec.Bodies(S.Collapse(conn.sent)) == file)
              && conn.turn <= retries * (|file| / 512 + 1)
    {
      hide S.Run, S.Sent, S.Collapse, Codec.Bodies;
      S.SentBodies(Content(), retries, Turns(conn.script, conn.turn));
    }

    /** The whole of handle(). When the client cannot be dialled (None) nothing is sent. On a connected
        socket it plays the automaton of Sender to its end, turn by turn and datagram by datagram. */
    method Handle(dialled: Option<Conn>) returns (outcome: Option<S.Outcome>)
      requires dialled.Some? ==> dialled.value.turn == 0 && dialled.value.sent == []
      modifies if dialled.Some? then {dialled.value} else {}
      ensures outcome.None? <==> dialled.None?
      ensures dialled.Some? ==>
                var conn := dialled.value;
                var turns := Turns(conn.script, conn.turn);
                && outcome.value == S.Run(Content(), retries, turns).outcome && !outcome.value.Running?
                && conn.sent == S.Sent(Content(), retries, turns)
      ensures dialled.Some? ==>
                var conn, file := dialled.value, if payload.Some? then payload.value else [];
                && Codec.Bodies(S.Collapse(conn.sent)) <= file
                && (outcome == Some(S.Complete) ==> Codec.Bodies(S.Collapse(conn.sent)) == file)
                && conn.turn <= retries * (|file| / 512 + 1)
    {
      hide At, Content, Fresh, S.OnTurn, S.Run, S.Sent, S.Start, S.Retry, S.Valid, S.Collapse, Codec.Bodies;
      hide Tftp.Packet, EncodeData, BlockCount, Ready, Unread, Most, Turns;
      if dialled.None? {
        return None;
      }
      var conn := dialled.value;
      var reader := new Reader(Content());
      var dataPkt := new Data(reader);
      var ackPkt := new Ack();
      var errPkt := new Err();
      var buf := new Byte[DATAGRAM_SIZE](_ => 0);
      var n: nat := DATAGRAM_SIZE;
      ghost var k, s := 1, Fresh(1, retries, buf[..]);
      StartOfAll(Content(), retries, conn.script, buf[..]);
      label NEXTPACKET: while n == DATAGRAM_SIZE
        invariant unchanged(this)
        invariant fresh(dataPkt) && fresh(reader) && fresh(ackPkt) && fresh(errPkt) && fresh(buf)
        invariant dataPkt.payload == reader
        invariant At(Content(), retries, conn.script, conn.turn, conn.sent, s)
        invariant if n == DATAGRAM_SIZE
                  then s == Fresh(k, retries, buf[..]) && Ready(Content(), k, dataPkt.block, reader.rest)
                  else s.outcome.Complete?
        invariant conn.turn <= Most(Content(), retries) && k <= BlockCount(Content())
        decreases BlockCount(Content()) - k, n
      {
        Marshalled(Content(), k, dataPkt.block, reader.rest);
        var data, failed := dataPkt.MarshalBinary();
        if failed {
          assert false;
        }
        var verdict: Verdict;
        n, verdict, s := Transmit(conn, data, dataPkt, ackPkt, errPkt, buf, k);
        if verdict.Stop? {
          Finished(conn, s);
          return Some(verdict.outcome);
        }
        k := if n == DATAGRAM_SIZE then k + 1 else k;
      }
      Finished(conn, s);
      return Some(S.Complete);
    }

    /** The defaults are filled in where a field is zero, and only there. */
    method FillDefaults()
      modifies this
      ensures retries == (if old(retries) == 0 then 10 else old(retries))
      ensures timeout == (if old(timeout) == 0 then 6_000_000_000 else old(timeout))
    {
      if retries == 0 {
        retries := DEFAULT_RETRIES;
      }
      if timeout == 0 {
        timeout := DEFAULT_TIMEOUT;
      }
    }

    /** A received packet is read into a fresh buffer and judged; the request object is reused. */
    method Admit(packet: Incoming, rrq: ReadReq) returns (started: seq<Started>)
      requires packet.Received?
      modifies rrq
      ensures started == Judged(packet)
    {
      hide DecodeRequest, Overlay, Zeros, FirstNul, UpToNul, GetU16;
      var buf := Overlay(Zeros(DATAGRAM_SIZE), packet.datagram);
      var ok := rrq.UnmarshalBinary(buf);
      if !ok {
        return [];
      }
      return [Started(packet.from, Request(rrq.filename, rrq.mode))];
    }

    /** Serve() on a socket (None: a nil one), until it fails or nothing more arrives: the defaults are
        filled in once, and one handler is started for each acceptable request, with a copy of it. */
    method Serve(conn: Option<seq<Incoming>>) returns (error: ServeError, started: seq<Started>)
      modifies this
      ensures conn.None? || payload.None? ==>
                && error == (if conn.None? then NilConnection else PayloadRequired)
                && started == [] && unchanged(this)
      ensures conn.Some? && payload.Some? ==>
                && error == ConnectionClosed && started == Accepted(conn.value)
                && retries == (if old(retries) == 0 then 10 else old(retries))
                && timeout == (if old(timeout) == 0 then 6_000_000_000 else old(timeout))
    {
      if conn.None? {
        return NilConnection, [];
      }
      if payload.None? {
        return PayloadRequired, [];
      }
      FillDefaults();
      hide Accepted, Judged;
      var rrq := new ReadReq();
      var incoming := conn.value;
      var i := 0;
      started := [];
      assert incoming[0..] == incoming;
      while true
        invariant 0 <= i <= |incoming| && fresh(rrq)
        invariant started + Accepted(incoming[i..]) == Accepted(incoming)
        invariant retries == (if old(retries) == 0 then 10 else old(retries))
        invariant timeout == (if old(timeout) == 0 then 6_000_000_000 else old(timeout))
        decreases |incoming| - i
      {
        AcceptedFrom(started, incoming, i);
        if i == |incoming| || incoming[i].ReadError? {
          return ConnectionClosed, started;
        }
        var handler := Admit(incoming[i], rrq);
        started := started + handler;
        i := i + 1;
      }
    }
  }
}
