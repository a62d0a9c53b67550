/** What the packet layouts of chapter6/tftp.go guarantee: round trips over reused and zero-padded
    buffers, and the payload cut into packets and put together again. */
module Codec {
  import opened Bytes
  import opened Tftp

  /** The packets byte by byte, as README.md draws them. */
  lemma Layouts(n: Uint16, text: seq<Byte>, q: Request)
    ensures EncodeData(n, text) == [0, 3, n / 256, n % 256] + text
    ensures EncodeAck(n) == [0, 4, n / 256, n % 256]
    ensures EncodeErr(n, text) == [0, 5, n / 256, n % 256] + text + [0]
    ensures EncodeRequest(q)
         == [0, 1] + q.filename + [0] + (if q.mode == [] then [111, 99, 116, 101, 116] else q.mode) + [0]
  {}

  // ---------------------------------------------------------------- which byte strings are packets

  lemma PutU16Of(p: seq<Byte>, n: Uint16)
    requires |p| >= 2
    ensures GetU16(p) == n <==> p[..2] == PutU16(n)
  {
    if p[..2] == PutU16(n) {
      assert p[0] == p[..2][0] && p[1] == p[..2][1];
    }
  }

  lemma TwoBytes(n: Uint16)
    ensures |PutU16(n)| == 2
  {}

  lemma HeaderOf(p: Datagram, op: Uint16, n: Uint16)
    requires |p| >= 4
    ensures GetU16(p) == op && GetU16(p[2..4]) == n <==> p[..4] == PutU16(op) + PutU16(n)
  {
    hide GetU16, PutU16;
    PutU16Of(p, op);
    PutU16Of(p[2..4], n);
    assert |PutU16(op)| == |PutU16(n)| == 2 by { TwoBytes(op); TwoBytes(n); }
    assert p[..4] == p[..2] + p[2..4];
    assert p[..4][..2] == p[..2] && p[..4][2..] == p[2..4][..2];
  }

  /** DATA packets are exactly what can be marshalled from at most 512 bytes. */
  lemma DataExactly(p: Datagram, n: Uint16, body: seq<Byte>)
    ensures DecodeData(p) == Some((n, body)) <==> p == EncodeData(n, body) && |body| <= 512
  {
    hide GetU16, PutU16;
    TwoBytes(OP_DATA);
    TwoBytes(n);
    if |p| >= 4 {
      HeaderOf(p, OP_DATA, n);
      assert p == p[..4] + p[4..];
    }
  }

  /** An ACK is whatever begins with one; what follows is not looked at. */
  lemma AckExactly(p: Datagram, n: Uint16)
    ensures DecodeAck(p) == Some(n) <==> EncodeAck(n) <= p
  {
    hide GetU16, PutU16;
    TwoBytes(OP_ACK);
    TwoBytes(n);
    if |p| >= 4 {
      HeaderOf(p, OP_ACK, n);
    }
  }

  /** A terminated string with something behind it is read up to its terminator. */
  lemma FieldOf(s: seq<Byte>, rest: seq<Byte>)
    requires NulFree(s)
    ensures FirstNul(s + [0] + rest).Some? && UpToNul(s + [0] + rest) == s
    ensures (s + [0] + rest)[|s| + 1..] == rest
  {
    FirstNulOf(s, rest);
  }

  /** An ERROR is whatever begins with one whose message has no NUL in it. */
  lemma ErrExactly(p: Datagram, code: Uint16, message: seq<Byte>)
    ensures DecodeErr(p) == Some((code, message)) <==> NulFree(message) && EncodeErr(code, message) <= p
  {
    hide GetU16, PutU16, FirstNul, TrimRightNul, NulFree;
    TwoBytes(OP_ERR);
    TwoBytes(code);
    if |p| >= 4 {
      HeaderOf(p, OP_ERR, code);
      TrimmedString(p[4..]);
      var head := PutU16(OP_ERR) + PutU16(code);
      if DecodeErr(p) == Some((code, message)) {
        assert p == head + p[4..] && p[4..] == message + [0] + p[4..][|message| + 1..];
        assert p == EncodeErr(code, message) + p[4..][|message| + 1..];
      }
      if NulFree(message) && EncodeErr(code, message) <= p {
        var rest := p[|EncodeErr(code, message)|..];
        assert p == EncodeErr(code, message) + rest && p[..4] == head && p[4..] == message + [0] + rest;
        FieldOf(message, rest);
      }
    }
  }

  // ---------------------------------------------------------------- replies over a reused buffer

  /** The two decoders handle() tries in turn never both succeed. */
  lemma DecodersExclusive(p: Datagram)
    ensures DecodeAck(p).None? || DecodeErr(p).None?
  {}

  /** An ACK is read back whole, whatever the buffer held before. */
  lemma AckOverStale(buf: seq<Byte>, n: Uint16)
    requires |buf| == DATAGRAM_SIZE
    ensures DecodeAck(Overlay(buf, EncodeAck(n))) == Some(n)
    ensures DecodeErr(Overlay(buf, EncodeAck(n))).None?
  {
    assert Overlay(buf, EncodeAck(n))[2..4] == PutU16(n);
  }

  /** An ERROR that fits is read back whole, whatever the buffer held before; one that does not fit
      loses its terminator. Neither is ever taken for an ACK. */
  lemma ErrOverStale(buf: seq<Byte>, code: Uint16, message: seq<Byte>)
    requires |buf| == DATAGRAM_SIZE && NulFree(message)
    ensures DecodeErr(Overlay(buf, EncodeErr(code, message)))
         == if |message| + 5 <= DATAGRAM_SIZE then Some((code, message)) else None
    ensures DecodeAck(Overlay(buf, EncodeErr(code, message))).None?
  {
    var e := EncodeErr(code, message);
    var p := Overlay(buf, e);
    assert p[2..4] == PutU16(code);
    if |e| <= |buf| {
      assert p[4..] == message + [0] + buf[|e|..];
      FirstNulOf(message, buf[|e|..]);
      assert p[4..][..|message| + 1] == message + [0];
      TrimTerminated(message);
    } else {
      assert p[4..] == message[..|buf| - 4];
    }
  }

  /** The datagram itself already shows that it is no packet with this operation code. */
  predicate RulesOut(d: Datagram, op: Uint16) {
    (|d| >= 1 && d[0] != op / 0x100) || (|d| >= 2 && d[1] != op % 0x100)
  }

  /** A buffer that completes any fragment of a header with this operation code. */
  function HeaderFiller(op: Uint16, low: Byte): (r: seq<Byte>)
    ensures |r| == DATAGRAM_SIZE
  {
    PutU16(op) + [low, low] + Zeros(DATAGRAM_SIZE - 4)
  }

  lemma AckOwnHeader(buf: seq<Byte>, d: Datagram)
    requires |buf| == DATAGRAM_SIZE
    ensures RulesOut(d, OP_ACK) ==> DecodeAck(Overlay(buf, d)).None?
    ensures |d| >= 4 ==> DecodeAck(Overlay(buf, d)) == DecodeAck(d)
  {
    if |d| >= 4 {
      assert Overlay(buf, d)[2..4] == d[2..4];
    }
  }

  /** A fragment of an ACK is completed by the buffer. */
  lemma AckCompleted(d: Datagram, low: Byte)
    requires !RulesOut(d, OP_ACK) && |d| < 4
    ensures DecodeAck(Overlay(HeaderFiller(OP_ACK, low), d)).Some?
    ensures DecodeAck(Overlay(HeaderFiller(OP_ACK, low), d)).value % 0x100 == low
  {
    assert Overlay(HeaderFiller(OP_ACK, low), d)[2..4][1] == low;
  }

  /** Exactly which datagrams are decoded as ACK or not independently of the previous buffer. */
  lemma AckStaleFree(d: Datagram)
    ensures (forall b, c | |b| == DATAGRAM_SIZE && |c| == DATAGRAM_SIZE ::
               DecodeAck(Overlay(b, d)) == DecodeAck(Overlay(c, d)))
        <==> |d| >= 4 || RulesOut(d, OP_ACK)
  {
    hide DecodeAck, Overlay, HeaderFiller, RulesOut;
    if |d| >= 4 || RulesOut(d, OP_ACK) {
      forall b, c | |b| == DATAGRAM_SIZE && |c| == DATAGRAM_SIZE
        ensures DecodeAck(Overlay(b, d)) == DecodeAck(Overlay(c, d))
      {
        AckOwnHeader(b, d);
        AckOwnHeader(c, d);
      }
    } else {
      AckCompleted(d, 1);
      AckCompleted(d, 2);
      var b, c := HeaderFiller(OP_ACK, 1), HeaderFiller(OP_ACK, 2);
      assert DecodeAck(Overlay(b, d)) != DecodeAck(Overlay(c, d));
    }
  }

  /** An ERROR datagram that brings its own terminator owes nothing to the buffer. */
  lemma ErrOwnTerminator(buf: seq<Byte>, d: Datagram)
    requires |buf| == DATAGRAM_SIZE && 4 <= |d| < DATAGRAM_SIZE && FirstNul(d[4..]).Some?
    ensures DecodeErr(Overlay(buf, d)) == DecodeErr(d)
  {
    var i := FirstNul(d[4..]).value;
    var message, rest := d[4..][..i], d[4..][i + 1..] + buf[|d|..];
    var p := Overlay(buf, d);
    assert p[4..] == message + [0] + rest;
    FirstNulOf(message, rest);
    assert p[2..4] == d[2..4];
    assert p[4..][..i + 1] == d[4..][..i + 1];
  }

  /** A fragment of an ERROR header is completed by the buffer, and so is an unterminated message. */
  lemma ErrCompleted(d: Datagram, low: Byte)
    requires !RulesOut(d, OP_ERR) && |d| < DATAGRAM_SIZE
    ensures DecodeErr(Overlay(HeaderFiller(OP_ERR, low), d)).Some?
    ensures |d| < 4 ==> DecodeErr(Overlay(HeaderFiller(OP_ERR, low), d)).value.0 % 0x100 == low
  {
    var p := Overlay(HeaderFiller(OP_ERR, low), d);
    assert p[4..][|p| - 5] == 0;
    if |d| < 4 {
      assert p[2..4][1] == low;
    }
  }

  lemma ErrUnterminated(d: Datagram)
    requires 4 <= |d| < DATAGRAM_SIZE && NulFree(d[4..])
    ensures DecodeErr(Overlay(seq(DATAGRAM_SIZE, _ => 1), d)).None?
  {
    var ones := seq(DATAGRAM_SIZE, _ => 1);
    assert Overlay(ones, d)[4..] == d[4..] + ones[|d|..];
  }

  lemma ErrRuledOut(buf: seq<Byte>, d: Datagram)
    requires |buf| == DATAGRAM_SIZE
    ensures RulesOut(d, OP_ERR) ==> DecodeErr(Overlay(buf, d)).None?
    ensures |d| >= DATAGRAM_SIZE ==> Overlay(buf, d) == d[..DATAGRAM_SIZE]
  {}

  /** The same for ERROR: a message must bring its own terminator, or fill the buffer. */
  lemma ErrStaleFree(d: Datagram)
    ensures (forall b, c | |b| == DATAGRAM_SIZE && |c| == DATAGRAM_SIZE ::
               DecodeErr(Overlay(b, d)) == DecodeErr(Overlay(c, d)))
        <==> RulesOut(d, OP_ERR) || |d| >= DATAGRAM_SIZE || (|d| >= 4 && FirstNul(d[4..]).Some?)
  {
    hide DecodeErr, Overlay, FirstNul, HeaderFiller, GetU16, PutU16;
    if RulesOut(d, OP_ERR) || |d| >= DATAGRAM_SIZE || (|d| >= 4 && FirstNul(d[4..]).Some?) {
      forall b, c | |b| == DATAGRAM_SIZE && |c| == DATAGRAM_SIZE
        ensures DecodeErr(Overlay(b, d)) == DecodeErr(Overlay(c, d))
      {
        ErrRuledOut(b, d);
        ErrRuledOut(c, d);
        if !RulesOut(d, OP_ERR) && |d| < DATAGRAM_SIZE {
          ErrOwnTerminator(b, d);
          ErrOwnTerminator(c, d);
        }
      }
    } else {
      var b, c := HeaderFiller(OP_ERR, 1), HeaderFiller(OP_ERR, 2);
      ErrCompleted(d, 1);
      ErrCompleted(d, 2);
      if |d| >= 4 {
        c := seq(DATAGRAM_SIZE, _ => 1);
        ErrUnterminated(d);
      }
      assert DecodeErr(Overlay(b, d)) != DecodeErr(Overlay(c, d));
    }
  }

  // ---------------------------------------------------------------- read requests

  /** The mode a request travels with: an empty one is sent as "octet". */
  function SentMode(q: Request): seq<Byte> {
    if q.mode == [] then OCTET else q.mode
  }

  lemma RequestLayout(f: seq<Byte>, m: seq<Byte>, rest: seq<Byte>)
    requires m != []
    ensures PutU16(OP_RRQ) + (f + [0] + (m + [0] + rest)) == EncodeRequest(Request(f, m)) + rest
  {}

  lemma OperationCode(p: Datagram)
    requires |p| >= 2
    ensures p == PutU16(GetU16(p)) + p[2..]
  {
    PutU16Inverts(p);
  }

  /** Any accepted buffer begins with the request it was read as, marshalled again. */
  lemma AcceptedRequest(p: Datagram)
    requires DecodeRequest(p).Some?
    ensures var q := DecodeRequest(p).value;
            EncodeRequest(q) <= p && q.filename != [] && NulFree(q.filename) && Lower(q.mode) == OCTET
  {
    hide DecodeRequest, EncodeRequest, FirstNul, UpToNul, TrimRightNul, Lower, NulFree, GetU16, PutU16;
    RequestFields(p);
    OperationCode(p);
    TrimmedString(p[2..]);
    var tail := p[2..][|UpToNul(p[2..])| + 1..];
    TrimmedString(tail);
    RequestLayout(UpToNul(p[2..]), UpToNul(tail), tail[|UpToNul(tail)| + 1..]);
  }

  lemma OctetNulFree(mode: seq<Byte>)
    requires Lower(mode) == OCTET
    ensures NulFree(mode)
  {
    forall j | 0 <= j < |mode|
      ensures mode[j] != 0
    {
      assert Lower(mode)[j] == OCTET[j];
    }
  }

  lemma EmptyMode()
    ensures Lower([]) != OCTET
  {}

  /** Two terminated strings behind the operation code, and anything behind them. */
  lemma TwoFields(f: seq<Byte>, m: seq<Byte>, pad: seq<Byte>)
    requires NulFree(f) && NulFree(m)
    ensures DecodeRequest(PutU16(OP_RRQ) + f + [0] + m + [0] + pad)
         == if f == [] || Lower(m) != OCTET then None else Some(Request(f, m))
  {
    hide DecodeRequest, FirstNul, UpToNul, TrimRightNul, Lower, NulFree;
    var p := PutU16(OP_RRQ) + f + [0] + m + [0] + pad;
    assert p[2..] == f + [0] + (m + [0] + pad);
    assert GetU16(p) == OP_RRQ;
    FieldOf(f, m + [0] + pad);
    FieldOf(m, pad);
    RequestFields(p);
    EmptyMode();
  }

  /** A request can be served as it is: both its strings arrive whole, and they are acceptable. */
  predicate Sendable(q: Request) {
    && q.filename != [] && NulFree(q.filename) && Lower(SentMode(q)) == OCTET
    && |EncodeRequest(q)| <= 516
  }

  /** Accepted buffers are exactly those that begin with an acceptable request. */
  lemma RequestExactly(p: Datagram, q: Request)
    ensures DecodeRequest(p) == Some(q)
       <==> q.filename != [] && NulFree(q.filename) && Lower(q.mode) == OCTET && EncodeRequest(q) <= p
  {
    hide DecodeRequest, Lower, NulFree, PutU16;
    if DecodeRequest(p).Some? {
      AcceptedRequest(p);
    }
    if q.filename != [] && NulFree(q.filename) && Lower(q.mode) == OCTET && EncodeRequest(q) <= p {
      EmptyMode();
      OctetNulFree(q.mode);
      var pad := p[|EncodeRequest(q)|..];
      TwoFields(q.filename, q.mode, pad);
      assert p == PutU16(OP_RRQ) + q.filename + [0] + q.mode + [0] + pad;
    }
  }

  /** The two strings a receiver finds in the packet: each ends at its first NUL. */
  function Seen(q: Request): Request {
    var f := UpToNul(q.filename);
    Request(f, UpToNul(if NulFree(q.filename) || |f| >= |q.filename| then SentMode(q) else q.filename[|f| + 1..]))
  }

  lemma UpToNulOf(s: seq<Byte>)
    ensures NulFree(UpToNul(s)) && UpToNul(s) <= s
    ensures if NulFree(s) then UpToNul(s) == s else |UpToNul(s)| < |s| && s[|UpToNul(s)|] == 0
  {}

  /** What stands behind the first terminator of s + [0]. */
  function BehindNul(s: seq<Byte>): seq<Byte>
    requires |UpToNul(s)| <= |s|
  {
    (s + [0])[|UpToNul(s)| + 1..]
  }

  lemma Terminated(x: seq<Byte>, s: seq<Byte>)
    ensures NulFree(UpToNul(s)) && |UpToNul(s)| <= |s|
    ensures x + s + [0] == x + UpToNul(s) + [0] + BehindNul(s)
  {
    hide UpToNul, NulFree;
    UpToNulOf(s);
    assert s + [0] == UpToNul(s) + [0] + BehindNul(s);
  }

  lemma EncodedAs(q: Request)
    ensures EncodeRequest(q) == PutU16(OP_RRQ) + q.filename + [0] + SentMode(q) + [0]
  {}

  lemma Regroup(a: seq<Byte>, b: seq<Byte>, c: seq<Byte>)
    ensures a + b + c + [0] == a + (b + c + [0])
  {}

  lemma SeenLeads(q: Request) returns (tail: seq<Byte>)
    ensures NulFree(Seen(q).filename) && NulFree(Seen(q).mode)
    ensures EncodeRequest(q) == PutU16(OP_RRQ) + Seen(q).filename + [0] + Seen(q).mode + [0] + tail
  {
    hide UpToNul, NulFree, PutU16, SentMode, BehindNul;
    var f, mode := UpToNul(q.filename), SentMode(q);
    var front := PutU16(OP_RRQ) + f + [0];
    EncodedAs(q);
    UpToNulOf(q.filename);
    if NulFree(q.filename) {
      Terminated(front, mode);
      tail := BehindNul(mode);
    } else {
      var rest := q.filename[|f| + 1..];
      Terminated(front, rest);
      assert PutU16(OP_RRQ) + q.filename == front + rest by {
        assert q.filename == f + [0] + rest;
      }
      tail := BehindNul(rest) + mode + [0];
      Regroup(front + UpToNul(rest) + [0], BehindNul(rest), mode);
    }
  }

  lemma SendableSize(q: Request)
    ensures q.mode != [] && NulFree(q.filename) ==>
              (Sendable(q) <==> q.filename != [] && Lower(q.mode) == OCTET && |q.filename| + |q.mode| + 4 <= 516)
  {
    hide Lower;
  }

  /** Strings without a NUL are seen whole. */
  lemma SeenWhole(q: Request)
    ensures NulFree(q.filename) && NulFree(SentMode(q)) ==> Seen(q) == Request(q.filename, SentMode(q))
    ensures Sendable(q) ==> NulFree(SentMode(q)) && Sendable(Request(q.filename, SentMode(q)))
    ensures NulFree(q.filename) && NulFree(SentMode(q)) && Sendable(Request(q.filename, SentMode(q))) ==> Sendable(q)
    ensures Seen(q).mode != [] && Sendable(Seen(q))
       <==> Seen(q).filename != [] && Lower(Seen(q).mode) == OCTET && |Seen(q).filename| + |Seen(q).mode| + 4 <= 516
  {
    SendableSize(Seen(q));
    hide Lower, UpToNul;
    UpToNulOf(q.filename);
    UpToNulOf(SentMode(q));
    EmptyMode();
    var tail := SeenLeads(q);
    if Lower(SentMode(q)) == OCTET {
      OctetNulFree(SentMode(q));
    }
  }

  /** What follows a NUL in the filename is seen as the mode. */
  lemma SeenBehindNul(f: seq<Byte>, m: seq<Byte>, mode: seq<Byte>)
    requires NulFree(f) && NulFree(m)
    ensures Seen(Request(f + [0] + m, mode)) == Request(f, m)
    ensures !NulFree(f + [0] + m)
  {
    hide UpToNul;
    FieldOf(f, m);
    UpToNulOf(m);
    assert (f + [0] + m)[|f|] == 0;
  }

  /** Whatever its strings hold, NULs included, what becomes of a request that is sent and read into the
      zeroed buffer of the server. */
  lemma RequestSeen(q: Request)
    ensures var s := Seen(q);
            DecodeRequest(Overlay(Zeros(DATAGRAM_SIZE), EncodeRequest(q)))
            == if s.filename != [] && Lower(s.mode) == OCTET && |s.filename| + |s.mode| + 4 <= 516 then Some(s)
               else None
  {
    hide DecodeRequest, Seen, Lower, NulFree, PutU16;
    var e, s := EncodeRequest(q), Seen(q);
    var tail := SeenLeads(q);
    var front := PutU16(OP_RRQ) + s.filename + [0] + s.mode + [0];
    TwoBytes(OP_RRQ);
    var p := Overlay(Zeros(DATAGRAM_SIZE), e);
    assert e == front + tail;
    if |front| <= 516 {
      assert p[..|front|] == front;
      TwoFields(s.filename, s.mode, p[|front|..]);
      assert p == front + p[|front|..];
    } else {
      assert p == e[..516];
      if DecodeRequest(p).Some? {
        var r := DecodeRequest(p).value;
        RequestExactly(p, r);
        assert EncodeRequest(r) <= e;
        RequestExactly(e, r);
        TwoFields(s.filename, s.mode, tail);
        EmptyMode();
      }
    }
  }

  /** A request sent to the server, read into its zeroed buffer, comes back the same exactly when
      it is one the server can serve and its packet fits a datagram. */
  lemma RequestRoundTrip(q: Request)
    ensures DecodeRequest(Overlay(Zeros(DATAGRAM_SIZE), EncodeRequest(q))) == Some(Request(q.filename, SentMode(q)))
        <==> && q.filename != [] && NulFree(q.filename) && Lower(SentMode(q)) == OCTET
             && |EncodeRequest(q)| <= 516
  {
    hide DecodeRequest, Lower, NulFree, PutU16;
    var e := EncodeRequest(q);
    var r := Request(q.filename, SentMode(q));
    TwoBytes(OP_RRQ);
    assert EncodeRequest(r) == e;
    RequestExactly(Overlay(Zeros(DATAGRAM_SIZE), e), r);
  }

  // ---------------------------------------------------------------- the payload in packets

  /** Marshalling again and again from a block counter and the unread payload, until a packet is
      shorter than a full datagram. */
  function Drain(block: Uint16, rest: seq<Byte>): seq<Datagram>
    decreases |rest|
  {
    var next := (block + 1) % 0x1_0000;
    var p := EncodeData(next, rest[..Min(BLOCK_SIZE, |rest|)]);
    if |p| < DATAGRAM_SIZE then [p] else [p] + Drain(next, rest[BLOCK_SIZE..])
  }

  /** What a receiver puts together: the bodies of the packets, in order. */
  function Bodies(ps: seq<Datagram>): seq<Byte> {
    if ps == [] then []
    else (match DecodeData(ps[0]) case None => [] case Some(d) => d.1) + Bodies(ps[1..])
  }

  /** One block taken from the payload that is left when block k is due. */
  lemma NextBlock(payload: seq<Byte>, k: nat)
    requires 1 <= k <= BlockCount(payload)
    ensures var rest := payload[(k - 1) * BLOCK_SIZE..];
            && rest[..Min(BLOCK_SIZE, |rest|)] == Chunk(payload, k)
            && rest[Min(BLOCK_SIZE, |rest|)..] == payload[Min(k * BLOCK_SIZE, |payload|)..]
  {}

  lemma Successor(k: nat)
    requires k >= 1
    ensures ((k - 1) % 0x1_0000 + 1) % 0x1_0000 == k % 0x1_0000
  {}

  lemma {:induction false} DrainFrom(payload: seq<Byte>, k: nat)
    requires 1 <= k <= BlockCount(payload)
    ensures Drain((k - 1) % 0x1_0000, payload[(k - 1) * BLOCK_SIZE..]) == Packets(payload)[k - 1..]
    decreases BlockCount(payload) - k
  {
    var block, rest := (k - 1) % 0x1_0000, payload[(k - 1) * BLOCK_SIZE..];
    var ps := Packets(payload);
    NextBlock(payload, k);
    PacketSize(payload, k);
    Successor(k);
    if k < BlockCount(payload) {
      assert Drain(block, rest) == [ps[k - 1]] + Drain(k % 0x1_0000, payload[k * BLOCK_SIZE..]);
      DrainFrom(payload, k + 1);
      assert ps[k - 1..] == [ps[k - 1]] + ps[k..];
    } else {
      assert Drain(block, rest) == [ps[k - 1]];
    }
  }

  lemma BlockBounds(payload: seq<Byte>, k: nat)
    requires 1 <= k <= BlockCount(payload)
    ensures if k < BlockCount(payload) then k * BLOCK_SIZE <= |payload|
            else (k - 1) * BLOCK_SIZE <= |payload| < k * BLOCK_SIZE
  {}

  lemma PacketsFrom(payload: seq<Byte>, k: nat)
    requires 1 <= k <= BlockCount(payload)
    ensures |Packets(payload)| == BlockCount(payload)
    ensures var ps := Packets(payload)[k - 1..];
            ps != [] && ps[0] == Packet(payload, k) && ps[1..] == Packets(payload)[k..]
  {
    hide Packet;
  }

  lemma SplitAt(s: seq<Byte>, n: nat)
    requires n <= |s|
    ensures s == s[..n] + s[n..]
  {}

  lemma {:induction false} BodiesFrom(payload: seq<Byte>, k: nat)
    requires 1 <= k <= BlockCount(payload)
    ensures Bodies(Packets(payload)[k - 1..]) == payload[(k - 1) * BLOCK_SIZE..]
    decreases BlockCount(payload) - k
  {
    hide Packet, Packets, DecodeData, Chunk, BlockCount;
    BlockBounds(payload, k);
    PacketsFrom(payload, k);
    var ps, rest := Packets(payload)[k - 1..], payload[(k - 1) * BLOCK_SIZE..];
    PacketDecodes(payload, k);
    NextBlock(payload, k);
    SplitAt(rest, Min(BLOCK_SIZE, |rest|));
    assert Bodies(ps) == Chunk(payload, k) + Bodies(ps[1..]);
    if k < BlockCount(payload) {
      BodiesFrom(payload, k + 1);
    }
  }

  lemma {:induction false} BodiesJoin(a: seq<Datagram>, b: seq<Datagram>)
    ensures Bodies(a + b) == Bodies(a) + Bodies(b)
  {
    hide DecodeData;
    if a == [] {
      assert a + b == b;
    } else {
      BodiesJoin(a[1..], b);
      assert (a + b)[1..] == a[1..] + b;
      var first := match DecodeData(a[0]) case None => [] case Some(d) => d.1;
      assert Bodies(a + b) == first + Bodies((a + b)[1..]);
      assert first + (Bodies(a[1..]) + Bodies(b)) == first + Bodies(a[1..]) + Bodies(b);
    }
  }

  /** The packets of a payload, as far as they go, carry a front part of it. */
  lemma FrontBodies(payload: seq<Byte>, ps: seq<Datagram>)
    requires ps <= Packets(payload)
    ensures Bodies(ps) <= payload
    ensures ps == Packets(payload) ==> Bodies(ps) == payload
  {
    hide Packets, Bodies;
    var all := Packets(payload);
    BodiesJoin(ps, all[|ps|..]);
    assert ps + all[|ps|..] == all;
    BodiesFrom(payload, 1);
    assert all[0..] == all && payload[0..] == payload;
  }

  lemma PacketAt(payload: seq<Byte>, i: nat)
    requires i < BlockCount(payload)
    ensures var d := DecodeData(Packets(payload)[i]);
            && d.Some? && d.value.0 == (i + 1) % 0x1_0000
            && |d.value.1| == if i + 1 < BlockCount(payload) then BLOCK_SIZE else |payload| % BLOCK_SIZE
  {
    PacketDecodes(payload, i + 1);
  }

  /** Every payload: how many packets, what each is, and that nothing is lost or repeated. */
  lemma Packetisation(payload: seq<Byte>)
    ensures var ps := Drain(0, payload);
            && |ps| == |payload| / BLOCK_SIZE + 1
            && Bodies(ps) == payload
            && forall i :: 0 <= i < |ps| ==>
                 && DecodeData(ps[i]).Some?
                 && DecodeData(ps[i]).value.0 == (i + 1) % 0x1_0000
                 && |DecodeData(ps[i]).value.1| == if i + 1 < |ps| then BLOCK_SIZE else |payload| % BLOCK_SIZE
  {
    DrainFrom(payload, 1);
    BodiesFrom(payload, 1);
    var ps := Drain(0, payload);
    assert payload[0..] == payload && Packets(payload)[0..] == Packets(payload);
    forall i | 0 <= i < |ps|
      ensures DecodeData(ps[i]).Some? && DecodeData(ps[i]).value.0 == (i + 1) % 0x1_0000
      ensures |DecodeData(ps[i]).value.1| == if i + 1 < |ps| then BLOCK_SIZE else |payload| % BLOCK_SIZE
    {
      PacketAt(payload, i);
    }
  }
}
