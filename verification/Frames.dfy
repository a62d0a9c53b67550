/** What becomes of frames sent over a stream (chapter4/tlv.go): when they come back, what a short read
    does to them, and what the 32-bit length field lets through. */
module Frames {
  import opened Bytes
  import opened Tlv

  /** These bytes stand in the stream at this position. */
  predicate Stands(st: Stream, pos: nat, bytes: seq<Byte>) {
    pos + |bytes| <= |st.content| && st.content[pos..pos + |bytes|] == bytes
  }

  lemma StandsSplit(st: Stream, pos: nat, a: seq<Byte>, b: seq<Byte>)
    requires Stands(st, pos, a + b)
    ensures Stands(st, pos, a) && Stands(st, pos + |a|, b)
  {
    assert (a + b)[..|a|] == a && (a + b)[|a|..] == b;
    assert st.content[pos..pos + |a + b|][..|a|] == st.content[pos..pos + |a|];
  }

  lemma HalfBytes(n: Uint16)
    ensures var f: seq<int> := PutU16(n);
            |f| == 2 && f[0] * 0x100 + f[1] == n
  {}

  lemma FieldBytes(n: Uint32)
    ensures var f: seq<int> := PutU32(n);
            |f| == 4 && f[0] * 0x100_0000 + f[1] * 0x1_0000 + f[2] * 0x100 + f[3] == n
  {
    var high, low := n / 0x1_0000, n % 0x1_0000;
    HalfBytes(high);
    HalfBytes(low);
    assert PutU32(n) == PutU16(high) + PutU16(low);
    hide PutU16;
  }

  /** A frame byte by byte: its type, its length in four bytes with the highest first, its payload. */
  lemma FrameLayout(p: Payload)
    ensures var f: seq<int> := Frame(p);
            && |f| == 5 + |p.bytes|
            && f[0] == (if p.kind.Binary? then 1 else 2)
            && f[1] * 0x100_0000 + f[2] * 0x1_0000 + f[3] * 0x100 + f[4] == |p.bytes| % 0x1_0000_0000
            && f[5..] == p.bytes
  {
    hide PutU32;
    var n := |p.bytes| % 0x1_0000_0000;
    FieldBytes(n);
    FrameParts(p.kind, p.bytes);
  }

  /** The length a frame carries, and is read back with. */
  function Declared(p: Payload): nat {
    |p.bytes| % 0x1_0000_0000
  }

  lemma FrameFields(st: Stream, pos: nat, p: Payload)
    requires Stands(st, pos, Frame(p))
    ensures pos + 5 + |p.bytes| <= |st.content|
    ensures st.content[pos] == TypeOf(p.kind) && GetU32(st.content[pos + 1..]) == Declared(p)
    ensures st.content[pos + 5..pos + 5 + |p.bytes|] == p.bytes
  {
    var field, frame := PutU32(Declared(p)), Frame(p);
    U32RoundTrip(Declared(p), []);
    FrameParts(p.kind, p.bytes);
    assert field + [] == field;
    assert frame == [TypeOf(p.kind)] + field + p.bytes;
    assert st.content[pos] == frame[0];
    StandsSplit(st, pos, [TypeOf(p.kind)] + field, p.bytes);
    StandsSplit(st, pos, [TypeOf(p.kind)], field);
    assert st.content[pos + 1..pos + 5] == field;
    FieldAt(st.content, pos + 1);
  }

  /** Decoding where a frame stands, for payloads of any length. */
  lemma {:induction false} DecodeFrame(st: Stream, pos: nat, p: Payload)
    requires Stands(st, pos, Frame(p))
    ensures pos + 5 <= |st.content|
    ensures PushedBack(st, pos)
         == var size := Declared(p);
            if size > MAX_PAYLOAD_SIZE then Failure(TooLarge, 5, None)
            else
              var (n, error) := PayloadCall(st, pos + 5, size, true);
              var bytes := st.content[pos + 5..pos + 5 + n] + Zeros(size - n);
              match error
              case Some(e) => Failure(e, 5 + n, Some(bytes))
              case None => Success(Payload(p.kind, bytes), 5 + n)
  {
    hide GetU32, Frame, Stands, PayloadCall;
    FrameFields(st, pos, p);
  }

  // ---------------------------------------------------------------- the length field

  /** Below 2^32 the length is checked exactly: a frame is refused after its five header bytes if and only
      if its payload is longer than 10 MiB, and is otherwise decoded unless its payload read fails. */
  lemma {:induction false} LengthChecked(st: Stream, pos: nat, p: Payload)
    requires Stands(st, pos, Frame(p)) && |p.bytes| < 0x1_0000_0000
    ensures pos + 5 <= |st.content|
    ensures PushedBack(st, pos) == Failure(TooLarge, 5, None) <==> |p.bytes| > 10 * 0x10_0000
    ensures PushedBack(st, pos).Success?
       <==> |p.bytes| <= 10 * 0x10_0000 && PayloadCall(st, pos + 5, |p.bytes|, true).1.None?
  {
    hide PushedBack, Frame, Stands, GetU32, Granted;
    DecodeFrame(st, pos, p);
  }

  /** From 2^32 on the check is made on the length modulo 2^32: if that is small, a payload of the wrong
      length is decoded without an error. */
  lemma {:induction false} LengthWraps(st: Stream, pos: nat, p: Payload)
    requires Stands(st, pos, Frame(p)) && |p.bytes| >= 0x1_0000_0000
    ensures PushedBack(st, pos).Success? <==> |p.bytes| % 0x1_0000_0000 <= 10 * 0x10_0000
    ensures PushedBack(st, pos).Success?
        ==> |PushedBack(st, pos).payload.bytes| == |p.bytes| % 0x1_0000_0000 < |p.bytes|
  {
    hide PushedBack, Frame, Stands, GetU32;
    DecodeFrame(st, pos, p);
    FrameFields(st, pos, p);
  }

  // ---------------------------------------------------------------- short reads

  lemma FrameSize(p: Payload)
    ensures |Frame(p)| == 5 + |p.bytes|
  {}

  lemma GrantedWhole(st: Stream, pos: nat, want: nat)
    requires 1 <= want && pos + want <= |st.content|
    ensures Granted(st, pos, want) == want <==> AtHand(st, pos) >= want
  {}

  /** Of a nonempty payload that one Read call does not fill come the sender's bytes in front and zeros
      behind, without an error; the stream is then at the end of the frame exactly when the read did fill
      it. A reader that reports the end with its last bytes makes the last frame fail, filled or not. */
  lemma {:induction false} ShortRead(st: Stream, pos: nat, p: Payload) returns (o: nat)
    requires Stands(st, pos, Frame(p)) && 1 <= |p.bytes| <= MAX_PAYLOAD_SIZE
    ensures 1 <= o <= |p.bytes| && (o == |p.bytes| <==> AtHand(st, pos + 5) >= |p.bytes|)
    ensures PushedBack(st, pos)
         == var bytes := p.bytes[..o] + Zeros(|p.bytes| - o);
            if st.eager && pos + 5 + o == |st.content| then Failure(Ending(st), 5 + o, Some(bytes))
            else Success(Payload(p.kind, bytes), 5 + o)
    ensures pos + PushedBack(st, pos).consumed == pos + |Frame(p)| <==> o == |p.bytes|
  {
    hide PushedBack, Frame, Stands, GetU32, Granted, Ending;
    DecodeFrame(st, pos, p);
    FrameFields(st, pos, p);
    FrameSize(p);
    o := Granted(st, pos + 5, |p.bytes|);
    GrantedWhole(st, pos + 5, |p.bytes|);
    assert st.content[pos + 5..pos + 5 + |p.bytes|][..o] == st.content[pos + 5..pos + 5 + o];
  }

  // ---------------------------------------------------------------- sequences of frames

  function Concat(ps: seq<Payload>): seq<Byte> {
    if ps == [] then [] else Frame(ps[0]) + Concat(ps[1..])
  }

  /** decode called n times in a row, as long as it succeeds. */
  datatype Decoded = Decoded(payloads: seq<Payload>, consumed: nat, ok: bool)

  function DecodeMany(st: Stream, pos: nat, n: nat): Decoded
    requires pos <= |st.content|
    decreases n
  {
    if n == 0 then Decoded([], 0, true)
    else
      match PushedBack(st, pos)
      case Failure(_, c, _) => Decoded([], c, false)
      case Success(p, c) =>
        var rest := DecodeMany(st, pos + c, n - 1);
        Decoded([p] + rest.payloads, c + rest.consumed, rest.ok)
  }

  /** The payload is within the limit and its one Read call is filled without an error: an empty one may end
      the stream only if that is not reported, a nonempty one only if it is reported later. */
  predicate Whole(st: Stream, pos: nat, p: Payload) {
    && |p.bytes| <= MAX_PAYLOAD_SIZE
    && if p.bytes == [] then pos + 5 < |st.content| || (st.quiet && !(st.eager && !st.broken))
       else AtHand(st, pos + 5) >= |p.bytes| && !(st.eager && pos + 5 + |p.bytes| == |st.content|)
  }

  predicate AllWhole(st: Stream, pos: nat, ps: seq<Payload>)
    decreases |ps|
  {
    ps == [] || (Whole(st, pos, ps[0]) && AllWhole(st, pos + 5 + |ps[0].bytes|, ps[1..]))
  }

  lemma {:induction false} DecodeWhole(st: Stream, pos: nat, p: Payload)
    requires Stands(st, pos, Frame(p))
    ensures PushedBack(st, pos) == Success(p, 5 + |p.bytes|) <==> Whole(st, pos, p)
  {
    hide PushedBack, Frame, Stands, GetU32, Granted, AtHand;
    DecodeFrame(st, pos, p);
    FrameFields(st, pos, p);
    assert p.bytes + Zeros(0) == p.bytes;
    if 1 <= |p.bytes| <= MAX_PAYLOAD_SIZE {
      GrantedWhole(st, pos + 5, |p.bytes|);
    }
  }

  lemma DecodeAtMost(st: Stream, pos: nat)
    requires pos <= |st.content|
    ensures PushedBack(st, pos).Success?
        ==> PushedBack(st, pos).consumed <= 5 + |PushedBack(st, pos).payload.bytes|
  {
    hide GetU32, PayloadCall;
  }

  lemma {:induction false} DecodeManyAtMost(st: Stream, pos: nat, n: nat)
    requires pos <= |st.content| && DecodeMany(st, pos, n).ok
    ensures DecodeMany(st, pos, n).consumed <= |Concat(DecodeMany(st, pos, n).payloads)|
    decreases n
  {
    hide PushedBack, Frame;
    if n > 0 {
      var r := PushedBack(st, pos);
      DecodeAtMost(st, pos);
      DecodeManyAtMost(st, pos + r.consumed, n - 1);
      FrameSize(r.payload);
      var d := DecodeMany(st, pos, n);
      assert d.payloads[1..] == DecodeMany(st, pos + r.consumed, n - 1).payloads;
    }
  }

  lemma StandsInside(st: Stream, pos: nat, bytes: seq<Byte>)
    requires Stands(st, pos, bytes)
    ensures pos <= |st.content|
  {}

  /** Any list of payloads, written one after the other anywhere in a stream: calling decode that many times
      returns the same list and consumes exactly the bytes written if and only if each payload is at most
      10 MiB and its Read call is filled, and the stream does not end in a frame whose last read reports it.
      How the stream cuts up the headers makes no difference. */
  lemma {:induction false} SequenceRoundTrip(st: Stream, pos: nat, ps: seq<Payload>)
    requires Stands(st, pos, Concat(ps))
    ensures pos <= |st.content|
    ensures DecodeMany(st, pos, |ps|) == Decoded(ps, |Concat(ps)|, true) <==> AllWhole(st, pos, ps)
    decreases |ps|
  {
    hide PushedBack, Frame, Whole, Stands;
    StandsInside(st, pos, Concat(ps));
    if ps != [] {
      var p, rest := ps[0], ps[1..];
      var r := PushedBack(st, pos);
      StandsSplit(st, pos, Frame(p), Concat(rest));
      FrameSize(p);
      DecodeWhole(st, pos, p);
      SequenceRoundTrip(st, pos + |Frame(p)|, rest);
      if DecodeMany(st, pos, |ps|) == Decoded(ps, |Concat(ps)|, true) {
        var tail := DecodeMany(st, pos + r.consumed, |rest|);
        assert r.payload == p && tail.payloads == rest by {
          assert ps == [r.payload] + tail.payloads;
        }
        DecodeAtMost(st, pos);
        DecodeManyAtMost(st, pos + r.consumed, |rest|);
      }
    }
  }

  lemma {:induction false} AllWholeFilled(st: Stream, pos: nat, ps: seq<Payload>)
    requires st.quiet && !st.eager && forall i :: AtHand(st, i) >= MAX_PAYLOAD_SIZE
    ensures AllWhole(st, pos, ps) <==> forall i :: 0 <= i < |ps| ==> |ps[i].bytes| <= MAX_PAYLOAD_SIZE
    decreases |ps|
  {
    if ps != [] {
      AllWholeFilled(st, pos + 5 + |ps[0].bytes|, ps[1..]);
      assert forall i :: 1 <= i < |ps| ==> ps[i] == ps[1..][i - 1];
    }
  }

  /** Over a connection that fills every read, a list comes back if and only if no payload is longer than
      10 MiB. */
  lemma {:induction false} FilledReads(st: Stream, pos: nat, ps: seq<Payload>)
    requires Stands(st, pos, Concat(ps))
    requires st.quiet && !st.eager && forall i :: AtHand(st, i) >= MAX_PAYLOAD_SIZE
    ensures pos <= |st.content|
    ensures DecodeMany(st, pos, |ps|) == Decoded(ps, |Concat(ps)|, true)
       <==> forall i :: 0 <= i < |ps| ==> |ps[i].bytes| <= MAX_PAYLOAD_SIZE
  {
    hide DecodeMany, Concat, Stands, AllWhole, AtHand;
    SequenceRoundTrip(st, pos, ps);
    AllWholeFilled(st, pos, ps);
  }

  /** An empty payload as the last thing in a bytes.Reader cannot be decoded, although it was written
      without an error. */
  lemma {:induction false} EmptyAtEnd(kind: Kind, share: nat -> nat)
    ensures var p := Payload(kind, []);
            PushedBack(Stream(Frame(p), share, false, false, false), 0) == Failure(Eof, 5, Some([]))
  {
    var p := Payload(kind, []);
    var st := Stream(Frame(p), share, false, false, false);
    FrameSize(p);
    assert Stands(st, 0, Frame(p));
    DecodeFrame(st, 0, p);
    assert st.content[5..5] + Zeros(0) == [];
    hide PushedBack, Frame;
  }
}
