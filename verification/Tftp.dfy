/** The packet types of chapter6/tftp.go: the byte layout of each packet as functions on byte
    strings, the objects that marshal and unmarshal them, and what a reader of the packets can
    rely on. */
module Tftp {
  import opened Bytes

  const DATAGRAM_SIZE := 516
  const BLOCK_SIZE := DATAGRAM_SIZE - 4

  const OP_RRQ: Uint16 := 1
  const OP_DATA: Uint16 := 3
  const OP_ACK: Uint16 := 4
  const OP_ERR: Uint16 := 5

  type Datagram = seq<Byte>

  // ---------------------------------------------------------------- packet layouts

  function EncodeData(block: Uint16, body: seq<Byte>): Datagram {
    PutU16(OP_DATA) + PutU16(block) + body
  }

  function DecodeData(p: Datagram): Option<(Uint16, seq<Byte>)> {
    if |p| < 4 || |p| > DATAGRAM_SIZE || GetU16(p) != OP_DATA then None
    else Some((GetU16(p[2..4]), p[4..]))
  }

  function EncodeAck(block: Uint16): Datagram {
    PutU16(OP_ACK) + PutU16(block)
  }

  function DecodeAck(p: Datagram): Option<Uint16> {
    if |p| < 4 || GetU16(p) != OP_ACK then None else Some(GetU16(p[2..4]))
  }

  function EncodeErr(code: Uint16, message: seq<Byte>): Datagram {
    PutU16(OP_ERR) + PutU16(code) + message + [0]
  }

  function DecodeErr(p: Datagram): Option<(Uint16, seq<Byte>)> {
    if |p| < 4 || GetU16(p) != OP_ERR then None
    else
      match FirstNul(p[4..])
      case None => None
      case Some(i) => Some((GetU16(p[2..4]), TrimRightNul(p[4..][..i + 1])))
  }

  /** A read request: both strings as they stand in the packet. */
  datatype Request = Request(filename: seq<Byte>, mode: seq<Byte>)

  const OCTET: seq<Byte> := [0x6f, 0x63, 0x74, 0x65, 0x74]

  function Lower(s: seq<Byte>): (t: seq<Byte>)
    ensures |t| == |s|
    ensures forall i :: 0 <= i < |s| ==> t[i] == if 0x41 <= s[i] <= 0x5a then s[i] + 0x20 else s[i]
  {
    seq(|s|, i requires 0 <= i < |s| => if 0x41 <= s[i] <= 0x5a then s[i] + 0x20 else s[i])
  }

  function EncodeRequest(q: Request): Datagram {
    PutU16(OP_RRQ) + q.filename + [0] + (if q.mode == [] then OCTET else q.mode) + [0]
  }

  function DecodeRequest(p: Datagram): Option<Request> {
    if |p| < 2 || GetU16(p) != OP_RRQ then None
    else
      match FirstNul(p[2..])
      case None => None
      case Some(i) =>
        var filename := TrimRightNul(p[2..][..i + 1]);
        if filename == [] then None
        else
          match FirstNul(p[2 + i + 1..])
          case None => None
          case Some(j) =>
            var mode := TrimRightNul(p[2 + i + 1..][..j + 1]);
            if mode == [] || Lower(mode) != OCTET then None else Some(Request(filename, mode))
  }

  /** A string read to its terminator, or to the end where there is none. */
  function UpToNul(s: seq<Byte>): seq<Byte> {
    match FirstNul(s)
    case None => s
    case Some(i) => s[..i]
  }

  /** A terminated string at the front of p is what ReadString and TrimRight return. */
  lemma TerminatedFront(p: seq<Byte>, i: nat)
    requires FirstNul(p) == Some(i)
    ensures TrimRightNul(p[..i + 1]) == p[..i] && NulFree(p[..i])
    ensures p == p[..i] + [0] + p[i + 1..]
  {
    assert p[..i + 1] == p[..i] + [0];
    TrimTerminated(p[..i]);
  }

  lemma TrimmedString(s: seq<Byte>)
    ensures FirstNul(s).Some? ==>
              && UpToNul(s) == TrimRightNul(s[..FirstNul(s).value + 1]) && |UpToNul(s)| == FirstNul(s).value < |s|
              && NulFree(UpToNul(s)) && s == UpToNul(s) + [0] + s[|UpToNul(s)| + 1..]
  {
    match FirstNul(s)
    case None =>
    case Some(i) => TerminatedFront(s, i);
  }

  /** A request decodes to its two terminated strings, if both are there, neither is empty and the second
      is "octet" in any case. */
  lemma RequestFields(p: Datagram)
    ensures |p| < 2 || GetU16(p) != OP_RRQ ==> DecodeRequest(p).None?
    ensures |p| >= 2 && GetU16(p) == OP_RRQ ==>
              var filename := UpToNul(p[2..]);
              && |filename| <= |p| - 2
              && if FirstNul(p[2..]).None? || filename == [] then DecodeRequest(p).None?
                 else
                   && |filename| + 1 <= |p| - 2
                   && var tail := p[2..][|filename| + 1..];
                      DecodeRequest(p)
                      == if FirstNul(tail).None? || UpToNul(tail) == [] || Lower(UpToNul(tail)) != OCTET then None
                         else Some(Request(filename, UpToNul(tail)))
  {
    hide FirstNul, TrimRightNul, Lower, GetU16;
    if |p| >= 2 && FirstNul(p[2..]).Some? {
      TrimmedString(p[2..]);
      var i := FirstNul(p[2..]).value;
      assert p[2..][i + 1..] == p[2 + i + 1..];
      TrimmedString(p[2 + i + 1..]);
    }
  }

  lemma OneString(p: Datagram)
    ensures |p| < 2 || GetU16(p) != OP_RRQ || FirstNul(p[2..]).None? || UpToNul(p[2..]) == []
        ==> DecodeRequest(p).None?
  {
    hide FirstNul, UpToNul, DecodeRequest, Lower, GetU16;
    RequestFields(p);
  }

  lemma TwoStrings(p: Datagram, filename: seq<Byte>)
    requires |p| >= 2 && GetU16(p) == OP_RRQ && FirstNul(p[2..]).Some? && filename == UpToNul(p[2..]) != []
    ensures |filename| + 1 <= |p[2..]|
    ensures var tail := p[2..][|filename| + 1..];
            DecodeRequest(p)
            == if FirstNul(tail).None? || UpToNul(tail) == [] || Lower(UpToNul(tail)) != OCTET then None
               else Some(Request(filename, UpToNul(tail)))
  {
    hide FirstNul, UpToNul, DecodeRequest, Lower, GetU16;
    RequestFields(p);
  }

  /** conn.Read(buf): the datagram lands at the front, cut to the buffer; the rest is what was there. */
  function Overlay(buf: seq<Byte>, d: Datagram): (r: seq<Byte>)
    ensures |r| == |buf|
  {
    if |d| >= |buf| then d[..|buf|] else d + buf[|d|..]
  }

  /** Byte by byte: the datagram as far as it reaches, and behind it what the buffer held before. */
  lemma OverlayAt(buf: seq<Byte>, d: Datagram)
    ensures forall i :: 0 <= i < |buf| ==> Overlay(buf, d)[i] == if i < |d| then d[i] else buf[i]
  {}

  // ---------------------------------------------------------------- the payload cut into packets

  function BlockCount(payload: seq<Byte>): nat {
    |payload| / BLOCK_SIZE + 1
  }

  /** The bytes of block k, counted from 1. */
  function Chunk(payload: seq<Byte>, k: nat): seq<Byte>
    requires 1 <= k <= BlockCount(payload)
  {
    payload[(k - 1) * BLOCK_SIZE..Min(k * BLOCK_SIZE, |payload|)]
  }

  /** The DATA packet of block k: the number on the wire is k modulo 65536. */
  function Packet(payload: seq<Byte>, k: nat): Datagram
    requires 1 <= k <= BlockCount(payload)
  {
    EncodeData(k % 0x1_0000, Chunk(payload, k))
  }

  function Packets(payload: seq<Byte>): seq<Datagram> {
    seq(BlockCount(payload), i requires 0 <= i < BlockCount(payload) => Packet(payload, i + 1))
  }

  /** The first k blocks' worth of payload. */
  function Front(payload: seq<Byte>, k: nat): seq<Byte> {
    payload[..Min(k * BLOCK_SIZE, |payload|)]
  }

  lemma PacketSize(payload: seq<Byte>, k: nat)
    requires 1 <= k <= BlockCount(payload)
    ensures k < BlockCount(payload) ==> |Packet(payload, k)| == DATAGRAM_SIZE
    ensures k == BlockCount(payload) ==> 4 <= |Packet(payload, k)| < DATAGRAM_SIZE
  {}

  lemma PacketDecodes(payload: seq<Byte>, k: nat)
    requires 1 <= k <= BlockCount(payload)
    ensures DecodeData(Packet(payload, k)) == Some((k % 0x1_0000, Chunk(payload, k)))
  {
    PacketSize(payload, k);
    var p := Packet(payload, k);
    assert p[2..4] == PutU16(k % 0x1_0000);
    assert p[4..] == Chunk(payload, k);
  }

  lemma FrontGrows(payload: seq<Byte>, k: nat)
    requires 1 <= k <= BlockCount(payload)
    ensures Front(payload, k) == Front(payload, k - 1) + Chunk(payload, k)
    ensures k == BlockCount(payload) ==> Front(payload, k) == payload
  {}

  // ---------------------------------------------------------------- readers

  /** An io.Reader: the bytes it has still to give, and whether they end in an error instead of
      end-of-file, as those of a bytes.Reader or bytes.Buffer never do. */
  class Reader {
    var rest: seq<Byte>
    const broken: bool

    constructor (content: seq<Byte>)
      ensures rest == content && !broken
    {
      rest := content;
      broken := false;
    }

    constructor Broken(content: seq<Byte>)
      ensures rest == content && broken
    {
      rest := content;
      broken := true;
    }

    /** binary.Read into a 16-bit field: all or nothing. */
    method ReadU16() returns (r: Option<Uint16>)
      modifies this
      ensures |old(rest)| < 2 ==> r.None? && rest == []
      ensures |old(rest)| >= 2 ==> r == Some(GetU16(old(rest))) && rest == old(rest)[2..]
    {
      if |rest| < 2 {
        rest := [];
        return None;
      }
      r := Some(GetU16(rest));
      rest := rest[2..];
    }

    /** ReadString(0): up to and including the first NUL; the whole rest when there is none. */
    method ReadString() returns (s: seq<Byte>, found: bool)
      modifies this
      ensures found == FirstNul(old(rest)).Some?
      ensures found ==> s == old(rest)[..FirstNul(old(rest)).value + 1]
      ensures !found ==> s == old(rest)
      ensures rest == old(rest)[|s|..]
    {
      var i := 0;
      while i < |rest| && rest[i] != 0
        invariant 0 <= i <= |rest|
        invariant forall j :: 0 <= j < i ==> rest[j] != 0
      {
        i := i + 1;
      }
      found := i < |rest|;
      s := rest[..if found then i + 1 else i];
      rest := rest[|s|..];
    }

    /** ReadString(0) and TrimRight: the bytes before the first NUL, or all there are. */
    method ReadField() returns (s: seq<Byte>, found: bool)
      modifies this
      ensures found == FirstNul(old(rest)).Some?
      ensures s == UpToNul(old(rest))
      ensures rest == old(rest)[if found then |s| + 1 else |s|..]
    {
      TrimmedString(rest);
      s, found := ReadString();
      if found {
        s := TrimRightNul(s);
      }
    }

    /** io.CopyN into a buffer, end-of-file being no error. */
    method CopyN(n: nat) returns (s: seq<Byte>, failed: bool)
      modifies this
      ensures s == old(rest)[..Min(n, |old(rest)|)] && rest == old(rest)[|s|..]
      ensures failed == (|s| < n && broken)
    {
      s := rest[..Min(n, |rest|)];
      rest := rest[|s|..];
      failed := |s| < n && broken;
    }
  }

  // ---------------------------------------------------------------- the packet objects

  class Data {
    var block: Uint16
    var payload: Reader

    constructor (payload: Reader)
      ensures block == 0 && this.payload == payload
    {
      block := 0;
      this.payload := payload;
    }

    /** The next block: the counter wraps, the reader moves on by what was taken. A reader that breaks
        off within the block leaves no packet. */
    method MarshalBinary() returns (p: Datagram, failed: bool)
      modifies this`block, payload
      ensures block == (old(block) + 1) % 0x1_0000
      ensures var rest := old(payload.rest);
              var taken := if |rest| < 512 then |rest| else 512;
              && failed == (payload.broken && |rest| < 512)
              && payload.rest == rest[taken..]
              && p == if failed then [] else EncodeData(block, rest[..taken])
    {
      block := (block + 1) % 0x1_0000;
      p := PutU16(OP_DATA);
      p := p + PutU16(block);
      var body: seq<Byte>;
      body, failed := payload.CopyN(BLOCK_SIZE);
      if failed {
        return [], true;
      }
      p := p + body;
    }

    method UnmarshalBinary(p: Datagram) returns (ok: bool)
      modifies this
      ensures ok == DecodeData(p).Some?
      ensures ok ==> block == DecodeData(p).value.0
      ensures ok ==> fresh(payload) && !payload.broken && payload.rest == DecodeData(p).value.1
      ensures !ok ==> unchanged(this)
    {
      if |p| < 4 || |p| > DATAGRAM_SIZE {
        return false;
      }
      var head := new Reader(p[..2]);
      var op := head.ReadU16();
      if op != Some(OP_DATA) {
        return false;
      }
      var number := new Reader(p[2..4]);
      var n := number.ReadU16();
      block := n.value;
      payload := new Reader(p[4..]);
      return true;
    }
  }

  class Ack {
    var block: Uint16

    constructor ()
      ensures block == 0
    {
      block := 0;
    }

    method MarshalBinary() returns (p: Datagram)
      ensures p == EncodeAck(block)
    {
      p := PutU16(OP_ACK);
      p := p + PutU16(block);
    }

    method UnmarshalBinary(p: Datagram) returns (ok: bool)
      modifies this
      ensures ok == DecodeAck(p).Some?
      ensures block == if ok then DecodeAck(p).value else old(block)
    {
      var r := new Reader(p);
      var op := r.ReadU16();
      if op != Some(OP_ACK) {
        return false;
      }
      var n := r.ReadU16();
      if n.None? {
        return false;
      }
      assert p[2..][..2] == p[2..4];
      block := n.value;
      return true;
    }
  }

  class Err {
    var code: Uint16
    var message: seq<Byte>

    constructor ()
      ensures code == 0 && message == []
    {
      code, message := 0, [];
    }

    method MarshalBinary() returns (p: Datagram)
      ensures p == EncodeErr(code, message)
    {
      p := PutU16(OP_ERR);
      p := p + PutU16(code);
      p := p + message;
      p := p + [0];
    }

    /** Code and message are assigned as they are read, so a missing terminator leaves both changed. */
    method UnmarshalBinary(p: Datagram) returns (ok: bool)
      modifies this
      ensures ok == DecodeErr(p).Some?
      ensures ok ==> (code, message) == DecodeErr(p).value
      ensures |p| < 4 || GetU16(p) != OP_ERR ==> unchanged(this)
      ensures !ok && |p| >= 4 && GetU16(p) == OP_ERR ==> code == GetU16(p[2..4]) && message == p[4..]
    {
      var r := new Reader(p);
      var op := r.ReadU16();
      if op != Some(OP_ERR) {
        return false;
      }
      var n := r.ReadU16();
      if n.None? {
        return false;
      }
      assert p[2..][..2] == p[2..4];
      code := n.value;
      assert p[2..][2..] == p[4..];
      message, ok := r.ReadString();
      if ok {
        message := TrimRightNul(message);
      }
    }
  }

  class ReadReq {
    var filename: seq<Byte>
    var mode: seq<Byte>

    constructor ()
      ensures filename == [] && mode == []
    {
      filename, mode := [], [];
    }

    method MarshalBinary() returns (p: Datagram)
      ensures p == EncodeRequest(Request(filename, mode))
    {
      var m := OCTET;
      if mode != [] {
        m := mode;
      }
      p := PutU16(OP_RRQ);
      p := p + filename;
      p := p + [0];
      p := p + m;
      p := p + [0];
    }

    /** On success both fields are those of p, whatever an earlier request left behind. */
    method UnmarshalBinary(p: Datagram) returns (ok: bool)
      modifies this
      ensures ok == DecodeRequest(p).Some?
      ensures ok ==> Request(filename, mode) == DecodeRequest(p).value
      ensures |p| < 2 || GetU16(p) != OP_RRQ ==> unchanged(this)
      ensures |p| >= 2 && GetU16(p) == OP_RRQ ==>
                && filename == UpToNul(p[2..])
                && mode == if filename == [] || FirstNul(p[2..]).None? then old(mode)
                           else UpToNul(p[2..][|filename| + 1..])
    {
      hide FirstNul, UpToNul, DecodeRequest, Lower, GetU16;
      OneString(p);
      var r := new Reader(p);
      var op := r.ReadU16();
      if op != Some(OP_RRQ) {
        return false;
      }
      filename, ok := r.ReadField();
      if !ok || filename == [] {
        return false;
      }
      TwoStrings(p, filename);
      mode, ok := r.ReadField();
      if !ok || mode == [] {
        return false;
      }
      var actual := Lower(mode);
      return actual == OCTET;
    }
  }
}
