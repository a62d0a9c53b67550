/** Bytes, big-endian integers and byte strings, as encoding/binary and bytes.Buffer see them. */
module Bytes {

  datatype Option<+T> = None | Some(value: T)

  type Byte = b: int | 0 <= b < 0x100
  type Uint16 = n: int | 0 <= n < 0x1_0000
  type Uint32 = n: int | 0 <= n < 0x1_0000_0000

  function PutU16(n: Uint16): (s: seq<Byte>) {
    [n / 0x100, n % 0x100]
  }

  function GetU16(s: seq<Byte>): Uint16
    requires |s| >= 2
  {
    var high: int := s[0];
    high * 0x100 + s[1]
  }

  function PutU32(n: Uint32): (s: seq<Byte>) {
    PutU16(n / 0x1_0000) + PutU16(n % 0x1_0000)
  }

  function GetU32(s: seq<Byte>): Uint32
    requires |s| >= 4
  {
    var high: int := GetU16(s);
    high * 0x1_0000 + GetU16(s[2..])
  }

  function Zeros(n: nat): seq<Byte> {
    seq(n, _ => 0)
  }

  function Min(a: int, b: int): int {
    if a <= b then a else b
  }

  /** What bytes.Buffer.ReadString(0) scans for: the position of the first NUL, if there is one. */
  function FirstNul(s: seq<Byte>): (r: Option<nat>)
    ensures r.Some? ==> r.value < |s| && s[r.value] == 0 && forall j :: 0 <= j < r.value ==> s[j] != 0
    ensures r.None? ==> forall j :: 0 <= j < |s| ==> s[j] != 0
  {
    if s == [] then None
    else if s[0] == 0 then Some(0)
    else
      match FirstNul(s[1..])
      case None => None
      case Some(i) => Some(i + 1)
  }

  predicate NulFree(s: seq<Byte>) {
    forall j :: 0 <= j < |s| ==> s[j] != 0
  }

  /** strings.TrimRight(s, "\x00"). */
  function TrimRightNul(s: seq<Byte>): seq<Byte> {
    if s != [] && s[|s| - 1] == 0 then TrimRightNul(s[..|s| - 1]) else s
  }

  lemma TrimTerminated(s: seq<Byte>)
    requires NulFree(s)
    ensures TrimRightNul(s + [0]) == s
  {
    assert (s + [0])[..|s|] == s;
  }

  /** A terminated string is found whole, whatever follows its terminator. */
  lemma FirstNulOf(s: seq<Byte>, rest: seq<Byte>)
    requires NulFree(s)
    ensures FirstNul(s + [0] + rest) == Some(|s|)
  {
    var t := s + [0] + rest;
    assert t[|s|] == 0;
    assert forall j :: 0 <= j < |s| ==> t[j] == s[j];
    match FirstNul(t)
    case None =>
    case Some(i) =>
      if i < |s| {
        assert t[i] == s[i];
      }
  }

  lemma PutU16Inverts(s: seq<Byte>)
    requires |s| >= 2
    ensures PutU16(GetU16(s)) == s[..2]
  {}

  /** The low byte of a 32-bit field is the last one: both halves are recovered. */
  lemma U32RoundTrip(n: Uint32, rest: seq<Byte>)
    ensures |PutU32(n)| == 4
    ensures GetU32(PutU32(n) + rest) == n
  {
    var s := PutU32(n) + rest;
    assert s[2..][0] == s[2] && s[2..][1] == s[3];
  }
}
