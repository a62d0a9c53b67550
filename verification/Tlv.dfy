/** The type-length-value frames of chapter4/tlv.go, written to a sink and read from a stream that may
    hand out its bytes in pieces of any size. */
module Tlv {
  import opened Bytes

  const BINARY_TYPE: Byte := 1
  const STRING_TYPE: Byte := 2
  const MAX_PAYLOAD_SIZE := 10 * 0x10_0000

  datatype Kind = Binary | String

  datatype Payload = Payload(kind: Kind, bytes: seq<Byte>)

  datatype Error = Eof | UnexpectedEof | Broken | InvalidType | TooLarge | WriteFailed

  function TypeOf(kind: Kind): Byte {
    if kind.Binary? then BINARY_TYPE else STRING_TYPE
  }

  /** The length field is 32 bits wide, whatever the payload. */
  function Header(kind: Kind, length: nat): seq<Byte> {
    [TypeOf(kind)] + PutU32(length % 0x1_0000_0000)
  }

  function Frame(p: Payload): seq<Byte> {
    Header(p.kind, |p.bytes|) + p.bytes
  }

  // ---------------------------------------------------------------- readers

  /** share(pos): how many bytes the stream has at hand when it is read at this position; quiet: whether
      an empty read at the end is no error, as with a connection or a bytes.Buffer, or reports the end,
      as with a bytes.Reader; eager: whether the last bytes come together with the end or before it, as
      the documentation of io.Reader leaves open; broken: whether the end is a failure, not end-of-file. */
  datatype Stream = Stream(content: seq<Byte>, share: nat -> nat, quiet: bool, eager: bool, broken: bool)

  function Ending(st: Stream): Error {
    if st.broken then Broken else Eof
  }

  /** A read that is not at the end brings at least one byte. */
  function AtHand(st: Stream, pos: nat): nat {
    if st.share(pos) == 0 then 1 else st.share(pos)
  }

  /** What one Read call of a nonempty buffer gets, short of the end. */
  function Granted(st: Stream, pos: nat, want: nat): (n: nat)
    requires pos < |st.content| && want >= 1
    ensures 1 <= n <= want && n <= |st.content| - pos
  {
    Min(AtHand(st, pos), Min(want, |st.content| - pos))
  }

  /** What one Read call returns: how many bytes, and which error with them. */
  function ReadCall(st: Stream, pos: nat, want: nat): (r: (nat, Option<Error>))
    requires pos <= |st.content|
    ensures r.0 <= want && pos + r.0 <= |st.content|
  {
    if pos == |st.content| then (0, if want == 0 && st.quiet then None else Some(Ending(st)))
    else if want == 0 then (0, None)
    else
      var n := Granted(st, pos, want);
      (n, if st.eager && pos + n == |st.content| then Some(Ending(st)) else None)
  }

  class Source {
    const stream: Stream
    var pos: nat

    constructor (stream: Stream)
      ensures this.stream == stream && pos == 0
    {
      this.stream := stream;
      pos := 0;
    }

    method Read(want: nat) returns (got: seq<Byte>, error: Option<Error>)
      requires pos <= |stream.content|
      modifies this
      ensures pos <= |stream.content|
      ensures pos == old(pos) + |got| && got == stream.content[old(pos)..pos]
      ensures (|got|, error) == ReadCall(stream, old(pos), want)
    {
      var (n, e) := ReadCall(stream, pos, want);
      got, error := stream.content[pos..pos + n], e;
      pos := pos + n;
    }
  }

  /** The stream has reported end-of-file together with the byte before this position. */
  predicate Last(st: Stream, pos: nat) {
    st.eager && !st.broken && pos == |st.content|
  }

  /** What ReadFrom reads: the source itself, or io.MultiReader over a byte string and the source. readers:
      how many readers are left; the MultiReader drops one that reports end-of-file. */
  class Input {
    const chained: bool
    var readers: nat
    var injected: seq<Byte>
    const source: Source

    constructor Chain(injected: seq<Byte>, source: Source)
      ensures chained && readers == 2 && this.injected == injected && this.source == source
    {
      chained, readers := true, 2;
      this.injected := injected;
      this.source := source;
    }

    constructor Direct(source: Source)
      ensures !chained && readers == 1 && this.injected == [] && this.source == source
    {
      chained, readers := false, 1;
      injected := [];
      this.source := source;
    }

    ghost predicate Live()
      reads this, source
    {
      && readers <= 2 && source.pos <= |source.stream.content|
      && (readers == 0 ==> chained && !source.stream.broken && source.pos == |source.stream.content|)
    }

    /** The bytes pushed back in front of the source and not yet read again. */
    ghost function Pushed(): seq<Byte>
      reads this
    {
      if readers == 2 then injected else []
    }

    /** The source has been dropped. */
    ghost predicate Gone()
      reads this
    {
      readers == 0
    }

    method Read(want: nat) returns (got: seq<Byte>, error: Option<Error>)
      requires Live()
      modifies this, source
      ensures Live()
      ensures old(Pushed()) != [] ==>
                && got == old(Pushed())[..Min(want, |old(Pushed())|)] && error.None?
                && Pushed() == old(Pushed())[|got|..] && source.pos == old(source.pos) && !Gone()
      ensures old(Pushed()) == [] ==>
                && Pushed() == []
                && source.pos == old(source.pos) + |got| && got == source.stream.content[old(source.pos)..source.pos]
                && (|got|, error) == (if old(Gone()) then (0, Some(Eof))
                                      else ReadCall(source.stream, old(source.pos), want))
                && Gone() == (old(Gone()) || (chained && error == Some(Eof)))
    {
      if readers == 2 {
        if injected != [] {
          got, error := injected[..Min(want, |injected|)], None;
          injected := injected[|got|..];
          return;
        }
        readers := 1;
      }
      if readers == 0 {
        return [], Some(Eof);
      }
      got, error := source.Read(want);
      if chained && error == Some(Eof) {
        readers := 0;
      }
    }

    /** io.ReadFull, as binary.Read uses it: pieces of any size make no difference, and an error that comes
        with the last byte wanted is dropped, although the source may be gone with it. */
    method ReadFull(want: nat) returns (got: seq<Byte>, error: Option<Error>)
      requires Live() && want >= 1 && (Pushed() == [] || |Pushed()| == want == 1)
      modifies this, source
      ensures Live() && Pushed() == []
      ensures error.None? ==> |got| == want
      ensures old(Pushed()) != [] ==>
                error.None? && got == old(Pushed()) && source.pos == old(source.pos) && !Gone()
      ensures old(Pushed()) == [] ==>
                var st, left := source.stream, |source.stream.content| - old(source.pos);
                if left >= want
                then && error.None? && source.pos == old(source.pos) + want
                     && got == st.content[old(source.pos)..source.pos]
                     && Gone() == (chained && Last(st, source.pos))
                else && source.pos == |st.content|
                     && error == Some(if left == 0 || st.broken then Ending(st) else UnexpectedEof)
    {
      ghost var start, pushed := source.pos, Pushed();
      got, error := [], None;
      while |got| < want && error.None?
        invariant Live() && |got| <= want
        invariant if pushed == [] || got != [] then Pushed() == [] else Pushed() == pushed
        invariant pushed != [] ==>
                    start == source.pos && error.None? && (got == [] || got == pushed) && !Gone()
        invariant pushed == [] ==>
                    && start + |got| == source.pos && got == source.stream.content[start..source.pos]
                    && (got != [] ==> Gone() == (chained && error == Some(Eof)))
                    && (got != [] && error.None? ==> !(source.stream.eager && source.pos == |source.stream.content|))
        invariant error.Some? ==> error == Some(Ending(source.stream)) && source.pos == |source.stream.content|
        invariant got != [] && |got| == want && error.Some? ==> source.stream.eager
        decreases want - |got|, error.None?
      {
        var more: seq<Byte>;
        more, error := Read(want - |got|);
        got := got + more;
      }
      if |got| >= want {
        error := None;
      } else if error == Some(Eof) && |got| > 0 {
        error := Some(UnexpectedEof);
      }
    }
  }

  // ---------------------------------------------------------------- what reading a frame amounts to

  /** filled: what a value of type Binary has become by the time of the failure, if it is not untouched. */
  datatype Outcome =
    | Failure(error: Error, consumed: nat, filled: Option<seq<Byte>>)
    | Success(payload: Payload, consumed: nat)

  /** The one Read call for the payload, through the MultiReader (chained) or directly. */
  function PayloadCall(st: Stream, pos: nat, size: nat, chained: bool): (r: (nat, Option<Error>))
    requires pos <= |st.content|
    ensures r.0 <= size && pos + r.0 <= |st.content|
  {
    if chained && Last(st, pos) then (0, Some(Eof)) else ReadCall(st, pos, size)
  }

  /** Length and payload read at this position, once the type is known to be right. One Read call fetches
      the payload; what it does not fill stays zero. */
  function Body(st: Stream, pos: nat, kind: Kind, chained: bool): (r: Outcome)
    requires pos <= |st.content|
    ensures pos + r.consumed <= |st.content|
  {
    var left := |st.content| - pos;
    if left < 4 then Failure(if left == 0 || st.broken then Ending(st) else UnexpectedEof, left, None)
    else
      var size := GetU32(st.content[pos..]);
      if size > MAX_PAYLOAD_SIZE then Failure(TooLarge, 4, None)
      else
        var (n, error) := PayloadCall(st, pos + 4, size, chained);
        var bytes := st.content[pos + 4..pos + 4 + n] + Zeros(size - n);
        match error
        case Some(e) => Failure(e, 4 + n, Some(bytes))
        case None => Success(Payload(kind, bytes), 4 + n)
  }

  /** More bytes have been consumed in front of the outcome. */
  function After(taken: nat, r: Outcome): Outcome {
    r.(consumed := taken + r.consumed)
  }

  /** A decoder that reads the type and dispatches on it, and then reads length and payload. */
  function Decoding(st: Stream, pos: nat, chained: bool): (r: Outcome)
    requires pos <= |st.content|
    ensures pos + r.consumed <= |st.content|
  {
    if pos == |st.content| then Failure(Ending(st), 0, None)
    else if st.content[pos] == BINARY_TYPE then After(1, Body(st, pos + 1, Binary, chained))
    else if st.content[pos] == STRING_TYPE then After(1, Body(st, pos + 1, String, chained))
    else Failure(InvalidType, 1, None)
  }

  /** What decode does: the rest of the frame is read through the MultiReader that gives the type again. */
  function PushedBack(st: Stream, pos: nat): (r: Outcome)
    requires pos <= |st.content|
    ensures pos + r.consumed <= |st.content|
  {
    Decoding(st, pos, true)
  }

  /** The decoder that the comment on decode proposes instead: no MultiReader, nothing is read twice. */
  function OnePass(st: Stream, pos: nat): (r: Outcome)
    requires pos <= |st.content|
    ensures pos + r.consumed <= |st.content|
  {
    Decoding(st, pos, false)
  }

  // ---------------------------------------------------------------- the payload objects

  /** An io.Writer; a limit, if it has one, is where it starts to fail. */
  class Sink {
    var content: seq<Byte>
    const limit: Option<nat>

    constructor (limit: Option<nat>)
      ensures content == [] && this.limit == limit
    {
      content := [];
      this.limit := limit;
    }

    predicate Valid()
      reads this
    {
      limit.Some? ==> |content| <= limit.value
    }

    /** How much of the next n bytes it takes. */
    function Room(n: nat): nat
      requires Valid()
      reads this
    {
      if limit.Some? then Min(n, limit.value - |content|) else n
    }

    method Write(p: seq<Byte>) returns (n: nat, failed: bool)
      requires Valid()
      modifies this
      ensures Valid() && n == old(Room(|p|)) && failed == (n < |p|)
      ensures limit.None? || |old(content)| + |p| <= limit.value <==> !failed
      ensures content == old(content) + p[..n]
    {
      n := Room(|p|);
      failed := n < |p|;
      content := content + p[..n];
    }
  }

  /** A piece of s is written where the sink has got to. */
  lemma Onward(before: seq<Byte>, s: seq<Byte>, k: nat, piece: seq<Byte>, o: nat)
    requires o <= |piece| && k + |piece| <= |s| && s[k..k + |piece|] == piece
    ensures before + s[..k] + piece[..o] == before + s[..k + o]
  {
    assert s[..k + o] == s[..k] + s[k..k + |piece|][..o];
  }

  lemma FrameParts(kind: Kind, bytes: seq<Byte>)
    ensures var length, frame := PutU32(|bytes| % 0x1_0000_0000), Frame(Payload(kind, bytes));
            && |length| == 4 && frame == [TypeOf(kind)] + length + bytes
            && frame[0..1] == [TypeOf(kind)] && frame[1..5] == length && frame[5..5 + |bytes|] == bytes
  {}

  /** The three writes both WriteTo methods make. */
  method WriteFrame(w: Sink, kind: Kind, bytes: seq<Byte>) returns (n: nat, error: Option<Error>)
    requires w.Valid()
    modifies w
    ensures w.Valid()
    ensures var frame := Frame(Payload(kind, bytes));
            var room := old(w.Room(|frame|));
            && w.content == old(w.content) + frame[..room]
            && if room == |frame| then error.None? && n == 5 + |bytes| else error == Some(WriteFailed) && n == 0
  {
    hide Frame, PutU32;
    var typ, length := [TypeOf(kind)], PutU32(|bytes| % 0x1_0000_0000);
    FrameParts(kind, bytes);
    ghost var before, frame := w.content, Frame(Payload(kind, bytes));
    var o, failed := w.Write(typ);
    Onward(before, frame, 0, typ, o);
    assert before + frame[..0] == before;
    if failed {
      return 0, Some(WriteFailed);
    }
    o, failed := w.Write(length);
    Onward(before, frame, 1, length, o);
    if failed {
      return 0, Some(WriteFailed);
    }
    o, failed := w.Write(bytes);
    Onward(before, frame, 5, bytes, o);
    if failed {
      return 0, Some(WriteFailed);
    }
    return 5 + o, None;
  }

  /** The type an input is about to deliver. */
  ghost function TypeAhead(r: Input): Option<Byte>
    requires r.Live()
    reads r, r.source
  {
    if r.Pushed() != [] then Some(r.Pushed()[0])
    else if r.source.pos < |r.source.stream.content| then Some(r.source.stream.content[r.source.pos])
    else None
  }

  /** What ReadFrom must come to when this is the type ahead and pos is where the source will stand
      once it has been read; taken tells whether the source itself delivers it. */
  function Expected(ahead: Option<Byte>, st: Stream, pos: nat, kind: Kind, taken: nat, chained: bool): Outcome
    requires pos <= |st.content| || ahead.None?
  {
    match ahead
    case None => Failure(Ending(st), 0, None)
    case Some(t) =>
      if t != TypeOf(kind) then Failure(InvalidType, taken, None)
      else After(taken, Body(st, pos, kind, chained))
  }

  lemma BodyFailsEarly(st: Stream, pos: nat, kind: Kind, chained: bool)
    requires pos <= |st.content|
    ensures var left := |st.content| - pos;
            && (left < 4 ==>
                  Body(st, pos, kind, chained)
                  == Failure(if left == 0 || st.broken then Ending(st) else UnexpectedEof, left, None))
            && (left >= 4 && GetU32(st.content[pos..]) > MAX_PAYLOAD_SIZE ==>
                  Body(st, pos, kind, chained) == Failure(TooLarge, 4, None))
  {}

  lemma FieldAt(s: seq<Byte>, pos: nat)
    requires pos + 4 <= |s|
    ensures GetU32(s[pos..pos + 4]) == GetU32(s[pos..])
  {
    assert s[pos..pos + 4][2..][0] == s[pos..][2..][0];
  }

  /** Type and length, as both ReadFrom methods begin. */
  method ReadHeader(r: Input, kind: Kind) returns (size: nat, error: Option<Error>)
    requires r.Live() && |r.Pushed()| <= 1
    modifies r, r.source
    ensures r.Live()
    ensures var st, start, taken := r.source.stream, old(r.source.pos), 1 - |old(r.Pushed())|;
            && start <= r.source.pos
            && (error.Some? ==>
                  Expected(old(TypeAhead(r)), st, start + taken, kind, taken, r.chained)
                  == Failure(error.value, r.source.pos - start, None))
            && (error.None? ==>
                  && r.Pushed() == [] && r.source.pos == start + taken + 4
                  && r.Gone() == (r.chained && Last(st, r.source.pos))
                  && old(TypeAhead(r)) == Some(TypeOf(kind))
                  && size == GetU32(st.content[start + taken..]) <= MAX_PAYLOAD_SIZE)
  {
    hide GetU32, Body;
    ghost var st, ahead := r.source.stream, TypeAhead(r);
    ghost var pos, taken := r.source.pos + 1 - |r.Pushed()|, 1 - |r.Pushed()|;
    ghost var expected := Expected(ahead, st, pos, kind, taken, r.chained);
    size := 0;
    var typ: seq<Byte>, field: seq<Byte>;
    typ, error := r.ReadFull(1);
    if error.Some? {
      assert ahead.None?;
      return;
    }
    assert r.source.pos == pos && ahead == Some(typ[0]);
    if typ[0] != TypeOf(kind) {
      return size, Some(InvalidType);
    }
    BodyFailsEarly(st, pos, kind, r.chained);
    field, error := r.ReadFull(4);
    if error.Some? {
      assert expected == Failure(error.value, taken + |st.content| - pos, None);
      return;
    }
    FieldAt(st.content, pos);
    size := GetU32(field);
    if size > MAX_PAYLOAD_SIZE {
      assert expected == Failure(TooLarge, taken + 4, None);
      error := Some(TooLarge);
    }
  }

  /** From a good header on, everything hangs on the one Read call. */
  lemma BodyReads(st: Stream, pos: nat, kind: Kind, chained: bool)
    requires pos + 4 <= |st.content| && GetU32(st.content[pos..]) <= MAX_PAYLOAD_SIZE
    ensures var size := GetU32(st.content[pos..]);
            var (n, error) := PayloadCall(st, pos + 4, size, chained);
            var bytes := st.content[pos + 4..pos + 4 + n] + Zeros(size - n);
            Body(st, pos, kind, chained)
            == if error.Some? then Failure(error.value, 4 + n, Some(bytes)) else Success(Payload(kind, bytes), 4 + n)
  {
    hide GetU32, PayloadCall;
  }

  /** What ReadFrom comes to, from the state its input is in. */
  ghost function Promised(r: Input, kind: Kind): Outcome
    requires r.Live() && |r.Pushed()| <= 1
    reads r, r.source
  {
    var taken := 1 - |r.Pushed()|;
    Expected(TypeAhead(r), r.source.stream, r.source.pos + taken, kind, taken, r.chained)
  }

  lemma WrongType(ahead: Option<Byte>, st: Stream, pos: nat, kind: Kind, taken: nat, chained: bool)
    requires pos <= |st.content| || ahead.None?
    ensures ahead.Some? && ahead.value != TypeOf(kind)
        ==> Expected(ahead, st, pos, kind, taken, chained) == Failure(InvalidType, taken, None)
  {
    hide Body;
  }

  /** The same for ReadFrom: what its Read call brought settles what it comes to. */
  lemma PayloadSettles(ahead: Option<Byte>, st: Stream, pos: nat, kind: Kind, taken: nat, chained: bool,
                       n: nat, error: Option<Error>, bytes: seq<Byte>)
    requires pos + 4 <= |st.content| && GetU32(st.content[pos..]) <= MAX_PAYLOAD_SIZE && ahead == Some(TypeOf(kind))
    requires (n, error) == PayloadCall(st, pos + 4, GetU32(st.content[pos..]), chained)
    requires bytes == st.content[pos + 4..pos + 4 + n] + Zeros(GetU32(st.content[pos..]) - n)
    ensures Expected(ahead, st, pos, kind, taken, chained)
         == if error.Some? then Failure(error.value, taken + 4 + n, Some(bytes))
            else Success(Payload(kind, bytes), taken + 4 + n)
  {
    hide GetU32, PayloadCall, Body, Zeros;
    BodyReads(st, pos, kind, chained);
  }

  lemma ZerosLeft(n: nat, k: nat)
    requires k <= n
    ensures |Zeros(n)| == n && Zeros(n)[k..] == Zeros(n - k)
  {}

  class BinaryPayload {
    var bytes: seq<Byte>

    constructor (bytes: seq<Byte>)
      ensures this.bytes == bytes
    {
      this.bytes := bytes;
    }

    method WriteTo(w: Sink) returns (n: nat, error: Option<Error>)
      requires w.Valid()
      modifies w
      ensures w.Valid()
      ensures var frame := Frame(Payload(Binary, bytes));
              var room := old(w.Room(|frame|));
              && w.content == old(w.content) + frame[..room]
              && if room == |frame| then error.None? && n == 5 + |bytes| else error == Some(WriteFailed) && n == 0
    {
      n, error := WriteFrame(w, Binary, bytes);
    }

    /** The value is allocated before the payload is read, and keeps what a failing read brings. */
    method ReadFrom(r: Input) returns (n: nat, error: Option<Error>)
      requires r.Live() && |r.Pushed()| <= 1
      modifies this`bytes, r, r.source
      ensures r.Live()
      ensures match old(Promised(r, Binary))
              case Success(p, c) => && error.None? && bytes == p.bytes && r.source.pos == old(r.source.pos) + c
                                    && n == c + |old(r.Pushed())|
              case Failure(e, c, filled) => && error == Some(e) && n == 0 && r.source.pos == old(r.source.pos) + c
                                            && bytes == if filled.Some? then filled.value else old(bytes)
      ensures old(TypeAhead(r)).Some? && old(TypeAhead(r)).value != 1 ==>
                error == Some(InvalidType) && n == 0 && bytes == old(bytes)
      ensures error.None? ==>
                && 5 <= n <= 5 + |bytes| && n - 5 <= r.source.pos
                && bytes == r.source.stream.content[r.source.pos - (n - 5)..r.source.pos] + Zeros(|bytes| - (n - 5))
    {
      hide GetU32, ReadCall, Expected, Zeros;
      ghost var ahead, taken := TypeAhead(r), 1 - |r.Pushed()|;
      WrongType(ahead, r.source.stream, r.source.pos + taken, Binary, taken, r.chained);
      var size: nat;
      size, error := ReadHeader(r, Binary);
      if error.Some? {
        return 0, error;
      }
      ghost var body := r.source.pos - 4;
      bytes := Zeros(size);
      var got: seq<Byte>;
      got, error := r.Read(size);
      ZerosLeft(size, |got|);
      bytes := got + bytes[|got|..];
      PayloadSettles(ahead, r.source.stream, body, Binary, taken, r.chained, |got|, error, bytes);
      if error.Some? {
        return 0, error;
      }
      n := 5 + |got|;
    }
  }

  class StringPayload {
    var bytes: seq<Byte>

    constructor (bytes: seq<Byte>)
      ensures this.bytes == bytes
    {
      this.bytes := bytes;
    }

    method WriteTo(w: Sink) returns (n: nat, error: Option<Error>)
      requires w.Valid()
      modifies w
      ensures w.Valid()
      ensures var frame := Frame(Payload(String, bytes));
              var room := old(w.Room(|frame|));
              && w.content == old(w.content) + frame[..room]
              && if room == |frame| then error.None? && n == 5 + |bytes| else error == Some(WriteFailed) && n == 0
    {
      n, error := WriteFrame(w, String, bytes);
    }

    /** The value is assigned only once the payload has been read. */
    method ReadFrom(r: Input) returns (n: nat, error: Option<Error>)
      requires r.Live() && |r.Pushed()| <= 1
      modifies this`bytes, r, r.source
      ensures r.Live()
      ensures match old(Promised(r, String))
              case Success(p, c) => && error.None? && bytes == p.bytes && r.source.pos == old(r.source.pos) + c
                                    && n == c + |old(r.Pushed())|
              case Failure(e, c, _) => && error == Some(e) && n == 0 && r.source.pos == old(r.source.pos) + c
                                       && bytes == old(bytes)
      ensures old(TypeAhead(r)).Some? && old(TypeAhead(r)).value != 2 ==>
                error == Some(InvalidType) && n == 0 && bytes == old(bytes)
      ensures error.None? ==>
                && 5 <= n <= 5 + |bytes| && n - 5 <= r.source.pos
                && bytes == r.source.stream.content[r.source.pos - (n - 5)..r.source.pos] + Zeros(|bytes| - (n - 5))
    {
      hide GetU32, ReadCall, Expected, Zeros;
      ghost var ahead, taken := TypeAhead(r), 1 - |r.Pushed()|;
      WrongType(ahead, r.source.stream, r.source.pos + taken, String, taken, r.chained);
      var size: nat;
      size, error := ReadHeader(r, String);
      if error.Some? {
        return 0, error;
      }
      ghost var body := r.source.pos - 4;
      var buf := Zeros(size);
      var got: seq<Byte>;
      got, error := r.Read(size);
      ZerosLeft(size, |got|);
      PayloadSettles(ahead, r.source.stream, body, String, taken, r.chained, |got|, error, got + buf[|got|..]);
      if error.Some? {
        return 0, error;
      }
      bytes := got + buf[|got|..];
      n := 5 + |got|;
    }
  }

  lemma BodyKind(st: Stream, pos: nat, kind: Kind, chained: bool)
    requires pos <= |st.content|
    ensures Body(st, pos, kind, chained).Success? ==> Body(st, pos, kind, chained).payload.kind == kind
  {}

  /** decode: the type byte is read, pushed back in front of the stream, and read again by ReadFrom. */
  method Decode(source: Source) returns (payload: Option<Payload>, error: Option<Error>)
    requires source.pos <= |source.stream.content|
    modifies source
    ensures source.pos <= |source.stream.content|
    ensures match PushedBack(source.stream, old(source.pos))
            case Success(p, n) => payload == Some(p) && error.None? && source.pos == old(source.pos) + n
            case Failure(e, n, _) => payload.None? && error == Some(e) && source.pos == old(source.pos) + n
    ensures var st, pos := source.stream, old(source.pos);
            pos < |st.content| && st.content[pos] != 1 && st.content[pos] != 2 ==>
              payload.None? && error == Some(InvalidType) && source.pos == pos + 1
  {
    hide Body;
    var direct := new Input.Direct(source);
    var typ: seq<Byte>;
    typ, error := direct.ReadFull(1);
    if error.Some? {
      return None, error;
    }
    BodyKind(source.stream, source.pos, Binary, true);
    BodyKind(source.stream, source.pos, String, true);
    var n: nat;
    var again := new Input.Chain(typ, source);
    if typ[0] == BINARY_TYPE {
      var b := new BinaryPayload([]);
      n, error := b.ReadFrom(again);
      if error.None? {
        payload := Some(Payload(Binary, b.bytes));
      } else {
        payload := None;
      }
    } else if typ[0] == STRING_TYPE {
      var s := new StringPayload([]);
      n, error := s.ReadFrom(again);
      if error.None? {
        payload := Some(Payload(String, s.bytes));
      } else {
        payload := None;
      }
    } else {
      return None, Some(InvalidType);
    }
  }

  // ---------------------------------------------------------------- the answer, from the bytes alone

  /** The length field of a frame at this position. */
  function LengthAt(content: seq<int>, pos: nat): int
    requires pos + 5 <= |content|
  {
    content[pos + 1] * 0x100_0000 + content[pos + 2] * 0x1_0000 + content[pos + 3] * 0x100 + content[pos + 4]
  }

  lemma LengthRead(content: seq<Byte>, pos: nat)
    requires pos + 5 <= |content|
    ensures GetU32(content[pos + 1..]) == LengthAt(content, pos)
  {
    var field := content[pos + 1..];
    assert field[2..][0] == field[2] && field[2..][1] == field[3];
  }

  /** What is refused, why, and how much of it is gone by then, for every stream and position: the end of the
      stream, an unknown type, a header that is cut off, a length above 10 MiB. */
  lemma {:induction false} RefusedExactly(st: Stream, pos: nat, chained: bool)
    requires pos <= |st.content|
    ensures var r, left := Decoding(st, pos, chained), |st.content| - pos;
            if left == 0 then r == Failure(if st.broken then Broken else Eof, 0, None)
            else if st.content[pos] != 1 && st.content[pos] != 2 then r == Failure(InvalidType, 1, None)
            else if left < 5 then
              r == Failure(if st.broken then Broken else if left == 1 then Eof else UnexpectedEof, left, None)
            else if LengthAt(st.content, pos) > 10 * 0x10_0000 then r == Failure(TooLarge, 5, None)
            else r.Success? || (r.error == (if st.broken then Broken else Eof) && pos + r.consumed == |st.content|)
  {
    hide GetU32, Granted, Zeros;
    if pos + 5 <= |st.content| {
      LengthRead(st.content, pos);
    }
  }

  lemma BodyAccepted(st: Stream, pos: nat, kind: Kind, chained: bool)
    requires pos <= |st.content| && Body(st, pos, kind, chained).Success?
    ensures pos + 4 <= |st.content|
    ensures var p, o := Body(st, pos, kind, chained).payload, Body(st, pos, kind, chained).consumed - 4;
            && 0 <= o <= |p.bytes| && (p.bytes != [] ==> o >= 1) && pos + 4 + o <= |st.content|
            && p == Payload(kind, st.content[pos + 4..pos + 4 + o] + Zeros(|p.bytes| - o))
            && GetU32(st.content[pos..]) == |p.bytes| <= MAX_PAYLOAD_SIZE
  {
    hide GetU32;
  }

  /** What is accepted, for every stream and position: the type is that of the value, the length field its
      length, and the value is the bytes consumed behind them, at least one if there are any, then zeros. */
  lemma {:induction false} AcceptedIs(st: Stream, pos: nat, chained: bool)
    requires pos <= |st.content| && Decoding(st, pos, chained).Success?
    ensures var p, o := Decoding(st, pos, chained).payload, Decoding(st, pos, chained).consumed - 5;
            && 0 <= o <= |p.bytes| && (p.bytes != [] ==> o >= 1) && pos + 5 + o <= |st.content|
            && st.content[pos] == (if p.kind.Binary? then 1 else 2)
            && LengthAt(st.content, pos) == |p.bytes| <= 10 * 0x10_0000
            && p.bytes == st.content[pos + 5..pos + 5 + o] + Zeros(|p.bytes| - o)
  {
    hide GetU32, Body, LengthAt, Zeros;
    var kind := if st.content[pos] == BINARY_TYPE then Binary else String;
    BodyAccepted(st, pos + 1, kind, chained);
    LengthRead(st.content, pos);
  }

  /** Where the type is right, ReadFrom by itself comes to what a decoder does. */
  lemma ReadFromDecodes(r: Input, kind: Kind)
    requires r.Live() && r.Pushed() == [] && TypeAhead(r) == Some(TypeOf(kind))
    ensures Promised(r, kind) == Decoding(r.source.stream, r.source.pos, r.chained)
  {
    hide Body;
  }

  // ---------------------------------------------------------------- pushing the type back

  /** The one frame that pushing the type back makes undecodable: an empty one whose last byte came together
      with end-of-file, from a reader that would have borne being read again for nothing. */
  predicate LostEmpty(st: Stream, pos: nat) {
    && pos + 5 == |st.content| && st.eager && st.quiet && !st.broken
    && (st.content[pos] == BINARY_TYPE || st.content[pos] == STRING_TYPE)
    && GetU32(st.content[pos + 1..]) == 0
  }

  /** Pushing the type byte back and reading it again changes nothing, neither payload nor error nor what is
      consumed, but for that frame. */
  lemma {:induction false} PushBackExactly(st: Stream, pos: nat)
    requires pos <= |st.content|
    ensures PushedBack(st, pos) == OnePass(st, pos) <==> !LostEmpty(st, pos)
    ensures LostEmpty(st, pos) ==> OnePass(st, pos).Success? && PushedBack(st, pos) == Failure(Eof, 5, Some([]))
  {
    hide GetU32, Granted;
  }
}
