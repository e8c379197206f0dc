/** Container logs: the incremental demultiplexer of Docker's framed stream against the batch decoder. */
module LogDemux {
  import opened Bytes
  import opened Options

  function BigEndian32(b: seq<Byte>): nat
    requires |b| == 4
  {
    0x100_0000 * (b[0] as int) + 0x1_0000 * (b[1] as int) + 0x100 * (b[2] as int) + b[3] as int
  }

  function FrameLength(s: seq<Byte>): nat
    requires |s| >= 8
  {
    BigEndian32(s[4..8])
  }

  // ----- the batch decoder ----------------------------------------------------------------------------------------

  /** The payload of whole frames; `None` when a header or a frame is cut off. */
  function Decode(s: seq<Byte>): Option<seq<Byte>> {
    if s == [] then Some([])
    else if |s| < 8 || |s| - 8 < FrameLength(s) then None
    else Prepend(s[8..8 + FrameLength(s)], Decode(s[8 + FrameLength(s)..]))
  }

  function Prepend(a: seq<Byte>, b: Option<seq<Byte>>): Option<seq<Byte>> {
    if b.None? then None else Some(a + b.value)
  }

  /** The loop of `decode_docker_stream`, before its UTF-8 check. */
  method DecodeStream(bytes: seq<Byte>) returns (r: Option<seq<Byte>>)
    ensures r == Decode(bytes)
  {
    var offset, out: seq<Byte> := 0, [];
    assert bytes[0..] == bytes;
    PrependNothing(Decode(bytes));
    while offset < |bytes|
      invariant offset <= |bytes| && Decode(bytes) == Prepend(out, Decode(bytes[offset..]))
    {
      if |bytes| - offset < 8 {
        return None;
      }
      var header := bytes[offset..offset + 8];
      var length := FrameLength(header);
      assert bytes[offset..][4..8] == bytes[offset + 4..offset + 8] == header[4..8];
      offset := offset + 8;
      if |bytes| - offset < length {
        return None;
      }
      assert bytes[offset - 8..][8 + length..] == bytes[offset + length..];
      assert bytes[offset - 8..][8..8 + length] == bytes[offset..offset + length];
      PrependTwice(out, bytes[offset..offset + length], Decode(bytes[offset + length..]));
      out := out + bytes[offset..offset + length];
      offset := offset + length;
    }
    assert bytes[offset..] == [] && out + [] == out;
    return Some(out);
  }

  lemma PrependNothing(b: Option<seq<Byte>>)
    ensures Prepend([], b) == b
  {
    if b.Some? { assert [] + b.value == b.value; }
  }

  lemma PrependTwice(a: seq<Byte>, b: seq<Byte>, c: Option<seq<Byte>>)
    ensures Prepend(a, Prepend(b, c)) == Prepend(a + b, c)
  {
    if c.Some? { assert a + (b + c.value) == a + b + c.value; }
  }

  // ----- the incremental demultiplexer ----------------------------------------------------------------------------

  predicate HeaderValid(s: seq<Byte>)
    requires |s| >= 8
  {
    (s[0] == 1 || s[0] == 2) && s[1] == 0 && s[2] == 0 && s[3] == 0
  }

  /** Every header that is reached is one of standard output or standard error. */
  predicate HeadersValid(s: seq<Byte>) {
    |s| >= 8 ==> HeaderValid(s) && (|s| - 8 >= FrameLength(s) ==> HeadersValid(s[8 + FrameLength(s)..]))
  }

  /** What is still to come, `remaining` bytes of the current frame first. */
  function Resume(remaining: nat, rest: seq<Byte>): Option<seq<Byte>> {
    if |rest| < remaining then None else Prepend(rest[..remaining], Decode(rest[remaining..]))
  }

  predicate ResumeValid(remaining: nat, rest: seq<Byte>) {
    |rest| < remaining || HeadersValid(rest[remaining..])
  }

  // ----- the frames of the format ---------------------------------------------------------------------------------

  /** A frame of standard output or, with `isError`, of standard error. */
  datatype Frame = Frame(isError: bool, payload: seq<Byte>)

  function FrameBytes(f: Frame): seq<Byte>
    requires |f.payload| <= U32_MAX
  {
    var n := |f.payload|;
    [if f.isError then 2 else 1, 0, 0, 0]
    + [n / 0x100_0000, n / 0x1_0000 % 0x100, n / 0x100 % 0x100, n % 0x100]
    + f.payload
  }

  predicate AllFit(frames: seq<Frame>) {
    forall i :: 0 <= i < |frames| ==> |frames[i].payload| <= U32_MAX
  }

  function Written(frames: seq<Frame>): seq<Byte>
    requires AllFit(frames)
  {
    if frames == [] then [] else FrameBytes(frames[0]) + Written(frames[1..])
  }

  function Payloads(frames: seq<Frame>): seq<Byte> {
    if frames == [] then [] else frames[0].payload + Payloads(frames[1..])
  }

  lemma LengthIsRead(f: Frame, rest: seq<Byte>)
    requires |f.payload| <= U32_MAX
    ensures var s := FrameBytes(f) + rest;
            && |s| >= 8 && HeaderValid(s) && FrameLength(s) == |f.payload| && |s| - 8 >= |f.payload|
            && s[8..8 + |f.payload|] == f.payload && s[8 + |f.payload|..] == rest
  {
    var n := |f.payload|;
    LengthBytes(n);
    var head: seq<Byte> := [if f.isError then 2 else 1, 0, 0, 0];
    var length: seq<Byte> := [n / 0x100_0000, n / 0x1_0000 % 0x100, n / 0x100 % 0x100, n % 0x100];
    var s := FrameBytes(f) + rest;
    assert s == head + length + (f.payload + rest);
    assert s[..4] == head && s[4..8] == length && s[8..] == f.payload + rest;
    assert s[8..8 + n] == s[8..][..n] && s[8 + n..] == s[8..][n..];
    assert s[0] == head[0] && s[1] == head[1] && s[2] == head[2] && s[3] == head[3];
  }

  lemma LengthBytes(n: nat)
    requires n <= U32_MAX
    ensures 0 <= n / 0x100_0000 < 0x100
    ensures BigEndian32([n / 0x100_0000, n / 0x1_0000 % 0x100, n / 0x100 % 0x100, n % 0x100]) == n
  {
    var a, b := n / 0x100, n / 0x1_0000;
    assert n == 0x100 * a + n % 0x100 && a == 0x100 * b + a % 0x100;
    assert b == 0x100 * (n / 0x100_0000) + b % 0x100;
  }

  /** What was written as frames is read back as their payloads, in order. */
  lemma {:induction false} WrittenIsDecoded(frames: seq<Frame>)
    requires AllFit(frames)
    ensures Decode(Written(frames)) == Some(Payloads(frames)) && HeadersValid(Written(frames))
  {
    hide FrameBytes, FrameLength, HeaderValid;
    if frames != [] {
      WrittenIsDecoded(frames[1..]);
      LengthIsRead(frames[0], Written(frames[1..]));
    }
  }

  lemma FrameIsWritten(s: seq<Byte>)
    requires |s| >= 8 && HeaderValid(s) && |s| - 8 >= FrameLength(s)
    ensures var f := Frame(s[0] == 2, s[8..8 + FrameLength(s)]);
            |f.payload| <= U32_MAX && s == FrameBytes(f) + s[8 + FrameLength(s)..]
  {
    var n, f := FrameLength(s), Frame(s[0] == 2, s[8..8 + FrameLength(s)]);
    SplitLength(s[4], s[5], s[6], s[7]);
    assert s[4..8] == [s[4], s[5], s[6], s[7]];
    assert FrameBytes(f) == s[..8] + f.payload;
    assert s == s[..8] + s[8..8 + n] + s[8 + n..];
  }

  lemma SplitLength(a: Byte, b: Byte, c: Byte, d: Byte)
    ensures var n: int := 0x100_0000 * a + 0x1_0000 * b + 0x100 * c + d;
            && 0 <= n <= U32_MAX
            && n / 0x100_0000 == a && n / 0x1_0000 % 0x100 == b && n / 0x100 % 0x100 == c && n % 0x100 == d
  {
    var n: int := 0x100_0000 * a + 0x1_0000 * b + 0x100 * c + d;
    assert n / 0x1_0000 == 0x100 * a + b && n / 0x100 == 0x1_0000 * a + 0x100 * b + c;
  }

  /** Bytes are read to their end exactly when they are whole frames of the two streams. */
  lemma {:induction false} DecodedIsWritten(s: seq<Byte>) returns (frames: seq<Frame>)
    requires Decode(s).Some? && HeadersValid(s)
    ensures AllFit(frames) && Written(frames) == s && Decode(s) == Some(Payloads(frames))
  {
    hide FrameBytes, FrameLength, HeaderValid;
    if s == [] {
      frames := [];
    } else {
      FrameIsWritten(s);
      var n := FrameLength(s);
      var rest := DecodedIsWritten(s[8 + n..]);
      frames := [Frame(s[0] == 2, s[8..8 + n])] + rest;
      assert frames[1..] == rest;
    }
  }

  datatype Reading =
    | Data(bytes: seq<Byte>)
    | End
    | Truncated       // the stream ended inside a header or a frame
    | InvalidFrame    // the header is not one of standard output or standard error
    | TransportFailed // the stream ended cleanly and its process did not

  class LogStream {
    var rest: seq<Byte>        // what the transport still has to give
    var shorts: seq<nat>       // how much each read of it gives at most
    const succeeds: bool       // the exit status of its process
    const multiplex: bool
    var remaining: nat
    ghost const all: seq<Byte>
    ghost var delivered: seq<Byte>

    constructor (input: seq<Byte>, shorts: seq<nat>, succeeds: bool, multiplex: bool)
      ensures Valid() && all == input && this.succeeds == succeeds && this.multiplex == multiplex && delivered == []
    {
      rest, this.shorts, this.succeeds, this.multiplex, remaining := input, shorts, succeeds, multiplex, 0;
      all, delivered := input, [];
      new;
      Begin(input);
    }

    /** What was delivered and what is to come are the payload of the whole stream. */
    ghost predicate Valid()
      reads this
    {
      if multiplex then
        && Payload() == Prepend(delivered, Resume(remaining, rest))
        && (HeadersValid(all) <==> ResumeValid(remaining, rest))
      else all == delivered + rest
    }

    /** The payload by the batch decoder; the bytes themselves when there are no frames. */
    ghost function Payload(): Option<seq<Byte>> {
      if multiplex then Decode(all) else Some(all)
    }

    ghost predicate Wellformed() {
      multiplex ==> HeadersValid(all)
    }

    lemma Begin(input: seq<Byte>)
      ensures Decode(input) == Prepend([], Resume(0, input)) && (HeadersValid(input) <==> ResumeValid(0, input))
      ensures input == [] + input
    {
      assert input[0..] == input && input[..0] == [];
      PrependNothing(Decode(input));
    }

    /** A read of the transport: some bytes while there are any, at most `n`. */
    method Take(n: nat) returns (bytes: seq<Byte>)
      requires n > 0
      modifies this`rest, this`shorts
      ensures |bytes| <= n && old(rest) == bytes + rest && (bytes == [] <==> old(rest) == [])
    {
      var most := if n <= |rest| then n else |rest|;
      if shorts != [] {
        if 0 < shorts[0] < most {
          most := shorts[0];
        }
        shorts := shorts[1..];
      }
      bytes, rest := rest[..most], rest[most..];
    }

    /** The end of the transport. */
    method Eof() returns (r: Reading)
      ensures r == if succeeds then End else TransportFailed
    {
      return if succeeds then End else TransportFailed;
    }

    /** The headers before the next payload byte. Zero-length frames are passed over. */
    method NextFrame() returns (stop: Option<Reading>)
      requires multiplex && Valid()
      modifies this`rest, this`remaining
      ensures Valid() && delivered == old(delivered) && |rest| <= |old(rest)|
      ensures stop.None? ==> remaining > 0
      ensures stop.Some? ==>
                || (stop.value == End && succeeds && Payload() == Some(delivered))
                || (stop.value == TransportFailed && !succeeds && Payload() == Some(delivered))
                || (stop.value == Truncated && Payload().None?)
                || (stop.value == InvalidFrame && !HeadersValid(all))
      ensures stop == Some(End) || stop == Some(TransportFailed) ==> HeadersValid(all)
    {
      while remaining == 0
        invariant Valid() && |rest| <= |old(rest)|
        decreases |rest|, remaining == 0
      {
        NoRemainder(rest);
        if rest == [] {
          assert delivered + [] == delivered;
          var eof := Eof();
          return Some(eof);
        }
        if |rest| < 8 {
          return Some(Truncated);
        }
        var header := rest[..8];
        if !HeaderValid(header) {
          return Some(InvalidFrame);
        }
        FrameStarts(rest);
        rest, remaining := rest[8..], FrameLength(header);
      }
      return None;
    }

    lemma NoRemainder(rest: seq<Byte>)
      ensures Resume(0, rest) == Decode(rest) && (ResumeValid(0, rest) <==> HeadersValid(rest))
    {
      assert rest[0..] == rest && rest[..0] == [];
      PrependNothing(Decode(rest));
    }

    lemma FrameStarts(rest: seq<Byte>)
      requires |rest| >= 8 && HeaderValid(rest[..8])
      ensures var n := FrameLength(rest[..8]);
              Decode(rest) == Resume(n, rest[8..]) && (HeadersValid(rest) <==> ResumeValid(n, rest[8..]))
    {
      var n := FrameLength(rest[..8]);
      assert rest[..8][4..8] == rest[4..8];
      if |rest| - 8 >= n {
        assert rest[8..][..n] == rest[8..8 + n] && rest[8..][n..] == rest[8 + n..];
      }
    }

    lemma FrameGoesOn(remaining: nat, bytes: seq<Byte>, rest: seq<Byte>)
      requires |bytes| <= remaining
      ensures Resume(remaining, bytes + rest) == Prepend(bytes, Resume(remaining - |bytes|, rest))
      ensures ResumeValid(remaining, bytes + rest) <==> ResumeValid(remaining - |bytes|, rest)
    {
      var k := remaining - |bytes|;
      if |rest| >= k {
        assert (bytes + rest)[remaining..] == rest[k..];
        assert (bytes + rest)[..remaining] == bytes + rest[..k];
        PrependTwice(bytes, rest[..k], Decode(rest[k..]));
      }
    }

    /** `read` into a buffer of `size` bytes. */
    method Read(size: nat) returns (r: Reading)
      requires Valid()
      modifies this`rest, this`shorts, this`remaining, this`delivered
      ensures Valid() && |rest| <= |old(rest)|
      ensures r.Data? ==> delivered == old(delivered) + r.bytes && |r.bytes| <= size && (r.bytes == [] <==> size == 0)
      ensures r.Data? && size > 0 ==> |rest| < |old(rest)|
      ensures !r.Data? ==> delivered == old(delivered)
      ensures r == End || r == TransportFailed ==>
                Payload() == Some(delivered) && Wellformed() && (r == End <==> succeeds)
      ensures r == Truncated ==> Payload().None?
      ensures r == InvalidFrame ==> !Wellformed()
    {
      hide Decode, HeadersValid, Resume, ResumeValid;
      if size == 0 {
        assert delivered + [] == delivered;
        return Data([]);
      }
      if !multiplex {
        assert rest == [] ==> delivered + rest == delivered;
        var bytes := Take(size);
        if bytes == [] {
          r := Eof();
        } else {
          r := Data(bytes);
        }
        delivered := delivered + bytes;
        return;
      }
      var stop := NextFrame();
      if stop.Some? {
        return stop.value;
      }
      var length := if size <= remaining then size else remaining;
      ghost var before := rest;
      var bytes := Take(length);
      if bytes == [] {
        Starved(remaining);
        assert rest == [];
        return Truncated;
      }
      FrameGoesOn(remaining, bytes, rest);
      PrependTwice(delivered, bytes, Resume(remaining - |bytes|, rest));
      remaining := remaining - |bytes|;
      delivered := delivered + bytes;
      return Data(bytes);
    }

    lemma Starved(remaining: nat)
      requires remaining > 0
      ensures Resume(remaining, []).None?
    {
    }
  }

  /** Reading to the end, whatever the sizes of the buffers and the short reads: a clean end comes exactly when the
      headers are valid, the batch decoder finds nothing cut off and the transport succeeded; and then what was
      delivered is what the batch decoder gives. */
  method ReadToEnd(stream: LogStream, sizes: nat -> nat) returns (last: Reading)
    requires stream.Valid() && stream.delivered == [] && forall i :: sizes(i) > 0
    modifies stream`rest, stream`shorts, stream`remaining, stream`delivered
    ensures last == End <==> stream.Payload().Some? && stream.Wellformed() && stream.succeeds
    ensures last == End ==> stream.Payload() == Some(stream.delivered)
    ensures last == TransportFailed ==> stream.Payload() == Some(stream.delivered) && !stream.succeeds
  {
    hide Decode, HeadersValid;
    var i := 0;
    while true
      invariant stream.Valid()
      decreases |stream.rest|
    {
      last := stream.Read(sizes(i));
      if !last.Data? {
        return;
      }
      i := i + 1;
    }
  }
}
