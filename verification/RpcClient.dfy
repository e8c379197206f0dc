/** The blocking RPC client: one call in flight on one stream, resumable line framing, a poison flag and a bounded
    notification queue. The socket is a script: what each deadline check, read and write comes to. */
module RpcClient {
  import opened Bytes
  import opened JsonModel
  import opened Options
  import opened Sequences
  import opened Texts

  const MAX_LINE: nat := 4 * 1024 * 1024
  const MAX_NOTIFICATION_BYTES: nat := 2 * MAX_LINE
  const MAX_NOTIFICATIONS: nat := 256
  const NEWLINE: Byte := 10

  /** The kinds of I/O error that matter: a timeout, data that is not valid, anything else. */
  datatype Failure = TimedOut | InvalidData | Broken

  datatype RpcError = Call(error: Json) | Unavailable(reason: string) | Protocol
  datatype Result<T> = Ok(value: T) | Err(error: RpcError)

  function ErrorOf(failure: Failure): RpcError {
    match failure
    case TimedOut => Unavailable("call-timeout")
    case InvalidData => Protocol
    case Broken => Unavailable("io")
  }

  predicate Poisons(error: RpcError) {
    error.Unavailable?
  }

  // ----- lines ----------------------------------------------------------------------------------------------------

  /** The pieces between newlines; the last one is not ended yet. */
  function Lines(s: seq<Byte>): (pieces: seq<seq<Byte>>)
    ensures pieces != []
  {
    Split(s, NEWLINE)
  }

  /** Splitting and joining are inverse: no piece has a newline, and joined by newlines the pieces are the bytes. */
  lemma LinesJoin(s: seq<Byte>)
    ensures Join(Lines(s), NEWLINE) == s
    ensures forall i :: 0 <= i < |Lines(s)| ==> NEWLINE !in Lines(s)[i]
  {
    JoinSplit(s, NEWLINE);
  }

  lemma LinesOfJoin(pieces: seq<seq<Byte>>)
    requires pieces != [] && forall i :: 0 <= i < |pieces| ==> NEWLINE !in pieces[i]
    ensures Lines(Join(pieces, NEWLINE)) == pieces
  {
    SplitJoin(pieces, NEWLINE);
  }

  lemma LinesStep(s: seq<Byte>, c: Byte)
    ensures Lines(s + [c]) == if c == NEWLINE then Lines(s) + [[]] else Extended(Lines(s), [c])
  {
    SplitStep(s, c, NEWLINE);
  }

  lemma ExtendTwice(pieces: seq<seq<Byte>>, t: seq<Byte>, c: Byte)
    requires pieces != []
    ensures Extended(Extended(pieces, t), [c]) == Extended(pieces, t + [c])
  {
    var last := pieces[|pieces| - 1];
    assert (last + t) + [c] == last + (t + [c]);
  }

  /** Bytes without a newline extend the last piece. */
  lemma {:induction false} LinesExtend(s: seq<Byte>, t: seq<Byte>)
    requires NEWLINE !in t
    ensures Lines(s + t) == Extended(Lines(s), t)
  {
    hide Lines;
    if t == [] {
      assert s + t == s;
      assert Lines(s)[|Lines(s)| - 1] + [] == Lines(s)[|Lines(s)| - 1];
    } else {
      var init, c := t[..|t| - 1], t[|t| - 1];
      assert t == init + [c] && s + t == (s + init) + [c];
      LinesExtend(s, init);
      LinesStep(s + init, c);
      ExtendTwice(Lines(s), init, c);
    }
  }

  /** A newline at the end starts a new piece. */
  lemma LinesEnd(s: seq<Byte>, t: seq<Byte>)
    requires NEWLINE !in t
    ensures Lines(s + (t + [NEWLINE])) == Extended(Lines(s), t) + [[]]
  {
    hide Lines;
    LinesExtend(s, t);
    LinesStep(s + t, NEWLINE);
    assert s + (t + [NEWLINE]) == s + t + [NEWLINE];
  }

  lemma LastLineGrows(before: seq<Byte>, t: seq<Byte>, lines: seq<seq<Byte>>, last: seq<Byte>)
    requires NEWLINE !in t && Lines(before) == lines + [last]
    ensures Lines(before + t) == lines + [last + t]
  {
    hide Lines, Extended;
    LinesExtend(before, t);
    ExtendLast(lines, last, t);
  }

  lemma LastLineEnds(before: seq<Byte>, t: seq<Byte>, lines: seq<seq<Byte>>, last: seq<Byte>)
    requires NEWLINE !in t && Lines(before) == lines + [last]
    ensures Lines(before + (t + [NEWLINE])) == lines + [last + t] + [[]]
  {
    hide Lines, Extended;
    LinesEnd(before, t);
    ExtendLast(lines, last, t);
  }

  // ----- the stream -----------------------------------------------------------------------------------------------

  datatype Read = Chunk(bytes: seq<Byte>) | Interrupted | Failed(failure: Failure)
  datatype Wrote = Took(count: nat) | WriteInterrupted | WriteFailed(failure: Failure)
  datatype Filled = Available(bytes: seq<Byte>) | FillInterrupted | FillFailed(failure: Failure)

  /** Why a read or a write does not go on: the peer has closed, or a failure. */
  datatype Stop = Ended | Stopped(failure: Failure)

  /** A buffered stream that follows a script; at its end every deadline has passed and the peer has closed. */
  class Wire {
    var clock: seq<Option<Failure>>
    var incoming: seq<Read>
    var outgoing: seq<Wrote>
    var buffered: seq<Byte>
    ghost var consumed: seq<Byte>
    ghost var written: seq<Byte>
    ghost var stops: seq<Stop>  // every stop so far

    constructor (clock: seq<Option<Failure>>, incoming: seq<Read>, outgoing: seq<Wrote>)
      ensures consumed == [] && written == [] && stops == []
    {
      this.clock, this.incoming, this.outgoing := clock, incoming, outgoing;
      buffered, consumed, written, stops := [], [], [], [];
    }

    /** The deadline check before a read or a write. */
    method Remaining() returns (stop: Option<Failure>)
      modifies this`clock, this`stops
      ensures stop.None? ==> |clock| < |old(clock)|
      ensures |clock| <= |old(clock)|
      ensures stops == old(stops) + if stop.Some? then [Stopped(stop.value)] else []
    {
      stop := Some(TimedOut);
      if clock != [] {
        stop, clock := clock[0], clock[1..];
      }
      if stop.Some? {
        stops := stops + [Stopped(stop.value)];
      }
    }

    method FillBuf() returns (filled: Filled)
      modifies this`incoming, this`buffered, this`stops
      ensures filled.Available? ==> buffered == filled.bytes
      ensures !filled.Available? ==> buffered == old(buffered)
      ensures stops == old(stops) + match filled {
                                      case Available(bytes) => if bytes == [] then [Ended] else []
                                      case FillInterrupted => []
                                      case FillFailed(failure) => [Stopped(failure)]
                                    }
    {
      if buffered != [] {
        return Available(buffered);
      }
      var read := Chunk([]);
      if incoming != [] {
        read, incoming := incoming[0], incoming[1..];
      }
      match read {
        case Chunk(bytes) =>
          buffered := bytes;
          if bytes == [] {
            stops := stops + [Ended];
          }
          return Available(bytes);
        case Interrupted => return FillInterrupted;
        case Failed(failure) =>
          stops := stops + [Stopped(failure)];
          return FillFailed(failure);
      }
    }

    method Consume(n: nat)
      requires n <= |buffered|
      modifies this`buffered, this`consumed
      ensures consumed == old(consumed) + old(buffered)[..n]
      ensures buffered == old(buffered)[n..]
    {
      consumed := consumed + buffered[..n];
      buffered := buffered[n..];
    }

    /** A write that takes nothing has failed. */
    method Write(bytes: seq<Byte>) returns (wrote: Wrote)
      requires bytes != []
      modifies this`outgoing, this`written, this`stops
      ensures wrote.Took? ==> 0 < wrote.count <= |bytes| && written == old(written) + bytes[..wrote.count]
      ensures !wrote.Took? ==> written == old(written)
      ensures stops == old(stops) + if wrote.WriteFailed? then [Stopped(wrote.failure)] else []
    {
      wrote := WriteFailed(Broken);
      if outgoing != [] {
        wrote, outgoing := outgoing[0], outgoing[1..];
      }
      if wrote.Took? {
        wrote := if wrote.count == 0 then WriteFailed(Broken)
                 else Took(if wrote.count <= |bytes| then wrote.count else |bytes|);
      }
      match wrote {
        case Took(n) => written := written + bytes[..n];
        case WriteFailed(failure) => stops := stops + [Stopped(failure)];
        case WriteInterrupted =>
      }
    }
  }

  // ----- messages -------------------------------------------------------------------------------------------------

  datatype Line = Data(bytes: seq<Byte>) | TooLong | Closed

  /** What a stop makes of `read_line`. */
  function Halted(stop: Stop): Result<Line> {
    match stop
    case Ended => Ok(Closed)
    case Stopped(failure) => Err(ErrorOf(failure))
  }

  predicate Halts(r: Result<Line>) {
    r.Err? || r.value.Closed?
  }

  /** `notification` accepts the line. */
  predicate IsNotification(parse: seq<Byte> -> Option<Json>, line: seq<Byte>) {
    match parse(line)
    case None => false
    case Some(msg) =>
      && Get(msg, "id").None? && Get(msg, "jsonrpc") == Some(Str("2.0"))
      && Get(msg, "method").Some? && Get(msg, "method").value.Str?
  }

  /** A line the call with this id passes over: an empty one, a notification (any line without an id when they are not
      kept), a reply to another call. */
  predicate Skipped(parse: seq<Byte> -> Option<Json>, line: seq<Byte>, id: nat, keeping: bool) {
    line != [] ==>
      && parse(line).Some?
      && match Get(parse(line).value, "id") {
           case None => keeping ==> IsNotification(parse, line)
           case Some(msgId) => msgId != Int(id) && msgId != Null
         }
  }

  /** What a line that is not passed over makes of the call. */
  function Verdict(parse: seq<Byte> -> Option<Json>, line: seq<Byte>): Result<Json> {
    match parse(line)
    case None => Err(Protocol)
    case Some(msg) =>
      if Get(msg, "id").None? then Err(Protocol)
      else if Get(msg, "error").Some? then Err(Call(Get(msg, "error").value))
      else if Get(msg, "id") == Some(Null) || Get(msg, "result").None? then Err(Protocol)
      else Ok(Get(msg, "result").value)
  }

  /** The lines are a reply's: all but the last passed over, and the last has a verdict. */
  predicate Settles(parse: seq<Byte> -> Option<Json>, lines: seq<seq<Byte>>, id: nat, keeping: bool) {
    && lines != []
    && (forall i :: 0 <= i < |lines| - 1 ==> Skipped(parse, lines[i], id, keeping))
    && !Skipped(parse, lines[|lines| - 1], id, keeping)
  }

  /** A result comes from a line that has the id of the call, a result and no error. */
  lemma ResultHasTheId(parse: seq<Byte> -> Option<Json>, lines: seq<seq<Byte>>, id: nat, keeping: bool, v: Json)
    requires Settles(parse, lines, id, keeping) && Verdict(parse, lines[|lines| - 1]) == Ok(v)
    ensures parse(lines[|lines| - 1]).Some?
    ensures var msg := parse(lines[|lines| - 1]).value;
            Get(msg, "id") == Some(Int(id)) && Get(msg, "error").None? && Get(msg, "result") == Some(v)
  {
  }

  /** What the client makes of one line, by the members of its JSON object: which lines are notifications, which are
      passed over, and what any other says, an error before a result. */
  lemma LineMeans(parse: seq<Byte> -> Option<Json>, line: seq<Byte>, msg: map<string, Json>, id: nat, keeping: bool)
    requires line != [] && parse(line) == Some(Obj(msg))
    ensures IsNotification(parse, line) <==>
              && "id" !in msg && "jsonrpc" in msg && msg["jsonrpc"] == Str("2.0")
              && "method" in msg && msg["method"].Str?
    ensures Skipped(parse, line, id, keeping) <==>
              if "id" in msg then msg["id"] != Int(id) && msg["id"] != Null
              else !keeping || IsNotification(parse, line)
    ensures "id" in msg && "error" in msg ==> Verdict(parse, line) == Err(Call(msg["error"]))
    ensures "id" in msg && "error" !in msg && "result" in msg && msg["id"] != Null ==>
              Verdict(parse, line) == Ok(msg["result"])
    ensures "id" !in msg || ("error" !in msg && ("result" !in msg || msg["id"] == Null)) ==>
              Verdict(parse, line) == Err(Protocol)
  {
  }

  function Notifications(parse: seq<Byte> -> Option<Json>, lines: seq<seq<Byte>>): (kept: seq<seq<Byte>>)
    ensures forall i :: 0 <= i < |kept| ==> IsNotification(parse, kept[i])
  {
    if lines == [] then []
    else
      var kept, last := Notifications(parse, lines[..|lines| - 1]), lines[|lines| - 1];
      if IsNotification(parse, last) then kept + [last] else kept
  }

  function Sum(frames: seq<seq<Byte>>): nat {
    if frames == [] then 0 else |frames[0]| + Sum(frames[1..])
  }

  lemma {:induction false} SumOfConcat(a: seq<seq<Byte>>, b: seq<seq<Byte>>)
    ensures Sum(a + b) == Sum(a) + Sum(b)
  {
    if a == [] {
      assert a + b == b;
    } else {
      assert (a + b)[1..] == a[1..] + b;
      SumOfConcat(a[1..], b);
    }
  }

  function FirstNewline(s: seq<Byte>): (k: nat)
    ensures k <= |s| && NEWLINE !in s[..k] && (k < |s| ==> s[k] == NEWLINE)
  {
    if s == [] || s[0] == NEWLINE then 0
    else
      var k := FirstNewline(s[1..]);
      assert s[..1 + k] == [s[0]] + s[1..][..k];
      1 + k
  }

  /** One read: the chunk up to its first newline, included, joins the bytes kept. */
  lemma Advance(before: seq<Byte>, chunk: seq<Byte>, k: nat, lines: seq<seq<Byte>>, last: seq<Byte>)
    requires Lines(before) == lines + [last] && k == FirstNewline(chunk)
    ensures k == |chunk| ==> Lines(before + chunk) == lines + [last + chunk]
    ensures k < |chunk| ==>
              && Lines(before + chunk[..k + 1]) == lines + [last + chunk[..k]] + [[]]
              && (last + chunk[..k + 1])[..|last| + k] == last + chunk[..k]
  {
    hide Lines, FirstNewline;
    var t := chunk[..k];
    if k == |chunk| {
      assert t == chunk;
      LastLineGrows(before, t, lines, last);
    } else {
      LastLineEnds(before, t, lines, last);
      UpTo(chunk, k, last);
    }
  }

  lemma UpTo(chunk: seq<Byte>, k: nat, last: seq<Byte>)
    requires k < |chunk| && chunk[k] == NEWLINE
    ensures chunk[..k + 1] == chunk[..k] + [NEWLINE]
    ensures (last + chunk[..k + 1])[..|last| + k] == last + chunk[..k]
  {
  }

  // ----- the client -----------------------------------------------------------------------------------------------

  class Client {
    const wire: Wire
    const parse: seq<Byte> -> Option<Json>
    var lineBuffer: seq<Byte>
    var notifications: Option<seq<seq<Byte>>>
    var queuedBytes: nat
    var pendingCall: Option<nat>
    var nextId: nat
    var poisoned: bool
    ghost var delivered: seq<seq<Byte>>  // every line taken from the stream
    ghost var since: nat                 // how many of them before notifications were enabled
    ghost var returned: seq<seq<Byte>>   // the notifications handed out
    ghost var ids: seq<nat>              // the ids of the whole frames on the wire
    ghost var frames: seq<seq<Byte>>
    ghost var torn: seq<Byte>            // what a failed write left behind

    /** The framing: the lines taken and the bytes kept are the consumed bytes split at newlines, within the cap. */
    ghost predicate Framed()
      reads this`lineBuffer, this`delivered, wire`consumed
    {
      && Lines(wire.consumed) == delivered + [lineBuffer]
      && (forall i :: 0 <= i < |delivered| ==> |delivered[i]| <= MAX_LINE)
      && |lineBuffer| <= MAX_LINE + 1
    }

    /** The queue: whole notifications, counted, within its bounds; before any poison, what was handed out and what is
        queued are the notifications read, in order. `upTo` leaves out lines still being handled. */
    ghost predicate Queued(upTo: nat)
      reads this`notifications, this`queuedBytes, this`poisoned, this`delivered, this`since, this`returned
    {
      notifications.Some? ==>
        var queue := notifications.value;
        && queuedBytes == Sum(queue) && queuedBytes <= MAX_NOTIFICATION_BYTES && |queue| <= MAX_NOTIFICATIONS
        && (forall i :: 0 <= i < |queue| ==> IsNotification(parse, queue[i]))
        && since <= upTo <= |delivered|
        && (!poisoned ==> returned + queue == Notifications(parse, delivered[since..upTo]))
    }

    /** The wire: whole frames with ascending ids, then at most one torn frame, and that only on a poisoned client. */
    ghost predicate Sent()
      reads this`frames, this`torn, this`ids, this`nextId, this`poisoned, wire`written
    {
      && wire.written == Concat(frames) + torn
      && |ids| == |frames|
      && (forall i, j :: 0 <= i < j < |ids| ==> ids[i] < ids[j])
      && (forall i :: 0 <= i < |ids| ==> ids[i] < nextId)
      && (torn != [] ==> poisoned)
    }

    /** What holds while the lines from `upTo` on are still being handled. */
    ghost predicate Reading(upTo: nat)
      reads this, wire`consumed, wire`written
    {
      && Framed() && Queued(upTo) && Sent()
      && parse([]).None?
      && (pendingCall.Some? ==> pendingCall.value in ids)
    }

    ghost predicate Valid()
      reads this, wire`consumed, wire`written
    {
      Reading(|delivered|) && (|lineBuffer| > MAX_LINE ==> poisoned)
    }

    constructor (wire: Wire, parse: seq<Byte> -> Option<Json>)
      requires wire.consumed == [] && wire.written == []
      requires parse([]).None?  // the empty text is not JSON
      ensures Valid() && this.wire == wire && this.parse == parse && !poisoned && nextId == 1 && notifications.None?
    {
      this.wire, this.parse := wire, parse;
      lineBuffer, notifications, queuedBytes, pendingCall, nextId, poisoned := [], None, 0, None, 1, false;
      delivered, since, returned, ids, frames, torn := [], 0, [], [], [], [];
    }

    /** The part of `read_line` after a read: the bytes up to the first newline, as many as the cap allows, join the
        bytes kept. */
    method Absorb(available: seq<Byte>) returns (line: Option<Line>)
      requires Reading(|delivered|) && |lineBuffer| <= MAX_LINE && wire.buffered == available && available != []
      modifies this`lineBuffer, this`delivered, wire`consumed, wire`buffered
      ensures Reading(|old(delivered)|) && old(wire.consumed) <= wire.consumed
      ensures line.Some? ==> !line.value.Closed?
      ensures line.Some? && line.value.Data? ==>
                delivered == old(delivered) + [line.value.bytes] && lineBuffer == [] && |line.value.bytes| <= MAX_LINE
      ensures !(line.Some? && line.value.Data?) ==> delivered == old(delivered) && old(lineBuffer) <= lineBuffer
      ensures line == Some(TooLong) <==> |lineBuffer| > MAX_LINE
    {
      hide Lines, Notifications, IsNotification, Sum, Concat, Sent, FirstNewline;
      ghost var lines := delivered;
      var limit := if |available| <= MAX_LINE + 1 - |lineBuffer| then |available| else MAX_LINE + 1 - |lineBuffer|;
      var k := FirstNewline(available[..limit]);
      var length := if k < limit then k + 1 else limit;
      ghost var before, kept := wire.consumed, lineBuffer;
      Advance(before, available[..limit], k, delivered, lineBuffer);
      assert available[..limit][..k] == available[..k];
      assert k < limit ==> available[..limit][..k + 1] == available[..length];
      lineBuffer := lineBuffer + available[..length];
      wire.Consume(length);
      assert wire.consumed == before + available[..length];
      if k < limit {
        assert lineBuffer[..|lineBuffer| - 1] == kept + available[..k];
        var bytes := lineBuffer[..|lineBuffer| - 1];
        lineBuffer := [];
        delivered := delivered + [bytes];
        assert notifications.Some? ==> delivered[since..|lines|] == lines[since..|lines|];
        return Some(Data(bytes));
      }
      return if |lineBuffer| > MAX_LINE then Some(TooLong) else None;
    }

    /** `read_line`. A line comes back whole; on every other outcome the bytes read so far stay buffered. The line is
        too long exactly when the buffer has outgrown the cap; otherwise only a stop of the stream ends the reading. */
    method ReadLine() returns (r: Result<Line>)
      requires Valid() && !poisoned
      modifies this`lineBuffer, this`delivered, wire
      ensures Reading(|old(delivered)|) && wire.written == old(wire.written) && old(wire.consumed) <= wire.consumed
      ensures |wire.clock| <= |old(wire.clock)| && (r.Ok? ==> |wire.clock| < |old(wire.clock)|)
      ensures r.Ok? && r.value.Data? ==>
                delivered == old(delivered) + [r.value.bytes] && lineBuffer == [] && |r.value.bytes| <= MAX_LINE
      ensures !(r.Ok? && r.value.Data?) ==> delivered == old(delivered) && old(lineBuffer) <= lineBuffer
      ensures r == Ok(TooLong) <==> |lineBuffer| > MAX_LINE
      ensures !Halts(r) ==> wire.stops == old(wire.stops)
      ensures Halts(r) ==> exists stop :: wire.stops == old(wire.stops) + [stop] && r == Halted(stop)
    {
      hide Framed, Queued, Sent;
      while true
        invariant Reading(|delivered|) && |lineBuffer| <= MAX_LINE && delivered == old(delivered)
        invariant old(lineBuffer) <= lineBuffer && wire.stops == old(wire.stops)
        invariant wire.written == old(wire.written) && old(wire.consumed) <= wire.consumed
        invariant |wire.clock| <= |old(wire.clock)|
        decreases |wire.clock|
      {
        var stop := wire.Remaining();
        if stop.Some? {
          return Err(ErrorOf(stop.value));
        }
        var filled := wire.FillBuf();
        match filled {
          case FillInterrupted =>
          case FillFailed(failure) => return Err(ErrorOf(failure));
          case Available(available) =>
            if available == [] {
              return Ok(Closed);
            }
            var line := Absorb(available);
            if line.Some? {
              return Ok(line.value);
            }
        }
      }
    }

    lemma OneMoreLine(from: nat, lines: seq<seq<Byte>>, line: seq<Byte>)
      requires from <= |lines|
      ensures Notifications(parse, (lines + [line])[from..|lines| + 1])
              == if IsNotification(parse, line) then Notifications(parse, lines[from..|lines|]) + [line]
                 else Notifications(parse, lines[from..|lines|])
    {
      hide IsNotification;
      var tail := lines[from..|lines|];
      assert (lines + [line])[from..|lines| + 1] == tail + [line];
      assert (tail + [line])[..|tail|] == tail;
    }

    lemma NotificationsParse(line: seq<Byte>)
      ensures IsNotification(parse, line) ==> parse(line).Some?
    {
    }

    // --- notifications ---

    method EnableNotifications()
      requires Valid()
      modifies this`notifications, this`queuedBytes, this`since, this`returned
      ensures Valid() && notifications.Some?
      ensures old(notifications.Some?) ==> notifications == old(notifications) && returned == old(returned)
      ensures old(notifications.None?) ==> notifications == Some([]) && returned == []
    {
      if notifications.None? {
        notifications, queuedBytes := Some([]), 0;
        since, returned := |delivered|, [];
        assert delivered[since..] == [];
      }
    }

    /** `take_notification`: the oldest queued one, without a read. */
    method TakeNotification() returns (r: Result<Option<Json>>)
      requires Valid()
      modifies this`notifications, this`queuedBytes, this`returned
      ensures Valid() && (notifications.Some? <==> old(notifications.Some?))
      ensures r.Err? <==> poisoned || notifications.None?
      ensures r.Err? ==> !Poisons(r.error) || poisoned
      ensures r == Ok(None) <==> !poisoned && old(notifications) == Some([])
      ensures r == Ok(None) ==> notifications == Some([])
      ensures !(r.Ok? && r.value.Some?) ==> returned == old(returned)
      ensures r.Ok? && r.value.Some? ==>
                && old(notifications).value != []
                && returned == old(returned) + [old(notifications).value[0]]
                && notifications == Some(old(notifications).value[1..])
                && r.value == parse(old(notifications).value[0])
    {
      if poisoned {
        return Err(Unavailable("poisoned"));
      }
      if notifications.None? {
        return Err(Protocol);
      }
      var queue := notifications.value;
      if queue == [] {
        return Ok(None);
      }
      var line := queue[0];
      assert queue == [line] + queue[1..];
      assert returned + queue == (returned + [line]) + queue[1..];
      notifications, queuedBytes := Some(queue[1..]), queuedBytes - |line|;
      returned := returned + [line];
      return Ok(parse(line));
    }

    /** A line that is no notification, or that nobody asked for, needs no place in the queue. */
    lemma PassedOver(upTo: nat)
      requires Reading(upTo) && |delivered| == upTo + 1
      requires notifications.None? || !IsNotification(parse, delivered[upTo])
      ensures Reading(|delivered|)
    {
      hide IsNotification, Notifications, Lines;
      if notifications.Some? {
        assert delivered == delivered[..upTo] + [delivered[upTo]];
        OneMoreLine(since, delivered[..upTo], delivered[upTo]);
        assert delivered[..upTo][since..upTo] == delivered[since..upTo];
      }
    }

    method Poison(ghost upTo: nat)
      requires Reading(upTo)
      modifies this`poisoned
      ensures Valid() && poisoned
    {
      hide IsNotification, Notifications, Lines;
      poisoned := true;
    }

    /** `next_notification`: the oldest queued notification, else the next line. `Ok(None)` is an idle deadline. */
    method NextNotification() returns (r: Result<Option<Json>>)
      requires Valid()
      modifies this`notifications, this`queuedBytes, this`returned, this`lineBuffer, this`delivered, this`poisoned, wire
      ensures Valid() && (old(poisoned) ==> poisoned)
      ensures old(poisoned) ==> wire.consumed == old(wire.consumed)
      ensures wire.written == old(wire.written)
      ensures pendingCall.Some? ==> r == Err(Protocol) && delivered == old(delivered)
      ensures r.Err? && Poisons(r.error) ==> poisoned
      ensures r.Ok? && r.value.Some? ==>
                && |returned| == |old(returned)| + 1 && old(returned) == returned[..|old(returned)|]
                && parse(returned[|old(returned)|]) == r.value
      ensures !(r.Ok? && r.value.Some?) ==> returned == old(returned)
      ensures r == Ok(None) ==> wire.stops == old(wire.stops) + [Stopped(TimedOut)]
      ensures r.Err? && !old(poisoned) && pendingCall.None? && notifications.Some? ==>
                Explained(r.error, old(wire.stops))
    {
      hide Framed, Queued, Sent;
      if pendingCall.Some? {
        return Err(Protocol);
      }
      var taken := TakeNotification();
      if taken.Err? || taken.value.Some? {
        return taken;
      }
      r := ReadNotification();
    }

    /** Why the reading of notifications fails: a stop other than a timeout, a line over the cap, or a line that is no
        notification. */
    ghost predicate Explained(error: RpcError, before: seq<Stop>)
      reads this`lineBuffer, this`delivered, wire`stops
    {
      if wire.stops == before then
        && error == Protocol
        && (|lineBuffer| > MAX_LINE
            || (delivered != [] && delivered[|delivered| - 1] != []
                && !IsNotification(parse, delivered[|delivered| - 1])))
      else
        || (wire.stops == before + [Ended] && error == Unavailable("closed"))
        || exists f :: f != TimedOut && wire.stops == before + [Stopped(f)] && error == ErrorOf(f)
    }

    /** The loop of `next_notification`, with nothing queued. */
    method ReadNotification() returns (r: Result<Option<Json>>)
      requires Valid() && !poisoned && pendingCall.None? && notifications == Some([])
      modifies this`returned, this`lineBuffer, this`delivered, this`poisoned, wire
      ensures Valid() && wire.written == old(wire.written)
      ensures r.Err? && Poisons(r.error) ==> poisoned
      ensures r.Ok? && r.value.Some? ==>
                && |returned| == |old(returned)| + 1 && old(returned) == returned[..|old(returned)|]
                && parse(returned[|old(returned)|]) == r.value
      ensures !(r.Ok? && r.value.Some?) ==> returned == old(returned)
      ensures r == Ok(None) ==> wire.stops == old(wire.stops) + [Stopped(TimedOut)]
      ensures r.Err? ==> Explained(r.error, old(wire.stops))
    {
      hide Framed, Queued, Sent, IsNotification;
      while true
        invariant Valid() && !poisoned && returned == old(returned) && wire.written == old(wire.written)
        invariant wire.stops == old(wire.stops)
        decreases |wire.clock|
      {
        ghost var upTo := |delivered|;
        var line := ReadLine();
        match line {
          case Err(error) =>
            if error == Unavailable("call-timeout") {
              return Ok(None);
            }
            if Poisons(error) {
              Poison(upTo);
            }
            return Err(error);
          case Ok(TooLong) =>
            Poison(upTo);
            return Err(Protocol);
          case Ok(Closed) =>
            Poison(upTo);
            return Err(Unavailable("closed"));
          case Ok(Data(bytes)) =>
            NotificationsParse(bytes);
            if bytes != [] && IsNotification(parse, bytes) {
              HandOut(bytes, upTo);
              return Ok(parse(bytes));
            }
            PassedOver(upTo);
            if bytes != [] {
              return Err(Protocol);
            }
        }
      }
    }

    /** The notification just read goes to the caller. */
    ghost method HandOut(line: seq<Byte>, upTo: nat)
      requires Reading(upTo) && |delivered| == upTo + 1 && delivered[upTo] == line && IsNotification(parse, line)
      requires notifications == Some([]) && |lineBuffer| <= MAX_LINE
      modifies this`returned
      ensures Valid() && returned == old(returned) + [line]
    {
      hide IsNotification, Notifications, Lines;
      assert delivered == delivered[..upTo] + [line];
      OneMoreLine(since, delivered[..upTo], line);
      assert delivered[..upTo][since..upTo] == delivered[since..upTo];
      returned := returned + [line];
    }

    /** `queue_notification` on the line just read. */
    method QueueNotification(line: seq<Byte>, ghost upTo: nat) returns (r: Result<()>)
      requires Reading(upTo) && |delivered| == upTo + 1 && delivered[upTo] == line && |lineBuffer| <= MAX_LINE
      requires !poisoned
      modifies this`notifications, this`queuedBytes, this`poisoned
      ensures Valid() && (notifications.Some? <==> old(notifications.Some?))
      ensures r.Err? ==> r.error == Protocol && notifications == old(notifications) && queuedBytes == old(queuedBytes)
      ensures poisoned <==> notifications.Some? && IsNotification(parse, line) && r.Err?
      ensures r.Ok? <==>
                (|| old(notifications).None?
                 || (&& IsNotification(parse, line) && |old(notifications).value| < MAX_NOTIFICATIONS
                     && old(queuedBytes) + |line| <= MAX_NOTIFICATION_BYTES))
      ensures r.Ok? && notifications.Some? ==> notifications == Some(old(notifications).value + [line])
    {
      hide IsNotification, Notifications, Lines, Sent, Concat;
      if notifications.None? {
        PassedOver(upTo);
        return Ok(());
      }
      if !IsNotification(parse, line) {
        PassedOver(upTo);
        return Err(Protocol);
      }
      var queue := notifications.value;
      if |queue| >= MAX_NOTIFICATIONS || queuedBytes + |line| > MAX_NOTIFICATION_BYTES {
        Poison(upTo);
        return Err(Protocol);
      }
      assert delivered == delivered[..upTo] + [line];
      OneMoreLine(since, delivered[..upTo], line);
      assert delivered[..upTo][since..upTo] == delivered[since..upTo];
      SumOfConcat(queue, [line]);
      assert (returned + queue) + [line] == returned + (queue + [line]);
      notifications, queuedBytes := Some(queue + [line]), queuedBytes + |line|;
      return Ok(());
    }

    // --- calls ---

    /** The write loop of `start_call`: what went out is a prefix of the frame, all of it on success. */
    method WriteFrame(line: seq<Byte>) returns (failed: Option<RpcError>, ghost count: nat)
      modifies wire`clock, wire`outgoing, wire`written, wire`stops
      ensures count <= |line| && wire.written == old(wire.written) + line[..count]
      ensures failed.None? ==> count == |line| && wire.stops == old(wire.stops)
      ensures failed.Some? ==> exists f :: wire.stops == old(wire.stops) + [Stopped(f)] && failed.value == ErrorOf(f)
    {
      count := 0;
      var rest := line;
      while rest != []
        invariant count <= |line| && rest == line[count..]
        invariant wire.written == old(wire.written) + line[..count] && wire.stops == old(wire.stops)
        decreases |wire.clock|
      {
        var stop := wire.Remaining();
        if stop.Some? {
          return Some(ErrorOf(stop.value)), count;
        }
        var wrote := wire.Write(rest);
        match wrote {
          case WriteInterrupted =>
          case WriteFailed(failure) => return Some(ErrorOf(failure)), count;
          case Took(n) =>
            assert line[..count] + rest[..n] == line[..count + n];
            rest, count := rest[n..], count + n;
        }
      }
      var stop := wire.Remaining();
      failed := if stop.Some? then Some(ErrorOf(stop.value)) else None;
    }

    /** A failed write: the client is poisoned, and `part` of a frame is on the wire. */
    method Tear(ghost part: seq<Byte>)
      requires Framed() && Queued(|delivered|) && parse([]).None? && pendingCall.None? && |lineBuffer| <= MAX_LINE
      requires wire.written == Concat(frames) + part && |ids| == |frames|
      requires forall i, j :: 0 <= i < j < |ids| ==> ids[i] < ids[j]
      requires forall i :: 0 <= i < |ids| ==> ids[i] < nextId
      modifies this`poisoned, this`torn
      ensures Valid() && poisoned && torn == part
    {
      hide Framed, Notifications, IsNotification, Sum, Concat;
      poisoned, torn := true, part;
    }

    /** A whole frame with a new id is on the wire. */
    ghost method Record(line: seq<Byte>, id: nat)
      requires wire.written == Concat(frames) + line && torn == [] && |ids| == |frames| && id < nextId
      requires forall i, j :: 0 <= i < j < |ids| ==> ids[i] < ids[j]
      requires forall i :: 0 <= i < |ids| ==> ids[i] < id
      modifies this`ids, this`frames
      ensures Sent() && ids == old(ids) + [id] && frames == old(frames) + [line] && torn == []
    {
      hide Concat;
      ConcatSnoc(frames, line);
      ids, frames := ids + [id], frames + [line];
    }

    /** `start_call`: one frame with the next id goes out, or the client is poisoned. `encode` gives the frame of the
        request with an id. */
    method StartCall(encode: nat -> seq<Byte>) returns (r: Result<()>)
      requires Valid()
      modifies this`nextId, this`pendingCall, this`poisoned, this`ids, this`frames, this`torn, wire`clock,
               wire`outgoing, wire`written, wire`stops
      ensures Valid() && (old(poisoned) ==> poisoned)
      ensures r.Ok? <==> !poisoned && old(pendingCall).None?
      ensures r.Ok? ==>
                && pendingCall == Some(old(nextId)) && nextId == old(nextId) + 1
                && ids == old(ids) + [old(nextId)] && frames == old(frames) + [encode(old(nextId))]
      ensures old(poisoned) || old(pendingCall).Some? ==>
                pendingCall == old(pendingCall) && nextId == old(nextId) && poisoned == old(poisoned)
                && wire.written == old(wire.written)
      ensures old(poisoned) ==> r == Err(Unavailable("poisoned"))
      ensures !old(poisoned) && old(pendingCall).Some? ==> r == Err(Protocol)
      ensures r.Err? && !old(poisoned) && old(pendingCall).None? ==>
                && poisoned && pendingCall.None? && nextId == old(nextId) + 1 && frames == old(frames)
                && torn <= encode(old(nextId))
                && exists f :: wire.stops == old(wire.stops) + [Stopped(f)] && r.error == ErrorOf(f)
      ensures r.Ok? || old(poisoned) || old(pendingCall).Some? ==> wire.stops == old(wire.stops)
    {
      hide Framed, Queued;
      if poisoned {
        return Err(Unavailable("poisoned"));
      }
      if pendingCall.Some? {
        return Err(Protocol);
      }
      var id := nextId;
      nextId := nextId + 1;
      var line := encode(id);
      var failed, count := WriteFrame(line);
      if failed.Some? {
        Tear(line[..count]);
        return Err(failed.value);
      }
      assert line[..count] == line;
      Record(line, id);
      pendingCall := Some(id);
      return Ok(());
    }

    /** The queue has no room for the notification. */
    ghost predicate Backlogged(line: seq<Byte>)
      reads this`notifications, this`queuedBytes
    {
      && notifications.Some? && IsNotification(parse, line)
      && (|notifications.value| >= MAX_NOTIFICATIONS || queuedBytes + |line| > MAX_NOTIFICATION_BYTES)
    }

    /** `response_line` on the line just read. */
    method ResponseLine(buf: seq<Byte>, id: nat, ghost upTo: nat) returns (r: Result<Option<Json>>)
      requires Reading(upTo) && |delivered| == upTo + 1 && delivered[upTo] == buf && |lineBuffer| <= MAX_LINE
      requires !poisoned
      modifies this`notifications, this`queuedBytes, this`poisoned
      ensures Valid() && (notifications.Some? <==> old(notifications.Some?))
      ensures poisoned ==> r == Err(Protocol) && Backlogged(buf)
      ensures r == Ok(None) <==> Skipped(parse, buf, id, notifications.Some?) && !poisoned
      ensures r.Ok? && r.value.Some? ==>
                !Skipped(parse, buf, id, notifications.Some?) && Verdict(parse, buf) == Ok(r.value.value)
      ensures r.Err? && !poisoned ==>
                !Skipped(parse, buf, id, notifications.Some?) && Verdict(parse, buf) == Err(r.error)
    {
      hide Framed, Queued, Sent;
      NotificationsHaveNoId(buf);
      if buf == [] {
        PassedOver(upTo);
        return Ok(None);
      }
      var parsed := parse(buf);
      if parsed.None? {
        PassedOver(upTo);
        return Err(Protocol);
      }
      var msg := parsed.value;
      var msgId := Get(msg, "id");
      if msgId.None? {
        var queued := QueueNotification(buf, upTo);
        return if queued.Ok? then Ok(None) else Err(queued.error);
      }
      PassedOver(upTo);
      if msgId.value != Int(id) && msgId.value != Null {
        return Ok(None);
      }
      var error := Get(msg, "error");
      if error.Some? {
        return Err(Call(error.value));
      }
      if msgId.value == Null {
        return Err(Protocol);
      }
      var result := Get(msg, "result");
      return if result.Some? then Ok(Some(result.value)) else Err(Protocol);
    }

    lemma NotificationsHaveNoId(line: seq<Byte>)
      requires parse([]).None?
      ensures IsNotification(parse, line) ==> line != [] && parse(line).Some? && Get(parse(line).value, "id").None?
    {
    }

    ghost predicate AllSkipped(lines: seq<seq<Byte>>, id: nat)
      reads this`notifications
    {
      forall i :: 0 <= i < |lines| ==> Skipped(parse, lines[i], id, notifications.Some?)
    }

    /** Why a call fails: a stop other than a timeout; or, without a stop, a line over the cap, a notification too many,
        or the line that settles it. */
    ghost predicate CallFails(error: RpcError, before: seq<Stop>, lines: seq<seq<Byte>>, id: nat)
      reads this`lineBuffer, this`notifications, this`queuedBytes, wire`stops
    {
      if wire.stops == before then
        || (error == Protocol && |lineBuffer| > MAX_LINE)
        || (error == Protocol && lines != [] && Backlogged(lines[|lines| - 1]))
        || (Settles(parse, lines, id, notifications.Some?) && Verdict(parse, lines[|lines| - 1]) == Err(error))
      else
        || (wire.stops == before + [Ended] && error == Unavailable("closed"))
        || exists f :: f != TimedOut && wire.stops == before + [Stopped(f)] && error == ErrorOf(f)
    }

    /** `poll_response`: reads until a line settles the call, the deadline passes (`Ok(None)`), or the stream fails. */
    method PollResponse(id: nat) returns (r: Result<Option<Json>>)
      requires Valid() && !poisoned
      modifies this`notifications, this`queuedBytes, this`poisoned, this`lineBuffer, this`delivered, wire
      ensures Valid()
      ensures wire.written == old(wire.written) && old(delivered) <= delivered
      ensures (notifications.Some? <==> old(notifications.Some?))
      ensures r.Ok? ==> !poisoned
      ensures r == Ok(None) ==>
                AllSkipped(delivered[|old(delivered)|..], id) && wire.stops == old(wire.stops) + [Stopped(TimedOut)]
      ensures r.Ok? && r.value.Some? ==> wire.stops == old(wire.stops)
      ensures r.Err? ==> CallFails(r.error, old(wire.stops), delivered[|old(delivered)|..], id)
      ensures r.Ok? && r.value.Some? ==>
                var lines := delivered[|old(delivered)|..];
                && Settles(parse, lines, id, notifications.Some?)
                && Verdict(parse, lines[|lines| - 1]) == Ok(r.value.value)
      ensures r.Err? && r.error.Call? ==>
                var lines := delivered[|old(delivered)|..];
                && Settles(parse, lines, id, notifications.Some?)
                && Verdict(parse, lines[|lines| - 1]) == Err(r.error)
    {
      hide Framed, Queued, Sent, Skipped, Verdict;
      while true
        invariant Valid() && !poisoned && wire.written == old(wire.written) && old(delivered) <= delivered
        invariant notifications.Some? <==> old(notifications.Some?)
        invariant AllSkipped(delivered[|old(delivered)|..], id) && wire.stops == old(wire.stops)
        decreases |wire.clock|
      {
        ghost var upTo := |delivered|;
        var line := ReadLine();
        match line {
          case Err(error) =>
            return if error == Unavailable("call-timeout") then Ok(None) else Err(error);
          case Ok(Closed) => return Err(Unavailable("closed"));
          case Ok(TooLong) =>
            Poison(upTo);
            return Err(Protocol);
          case Ok(Data(bytes)) =>
            r := ResponseLine(bytes, id, upTo);
            assert delivered[|old(delivered)|..] == delivered[|old(delivered)|..upTo] + [bytes];
            if r != Ok(None) {
              return;
            }
        }
      }
    }

    /** `poll_call_at`. `Ok(None)` keeps the request and the partial line for a later poll; every other outcome ends
        the request. */
    method PollCall() returns (r: Result<Option<Json>>)
      requires Valid()
      modifies this`notifications, this`queuedBytes, this`poisoned, this`lineBuffer, this`delivered, this`pendingCall,
               wire
      ensures Valid() && (old(poisoned) ==> poisoned)
      ensures wire.written == old(wire.written) && old(delivered) <= delivered
      ensures old(poisoned) || old(pendingCall).None? ==>
                r.Err? && delivered == old(delivered) && wire.consumed == old(wire.consumed)
                && pendingCall == old(pendingCall)
      ensures r.Err? && Poisons(r.error) ==> poisoned
      ensures r == Ok(None) ==>
                !poisoned && pendingCall == old(pendingCall) && pendingCall.Some?
                && AllSkipped(delivered[|old(delivered)|..], pendingCall.value)
                && wire.stops == old(wire.stops) + [Stopped(TimedOut)]
      ensures r.Err? && !old(poisoned) && old(pendingCall).Some? ==>
                CallFails(r.error, old(wire.stops), delivered[|old(delivered)|..], old(pendingCall).value)
      ensures r != Ok(None) && !old(poisoned) ==> pendingCall.None?
      ensures r.Ok? && r.value.Some? ==>
                var lines := delivered[|old(delivered)|..];
                && !poisoned && old(pendingCall).Some?
                && Settles(parse, lines, old(pendingCall).value, notifications.Some?)
                && Verdict(parse, lines[|lines| - 1]) == Ok(r.value.value)
      ensures r.Err? && r.error.Call? ==>
                var lines := delivered[|old(delivered)|..];
                && old(pendingCall).Some?
                && Settles(parse, lines, old(pendingCall).value, notifications.Some?)
                && Verdict(parse, lines[|lines| - 1]) == Err(r.error)
    {
      hide Framed, Queued, Sent, Skipped, Verdict, Settles, CallFails;
      if poisoned {
        return Err(Unavailable("poisoned"));
      }
      if pendingCall.None? {
        return Err(Protocol);
      }
      r := PollResponse(pendingCall.value);
      if r != Ok(None) {
        pendingCall := None;
      }
      if r.Err? && Poisons(r.error) {
        Poison(|delivered|);
      }
    }

    /** `call`: a request and its reply; without a reply at the deadline the client is poisoned. */
    method BlockingCall(encode: nat -> seq<Byte>) returns (r: Result<Json>)
      requires Valid()
      modifies this, wire
      ensures Valid() && (old(poisoned) ==> poisoned && r == Err(Unavailable("poisoned")))
      ensures old(delivered) <= delivered
      ensures r.Ok? ==>
                var lines := delivered[|old(delivered)|..];
                && !poisoned && pendingCall.None?
                && ids == old(ids) + [old(nextId)] && frames == old(frames) + [encode(old(nextId))]
                && Settles(parse, lines, old(nextId), notifications.Some?)
                && Verdict(parse, lines[|lines| - 1]) == Ok(r.value)
      ensures !old(poisoned) && old(pendingCall).None? ==> pendingCall.None?
      ensures !old(poisoned) && old(pendingCall).Some? ==> r == Err(Protocol) && pendingCall == old(pendingCall)
      ensures r.Err? && !old(poisoned) && old(pendingCall).None? ==>
                || (exists f :: wire.stops == old(wire.stops) + [Stopped(f)] && r.error == ErrorOf(f))
                || CallFails(r.error, old(wire.stops), delivered[|old(delivered)|..], old(nextId))
    {
      hide Framed, Queued, Sent, Skipped, Verdict, Settles, CallFails;
      var started := StartCall(encode);
      if started.Err? {
        return Err(started.error);
      }
      var polled := PollCall();
      match polled {
        case Err(error) => return Err(error);
        case Ok(Some(v)) => return Ok(v);
        case Ok(None) =>
          Poison(|delivered|);
          pendingCall := None;
          return Err(Unavailable("call-timeout"));
      }
    }
  }
}
