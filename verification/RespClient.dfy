/** The streaming side of `MinimalRedisClient` (packages/queue/src/redis-queue-adapter.js): text chunks
    arrive, whole replies are taken off the buffer and handed to the pending callbacks in order. */
module RespClient {
  import opened Collections
  import opened RespParser
  import opened RespEncoding
  import opened RespCommands

  /** A callback called with a reply: its command's number, whether it got an error, and the value. */
  datatype Delivery = Delivery(command: nat, isError: bool, value: Value)

  datatype State = State(buffer: string, pending: seq<nat>, delivered: seq<Delivery>)

  /** `_processBuffer`. A length that is no number stops it like an incomplete reply. */
  function Process(c: State): State
    decreases |c.pending|
  {
    if c.buffer == "" || c.pending == [] then c
    else
      match Parse(c.buffer)
      case Reply(value, isError, consumed) =>
        Process(State(c.buffer[consumed..], c.pending[1..], c.delivered + [Delivery(c.pending[0], isError, value)]))
      case _ => c
  }

  function Receive(c: State, chunk: string): State {
    Process(c.(buffer := c.buffer + chunk))
  }

  function Send(c: State, command: nat): State {
    c.(pending := c.pending + [command])
  }

  class MinimalRedisClient {
    var buffer: string
    var pendingCallbacks: seq<nat>
    var delivered: seq<Delivery>

    ghost function Value(): State
      reads this
    {
      State(buffer, pendingCallbacks, delivered)
    }

    constructor ()
      ensures Value() == State("", [], [])
    {
      buffer, pendingCallbacks, delivered := "", [], [];
    }

    method ProcessBuffer()
      modifies this
      ensures Value() == Process(old(Value()))
    {
      while buffer != "" && pendingCallbacks != []
        invariant Process(Value()) == Process(old(Value()))
        decreases |pendingCallbacks|
      {
        var parsed := ParseResp(buffer);
        if !parsed.Reply? {
          break;
        }
        buffer := buffer[parsed.consumed..];
        var callback := pendingCallbacks[0];
        pendingCallbacks := pendingCallbacks[1..];
        delivered := delivered + [Delivery(callback, parsed.isError, parsed.value)];
      }
    }

    /** The socket's data handler. */
    method OnData(chunk: string)
      modifies this
      ensures Value() == Receive(old(Value()), chunk)
    {
      buffer := buffer + chunk;
      ProcessBuffer();
    }

    /** The text to write; the callback waits for the reply. */
    method SendCommand(args: seq<string>, command: nat) returns (text: string)
      modifies this
      ensures text == CommandText(args)
      ensures Value() == Send(old(Value()), command)
    {
      text := BuildCommand(args);
      pendingCallbacks := pendingCallbacks + [command];
    }
  }

  // ---------------------------------------------------------------- delivery does not depend on chunking

  /** Processing early and then the rest is processing all at once, for any text whatever. */
  lemma {:induction false} ProcessInTwo(c: State, more: string)
    ensures Process(Process(c).(buffer := Process(c).buffer + more)) == Process(c.(buffer := c.buffer + more))
    decreases |c.pending|
  {
    if c.buffer != "" && c.pending != [] && Parse(c.buffer).Reply? {
      ParseStable(c.buffer, more);
      var Reply(value, isError, consumed) := Parse(c.buffer);
      var next := State(c.buffer[consumed..], c.pending[1..], c.delivered + [Delivery(c.pending[0], isError, value)]);
      assert (c.buffer + more)[consumed..] == c.buffer[consumed..] + more;
      ProcessInTwo(next, more);
    }
  }

  function Concat(chunks: seq<string>): string {
    if chunks == [] then "" else chunks[0] + Concat(chunks[1..])
  }

  function ReceiveAll(c: State, chunks: seq<string>): State
    decreases |chunks|
  {
    if chunks == [] then c else ReceiveAll(Receive(c, chunks[0]), chunks[1..])
  }

  /** However a text is cut into chunks, the callbacks get the same replies and the same text is left over as
      if it came in one piece. */
  lemma {:induction false} ChunkingDoesNotMatter(c: State, chunks: seq<string>)
    ensures chunks != [] ==> ReceiveAll(c, chunks) == Receive(c, Concat(chunks))
    decreases |chunks|
  {
    if |chunks| == 1 {
      assert Concat(chunks[1..]) == "";
      assert chunks[0] + "" == chunks[0];
      assert ReceiveAll(Receive(c, chunks[0]), chunks[1..]) == Receive(c, chunks[0]);
    } else if |chunks| > 1 {
      var rest := Concat(chunks[1..]);
      ChunkingDoesNotMatter(Receive(c, chunks[0]), chunks[1..]);
      ProcessInTwo(c.(buffer := c.buffer + chunks[0]), rest);
      assert (c.buffer + chunks[0]) + rest == c.buffer + (chunks[0] + rest);
    }
  }

  // ---------------------------------------------------------------- the n-th reply goes to the n-th command

  /** Commands answered by replies, in order. */
  function Matched(commands: seq<nat>, replies: seq<Resp>): seq<Delivery>
    requires |commands| == |replies|
  {
    if commands == [] then []
    else [Delivery(commands[0], replies[0].SimpleError?, Meaning(replies[0]))] + Matched(commands[1..], replies[1..])
  }

  /** With a callback for each, complete replies are handed out in order and the incomplete tail stays. */
  lemma {:induction false} RepliesInOrder(c: State, commands: seq<nat>, others: seq<nat>, replies: seq<Resp>, tail: string)
    requires AllReadable(replies) && |commands| == |replies|
    requires c.buffer == EncodeAll(replies) + tail && c.pending == commands + others
    requires Parse(tail) == Incomplete
    ensures Process(c) == State(tail, others, c.delivered + Matched(commands, replies))
    decreases |replies|
  {
    if replies == [] {
      assert c.buffer == tail && c.pending == others && c.delivered + [] == c.delivered;
    } else {
      var rest := EncodeAll(replies[1..]) + tail;
      var delivery := Delivery(commands[0], replies[0].SimpleError?, Meaning(replies[0]));
      var next := State(rest, commands[1..] + others, c.delivered + [delivery]);
      assert AllReadable(replies[1..]);
      ProcessOne(c, commands, others, replies, tail);
      ConcatAssoc(c.delivered, [delivery], Matched(commands[1..], replies[1..]));
      hide Process, EncodeAll, Parse, Meaning, WellFormed, AllWellFormed, BulkAscii, AllBulkAscii;
      RepliesInOrder(next, commands[1..], others, replies[1..], tail);
    }
  }

  lemma ProcessStep(c: State, rest: string, others: seq<nat>, command: nat, value: Value, isError: bool, consumed: nat)
    requires c.buffer != "" && c.pending == [command] + others
    requires Parse(c.buffer) == Reply(value, isError, consumed) && c.buffer[consumed..] == rest
    ensures Process(c) == Process(State(rest, others, c.delivered + [Delivery(command, isError, value)]))
  {
    hide Parse;
    assert c.pending[1..] == others;
  }

  lemma ProcessOne(c: State, commands: seq<nat>, others: seq<nat>, replies: seq<Resp>, tail: string)
    requires |commands| == |replies| && replies != [] && Readable(replies[0])
    requires c.buffer == EncodeAll(replies) + tail && c.pending == commands + others
    ensures Process(c) == Process(State(EncodeAll(replies[1..]) + tail, commands[1..] + others,
              c.delivered + [Delivery(commands[0], replies[0].SimpleError?, Meaning(replies[0]))]))
  {
    hide *;
    var first := Encode(replies[0]);
    var rest := EncodeAll(replies[1..]) + tail;
    FirstReply(replies);
    ConcatAssoc(first, EncodeAll(replies[1..]), tail);
    DropPrefix(first, rest);
    RoundTrip(replies[0], rest);
    assert c.pending == [commands[0]] + (commands[1..] + others);
    NotEmpty(c.buffer);
    ProcessStep(c, rest, commands[1..] + others, commands[0], Meaning(replies[0]), replies[0].SimpleError?, |first|);
  }

  lemma FirstReply(replies: seq<Resp>)
    requires replies != []
    ensures EncodeAll(replies) == Encode(replies[0]) + EncodeAll(replies[1..])
  {}

  lemma NotEmpty(buffer: string)
    ensures Parse(buffer).Reply? ==> buffer != ""
  {}

  // ---------------------------------------------------------------- replies with wider characters

  lemma {:induction false} DeliveredGrows(c: State)
    ensures c.delivered <= Process(c).delivered
    decreases |c.pending|
  {
    hide Parse;
    if c.buffer != "" && c.pending != [] && Parse(c.buffer).Reply? {
      var Reply(value, isError, consumed) := Parse(c.buffer);
      var next := State(c.buffer[consumed..], c.pending[1..], c.delivered + [Delivery(c.pending[0], isError, value)]);
      DeliveredGrows(next);
      assert c.delivered <= next.delivered;
    }
  }

  lemma {:induction false} WrongDelivery(c: State, commands: seq<nat>, replies: seq<Resp>)
    requires AllWellFormed(replies) && !AllBulkAscii(replies) && |commands| == |replies|
    requires c.buffer == EncodeAll(replies) && c.pending == commands
    ensures Process(c).delivered != c.delivered + Matched(commands, replies)
    decreases |replies|
  {
    var delivery := Delivery(commands[0], replies[0].SimpleError?, Meaning(replies[0]));
    ConcatAssoc(c.delivered, [delivery], Matched(commands[1..], replies[1..]));
    if BulkAscii(replies[0]) {
      var next := State(EncodeAll(replies[1..]), commands[1..], c.delivered + [delivery]);
      assert EncodeAll(replies) + "" == EncodeAll(replies) && EncodeAll(replies[1..]) + "" == EncodeAll(replies[1..]);
      assert commands + [] == commands && commands[1..] + [] == commands[1..];
      ProcessOne(c, commands, [], replies, "");
      hide Process, Parse, Encode, EncodeAll;
      WrongDelivery(next, commands[1..], replies[1..]);
    } else {
      FirstIsMisread(c, commands, replies);
    }
  }

  lemma FirstIsMisread(c: State, commands: seq<nat>, replies: seq<Resp>)
    requires |commands| == |replies| && replies != [] && WellFormed(replies[0]) && !BulkAscii(replies[0])
    requires c.buffer == EncodeAll(replies) && c.pending == commands
    ensures Process(c).delivered != c.delivered + Matched(commands, replies)
  {
    FirstReply(replies);
    Misread(replies[0], EncodeAll(replies[1..]));
    hide Parse, Encode, EncodeAll, Meaning, WellFormed, BulkAscii;
    var n := |c.delivered|;
    assert (c.delivered + Matched(commands, replies))[n].value == Meaning(replies[0]);
    if c.buffer != "" && Parse(c.buffer).Reply? {
      var Reply(value, isError, consumed) := Parse(c.buffer);
      var next := State(c.buffer[consumed..], c.pending[1..], c.delivered + [Delivery(c.pending[0], isError, value)]);
      DeliveredGrows(next);
      assert next.delivered[n].value == value && Process(c) == Process(next);
      hide Process;
      assert Process(next).delivered[n] == next.delivered[n];
    }
  }

  /** Given a callback for each, the replies are handed out as what they mean exactly when all their bulk strings
      are ASCII. */
  lemma DeliveredIff(commands: seq<nat>, replies: seq<Resp>)
    requires AllWellFormed(replies) && |commands| == |replies|
    ensures Process(State(EncodeAll(replies), commands, [])).delivered == Matched(commands, replies) <==> AllBulkAscii(replies)
  {
    var c := State(EncodeAll(replies), commands, []);
    assert c.delivered + Matched(commands, replies) == Matched(commands, replies);
    if AllBulkAscii(replies) {
      assert EncodeAll(replies) + "" == EncodeAll(replies) && commands + [] == commands;
      assert Parse("") == Incomplete;
      hide Process, Parse, EncodeAll, AllWellFormed, AllBulkAscii;
      RepliesInOrder(c, commands, [], replies, "");
    } else {
      hide Process, Parse, EncodeAll, AllWellFormed, AllBulkAscii;
      WrongDelivery(c, commands, replies);
    }
  }

  /** A complete bulk reply with a wider character is not delivered: the client waits for more text. */
  lemma WideReplyStalls(s: string, commands: seq<nat>)
    requires !IsAscii(s)
    ensures var c := State(Encode(BulkString(s)), commands, []); Process(c) == c
  {
    ByteLengthOfAscii(s);
    WideBulkMisread(s, "");
    hide Parse, BulkText;
  }

  const E_ACUTE: string := [0xE9 as char]

  lemma AcuteReplyParses(more: string)
    ensures var tail := E_ACUTE + CRLF + "+OK\r\n" + more;
      Parse("$2\r\n" + tail) == Reply(Text(E_ACUTE + "\r"), false, 8)
  {
    var tail := E_ACUTE + CRLF + "+OK\r\n" + more;
    assert NatText(2) == "2";
    NumberLine(2);
    hide Parse, FindCrlf, ParseInt, NatText, IntText;
    ParseLine('$', "2", tail);
    assert "$2\r\n" + tail == ['$'] + "2" + CRLF + tail;
    assert tail[..2] == E_ACUTE + "\r";
    assert ParseBody('$', "2", tail) == Reply(Text(E_ACUTE + "\r"), false, 4);
  }

  lemma NothingParsesBehind(more: string)
    ensures Parse("OK\r\n" + more) == Incomplete
  {
    assert "OK\r\n" + more == ['O'] + "K" + CRLF + more;
    assert FindCrlf("K") == None;
    hide Parse, FindCrlf;
    ParseLine('O', "K", more);
  }

  lemma AcuteReplyText(more: string)
    ensures Encode(BulkString(E_ACUTE)) + Encode(SimpleString("OK")) + more == "$2\r\n" + (E_ACUTE + CRLF + "+OK\r\n" + more)
  {
    assert ByteLength(E_ACUTE) == 2 by { assert E_ACUTE[1..] == ""; }
    assert NatText(2) == "2";
  }

  /** The reply with an accented `e`, followed by `+OK` for the next command: the first command gets a carriage return too many,
      and the second is never answered, whatever is received afterwards. */
  lemma WideReplyPoisonsTheNext(more: string)
    ensures var c := State(Encode(BulkString(E_ACUTE)) + Encode(SimpleString("OK")) + more, [1, 2], []);
      Process(c) == State("OK\r\n" + more, [2], [Delivery(1, false, Text(E_ACUTE + "\r"))])
  {
    AcuteReplyText(more);
    AcuteReplyParses(more);
    NothingParsesBehind(more);
    hide Parse, Encode;
    var text, rest := "$2\r\n" + (E_ACUTE + CRLF + "+OK\r\n" + more), "OK\r\n" + more;
    assert text[8..] == rest;
    ProcessStep(State(text, [1, 2], []), rest, [2], 1, Text(E_ACUTE + "\r"), false, 8);
  }

  // ---------------------------------------------------------------- any mix of sends and chunks

  datatype Event = Sent(command: nat) | Data(chunk: string)

  function React(c: State, e: Event): State {
    match e
    case Sent(command) => Send(c, command)
    case Data(chunk) => Receive(c, chunk)
  }

  function ReactAll(c: State, events: seq<Event>): State
    decreases |events|
  {
    if events == [] then c else ReactAll(React(c, events[0]), events[1..])
  }

  /** How far the server's replies have been received: `whole` of them completely, and `part` of the next. */
  ghost predicate Progress(replies: seq<Resp>, received: string, whole: nat, part: string) {
    && whole <= |replies|
    && received == EncodeAll(replies[..whole]) + part
    && (if whole == |replies| then part == ""
        else |part| < |Encode(replies[whole])| && part == Encode(replies[whole])[..|part|])
  }

  function MoreCommands(commands: seq<nat>, e: Event): seq<nat> {
    if e.Sent? then commands + [e.command] else commands
  }

  function MoreText(received: string, e: Event): string {
    if e.Data? then received + e.chunk else received
  }

  /** All commands sent, and all text received. */
  function AllCommands(commands: seq<nat>, events: seq<Event>): seq<nat>
    decreases |events|
  {
    if events == [] then commands else AllCommands(MoreCommands(commands, events[0]), events[1..])
  }

  function AllText(received: string, events: seq<Event>): string
    decreases |events|
  {
    if events == [] then received else AllText(MoreText(received, events[0]), events[1..])
  }

  ghost predicate NotAhead(replies: seq<Resp>, received: string, sent: nat) {
    exists whole: nat, part: string :: Progress(replies, received, whole, part) && whole <= sent
  }

  /** The server answers commands in order and never before they are sent: after every event, what it has
      completed is no more than what was sent. */
  ghost predicate ServerFollows(replies: seq<Resp>, received: string, commands: seq<nat>, events: seq<Event>)
    decreases |events|
  {
    && NotAhead(replies, received, |commands|)
    && (events == []
        || ServerFollows(replies, MoreText(received, events[0]), MoreCommands(commands, events[0]), events[1..]))
  }

  /** The client's state when `whole` replies and `part` of the next have come in answer to `commands`. */
  ghost predicate Consistent(c: State, commands: seq<nat>, replies: seq<Resp>, received: string) {
    exists whole: nat, part: string :: InStep(c, commands, replies, received, whole, part)
  }

  ghost predicate InStep(c: State, commands: seq<nat>, replies: seq<Resp>, received: string, whole: nat, part: string) {
    && Progress(replies, received, whole, part)
    && whole <= |commands|
    && c == State(part, commands[whole..], Matched(commands[..whole], replies[..whole]))
  }

  lemma {:induction false} EncodeAllSplit(a: seq<Resp>, b: seq<Resp>)
    ensures EncodeAll(a + b) == EncodeAll(a) + EncodeAll(b)
  {
    if a == [] {
      assert a + b == b;
    } else {
      assert (a + b)[1..] == a[1..] + b;
      EncodeAllSplit(a[1..], b);
    }
  }

  lemma {:induction false} MatchedSplit(a: seq<nat>, b: seq<nat>, r: seq<Resp>, s: seq<Resp>)
    requires |a| == |r| && |b| == |s|
    ensures Matched(a + b, r + s) == Matched(a, r) + Matched(b, s)
  {
    if a == [] {
      assert a + b == b && r + s == s;
    } else {
      assert (a + b)[1..] == a[1..] + b && (r + s)[1..] == r[1..] + s;
      MatchedSplit(a[1..], b, r[1..], s);
    }
  }

  lemma {:induction false} AllReadablePart(replies: seq<Resp>, i: nat, j: nat)
    requires AllReadable(replies) && i <= j <= |replies|
    ensures AllReadable(replies[i..j])
    decreases |replies|
  {
    if i > 0 {
      assert replies[i..j] == replies[1..][i - 1..j - 1];
      AllReadablePart(replies[1..], i - 1, j - 1);
    } else if j > 0 {
      assert replies[0..j][1..] == replies[1..][0..j - 1];
      AllReadablePart(replies[1..], 0, j - 1);
    }
  }

  lemma {:induction false} ReadableAt(replies: seq<Resp>, i: nat)
    requires AllReadable(replies) && i < |replies|
    ensures Readable(replies[i])
  {
    if i > 0 { ReadableAt(replies[1..], i - 1); }
  }

  lemma EncodeAllExtend(replies: seq<Resp>, i: nat, j: nat)
    requires i <= j <= |replies|
    ensures EncodeAll(replies[..j]) == EncodeAll(replies[..i]) + EncodeAll(replies[i..j])
  {
    assert replies[..j] == replies[..i] + replies[i..j];
    EncodeAllSplit(replies[..i], replies[i..j]);
  }

  lemma EarlierFits(replies: seq<Resp>, received: string, whole: nat, part: string, earlier: nat)
    requires Progress(replies, received, whole, part) && earlier < whole
    ensures |received| >= |EncodeAll(replies[..earlier])| + |Encode(replies[earlier])|
  {
    EncodeAllExtend(replies, earlier, whole);
    assert replies[earlier..whole][0] == replies[earlier];
    assert |EncodeAll(replies[earlier..whole])| >= |Encode(replies[earlier])|;
    hide EncodeAll, Encode;
  }

  lemma WholeGrows(replies: seq<Resp>, received: string, chunk: string, whole: nat, part: string, whole': nat, part': string)
    requires Progress(replies, received, whole, part) && Progress(replies, received + chunk, whole', part')
    ensures whole <= whole'
  {
    if whole' < whole {
      EarlierFits(replies, received, whole, part, whole');
      hide EncodeAll, Encode;
      assert false;
    }
  }

  /** Receiving more text never takes completed replies back. */
  lemma ProgressGrows(replies: seq<Resp>, received: string, chunk: string, whole: nat, part: string, whole': nat, part': string)
    requires Progress(replies, received, whole, part) && Progress(replies, received + chunk, whole', part')
    ensures whole <= whole'
    ensures part + chunk == EncodeAll(replies[whole..whole']) + part'
  {
    WholeGrows(replies, received, chunk, whole, part, whole', part');
    EncodeAllExtend(replies, whole, whole');
    hide EncodeAll, Encode;
    var done, more := EncodeAll(replies[..whole]), EncodeAll(replies[whole..whole']);
    ConcatAssoc(done, part, chunk);
    ConcatAssoc(done, more, part');
    CancelPrefix(done, part + chunk, more + part');
  }

  lemma IncompleteTail(replies: seq<Resp>, received: string, whole: nat, part: string)
    requires AllReadable(replies) && Progress(replies, received, whole, part)
    ensures Parse(part) == Incomplete
  {
    if whole < |replies| {
      ReadableAt(replies, whole);
      PrefixIsIncomplete(replies[whole], |part|);
    }
  }

  lemma MatchedExtend(commands: seq<nat>, replies: seq<Resp>, i: nat, j: nat)
    requires i <= j <= |replies| && j <= |commands|
    ensures Matched(commands[..j], replies[..j]) == Matched(commands[..i], replies[..i]) + Matched(commands[i..j], replies[i..j])
  {
    assert commands[..j] == commands[..i] + commands[i..j];
    assert replies[..j] == replies[..i] + replies[i..j];
    MatchedSplit(commands[..i], commands[i..j], replies[..i], replies[i..j]);
  }

  lemma DataKeepsStep(c: State, commands: seq<nat>, replies: seq<Resp>, received: string, chunk: string,
                      whole: nat, part: string, whole': nat, part': string)
    requires AllReadable(replies)
    requires InStep(c, commands, replies, received, whole, part)
    requires Progress(replies, received + chunk, whole', part') && whole' <= |commands|
    ensures InStep(Receive(c, chunk), commands, replies, received + chunk, whole', part')
  {
    assert whole' <= |replies|;
    hide Progress, Process, Parse, EncodeAll, AllReadable, Matched;
    ProgressGrows(replies, received, chunk, whole, part, whole', part');
    IncompleteTail(replies, received + chunk, whole', part');
    AllReadablePart(replies, whole, whole');
    var batch := commands[whole..whole'];
    assert commands[whole..] == batch + commands[whole'..];
    RepliesInOrder(c.(buffer := part + chunk), batch, commands[whole'..], replies[whole..whole'], part');
    MatchedExtend(commands, replies, whole, whole');
  }

  lemma SendKeepsStep(c: State, commands: seq<nat>, replies: seq<Resp>, received: string, whole: nat, part: string, command: nat)
    requires InStep(c, commands, replies, received, whole, part)
    ensures InStep(Send(c, command), commands + [command], replies, received, whole, part)
  {
    hide Progress;
    assert (commands + [command])[whole..] == commands[whole..] + [command];
    assert (commands + [command])[..whole] == commands[..whole];
  }

  lemma ReactKeepsConsistent(c: State, commands: seq<nat>, replies: seq<Resp>, received: string, e: Event)
    requires AllReadable(replies)
    requires Consistent(c, commands, replies, received)
    requires NotAhead(replies, MoreText(received, e), |MoreCommands(commands, e)|)
    ensures Consistent(React(c, e), MoreCommands(commands, e), replies, MoreText(received, e))
  {
    hide InStep, Progress, AllReadable, Process;
    var whole: nat, part: string :| InStep(c, commands, replies, received, whole, part);
    match e
    case Sent(command) =>
      SendKeepsStep(c, commands, replies, received, whole, part, command);
    case Data(chunk) =>
      var whole': nat, part': string :| Progress(replies, received + chunk, whole', part') && whole' <= |commands|;
      DataKeepsStep(c, commands, replies, received, chunk, whole, part, whole', part');
  }

  /** For any mix of sends and chunks in which replies follow their commands, the n-th reply is handed to the
      n-th command: at the end exactly the replies received in full have been delivered, in order, and the
      buffer holds what has come of the next one. */
  lemma {:induction false} RepliesMatchCommands(c: State, commands: seq<nat>, replies: seq<Resp>, received: string, events: seq<Event>)
    requires AllReadable(replies)
    requires Consistent(c, commands, replies, received)
    requires ServerFollows(replies, received, commands, events)
    ensures Consistent(ReactAll(c, events), AllCommands(commands, events), replies, AllText(received, events))
    decreases |events|
  {
    hide Consistent, AllReadable, NotAhead, React, MoreCommands, MoreText;
    if events != [] {
      assert ServerFollows(replies, MoreText(received, events[0]), MoreCommands(commands, events[0]), events[1..]);
      ReactKeepsConsistent(c, commands, replies, received, events[0]);
      RepliesMatchCommands(React(c, events[0]), MoreCommands(commands, events[0]), replies, MoreText(received, events[0]), events[1..]);
    }
  }

  lemma FreshClientIsConsistent(replies: seq<Resp>)
    ensures Consistent(State("", [], []), [], replies, "")
  {
    assert replies[..0] == [];
    if replies != [] {
      assert |Encode(replies[0])| > 0;
    }
    assert InStep(State("", [], []), [], replies, "", 0, "");
  }

  lemma MoreToCome(replies: seq<Resp>, whole: nat)
    requires whole < |replies|
    ensures |EncodeAll(replies)| >= |EncodeAll(replies[..whole])| + |Encode(replies[whole])|
  {
    assert replies[..|replies|] == replies;
    EncodeAllExtend(replies, whole, |replies|);
    assert replies[whole..|replies|][0] == replies[whole];
    assert |EncodeAll(replies[whole..|replies|])| >= |Encode(replies[whole])|;
    hide EncodeAll, Encode;
  }

  /** All text of the replies has come only when all replies are whole. */
  lemma AllTextIsWhole(replies: seq<Resp>, whole: nat, part: string)
    requires Progress(replies, EncodeAll(replies), whole, part)
    ensures whole == |replies| && part == ""
  {
    hide EncodeAll, Encode;
    if whole < |replies| {
      MoreToCome(replies, whole);
      assert false;
    }
  }

  /** From a new client on: once all text of the replies has come, in whatever chunks and between whatever sends,
      the n-th reply has been handed to the n-th command, later commands still wait, and nothing is left over. */
  lemma NthReplyToNthCommand(replies: seq<Resp>, events: seq<Event>)
    requires AllReadable(replies) && ServerFollows(replies, "", [], events)
    requires AllText("", events) == EncodeAll(replies)
    ensures var c, commands := ReactAll(State("", [], []), events), AllCommands([], events);
      && |replies| <= |commands| && c.buffer == "" && c.pending == commands[|replies|..]
      && c.delivered == Matched(commands[..|replies|], replies)
  {
    FreshClientIsConsistent(replies);
    RepliesMatchCommands(State("", [], []), [], replies, "", events);
    var c, commands := ReactAll(State("", [], []), events), AllCommands([], events);
    hide ReactAll, AllCommands, AllText, ServerFollows, AllReadable, EncodeAll;
    var whole: nat, part: string :| InStep(c, commands, replies, EncodeAll(replies), whole, part);
    AllTextIsWhole(replies, whole, part);
    assert replies[..|replies|] == replies;
  }
}
