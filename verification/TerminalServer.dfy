// servers/terminal.c: the bounded output buffer, its flow control against the
// serial driver, and the service loop that orders echo, actions and input.

module TerminalServer {
  import opened Words
  import opened Codec
  import opened Messages
  import opened Policy
  import opened AuditServer
  import opened AdminReceipt
  import opened Serial
  import opened LineEditor
  import opened SignedInput
  import opened Commands
  import opened Console
  import opened TerminalText
  import opened Wire
  import A = Admin
  import S = AdminServer

  const CHUNK := 32
  const STEPS := 32

  lemma NotRead(reply: Message)
    requires !GoodRead(reply)
    ensures forall items :: items + HeardIn(READ_CALL, reply) == items
    ensures !NoByte(reply)
  {
  }

  lemma WellRead(reply: Message)
    requires GoodRead(reply)
    ensures |reply.words| == 2 && HeardIn(READ_CALL, reply) == ItemsOf(reply)
    ensures NoByte(reply) <==> reply.words[0] % 2 == 0
    ensures reply.words[0] % 2 == 1 ==> |ItemsOf(reply)| > 0
  {
  }

  lemma Cut(buffer: string, lo: nat, mid: nat, hi: nat, front: string)
    requires lo <= mid <= hi <= |buffer|
    ensures front + buffer[lo..hi] == front + buffer[lo..mid] + buffer[mid..hi]
  {
    assert buffer[lo..hi] == buffer[lo..mid] + buffer[mid..hi];
  }

  lemma Front(buffer: string, lo: nat, n: nat, k: nat)
    requires k <= n && lo + n <= |buffer|
    ensures buffer[lo..lo + n][..k] == buffer[lo..lo + k]
  {
  }

  function Smaller(a: nat, b: nat): nat { if a < b then a else b }

  // ---------- the C code ----------

  class Terminal {
    const build: Build
    const world: World
    const line: Editor
    const frame: Reader
    const output: array<char>
    var packetMode: bool
    var pending: Event
    var length: nat
    var sent: nat
    var failed: bool
    var calls: nat
    // All text ever put in the buffer, and all text the driver ever took.
    ghost var appended: string
    ghost var transmitted: string
    ghost var items: seq<Item>
    ghost var acts: seq<Action>
    // Every protected call made, in order, and what was done between them.
    ghost var wire: seq<Message>
    ghost var turns: seq<Turn>
    // The banner, once printed.
    ghost var opening: string

    // `world` answers the protected calls, whoever receives them, in order.
    constructor (build: Build, world: World)
      ensures Valid() && !failed && length == 0 && fresh(line) && fresh(line.bytes) && fresh(frame)
              && fresh(frame.packet) && fresh(output)
      ensures this.build == build && this.world == world && wire == [] && turns == [] && appended == ""
    {
      this.build, this.world := build, world;
      line := new Editor();
      frame := new Reader();
      output := new char[OUTPUT](_ => '\0');
      packetMode, pending, length, sent, failed, calls := false, Nothing, 0, 0, false, 0;
      appended, transmitted, items, acts, wire, turns, opening := "", "", [], [], [], [], "";
    }

    ghost predicate Shape()
      reads `length, `sent, `appended, `transmitted, output
    {
      && output.Length == OUTPUT
      && (sent < length <= OUTPUT || sent == length == 0)
      && appended == transmitted + output[sent..length]
    }

    ghost function View(): Console
      requires line.Valid()
      reads `packetMode, line, line.bytes, frame
    {
      Console(line.View(), frame.View(), packetMode)
    }

    // The console and the actions follow from the items taken so far.
    ghost predicate InOrder(c: Console)
      reads `items, `pending, `acts
    {
      Orderly(build.Signing?, items, acts, c, pending)
    }

    // Items, actions and transmitted text are those of the calls on record, and the
    // terminal has stopped exactly if a reply on record is malformed. In
    // particular, the buffer never overflows.
    ghost predicate Wired()
      reads `calls, `wire, `items, `acts, `transmitted, `failed
    {
      && calls == |wire| && OnRecord(world, wire, items, acts, Encoded(transmitted))
      && (failed <==> Blamed(world, wire))
    }

    // The text so far is the banner and the story of the turns taken.
    ghost predicate Narrated(c: Console)
      reads `turns, `pending, `appended, `opening
    {
      Tells(build, world, turns, opening, c, pending, appended)
    }

    ghost predicate Core()
      reads this, output, line, line.bytes, frame, frame.packet
    {
      Shape() && line.Valid() && frame.Valid() && InOrder(View())
    }

    ghost predicate Valid()
      reads this, output, line, line.bytes, frame, frame.packet
    {
      Core() && Wired() && Narrated(View())
    }

    lemma Bounded()
      requires Shape()
      ensures length <= OUTPUT
    {
    }

    method Store(c: char)
      requires Shape() && length < OUTPUT
      modifies this`length, this`appended, output
      ensures Shape() && length == old(length) + 1 && appended == old(appended) + [c]
    {
      output[length] := c;
      length := length + 1;
      appended := appended + [c];
      assert output[sent..length] == old(output[sent..length]) + [c];
    }

    // `done` is what this caller has appended since position `off` of the buffer.
    method Append(text: string, ghost base: string, ghost off: nat, ghost done: string)
      requires Shape() && appended == base + done && length == off + |done|
      modifies this`length, this`failed, this`appended, output
      ensures Shape()
      ensures if off + |done| + |text| <= OUTPUT then
                appended == base + (done + text) && length == off + |done + text| && failed == old(failed)
              else appended == base + (done + text[..OUTPUT - off - |done|]) && length == OUTPUT && failed
    {
      hide Shape;
      Bounded();
      var i := 0;
      assert done == done + text[..0];
      while i < |text| && length < OUTPUT
        invariant 0 <= i <= |text| && length == off + |done| + i <= OUTPUT
        invariant appended == base + (done + text[..i]) && Shape() && failed == old(failed)
      {
        Store(text[i]);
        assert text[..i + 1] == text[..i] + [text[i]];
        assert base + (done + text[..i + 1]) == base + (done + text[..i]) + [text[i]];
        i := i + 1;
      }
      if i < |text| { failed := true; } else { assert text[..i] == text; }
    }

    ghost predicate Printing(base: string, off: nat, done: string)
      reads `length, `sent, `appended, `transmitted, output
    {
      Shape() && appended == base + done && length == off + |done|
    }

    // A piece of text that fits.
    method Put(text: string, ghost base: string, ghost off: nat, ghost done: string)
      requires Printing(base, off, done) && off + |done| + |text| <= OUTPUT
      modifies this`length, this`failed, this`appended, output
      ensures Printing(base, off, done + text) && failed == old(failed)
    {
      Append(text, base, off, done);
    }

    method Decimal(value: u64, ghost base: string, ghost off: nat, ghost done: string)
      requires Shape() && appended == base + done && length == off + |done|
      modifies this`length, this`failed, this`appended, output
      ensures Shape()
      ensures var text := Printed(value);
              if off + |done| + |text| <= OUTPUT then Printing(base, off, done + text) && failed == old(failed)
              else appended == base + (done + text[..OUTPUT - off - |done|]) && length == OUTPUT && failed
    {
      hide Shape;
      ghost var text, room := Printed(value), OUTPUT - off - |done|;
      Bounded();
      var digits := PrintDecimal(value);
      var i := 0;
      assert done == done + text[..0];
      while i < |digits|
        invariant 0 <= i <= |digits| == |text| && Shape() && room >= 0
        invariant if i <= room then
                    appended == base + (done + text[..i]) && length == off + |done + text[..i]| && failed == old(failed)
                  else appended == base + (done + text[..room]) && length == OUTPUT && failed
      {
        ghost var soFar := done + text[..if i <= room then i else room];
        Append([digits[i] as char], base, off, soFar);
        assert i < room ==> soFar + [text[i]] == done + text[..i + 1];
        assert i >= room ==> soFar + [text[i]][..0] == soFar;
        i := i + 1;
      }
      assert text[..i] == text;
    }

    // A named number.
    method Field(name: string, value: u64, ghost base: string, ghost off: nat, ghost done: string)
      requires Printing(base, off, done) && off + |done| + |name| + 20 <= OUTPUT
      modifies this`length, this`failed, this`appended, output
      ensures Printing(base, off, done + name + Printed(value)) && failed == old(failed)
    {
      hide Printing;
      Put(name, base, off, done);
      Decimal(value, base, off, done + name);
    }

    method FirstField(name: string, value: u64, ghost base: string, ghost off: nat)
      requires Printing(base, off, "") && off + |name| + 20 <= OUTPUT
      modifies this`length, this`failed, this`appended, output
      ensures Printing(base, off, name + Printed(value)) && failed == old(failed)
    {
      hide Printing;
      Field(name, value, base, off, "");
      assert "" + name == name;
    }

    method PrintStatus(s: Snapshot, ghost base: string, ghost off: nat)
      requires Printing(base, off, "") && off + 130 <= OUTPUT
      modifies this`length, this`failed, this`appended, output
      ensures Printing(base, off, StatusText(s)) && failed == old(failed)
    {
      hide Printing, Printed;
      if s.status == OK {
        Put("SELF state=", base, off, "");
        assert "" + "SELF state=" == "SELF state=";
        ghost var t0 := "SELF state=";
        Put(if s.state == ACTIVE then "active" else if s.state == QUARANTINED then "quarantined" else "restricted", base, off, t0);
        ghost var t1 := t0 + StateName(s.state);
        Field(" generation=", s.generation, base, off, t1);
        ghost var t2 := t1 + " generation=" + Printed(s.generation);
        Field(" object=", s.obj, base, off, t2);
        ghost var t3 := t2 + " object=" + Printed(s.obj);
        Field(" rights=", s.rights, base, off, t3);
        Put("\r\n", base, off, t3 + " rights=" + Printed(s.rights));
      } else {
        FirstField("STATUS UNAVAILABLE status=", s.status, base, off);
        Put("\r\n", base, off, "STATUS UNAVAILABLE status=" + Printed(s.status));
      }
    }

    method PrintRead(r: Result, ghost base: string, ghost off: nat)
      requires Printing(base, off, "") && off + 130 <= OUTPUT
      modifies this`length, this`failed, this`appended, output
      ensures Printing(base, off, ReadText(r)) && failed == old(failed)
    {
      hide Printing, Printed;
      if r.status == OK {
        FirstField("READ OK value=", r.value, base, off);
        Put("\r\n", base, off, "READ OK value=" + Printed(r.value));
      } else {
        FirstField("READ DENIED status=", r.status, base, off);
        Put("\r\n", base, off, "READ DENIED status=" + Printed(r.status));
      }
    }

    method PrintReceipt(r: Receipt, ghost base: string, ghost off: nat)
      requires Printing(base, off, "") && off + 200 <= OUTPUT
      modifies this`length, this`failed, this`appended, output
      ensures Printing(base, off, ReceiptText(r)) && failed == old(failed)
    {
      hide Printing, Printed;
      FirstField("ADMIN seq=", r.command.sequence, base, off);
      ghost var t1 := "ADMIN seq=" + Printed(r.command.sequence);
      Field(" decision=", r.decision, base, off, t1);
      ghost var t2 := t1 + " decision=" + Printed(r.decision);
      Field(" audit=", r.auditOk, base, off, t2);
      ghost var t3 := t2 + " audit=" + Printed(r.auditOk);
      Field(" applied=", r.applied, base, off, t3);
      ghost var t4 := t3 + " applied=" + Printed(r.applied);
      Field(" state=", r.post.state, base, off, t4);
      ghost var t5 := t4 + " state=" + Printed(r.post.state);
      Field(" generation=", r.post.generation, base, off, t5);
      Put("\r\n", base, off, t5 + " generation=" + Printed(r.post.generation));
    }

    method Chunk(count: nat) returns (words: seq<u64>)
      requires sent + count <= length <= output.Length
      ensures words == Encoded(output[sent..sent + count])
    {
      words := [];
      var i := 0;
      while i < count
        invariant 0 <= i <= count && words == Encoded(output[sent..sent + i])
      {
        words := words + [output[sent + i] as int % 256];
        i := i + 1;
      }
    }

    // The protected call that offers the next `count` bytes to the driver. The
    // record already counts those it accepts.
    method Write(count: nat) returns (reply: Result)
      requires Wired() && sent + count <= length <= output.Length
      modifies this`calls, this`wire
      ensures calls == |wire| && reply == TcsResponse(world(old(calls)))
      ensures wire == old(wire) + [Message(SERIAL_WRITE, Encoded(output[sent..sent + count]))]
      ensures var text := output[sent..sent + count];
              var taken := if GoodWrite(world(old(calls)), count) then text[..TcsResponse(world(old(calls))).value] else "";
              OnRecord(world, wire, items, acts, Encoded(transmitted + taken))
      ensures failed == old(failed) && (Blamed(world, wire) <==> failed || !GoodWrite(world(old(calls)), count))
    {
      hide OnRecord, Blamed;
      ghost var text := output[sent..sent + count];
      var words := Chunk(count);
      ghost var m := Message(SERIAL_WRITE, words);
      OnRecordCall(world, wire, items, acts, Encoded(transmitted), m);
      reply := TcsResponse(world(calls));
      EncodedMore(transmitted, text, if GoodWrite(world(calls), count) then reply.value else 0);
      assert items + [] == items;
      BlamedCall(world, wire, m);
      calls := calls + 1;
      wire := wire + [m];
    }

    method Took(count: nat)
      requires Shape() && count <= length - sent
      modifies this`length, this`sent, this`transmitted
      ensures Shape() && transmitted == old(transmitted) + old(output[sent..sent + count])
      ensures sent == length ==> length == 0
      ensures length - sent == old(length) - old(sent) - count
    {
      Cut(output[..], sent, sent + count, length, transmitted);
      assert forall lo, hi | 0 <= lo <= hi <= output.Length :: output[..][lo..hi] == output[lo..hi];
      transmitted := transmitted + output[sent..sent + count];
      sent := sent + count;
      if sent == length {
        assert output[sent..length] == output[0..0];
        sent, length := 0, 0;
      }
    }

    method Offer(count: nat) returns (done: bool)
      requires Shape() && Wired() && 0 < count <= length - sent
      modifies this`length, this`sent, this`failed, this`calls, this`transmitted, this`wire
      ensures Shape() && Wired()
      ensures wire == old(wire) + [Message(SERIAL_WRITE, Encoded(old(output[sent..sent + count])))]
      ensures var reply := world(old(calls));
              if GoodWrite(reply, count) then
                transmitted == old(transmitted) + old(output[sent..sent + count])[..TcsResponse(reply).value]
                && failed == old(failed)
              else !done && failed && transmitted == old(transmitted)
      ensures done ==> sent == length
      ensures !done && !failed ==> length > 0
    {
      hide OnRecord, Encoded, Blamed;
      ghost var buffer := output[..];
      var reply := Write(count);
      assert output[..] == buffer;
      if reply.status != OK || reply.value > count {
        assert transmitted + "" == transmitted;
        failed := true;
        return false;
      }
      assert GoodWrite(world(old(calls)), count);
      Front(buffer, sent, count, reply.value);
      Took(reply.value);
      return sent == length;
    }

    // Sends what fits in one message; true when nothing is left.
    method Flush() returns (done: bool)
      requires Shape() && Wired()
      modifies this`length, this`sent, this`failed, this`calls, this`transmitted, this`wire
      ensures Shape() && Wired()
      ensures var text := old(output[sent..sent + Smaller(CHUNK, length - sent)]);
              var reply := world(old(calls));
              if text == [] then wire == old(wire) && done && transmitted == old(transmitted) && failed == old(failed)
              else
                && wire == old(wire) + [Message(SERIAL_WRITE, Encoded(text))]
                && (if GoodWrite(reply, |text|) then transmitted == old(transmitted) + text[..TcsResponse(reply).value]
                                                     && failed == old(failed)
                    else !done && failed && transmitted == old(transmitted))
      ensures done ==> length == 0 && transmitted == appended
      ensures !done && !failed ==> length > 0
    {
      hide OnRecord, Encoded, Blamed, GoodWrite;
      if sent == length { return true; }
      var count := length - sent;
      if count > CHUNK { count := CHUNK; }
      done := Offer(count);
    }

    // A protected call to the client or the administrator.
    method Call(m: Message) returns (reply: Message)
      modifies this`calls, this`wire
      ensures reply == world(old(calls)) && wire == old(wire) + [m] && calls == old(calls) + 1
    {
      reply := world(calls);
      calls := calls + 1;
      wire := wire + [m];
    }

    method PutOnly(text: string)
      requires Printing(appended, 0, "") && |text| <= OUTPUT
      modifies this`length, this`failed, this`appended, output
      ensures Printing(old(appended), 0, text) && failed == old(failed)
    {
      hide Printing;
      Put(text, appended, 0, "");
      assert "" + text == text;
    }

    // The protected call that asks the driver for input. The record already counts
    // what a well-formed reply brings.
    method Read() returns (reply: Message)
      requires Wired()
      modifies this`calls, this`wire
      ensures calls == |wire| && reply == world(old(calls)) && wire == old(wire) + [READ_CALL]
      ensures OnRecord(world, wire, items + HeardIn(READ_CALL, reply), acts, Encoded(transmitted))
      ensures Blamed(world, wire) <==> failed || !GoodRead(reply)
    {
      hide OnRecord, Blamed;
      BlamedCall(world, wire, READ_CALL);
      OnRecordCall(world, wire, items, acts, Encoded(transmitted), READ_CALL);
      assert Encoded(transmitted) + [] == Encoded(transmitted);
      reply := world(calls);
      calls := calls + 1;
      wire := wire + [READ_CALL];
    }

    method AnswerCommand(t: Typed) returns (ghost said: string)
      requires Printing(appended, 0, "") && !failed
      modifies this`length, this`failed, this`appended, this`calls, this`wire, output
      ensures said == CommandText(build, t, world(old(calls))) && Printing(old(appended), 0, said) && !failed
      ensures wire == old(wire) + CommandCalls(t) && calls == old(calls) + |CommandCalls(t)|
    {
      hide Printing, HelpText, VersionText, StatusText, ReadText, SnapshotResponse;
      ghost var base := appended;
      match t {
        case Empty =>
        case Help => PutOnly(HelpText(build));
        case Version => PutOnly(VersionText(build));
        case Status =>
          var reply := Call(Message(CLIENT_STATUS, []));
          PrintStatus(SnapshotResponse(reply), base, 0);
        case Read(g) =>
          var reply := Call(Message(CLIENT_READ, [OBJECT, READ, g]));
          PrintRead(TcsResponse(reply), base, 0);
        case Invalid => PutOnly("ERROR unknown or malformed command\r\n");
      }
      said := CommandText(build, t, world(old(calls)));
    }

    method RunCommand(text: Bytes)
      requires Printing(appended, 0, "") && !failed
      modifies this`length, this`failed, this`appended, this`calls, this`wire, output
      ensures Printing(old(appended), 0, ActionText(build, Run(text), world(old(calls)))) && !failed
      ensures wire == old(wire) + ActionCalls(Run(text)) && calls == old(calls) + |ActionCalls(Run(text))|
    {
      hide Printing, Spells, CommandText;
      ghost var base := appended;
      var t := Parse(text);
      SpellsUnique(text, t, Meaning(text));
      ghost var said := AnswerCommand(t);
      Put("tcs> ", base, 0, said);
    }

    method ReportReply(command: Command, reply: Message)
      requires Printing(appended, 0, "") && !failed
      modifies this`length, this`failed, this`appended, output
      ensures Printing(old(appended), 0, SubmitText(command, reply)) && !failed
    {
      hide Printing, ReceiptValid, ReceiptText, Printed;
      ghost var base := appended;
      var receipt := S.ReceiptDecode(reply);
      if receipt.Some? && ReceiptValid(command, receipt.value) {
        PrintReceipt(receipt.value, base, 0);
      } else if reply.tag == S.ADMIN_ADMISSION && |reply.words| == 1 && reply.words[0] > A.ACCEPTED
                && reply.words[0] <= A.BAD_COMPLETION {
        if reply.words[0] == A.BAD_COMPLETION {
          PutOnly("ADMIN UNCERTAIN; do not retry or advance sequence\r\n");
        } else {
          FirstField("ADMIN REJECTED status=", reply.words[0], base, 0);
          Put("\r\n", base, 0, "ADMIN REJECTED status=" + Printed(reply.words[0]));
        }
      } else {
        PutOnly("ADMIN UNAVAILABLE; do not retry an uncertain request\r\n");
      }
    }

    method SubmitPacket() returns (ghost said: string)
      requires Printing(appended, 0, "") && !failed && frame.Valid() && frame.digits == DIGITS
      modifies this`length, this`failed, this`appended, this`calls, this`wire, output
      ensures said == SubmitText(A.Fields(Filled(frame.text)), world(old(calls)))
      ensures Printing(old(appended), 0, said) && !failed
      ensures wire == old(wire) + [Message(S.ADMIN_SUBMIT, Packed(Filled(frame.text)))] && calls == old(calls) + 1
    {
      hide Printing, SubmitText, A.Fields, Filled, Packed;
      assert frame.packet[..][..PACKET] == frame.packet[..];
      var command := SignedCommand(frame.packet[..]);
      var words := WordsFromBytes(frame.packet[..]);
      var reply := Call(Message(S.ADMIN_SUBMIT, words));
      said := SubmitText(command, reply);
      ReportReply(command, reply);
    }

    method ReportPacket(event: Event) returns (ghost said: string)
      requires Printing(appended, 0, "") && !failed && frame.Valid()
      requires event != Nothing && (event == Ready ==> frame.digits == DIGITS)
      modifies this`length, this`failed, this`appended, this`calls, this`wire, output
      ensures Printing(old(appended), 0, said) && !failed
      ensures said == (if event == Ready then SubmitText(A.Fields(Filled(frame.text)), world(old(calls)))
                       else if event == Cancelled then "CANCELLED\r\n" else "ERROR discarded signed packet\r\n")
      ensures wire == old(wire) + (if event == Ready then [Message(S.ADMIN_SUBMIT, Packed(Filled(frame.text)))] else [])
      ensures calls == old(calls) + (if event == Ready then 1 else 0)
    {
      hide Printing, SubmitText, Filled, Packed, A.Fields;
      if event == Ready {
        said := SubmitPacket();
      } else {
        said := if event == Cancelled then "CANCELLED\r\n" else "ERROR discarded signed packet\r\n";
        assert "" + said == said;
        Put(if event == Cancelled then "CANCELLED\r\n" else "ERROR discarded signed packet\r\n", appended, 0, "");
      }
    }

    // The editor starts afresh; only the frame's carriage return is remembered.
    method Leave()
      requires line.Valid() && frame.Valid()
      modifies this`packetMode, line, line.bytes, frame, frame.packet
      ensures line.Valid() && frame.Valid() && View() == Left(old(View()))
    {
      forall i | 0 <= i < line.bytes.Length { line.bytes[i] := 0; }
      line.length, line.rejected, line.completed := 0, false, false;
      line.previousCr := frame.previousCr;
      frame.Discard();
      packetMode := false;
    }

    method FinishPacket(event: Event)
      requires Printing(appended, 0, "") && !failed && line.Valid() && frame.Valid()
      requires packetMode && event != Nothing && (event == Ready ==> frame.digits == DIGITS)
      modifies this`packetMode, this`length, this`failed, this`appended, this`calls, this`wire
      modifies output, line, line.bytes, frame, frame.packet
      ensures line.Valid() && frame.Valid() && !failed
      ensures var (next, act) := Acted(build.Signing?, old(View()), event);
              && View() == next && Proven(act)
              && Printing(old(appended), 0, ActionText(build, act, world(old(calls))))
              && wire == old(wire) + ActionCalls(act) && calls == old(calls) + |ActionCalls(act)|
    {
      hide Printing, SubmitText, Filled, Packed, A.Fields;
      ghost var base := appended;
      ghost var said := ReportPacket(event);
      Leave();
      Put("tcs> ", base, 0, said);
    }

    // Is the line the one that opens a packet?
    method IsSubmit() returns (same: bool)
      requires line.Valid()
      ensures same <==> line.View().text == SUBMIT_WORD
    {
      same := line.length == |SUBMIT_WORD|;
      var i := 0;
      while same && i < |SUBMIT_WORD|
        invariant 0 <= i <= |SUBMIT_WORD| && (same ==> line.length == |SUBMIT_WORD| && line.bytes[..i] == SUBMIT_WORD[..i])
        invariant !same ==> line.View().text != SUBMIT_WORD
        decreases |SUBMIT_WORD| - i, same
      {
        if line.bytes[i] != SUBMIT_WORD[i] {
          assert line.View().text[i] != SUBMIT_WORD[i];
          same := false;
        } else {
          i := i + 1;
        }
      }
      assert SUBMIT_WORD[..|SUBMIT_WORD|] == SUBMIT_WORD;
    }

    method OpenFrame()
      requires Printing(appended, 0, "") && line.Valid() && frame.Valid() && !failed
      modifies this`packetMode, this`length, this`failed, this`appended, output, frame, frame.packet
      ensures line.Valid() && frame.Valid() && !failed
      ensures View() == old(View()).(frame := Begun(line.previousCr), packetMode := true)
      ensures Proven(OpenPacket) && Printing(old(appended), 0, ActionText(build, OpenPacket, world(calls)))
      ensures ActionCalls(OpenPacket) == []
    {
      hide Printing;
      frame.Begin(line.previousCr);
      packetMode := true;
      PutOnly("Enter exactly 384 lowercase hex digits; Enter submits, Ctrl-C cancels.\r\npacket> ");
    }

    method Execute()
      requires Printing(appended, 0, "") && !failed && line.Valid() && frame.Valid() && !packetMode
      modifies this`packetMode, this`length, this`failed, this`appended, this`calls, this`wire
      modifies output, frame, frame.packet
      ensures line.Valid() && frame.Valid() && !failed
      ensures var (next, act) := Acted(build.Signing?, old(View()), Ready);
              && View() == next && Proven(act)
              && Printing(old(appended), 0, ActionText(build, act, world(old(calls))))
              && wire == old(wire) + ActionCalls(act) && calls == old(calls) + |ActionCalls(act)|
    {
      hide Printing, CommandText, Meaning, ActionText, ActionCalls, SUBMIT_WORD;
      var submit := IsSubmit();
      if build.Signing? && submit {
        OpenFrame();
      } else {
        RunCommand(line.bytes[..line.length]);
      }
    }

    method FinishLine(event: Event)
      requires Printing(appended, 0, "") && !failed && line.Valid() && frame.Valid() && !packetMode && event != Nothing
      modifies this`packetMode, this`length, this`failed, this`appended, this`calls, this`wire
      modifies output, frame, frame.packet
      ensures line.Valid() && frame.Valid() && !failed
      ensures var (next, act) := Acted(build.Signing?, old(View()), event);
              && View() == next && Proven(act)
              && Printing(old(appended), 0, ActionText(build, act, world(old(calls))))
              && wire == old(wire) + ActionCalls(act) && calls == old(calls) + |ActionCalls(act)|
    {
      hide Printing, CommandText, Meaning;
      if event == Ready {
        Execute();
      } else if event == LineEditor.Rejected {
        PutOnly("ERROR discarded input line\r\ntcs> ");
      } else {
        PutOnly("CANCELLED\r\ntcs> ");
      }
    }

    // Acts on the pending event, once everything echoed so far has been sent.
    method Act()
      requires Valid() && !failed && pending != Nothing && length == 0 && transmitted == appended
      modifies this, output, line, line.bytes, frame, frame.packet
      ensures Valid() && !failed && pending == Nothing && items == old(items)
      ensures transmitted == old(transmitted) && opening == old(opening) && turns == old(turns) + [Serve(old(calls))]
      ensures var act := Acted(build.Signing?, old(View()), old(pending)).1;
              && Proven(act) && acts == old(acts) + [act]
              && appended == old(appended) + ActionText(build, act, world(old(calls)))
              && wire == old(wire) + ActionCalls(act)
    {
      hide Orderly, ActionText, ActionCalls, Printed, Acted, Proven, OnRecord, Blamed, Tells;
      ghost var c, at := View(), calls;
      ghost var act := Acted(build.Signing?, c, pending).1;
      assert appended == appended + "";
      var event := pending;
      pending := Nothing;
      acts := acts + [act];
      turns := turns + [Serve(at)];
      if packetMode {
        if event == Ready { ReadyPacket(build.Signing?, items, old(acts), c); }
        FinishPacket(event);
      } else {
        FinishLine(event);
      }
      ActOrderly(build.Signing?, items, old(acts), c, event);
      BlamedAct(world, old(wire), act);
      OnRecordAct(world, old(wire), items, old(acts), Encoded(transmitted), act);
      ServeTells(build, world, old(turns), opening, c, event, old(appended), at);
    }

    lemma PrintingShape(base: string, done: string)
      requires Printing(base, 0, done)
      ensures Shape()
    {
    }

    // A reported loss spoils whatever was being typed.
    method Lose()
      requires Core() && pending == Nothing && Printing(appended, 0, "")
      modifies this`length, this`failed, this`appended, this`items, output, line, line.bytes, frame, frame.packet
      ensures Core() && Printing(old(appended), 0, LOSS_TEXT) && failed == old(failed)
      ensures items == old(items) + [Hole] && View() == Consumed(old(View()), Hole).0
    {
      hide Printing, Orderly, Discarded;
      ghost var c := View();
      EchoShort(c, Hole);
      if packetMode { frame.Discard(); }
      line.Discard();
      PutOnly("\r\nINPUT LOST; discard until Enter or Ctrl-C\r\n");
      ItemOrderly(build.Signing?, items, acts, c, Hole);
      items := items + [Hole];
      PrintingShape(old(appended), LOSS_TEXT);
    }

    method Feed(byte: u8) returns (event: Event, echo: Bytes)
      requires line.Valid() && frame.Valid()
      modifies line, line.bytes, frame, frame.packet
      ensures line.Valid() && frame.Valid() && (View(), event, echo) == Consumed(old(View()), Got(byte))
    {
      hide Input, FrameFed;
      if packetMode { event, echo := frame.Feed(byte); } else { event, echo := line.TerminalInput(byte); }
    }

    // One byte goes to whichever reader is active.
    method Hear(byte: u8, ghost base: string, ghost done: string)
      requires Core() && pending == Nothing && Printing(base, 0, done) && |done| <= |LOSS_TEXT|
      modifies this`pending, this`length, this`failed, this`appended, this`items, output, line, line.bytes, frame, frame.packet
      ensures Core() && failed == old(failed) && items == old(items) + [Got(byte)]
      ensures var (c, event, echo) := Consumed(old(View()), Got(byte));
              View() == c && pending == event && Printing(base, 0, done + Chars(echo))
    {
      hide Printing, Orderly, Consumed;
      ghost var c := View();
      EchoShort(c, Got(byte));
      var event, echo := Feed(byte);
      Put(Chars(echo), base, 0, done);
      pending := event;
      ItemOrderly(build.Signing?, items, acts, c, Got(byte));
      items := items + [Got(byte)];
      PrintingShape(base, done + Chars(echo));
    }

    lemma ReadyToPrint()
      requires Core() && length == 0
      ensures Printing(appended, 0, "")
    {
      assert appended == appended + "";
    }

    // The loss and the byte of one well-formed reply.
    method HearReply(reply: Message)
      requires Core() && pending == Nothing && length == 0 && GoodRead(reply)
      modifies this`pending, this`length, this`failed, this`appended, this`items, output, line, line.bytes, frame, frame.packet
      ensures Core() && failed == old(failed) && items == old(items) + ItemsOf(reply)
      ensures (View(), pending) == Listened(old(View()), reply)
      ensures appended == old(appended) + ReadAppends(old(View()), reply)
    {
      hide Shape, InOrder, Consumed, LOSS_TEXT;
      var flags, byte := reply.words[0], reply.words[1];
      ghost var base, done := appended, "";
      assert base == base + done;
      ReadyToPrint();
      if flags / 2 % 2 == 1 {
        Lose();
        done := LOSS_TEXT;
        assert done + "" == done;
      }
      if flags % 2 == 1 { Hear(byte, base, done); }
    }

    method WellFormed(reply: Message) returns (ok: bool)
      ensures ok <==> GoodRead(reply)
    {
      if reply.tag != SERIAL_DATA || |reply.words| != 2 { return false; }
      var flags, byte := reply.words[0], reply.words[1];
      if flags > 3 || byte > 255 || (flags % 2 == 0 && byte != 0) { return false; }
      return true;
    }

    // Takes what the driver has: at most a loss and a byte.
    method ReadInput() returns (idle: bool)
      requires Valid() && !failed && pending == Nothing && length == 0
      modifies this, output, line, line.bytes, frame, frame.packet
      ensures Valid() && acts == old(acts) && transmitted == old(transmitted) && opening == old(opening)
      ensures wire == old(wire) + [READ_CALL]
      ensures var reply := world(old(calls));
              if GoodRead(reply) then
                && !failed && items == old(items) + ItemsOf(reply) && turns == old(turns) + [Listen(old(calls))]
                && appended == old(appended) + ReadAppends(old(View()), reply)
              else failed && items == old(items) && appended == old(appended) && turns == old(turns)
      ensures idle <==> NoByte(world(old(calls)))
      ensures !failed && !idle ==> |items| > |old(items)|
    {
      hide Shape, InOrder, OnRecord, Blamed, Tells, ReadAppends, Listened, Encoded;
      hide GoodRead, NoByte, ItemsOf, HeardIn;
      ghost var at, c := calls, View();
      var reply := Read();
      var ok := WellFormed(reply);
      if !ok {
        NotRead(reply);
        failed := true;
        return false;
      }
      WellRead(reply);
      HearReply(reply);
      turns := turns + [Listen(at)];
      ListenTells(build, world, old(turns), opening, c, Nothing, old(appended), at);
      return reply.words[0] % 2 == 0;
    }

    // Call k was a read, and the driver had no byte.
    ghost predicate RanDry(k: nat)
      reads `wire
    {
      k < |wire| && wire[k] == READ_CALL && NoByte(world(k))
    }

    // With nothing left to send: act on the pending event, or else read.
    method Turnover() returns (idle: bool)
      requires Valid() && !failed && length == 0 && transmitted == appended
      modifies this, output, line, line.bytes, frame, frame.packet
      ensures Valid() && opening == old(opening)
      ensures old(appended) <= appended && transmitted == old(transmitted)
      ensures old(items) <= items && old(acts) <= acts && old(wire) <= wire && old(turns) <= turns
      ensures if old(pending) != Nothing then items == old(items) && |acts| == |old(acts)| + 1 && !failed && !idle
              else acts == old(acts) && (!idle && !failed ==> |items| > |old(items)|)
      ensures idle ==> !failed && RanDry(|old(wire)|)
    {
      hide Shape, InOrder, Narrated, OnRecord, Blamed, Consumed, ItemsOf, ReadAppends, ActionText, ActionCalls, Acted, Proven;
      if pending != Nothing {
        Act();
        return false;
      }
      idle := ReadInput();
    }

    // One round of the service loop; true when the service must return at once.
    method Round() returns (stop: bool)
      requires Valid() && !failed
      modifies this, output, line, line.bytes, frame, frame.packet
      ensures Valid() && opening == old(opening)
      ensures old(appended) <= appended && old(transmitted) <= transmitted
      ensures old(items) <= items && old(acts) <= acts && old(wire) <= wire && old(turns) <= turns
      ensures acts != old(acts) ==> items == old(items) && |acts| == |old(acts)| + 1
      ensures !stop && !failed ==> |acts| + |items| > |old(acts)| + |old(items)|
      ensures stop && !failed ==> length > 0 || exists k :: |old(wire)| <= k < |wire| && RanDry(k)
    {
      hide Shape, InOrder, Narrated, OnRecord, Blamed, Encoded, GoodWrite, NoByte;
      var flushed := Flush();
      if !flushed { return true; }
      ghost var at := |wire|;
      stop := Turnover();
      if stop { var _ := Flush(); }
      assert stop ==> RanDry(at);
    }

    // 32 rounds that each took input or acted on it.
    ghost predicate Worked(before: nat)
      reads `acts, `items
    {
      |acts| + |items| >= before + STEPS
    }

    // Bounded work: the service returns when output is waiting for the driver, when
    // there is no more input, after a malformed reply, or after 32 rounds of work.
    method Service()
      requires Valid()
      modifies this, output, line, line.bytes, frame, frame.packet
      ensures Valid() && opening == old(opening)
      ensures old(appended) <= appended && old(transmitted) <= transmitted <= appended
      ensures old(items) <= items && old(acts) <= acts && old(wire) <= wire && old(turns) <= turns
      ensures old(failed) ==> items == old(items) && acts == old(acts) && transmitted == old(transmitted)
      ensures failed || length > 0 || Worked(old(|acts| + |items|)) || exists k :: |old(wire)| <= k < |wire| && RanDry(k)
    {
      hide InOrder, Narrated, OnRecord, Blamed, NoByte;
      var step := 0;
      while step < STEPS && !failed
        invariant 0 <= step <= STEPS && Valid() && opening == old(opening)
        invariant old(appended) <= appended && old(transmitted) <= transmitted
        invariant old(items) <= items && old(acts) <= acts && old(wire) <= wire && old(turns) <= turns
        invariant old(failed) ==> items == old(items) && acts == old(acts) && transmitted == old(transmitted) && failed
        invariant !failed ==> |acts| + |items| >= old(|acts| + |items|) + step
      {
        var stop := Round();
        if stop { return; }
        step := step + 1;
      }
      if !failed { var _ := Flush(); }
    }

    method Init()
      requires Valid() && turns == [] && appended == "" && length == 0 && !failed
      modifies this, output, line, line.bytes, frame, frame.packet
      ensures Valid() && opening == Banner(build) && transmitted <= appended
    {
      hide InOrder, OnRecord, Blamed;
      PutOnly(Banner(build));
      opening := Banner(build);
      assert "" + opening == opening && opening + "" == opening;
      Service();
    }

    method Notified(ch: u64)
      requires Valid()
      modifies this, output, line, line.bytes, frame, frame.packet
      ensures Valid() && old(appended) <= appended && old(transmitted) <= transmitted <= appended
      ensures old(items) <= items && old(acts) <= acts && old(wire) <= wire && opening == old(opening)
    {
      if ch == 0 { Service(); }
    }

    method Protected(ch: u64, m: Message) returns (reply: Message)
      ensures reply == TcsReply(Result(DENIED, 0))
    {
      return TcsReply(Result(DENIED, 0));
    }
  }

  // How many of the items taken have been acted on.
  lemma ActedOn(t: Terminal) returns (n: nat)
    requires t.Valid()
    ensures n <= |t.items| && t.acts == After(t.build.Signing?, t.items, n).acts
  {
    hide After, OnRecord, Tells, Consumed;
    n := if t.pending == Nothing then |t.items| else |t.items| - 1;
  }

  // At any time, however the driver's ring was filled and whatever was lost: each
  // packet submitted so far arrived as its 384 digits and Enter, without a gap.
  lemma SubmissionsArrived(t: Terminal, ops: seq<Op>, m: Message)
    requires t.Valid() && Drives(t.world, t.wire, ops) && m in t.wire && m.tag == S.ADMIN_SUBMIT
    ensures t.items == PortAt(ops, |ops|).taken
    ensures |m.words| == S.PACKET_WORDS && exists e: nat :: PacketArrivedAt(PortAt(ops, |ops|), Unpacked(m.words), e)
  {
    hide Drives, PacketArrivedAt, After, OnRecord;
    var n := ActedOn(t);
    PacketArrived(t.world, t.wire, t.items, t.acts, Encoded(t.transmitted), t.build.Signing?, n, ops, m);
  }

  // And each read so far was asked for by a line that arrived whole.
  lemma ReadsArrived(t: Terminal, ops: seq<Op>, m: Message)
    requires t.Valid() && Drives(t.world, t.wire, ops) && m in t.wire && m.tag == CLIENT_READ
    ensures |m.words| == 3 && m.words[..2] == [OBJECT, READ]
    ensures exists text: Bytes, e: nat :: ReadArrivedAt(PortAt(ops, |ops|), m.words[2], text, e)
  {
    hide Drives, ReadArrivedAt, After, OnRecord;
    var n := ActedOn(t);
    ReadArrived(t.world, t.wire, t.items, t.acts, Encoded(t.transmitted), t.build.Signing?, n, ops, m);
  }
}
