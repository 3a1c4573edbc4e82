/**
 The client of the web app: it prints one command, reads one reply within its bounds,
 and sorts the reply into success and the kinds of failure.
 */
module Client {
  import opened Text
  import opened Codewords
  import opened Grammar
  import opened LineStream
  import opened Pulses
  import D = Daemon

  const MAX_REPLY: nat := 256
  const MAX_MESSAGE: nat := 128

  /** What one recv() brings; no bytes at all mean that the daemon closed its end. */
  datatype Recv = Chunk(data: string) | TimedOut | Reset

  datatype LineRead = Line(text: string) | Overlong | Ended(cause: End)

  datatype End = EndClosed | EndTimedOut | EndReset

  datatype Outcome =
    | Success
    | ReplyError(errClass: string, message: string)
    | ProtocolError
    | Timeout
    | Unreachable
    | BadArgument

  predicate Printable(c: char) { ' ' <= c <= '~' }

  /** The printable characters, in order. */
  function Kept(s: string): string {
    if |s| == 0 then "" else (if Printable(s[0]) then [s[0]] else "") + Kept(s[1..])
  }

  /** sanitize(). */
  function Sanitize(s: string): string {
    var kept := Kept(s);
    if |kept| <= MAX_MESSAGE then kept else kept[..MAX_MESSAGE]
  }

  /** What is shown of a message: printable characters, 128 of them at most, and a short printable one as it is. */
  lemma {:induction false} SanitizeIs(s: string)
    ensures |Sanitize(s)| <= 128 && forall i :: 0 <= i < |Sanitize(s)| ==> ' ' <= Sanitize(s)[i] <= '~'
    ensures |s| <= 128 && (forall i :: 0 <= i < |s| ==> ' ' <= s[i] <= '~') ==> Sanitize(s) == s
  {
    KeptIs(s);
  }

  lemma {:induction false} KeptIs(s: string)
    ensures forall i :: 0 <= i < |Kept(s)| ==> ' ' <= Kept(s)[i] <= '~'
    ensures (forall i :: 0 <= i < |s| ==> ' ' <= s[i] <= '~') ==> Kept(s) == s
  {
    if |s| > 0 {
      KeptIs(s[1..]);
      assert s == [s[0]] + s[1..];
    }
  }

  /** Decoding as ASCII, every other byte replaced. */
  function DecodeAscii(s: string): string {
    if |s| == 0 then "" else [if s[0] as int < 128 then s[0] else '\U{FFFD}'] + DecodeAscii(s[1..])
  }

  // ---------- _read_line() ----------

  /** The bytes that the calls of recv() bring before the stream ends. */
  function Heard(script: seq<Recv>): string {
    if |script| == 0 || !script[0].Chunk? || script[0].data == "" then ""
    else script[0].data + Heard(script[1..])
  }

  function EndOf(script: seq<Recv>): End {
    if |script| == 0 then EndClosed
    else match script[0]
      case TimedOut => EndTimedOut
      case Reset => EndReset
      case Chunk(data) => if data == "" then EndClosed else EndOf(script[1..])
  }

  /** What a stream of reply bytes means, whichever way recv() cuts it. */
  function LineOf(s: string, end: End): (r: LineRead)
    ensures r.Line? ==> exists n :: 0 <= n < |s| && n <= MAX_REPLY && s[n] == '\n'
  {
    var n := FirstBreak(s);
    if n < |s| && n <= MAX_REPLY then Line(DecodeAscii(StripCr(s[..n])))
    else if |s| > MAX_REPLY then Overlong
    else Ended(end)
  }

  /** The position of the first newline, or the length when there is none. */
  function FirstBreak(s: string): (n: nat)
    ensures n <= |s| && NoNewline(s[..n]) && (n < |s| ==> s[n] == '\n')
  {
    if s == "" || s[0] == '\n' then 0
    else
      var n := FirstBreak(s[1..]);
      assert s[..n + 1] == [s[0]] + s[1..][..n];
      n + 1
  }

  lemma {:induction false} BreakUnique(s: string, n: nat)
    requires n <= |s| && NoNewline(s[..n]) && (n < |s| ==> s[n] == '\n')
    ensures FirstBreak(s) == n
  {
    var m := FirstBreak(s);
    assert forall k :: 0 <= k < m ==> s[..m][k] == s[k];
    assert forall k :: 0 <= k < n ==> s[..n][k] == s[k];
  }

  /** The first newline of a longer stream is the same. */
  lemma {:induction false} BreakStays(s: string, more: string)
    ensures FirstBreak(s) < |s| ==> FirstBreak(s + more) == FirstBreak(s)
    ensures FirstBreak(s) == |s| ==> FirstBreak(s + more) >= |s|
  {
    var n, m := FirstBreak(s), FirstBreak(s + more);
    if n < |s| {
      assert (s + more)[..n] == s[..n];
      BreakUnique(s + more, n);
    } else {
      assert forall k :: 0 <= k < n ==> s[..n][k] == s[k] == (s + more)[k];
    }
  }

  /** Once the buffer has a newline, or is too long without one, the bytes to come do not matter. */
  lemma {:induction false} BufferDecides(buf: string, more: string, end: End)
    ensures var n := FirstBreak(buf);
            (n < |buf| ==>
               LineOf(buf + more, end) == if n > MAX_REPLY then Overlong else Line(DecodeAscii(StripCr(buf[..n]))))
            && (n == |buf| > MAX_REPLY ==> LineOf(buf + more, end) == Overlong)
  {
    var n := FirstBreak(buf);
    BreakStays(buf, more);
    assert (buf + more)[..n] == buf[..n];
  }

  /** A reply line may be 256 bytes long; without a newline the end of the stream decides, unless more has come. */
  lemma {:induction false} ReplyLimit(s: string, more: string, end: End)
    requires NoNewline(s)
    ensures LineOf(s + "\n" + more, end) == if |s| <= 256 then Line(DecodeAscii(StripCr(s))) else Overlong
    ensures LineOf(s, end) == if |s| <= 256 then Ended(end) else Overlong
  {
    var all := s + "\n" + more;
    assert all[..|s|] == s && s[..|s|] == s;
    BreakUnique(all, |s|);
    BreakUnique(s, |s|);
  }

  lemma {:induction false} EndedRead(buf: string, end: End)
    requires FirstBreak(buf) == |buf| <= MAX_REPLY
    ensures LineOf(buf, end) == Ended(end)
  {
  }

  /** What one more event adds to the bytes in the buffer. */
  lemma {:induction false} NextRecv(script: seq<Recv>, i: nat, buf: string)
    requires i < |script|
    ensures var event := script[i];
            if event.Chunk? && event.data != "" then
              buf + Heard(script[i..]) == (buf + event.data) + Heard(script[i + 1..])
              && EndOf(script[i..]) == EndOf(script[i + 1..])
            else
              buf + Heard(script[i..]) == buf
              && EndOf(script[i..]) ==
                 if event.TimedOut? then EndTimedOut else if event.Reset? then EndReset else EndClosed
  {
    assert script[i..][0] == script[i] && script[i..][1..] == script[i + 1..];
  }

  /**
   _read_line() gives what the bytes mean, however they are cut; most is the largest
   number of them that it ever holds.
   */
  method ReadLine(script: seq<Recv>) returns (r: LineRead, most: nat)
    requires forall i :: 0 <= i < |script| && script[i].Chunk? ==> |script[i].data| <= MAX_REPLY
    ensures r == LineOf(Heard(script), EndOf(script)) && most <= 2 * MAX_REPLY
  {
    var buf := "";
    most := 0;
    var i := 0;
    assert script[0..] == script;
    while i < |script|
      invariant i <= |script| && |buf| <= MAX_REPLY && FirstBreak(buf) == |buf| && most <= 2 * MAX_REPLY
      invariant buf + Heard(script[i..]) == Heard(script) && EndOf(script[i..]) == EndOf(script)
    {
      var event := script[i];
      NextRecv(script, i, buf);
      if event.TimedOut? || event.Reset? || event.data == "" {
        EndedRead(buf, EndOf(script));
        return Ended(if event.TimedOut? then EndTimedOut else if event.Reset? then EndReset else EndClosed), most;
      }
      buf := buf + event.data;
      most := if |buf| > most then |buf| else most;
      i := i + 1;
      BufferDecides(buf, Heard(script[i..]), EndOf(script));
      var end := FirstBreak(buf);
      if end < |buf| {
        var line := buf[..end];
        if |line| > MAX_REPLY {
          return Overlong, most;
        }
        return Line(DecodeAscii(StripCr(line))), most;
      }
      if |buf| > MAX_REPLY {
        return Overlong, most;
      }
    }
    assert script[i..] == [] && buf + "" == buf;
    EndedRead(buf, EndOf(script));
    return Ended(EndClosed), most;
  }

  // ---------- Sorting the reply ----------

  predicate IsLower(c: char) { 'a' <= c <= 'z' }

  /** How many lower-case letters a string starts with. */
  function Letters(s: string): (n: nat)
    ensures n <= |s|
  {
    if s == "" || !IsLower(s[0]) then 0 else 1 + Letters(s[1..])
  }

  /** The reply as the client takes it: OK, or ERR with a class and maybe a text, or nonsense. */
  function Classify(reply: string): Outcome {
    if reply == "OK" then Success
    else if "ERR " <= reply then ClassifyRest(reply[4..])
    else ProtocolError
  }

  function ClassifyRest(rest: string): Outcome {
    var n := Letters(rest);
    if n == 0 then ProtocolError
    else if n == |rest| then ReplyError(rest, "")
    else if rest[n] == ' ' then ReplyError(rest[..n], Sanitize(rest[n + 1..]))
    else ProtocolError
  }

  /** ERR, a class of lower-case letters, and nothing more or a blank and a message. */
  ghost predicate IsErrReply(reply: string, class_: string, message: string) {
    class_ != "" && (forall i :: 0 <= i < |class_| ==> 'a' <= class_[i] <= 'z')
    && ((reply == "ERR " + class_ && message == "") || reply == "ERR " + class_ + " " + message)
  }

  /** OK and nothing else is a success, and a reply of that form and nothing else an error that the daemon reports. */
  lemma {:induction false} ClassifyIff(reply: string, class_: string, message: string)
    ensures Classify(reply) == Success <==> reply == "OK"
    ensures IsErrReply(reply, class_, message) ==> Classify(reply) == ReplyError(class_, Sanitize(message))
    ensures Classify(reply).ReplyError? ==> exists c, m :: IsErrReply(reply, c, m)
    ensures Classify(reply) in {Success, ProtocolError} || Classify(reply).ReplyError?
  {
    if IsErrReply(reply, class_, message) {
      ErrReplyRead(reply, class_, message);
    }
    if Classify(reply).ReplyError? {
      ErrReplyForm(reply);
    }
  }

  lemma {:induction false} ErrReplyRead(reply: string, class_: string, message: string)
    requires IsErrReply(reply, class_, message)
    ensures Classify(reply) == ReplyError(class_, Sanitize(message))
  {
    var rest := reply[4..];
    assert rest == class_ || rest == class_ + (" " + message);
    LettersOf(class_, rest[|class_|..]);
    assert class_ + rest[|class_|..] == rest;
    if |rest| > |class_| {
      assert rest[|class_| + 1..] == message;
    }
  }

  lemma {:induction false} ErrReplyForm(reply: string)
    requires Classify(reply).ReplyError?
    ensures exists c, m :: IsErrReply(reply, c, m)
  {
    var rest := reply[4..];
    var n := Letters(rest);
    LettersLower(rest);
    assert reply == "ERR " + rest;
    if n == |rest| {
      assert IsErrReply(reply, rest, "");
    } else {
      assert rest == rest[..n] + " " + rest[n + 1..];
      assert reply == "ERR " + rest[..n] + " " + rest[n + 1..];
      assert IsErrReply(reply, rest[..n], rest[n + 1..]);
    }
  }

  lemma {:induction false} LettersLower(s: string)
    ensures forall i :: 0 <= i < Letters(s) ==> 'a' <= s[i] <= 'z'
  {
    if s != "" && IsLower(s[0]) {
      LettersLower(s[1..]);
      assert forall i :: 1 <= i < Letters(s) ==> s[i] == s[1..][i - 1];
    }
  }

  lemma {:induction false} LettersOf(class_: string, rest: string)
    requires forall i :: 0 <= i < |class_| ==> 'a' <= class_[i] <= 'z'
    requires rest == "" || rest[0] == ' '
    ensures Letters(class_ + rest) == |class_|
  {
    if class_ == "" {
      assert class_ + rest == rest;
    } else {
      assert (class_ + rest)[1..] == class_[1..] + rest;
      LettersOf(class_[1..], rest);
    }
  }

  function Sort(r: LineRead): Outcome {
    match r
    case Line(text) => Classify(text)
    case Overlong => ProtocolError
    case Ended(EndTimedOut) => Timeout
    case Ended(_) => ProtocolError
  }

  /** How far the connection gets: sendall() may give up after any part of the line. */
  datatype Connect = Connected | ConnectTimedOut | Refused | WriteTimedOut(sent: nat) | WriteBroke(sent: nat)

  /** The part of a line that is written. */
  function LinePart(connect: Connect, line: string): (part: string)
    ensures part <= line
  {
    match connect
    case Connected => line
    case WriteTimedOut(n) => if n <= |line| then line[..n] else line
    case WriteBroke(n) => if n <= |line| then line[..n] else line
    case _ => ""
  }

  /** What the client makes of the connection and of the reply. */
  function AnswerOf(connect: Connect, script: seq<Recv>): Outcome {
    match connect
    case Connected => Sort(LineOf(Heard(script), EndOf(script)))
    case ConnectTimedOut => Timeout
    case WriteTimedOut(_) => Timeout
    case WriteBroke(_) => ProtocolError
    case Refused => Unreachable
  }

  /** RsswitchdClient.send(): line is what it wrote. */
  method SendCommand(dev: int, group: int, number: int, data: int, connect: Connect, script: seq<Recv>)
    returns (line: string, outcome: Outcome)
    requires forall i :: 0 <= i < |script| && script[i].Chunk? ==> |script[i].data| <= MAX_REPLY
    ensures outcome == BadArgument <==> dev < 0 || group < 0 || number < 0 || data < 0 || data > 1
    ensures outcome != BadArgument ==>
              line == LinePart(connect, SwitchLine(dev, group, number, data) + "\n")
              && outcome == AnswerOf(connect, script)
    ensures outcome == BadArgument ==> line == ""
    ensures outcome == Unreachable <==> outcome != BadArgument && connect == Refused
    ensures outcome != BadArgument && (connect == ConnectTimedOut || connect.WriteTimedOut?) ==> outcome == Timeout
    ensures outcome != BadArgument && connect.WriteBroke? ==> outcome == ProtocolError
  {
    line := "";
    if dev < 0 || group < 0 || number < 0 || data < 0 || data > 1 {
      return line, BadArgument;
    }
    var whole := SwitchLine(dev, group, number, data) + "\n";
    line := LinePart(connect, whole);
    match connect {
      case ConnectTimedOut => return line, Timeout;
      case Refused => return line, Unreachable;
      case WriteTimedOut(_) => return line, Timeout;
      case WriteBroke(_) => return line, ProtocolError;
      case Connected =>
    }
    var r, most := ReadLine(script);
    NeverBadArgument(r);
    outcome := Sort(r);
  }

  lemma {:induction false} NeverBadArgument(r: LineRead)
    ensures Sort(r) != BadArgument
  {
  }

  // ---------- What the daemon writes is what the client reads ----------

  predicate AllPrintable(s: string) { forall i :: 0 <= i < |s| ==> Printable(s[i]) }

  lemma {:induction false} DecimalPrintable(n: nat)
    ensures AllPrintable(Decimal(n)) && |Decimal(n)| > 0
    ensures n <= UINT32_MAX ==> |Decimal(n)| <= 10
  {
    DecimalIsCanonical(n);
    if n <= UINT32_MAX && |Decimal(n)| > 10 {
      TenDigits(Decimal(n));
    }
  }

  /** A text that fits text[64] and that sanitize() leaves as it is. */
  predicate PlainText(s: string) { AllPrintable(s) && |s| <= 63 }

  lemma {:induction false} PrintableConcat(a: string, b: string)
    requires AllPrintable(a) && AllPrintable(b)
    ensures AllPrintable(a + b)
  {
  }

  lemma {:induction false} NotInPlain(name: string, value: nat, max: nat)
    requires name in {"group", "socket", "data"} && value <= UINT32_MAX && max < 100
    ensures PlainText(NotIn(name, value, max).text)
  {
    DecimalPrintable(value);
    DecimalPrintable(max);
    DecimalLength(max, 2);
    assert Pow10(2) == 10 * Pow10(1) == 100;
  }

  lemma {:induction false} UnknownPlain(dev: nat)
    requires dev <= UINT32_MAX
    ensures PlainText("dev " + Decimal(dev) + " unknown")
  {
    DecimalPrintable(dev);
    PrintableConcat("dev ", Decimal(dev));
    PrintableConcat("dev " + Decimal(dev), " unknown");
  }

  lemma {:induction false} CheckRangePlain(d: nat, g: nat, s: nat, v: nat)
    requires d <= UINT32_MAX && g <= UINT32_MAX && s <= UINT32_MAX && v <= UINT32_MAX
    ensures CheckRange(d, g, s, v).Error? ==> PlainText(CheckRange(d, g, s, v).text)
  {
    match DevLimits(d) {
      case None => UnknownPlain(d);
      case Some(l) =>
        NotInPlain("group", g, l.groups - 1);
        NotInPlain("socket", s, l.sockets - 1);
        NotInPlain("data", v, l.data - 1);
    }
  }

  /** No error text is cut by its buffer, and none holds an unprintable character. */
  lemma {:induction false} VerdictPlain(d: nat, g: nat, s: nat, v: nat)
    ensures Verdict(d, g, s, v).Error? ==> PlainText(Verdict(d, g, s, v).text)
  {
    if d <= UINT32_MAX && g <= UINT32_MAX && s <= UINT32_MAX && v <= UINT32_MAX {
      CheckRangePlain(d, g, s, v);
    }
  }

  lemma {:induction false} RawVerdictPlain(t: string, p: nat)
    ensures RawVerdict(t, p).Error? ==> PlainText(RawVerdict(t, p).text)
  {
    if p <= UINT32_MAX {
      DecimalPrintable(p);
      PrintableConcat("pulse_len ", Decimal(p));
      PrintableConcat("pulse_len " + Decimal(p), " not in 50-2000");
    }
  }

  lemma {:induction false} LinePlain(line: string)
    ensures LineResult(line).Error? ==> PlainText(LineResult(line).text)
  {
    var text := StripCr(line);
    if IsSwitchLine(text) {
      var d: nat, g: nat, s: nat, v: nat :| text == SwitchLine(d, g, s, v);
      SwitchLineVerdict(d, g, s, v);
      VerdictPlain(d, g, s, v);
    } else if IsRawLine(text) {
      var t: string, p: nat :| IsTristate(t) && text == RawLine(t, p);
      RawLineVerdict(t, p);
      RawVerdictPlain(t, p);
    }
  }

  lemma {:induction false} PrintableStays(s: string)
    requires AllPrintable(s)
    ensures Kept(s) == s && DecodeAscii(s) == s && NoNewline(s) && StripCr(s) == s
  {
    if |s| > 0 {
      PrintableStays(s[1..]);
      assert s == [s[0]] + s[1..];
    }
  }

  /** The client reads one whole printable line, whatever follows it. */
  lemma {:induction false} ReadsBack(text: string, more: string, end: End)
    requires AllPrintable(text) && |text| <= MAX_REPLY
    ensures LineOf(text + "\n" + more, end) == Line(text)
  {
    var s := text + "\n" + more;
    assert s[..|text|] == text;
    PrintableStays(text);
    BreakUnique(s, |text|);
  }

  /** Without a newline the client reads no line. */
  lemma {:induction false} ReadsNothing(part: string, end: End)
    requires NoNewline(part)
    ensures !LineOf(part, end).Line?
  {
    assert part[..|part|] == part;
    BreakUnique(part, |part|);
  }

  predicate AllLower(s: string) { forall i :: 0 <= i < |s| ==> IsLower(s[i]) }

  lemma {:induction false} ErrNameLower(err: ErrClass)
    ensures AllLower(D.ErrName(err)) && 0 < |D.ErrName(err)| <= 7
  {
  }

  lemma {:induction false} LettersPrefix(name: string, rest: string)
    requires AllLower(name)
    requires rest != "" && !IsLower(rest[0])
    ensures Letters(name + rest) == |name|
  {
    if name == "" {
      assert name + rest == rest;
    } else {
      LettersPrefix(name[1..], rest);
      assert (name + rest)[1..] == name[1..] + rest;
    }
  }

  lemma {:induction false} ClassifyError(name: string, text: string)
    requires AllLower(name) && |name| > 0 && PlainText(text)
    ensures Classify("ERR " + name + " " + text) == ReplyError(name, text)
  {
    var reply := "ERR " + name + " " + text;
    assert reply[0] == 'E';
    assert reply[..4] == "ERR " && reply[4..] == name + (" " + text);
    ClassifyErrorRest(name, text);
  }

  lemma {:induction false} ClassifyErrorRest(name: string, text: string)
    requires AllLower(name) && |name| > 0 && PlainText(text)
    ensures ClassifyRest(name + (" " + text)) == ReplyError(name, text)
  {
    var rest := name + (" " + text);
    LettersPrefix(name, " " + text);
    assert rest[..|name|] == name && rest[|name|] == ' ' && rest[|name| + 1..] == text;
    PrintableStays(text);
  }

  lemma {:induction false} ErrorLinePrintable(name: string, text: string)
    requires AllLower(name) && |name| <= 7 && PlainText(text)
    ensures AllPrintable("ERR " + name + " " + text) && |"ERR " + name + " " + text| <= 75
  {
    var line := "ERR " + name + " " + text;
    forall i | 0 <= i < |line|
      ensures Printable(line[i])
    {
      if 4 <= i < 4 + |name| {
        assert line[i] == name[i - 4];
        assert IsLower(name[i - 4]);
      } else if i > 4 + |name| {
        assert line[i] == text[i - 5 - |name|];
      }
    }
  }

  /**
   An error reply fits its buffer of 96 bytes, and it is read back with exactly the class
   and the text that were written.
   */
  lemma {:induction false} ErrorReadBack(err: ErrClass, text: string, more: string, end: End)
    requires PlainText(text)
    ensures |D.ErrReply(err, text)| < 96
    ensures Sort(LineOf(D.ErrReply(err, text) + more, end)) == ReplyError(D.ErrName(err), text)
  {
    var line := "ERR " + D.ErrName(err) + " " + text;
    ErrNameLower(err);
    ErrorLinePrintable(D.ErrName(err), text);
    ClassifyError(D.ErrName(err), text);
    ReadsBack(line, more, end);
  }

  lemma {:induction false} OkReadBack(more: string, end: End)
    ensures Sort(LineOf("OK\n" + more, end)) == Success
  {
    assert "OK\n" + more == "OK" + "\n" + more;
    ReadsBack("OK", more, end);
  }

  // ---------- One command, from the client to the air and back ----------

  /** What the daemon makes of the printed line: one result, and never syntax or empty. */
  function CommandResult(d: nat, g: nat, s: nat, v: nat): Cmd {
    if |SwitchLine(d, g, s, v)| <= MAX_LINE then Verdict(d, g, s, v) else TOO_LONG_LINE
  }

  lemma {:induction false} SwitchLinePrintable(d: nat, g: nat, s: nat, v: nat)
    ensures AllPrintable(SwitchLine(d, g, s, v)) && |SwitchLine(d, g, s, v)| > 0
  {
    DecimalPrintable(d); DecimalPrintable(g); DecimalPrintable(s); DecimalPrintable(v);
  }

  lemma {:induction false} CommandResultKinds(d: nat, g: nat, s: nat, v: nat)
    ensures CommandResult(d, g, s, v) == Switch(d, g, s, v) <==> InLimits(d, g, s, v)
    ensures !InLimits(d, g, s, v) ==>
              CommandResult(d, g, s, v).Error? && CommandResult(d, g, s, v).err in {Range, TooLong}
    ensures CommandResult(d, g, s, v).Error? ==> PlainText(CommandResult(d, g, s, v).text)
  {
    VerdictPlain(d, g, s, v);
    if InLimits(d, g, s, v) {
      ShortWhenInLimits(d, g, s, v);
    }
  }

  /**
   The line that the client prints for any four natural numbers gives exactly one result:
   the switch command with those numbers when they are in range, and otherwise a range
   or too-long error.
   */
  lemma {:induction false} PrintedLineResult(d: nat, g: nat, s: nat, v: nat)
    ensures Run(FRESH, SwitchLine(d, g, s, v) + "\n") == (FRESH, [CommandResult(d, g, s, v)])
    ensures CommandResult(d, g, s, v) == Switch(d, g, s, v) <==> InLimits(d, g, s, v)
    ensures !InLimits(d, g, s, v) ==>
              CommandResult(d, g, s, v).Error? && CommandResult(d, g, s, v).err in {Range, TooLong}
    ensures CommandResult(d, g, s, v).Error? ==> PlainText(CommandResult(d, g, s, v).text)
  {
    CommandResultKinds(d, g, s, v);
    var line := SwitchLine(d, g, s, v);
    SwitchLinePrintable(d, g, s, v);
    PrintableStays(line);
    RunLine(line);
    SwitchLineVerdict(d, g, s, v);
  }

  lemma {:induction false} ShortWhenInLimits(d: nat, g: nat, s: nat, v: nat)
    requires InLimits(d, g, s, v)
    ensures |SwitchLine(d, g, s, v)| <= MAX_LINE
  {
    DecimalPrintable(d); DecimalPrintable(g); DecimalPrintable(s); DecimalPrintable(v);
  }

  /** What the client learns from the reply to a result other than an empty line. */
  function Learned(cmd: Cmd, rc: int): Outcome {
    match cmd
    case Error(err, text) => ReplyError(D.ErrName(err), text)
    case _ => if rc == 0 then Success else ReplyError("send", "transmission failed")
  }

  predicate Answered(cmd: Cmd) {
    cmd != Empty && (cmd.Error? ==> PlainText(cmd.text))
  }

  /** The client learns exactly what the daemon wrote, whatever it writes afterwards. */
  lemma {:induction false} ReplyReadBack(cmd: Cmd, rc: int, more: string, end: End)
    requires Answered(cmd)
    ensures Sort(LineOf(D.ReplyTo(cmd, rc) + more, end)) == Learned(cmd, rc)
  {
    if cmd.Error? {
      ErrorReadBack(cmd.err, cmd.text, more, end);
    } else if rc == 0 {
      OkReadBack(more, end);
    } else {
      ErrorReadBack(Send, "transmission failed", more, end);
    }
  }

  /** A reply that broke off holds no newline, so the client never mistakes it for an answer. */
  lemma {:induction false} BrokenReplyTeachesNothing(cmd: Cmd, rc: int, part: string, end: End)
    requires Answered(cmd) && part < D.ReplyTo(cmd, rc)
    ensures Sort(LineOf(part, end)) in {ProtocolError, Timeout}
  {
    if cmd.Error? {
      BrokenError(cmd.err, cmd.text, part);
    } else if rc == 0 {
      assert "OK\n" == "OK" + "\n";
      OnlyLastBreak("OK", part);
    } else {
      BrokenError(Send, "transmission failed", part);
    }
    ReadsNothing(part, end);
  }

  lemma {:induction false} BrokenError(err: ErrClass, text: string, part: string)
    requires PlainText(text) && part < D.ErrReply(err, text)
    ensures NoNewline(part)
  {
    ErrNameLower(err);
    ErrorLinePrintable(D.ErrName(err), text);
    OnlyLastBreak("ERR " + D.ErrName(err) + " " + text, part);
  }

  lemma {:induction false} OnlyLastBreak(text: string, part: string)
    requires AllPrintable(text) && part < text + "\n"
    ensures NoNewline(part)
  {
    forall i | 0 <= i < |part|
      ensures part[i] != '\n'
    {
      assert part[i] == text[i];
    }
  }

  // ---------- The whole exchange ----------

  /** The whole transmission of an address, nothing for an address that does not exist. */
  function TransmissionFor(d: nat, g: nat, s: nat, v: nat): seq<Pulse> {
    if InLimits(d, g, s, v) then Transmission(Codeword(d, g, s, v), DEVICE_PULSE_LEN) else []
  }

  /** What is owed to a command: nothing but its error, or its transmission and the answer of its send. */
  ghost predicate Settled(d: nat, g: nat, s: nat, v: nat, outcome: Outcome, aired: seq<Pulse>) {
    match outcome
    case Success => InLimits(d, g, s, v) && aired == TransmissionFor(d, g, s, v)
    case ReplyError(errClass, _) =>
      if errClass == "send" then InLimits(d, g, s, v) && aired < TransmissionFor(d, g, s, v)
      else !InLimits(d, g, s, v) && errClass in {"range", "toolong"} && aired == []
    case Unreachable => aired == []
    case _ => outcome in {ProtocolError, Timeout} && aired <= TransmissionFor(d, g, s, v)
  }

  /** At most one result is handled, and it is the one of the printed line. */
  lemma {:induction false} OneResult(hs: seq<D.Handled>, cmd: Cmd)
    requires D.CmdsOf(hs) <= [cmd]
    ensures hs == [] || (|hs| == 1 && hs[0].cmd == cmd)
    ensures hs != [] ==> D.RepliesOf(hs) == D.ReplyTo(cmd, hs[0].rc) && D.AiredBy(hs) == hs[0].sent
    ensures hs != [] ==> D.RepliesOf(hs[..|hs| - 1]) == ""
  {
    if |hs| > 0 {
      CmdsLength(hs);
      assert hs[..0] == [] && D.CmdsOf(hs)[0] == cmd;
      assert D.CmdsOf(hs) == D.CmdsOf(hs[..0]) + [hs[0].cmd];
    }
  }

  lemma {:induction false} CmdsLength(hs: seq<D.Handled>)
    ensures |D.CmdsOf(hs)| == |hs|
  {
    if |hs| > 0 {
      CmdsLength(hs[..|hs| - 1]);
    }
  }

  /** Reading a front of the line gives a front of its results. */
  lemma {:induction false} FrontOfLine(d: nat, g: nat, s: nat, v: nat, received: string)
    requires received <= SwitchLine(d, g, s, v) + "\n"
    ensures Run(FRESH, received).1 <= [CommandResult(d, g, s, v)]
  {
    var line := SwitchLine(d, g, s, v) + "\n";
    PrintedLineResult(d, g, s, v);
    RunSplit(FRESH, received, line[|received|..]);
    assert received + line[|received|..] == line;
  }

  lemma {:induction false} SettledByHandled(d: nat, g: nat, s: nat, v: nat, h: D.Handled)
    requires h.cmd == CommandResult(d, g, s, v) && D.HandledOk(h)
    ensures Answered(h.cmd)
    ensures Settled(d, g, s, v, Learned(h.cmd, h.rc), h.sent)
    ensures Settled(d, g, s, v, ProtocolError, h.sent) && Settled(d, g, s, v, Timeout, h.sent)
  {
    CommandResultKinds(d, g, s, v);
  }

  lemma {:induction false} NothingHeard(end: End)
    ensures Sort(LineOf("", end)) in {ProtocolError, Timeout}
  {
  }

  /** The client heard a front of what the daemon wrote for the results it handled. */
  lemma {:induction false} HeardIsSettled(d: nat, g: nat, s: nat, v: nat, hs: seq<D.Handled>, heard: string, end: End)
    requires D.CmdsOf(hs) <= [CommandResult(d, g, s, v)] && D.AllHandled(hs)
    requires heard <= D.RepliesOf(hs)
    ensures Settled(d, g, s, v, Sort(LineOf(heard, end)), D.AiredBy(hs))
  {
    OneResult(hs, CommandResult(d, g, s, v));
    if hs == [] {
      NothingHeard(end);
    } else {
      SettledByHandled(d, g, s, v, hs[0]);
      var reply := D.ReplyTo(hs[0].cmd, hs[0].rc);
      if heard == reply {
        assert reply + "" == reply;
        ReplyReadBack(hs[0].cmd, hs[0].rc, "", end);
      } else {
        BrokenReplyTeachesNothing(hs[0].cmd, hs[0].rc, heard, end);
      }
    }
  }

  /** Whatever the daemon handled, a client that learned nothing of it is right about that. */
  lemma {:induction false} SilenceIsSettled(d: nat, g: nat, s: nat, v: nat, hs: seq<D.Handled>)
    requires D.CmdsOf(hs) <= [CommandResult(d, g, s, v)] && D.AllHandled(hs)
    ensures Settled(d, g, s, v, ProtocolError, D.AiredBy(hs)) && Settled(d, g, s, v, Timeout, D.AiredBy(hs))
  {
    OneResult(hs, CommandResult(d, g, s, v));
    if hs != [] {
      SettledByHandled(d, g, s, v, hs[0]);
    }
  }

  /**
   One command between client and daemon: the daemon handles some of what the line means
   that was written, in order, and the client hears a front of its replies.
   */
  ghost predicate Exchanged(line: string, script: seq<Recv>, hs: seq<D.Handled>) {
    D.CmdsOf(hs) <= Run(FRESH, line).1 && D.AllHandled(hs) && Heard(script) <= D.RepliesOf(hs)
  }

  /** However an exchange goes, what the client concludes agrees with what is on the air. */
  lemma {:induction false} ExchangeIsSettled(d: nat, g: nat, s: nat, v: nat, connect: Connect, script: seq<Recv>,
                                             hs: seq<D.Handled>)
    requires Exchanged(LinePart(connect, SwitchLine(d, g, s, v) + "\n"), script, hs)
    ensures Settled(d, g, s, v, AnswerOf(connect, script), D.AiredBy(hs))
  {
    FrontOfLine(d, g, s, v, LinePart(connect, SwitchLine(d, g, s, v) + "\n"));
    match connect {
      case Connected => HeardIsSettled(d, g, s, v, hs, Heard(script), EndOf(script));
      case Refused => CmdsLength(hs);
      case _ => SilenceIsSettled(d, g, s, v, hs);
    }
  }

  /** A command that the daemon handled without a fault, and whose reply is heard, is a success when it is in range. */
  lemma {:induction false} ExchangeSucceeds(d: nat, g: nat, s: nat, v: nat, script: seq<Recv>, hs: seq<D.Handled>)
    requires D.CmdsOf(hs) == [CommandResult(d, g, s, v)] && D.AllHandled(hs) && D.AllWorked(hs)
    requires InLimits(d, g, s, v) && Heard(script) == D.RepliesOf(hs)
    ensures AnswerOf(Connected, script) == Success
  {
    OneResult(hs, CommandResult(d, g, s, v));
    CmdsLength(hs);
    CommandResultKinds(d, g, s, v);
    assert D.RepliesOf(hs) + "" == D.RepliesOf(hs);
    ReplyReadBack(hs[0].cmd, 0, "", EndOf(script));
  }

  lemma {:induction false} ReceivedIsFront(received: string, line: string)
    requires received <= line
    ensures Run(FRESH, received).1 <= Run(FRESH, line).1
  {
    RunSplit(FRESH, received, line[|received|..]);
    assert received + line[|received|..] == line;
  }

  lemma {:induction false} HandledOne(d: nat, g: nat, s: nat, v: nat, received: string, hs: seq<D.Handled>)
    requires |hs| == 1 && D.CmdsOf(hs) <= Run(FRESH, received).1 <= [CommandResult(d, g, s, v)]
    ensures D.CmdsOf(hs) == [CommandResult(d, g, s, v)]
  {
    CmdsLength(hs);
  }

  /** Whether or not the last reply broke off, the wire carries a front of the replies. */
  lemma {:induction false} WireIsFront(wire: string, hs: seq<D.Handled>)
    requires wire == "" + D.RepliesOf(hs) || (|hs| > 0 && D.CutShort("", wire, hs))
    ensures wire <= D.RepliesOf(hs)
  {
    if wire == "" + D.RepliesOf(hs) {
      assert wire == D.RepliesOf(hs);
    } else {
      var last := hs[|hs| - 1];
      assert "" + D.RepliesOf(hs[..|hs| - 1]) == D.RepliesOf(hs[..|hs| - 1]);
      FrontAndPart(D.RepliesOf(hs[..|hs| - 1]), D.ReplyTo(last.cmd, last.rc), wire);
    }
  }

  lemma {:induction false} FrontAndPart(front: string, last: string, s: string)
    requires front <= s && s[|front|..] <= last
    ensures s <= front + last
  {
    assert s == front + s[|front|..];
  }

  /**
   The promise to the web app: one command goes out over a fresh connection, cut into
   reads in any way, through any faults of the board and of the connection, and the
   reply comes back cut in any way.  When the client reports success, the transmission
   of exactly that address is on the air and nothing else; when it reports a range or
   too-long error, nothing is; and no other outcome is taken for one of these.
   */
  method Exchange(conn: D.Connection, dev: nat, group: nat, number: nat, data: nat,
                  inputs: seq<D.ReadEvent>, connect: Connect, script: seq<Recv>)
    returns (outcome: Outcome)
    requires conn.Valid() && conn.handled == [] && conn.wire == "" && data <= 1
    requires D.Incoming(inputs) <= LinePart(connect, SwitchLine(dev, group, number, data) + "\n")
    requires forall i :: 0 <= i < |script| && script[i].Chunk? ==> |script[i].data| <= MAX_REPLY
    modifies conn, conn.lib`held, conn.lib.board
    ensures Heard(script) <= conn.wire ==>
              Exchanged(LinePart(connect, SwitchLine(dev, group, number, data) + "\n"), script, conn.handled)
              && conn.lib.board.pulses == old(conn.lib.board.pulses) + D.AiredBy(conn.handled)
              && Settled(dev, group, number, data, outcome, D.AiredBy(conn.handled))
    ensures connect == Connected && InLimits(dev, group, number, data) && |conn.handled| == 1
            && Heard(script) == D.RepliesOf(conn.handled)
            && conn.lib.board.Fits(conn.lib.gpioConfig) && conn.lib.board.NoFault() ==>
              outcome == Success
  {
    ghost var received, ending, waits;
    received, ending, waits := conn.ServeConnection(inputs);
    var line;
    line, outcome := SendCommand(dev, group, number, data, connect, script);
    FrontOfLine(dev, group, number, data, received);
    ReceivedIsFront(received, LinePart(connect, SwitchLine(dev, group, number, data) + "\n"));
    WireIsFront(conn.wire, conn.handled);
    if Heard(script) <= conn.wire {
      ExchangeIsSettled(dev, group, number, data, connect, script, conn.handled);
    }
    if |conn.handled| == 1 {
      HandledOne(dev, group, number, data, received, conn.handled);
      if connect == Connected && InLimits(dev, group, number, data) && D.AllWorked(conn.handled)
         && Heard(script) == D.RepliesOf(conn.handled)
      {
        ExchangeSucceeds(dev, group, number, data, script, conn.handled);
      }
    }
  }
}
