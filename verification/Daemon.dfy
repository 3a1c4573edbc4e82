/**
 The serving loop of rsswitchd: one connection, the commands that come in over it, the
 transmissions they cause and the replies that go back.
 */
module Daemon {
  import opened Text
  import opened Grammar
  import opened LineStream
  import opened Protocol
  import opened Pulses
  import opened Boards
  import opened Sending

  /** What waiting for the client and reading from it brings. */
  datatype ReadEvent =
    | Bytes(data: string)
    | Closed
    | Interrupted
    | Failed
    | WaitOver

  /** What one write() does with the bytes it is given. */
  datatype WriteEvent = Took(n: nat) | Retry | Broken

  /** Why the connection ended. */
  datatype Ending = Stopped | ReplyLost | InputOver

  /** The bytes that the reads bring before the connection ends. */
  function Incoming(inputs: seq<ReadEvent>): string {
    if |inputs| == 0 then ""
    else match inputs[0]
      case Bytes(data) => data + Incoming(inputs[1..])
      case Interrupted => Incoming(inputs[1..])
      case _ => ""
  }

  /** Of all that will be heard, received has come in with the first i inputs. */
  ghost predicate HeardSoFar(inputs: seq<ReadEvent>, i: nat, received: string) {
    i <= |inputs| && received + Incoming(inputs[i..]) == Incoming(inputs)
  }

  /** There was one wait for each input that was taken, of which the last may have brought no bytes. */
  ghost predicate OneWaitEach(inputs: seq<ReadEvent>, waits: seq<Wait>, received: string) {
    HeardSoFar(inputs, |waits|, received) || (|waits| > 0 && HeardSoFar(inputs, |waits| - 1, received))
  }

  lemma {:induction false} HeardNothingYet(inputs: seq<ReadEvent>)
    ensures HeardSoFar(inputs, 0, "")
  {
    assert inputs[0..] == inputs && "" + Incoming(inputs) == Incoming(inputs);
  }

  lemma {:induction false} HearMore(inputs: seq<ReadEvent>, i: nat, received: string)
    requires HeardSoFar(inputs, i, received)
    ensures received <= Incoming(inputs)
    ensures i == |inputs| ==> received == Incoming(inputs)
    ensures i < |inputs| ==>
              match inputs[i]
              case Bytes(data) => HeardSoFar(inputs, i + 1, received + data)
              case Interrupted => HeardSoFar(inputs, i + 1, received)
              case _ => received == Incoming(inputs)
  {
    assert received + "" == received;
    if i < |inputs| {
      assert inputs[i..][1..] == inputs[i + 1..];
      if inputs[i].Bytes? {
        assert (received + inputs[i].data) + Incoming(inputs[i + 1..])
               == received + (inputs[i].data + Incoming(inputs[i + 1..]));
      }
    }
  }

  /** One result of the parser that was handled, what its send returned and put on the air. */
  datatype Handled = Handled(cmd: Cmd, rc: int, sent: seq<Pulse>)

  function ErrName(err: ErrClass): string {
    match err
    case Syntax => "syntax"
    case Range => "range"
    case TooLong => "toolong"
    case Send => "send"
  }

  predicate IsSend(cmd: Cmd) { cmd.Switch? || cmd.Raw? }

  function RequestOf(cmd: Cmd): Request
    requires IsSend(cmd)
  {
    match cmd
    case Switch(d, g, s, v) => Device(d, g, s, v)
    case Raw(t, p) => RawWord(Some(t), p)
  }

  function ErrReply(err: ErrClass, text: string): string {
    "ERR " + ErrName(err) + " " + text + "\n"
  }

  function SendFailed(): string { ErrReply(Send, "transmission failed") }

  /** The reply owed to a result: none to an empty line, and OK exactly to a send that returned 0. */
  function ReplyTo(cmd: Cmd, rc: int): string {
    match cmd
    case Empty => ""
    case Error(err, text) => ErrReply(err, text)
    case _ => if rc == 0 then "OK\n" else SendFailed()
  }

  /** The replies, word for word. */
  lemma {:induction false} RepliesSay(cmd: Cmd, rc: int, text: string)
    ensures ReplyTo(Empty, rc) == ""
    ensures ReplyTo(Error(Syntax, text), rc) == "ERR syntax " + text + "\n"
    ensures ReplyTo(Error(Range, text), rc) == "ERR range " + text + "\n"
    ensures ReplyTo(Error(TooLong, text), rc) == "ERR toolong " + text + "\n"
    ensures IsSend(cmd) ==> ReplyTo(cmd, rc) == if rc == 0 then "OK\n" else "ERR send transmission failed\n"
  {
    ErrWords("syntax", "ERR syntax ", text);
    ErrWords("range", "ERR range ", text);
    ErrWords("toolong", "ERR toolong ", text);
    ErrWords("send", "ERR send ", "transmission failed");
    assert "ERR send " + "transmission failed" + "\n" == "ERR send transmission failed\n";
  }

  lemma {:induction false} ErrWords(name: string, words: string, text: string)
    requires words == "ERR " + name + " "
    ensures "ERR " + name + " " + text + "\n" == words + text + "\n"
  {
  }

  function CmdsOf(hs: seq<Handled>): seq<Cmd> {
    if |hs| == 0 then [] else CmdsOf(hs[..|hs| - 1]) + [hs[|hs| - 1].cmd]
  }

  function RepliesOf(hs: seq<Handled>): string {
    if |hs| == 0 then "" else RepliesOf(hs[..|hs| - 1]) + ReplyTo(hs[|hs| - 1].cmd, hs[|hs| - 1].rc)
  }

  function AiredBy(hs: seq<Handled>): seq<Pulse> {
    if |hs| == 0 then [] else AiredBy(hs[..|hs| - 1]) + hs[|hs| - 1].sent
  }

  /**
   A handled result: a command has put its transmission on the air, whole exactly when
   its send returned 0, and anything else has put nothing there.
   */
  ghost predicate HandledOk(h: Handled) {
    if IsSend(h.cmd) then
      Accepted(RequestOf(h.cmd))
      && if h.rc == 0 then h.sent == TransmissionOf(MessageOf(RequestOf(h.cmd)))
         else h.rc == -1 && h.sent < TransmissionOf(MessageOf(RequestOf(h.cmd)))
    else h.rc == 0 && h.sent == []
  }

  /** Every send returned 0. */
  predicate AllWorked(hs: seq<Handled>) {
    forall k :: 0 <= k < |hs| ==> hs[k].rc == 0
  }

  /** What was on the air and on the wire, and how many calls the board had made, when a connection began. */
  datatype Start = Start(air: seq<Pulse>, wire: string, calls: nat, failAt: Option<nat>)

  ghost predicate AllHandled(hs: seq<Handled>) {
    forall k :: 0 <= k < |hs| ==> HandledOk(hs[k])
  }

  lemma {:induction false} Snoc(hs: seq<Handled>, h: Handled)
    ensures CmdsOf(hs + [h]) == CmdsOf(hs) + [h.cmd]
    ensures RepliesOf(hs + [h]) == RepliesOf(hs) + ReplyTo(h.cmd, h.rc)
    ensures AiredBy(hs + [h]) == AiredBy(hs) + h.sent
    ensures (hs + [h])[..|hs + [h]| - 1] == hs
  {
    assert (hs + [h])[..|hs|] == hs;
  }

  lemma {:induction false} SnocHandled(hs: seq<Handled>, h: Handled)
    requires AllHandled(hs) && HandledOk(h)
    ensures AllHandled(hs + [h])
    ensures AllWorked(hs) && h.rc == 0 ==> AllWorked(hs + [h])
  {
  }

  /** One more handled result, seen from what was on the air and on the wire at the start. */
  lemma {:induction false} SnocSums(air: seq<Pulse>, heard: string, hs: seq<Handled>, h: Handled)
    ensures air + AiredBy(hs) + h.sent == air + AiredBy(hs + [h])
    ensures heard + RepliesOf(hs) + ReplyTo(h.cmd, h.rc) == heard + RepliesOf(hs + [h])
  {
    Snoc(hs, h);
    assert (air + AiredBy(hs)) + h.sent == air + (AiredBy(hs) + h.sent);
    assert (heard + RepliesOf(hs)) + ReplyTo(h.cmd, h.rc) == heard + (RepliesOf(hs) + ReplyTo(h.cmd, h.rc));
  }

  /** A line that is parsed as a command names an address or a word that the library accepts. */
  lemma {:induction false} ParsedIsAccepted(line: string)
    requires IsSend(LineResult(line))
    ensures Accepted(RequestOf(LineResult(line)))
  {
  }

  ghost predicate AllAccepted(cmds: seq<Cmd>) {
    forall i :: 0 <= i < |cmds| && IsSend(cmds[i]) ==> Accepted(RequestOf(cmds[i]))
  }

  lemma {:induction false} StreamIsAccepted(st: LineState, s: string)
    ensures AllAccepted(Run(st, s).1)
    decreases |s|
  {
    if |s| > 0 {
      StreamIsAccepted(Step(st, s[0]).0, s[1..]);
      if st.Collecting? && s[0] == '\n' && IsSend(LineResult(st.line)) {
        ParsedIsAccepted(st.line);
      }
    }
  }

  // ---------- The idle deadline ----------

  const NANOS: int := 1_000_000_000

  datatype Timespec = Timespec(sec: int, nsec: int) {
    predicate Normal() { 0 <= sec && 0 <= nsec < NANOS }

    function Total(): int { sec * NANOS + nsec }
  }

  /** The n-th reading of CLOCK_MONOTONIC, which gives that many nanoseconds. */
  function At(clock: nat -> nat, n: nat): Timespec { Timespec(clock(n) / NANOS, clock(n) % NANOS) }

  /** The time left until the deadline, as wait_readable() works it out: normalised, and zero when it has passed. */
  method TimeLeft(deadline: Timespec, now: Timespec) returns (timeout: Timespec)
    requires deadline.Normal() && now.Normal()
    ensures timeout.Normal()
    ensures timeout.Total() == if deadline.Total() > now.Total() then deadline.Total() - now.Total() else 0
  {
    var sec, nsec := deadline.sec - now.sec, deadline.nsec - now.nsec;
    if nsec < 0 {
      nsec := nsec + NANOS;
      sec := sec - 1;
    }
    if sec < 0 {
      sec, nsec := 0, 0;
    }
    timeout := Timespec(sec, nsec);
  }

  /** One call of pselect(): when it was made, and how long it may block. */
  datatype Select = Select(now: Timespec, timeout: Timespec)

  /** A call that may block for just as long as is left until that time in nanoseconds. */
  predicate MayBlock(c: Select, end: int) {
    c.timeout.Normal() && c.timeout.Total() == if end > c.now.Total() then end - c.now.Total() else 0
  }

  /** A deadline that is armed at a time: the idle timeout is added to its seconds. */
  function DeadlineOf(armed: Timespec, idle: nat): Timespec { Timespec(armed.sec + idle, armed.nsec) }

  /**
   A wait of the serving loop: the reading of the clock that armed its deadline, how many
   results had been handled, its own first reading, and its calls.
   */
  datatype Wait = Wait(armed: nat, handled: nat, from: nat, calls: seq<Select>) {
    function End(): nat { from + |calls| }
  }

  /** Each call may block until the idle timeout after the arming, and no longer. */
  predicate WaitOk(w: Wait, clock: nat -> nat, idle: nat) {
    w.armed < w.from
    && forall i :: 0 <= i < |w.calls| ==>
         w.calls[i].now == At(clock, w.from + i) && MayBlock(w.calls[i], clock(w.armed) + idle * 1_000_000_000)
  }

  /** The deadline is armed anew exactly when results have been handled since the wait before, and after that wait. */
  predicate ArmedInTurn(w: Wait, armed: nat, handled: nat) {
    w.handled <= handled && if w.handled == handled then w.armed == armed else w.End() <= armed
  }

  predicate WaitsOk(waits: seq<Wait>, clock: nat -> nat, idle: nat) {
    (forall k :: 0 <= k < |waits| ==> WaitOk(waits[k], clock, idle))
    && forall k :: 0 < k < |waits| ==> ArmedInTurn(waits[k - 1], waits[k].armed, waits[k].handled)
  }

  /** What is armed now, compared with the last wait. */
  predicate ArmedSince(waits: seq<Wait>, armed: nat, handled: nat, ticks: nat) {
    armed < ticks
    && (|waits| > 0 ==> waits[|waits| - 1].End() <= ticks && ArmedInTurn(waits[|waits| - 1], armed, handled))
  }

  lemma {:induction false} OneMoreWait(waits: seq<Wait>, clock: nat -> nat, idle: nat, w: Wait)
    requires WaitsOk(waits, clock, idle) && WaitOk(w, clock, idle) && ArmedSince(waits, w.armed, w.handled, w.from)
    ensures WaitsOk(waits + [w], clock, idle) && ArmedSince(waits + [w], w.armed, w.handled, w.End())
  {
    var all := waits + [w];
    forall k | 0 < k < |all|
      ensures ArmedInTurn(all[k - 1], all[k].armed, all[k].handled)
    {
      if k < |waits| {
        assert all[k - 1] == waits[k - 1] && all[k] == waits[k];
      }
    }
  }

  lemma {:induction false} DeadlineTotal(clock: nat -> nat, n: nat, idle: nat)
    ensures At(clock, n).Normal() && At(clock, n).Total() == clock(n)
    ensures DeadlineOf(At(clock, n), idle).Normal()
    ensures DeadlineOf(At(clock, n), idle).Total() == clock(n) + idle * 1_000_000_000
  {
  }

  class Connection {
    const lib: Library
    /** The idle timeout in seconds. */
    const idle: nat
    /** What the client has received so far. */
    var wire: string
    /** What the coming calls of write() do. */
    var writes: seq<WriteEvent>
    /** What each reading of the clock gives, and how many there have been. */
    const clock: nat -> nat
    var ticks: nat
    ghost var handled: seq<Handled>

    ghost predicate Valid()
      reads this, lib, lib.board
    {
      lib.Ready()
    }

    constructor (lib: Library, idle: nat, writes: seq<WriteEvent>, clock: nat -> nat)
      requires lib.Ready()
      ensures Valid() && this.lib == lib && this.idle == idle && this.clock == clock && wire == "" && handled == []
    {
      this.lib, this.idle, this.writes, this.clock := lib, idle, writes, clock;
      wire, handled, ticks := "", [], 0;
    }

    method Clock() returns (now: Timespec)
      modifies `ticks
      ensures ticks == old(ticks) + 1 && now == At(clock, old(ticks))
    {
      now := At(clock, ticks);
      ticks := ticks + 1;
    }

    /** wait_readable(): a call that a signal interrupts is repeated with what is left then. */
    method WaitReadable(deadline: Timespec) returns (calls: seq<Select>)
      requires deadline.Normal()
      modifies `ticks
      ensures ticks == old(ticks) + |calls| && |calls| > 0
      ensures forall i :: 0 <= i < |calls| ==>
                calls[i].now == At(clock, old(ticks) + i) && MayBlock(calls[i], deadline.Total())
    {
      calls := [];
      var signals: int := *;
      for i := 0 to if signals < 0 then 1 else signals + 1
        invariant |calls| == i && ticks == old(ticks) + i
        invariant forall k :: 0 <= k < i ==>
                    calls[k].now == At(clock, old(ticks) + k) && MayBlock(calls[k], deadline.Total())
      {
        var now := Clock();
        DeadlineTotal(clock, old(ticks) + i, 0);
        var timeout := TimeLeft(deadline, now);
        calls := calls + [Select(now, timeout)];
      }
    }

    /** A wait of the serving loop, on top of those before it. */
    method NextWait(deadline: Timespec, ghost armed: nat, ghost before: seq<Wait>)
      returns (calls: seq<Select>, ghost waits: seq<Wait>)
      requires deadline == DeadlineOf(At(clock, armed), idle)
      requires WaitsOk(before, clock, idle) && ArmedSince(before, armed, |handled|, ticks)
      modifies `ticks
      ensures waits == before + [Wait(armed, |handled|, old(ticks), calls)] && |calls| > 0
      ensures WaitsOk(waits, clock, idle) && ArmedSince(waits, armed, |handled|, ticks)
    {
      DeadlineTotal(clock, armed, idle);
      calls := WaitReadable(deadline);
      OneMoreWait(before, clock, idle, Wait(armed, |handled|, old(ticks), calls));
      waits := before + [Wait(armed, |handled|, old(ticks), calls)];
    }

    /** send_reply(): short writes go on, interrupted ones are repeated, any other failure ends it. */
    method SendReply(reply: string) returns (rc: int)
      modifies `wire, `writes
      ensures rc == 0 || rc == -1
      ensures rc == 0 ==> wire == old(wire) + reply
      ensures rc < 0 ==> old(wire) <= wire && wire[|old(wire)|..] < reply
    {
      var sent: nat := 0;
      ghost var before := wire;
      while sent < |reply|
        invariant sent <= |reply| && wire == before + reply[..sent]
        decreases |writes|, |reply| - sent
      {
        assert wire[|before|..] == reply[..sent];
        if |writes| == 0 {
          return -1;
        }
        var event := writes[0];
        writes := writes[1..];
        match event {
          case Retry =>
          case Broken => return -1;
          case Took(n) =>
            var took: nat := if n <= |reply| - sent then n else |reply| - sent;
            wire := wire + reply[sent..sent + took];
            assert reply[..sent + took] == reply[..sent] + reply[sent..sent + took];
            sent := sent + took;
        }
      }
      assert reply[..sent] == reply;
      return 0;
    }

    /** The config is acceptable, and no call into the system below the library has failed since then. */
    ghost predicate Unharmed(s: Start)
      reads this, lib, lib.board
    {
      lib.board.Fits(lib.gpioConfig) && AllWork(lib.board.works, s.calls, lib.board.calls)
      && lib.board.failAt == s.failAt
    }

    /** How the air, the wire and the board are now. */
    ghost function Now(): Start
      reads this, lib, lib.board
    {
      Start(lib.board.pulses, wire, lib.board.calls, lib.board.failAt)
    }

    /** The air and the client have exactly what the handled results put there; without a fault every send worked. */
    ghost predicate InStep(s: Start)
      reads this, lib, lib.board
    {
      AllHandled(handled)
      && lib.board.pulses == s.air + AiredBy(handled)
      && wire == s.wire + RepliesOf(handled)
      && s.calls <= lib.board.calls && (lib.board.failAt == s.failAt || lib.board.failAt == None)
      && (Unharmed(s) ==> AllWorked(handled))
    }

    /** The same, but the last reply broke off. */
    ghost predicate LostReply(s: Start)
      reads this, lib, lib.board
    {
      AllHandled(handled)
      && lib.board.pulses == s.air + AiredBy(handled)
      && |handled| > 0 && CutShort(s.wire, wire, handled)
      && s.calls <= lib.board.calls && (lib.board.failAt == s.failAt || lib.board.failAt == None)
      && (Unharmed(s) ==> AllWorked(handled))
    }

    /** handle_command(): the library call of a command, and its reply. */
    method HandleCommand(cmd: Cmd, ghost s: Start) returns (rc: int)
      requires Valid() && (IsSend(cmd) ==> Accepted(RequestOf(cmd))) && InStep(s)
      modifies this, lib`held, lib.board
      ensures Valid() && (rc == 0 || rc == -1) && ticks == old(ticks)
      ensures CmdsOf(handled) == CmdsOf(old(handled)) + [cmd] && |handled| == |old(handled)| + 1
      ensures rc == 0 ==> InStep(s)
      ensures rc < 0 ==> LostReply(s)
    {
      var ret;
      ghost var sent;
      ret, sent := Perform(cmd);
      ghost var h := Handled(cmd, ret, sent);
      Snoc(handled, h);
      SnocHandled(handled, h);
      SnocSums(s.air, s.wire, handled, h);
      if Unharmed(s) {
        WorkJoins(lib.board.works, s.calls, old(lib.board.calls), lib.board.calls);
        assert old(Unharmed(s)) && AllWorked(handled) && ret == 0;
      }
      handled := handled + [h];
      rc := SendReply(ReplyTo(cmd, ret));
    }

    /** The library call that a result asks for, if any. */
    method Perform(cmd: Cmd) returns (ret: int, ghost sent: seq<Pulse>)
      requires Valid() && (IsSend(cmd) ==> Accepted(RequestOf(cmd)))
      modifies lib`held, lib.board
      ensures Valid()
      ensures HandledOk(Handled(cmd, ret, sent))
      ensures lib.board.Later()
      ensures IsSend(cmd) ==> (ret == 0 <==> lib.board.Fits(lib.gpioConfig) && lib.board.NoFault())
      ensures lib.board.pulses == old(lib.board.pulses) + sent
    {
      ret, sent := 0, [];
      assert lib.board.pulses + [] == lib.board.pulses;
      ghost var before, begun, released := lib.board.pulses, false, true;
      match cmd {
        case Empty => return;
        case Error(_, _) => return;
        case Switch(dev, group, socket, data) =>
          ret, begun, released := lib.SocketSend(dev, group, socket, data);
        case Raw(tristate, pulseLen) =>
          ret, begun, released := lib.SocketSendCodeword(Some(tristate), pulseLen);
      }
      if begun {
        sent := lib.board.pulses[|before|..];
      } else {
        NothingSent(MessageOf(RequestOf(cmd)));
      }
    }

    /**
     serve_connection(), for any reads, faults of the board, failing writes and stop
     requests.  The results handled are a prefix of what the received bytes mean, and
     all of it unless the daemon was stopped or a reply was lost; the air carries their
     transmissions in order, whole ones when no fault struck; and the client has their
     replies in order, the last of them cut short exactly when its write failed.  No wait
     blocks past a deadline, which only a result moves on, and not the bytes of an
     unfinished line.
     */
    method ServeConnection(inputs: seq<ReadEvent>)
      returns (ghost received: string, ending: Ending, ghost waits: seq<Wait>)
      requires Valid() && handled == []
      modifies this, lib`held, lib.board
      ensures Valid()
      ensures received <= Incoming(inputs) && (ending == InputOver ==> received == Incoming(inputs))
      ensures CmdsOf(handled) <= Run(FRESH, received).1
      ensures ending == InputOver ==> CmdsOf(handled) == Run(FRESH, received).1
      ensures if ending == ReplyLost then LostReply(old(Now()))
              else InStep(old(Now()))
      ensures WaitsOk(waits, clock, idle) && OneWaitEach(inputs, waits, received)
    {
      var pc := new ProtoConn();
      received, ending, waits := "", InputOver, [];
      var now := Clock();
      var deadline := DeadlineOf(now, idle);
      ghost var s := Now();
      ghost var armed: nat := ticks - 1;
      Begin(pc, inputs, deadline, armed);
      var i := 0;
      var stop, more := *, true;
      while i < |inputs| && !stop && more
        invariant fresh(pc) && fresh(pc.buf)
        invariant if more then ending == InputOver && Reading(pc, inputs, i, received, deadline, armed, waits, s)
                  else Served(inputs, received, ending, waits, s)
        decreases |inputs| - i
      {
        more, ending, deadline, armed, received, waits := TakeInput(pc, inputs, i, received, deadline, armed, waits, s);
        i := i + 1;
        stop := *;
      }
      if more {
        ending := if i < |inputs| then Stopped else InputOver;
        End(pc, inputs, i, received, deadline, armed, waits, s);
      }
    }

    /** Every result of what was received is handled, and the parser stands behind it. */
    ghost predicate UpTo(pc: ProtoConn, received: string, s: Start)
      reads this, lib, lib.board, pc, pc.buf
    {
      Valid() && pc.Valid() && InStep(s) && Run(FRESH, received) == (pc.Standing(), CmdsOf(handled))
    }

    /** The deadline is as it was when so many results had been handled and the clock read so often, or armed since. */
    ghost predicate Armed(deadline: Timespec, armed: nat, startedAt: nat, results: nat, readings: nat)
      reads this
    {
      readings <= ticks && results <= |handled| && deadline == DeadlineOf(At(clock, armed), idle)
      && if |handled| == results then armed == startedAt else readings <= armed < ticks
    }

    /** Between two reads: the first i inputs brought what was received, all of it is handled. */
    ghost predicate Reading(pc: ProtoConn, inputs: seq<ReadEvent>, i: nat, received: string, deadline: Timespec,
                            armed: nat, waits: seq<Wait>, s: Start)
      reads this, lib, lib.board, pc, pc.buf
    {
      UpTo(pc, received, s)
      && HeardSoFar(inputs, i, received) && |waits| == i
      && deadline == DeadlineOf(At(clock, armed), idle)
      && WaitsOk(waits, clock, idle) && ArmedSince(waits, armed, |handled|, ticks)
    }

    /** At the end of the connection. */
    ghost predicate Served(inputs: seq<ReadEvent>, received: string, ending: Ending, waits: seq<Wait>,
                           s: Start)
      reads this, lib, lib.board
    {
      Valid()
      && received <= Incoming(inputs) && (ending == InputOver ==> received == Incoming(inputs))
      && CmdsOf(handled) <= Run(FRESH, received).1
      && (ending == InputOver ==> CmdsOf(handled) == Run(FRESH, received).1)
      && (if ending == ReplyLost then LostReply(s) else InStep(s))
      && WaitsOk(waits, clock, idle) && OneWaitEach(inputs, waits, received)
    }

    lemma {:induction false} Begin(pc: ProtoConn, inputs: seq<ReadEvent>, deadline: Timespec, armed: nat)
      requires Valid() && pc.Valid() && pc.Standing() == FRESH && handled == []
      requires deadline == DeadlineOf(At(clock, armed), idle) && armed < ticks
      ensures Reading(pc, inputs, 0, "", deadline, armed, [], Now())
    {
      assert lib.board.pulses + [] == lib.board.pulses && wire + "" == wire;
      HeardNothingYet(inputs);
    }

    lemma {:induction false} End(pc: ProtoConn, inputs: seq<ReadEvent>, i: nat, received: string, deadline: Timespec,
                                 armed: nat, waits: seq<Wait>, s: Start)
      requires i <= |inputs| && Reading(pc, inputs, i, received, deadline, armed, waits, s)
      ensures Served(inputs, received, if i < |inputs| then Stopped else InputOver, waits, s)
    {
      HearMore(inputs, i, received);
    }

    /** The body of the serving loop, one wait and one read; more says whether the connection goes on. */
    method TakeInput(pc: ProtoConn, inputs: seq<ReadEvent>, i: nat, ghost before: string, start: Timespec,
                     ghost startedAt: nat, ghost waited: seq<Wait>, ghost s: Start)
      returns (more: bool, ending: Ending, deadline: Timespec, ghost armed: nat, ghost received: string,
               ghost waits: seq<Wait>)
      requires i < |inputs| && Reading(pc, inputs, i, before, start, startedAt, waited, s)
      modifies this, lib`held, lib.board, pc, pc.buf
      ensures if more then ending == InputOver && Reading(pc, inputs, i + 1, received, deadline, armed, waits, s)
              else Served(inputs, received, ending, waits, s)
    {
      more, ending, deadline, armed, received := false, InputOver, start, startedAt, before;
      var calls;
      calls, waits := NextWait(start, startedAt, waited);
      HearMore(inputs, i, before);
      match inputs[i] {
        case Interrupted =>
          more := true;
        case Bytes(data) =>
          more, ending, deadline, armed, received :=
            TakeBytes(pc, inputs, i, before, data, start, startedAt, waits, s);
        case _ =>
      }
    }

    /** A read that brought bytes, behind its wait. */
    method TakeBytes(pc: ProtoConn, ghost inputs: seq<ReadEvent>, ghost i: nat, ghost before: string, data: string,
                     start: Timespec, ghost startedAt: nat, ghost waits: seq<Wait>, ghost s: Start)
      returns (more: bool, ending: Ending, deadline: Timespec, ghost armed: nat, ghost received: string)
      requires UpTo(pc, before, s) && HeardSoFar(inputs, i, before) && HeardSoFar(inputs, i + 1, before + data)
      requires start == DeadlineOf(At(clock, startedAt), idle) && |waits| == i + 1
      requires WaitsOk(waits, clock, idle) && ArmedSince(waits, startedAt, |handled|, ticks)
      modifies this, lib`held, lib.board, pc, pc.buf
      ensures if more then ending == InputOver && Reading(pc, inputs, i + 1, received, deadline, armed, waits, s)
              else Served(inputs, received, ending, waits, s)
    {
      received := before + data;
      ending, deadline, armed := HandleRead(pc, before, data, start, startedAt, s);
      more := ending == InputOver;
      HearMore(inputs, i + 1, received);
    }

    /** The parser has just completed one more result, which is still to be handled. */
    ghost predicate OneAhead(pc: ProtoConn, received: string, cmd: Cmd, s: Start)
      reads this, lib, lib.board, pc, pc.buf
    {
      Valid() && pc.Valid() && InStep(s) && Run(FRESH, received) == (pc.Standing(), CmdsOf(handled) + [cmd])
    }

    /** The body of the inner loop: the deadline is armed, the result is handled, and a stop is looked for. */
    method HandleResult(cmd: Cmd, ghost pc: ProtoConn, ghost received: string, ghost s: Start)
      returns (ending: Ending, deadline: Timespec)
      requires OneAhead(pc, received, cmd, s)
      modifies this, lib`held, lib.board
      ensures Valid() && ticks == old(ticks) + 1 && deadline == DeadlineOf(At(clock, old(ticks)), idle)
      ensures |handled| == |old(handled)| + 1 && CmdsOf(handled) == Run(FRESH, received).1
      ensures if ending == ReplyLost then LostReply(s) else UpTo(pc, received, s)
    {
      ResultIsAccepted(received, CmdsOf(handled), cmd);
      var now := Clock();
      deadline := DeadlineOf(now, idle);
      var rc := HandleCommand(cmd, s);
      if rc < 0 {
        return ReplyLost, deadline;
      }
      var stop: bool := *;
      ending := if stop then Stopped else InputOver;
    }

    /** The inner loop: every result that the bytes of one read complete is handled at once. */
    method HandleRead(pc: ProtoConn, ghost earlier: string, data: string, start: Timespec, ghost startedAt: nat,
                      ghost s: Start)
      returns (ending: Ending, deadline: Timespec, ghost armed: nat)
      requires start == DeadlineOf(At(clock, startedAt), idle) && UpTo(pc, earlier, s)
      modifies this, lib`held, lib.board, pc, pc.buf
      ensures Valid() && pc.Valid()
      ensures CmdsOf(handled) <= Run(FRESH, earlier + data).1
      ensures ending == InputOver ==> UpTo(pc, earlier + data, s)
      ensures if ending == ReplyLost then LostReply(s) else InStep(s)
      ensures Armed(deadline, armed, startedAt, |old(handled)|, old(ticks))
    {
      deadline, armed := start, startedAt;
      var pos := 0;
      assert earlier + data[..0] == earlier;
      var found := true;
      while found
        invariant pos <= |data| && UpTo(pc, earlier + data[..pos], s)
        invariant !found ==> pos == |data|
        invariant Armed(deadline, armed, startedAt, |old(handled)|, old(ticks))
        decreases |data| - pos, found
      {
        var next, cmd;
        found, next, cmd := pc.Next(data, pos);
        Consumed(earlier, data, pos, next);
        pos := next;
        if found {
          armed := ticks;
          ending, deadline := HandleResult(cmd, pc, earlier + data[..pos], s);
          Prefix(earlier, data, pos);
          if ending != InputOver {
            return;
          }
        } else {
          assert data[pos..] == "" && CmdsOf(handled) + [] == CmdsOf(handled);
        }
      }
      assert data[..pos] == data;
      return InputOver, deadline, armed;
    }
  }

  lemma {:induction false} Consumed(earlier: string, data: string, pos: nat, next: nat)
    requires pos <= next <= |data|
    ensures var (mid, first) := Run(FRESH, earlier + data[..pos]);
            var (end, second) := Run(mid, data[pos..next]);
            Run(FRESH, earlier + data[..next]) == (end, first + second)
    ensures next == |data| ==> data[pos..next] == data[pos..]
  {
    RunSplit(FRESH, earlier + data[..pos], data[pos..next]);
    assert (earlier + data[..pos]) + data[pos..next] == earlier + data[..next];
  }

  lemma {:induction false} ResultIsAccepted(stream: string, before: seq<Cmd>, cmd: Cmd)
    requires Run(FRESH, stream).1 == before + [cmd]
    ensures IsSend(cmd) ==> Accepted(RequestOf(cmd))
  {
    StreamIsAccepted(FRESH, stream);
    LastAccepted(before + [cmd], cmd);
  }

  lemma {:induction false} LastAccepted(cmds: seq<Cmd>, cmd: Cmd)
    requires AllAccepted(cmds) && |cmds| > 0 && cmds[|cmds| - 1] == cmd
    ensures IsSend(cmd) ==> Accepted(RequestOf(cmd))
  {
  }

  lemma {:induction false} Prefix(earlier: string, data: string, pos: nat)
    requires pos <= |data|
    ensures Run(FRESH, earlier + data[..pos]).1 <= Run(FRESH, earlier + data).1
  {
    RunSplit(FRESH, earlier + data[..pos], data[pos..]);
    assert (earlier + data[..pos]) + data[pos..] == earlier + data;
  }

  /** All replies but the last, and a proper front of the last. */
  ghost predicate CutShort(before: string, after: string, hs: seq<Handled>)
    requires |hs| > 0
  {
    var whole := before + RepliesOf(hs[..|hs| - 1]);
    var last := hs[|hs| - 1];
    whole <= after && after[|whole|..] < ReplyTo(last.cmd, last.rc)
  }

  lemma {:induction false} NothingSent(m: Message)
    ensures [] < TransmissionOf(m)
  {
    TransmissionLength(m.word, m.pulseLen);
  }
}
