/**
 The library calls: a command is checked, one board session is opened, the codeword
 is sent ten times, and the session is closed whatever happened in between.  What they
 leave on the line is said of its trace, and when they succeed of the faults that struck.
 */
module Sending {
  import opened Text
  import opened Codewords
  import opened Pulses
  import opened Line
  import opened Boards

  /** The arguments of socket_send() and of socket_send_codeword(); a word may be NULL. */
  datatype Request =
    | Device(dev: nat, group: nat, socket: nat, data: nat)
    | RawWord(tristate: Option<string>, pulseLen: nat)

  predicate Accepted(req: Request) {
    match req
    case Device(dev, group, socket, data) => InLimits(dev, group, socket, data)
    case RawWord(tristate, pulseLen) => tristate.Some? && SendableCodeword(tristate.value, pulseLen)
  }

  /** What an accepted request puts on the air. */
  function MessageOf(req: Request): Message
    requires Accepted(req)
  {
    match req
    case Device(dev, group, socket, data) => Message(Codeword(dev, group, socket, data), DEVICE_PULSE_LEN)
    case RawWord(tristate, pulseLen) => Message(tristate.value, pulseLen)
  }

  function TransmissionOf(m: Message): seq<Pulse> { Transmission(m.word, m.pulseLen) }

  lemma {:induction false} AcceptedIsSendable(req: Request)
    requires Accepted(req)
    ensures SendableCodeword(MessageOf(req).word, MessageOf(req).pulseLen)
  {
    if req.Device? {
      CodewordIsSendable(req.dev, req.group, req.socket, req.data);
    }
  }

  // ---------- How far a transmission has come ----------

  lemma {:induction false} WordFront(word: string, p: nat, i: nat)
    requires i < |word|
    ensures Word(word[..i + 1], p) == Word(word[..i], p) + [First(word[i], p), Second(word[i], p)]
    ensures Word(word[..i + 1], p) <= Word(word, p)
    decreases |word| - i
  {
    assert word[..i + 1][..i] == word[..i];
    if i + 1 == |word| {
      assert word[..i + 1] == word;
    } else {
      WordFront(word, p, i + 1);
    }
  }

  lemma {:induction false} FrameFront(word: string, p: nat, n: nat, m: nat)
    requires n < m
    ensures Repeated(word, p, n) + Frame(word, p) <= Repeated(word, p, m)
  {
    if n + 1 < m {
      FrameFront(word, p, n, m - 1);
    }
  }

  /** A part of the frame in progress leaves the repetitions unfinished. */
  lemma {:induction false} Unfinished(word: string, p: nat, n: nat, times: nat, part: seq<Pulse>)
    requires n < times && part < Frame(word, p)
    ensures Repeated(word, p, n) + part < Repeated(word, p, times)
  {
    FrameFront(word, p, n, times);
    var whole := Repeated(word, p, n) + Frame(word, p);
    assert whole[..|Repeated(word, p, n) + part|] == Repeated(word, p, n) + part;
  }

  /** Up to symbol i, and half of symbol i, the frame is not yet whole. */
  lemma {:induction false} UnfinishedWord(word: string, p: nat, i: nat)
    requires i < |word|
    ensures Word(word[..i], p) < Frame(word, p)
    ensures Word(word[..i], p) + [First(word[i], p)] < Frame(word, p)
  {
    WordFront(word, p, i);
    var next := Word(word[..i + 1], p);
    assert next[..|next| - 2] == Word(word[..i], p);
    assert next[..|next| - 1] == Word(word[..i], p) + [First(word[i], p)];
  }

  method TristateCheck(codeword: Option<string>) returns (ok: bool)
    ensures ok <==> codeword.Some? && IsTristate(codeword.value)
  {
    if codeword.None? || codeword.value == "" {
      return false;
    }
    for i := 0 to |codeword.value|
      invariant forall k :: 0 <= k < i ==> IsSymbol(codeword.value[k])
    {
      var c := codeword.value[i];
      if c != '0' && c != '1' && c != 'F' {
        return false;
      }
    }
    return true;
  }

  method AddressCheck(dev: nat, group: nat, socket: nat, data: nat) returns (ok: bool)
    ensures ok <==> InLimits(dev, group, socket, data)
  {
    match DevLimits(dev) {
      case None => return false;
      case Some(l) =>
        if group >= l.groups { return false; }
        if socket >= l.sockets { return false; }
        if data >= l.data { return false; }
        return true;
    }
  }

  // ---------- What a session has put on the line ----------

  /** The line of a GPIO board is low between two pulses. */
  ghost predicate AtRest(board: Board)
    reads board
  {
    board.InSession() && board.HistoryOk() && (board.kind != Host ==> !board.level)
  }

  /**
   Since the line and the air were like that these pulses were sent.  The line shows their
   waveform, and perhaps a pulse that was cut off while it was high.
   */
  ghost predicate HasSent(board: Board, trace: seq<Event>, air: seq<Pulse>, sent: seq<Pulse>, p: nat)
    reads board
  {
    board.InSession() && board.HistoryOk() && board.pulses == air + sent
    && if board.kind == Host then board.trace == trace else Keyed(trace, board.trace, sent, p, board.level)
  }

  lemma {:induction false} NothingSentYet(board: Board, p: nat)
    requires AtRest(board)
    ensures HasSent(board, board.trace, board.pulses, [], p)
  {
    assert board.pulses + [] == board.pulses && board.trace + [] == board.trace;
  }

  /** What was sent from a place where the line was at rest comes on top of what was sent before. */
  lemma {:induction false} SentOn(board: Board, trace: seq<Event>, air: seq<Pulse>, mid: seq<Event>, on: seq<Pulse>,
                                  s: seq<Pulse>, t: seq<Pulse>, p: nat)
    requires on == air + s && HasSent(board, mid, on, t, p)
    requires if board.kind == Host then mid == trace else Keyed(trace, mid, s, p, false)
    ensures HasSent(board, trace, air, s + t, p)
  {
    Reassociate(air, s, t);
    if board.kind != Host {
      KeyedOn(trace, mid, board.trace, s, t, p, board.level);
    }
  }

  /** transmit() for a pulse of a symbol or of the sync, of which the times fit 32 bits. */
  method SendPulse(board: Board, nhigh: nat, nlow: nat, p: nat) returns (rc: int)
    requires AtRest(board) && p <= PULSE_LEN_MAX_US && (nhigh == 1 || nhigh == 3) && nlow <= 31
    modifies board`calls, board`level, board`trace, board`lineHigh, board`recorder, board`overflow, board`failAt,
             board`pulses
    ensures rc == 0 || rc == -1
    ensures board.Later() && (rc == 0 <==> board.NoFault())
    ensures HasSent(board, old(board.trace), old(board.pulses), if rc == 0 then [Pulse(nhigh, nlow, p)] else [], p)
    ensures rc == 0 ==> AtRest(board)
  {
    NoWrap(p, nhigh);
    NoWrap(p, nlow);
    rc := board.Transmit(nhigh, nlow, p);
    WavesOne(Pulse(nhigh, nlow, p));
    assert old(board.trace) + [] == old(board.trace) && old(board.pulses) + [] == old(board.pulses);
  }

  /** Two pulses, of which the first may be all that goes out. */
  method SendTwo(board: Board, nhigh1: nat, nlow1: nat, nhigh2: nat, nlow2: nat, p: nat)
    returns (rc: int, ghost sent: seq<Pulse>)
    requires AtRest(board) && p <= PULSE_LEN_MAX_US
    requires (nhigh1 == 1 || nhigh1 == 3) && (nhigh2 == 1 || nhigh2 == 3) && nlow1 <= 31 && nlow2 <= 31
    modifies board`calls, board`level, board`trace, board`lineHigh, board`recorder, board`overflow, board`failAt,
             board`pulses
    ensures rc == 0 || rc == -1
    ensures board.Later() && (rc == 0 <==> board.NoFault())
    ensures HasSent(board, old(board.trace), old(board.pulses), sent, p) && (rc == 0 ==> AtRest(board))
    ensures var both := [Pulse(nhigh1, nlow1, p), Pulse(nhigh2, nlow2, p)];
            if rc == 0 then sent == both else sent == [] || sent == both[..1]
  {
    rc := SendPulse(board, nhigh1, nlow1, p);
    sent := if rc == 0 then [Pulse(nhigh1, nlow1, p)] else [];
    if rc < 0 {
      return;
    }
    ghost var mid, on := board.trace, board.pulses;
    rc := SendPulse(board, nhigh2, nlow2, p);
    ghost var second := if rc == 0 then [Pulse(nhigh2, nlow2, p)] else [];
    SentOn(board, old(board.trace), old(board.pulses), mid, on, sent, second, p);
    sent := sent + second;
  }

  /** send_0(), send_1() and send_f(). */
  method SendSymbol(board: Board, c: char, p: nat) returns (rc: int, ghost sent: seq<Pulse>)
    requires AtRest(board) && IsSymbol(c) && p <= PULSE_LEN_MAX_US
    modifies board`calls, board`level, board`trace, board`lineHigh, board`recorder, board`overflow, board`failAt,
             board`pulses
    ensures rc == 0 || rc == -1
    ensures board.Later() && (rc == 0 <==> board.NoFault())
    ensures HasSent(board, old(board.trace), old(board.pulses), sent, p) && (rc == 0 ==> AtRest(board))
    ensures if rc == 0 then sent == [First(c, p), Second(c, p)] else sent == [] || sent == [First(c, p)]
  {
    match c {
      case '0' => rc, sent := SendTwo(board, 1, 3, 1, 3, p);
      case '1' => rc, sent := SendTwo(board, 3, 1, 3, 1, p);
      case _ => rc, sent := SendTwo(board, 1, 3, 3, 1, p);
    }
  }

  /** One repetition of the codeword with its sync pulse, the body of the loop of send_tris(). */
  method SendFrame(board: Board, codeword: string, p: nat) returns (rc: int, ghost sent: seq<Pulse>)
    requires AtRest(board) && p <= PULSE_LEN_MAX_US && IsTristate(codeword)
    modifies board`calls, board`level, board`trace, board`lineHigh, board`recorder, board`overflow, board`failAt,
             board`pulses
    ensures rc == 0 || rc == -1
    ensures board.Later() && (rc == 0 <==> board.NoFault())
    ensures HasSent(board, old(board.trace), old(board.pulses), sent, p) && (rc == 0 ==> AtRest(board))
    ensures if rc == 0 then sent == Frame(codeword, p) else sent < Frame(codeword, p)
  {
    NothingSentYet(board, p);
    sent := [];
    for i := 0 to |codeword|
      invariant AtRest(board) && HasSent(board, old(board.trace), old(board.pulses), sent, p)
      invariant sent == Word(codeword[..i], p)
      invariant board.Later() && board.NoFault()
    {
      ghost var mid, on, more := board.trace, board.pulses, [];
      UnfinishedWord(codeword, p, i);
      WordFront(codeword, p, i);
      rc, more := SendSymbol(board, codeword[i], p);
      SentOn(board, old(board.trace), old(board.pulses), mid, on, sent, more, p);
      assert sent + [] == sent;
      sent := sent + more;
      if rc < 0 {
        return -1, sent;
      }
    }
    assert codeword[..|codeword|] == codeword;
    ghost var mid, on := board.trace, board.pulses;
    rc := SendPulse(board, 1, 31, p);
    ghost var sync := if rc == 0 then [Sync(p)] else [];
    SentOn(board, old(board.trace), old(board.pulses), mid, on, sent, sync, p);
    assert sent + [] == sent;
    sent := sent + sync;
  }

  /**
   send_tris(): 0 is returned exactly for a tri-state word that no fault struck, and then
   the whole transmission was sent; otherwise a proper prefix of it was, and of another
   word nothing.
   */
  method SendTris(board: Board, codeword: string, p: nat) returns (rc: int, ghost sent: seq<Pulse>)
    requires AtRest(board) && p <= PULSE_LEN_MAX_US
    modifies board`calls, board`level, board`trace, board`lineHigh, board`recorder, board`overflow, board`failAt,
             board`pulses
    ensures rc == 0 || rc == -1
    ensures board.Later() && (rc == 0 <==> IsTristate(codeword) && board.NoFault())
    ensures HasSent(board, old(board.trace), old(board.pulses), sent, p) && (rc == 0 ==> AtRest(board))
    ensures if rc == 0 then sent == Transmission(codeword, p) else sent < Transmission(codeword, p)
    ensures !IsTristate(codeword) ==> sent == [] && board.trace == old(board.trace)
  {
    NothingSentYet(board, p);
    sent := [];
    var ok := TristateCheck(Some(codeword));
    if !ok {
      TransmissionLength(codeword, p);
      return -1, sent;
    }
    rc, sent := SendFrames(board, codeword, p, NTIMES);
  }

  /** The loop of send_tris() over the repetitions. */
  method SendFrames(board: Board, codeword: string, p: nat, times: nat) returns (rc: int, ghost sent: seq<Pulse>)
    requires AtRest(board) && p <= PULSE_LEN_MAX_US && IsTristate(codeword)
    modifies board`calls, board`level, board`trace, board`lineHigh, board`recorder, board`overflow, board`failAt,
             board`pulses
    ensures rc == 0 || rc == -1
    ensures board.Later() && (rc == 0 <==> board.NoFault())
    ensures HasSent(board, old(board.trace), old(board.pulses), sent, p) && (rc == 0 ==> AtRest(board))
    ensures if rc == 0 then sent == Repeated(codeword, p, times) else sent < Repeated(codeword, p, times)
  {
    NothingSentYet(board, p);
    sent := [];
    for n := 0 to times
      invariant AtRest(board) && HasSent(board, old(board.trace), old(board.pulses), sent, p)
      invariant sent == Repeated(codeword, p, n)
      invariant board.Later() && board.NoFault()
    {
      ghost var mid, on, more := board.trace, board.pulses, [];
      rc, more := SendFrame(board, codeword, p);
      SentOn(board, old(board.trace), old(board.pulses), mid, on, sent, more, p);
      sent := sent + more;
      if rc < 0 {
        Unfinished(codeword, p, n, times, more);
        return -1, sent;
      }
    }
    return 0, sent;
  }

  lemma {:induction false} Reassociate(base: seq<Pulse>, done: seq<Pulse>, more: seq<Pulse>)
    ensures (base + done) + more == base + (done + more)
  {
  }

  /** socket_ctrl(): the three parts make the codeword, which must fit its buffer. */
  method SocketCtrl(board: Board, group: string, socket: string, data: string, p: nat)
    returns (rc: int, ghost sent: seq<Pulse>)
    requires AtRest(board) && p <= PULSE_LEN_MAX_US
    modifies board`calls, board`level, board`trace, board`lineHigh, board`recorder, board`overflow, board`failAt,
             board`pulses
    ensures rc == 0 || rc == -1
    ensures var word := group + socket + data;
            board.Later()
            && (rc == 0 <==> |word| <= CODEWORD_MAX_LEN && IsTristate(word) && board.NoFault())
            && (if rc == 0 then sent == Transmission(word, p) else sent < Transmission(word, p))
            && (|word| > CODEWORD_MAX_LEN || !IsTristate(word) ==> sent == [] && board.trace == old(board.trace))
    ensures HasSent(board, old(board.trace), old(board.pulses), sent, p) && (rc == 0 ==> AtRest(board))
  {
    var codeword := group + socket + data;
    if |codeword| > CODEWORD_MAX_LEN {
      NothingSentYet(board, p);
      TransmissionLength(codeword, p);
      return -1, [];
    }
    rc, sent := SendTris(board, codeword, p);
  }

  /** The switch of socket_send() over the two devices, whose codewords always fit. */
  method DeviceSend(board: Board, dev: nat, group: nat, socket: nat, data: nat)
    returns (rc: int, ghost sent: seq<Pulse>)
    requires AtRest(board) && InLimits(dev, group, socket, data)
    modifies board`calls, board`level, board`trace, board`lineHigh, board`recorder, board`overflow, board`failAt,
             board`pulses
    ensures rc == 0 || rc == -1
    ensures board.Later() && (rc == 0 <==> board.NoFault())
    ensures var m := MessageOf(Device(dev, group, socket, data));
            IsTristate(m.word) && (if rc == 0 then sent == TransmissionOf(m) else sent < TransmissionOf(m))
            && HasSent(board, old(board.trace), old(board.pulses), sent, m.pulseLen)
    ensures rc == 0 ==> AtRest(board)
  {
    CodewordIsSendable(dev, group, socket, data);
    match dev {
      case 0 =>
        rc, sent := SocketCtrl(board, REV_GROUPS[group], REV_SOCKETS[socket], REV_DATA[data], DEVICE_PULSE_LEN);
      case _ =>
        rc, sent := SocketCtrl(board, POLLIN_PARTS[group], POLLIN_PARTS[socket], POLLIN_DATA[data], DEVICE_PULSE_LEN);
    }
  }

  /** The static variables of the library around its board. */
  class Library {
    const board: Board
    var gpioConfig: Option<string>
    /** Whether the caller holds send_lock. */
    var held: bool

    /** No session is open and nothing is held. */
    ghost predicate Ready()
      reads this, board
    {
      !held && Closed()
    }

    ghost predicate Closed()
      reads this, board
    {
      board.Idle() && board.HistoryOk() && board.HandlesKnown()
    }

    /** pthread_mutex_lock(), which may fail. */
    method Lock() returns (ok: bool)
      requires !held
      modifies `held, board`calls
      ensures board.calls == old(board.calls) + 1 && ok == held == board.works(old(board.calls))
    {
      ok := board.Call();
      held := ok;
    }

    method Unlock()
      requires held
      modifies `held
      ensures !held
    {
      held := false;
    }

    constructor (board: Board)
      requires board.Idle() && board.HistoryOk() && board.HandlesKnown()
      ensures Ready() && this.board == board && gpioConfig == None
    {
      this.board := board;
      gpioConfig, held := None, false;
    }

    method SocketGpioConfig(config: Option<string>) returns (locked: bool)
      requires !held
      modifies `gpioConfig, `held, board`calls
      ensures locked == board.works(old(board.calls)) && board.calls == old(board.calls) + 1 && !held
      ensures gpioConfig == if locked then config else old(gpioConfig)
    {
      locked := Lock();
      if locked {
        Configure(config);
        Unlock();
      }
    }

    /** The part of socket_gpio_config() under the lock. */
    method Configure(config: Option<string>)
      requires held
      modifies `gpioConfig
      ensures gpioConfig == config
    {
      gpioConfig := config;
    }

    /**
     socket_send().  begun says whether a session was opened, released what
     board_exit() answered at its end.
     */
    method SocketSend(dev: nat, group: nat, socket: nat, data: nat)
      returns (rc: int, ghost begun: bool, ghost released: bool)
      requires Ready()
      modifies `held, board
      ensures Ready()
      ensures Outcome(Device(dev, group, socket, data), rc, begun, released)
    {
      begun, released := false, true;
      var ok := AddressCheck(dev, group, socket, data);
      if !ok {
        return -1, begun, released;
      }
      var locked := Lock();
      if !locked {
        return -1, begun, released;
      }
      rc, begun, released := DeviceSession(dev, group, socket, data);
      assert Accepted(Device(dev, group, socket, data));
      Unlock();
      LockWorked(board, old(board.calls));
    }

    /** The part of socket_send() under the lock: one session of the board, closed whatever happened in it. */
    method DeviceSession(dev: nat, group: nat, socket: nat, data: nat)
      returns (rc: int, ghost begun: bool, ghost released: bool)
      requires held && Closed() && InLimits(dev, group, socket, data)
      modifies board
      ensures Closed() && (rc == 0 || rc == -1)
      ensures board.Later() && (rc == 0 <==> board.Fits(gpioConfig) && board.NoFault())
      ensures rc == 0 ==> begun && released
      ensures begun ==> board.Fits(gpioConfig) && (board.kind != Host ==> board.chipConfig == gpioConfig)
      ensures var m := MessageOf(Device(dev, group, socket, data));
              if begun then LeftBehind(board, old(board.trace), old(board.pulses), m, rc, released)
              else Untouched(board, old(board.trace), old(board.pulses), old(board.level))
    {
      begun, released := false, true;
      rc := board.Init(gpioConfig);
      if rc < 0 {
        return;
      }
      begun := true;
      ghost var sent;
      ghost var calls := board.calls;
      rc, sent := DeviceSend(board, dev, group, socket, data);
      WorkJoins(board.works, old(board.calls), calls, board.calls);
      ghost var m := MessageOf(Device(dev, group, socket, data));
      released := Close(old(board.trace), old(board.pulses), sent, m, rc);
    }

    /** socket_send_codeword(). */
    method SocketSendCodeword(tristate: Option<string>, pulseLen: nat)
      returns (rc: int, ghost begun: bool, ghost released: bool)
      requires Ready()
      modifies `held, board
      ensures Ready()
      ensures Outcome(RawWord(tristate, pulseLen), rc, begun, released)
    {
      begun, released := false, true;
      if tristate.None? {
        return -1, begun, released;
      }
      var len := |tristate.value|;
      if len < 1 || len > CODEWORD_MAX_LEN {
        return -1, begun, released;
      }
      var ok := TristateCheck(tristate);
      if !ok {
        return -1, begun, released;
      }
      if pulseLen < PULSE_LEN_MIN_US || pulseLen > PULSE_LEN_MAX_US {
        return -1, begun, released;
      }
      var locked := Lock();
      if !locked {
        return -1, begun, released;
      }
      rc, begun, released := WordSession(tristate.value, pulseLen);
      Unlock();
      LockWorked(board, old(board.calls));
    }

    /** The end of a session, whose failure is only logged. */
    method Close(ghost start: seq<Event>, ghost air: seq<Pulse>, ghost sent: seq<Pulse>, ghost m: Message,
                 ghost rc: int)
      returns (ghost released: bool)
      requires board.HandlesKnown() && IsTristate(m.word) && (rc == 0 ==> AtRest(board))
      requires if rc == 0 then sent == TransmissionOf(m) else sent < TransmissionOf(m)
      requires HasSent(board, if board.kind == Host then start else start + [Drive(false)], air, sent, m.pulseLen)
      modifies board`calls, board`level, board`trace, board`live, board`chip, board`line, board`lineHigh,
               board`exitCount, board`openSessions
      ensures Closed() && board.Later() && LeftBehind(board, start, air, m, rc, released)
      ensures rc == 0 ==> released && board.NoFault()
    {
      ghost var closing, high := board.trace, board.level;
      var exit := board.Exit();
      released := exit == 0;
      SessionOnLine(board, start, air, closing, high, sent, m, rc, released);
    }

    /** The same part of socket_send_codeword(). */
    method WordSession(tristate: string, pulseLen: nat) returns (rc: int, ghost begun: bool, ghost released: bool)
      requires held && Closed() && SendableCodeword(tristate, pulseLen)
      modifies board
      ensures Closed() && (rc == 0 || rc == -1)
      ensures board.Later() && (rc == 0 <==> board.Fits(gpioConfig) && board.NoFault())
      ensures rc == 0 ==> begun && released
      ensures begun ==> board.Fits(gpioConfig) && (board.kind != Host ==> board.chipConfig == gpioConfig)
      ensures if begun
              then LeftBehind(board, old(board.trace), old(board.pulses), Message(tristate, pulseLen), rc, released)
              else Untouched(board, old(board.trace), old(board.pulses), old(board.level))
    {
      begun, released := false, true;
      rc := board.Init(gpioConfig);
      if rc < 0 {
        return;
      }
      begun := true;
      ghost var sent;
      ghost var calls := board.calls;
      rc, sent := SendTris(board, tristate, pulseLen);
      WorkJoins(board.works, old(board.calls), calls, board.calls);
      released := Close(old(board.trace), old(board.pulses), sent, Message(tristate, pulseLen), rc);
    }

    /**
     What one call comes to.  It returns 0 exactly when the request and the config are
     acceptable and no call into the system fails.  A rejected request opens no session.
     An opened one puts the whole transmission on the air when the call returns 0, and a
     proper prefix of it otherwise; the line shows just that; and it is low at the release
     unless board_exit() itself could not drive it low.
     */
    twostate predicate Outcome(req: Request, rc: int, begun: bool, released: bool)
      reads this, board
    {
      (rc == 0 || rc == -1) && board.Later()
      && (rc == 0 <==> Accepted(req) && board.Fits(gpioConfig) && board.NoFault())
      && (begun ==> Accepted(req) && board.Fits(gpioConfig) && (board.kind != Host ==> board.chipConfig == gpioConfig))
      && (rc == 0 ==> begun && released)
      && if begun then LeftBehind(board, old(board.trace), old(board.pulses), MessageOf(req), rc, released)
         else Untouched(board, old(board.trace), old(board.pulses), old(board.level))
    }
  }

  /** The line and the air are as they were. */
  ghost predicate Untouched(board: Board, trace: seq<Event>, air: seq<Pulse>, level: bool)
    reads board
  {
    board.trace == trace && board.pulses == air && board.level == level
  }

  /** What a session has added to the air and to the line. */
  ghost predicate LeftBehind(board: Board, trace: seq<Event>, air: seq<Pulse>, m: Message, rc: int, released: bool)
    reads board
  {
    Sent(air, board.pulses, m, rc == 0)
    && (board.kind != Host ==>
          board.level == !released
          && OnTheLine(board.first, trace, board.trace, board.pulses[|air|..], m, released))
    && (board.kind != Host && rc == 0 ==>
          board.trace == trace + [Drive(false)] + Waves(TransmissionOf(m))
          && Elapsed(board.trace) == Elapsed(trace) + 10 * (8 * |m.word| + 32) * m.pulseLen)
  }

  /**
   What a session leaves on the line: the low output that was requested, the waveform of
   what was sent, and perhaps a pulse that was cut off, which is followed by a low line when
   the release worked.  No stretch of it is high for longer than three pulse lengths.
   */
  predicate OnTheLine(first: bool, before: seq<Event>, after: seq<Event>, sent: seq<Pulse>, m: Message,
                      released: bool)
  {
    (Keyed(before + [Drive(false)], after, sent, m.pulseLen, !released)
     || (released && |after| > 0 && after[|after| - 1] == Drive(false)
         && Keyed(before + [Drive(false)], after[..|after| - 1], sent, m.pulseLen, true)))
    && LongestHigh(first, after) <= Larger(LongestHigh(first, before), 3 * m.pulseLen)
  }

  /** closing and high are the trace and the level before board_exit(). */
  lemma {:induction false} SessionOnLine(board: Board, start: seq<Event>, air: seq<Pulse>, closing: seq<Event>,
                                         high: bool, sent: seq<Pulse>, m: Message, rc: int, released: bool)
    requires IsTristate(m.word) && board.pulses == air + sent
    requires if rc == 0 then sent == TransmissionOf(m) else sent < TransmissionOf(m)
    requires board.kind != Host ==>
               Keyed(start + [Drive(false)], closing, sent, m.pulseLen, high) && board.level == !released
               && (rc == 0 ==> !high)
               && (board.level ==> high) && board.trace == closing + if high && released then [Drive(false)] else []
    ensures LeftBehind(board, start, air, m, rc, released)
  {
    assert board.pulses[|air|..] == sent;
    if board.kind != Host {
      ShapeOfSession(board.first, start, closing, board.trace, high, sent, m, released);
      if rc == 0 {
        assert closing + [] == closing;
        TimeOfSession(start, m);
      }
    }
  }

  lemma {:induction false} ShapeOfSession(first: bool, start: seq<Event>, closing: seq<Event>, end: seq<Event>,
                                          high: bool, sent: seq<Pulse>, m: Message, released: bool)
    requires sent <= TransmissionOf(m) && Keyed(start + [Drive(false)], closing, sent, m.pulseLen, high)
    requires (!released ==> high) && end == closing + if high && released then [Drive(false)] else []
    ensures OnTheLine(first, start, end, sent, m, released)
  {
    assert closing + [] == closing;
    LevelSnoc(first, start, Drive(false));
    KeyedHigh(first, start + [Drive(false)], closing, sent, m, high);
    LevelSnoc(first, closing, Drive(false));
    if high && released {
      assert end[..|end| - 1] == closing;
    }
  }

  lemma {:induction false} TimeOfSession(start: seq<Event>, m: Message)
    requires IsTristate(m.word)
    ensures Elapsed(start + [Drive(false)] + Waves(TransmissionOf(m)))
         == Elapsed(start) + 10 * (8 * |m.word| + 32) * m.pulseLen
  {
    ElapsedAppend(start, [Drive(false)]);
    assert [Drive(false)][..0] == [];
    ElapsedAppend(start + [Drive(false)], Waves(TransmissionOf(m)));
    WavesTake(TransmissionOf(m));
    TransmissionDuration(m.word, m.pulseLen);
  }

  lemma {:induction false} LockWorked(board: Board, before: nat)
    requires board.works(before) && before < board.calls
    ensures AllWork(board.works, before, board.calls) == AllWork(board.works, before + 1, board.calls)
  {
  }

  /** The pulses of one session, on top of what was on the air before. */
  ghost predicate Sent(before: seq<Pulse>, after: seq<Pulse>, m: Message, whole: bool) {
    before <= after
    && if whole then after[|before|..] == TransmissionOf(m) else after[|before|..] < TransmissionOf(m)
  }
}
