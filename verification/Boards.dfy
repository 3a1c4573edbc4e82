/**
 The three boards behind one interface: the two libgpiod variants of the GPIO line
 driver and the recorder of the host build.  Which calls into the system work is an
 input: it is fixed beforehand for each of them, but otherwise arbitrary.
 */
module Boards {
  import opened Text
  import opened Pulses
  import opened Line

  /** Which board the library was compiled for. */
  datatype Kind = Gpiod1 | Gpiod2 | Host

  const RECORDER_MAX_PULSES: nat := 16384

  const WORD: nat := 0x1_0000_0000

  /** An unsigned 32-bit product. */
  function Mul32(a: nat, b: nat): nat { (a * b) % WORD }

  lemma {:induction false} NoWrap(a: nat, b: nat)
    requires a <= 2000 && b <= 31
    ensures Mul32(a, b) == a * b
  {
    assert (2000 - a) * b >= 0;
    assert a * b <= 2000 * b <= 2000 * 31;
    SmallStays(a * b);
  }

  lemma {:induction false} SmallStays(n: nat)
    requires n <= 2000 * 31
    ensures n % WORD == n
  {
  }

  /** The calls with these numbers work. */
  ghost predicate AllWork(works: nat -> bool, from: nat, to: nat) {
    forall n :: from <= n < to ==> works(n)
  }

  lemma {:induction false} WorkJoins(works: nat -> bool, a: nat, b: nat, c: nat)
    requires a <= b <= c
    ensures AllWork(works, a, c) <==> AllWork(works, a, b) && AllWork(works, b, c)
  {
  }

  class Board {
    const kind: Kind
    /** gpiod_config_parse(): which config strings are well-formed. */
    const parses: string -> bool
    /** Whether the n-th call into libgpiod and the other libraries below works. */
    const works: nat -> bool
    /** How many of them have been made. */
    var calls: nat

    // The GPIO hardware.
    var level: bool
    var live: set<nat>
    var nextHandle: nat

    // The config by which the chip was opened last.
    var chipConfig: Option<string>

    // The static variables of the libgpiod boards.  The line handle is the requested
    // line of the first API and the line request of the second.
    var chip: Option<nat>
    var line: Option<nat>
    var lineHigh: bool

    // The static variables of the host board.
    var recorder: seq<Pulse>
    var overflow: bool
    var initCount: nat
    var exitCount: nat
    var failAt: Option<nat>
    var openSessions: nat
    var overlapCount: nat

    // What an observer of the line sees, and the pulses that this comes to.
    ghost const first: bool
    ghost var trace: seq<Event>
    ghost var pulses: seq<Pulse>

    /** No session is open: every handle ever obtained has been closed or freed. */
    ghost predicate Idle()
      reads this
    {
      live == {} && chip == None && line == None && openSessions == 0
    }

    /** A session is open: it holds its chip and its line and knows the level of the line. */
    ghost predicate InSession()
      reads this
    {
      if kind == Host then live == {} && chip == None && line == None && openSessions == 1
      else chip.Some? && line.Some? && chip != line && live == {chip.value, line.value}
           && openSessions == 0 && lineHigh == level
    }

    /** The level is that of the trace; the recorder holds the pulses until it is full, and then says so. */
    ghost predicate HistoryOk()
      reads this
    {
      level == LevelAfter(first, trace)
      && (kind == Host ==>
            recorder == (if |pulses| <= RECORDER_MAX_PULSES then pulses else pulses[..RECORDER_MAX_PULSES])
            && (overflow <==> |pulses| > RECORDER_MAX_PULSES))
    }

    /** Calls have been made since then, and a fault that was set may have fired. */
    twostate predicate Later()
      reads this
    {
      old(calls) <= calls && (failAt == old(failAt) || failAt == None)
    }

    /** No call into the system has failed since there had been so many, nor a pulse of the host board. */
    twostate predicate NoFault()
      reads this
    {
      AllWork(works, old(calls), calls) && failAt == old(failAt)
    }

    constructor (kind: Kind, parses: string -> bool, works: nat -> bool, level: bool)
      ensures Idle() && HistoryOk() && this.kind == kind && this.parses == parses && this.works == works
      ensures pulses == [] && overlapCount == 0
    {
      this.kind, this.parses, this.works, this.level := kind, parses, works, level;
      first, trace, calls := level, [], 0;
      live, nextHandle, chip, line, lineHigh := {}, 0, None, None, false;
      recorder, overflow, initCount, exitCount, failAt := [], false, 0, 0, None;
      chipConfig := None;
      openSessions, overlapCount := 0, 0;
      pulses := [];
    }

    // ---------- libgpiod: any call may fail, and a failed call changes nothing ----------

    method Call() returns (ok: bool)
      modifies `calls
      ensures calls == old(calls) + 1 && ok == works(old(calls))
    {
      ok := works(calls);
      calls := calls + 1;
    }

    method Obtain() returns (handle: Option<nat>)
      requires forall h :: h in live ==> h < nextHandle
      modifies `calls, `live, `nextHandle
      ensures calls == old(calls) + 1 && (handle.Some? <==> works(old(calls)))
      ensures handle.None? ==> live == old(live)
      ensures handle.Some? ==> handle.value !in old(live) && live == old(live) + {handle.value}
      ensures forall h :: h in live ==> h < nextHandle
    {
      var ok := Call();
      if !ok {
        return None;
      }
      handle := Some(nextHandle);
      live := live + {nextHandle};
      nextHandle := nextHandle + 1;
    }

    /** The chip that the config names, or the default one. */
    method OpenChip(config: Option<string>) returns (handle: Option<nat>)
      requires forall h :: h in live ==> h < nextHandle
      modifies `calls, `live, `nextHandle, `chipConfig
      ensures calls == old(calls) + 1 && (handle.Some? <==> works(old(calls)))
      ensures handle.None? ==> live == old(live)
      ensures handle.Some? ==> handle.value !in old(live) && live == old(live) + {handle.value} && chipConfig == config
      ensures forall h :: h in live ==> h < nextHandle
    {
      handle := Obtain();
      if handle.Some? {
        chipConfig := config;
      }
    }

    /** Closing or freeing demands a handle that is still open. */
    method Release(handle: nat)
      requires handle in live
      modifies `live
      ensures live == old(live) - {handle}
    {
      live := live - {handle};
    }

    /** The line takes the level. */
    method Driven(high: bool)
      modifies `level, `trace
      ensures level == high && trace == old(trace) + [Drive(high)]
    {
      level := high;
      trace := trace + [Drive(high)];
    }

    method SetValue(high: bool) returns (rc: int)
      modifies `calls, `level, `trace
      ensures rc == 0 || rc == -1
      ensures calls == old(calls) + 1 && (rc == 0 <==> works(old(calls)))
      ensures rc == 0 ==> level == high && trace == old(trace) + [Drive(high)]
      ensures rc < 0 ==> level == old(level) && trace == old(trace)
    {
      var ok := Call();
      if !ok {
        return -1;
      }
      Driven(high);
      return 0;
    }

    /** A line that is granted as a low output is low. */
    method RequestLowOutput() returns (handle: Option<nat>)
      requires forall h :: h in live ==> h < nextHandle
      modifies `calls, `live, `nextHandle, `level, `trace
      ensures calls == old(calls) + 1 && (handle.Some? <==> works(old(calls)))
      ensures handle.None? ==> live == old(live) && level == old(level) && trace == old(trace)
      ensures handle.Some? ==> handle.value !in old(live) && live == old(live) + {handle.value}
      ensures handle.Some? ==> !level && trace == old(trace) + [Drive(false)]
      ensures forall h :: h in live ==> h < nextHandle
    {
      handle := Obtain();
      if handle.Some? {
        Driven(false);
      }
    }

    // ---------- board_init() ----------

    ghost predicate HandlesKnown()
      reads this
    {
      forall h :: h in live ==> h < nextHandle
    }

    /** The config that board_init() gets is none or well-formed; the host board takes any. */
    ghost predicate Fits(config: Option<string>) { kind == Host || config.None? || parses(config.value) }

    method Init(config: Option<string>) returns (rc: int)
      requires Idle() && HistoryOk() && HandlesKnown()
      modifies `calls, `level, `trace, `live, `nextHandle, `chipConfig, `chip, `line, `lineHigh, `initCount,
               `openSessions, `overlapCount
      ensures rc == 0 && kind != Host ==> chipConfig == config
      ensures rc == 0 || rc == -1
      ensures rc == 0 ==> InSession() && (kind != Host ==> !level && trace == old(trace) + [Drive(false)])
      ensures rc < 0 ==> Idle() && level == old(level) && trace == old(trace)
      ensures kind == Host ==> level == old(level) && trace == old(trace)
      ensures Later() && (rc == 0 <==> Fits(config) && NoFault())
      ensures overlapCount == old(overlapCount) && HistoryOk() && HandlesKnown()
      ensures initCount == old(initCount) + if kind == Host then 1 else 0
    {
      match kind {
        case Gpiod1 => rc := InitV1(config);
        case Gpiod2 => rc := InitV2(config);
        case Host => rc := InitHost();
      }
      if kind != Host && rc == 0 {
        LevelSnoc(first, old(trace), Drive(false));
      }
    }

    method InitV1(config: Option<string>) returns (rc: int)
      requires kind == Gpiod1 && Idle() && HandlesKnown()
      modifies `calls, `level, `trace, `live, `nextHandle, `chipConfig, `chip, `line, `lineHigh
      ensures rc == 0 ==> chipConfig == config
      ensures rc == 0 || rc == -1
      ensures rc == 0 ==> InSession() && !level && trace == old(trace) + [Drive(false)]
      ensures rc < 0 ==> Idle() && level == old(level) && trace == old(trace)
      ensures Later() && (rc == 0 <==> Fits(config) && NoFault())
      ensures HandlesKnown()
    {
      if config.Some? && !parses(config.value) {
        return -1;
      }
      chip := OpenChip(config);
      if chip.None? {
        return -1;
      }
      var found := Call();
      if !found {
        Release(chip.value);
        chip := None;
        line := None;
        return -1;
      }
      line := RequestLowOutput();
      if line.None? {
        Release(chip.value);
        chip := None;
        return -1;
      }
      lineHigh := false;
      return 0;
    }

    /** Three short-lived objects are freed again on every path. */
    method InitV2(config: Option<string>) returns (rc: int)
      requires kind == Gpiod2 && Idle() && HandlesKnown()
      modifies `calls, `level, `trace, `live, `nextHandle, `chipConfig, `chip, `line, `lineHigh
      ensures rc == 0 ==> chipConfig == config
      ensures rc == 0 || rc == -1
      ensures rc == 0 ==> InSession() && !level && trace == old(trace) + [Drive(false)]
      ensures rc < 0 ==> Idle() && level == old(level) && trace == old(trace)
      ensures Later() && (rc == 0 <==> Fits(config) && NoFault())
      ensures HandlesKnown()
    {
      rc := -1;
      if config.Some? && !parses(config.value) {
        return;
      }
      chip := OpenChip(config);
      if chip.None? {
        return;
      }
      rc := SettingsV2();
      if rc < 0 {
        Release(chip.value);
        chip := None;
      }
    }

    /** The part of board_init() from the line settings on. */
    method SettingsV2() returns (rc: int)
      requires HandlesKnown() && line == None
      modifies `calls, `level, `trace, `live, `nextHandle, `line, `lineHigh
      ensures rc == 0 || rc == -1
      ensures rc == 0 ==> line.Some? && line.value !in old(live) && live == old(live) + {line.value}
      ensures rc == 0 ==> !level && !lineHigh && trace == old(trace) + [Drive(false)]
      ensures rc < 0 ==> line == None && live == old(live) && level == old(level) && trace == old(trace)
      ensures Later() && (rc == 0 <==> NoFault())
      ensures HandlesKnown()
    {
      rc := -1;
      var settings := Obtain();
      if settings.None? {
        return;
      }
      var lineCfg := Obtain();
      if lineCfg.Some? {
        rc := RequestV2(lineCfg.value);
      }
      Release(settings.value);
    }

    /** The part of board_init() between the line config and the label out. */
    method RequestV2(lineCfg: nat) returns (rc: int)
      requires HandlesKnown() && lineCfg in live && line == None
      modifies `calls, `level, `trace, `live, `nextHandle, `line, `lineHigh
      ensures rc == 0 || rc == -1
      ensures rc == 0 ==> line.Some? && line.value !in old(live) && live == old(live) - {lineCfg} + {line.value}
      ensures rc == 0 ==> !level && !lineHigh && trace == old(trace) + [Drive(false)]
      ensures rc < 0 ==> line == None && live == old(live) - {lineCfg} && level == old(level) && trace == old(trace)
      ensures Later() && (rc == 0 <==> NoFault())
      ensures HandlesKnown()
    {
      var added := Call();
      if !added {
        Release(lineCfg);
        return -1;
      }
      var reqCfg := Obtain();
      if reqCfg.None? {
        Release(lineCfg);
        return -1;
      }
      line := RequestLowOutput();
      if line.None? {
        rc := -1;
      } else {
        rc := 0;
        lineHigh := false;
      }
      Release(reqCfg.value);
      Release(lineCfg);
    }

    method InitHost() returns (rc: int)
      requires kind == Host
      modifies `initCount, `openSessions, `overlapCount
      ensures rc == 0 && openSessions == old(openSessions) + 1 && initCount == old(initCount) + 1
      ensures overlapCount == old(overlapCount) + if old(openSessions) > 0 then 1 else 0
    {
      if openSessions > 0 {
        overlapCount := overlapCount + 1;
      }
      openSessions := openSessions + 1;
      initCount := initCount + 1;
      return 0;
    }

    // ---------- transmit() ----------

    /**
     On a line that is low: the line is high for pulseLen * nhigh and then low for
     pulseLen * nlow microseconds, or high until something else drives it low, or left low.
     The products are those of 32-bit numbers.
     */
    method Transmit(nhigh: nat, nlow: nat, pulseLen: nat) returns (rc: int)
      requires InSession() && HistoryOk()
      modifies `calls, `level, `trace, `lineHigh, `recorder, `overflow, `failAt, `pulses
      ensures rc == 0 || rc == -1
      ensures InSession() && HistoryOk()
      ensures Later() && (rc == 0 <==> NoFault())
      ensures rc == 0 ==> pulses == old(pulses) + [Pulse(nhigh, nlow, pulseLen)]
      ensures rc < 0 ==> pulses == old(pulses)
      ensures rc == 0 && kind != Host ==>
                !level && trace == old(trace) + Keying(Mul32(pulseLen, nhigh), Mul32(pulseLen, nlow))
      ensures rc < 0 && kind != Host && !old(level) ==>
                trace == old(trace) + if level then Raised(Mul32(pulseLen, nhigh)) else []
      ensures rc < 0 && kind != Host && old(level) ==>
                level && (trace == old(trace) || trace == old(trace) + Raised(Mul32(pulseLen, nhigh)))
      ensures kind == Host ==> level == old(level) && trace == old(trace)
    {
      if kind == Host {
        rc := TransmitHost(nhigh, nlow, pulseLen);
        return;
      }
      rc := SetValue(true);
      if rc < 0 {
        return;
      }
      lineHigh := true;
      Delay(Mul32(pulseLen, nhigh));
      DriveRest(first, old(trace), true, Mul32(pulseLen, nhigh));
      ghost var up := trace;
      rc := SetValue(false);
      if rc < 0 {
        return;
      }
      lineHigh := false;
      Delay(Mul32(pulseLen, nlow));
      DriveRest(first, up, false, Mul32(pulseLen, nlow));
      RaisedThenLow(old(trace), Mul32(pulseLen, nhigh), Mul32(pulseLen, nlow));
      pulses := pulses + [Pulse(nhigh, nlow, pulseLen)];
    }

    /** The fault is set for one pulse index and fires once. */
    method TransmitHost(nhigh: nat, nlow: nat, pulseLen: nat) returns (rc: int)
      requires kind == Host && HistoryOk()
      modifies `recorder, `overflow, `failAt, `pulses
      ensures rc == 0 || rc == -1
      ensures HistoryOk()
      ensures rc == 0 ==> pulses == old(pulses) + [Pulse(nhigh, nlow, pulseLen)]
      ensures rc < 0 <==> old(failAt) == Some(|old(recorder)|)
      ensures rc < 0 ==> pulses == old(pulses) && failAt == None
      ensures rc == 0 ==> failAt == old(failAt)
    {
      if failAt == Some(|recorder|) {
        failAt := None;
        return -1;
      }
      pulses := pulses + [Pulse(nhigh, nlow, pulseLen)];
      if |recorder| >= RECORDER_MAX_PULSES {
        overflow := true;
        return 0;
      }
      recorder := recorder + [Pulse(nhigh, nlow, pulseLen)];
      return 0;
    }

    /** delayMicroseconds(): a wait is split into whole seconds and nanoseconds without loss. */
    method Delay(howLong: nat)
      requires howLong < WORD
      modifies `trace
      ensures trace == old(trace) + [Rest(howLong)]
    {
      var seconds, nanos := SplitDelay(howLong);
      trace := trace + [Rest(seconds * 1_000_000 + nanos / 1000)];
    }

    // ---------- board_exit() ----------

    method Exit() returns (rc: int)
      requires (Idle() || InSession()) && HistoryOk() && HandlesKnown()
      modifies `calls, `level, `trace, `live, `chip, `line, `lineHigh, `exitCount, `openSessions
      ensures rc == 0 || rc == -1
      ensures Idle() && HistoryOk() && HandlesKnown()
      ensures old(Idle()) || kind == Host ==> rc == 0 && level == old(level) && trace == old(trace)
      ensures exitCount == old(exitCount) + if kind == Host then 1 else 0
      ensures Later() && (rc == 0 <==> NoFault())
      ensures old(InSession()) && kind != Host ==>
                level == (rc < 0)
                && trace == old(trace) + (if old(level) && rc == 0 then [Drive(false)] else [])
                && (rc < 0 ==> old(level))
                && (!old(level) ==> calls == old(calls))
    {
      if kind == Host {
        if openSessions > 0 {
          openSessions := openSessions - 1;
        }
        exitCount := exitCount + 1;
        return 0;
      }
      rc := 0;
      if chip.None? {
        return;
      }
      if lineHigh {
        rc := SetValue(false);
        lineHigh := false;
        LevelSnoc(first, old(trace), Drive(false));
      }
      Release(line.value);
      Release(chip.value);
      chip := None;
      line := None;
    }
  }

  method SplitDelay(howLong: nat) returns (seconds: nat, nanos: nat)
    requires howLong < WORD
    ensures nanos < 1_000_000_000
    ensures seconds * 1_000_000_000 + nanos == howLong * 1000
  {
    var uSecs := howLong % 1_000_000;
    seconds := howLong / 1_000_000;
    nanos := uSecs * 1000;
  }
}
