/**
 What an observer of the GPIO line sees: each write that drives it high or low, and how
 long the driver rests in between.  Times and pulses are read off that trace.
 */
module Line {
  import opened Codewords
  import opened Pulses

  datatype Event = Drive(high: bool) | Rest(micros: nat)

  /** The level of the line behind the events. */
  function LevelAfter(first: bool, trace: seq<Event>): bool {
    if |trace| == 0 then first
    else match trace[|trace| - 1]
      case Drive(high) => high
      case Rest(_) => LevelAfter(first, trace[..|trace| - 1])
  }

  function Elapsed(trace: seq<Event>): nat {
    if |trace| == 0 then 0
    else Elapsed(trace[..|trace| - 1]) + if trace[|trace| - 1].Rest? then trace[|trace| - 1].micros else 0
  }

  /** How long the line has been high without a break at the end. */
  function HighNow(first: bool, trace: seq<Event>): nat {
    if |trace| == 0 then 0
    else
      var front := trace[..|trace| - 1];
      match trace[|trace| - 1]
      case Drive(high) => if high then HighNow(first, front) else 0
      case Rest(t) => HighNow(first, front) + if LevelAfter(first, front) then t else 0
  }

  /** The longest that the line was ever high without a break. */
  function LongestHigh(first: bool, trace: seq<Event>): nat {
    if |trace| == 0 then 0
    else
      var before, now := LongestHigh(first, trace[..|trace| - 1]), HighNow(first, trace);
      if before > now then before else now
  }

  /** The line goes high, stays there, goes low and stays there. */
  function Keying(high: nat, low: nat): seq<Event> { [Drive(true), Rest(high), Drive(false), Rest(low)] }

  /** The line goes high and stays there. */
  function Raised(high: nat): seq<Event> { [Drive(true), Rest(high)] }

  /** The waveform of pulses, one after the other. */
  function Waves(s: seq<Pulse>): seq<Event> {
    if |s| == 0 then []
    else
      var p := s[|s| - 1];
      Waves(s[..|s| - 1]) + Keying(p.pulseLen * p.nhigh, p.pulseLen * p.nlow)
  }

  lemma {:induction false} WavesAppend(a: seq<Pulse>, b: seq<Pulse>)
    ensures Waves(a + b) == Waves(a) + Waves(b)
  {
    if |b| == 0 {
      assert a + b == a;
      assert Waves(a) + [] == Waves(a);
    } else {
      var p := b[|b| - 1];
      WavesAppend(a, b[..|b| - 1]);
      assert (a + b)[..|a + b| - 1] == a + b[..|b| - 1];
      var front, last := Waves(b[..|b| - 1]), Keying(p.pulseLen * p.nhigh, p.pulseLen * p.nlow);
      assert (Waves(a) + front) + last == Waves(a) + (front + last);
    }
  }

  lemma {:induction false} WavesOne(p: Pulse)
    ensures Waves([p]) == Keying(p.pulseLen * p.nhigh, p.pulseLen * p.nlow)
  {
    assert [p][..0] == [];
    assert [] + Keying(p.pulseLen * p.nhigh, p.pulseLen * p.nlow) == Keying(p.pulseLen * p.nhigh, p.pulseLen * p.nlow);
  }

  // ---------- The waveforms of the symbols ----------

  /** A short pulse is high for one pulse length and low for three, a long one the other way round. */
  function Short(p: nat): seq<Event> { [Drive(true), Rest(p), Drive(false), Rest(3 * p)] }

  function Long(p: nat): seq<Event> { [Drive(true), Rest(3 * p), Drive(false), Rest(p)] }

  /** A '0' is two short pulses, a '1' two long ones, an 'F' a short and a long one; then comes the sync pulse. */
  lemma {:induction false} SymbolWaves(p: nat)
    ensures Waves([First('0', p), Second('0', p)]) == Short(p) + Short(p)
    ensures Waves([First('1', p), Second('1', p)]) == Long(p) + Long(p)
    ensures Waves([First('F', p), Second('F', p)]) == Short(p) + Long(p)
    ensures Waves([Sync(p)]) == [Drive(true), Rest(p), Drive(false), Rest(31 * p)]
  {
    PairWaves('0', p);
    PairWaves('1', p);
    PairWaves('F', p);
    WavesOne(Sync(p));
  }

  lemma {:induction false} PairWaves(c: char, p: nat)
    ensures Waves([First(c, p), Second(c, p)])
         == (if c == '1' then Long(p) else Short(p)) + (if c == '0' then Short(p) else Long(p))
  {
    WavesAppend([First(c, p)], [Second(c, p)]);
    WavesOne(First(c, p));
    WavesOne(Second(c, p));
    assert [First(c, p)] + [Second(c, p)] == [First(c, p), Second(c, p)];
  }

  // ---------- Times read off a trace ----------

  lemma {:induction false} ElapsedAppend(a: seq<Event>, b: seq<Event>)
    ensures Elapsed(a + b) == Elapsed(a) + Elapsed(b)
  {
    if |b| == 0 {
      assert a + b == a;
    } else {
      ElapsedAppend(a, b[..|b| - 1]);
      assert (a + b)[..|a + b| - 1] == a + b[..|b| - 1];
    }
  }

  lemma {:induction false} ElapsedKeying(high: nat, low: nat)
    ensures Elapsed(Keying(high, low)) == high + low
  {
    var k := Keying(high, low);
    assert k[..3][..2] == k[..2] && k[..2][..1] == k[..1] && k[..1][..0] == [];
    assert Elapsed(k[..2]) == Elapsed(k[..1]) + high && Elapsed(k[..1]) == 0;
    assert Elapsed(k[..3]) == Elapsed(k[..2]);
  }

  /** The waveform of pulses takes the time that they ask for. */
  lemma {:induction false} WavesTake(s: seq<Pulse>)
    ensures Elapsed(Waves(s)) == Duration(s)
  {
    if |s| > 0 {
      var front, p := s[..|s| - 1], s[|s| - 1];
      WavesTake(front);
      ElapsedAppend(Waves(front), Keying(p.pulseLen * p.nhigh, p.pulseLen * p.nlow));
      ElapsedKeying(p.pulseLen * p.nhigh, p.pulseLen * p.nlow);
      Factor(p.nhigh, p.nlow, p.pulseLen);
    }
  }

  lemma {:induction false} Factor(a: nat, b: nat, p: nat)
    ensures p * a + p * b == (a + b) * p
  {
  }

  lemma {:induction false} LevelSnoc(first: bool, trace: seq<Event>, e: Event)
    ensures LevelAfter(first, trace + [e]) == if e.Drive? then e.high else LevelAfter(first, trace)
    ensures HighNow(first, trace + [e]) ==
            match e
            case Drive(high) => if high then HighNow(first, trace) else 0
            case Rest(t) => HighNow(first, trace) + if LevelAfter(first, trace) then t else 0
    ensures LongestHigh(first, trace + [e]) == Larger(LongestHigh(first, trace), HighNow(first, trace + [e]))
  {
    assert (trace + [e])[..|trace|] == trace;
  }

  lemma {:induction false} DriveRest(first: bool, trace: seq<Event>, high: bool, micros: nat)
    ensures (trace + [Drive(high)]) + [Rest(micros)] == trace + [Drive(high), Rest(micros)]
    ensures LevelAfter(first, trace + [Drive(high), Rest(micros)]) == high
  {
    LevelSnoc(first, trace, Drive(high));
    LevelSnoc(first, trace + [Drive(high)], Rest(micros));
    assert (trace + [Drive(high)]) + [Rest(micros)] == trace + [Drive(high), Rest(micros)];
  }

  lemma {:induction false} RaisedThenLow(trace: seq<Event>, high: nat, low: nat)
    ensures (trace + Raised(high)) + [Drive(false), Rest(low)] == trace + Keying(high, low)
  {
  }

  function Larger(a: nat, b: nat): nat { if a > b then a else b }

  /** On a line that is low. */
  lemma {:induction false} LowIsNotHigh(first: bool, trace: seq<Event>)
    requires !LevelAfter(first, trace)
    ensures HighNow(first, trace) == 0
  {
    if |trace| > 0 && trace[|trace| - 1].Rest? {
      LowIsNotHigh(first, trace[..|trace| - 1]);
    }
  }

  lemma {:induction false} RaisedHigh(first: bool, trace: seq<Event>, high: nat)
    requires !LevelAfter(first, trace)
    ensures LevelAfter(first, trace + Raised(high)) && HighNow(first, trace + Raised(high)) == high
    ensures LongestHigh(first, trace + Raised(high)) == Larger(LongestHigh(first, trace), high)
  {
    LowIsNotHigh(first, trace);
    LevelSnoc(first, trace, Drive(true));
    LevelSnoc(first, trace + [Drive(true)], Rest(high));
    assert (trace + [Drive(true)]) + [Rest(high)] == trace + Raised(high);
  }

  lemma {:induction false} KeyingHigh(first: bool, trace: seq<Event>, high: nat, low: nat)
    requires !LevelAfter(first, trace)
    ensures !LevelAfter(first, trace + Keying(high, low))
    ensures LongestHigh(first, trace + Keying(high, low)) == Larger(LongestHigh(first, trace), high)
  {
    RaisedHigh(first, trace, high);
    var up := trace + Raised(high);
    LevelSnoc(first, up, Drive(false));
    LevelSnoc(first, up + [Drive(false)], Rest(low));
    assert (up + [Drive(false)]) + [Rest(low)] == trace + Keying(high, low);
  }

  /** No pulse asks for the line high for longer than three pulse lengths. */
  predicate AtMostThree(s: seq<Pulse>, p: nat) {
    forall i :: 0 <= i < |s| ==> s[i].pulseLen == p && s[i].nhigh <= 3
  }

  lemma {:induction false} WavesHigh(first: bool, trace: seq<Event>, s: seq<Pulse>, p: nat)
    requires !LevelAfter(first, trace) && AtMostThree(s, p)
    ensures !LevelAfter(first, trace + Waves(s))
    ensures LongestHigh(first, trace + Waves(s)) <= Larger(LongestHigh(first, trace), 3 * p)
  {
    if |s| == 0 {
      assert trace + [] == trace;
    } else {
      var front, x := s[..|s| - 1], s[|s| - 1];
      WavesHigh(first, trace, front, p);
      AtMost(x.nhigh, p);
      KeyingHigh(first, trace + Waves(front), x.pulseLen * x.nhigh, x.pulseLen * x.nlow);
      assert trace + (Waves(front) + Keying(x.pulseLen * x.nhigh, x.pulseLen * x.nlow))
          == (trace + Waves(front)) + Keying(x.pulseLen * x.nhigh, x.pulseLen * x.nlow);
    }
  }

  lemma {:induction false} AtMost(n: nat, p: nat)
    requires n <= 3
    ensures p * n <= 3 * p
  {
  }

  lemma {:induction false} FrontAtMostThree(s: seq<Pulse>, t: seq<Pulse>, p: nat)
    requires s <= t && AtMostThree(t, p)
    ensures AtMostThree(s, p)
  {
    assert forall i :: 0 <= i < |s| ==> s[i] == t[i];
  }

  lemma {:induction false} TransmissionAtMostThree(word: string, p: nat, n: nat)
    ensures AtMostThree(Repeated(word, p, n), p)
  {
    if n > 0 {
      TransmissionAtMostThree(word, p, n - 1);
      FrameAtMostThree(word, p);
    }
  }

  lemma {:induction false} FrameAtMostThree(word: string, p: nat)
    ensures AtMostThree(Frame(word, p), p)
  {
    forall i | 0 <= i < |Frame(word, p)|
      ensures Frame(word, p)[i].pulseLen == p && Frame(word, p)[i].nhigh <= 3
    {
      WordAt(word, p, i / 2);
      if i < 2 * |word| {
        assert Frame(word, p)[i] == if i % 2 == 0 then First(word[i / 2], p) else Second(word[i / 2], p);
      }
    }
  }

  // ---------- What a session does to the line ----------

  /**
   The waveform of what was sent, and perhaps a pulse that was cut off while the line was
   high; with the level that this leaves.
   */
  predicate Keyed(before: seq<Event>, after: seq<Event>, sent: seq<Pulse>, p: nat, level: bool) {
    if !level then after == before + Waves(sent)
    else after == before + Waves(sent) + Raised(p) || after == before + Waves(sent) + Raised(3 * p)
  }

  lemma {:induction false} KeyedOn(a: seq<Event>, b: seq<Event>, c: seq<Event>, s: seq<Pulse>, t: seq<Pulse>, p: nat,
                                   level: bool)
    requires Keyed(a, b, s, p, false) && Keyed(b, c, t, p, level)
    ensures Keyed(a, c, s + t, p, level)
  {
    WavesAppend(s, t);
    assert (a + Waves(s)) + Waves(t) == a + (Waves(s) + Waves(t));
  }

  /** However a session ends, the line was high without a break for at most three pulse lengths of it. */
  lemma {:induction false} KeyedHigh(first: bool, before: seq<Event>, after: seq<Event>, sent: seq<Pulse>, m: Message,
                                     level: bool)
    requires !LevelAfter(first, before) && Keyed(before, after, sent, m.pulseLen, level)
    requires sent <= Transmission(m.word, m.pulseLen)
    ensures LevelAfter(first, after) == level
    ensures LongestHigh(first, after) <= Larger(LongestHigh(first, before), 3 * m.pulseLen)
  {
    TransmissionAtMostThree(m.word, m.pulseLen, NTIMES);
    FrontAtMostThree(sent, Transmission(m.word, m.pulseLen), m.pulseLen);
    WavesHigh(first, before, sent, m.pulseLen);
    if level {
      RaisedHigh(first, before + Waves(sent), m.pulseLen);
      RaisedHigh(first, before + Waves(sent), 3 * m.pulseLen);
    }
  }
}
