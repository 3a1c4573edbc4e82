/**
 The pulse train of a codeword, and why it can be read back.
 */
module Pulses {
  import opened Codewords

  const NTIMES: nat := 10

  datatype Pulse = Pulse(nhigh: nat, nlow: nat, pulseLen: nat)

  datatype Message = Message(word: string, pulseLen: nat)

  /** A codeword as it may stand in a pulse train; the empty word is only a sync pulse. */
  predicate Symbols(word: string) {
    forall i :: 0 <= i < |word| ==> IsSymbol(word[i])
  }

  function First(c: char, p: nat): Pulse {
    if c == '1' then Pulse(3, 1, p) else Pulse(1, 3, p)
  }

  function Second(c: char, p: nat): Pulse {
    if c == '0' then Pulse(1, 3, p) else Pulse(3, 1, p)
  }

  function Sync(p: nat): Pulse { Pulse(1, 31, p) }

  function Word(word: string, p: nat): seq<Pulse> {
    if |word| == 0 then [] else Word(word[..|word| - 1], p) + [First(word[|word| - 1], p), Second(word[|word| - 1], p)]
  }

  function Frame(word: string, p: nat): seq<Pulse> {
    Word(word, p) + [Sync(p)]
  }

  function Repeated(word: string, p: nat, n: nat): seq<Pulse> {
    if n == 0 then [] else Repeated(word, p, n - 1) + Frame(word, p)
  }

  function Transmission(word: string, p: nat): seq<Pulse> {
    Repeated(word, p, NTIMES)
  }

  function Train(ms: seq<Message>): seq<Pulse> {
    if |ms| == 0 then []
    else Train(ms[..|ms| - 1]) + Transmission(ms[|ms| - 1].word, ms[|ms| - 1].pulseLen)
  }

  lemma {:induction false} WordAt(word: string, p: nat, k: nat)
    ensures |Word(word, p)| == 2 * |word|
    ensures k < |word| ==> Word(word, p)[2 * k] == First(word[k], p) && Word(word, p)[2 * k + 1] == Second(word[k], p)
  {
    if |word| > 0 {
      WordAt(word[..|word| - 1], p, k);
    }
  }

  lemma {:induction false} RepeatedLength(word: string, p: nat, n: nat)
    ensures |Repeated(word, p, n)| == n * (2 * |word| + 1)
  {
    WordAt(word, p, 0);
    if n > 0 {
      RepeatedLength(word, p, n - 1);
    }
  }

  /** A transmission of n symbols is 10 * (2n + 1) pulses. */
  lemma {:induction false} TransmissionLength(word: string, p: nat)
    ensures |Transmission(word, p)| == NTIMES * (2 * |word| + 1)
  {
    RepeatedLength(word, p, NTIMES);
  }

  /** The first frame of a repetition. */
  lemma {:induction false} RepeatedFront(word: string, p: nat, n: nat)
    requires n > 0
    ensures Repeated(word, p, n) == Frame(word, p) + Repeated(word, p, n - 1)
  {
    if n == 1 {
      assert Repeated(word, p, 0) == [];
      assert [] + Frame(word, p) == Frame(word, p) + [];
    } else {
      RepeatedFront(word, p, n - 1);
      assert Frame(word, p) + Repeated(word, p, n - 2) + Frame(word, p)
          == Frame(word, p) + (Repeated(word, p, n - 2) + Frame(word, p));
    }
  }

  // ---------- Frames can be read back ----------

  /** Word w with pulse length p stands at the front of the pulses. */
  ghost predicate StartsFrame(s: seq<Pulse>, w: string, p: nat) {
    Symbols(w) && Frame(w, p) <= s
  }

  ghost predicate StartsTransmission(s: seq<Pulse>, w: string, p: nat) {
    Symbols(w) && Transmission(w, p) <= s
  }

  lemma {:induction false} FrameAt(s: seq<Pulse>, w: string, p: nat, k: nat)
    requires Frame(w, p) <= s && k <= |w|
    ensures |Frame(w, p)| == 2 * |w| + 1 <= |s|
    ensures k < |w| ==> s[2 * k] == First(w[k], p) && s[2 * k + 1] == Second(w[k], p)
    ensures s[2 * |w|] == Sync(p)
  {
    WordAt(w, p, k);
    var f := Frame(w, p);
    assert f == s[..|f|];
    if k < |w| {
      assert f[2 * k] == s[2 * k] && f[2 * k + 1] == s[2 * k + 1];
    }
    assert f[2 * |w|] == s[2 * |w|];
  }

  lemma {:induction false} FrameUniqueOrdered(s: seq<Pulse>, w1: string, p1: nat, w2: string, p2: nat)
    requires StartsFrame(s, w1, p1) && StartsFrame(s, w2, p2) && |w1| <= |w2|
    ensures w1 == w2 && p1 == p2
  {
    FrameAt(s, w1, p1, 0);
    FrameAt(s, w2, p2, 0);
    FrameAt(s, w2, p2, |w1|);
    assert |w1| == |w2|;
    forall k | 0 <= k < |w1|
      ensures w1[k] == w2[k]
    {
      FrameAt(s, w1, p1, k);
      FrameAt(s, w2, p2, k);
      assert IsSymbol(w1[k]) && IsSymbol(w2[k]);
    }
  }

  /** Frames are a prefix code: a pulse train starts with at most one of them. */
  lemma {:induction false} FrameUnique(s: seq<Pulse>, w1: string, p1: nat, w2: string, p2: nat)
    requires StartsFrame(s, w1, p1) && StartsFrame(s, w2, p2)
    ensures w1 == w2 && p1 == p2
  {
    if |w1| <= |w2| {
      FrameUniqueOrdered(s, w1, p1, w2, p2);
    } else {
      FrameUniqueOrdered(s, w2, p2, w1, p1);
    }
  }

  lemma {:induction false} TransmissionStartsFrame(s: seq<Pulse>, w: string, p: nat)
    requires StartsTransmission(s, w, p)
    ensures StartsFrame(s, w, p)
  {
    RepeatedFront(w, p, NTIMES);
    var f := Frame(w, p);
    assert f == Transmission(w, p)[..|f|];
    assert f == s[..|f|];
  }

  lemma {:induction false} TransmissionUnique(s: seq<Pulse>, w1: string, p1: nat, w2: string, p2: nat)
    requires StartsTransmission(s, w1, p1) && StartsTransmission(s, w2, p2)
    ensures w1 == w2 && p1 == p2
  {
    TransmissionStartsFrame(s, w1, p1);
    TransmissionStartsFrame(s, w2, p2);
    FrameUnique(s, w1, p1, w2, p2);
  }

  lemma {:induction false} TrainFront(ms: seq<Message>)
    requires |ms| > 0
    ensures Train(ms) == Transmission(ms[0].word, ms[0].pulseLen) + Train(ms[1..])
  {
    if |ms| > 1 {
      TrainFront(ms[..|ms| - 1]);
      assert ms[1..][..|ms| - 2] == ms[..|ms| - 1][1..];
    } else {
      assert ms[..0] == [] && ms[1..] == [];
    }
  }

  lemma {:induction false} SameTail(t: seq<Pulse>, a: seq<Pulse>, b: seq<Pulse>)
    requires t + a == t + b
    ensures a == b
  {
    assert a == (t + a)[|t|..];
    assert b == (t + b)[|t|..];
  }

  lemma {:induction false} TrainEmptyIff(ms: seq<Message>)
    ensures Train(ms) == [] <==> ms == []
  {
    if |ms| > 0 {
      TransmissionLength(ms[|ms| - 1].word, ms[|ms| - 1].pulseLen);
    }
  }

  predicate Decodable(ms: seq<Message>, maxLen: nat) {
    forall i :: 0 <= i < |ms| ==> Symbols(ms[i].word) && |ms[i].word| <= maxLen
  }

  /** Two lists of messages with the same pulse train are the same list. */
  lemma {:induction false} TrainInjective(m1: seq<Message>, m2: seq<Message>)
    requires Decodable(m1, 31) && Decodable(m2, 31) && Train(m1) == Train(m2)
    ensures m1 == m2
  {
    TrainEmptyIff(m1);
    TrainEmptyIff(m2);
    if |m1| > 0 {
      TrainFront(m1);
      TrainFront(m2);
      TransmissionUnique(Train(m1), m1[0].word, m1[0].pulseLen, m2[0].word, m2[0].pulseLen);
      SameTail(Transmission(m1[0].word, m1[0].pulseLen), Train(m1[1..]), Train(m2[1..]));
      TrainInjective(m1[1..], m2[1..]);
      assert m1 == [m1[0]] + m1[1..] && m2 == [m2[0]] + m2[1..];
    }
  }

  // ---------- Time on the air ----------

  /** The microseconds that the pulses ask for. */
  function Duration(s: seq<Pulse>): nat {
    if |s| == 0 then 0
    else Duration(s[..|s| - 1]) + (s[|s| - 1].nhigh + s[|s| - 1].nlow) * s[|s| - 1].pulseLen
  }

  lemma {:induction false} DurationAppend(a: seq<Pulse>, b: seq<Pulse>)
    ensures Duration(a + b) == Duration(a) + Duration(b)
  {
    if |b| == 0 {
      assert a + b == a;
    } else {
      DurationAppend(a, b[..|b| - 1]);
      assert (a + b)[..|a + b| - 1] == a + b[..|b| - 1];
    }
  }

  lemma {:induction false} PairDuration(c: char, p: nat)
    requires IsSymbol(c)
    ensures Duration([First(c, p), Second(c, p)]) == 8 * p
  {
    var pair := [First(c, p), Second(c, p)];
    assert pair[..1] == [First(c, p)] && pair[..1][..0] == [];
    assert Duration(pair) == Duration(pair[..1]) + 4 * p;
    assert Duration(pair[..1]) == 4 * p;
  }

  lemma {:induction false} WordDuration(word: string, p: nat)
    requires Symbols(word)
    ensures Duration(Word(word, p)) == |word| * (8 * p)
  {
    if |word| > 0 {
      var front, c := word[..|word| - 1], word[|word| - 1];
      WordDuration(front, p);
      PairDuration(c, p);
      DurationAppend(Word(front, p), [First(c, p), Second(c, p)]);
      OneMore(|word|, 8 * p);
    }
  }

  lemma {:induction false} FrameDuration(word: string, p: nat)
    requires Symbols(word)
    ensures Duration(Frame(word, p)) == (8 * |word| + 32) * p
  {
    WordDuration(word, p);
    assert [Sync(p)][..0] == [];
    assert Duration([Sync(p)]) == 32 * p;
    DurationAppend(Word(word, p), [Sync(p)]);
    Distribute(|word|, p);
  }

  lemma {:induction false} Distribute(n: nat, p: nat)
    ensures n * (8 * p) + 32 * p == (8 * n + 32) * p
  {
  }

  lemma {:induction false} RepeatedDuration(word: string, p: nat, n: nat)
    ensures Duration(Repeated(word, p, n)) == n * Duration(Frame(word, p))
  {
    if n > 0 {
      RepeatedDuration(word, p, n - 1);
      DurationAppend(Repeated(word, p, n - 1), Frame(word, p));
      OneMore(n, Duration(Frame(word, p)));
    }
  }

  lemma {:induction false} OneMore(n: nat, x: nat)
    requires n > 0
    ensures n * x == (n - 1) * x + x
  {
  }

  /** The time on the air depends on the number of symbols only, not on which they are. */
  lemma {:induction false} TransmissionDuration(word: string, p: nat)
    requires Symbols(word)
    ensures Duration(Transmission(word, p)) == 10 * (8 * |word| + 32) * p
  {
    RepeatedDuration(word, p, NTIMES);
    FrameDuration(word, p);
  }

  /** A pulse of a legal length that keys the transmitter for at most 6 ms and whose products fit 32 bits. */
  predicate SafePulse(x: Pulse) {
    1 <= x.nhigh <= 3 && 1 <= x.nlow <= 31 && PULSE_LEN_MIN_US <= x.pulseLen <= PULSE_LEN_MAX_US
    && x.pulseLen * x.nhigh <= 6000 && x.pulseLen * x.nlow < 0x1_0000_0000
  }

  lemma {:induction false} PartsAreSafe(p: nat)
    requires PULSE_LEN_MIN_US <= p <= PULSE_LEN_MAX_US
    ensures SafePulse(Pulse(1, 3, p)) && SafePulse(Pulse(3, 1, p)) && SafePulse(Sync(p))
  {
  }

  lemma {:induction false} FrameIsSafe(word: string, p: nat, i: nat)
    requires PULSE_LEN_MIN_US <= p <= PULSE_LEN_MAX_US && i < |Frame(word, p)|
    ensures SafePulse(Frame(word, p)[i])
  {
    PartsAreSafe(p);
    WordAt(word, p, i / 2);
    if i < 2 * |word| {
      assert Frame(word, p)[i] == if i % 2 == 0 then First(word[i / 2], p) else Second(word[i / 2], p);
    }
  }

  lemma {:induction false} RepeatedSafe(word: string, p: nat, n: nat)
    requires PULSE_LEN_MIN_US <= p <= PULSE_LEN_MAX_US
    ensures forall i :: 0 <= i < |Repeated(word, p, n)| ==> SafePulse(Repeated(word, p, n)[i])
  {
    if n > 0 {
      RepeatedSafe(word, p, n - 1);
      var before := Repeated(word, p, n - 1);
      forall i | 0 <= i < |Repeated(word, p, n)|
        ensures SafePulse(Repeated(word, p, n)[i])
      {
        if i >= |before| {
          FrameIsSafe(word, p, i - |before|);
        }
      }
    }
  }
}
