/**
 The decoder of the tests, which reads recorded pulses back into codewords.
 */
module PulseDecoder {
  import opened Codewords
  import opened Pulses

  const EXPECTED_REPEATS: nat := 10
  const MAX_FRAME_LEN: nat := 32

  ghost predicate NoFrame(s: seq<Pulse>, outlen: nat) {
    forall w: string, p: nat :: StartsFrame(s, w, p) ==> |w| >= outlen
  }

  ghost predicate NoTransmission(s: seq<Pulse>, outlen: nat) {
    forall w: string, p: nat :: StartsTransmission(s, w, p) ==> |w| >= outlen
  }

  /** The pulse length that the decoder takes from the first pulse. */
  function PulseLenOf(s: seq<Pulse>): nat {
    if |s| == 0 then 0 else s[0].pulseLen
  }

  lemma {:induction false} FrameHead(s: seq<Pulse>, w: string, p: nat)
    requires StartsFrame(s, w, p)
    ensures p == PulseLenOf(s)
  {
    FrameAt(s, w, p, 0);
  }

  /** A frame that starts here runs along the symbols already read. */
  lemma {:induction false} NotShorter(s: seq<Pulse>, out: string, w: string, p: nat)
    requires Symbols(out) && Word(out, PulseLenOf(s)) <= s && StartsFrame(s, w, p)
    ensures |out| <= |w|
  {
    FrameHead(s, w, p);
    if |w| < |out| {
      FrameAt(s, w, p, 0);
      WordAt(out, p, |w|);
      assert false;
    }
  }

  /** What a frame that starts here puts behind its first n symbols. */
  lemma {:induction false} Continues(s: seq<Pulse>, w: string, p: nat, n: nat)
    requires StartsFrame(s, w, p) && n <= |w|
    ensures p == PulseLenOf(s) && 2 * n < |s|
    ensures n == |w| ==> s[2 * n] == Sync(p)
    ensures n < |w| ==>
              (2 * n + 1 < |s| && IsSymbol(w[n]) && s[2 * n] == First(w[n], p) && s[2 * n + 1] == Second(w[n], p))
  {
    FrameHead(s, w, p);
    FrameAt(s, w, p, n);
  }

  /** Behind n symbols neither a sync pulse nor another symbol of a short word can follow. */
  ghost predicate Blocked(s: seq<Pulse>, n: nat, outlen: nat) {
    n >= outlen
    || 2 * n >= |s|
    || s[2 * n].pulseLen != PulseLenOf(s)
    || (s[2 * n] != Sync(PulseLenOf(s))
        && (n + 1 >= outlen
            || 2 * n + 1 >= |s|
            || s[2 * n + 1].pulseLen != PulseLenOf(s)
            || forall c: char :: IsSymbol(c) ==>
                 s[2 * n] != First(c, PulseLenOf(s)) || s[2 * n + 1] != Second(c, PulseLenOf(s))))
  }

  lemma {:induction false} BlockedFrame(s: seq<Pulse>, n: nat, outlen: nat, w: string, p: nat)
    requires Blocked(s, n, outlen) && StartsFrame(s, w, p) && n <= |w|
    ensures |w| >= outlen
  {
    if |w| < outlen {
      Continues(s, w, p, n);
    }
  }

  lemma {:induction false} Refuted(s: seq<Pulse>, out: string, outlen: nat)
    requires Symbols(out) && Word(out, PulseLenOf(s)) <= s && Blocked(s, |out|, outlen)
    ensures NoFrame(s, outlen)
  {
    forall w: string, p: nat | StartsFrame(s, w, p)
      ensures |w| >= outlen
    {
      NotShorter(s, out, w, p);
      BlockedFrame(s, |out|, outlen, w, p);
    }
  }

  /**
   Decodes one frame.  It succeeds exactly when a frame of fewer than outlen symbols
   stands at pos, and then returns that frame.
   */
  method DecodeFrame(log: seq<Pulse>, pos: nat, outlen: nat)
    returns (ok: bool, out: string, next: nat, pulseLen: nat)
    requires pos <= |log|
    ensures ok ==> Symbols(out) && |out| < outlen && pos < next <= |log| && log[pos..next] == Frame(out, pulseLen)
    ensures !ok ==> next == pos && NoFrame(log[pos..], outlen)
  {
    var i := pos;
    ghost var s := log[pos..];
    ok, out, next := false, "", pos;
    pulseLen := if pos < |log| then log[pos].pulseLen else 0;
    while true
      invariant Symbols(out) && |out| <= outlen && i == pos + 2 * |out| <= |log| && next == pos && !ok
      invariant pulseLen == PulseLenOf(s) && Word(out, pulseLen) == log[pos..i]
      decreases |log| - i
    {
      assert log[pos..i] == s[..i - pos];
      if i >= |log| || log[i].pulseLen != pulseLen {
        Refuted(s, out, outlen);
        return;
      }
      var p := log[i];
      if p.nhigh == 1 && p.nlow == 31 {
        if |out| >= outlen {
          Refuted(s, out, outlen);
          return;
        }
        next := i + 1;
        ok := true;
        assert log[pos..next] == log[pos..i] + [p];
        return;
      }
      if i + 1 >= |log| || log[i + 1].pulseLen != pulseLen {
        Refuted(s, out, outlen);
        return;
      }
      var q := log[i + 1];
      var sym;
      if p.nhigh == 1 && p.nlow == 3 && q.nhigh == 1 && q.nlow == 3 {
        sym := '0';
      } else if p.nhigh == 3 && p.nlow == 1 && q.nhigh == 3 && q.nlow == 1 {
        sym := '1';
      } else if p.nhigh == 1 && p.nlow == 3 && q.nhigh == 3 && q.nlow == 1 {
        sym := 'F';
      } else {
        Refuted(s, out, outlen);
        return;
      }
      if |out| + 1 >= outlen {
        Refuted(s, out, outlen);
        return;
      }
      assert (out + [sym])[..|out|] == out;
      assert log[pos..i + 2] == log[pos..i] + [p, q];
      out := out + [sym];
      i := i + 2;
    }
  }

  lemma {:induction false} NoFrameNoTransmission(s: seq<Pulse>, outlen: nat)
    requires NoFrame(s, outlen)
    ensures NoTransmission(s, outlen)
  {
    forall w: string, p: nat | StartsTransmission(s, w, p)
      ensures |w| >= outlen
    {
      TransmissionStartsFrame(s, w, p);
    }
  }

  /** Behind its first n frames a transmission goes on with the same frame. */
  lemma {:induction false} NextFrame(s: seq<Pulse>, w: string, p: nat, n: nat)
    requires StartsTransmission(s, w, p) && n < EXPECTED_REPEATS
    ensures Repeated(w, p, n) <= s && Frame(w, p) <= s[|Repeated(w, p, n)|..]
  {
    RepeatedPrefix(w, p, n + 1, EXPECTED_REPEATS);
    var done, more := Repeated(w, p, n), Repeated(w, p, n + 1);
    assert more == Transmission(w, p)[..|more|] == s[..|more|];
    assert done == more[..|done|] == s[..|done|];
    assert Frame(w, p) == more[|done|..] == s[|done|..][..|Frame(w, p)|];
  }

  /** After n equal frames another one is missing, so the transmission is not there. */
  lemma {:induction false} MissingFrame(s: seq<Pulse>, out: string, pulseLen: nat, n: nat, outlen: nat)
    requires Symbols(out) && 0 < n < EXPECTED_REPEATS && Repeated(out, pulseLen, n) <= s
    requires !(Frame(out, pulseLen) <= s[|Repeated(out, pulseLen, n)|..])
    ensures NoTransmission(s, outlen)
  {
    var done := Repeated(out, pulseLen, n);
    RepeatedFront(out, pulseLen, n);
    assert Frame(out, pulseLen) == done[..|Frame(out, pulseLen)|] == s[..|Frame(out, pulseLen)|];
    forall w: string, p: nat | StartsTransmission(s, w, p)
      ensures false
    {
      TransmissionStartsFrame(s, w, p);
      FrameUnique(s, w, p, out, pulseLen);
      NextFrame(s, w, p, n);
    }
  }

  lemma {:induction false} SliceInSlice(log: seq<Pulse>, pos: nat, next: nat)
    requires pos <= next <= |log|
    ensures log[pos..next] == log[pos..][..next - pos] && log[next..] == log[pos..][next - pos..]
  {
  }

  lemma {:induction false} SlicesJoin(log: seq<Pulse>, pos: nat, next: nat, after: nat)
    requires pos <= next <= after <= |log|
    ensures log[pos..after] == log[pos..next] + log[next..after]
  {
  }

  /** Where the decoder finds another frame or none, the expected one does not stand. */
  lemma {:induction false} OtherFrame(log: seq<Pulse>, pos: nat, out: string, pulseLen: nat, more: bool, frame: string,
                                      after: nat, len: nat)
    requires pos <= |log| && Symbols(out) && |out| < MAX_FRAME_LEN
    requires if more then Symbols(frame) && pos < after <= |log| && log[pos..after] == Frame(frame, len)
             else NoFrame(log[pos..], MAX_FRAME_LEN)
    requires !more || len != pulseLen || frame != out
    ensures !(Frame(out, pulseLen) <= log[pos..])
  {
    if Frame(out, pulseLen) <= log[pos..] {
      assert StartsFrame(log[pos..], out, pulseLen);
      if more {
        assert log[pos..after] == log[pos..][..after - pos];
        FrameUnique(log[pos..], out, pulseLen, frame, len);
      }
      assert false;
    }
  }

  lemma {:induction false} RepeatedPrefix(w: string, p: nat, n: nat, m: nat)
    requires n <= m
    ensures Repeated(w, p, n) <= Repeated(w, p, m)
  {
    if n < m {
      RepeatedPrefix(w, p, n, m - 1);
    }
  }

  /**
   Decodes ten equal frames.  It succeeds exactly when a transmission of a word that
   fits the buffers stands at pos, and then returns that word and its pulse length.
   */
  method NextTransmission(log: seq<Pulse>, pos: nat, outlen: nat)
    returns (ok: bool, out: string, next: nat, pulseLen: nat)
    requires pos <= |log| && outlen <= MAX_FRAME_LEN
    ensures next <= |log|
    ensures ok ==> Symbols(out) && |out| < outlen && pos < next && log[pos..next] == Transmission(out, pulseLen)
    ensures !ok ==> NoTransmission(log[pos..], outlen)
  {
    ghost var s := log[pos..];
    ok, out, next, pulseLen := DecodeFrame(log, pos, outlen);
    if !ok {
      NoFrameNoTransmission(s, outlen);
      return;
    }
    FirstRepetition(out, pulseLen);
    ok, next := MoreFrames(log, pos, next, out, pulseLen, EXPECTED_REPEATS, outlen);
  }

  lemma {:induction false} FirstRepetition(w: string, p: nat)
    ensures Repeated(w, p, 1) == Frame(w, p)
  {
    assert Repeated(w, p, 1) == Repeated(w, p, 0) + Frame(w, p);
    assert [] + Frame(w, p) == Frame(w, p);
  }

  /** The loop of next_transmission() over the other frames, which must all be like the first. */
  method MoreFrames(log: seq<Pulse>, pos: nat, start: nat, out: string, pulseLen: nat, reps: nat, ghost outlen: nat)
    returns (ok: bool, next: nat)
    requires pos < start <= |log| && Symbols(out) && |out| < MAX_FRAME_LEN && 1 <= reps <= EXPECTED_REPEATS
    requires log[pos..start] == Repeated(out, pulseLen, 1)
    ensures next <= |log|
    ensures ok ==> pos < next && log[pos..next] == Repeated(out, pulseLen, reps)
    ensures !ok ==> NoTransmission(log[pos..], outlen)
  {
    ghost var s := log[pos..];
    next := start;
    for n := 1 to reps
      invariant pos < next <= |log| && log[pos..next] == Repeated(out, pulseLen, n)
    {
      var more, frame, after, framePulseLen := DecodeFrame(log, next, MAX_FRAME_LEN);
      SliceInSlice(log, pos, next);
      if !more || framePulseLen != pulseLen || frame != out {
        OtherFrame(log, next, out, pulseLen, more, frame, after, framePulseLen);
        MissingFrame(s, out, pulseLen, n, outlen);
        return false, if more then after else next;
      }
      SlicesJoin(log, pos, next, after);
      next := after;
    }
    return true, next;
  }

  /**
   Decodes a whole recording.  It succeeds exactly when the recording is the pulse
   train of some messages, and then returns those messages.
   */
  method DecodeLog(log: seq<Pulse>) returns (ok: bool, messages: seq<Message>)
    ensures ok ==> Decodable(messages, MAX_FRAME_LEN - 1) && Train(messages) == log
    ensures !ok ==> forall ms: seq<Message> :: Decodable(ms, MAX_FRAME_LEN - 1) ==> Train(ms) != log
  {
    messages := [];
    var pos := 0;
    while pos < |log|
      invariant pos <= |log| && Decodable(messages, MAX_FRAME_LEN - 1) && Train(messages) == log[..pos]
    {
      var found, out, next, pulseLen := NextTransmission(log, pos, MAX_FRAME_LEN);
      if !found {
        forall ms: seq<Message> | Decodable(ms, MAX_FRAME_LEN - 1)
          ensures Train(ms) != log
        {
          if Train(ms) == log {
            StuckMeansNoTrain(log, messages, ms, pos);
          }
        }
        return false, messages;
      }
      assert log[..next] == log[..pos] + log[pos..next];
      assert (messages + [Message(out, pulseLen)])[..|messages|] == messages;
      messages := messages + [Message(out, pulseLen)];
      pos := next;
    }
    assert log[..pos] == log;
    return true, messages;
  }

  lemma {:induction false} StuckMeansNoTrain(log: seq<Pulse>, done: seq<Message>, ms: seq<Message>, pos: nat)
    requires Decodable(done, MAX_FRAME_LEN - 1) && Decodable(ms, MAX_FRAME_LEN - 1)
    requires pos < |log| && Train(done) == log[..pos] && Train(ms) == log
    ensures !NoTransmission(log[pos..], MAX_FRAME_LEN)
    decreases |done|
  {
    if |ms| > 0 {
      TrainFront(ms);
    }
    assert |ms| > 0;
    var t := Transmission(ms[0].word, ms[0].pulseLen);
    if |done| == 0 {
      assert log[pos..] == log;
      assert StartsTransmission(log[pos..], ms[0].word, ms[0].pulseLen);
    } else {
      TrainFront(done);
      var d := Transmission(done[0].word, done[0].pulseLen);
      assert d == Train(done)[..|d|] == log[..|d|];
      assert t == log[..|t|];
      TransmissionUnique(log, ms[0].word, ms[0].pulseLen, done[0].word, done[0].pulseLen);
      assert log[|t|..][pos - |t|..] == log[pos..];
      assert Train(done[1..]) == log[..pos][|t|..] == log[|t|..][..pos - |t|];
      assert Train(ms[1..]) == log[|t|..];
      StuckMeansNoTrain(log[|t|..], done[1..], ms[1..], pos - |t|);
    }
  }

  /** Decoding inverts encoding over whole recordings. */
  method RoundTrip(messages: seq<Message>) returns (decoded: seq<Message>)
    requires Decodable(messages, CODEWORD_MAX_LEN)
    ensures decoded == messages
  {
    var ok;
    ok, decoded := DecodeLog(Train(messages));
    TrainInjective(decoded, messages);
  }
}
