/**
 What a byte stream means: the results that its lines give, whichever way the stream
 is cut into reads.
 */
module LineStream {
  import opened Grammar

  const MAX_LINE: nat := 128

  const TOO_LONG_LINE: Cmd := Error(TooLong, "line longer than 128 bytes")

  /** Where a connection stands between two bytes. */
  datatype LineState = Collecting(line: string) | Discarding

  const FRESH: LineState := Collecting("")

  /** A line as it is parsed: one carriage return before the newline does not count. */
  function StripCr(line: string): string {
    if |line| > 0 && line[|line| - 1] == '\r' then line[..|line| - 1] else line
  }

  ghost function LineResult(line: string): Cmd {
    if StripCr(line) == "" then Empty else LineCmd(StripCr(line))
  }

  /** One byte: the new state, and the result that the byte completes, if any. */
  ghost function Step(st: LineState, c: char): (LineState, seq<Cmd>) {
    match st
    case Discarding => (if c == '\n' then FRESH else Discarding, [])
    case Collecting(line) =>
      if c == '\n' then (FRESH, [LineResult(line)])
      else if |line| >= MAX_LINE then (Discarding, [TOO_LONG_LINE])
      else (Collecting(line + [c]), [])
  }

  /** A whole stream: the final state and every result in order. */
  ghost function Run(st: LineState, s: string): (LineState, seq<Cmd>)
    decreases |s|
  {
    if |s| == 0 then (st, [])
    else
      var (st1, now) := Step(st, s[0]);
      var (st2, later) := Run(st1, s[1..]);
      (st2, now + later)
  }

  lemma {:induction false} RunCons(st: LineState, s: string)
    requires |s| > 0
    ensures var (next, now) := Step(st, s[0]);
            Run(st, s) == (Run(next, s[1..]).0, now + Run(next, s[1..]).1)
  {
  }

  lemma {:induction false} Regroup(a: seq<Cmd>, b: seq<Cmd>, c: seq<Cmd>)
    ensures a + (b + c) == (a + b) + c
  {
  }

  /** Reading a stream in two parts is the same as reading it in one. */
  lemma {:induction false} RunSplit(st: LineState, a: string, b: string)
    ensures var (mid, first) := Run(st, a);
            var (end, second) := Run(mid, b);
            Run(st, a + b) == (end, first + second)
    decreases |a|
  {
    if |a| == 0 {
      assert a + b == b;
      assert [] + Run(st, b).1 == Run(st, b).1;
    } else {
      var st1 := Step(st, a[0]).0;
      RunSplit(st1, a[1..], b);
      assert (a + b)[1..] == a[1..] + b;
      RunCons(st, a);
      RunCons(st, a + b);
      Regroup(Step(st, a[0]).1, Run(st1, a[1..]).1, Run(Run(st1, a[1..]).0, b).1);
    }
  }

  /** Reading one more byte. */
  lemma {:induction false} RunSnoc(st: LineState, a: string, c: char)
    ensures var (mid, first) := Run(st, a);
            var (end, last) := Step(mid, c);
            Run(st, a + [c]) == (end, first + last)
            && (first == [] ==> Run(st, a + [c]) == (end, last))
            && (last == [] ==> Run(st, a + [c]) == (end, first))
  {
    RunSplit(st, a, [c]);
    var (mid, first) := Run(st, a);
    var (end, last) := Step(mid, c);
    assert [c][1..] == [];
    assert Run(mid, [c]) == (end, last + []);
    assert last + [] == last;
    assert [] + last == last;
    assert first + [] == first;
  }

  // ---------- The same, said by lines ----------

  predicate NoNewline(s: string) { '\n' !in s }

  /** The stream made of some whole lines and a rest without a newline. */
  function Assemble(lines: seq<string>, rest: string): string {
    if |lines| == 0 then rest else lines[0] + "\n" + Assemble(lines[1..], rest)
  }

  /** What a whole line gives: one result, its own or the complaint about its length. */
  ghost function WholeLine(line: string): Cmd {
    if |line| <= MAX_LINE then LineResult(line) else TOO_LONG_LINE
  }

  /** What a line gives before its newline has come. */
  function PartialLine(line: string): seq<Cmd> {
    if |line| <= MAX_LINE then [] else [TOO_LONG_LINE]
  }

  function StateAfter(rest: string): LineState {
    if |rest| <= MAX_LINE then Collecting(rest) else Discarding
  }

  ghost function WholeLines(lines: seq<string>): seq<Cmd> {
    if |lines| == 0 then [] else [WholeLine(lines[0])] + WholeLines(lines[1..])
  }

  /**
   A piece of a line: nothing up to byte 128, one complaint exactly at byte 129,
   and nothing after it.
   */
  lemma {:induction false} RunPartial(s: string)
    requires NoNewline(s)
    ensures Run(FRESH, s) == (StateAfter(s), PartialLine(s))
  {
    if |s| > 0 {
      var front, c := s[..|s| - 1], s[|s| - 1];
      assert s == front + [c];
      assert c in s && forall x :: x in front ==> x in s;
      RunPartial(front);
      RunSnoc(FRESH, front, c);
    }
  }

  lemma {:induction false} RunLine(line: string)
    requires NoNewline(line)
    ensures Run(FRESH, line + "\n") == (FRESH, [WholeLine(line)])
  {
    RunPartial(line);
    RunSnoc(FRESH, line, '\n');
    assert Step(StateAfter(line), '\n').0 == FRESH;
    assert line + "\n" == line + ['\n'];
  }

  /** A line of 128 bytes is read, and one more byte gives the complaint about the length instead. */
  lemma {:induction false} LineLimit(line: string)
    requires NoNewline(line)
    ensures Run(FRESH, line + "\n").1
         == [if |line| <= 128 then LineResult(line) else Error(TooLong, "line longer than 128 bytes")]
  {
    RunLine(line);
  }

  /** One carriage return before the newline does not count, and nothing else is dropped. */
  lemma {:induction false} CrDoesNotCount(line: string)
    requires NoNewline(line)
    ensures |line| < 128 ==> (Run(FRESH, line + "\r\n").1 == [if line == "" then Empty else LineCmd(line)])
    ensures |line| <= 128 && (line == "" || line[|line| - 1] != '\r') ==>
              Run(FRESH, line + "\n").1 == [if line == "" then Empty else LineCmd(line)]
  {
    if |line| < 128 {
      var more := line + "\r";
      assert more[..|line|] == line;
      RunLine(more);
      assert line + "\r\n" == more + "\n";
    }
    RunLine(line);
  }

  /** Every stream is some whole lines and a rest. */
  lemma {:induction false} SplitLines(s: string) returns (lines: seq<string>, rest: string)
    ensures s == Assemble(lines, rest) && NoNewline(rest)
    ensures forall i :: 0 <= i < |lines| ==> NoNewline(lines[i])
  {
    if NoNewline(s) {
      lines, rest := [], s;
    } else {
      var n := FirstNewline(s);
      var tail;
      tail, rest := SplitLines(s[n + 1..]);
      lines := [s[..n]] + tail;
      assert lines[1..] == tail;
      assert s == s[..n] + "\n" + s[n + 1..];
    }
  }

  /** And it is that in one way only. */
  lemma {:induction false} SplitIsUnique(lines: seq<string>, rest: string, lines': seq<string>, rest': string)
    requires Assemble(lines, rest) == Assemble(lines', rest') && NoNewline(rest) && NoNewline(rest')
    requires forall i :: 0 <= i < |lines| ==> NoNewline(lines[i])
    requires forall i :: 0 <= i < |lines'| ==> NoNewline(lines'[i])
    ensures lines == lines' && rest == rest'
  {
    if |lines| > 0 {
      LineEndsThere(lines, rest);
    }
    if |lines'| > 0 {
      LineEndsThere(lines', rest');
    }
    if |lines| > 0 && |lines'| > 0 {
      var s, n, n' := Assemble(lines, rest), |lines[0]|, |lines'[0]|;
      assert n == n';
      assert s[n + 1..] == Assemble(lines[1..], rest) == Assemble(lines'[1..], rest');
      SplitIsUnique(lines[1..], rest, lines'[1..], rest');
      assert lines == [lines[0]] + lines[1..] && lines' == [lines'[0]] + lines'[1..];
    }
  }

  lemma {:induction false} LineEndsThere(lines: seq<string>, rest: string)
    requires |lines| > 0
    ensures var s := Assemble(lines, rest);
            |lines[0]| < |s| && s[|lines[0]|] == '\n' && s[..|lines[0]|] == lines[0]
            && s[|lines[0]| + 1..] == Assemble(lines[1..], rest)
  {
  }

  lemma {:induction false} FirstNewline(s: string) returns (n: nat)
    requires !NoNewline(s)
    ensures n < |s| && s[n] == '\n' && NoNewline(s[..n])
  {
    n := 0;
    while s[n] != '\n'
      invariant n < |s| && NoNewline(s[..n])
      invariant exists k :: n <= k < |s| && s[k] == '\n'
      decreases |s| - n
    {
      assert s[..n + 1] == s[..n] + [s[n]];
      n := n + 1;
    }
  }

  /**
   The declarative meaning of a stream: one result for each whole line, in order, and
   one more for an unfinished line that is already too long.
   */
  lemma {:induction false} StreamMeaning(lines: seq<string>, rest: string)
    requires NoNewline(rest) && forall i :: 0 <= i < |lines| ==> NoNewline(lines[i])
    ensures Run(FRESH, Assemble(lines, rest)) == (StateAfter(rest), WholeLines(lines) + PartialLine(rest))
  {
    if |lines| == 0 {
      RunPartial(rest);
      assert WholeLines(lines) + PartialLine(rest) == PartialLine(rest);
    } else {
      RunLine(lines[0]);
      StreamMeaning(lines[1..], rest);
      RunSplit(FRESH, lines[0] + "\n", Assemble(lines[1..], rest));
      assert [WholeLine(lines[0])] + (WholeLines(lines[1..]) + PartialLine(rest))
          == WholeLines(lines) + PartialLine(rest);
    }
  }

  /** The state never holds more than the line buffer. */
  lemma {:induction false} StateBounded(st: LineState, s: string)
    requires st.Collecting? ==> |st.line| <= MAX_LINE && NoNewline(st.line)
    ensures var end := Run(st, s).0; end.Collecting? ==> |end.line| <= MAX_LINE && NoNewline(end.line)
    decreases |s|
  {
    if |s| > 0 {
      StateBounded(Step(st, s[0]).0, s[1..]);
    }
  }
}
