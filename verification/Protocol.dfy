/**
 The parser of rsswitchd: the field functions, the line parser and the connection
 state that proto_next() carries from one read to the next.
 */
module Protocol {
  import opened Text
  import opened Codewords
  import opened Grammar
  import opened LineStream

  /** The fields that fit into an array of max entries. */
  function FirstOf(fields: seq<string>, max: nat): seq<string> {
    if |fields| < max then fields else fields[..max]
  }

  /** What is left to split: nothing once the end of the line has closed a field. */
  function Remaining(line: string, start: nat): seq<string>
    requires start <= |line| + 1
  {
    if start <= |line| then Fields(line[start..]) else []
  }

  /** The split has come to byte i: found is closed, and the open field starts at start. */
  ghost predicate Splitting(line: string, i: nat, start: nat, found: seq<string>) {
    start <= i <= |line| + 1
    && (i == |line| + 1 ==> start == i)
    && (i <= |line| ==> forall k :: start <= k < i ==> line[k] != ' ')
    && found + Remaining(line, start) == Fields(line)
  }

  lemma {:induction false} StartSplit(line: string)
    ensures Splitting(line, 0, 0, [])
  {
    assert line[0..] == line && [] + Fields(line) == Fields(line);
  }

  lemma {:induction false} KeepOne(found: seq<string>, f: string, max: nat)
    ensures FirstOf(found + [f], max) == if |found| < max then FirstOf(found, max) + [f] else FirstOf(found, max)
  {
  }

  /** A space or the end closes the field that is open. */
  lemma {:induction false} FieldAt(line: string, start: nat, i: nat)
    requires start <= i <= |line| && NoSpace(line[start..i]) && (i == |line| || line[i] == ' ')
    ensures Remaining(line, start) == [line[start..i]] + Remaining(line, i + 1)
  {
    if i == |line| {
      assert line[start..i] == line[start..];
      FirstField(line[start..i], "");
    } else {
      assert line[start..] == line[start..i] + " " + line[i + 1..];
      FirstField(line[start..i], line[i + 1..]);
    }
  }

  lemma {:induction false} MoveFirst(found: seq<string>, next: string, rest: seq<string>)
    ensures found + ([next] + rest) == (found + [next]) + rest
  {
  }

  lemma {:induction false} CloseField(line: string, i: nat, start: nat, found: seq<string>)
    requires Splitting(line, i, start, found) && i <= |line| && (i == |line| || line[i] == ' ')
    ensures Splitting(line, i + 1, i + 1, found + [line[start..i]])
  {
    assert NoSpace(line[start..i]);
    FieldAt(line, start, i);
    MoveFirst(found, line[start..i], Remaining(line, i + 1));
  }

  lemma {:induction false} ExtendField(line: string, i: nat, start: nat, found: seq<string>)
    requires Splitting(line, i, start, found) && i < |line| && line[i] != ' '
    ensures Splitting(line, i + 1, start, found)
  {
  }

  /** The fields that are closed before byte i, and where the open one starts, byte by byte. */
  function SplitAt(line: string, i: nat): (r: (seq<string>, nat))
    requires i <= |line| + 1
    ensures r.1 <= i
  {
    if i == 0 then ([], 0)
    else
      var (closed, start) := SplitAt(line, i - 1);
      if i - 1 == |line| || line[i - 1] == ' ' then (closed + [line[start..i - 1]], i) else (closed, start)
  }

  lemma {:induction false} SplitAtSplits(line: string, i: nat)
    requires i <= |line| + 1
    ensures Splitting(line, i, SplitAt(line, i).1, SplitAt(line, i).0)
  {
    if i == 0 {
      StartSplit(line);
    } else {
      var (closed, start) := SplitAt(line, i - 1);
      if i - 1 == |line| || line[i - 1] == ' ' {
        assert SplitAt(line, i) == (closed + [line[start..i - 1]], i);
        SplitAtSplits(line, i - 1);
        CloseField(line, i - 1, start, closed);
      } else {
        assert SplitAt(line, i) == (closed, start);
        SplitAtSplits(line, i - 1);
        ExtendField(line, i - 1, start, closed);
      }
    }
  }

  /** Splitting byte by byte gives the fields between the spaces. */
  lemma {:induction false} SplitIsFields(line: string)
    ensures SplitAt(line, |line| + 1).0 == Fields(line)
  {
    SplitAtSplits(line, |line| + 1);
    assert SplitAt(line, |line| + 1).0 + [] == Fields(line);
  }

  /** Counts every field of the line and keeps the first max of them. */
  method SplitFields(line: string, max: nat) returns (field: seq<string>, nfields: nat)
    ensures nfields == |Fields(line)| && field == FirstOf(Fields(line), max)
  {
    var start := 0;
    field, nfields := [], 0;
    for i := 0 to |line| + 1
      invariant start == SplitAt(line, i).1
      invariant nfields == |SplitAt(line, i).0| && field == FirstOf(SplitAt(line, i).0, max)
    {
      if i == |line| || line[i] == ' ' {
        KeepOne(SplitAt(line, i).0, line[start..i], max);
        if nfields < max {
          field := field + [line[start..i]];
        }
        nfields := nfields + 1;
        start := i + 1;
      }
    }
    SplitIsFields(line);
  }

  method FieldOk(s: string) returns (ok: bool)
    ensures ok <==> Canonical(s)
  {
    if |s| == 0 {
      return false;
    }
    for i := 0 to |s|
      invariant forall k :: 0 <= k < i ==> IsDigit(s[k])
    {
      if !IsDigit(s[i]) {
        return false;
      }
    }
    if |s| > 1 && s[0] == '0' {
      return false;
    }
    return true;
  }

  /** More than ten digits are refused before strtoul() is asked. */
  method FieldToU32(s: string) returns (val: Option<nat>)
    requires Canonical(s)
    ensures val == if Value(s) <= UINT32_MAX then Some(Value(s)) else None
  {
    if |s| > 10 {
      TenDigits(s);
      return None;
    }
    var v := Value(s);
    if v > UINT32_MAX {
      return None;
    }
    return Some(v);
  }

  method ParseRaw(tristate: string, pulse: string) returns (cmd: Cmd)
    ensures cmd == if IsTristate(tristate) && Canonical(pulse)
                   then RawVerdict(tristate, Value(pulse)) else MALFORMED
  {
    if |tristate| == 0 {
      return MALFORMED;
    }
    for i := 0 to |tristate|
      invariant forall k :: 0 <= k < i ==> IsSymbol(tristate[k])
    {
      if tristate[i] != '0' && tristate[i] != '1' && tristate[i] != 'F' {
        return MALFORMED;
      }
    }
    var ok := FieldOk(pulse);
    if !ok {
      return MALFORMED;
    }
    if |tristate| > CODEWORD_MAX_LEN {
      return Error(Range, "tristate longer than 12");
    }
    var val := FieldToU32(pulse);
    if val.None? {
      return Error(Range, "pulse_len too large");
    }
    var pulseLen := val.value;
    if pulseLen < PULSE_LEN_MIN_US || pulseLen > PULSE_LEN_MAX_US {
      return Error(Range, "pulse_len " + Decimal(pulseLen) + " not in 50-2000");
    }
    return Raw(tristate, pulseLen);
  }

  const FIELD_NAMES: seq<string> := ["dev", "group", "socket", "data"]

  /** The branch of parse_line() for four fields. */
  method ParseSwitch(field: seq<string>) returns (cmd: Cmd)
    requires |field| == 4
    ensures cmd == if SwitchFields(field)
                   then Verdict(Value(field[0]), Value(field[1]), Value(field[2]), Value(field[3])) else MALFORMED
  {
    for i := 0 to 4
      invariant forall k :: 0 <= k < i ==> Canonical(field[k])
    {
      var ok := FieldOk(field[i]);
      if !ok {
        return MALFORMED;
      }
    }
    var val: seq<nat> := [];
    for i := 0 to 4
      invariant |val| == i
      invariant forall k :: 0 <= k < i ==> val[k] == Value(field[k]) && val[k] <= UINT32_MAX
    {
      var v := FieldToU32(field[i]);
      if v.None? {
        TooLargeText(i);
        return Error(Range, FIELD_NAMES[i] + " too large");
      }
      val := val + [v.value];
    }
    cmd := CheckRange(val[0], val[1], val[2], val[3]);
  }

  /** The parser gives to every line the answer that the grammar owes to it. */
  method ParseLine(line: string) returns (cmd: Cmd)
    ensures cmd == LineCmd(line)
  {
    LineCmdByFields(line);
    var field, nfields := SplitFields(line, 4);
    if nfields == 3 && field[0] == "raw" {
      cmd := ParseRaw(field[1], field[2]);
    } else if nfields != 4 {
      cmd := MALFORMED;
    } else {
      cmd := ParseSwitch(field);
    }
  }

  lemma {:induction false} LineCmdByFields(line: string)
    ensures var fs := Fields(line);
            LineCmd(line) == if SwitchFields(fs) then Verdict(Value(fs[0]), Value(fs[1]), Value(fs[2]), Value(fs[3]))
                             else if RawFields(fs) then RawVerdict(fs[1], Value(fs[2]))
                             else MALFORMED
  {
    SwitchLineByFields(line);
    RawLineByFields(line);
    var fs := Fields(line);
    if SwitchFields(fs) {
      SwitchLineVerdict(Value(fs[0]), Value(fs[1]), Value(fs[2]), Value(fs[3]));
    } else if RawFields(fs) {
      RawLineVerdict(fs[1], Value(fs[2]));
    }
  }

  /** A newline ends the line: one carriage return before it goes, the rest is parsed. */
  method FinishLine(line: string) returns (cmd: Cmd)
    ensures cmd == LineResult(line)
  {
    var lineLen := |line|;
    if lineLen > 0 && line[lineLen - 1] == '\r' {
      lineLen := lineLen - 1;
    }
    assert line[..lineLen] == StripCr(line);
    if lineLen == 0 {
      return Empty;
    }
    cmd := ParseLine(line[..lineLen]);
  }

  lemma {:induction false} TooLargeText(i: nat)
    requires i < 4
    ensures FIELD_NAMES[i] + " too large" ==
            ["dev too large", "group too large", "socket too large", "data too large"][i]
  {
    assert "dev" + " too large" == "dev too large";
    assert "group" + " too large" == "group too large";
    assert "socket" + " too large" == "socket too large";
    assert "data" + " too large" == "data too large";
  }

  lemma {:induction false} Advance(start: LineState, input: string, pos: nat, next: nat, st: LineState, st': LineState,
                                   results: seq<Cmd>)
    requires pos <= next < |input| && Run(start, input[pos..next]) == (st, [])
    requires Step(st, input[next]) == (st', results)
    ensures Run(start, input[pos..next + 1]) == (st', results)
  {
    RunSnoc(start, input[pos..next], input[next]);
    assert input[pos..next + 1] == input[pos..next] + [input[next]];
  }

  /** struct proto_conn: the line accumulator and the flag that skips a too long line. */
  class ProtoConn {
    const buf: array<char>
    var len: nat
    var discarding: bool

    ghost predicate Valid()
      reads this
    {
      buf.Length == MAX_LINE + 1 && len <= MAX_LINE && (discarding ==> len == 0)
    }

    ghost function Standing(): LineState
      reads this, buf
      requires Valid()
    {
      if discarding then Discarding else Collecting(buf[..len])
    }

    constructor ()
      ensures Valid() && fresh(buf) && Standing() == FRESH
    {
      buf := new char[MAX_LINE + 1];
      len := 0;
      discarding := false;
    }

    /** proto_init() on a connection in use. */
    method Init()
      modifies this
      requires Valid()
      ensures Valid() && Standing() == FRESH
    {
      len := 0;
      discarding := false;
    }

    /**
     Consumes input from pos on, and stops at once behind the byte that completes a
     result.  Without a result all input is consumed and the rest is in the state.
     */
    method Next(input: string, pos: nat) returns (found: bool, next: nat, cmd: Cmd)
      requires Valid() && pos <= |input|
      modifies this, buf
      ensures Valid() && pos <= next <= |input|
      ensures found ==> pos < next
      ensures found ==> Run(old(Standing()), input[pos..next]) == (Standing(), [cmd])
      ensures found ==> Run(old(Standing()), input[pos..next - 1]).1 == []
      ensures !found ==> next == |input| && Run(old(Standing()), input[pos..]) == (Standing(), [])
    {
      next := pos;
      ghost var start := Standing();
      assert input[pos..pos] == "";
      while next < |input|
        invariant Valid() && pos <= next <= |input|
        invariant Run(start, input[pos..next]) == (Standing(), [])
      {
        ghost var mid := Standing();
        found, cmd := Take(input[next]);
        Advance(start, input, pos, next, mid, Standing(), if found then [cmd] else []);
        next := next + 1;
        if found {
          return;
        }
      }
      assert input[pos..next] == input[pos..];
      return false, next, Empty;
    }

    /** The body of the loop of proto_next(), for one byte. */
    method Take(c: char) returns (found: bool, cmd: Cmd)
      requires Valid()
      modifies this, buf
      ensures Valid() && Step(old(Standing()), c) == (Standing(), if found then [cmd] else [])
    {
      found, cmd := false, Empty;
      if discarding {
        if c == '\n' {
          discarding := false;
          assert buf[..len] == "";
        }
      } else if c == '\n' {
        found := true;
        cmd := FinishLine(buf[..len]);
        len := 0;
        assert buf[..len] == "";
      } else if len >= MAX_LINE {
        len := 0;
        discarding := true;
        return true, TOO_LONG_LINE;
      } else {
        ghost var line := buf[..len];
        buf[len] := c;
        len := len + 1;
        assert buf[..len] == line + [c];
      }
    }

    /** Drains one read: the calls of proto_next() until it reports no further result. */
    method Drain(input: string) returns (results: seq<Cmd>)
      requires Valid()
      modifies this, buf
      ensures Valid()
      ensures Run(old(Standing()), input) == (Standing(), results)
    {
      results := [];
      var pos := 0;
      ghost var start := Standing();
      var found := true;
      while found
        invariant Valid() && pos <= |input|
        invariant Run(start, input[..pos]) == (Standing(), results)
        invariant !found ==> pos == |input|
        decreases |input| - pos, found
      {
        var next, cmd;
        ghost var mid := Standing();
        found, next, cmd := Next(input, pos);
        RunSplit(start, input[..pos], input[pos..next]);
        assert input[..next] == input[..pos] + input[pos..next];
        if found {
          results := results + [cmd];
        } else {
          assert input[pos..next] == input[pos..];
          assert results + [] == results;
        }
        pos := next;
      }
      assert input[..pos] == input;
    }
  }

  /**
   A connection that receives a stream in any number of reads gives the results of the
   whole stream: how the stream was cut does not show.
   */
  method ReceiveAll(chunks: seq<string>) returns (results: seq<Cmd>, end: LineState)
    ensures (end, results) == Run(FRESH, Concat(chunks))
  {
    var pc := new ProtoConn();
    results := [];
    for i := 0 to |chunks|
      invariant pc.Valid() && fresh(pc) && fresh(pc.buf)
      invariant Run(FRESH, Concat(chunks[..i])) == (pc.Standing(), results)
    {
      var more := pc.Drain(chunks[i]);
      RunSplit(FRESH, Concat(chunks[..i]), chunks[i]);
      ConcatAppend(chunks[..i], chunks[i]);
      assert chunks[..i + 1] == chunks[..i] + [chunks[i]];
      results := results + more;
    }
    assert chunks[..|chunks|] == chunks;
    end := if pc.discarding then Discarding else Collecting(pc.buf[..pc.len]);
  }
}
