/**
 The grammar of a command line, given by the lines that a client prints, and the
 answer that rsswitchd owes to each of them.
 */
module Grammar {
  import opened Text
  import opened Codewords

  datatype ErrClass = Syntax | Range | TooLong | Send

  /** The result of one command boundary, struct proto_cmd in the source. */
  datatype Cmd =
    | Empty
    | Switch(dev: nat, group: nat, socket: nat, data: nat)
    | Raw(tristate: string, pulseLen: nat)
    | Error(err: ErrClass, text: string)

  const MALFORMED: Cmd := Error(Syntax, "malformed command")

  function SwitchLine(dev: nat, group: nat, socket: nat, data: nat): string {
    Decimal(dev) + " " + Decimal(group) + " " + Decimal(socket) + " " + Decimal(data)
  }

  function RawLine(tristate: string, pulseLen: nat): string {
    "raw " + tristate + " " + Decimal(pulseLen)
  }

  ghost predicate IsSwitchLine(line: string) {
    exists d: nat, g: nat, s: nat, v: nat :: line == SwitchLine(d, g, s, v)
  }

  ghost predicate IsRawLine(line: string) {
    exists t: string, p: nat :: IsTristate(t) && line == RawLine(t, p)
  }

  /** check_range(): the first field that is out of range is named. */
  function CheckRange(dev: nat, group: nat, socket: nat, data: nat): (cmd: Cmd)
    ensures cmd == Switch(dev, group, socket, data) <==> InLimits(dev, group, socket, data)
    ensures cmd.Switch? || (cmd.Error? && cmd.err == Range)
  {
    match DevLimits(dev)
    case None => Error(Range, "dev " + Decimal(dev) + " unknown")
    case Some(limits) =>
      if group >= limits.groups then NotIn("group", group, limits.groups - 1)
      else if socket >= limits.sockets then NotIn("socket", socket, limits.sockets - 1)
      else if data >= limits.data then NotIn("data", data, limits.data - 1)
      else Switch(dev, group, socket, data)
  }

  function NotIn(name: string, value: nat, max: nat): Cmd {
    Error(Range, name + " " + Decimal(value) + " not in 0-" + Decimal(max))
  }

  /** What is owed to four numbers: conversion comes before the limits of the device. */
  function Verdict(dev: nat, group: nat, socket: nat, data: nat): (cmd: Cmd)
    ensures cmd == Switch(dev, group, socket, data) <==> InLimits(dev, group, socket, data)
    ensures cmd.Switch? || (cmd.Error? && cmd.err == Range)
  {
    if dev > UINT32_MAX then Error(Range, "dev too large")
    else if group > UINT32_MAX then Error(Range, "group too large")
    else if socket > UINT32_MAX then Error(Range, "socket too large")
    else if data > UINT32_MAX then Error(Range, "data too large")
    else CheckRange(dev, group, socket, data)
  }

  /** What is owed to a tri-state word and a number. */
  function RawVerdict(tristate: string, pulseLen: nat): (cmd: Cmd)
    ensures IsTristate(tristate) ==>
              (cmd == Raw(tristate, pulseLen) <==> SendableCodeword(tristate, pulseLen))
    ensures cmd == Raw(tristate, pulseLen) || (cmd.Error? && cmd.err == Range)
  {
    if |tristate| > CODEWORD_MAX_LEN then Error(Range, "tristate longer than 12")
    else if pulseLen > UINT32_MAX then Error(Range, "pulse_len too large")
    else if pulseLen < PULSE_LEN_MIN_US || pulseLen > PULSE_LEN_MAX_US then
      Error(Range, "pulse_len " + Decimal(pulseLen) + " not in 50-2000")
    else Raw(tristate, pulseLen)
  }

  /** The answer owed to a line: by the command it spells, or malformed when it spells none. */
  ghost function LineCmd(line: string): Cmd {
    if IsSwitchLine(line) then
      var d: nat, g: nat, s: nat, v: nat :| line == SwitchLine(d, g, s, v);
      Verdict(d, g, s, v)
    else if IsRawLine(line) then
      var t: string, p: nat :| IsTristate(t) && line == RawLine(t, p);
      RawVerdict(t, p)
    else MALFORMED
  }

  // ---------- Splitting a line at its single spaces ----------

  predicate NoSpace(s: string) { ' ' !in s }

  /** The fields between spaces; an empty field counts. */
  function Fields(line: string): (fs: seq<string>)
    ensures |fs| >= 1
  {
    var n := FieldLen(line);
    if n == |line| then [line] else [line[..n]] + Fields(line[n + 1..])
  }

  /** The length of the first field. */
  function FieldLen(line: string): (n: nat)
    ensures n <= |line| && NoSpace(line[..n]) && (n < |line| ==> line[n] == ' ')
  {
    if line == "" || line[0] == ' ' then 0
    else
      var n := FieldLen(line[1..]);
      assert line[..n + 1] == [line[0]] + line[1..][..n];
      n + 1
  }

  function Join(fs: seq<string>): string
    requires |fs| >= 1
  {
    if |fs| == 1 then fs[0] else fs[0] + " " + Join(fs[1..])
  }

  lemma {:induction false} FirstField(f: string, rest: string)
    requires NoSpace(f)
    ensures FieldLen(f) == |f|
    ensures FieldLen(f + " " + rest) == |f|
    ensures Fields(f) == [f]
    ensures Fields(f + " " + rest) == [f] + Fields(rest)
  {
    var line := f + " " + rest;
    assert forall k :: 0 <= k < |f| ==> f[k] != ' ' && line[k] == f[k];
    assert FieldLen(f) == |f|;
    var m := FieldLen(line);
    assert line[|f|] == ' ';
    assert forall k :: 0 <= k < m ==> line[k] == line[..m][k];
    assert m == |f|;
    assert line[..|f|] == f && line[|f| + 1..] == rest;
  }

  lemma {:induction false} FieldsOfJoin(fs: seq<string>)
    requires |fs| >= 1
    requires forall i :: 0 <= i < |fs| ==> NoSpace(fs[i])
    ensures Fields(Join(fs)) == fs
  {
    if |fs| == 1 {
      FirstField(fs[0], "");
    } else {
      FirstField(fs[0], Join(fs[1..]));
      FieldsOfJoin(fs[1..]);
    }
  }

  lemma {:induction false} JoinOfFields(line: string)
    ensures Join(Fields(line)) == line
    ensures forall i :: 0 <= i < |Fields(line)| ==> NoSpace(Fields(line)[i])
  {
    var n := FieldLen(line);
    if n == |line| {
      assert line[..n] == line;
    } else {
      JoinOfFields(line[n + 1..]);
      assert Fields(line)[1..] == Fields(line[n + 1..]);
      assert line == line[..n] + " " + line[n + 1..];
    }
  }

  lemma {:induction false} CanonicalHasNoSpace(s: string)
    requires Canonical(s) || IsTristate(s)
    ensures NoSpace(s)
  {
    forall i | 0 <= i < |s|
      ensures s[i] != ' '
    {
      assert IsDigit(s[i]) || IsSymbol(s[i]);
    }
  }

  /** The four fields of a switch line, and the numbers they stand for. */
  lemma {:induction false} SwitchLineFields(d: nat, g: nat, s: nat, v: nat)
    ensures Fields(SwitchLine(d, g, s, v)) == [Decimal(d), Decimal(g), Decimal(s), Decimal(v)]
  {
    var fs := [Decimal(d), Decimal(g), Decimal(s), Decimal(v)];
    DecimalIsCanonical(d); DecimalIsCanonical(g); DecimalIsCanonical(s); DecimalIsCanonical(v);
    forall i | 0 <= i < 4 ensures NoSpace(fs[i]) { CanonicalHasNoSpace(fs[i]); }
    FieldsOfJoin(fs);
    JoinOfFour(fs);
  }

  lemma {:induction false} JoinOfFour(fs: seq<string>)
    requires |fs| == 4
    ensures Join(fs) == fs[0] + " " + fs[1] + " " + fs[2] + " " + fs[3]
  {
    assert fs[1..][1..] == fs[2..] && fs[2..][1..] == fs[3..];
    assert Join(fs[3..]) == fs[3];
    assert Join(fs[2..]) == fs[2] + " " + fs[3];
    assert Join(fs[1..]) == fs[1] + " " + (fs[2] + " " + fs[3]);
    assert Join(fs) == fs[0] + " " + (fs[1] + " " + (fs[2] + " " + fs[3]));
  }

  lemma {:induction false} RawLineFields(t: string, p: nat)
    requires IsTristate(t)
    ensures Fields(RawLine(t, p)) == ["raw", t, Decimal(p)]
  {
    var fs := ["raw", t, Decimal(p)];
    DecimalIsCanonical(p);
    CanonicalHasNoSpace(t);
    CanonicalHasNoSpace(Decimal(p));
    FieldsOfJoin(fs);
    JoinOfThree(fs);
    assert "raw" + " " == "raw ";
    assert RawLine(t, p) == "raw" + " " + t + " " + Decimal(p);
  }

  lemma {:induction false} JoinOfThree(fs: seq<string>)
    requires |fs| == 3
    ensures Join(fs) == fs[0] + " " + fs[1] + " " + fs[2]
  {
    assert fs[1..][1..] == fs[2..];
    assert Join(fs[2..]) == fs[2];
    assert Join(fs) == fs[0] + " " + (fs[1] + " " + fs[2]);
  }

  predicate SwitchFields(fs: seq<string>) {
    |fs| == 4 && forall i :: 0 <= i < 4 ==> Canonical(fs[i])
  }

  predicate RawFields(fs: seq<string>) {
    |fs| == 3 && fs[0] == "raw" && IsTristate(fs[1]) && Canonical(fs[2])
  }

  /** A line spells a switch command exactly when its fields are four canonical numbers. */
  lemma {:induction false} SwitchLineByFields(line: string)
    ensures IsSwitchLine(line) <==> SwitchFields(Fields(line))
    ensures SwitchFields(Fields(line)) ==>
              var fs := Fields(line);
              line == SwitchLine(Value(fs[0]), Value(fs[1]), Value(fs[2]), Value(fs[3]))
  {
    if SwitchFields(Fields(line)) {
      SwitchFieldsSpell(line);
    }
    if IsSwitchLine(line) {
      SwitchLineHasFields(line);
    }
  }

  lemma {:induction false} SwitchLineHasFields(line: string)
    requires IsSwitchLine(line)
    ensures SwitchFields(Fields(line))
  {
    var d: nat, g: nat, s: nat, v: nat :| line == SwitchLine(d, g, s, v);
    SwitchLineFields(d, g, s, v);
    DecimalIsCanonical(d); DecimalIsCanonical(g); DecimalIsCanonical(s); DecimalIsCanonical(v);
  }

  lemma {:induction false} SwitchFieldsSpell(line: string)
    requires SwitchFields(Fields(line))
    ensures var fs := Fields(line);
            line == SwitchLine(Value(fs[0]), Value(fs[1]), Value(fs[2]), Value(fs[3]))
  {
    var fs := Fields(line);
    JoinOfFields(line);
    JoinOfFour(fs);
    CanonicalIsDecimal(fs[0]); CanonicalIsDecimal(fs[1]);
    CanonicalIsDecimal(fs[2]); CanonicalIsDecimal(fs[3]);
  }

  /** A line spells a raw command exactly when its fields are raw, a word and a number. */
  lemma {:induction false} RawLineByFields(line: string)
    ensures IsRawLine(line) <==> RawFields(Fields(line))
    ensures RawFields(Fields(line)) ==>
              line == RawLine(Fields(line)[1], Value(Fields(line)[2]))
  {
    if RawFields(Fields(line)) {
      RawFieldsSpell(line);
    }
    if IsRawLine(line) {
      var t: string, p: nat :| IsTristate(t) && line == RawLine(t, p);
      RawLineFields(t, p);
      DecimalIsCanonical(p);
    }
  }

  lemma {:induction false} RawFieldsSpell(line: string)
    requires RawFields(Fields(line))
    ensures line == RawLine(Fields(line)[1], Value(Fields(line)[2]))
  {
    var fs := Fields(line);
    JoinOfFields(line);
    JoinOfThree(fs);
    CanonicalIsDecimal(fs[2]);
    assert "raw" + " " == "raw ";
    assert "raw" + " " + fs[1] + " " + fs[2] == "raw " + fs[1] + " " + fs[2];
  }

  // ---------- The bijection between commands and accepted lines ----------

  /** The answer to a printed switch line depends on its numbers alone. */
  lemma {:induction false} SwitchLineVerdict(d: nat, g: nat, s: nat, v: nat)
    ensures LineCmd(SwitchLine(d, g, s, v)) == Verdict(d, g, s, v)
  {
    var line := SwitchLine(d, g, s, v);
    assert IsSwitchLine(line);
    var d': nat, g': nat, s': nat, v': nat :| line == SwitchLine(d', g', s', v')
      && LineCmd(line) == Verdict(d', g', s', v');
    SwitchLineFields(d, g, s, v);
    SwitchLineFields(d', g', s', v');
    DecimalInjective(d, d'); DecimalInjective(g, g'); DecimalInjective(s, s'); DecimalInjective(v, v');
  }

  /** The answer to a printed raw line depends on its word and its number alone. */
  lemma {:induction false} RawLineVerdict(t: string, p: nat)
    requires IsTristate(t)
    ensures LineCmd(RawLine(t, p)) == RawVerdict(t, p)
  {
    var line := RawLine(t, p);
    assert IsRawLine(line);
    RawLineByFields(line);
    SwitchLineByFields(line);
    var t': string, p': nat :| IsTristate(t') && line == RawLine(t', p')
      && LineCmd(line) == RawVerdict(t', p');
    RawLineFields(t, p);
    RawLineFields(t', p');
    assert t == Fields(line)[1] == t';
    DecimalInjective(p, p');
  }

  /** Each switch command has one line, and that line has no other meaning. */
  lemma {:induction false} SwitchBijection(line: string, d: nat, g: nat, s: nat, v: nat)
    ensures LineCmd(line) == Switch(d, g, s, v)
            <==> InLimits(d, g, s, v) && line == SwitchLine(d, g, s, v)
  {
    SwitchLineVerdict(d, g, s, v);
    if LineCmd(line) == Switch(d, g, s, v) {
      var d': nat, g': nat, s': nat, v': nat :| line == SwitchLine(d', g', s', v');
      SwitchLineVerdict(d', g', s', v');
    }
  }

  /** Each raw command has one line, and that line has no other meaning. */
  lemma {:induction false} RawBijection(line: string, t: string, p: nat)
    ensures LineCmd(line) == Raw(t, p) <==> SendableCodeword(t, p) && line == RawLine(t, p)
  {
    if SendableCodeword(t, p) {
      RawLineVerdict(t, p);
    }
    if LineCmd(line) == Raw(t, p) {
      var t': string, p': nat :| IsTristate(t') && line == RawLine(t', p');
      RawLineVerdict(t', p');
    }
  }

  /** A syntax error is the answer exactly to the lines that spell no command at all. */
  lemma {:induction false} SyntaxErrorIff(line: string)
    ensures LineCmd(line) == MALFORMED <==> !IsSwitchLine(line) && !IsRawLine(line)
    ensures LineCmd(line).Error? && LineCmd(line).err == Syntax ==> LineCmd(line) == MALFORMED
    ensures LineCmd(line) != Empty
  {
  }

  /**
   The order of the range errors: a field that does not convert wins over a field
   outside the limits of the device, wherever either stands in the line.
   */
  lemma {:induction false} ConversionBeforeRange(d: nat, g: nat, s: nat, v: nat)
    requires d > UINT32_MAX || g > UINT32_MAX || s > UINT32_MAX || v > UINT32_MAX
    ensures LineCmd(SwitchLine(d, g, s, v)) ==
            Error(Range, (if d > UINT32_MAX then "dev" else if g > UINT32_MAX then "group"
                          else if s > UINT32_MAX then "socket" else "data") + " too large")
  {
    SwitchLineVerdict(d, g, s, v);
    assert "dev" + " too large" == "dev too large";
    assert "group" + " too large" == "group too large";
    assert "socket" + " too large" == "socket too large";
    assert "data" + " too large" == "data too large";
  }

  /**
   The answer to the line of four numbers that convert: the first one that is out of range
   is named, with its value and its own limit.
   */
  lemma {:induction false} RangeErrorNames(d: nat, g: nat, s: nat, v: nat)
    requires d <= 4294967295 && g <= 4294967295 && s <= 4294967295 && v <= 4294967295
    ensures LineCmd(SwitchLine(d, g, s, v)) == CheckRange(d, g, s, v)
    ensures d > 1 ==> CheckRange(d, g, s, v) == Error(Range, "dev " + Decimal(d) + " unknown")
    ensures d == 0 ==> CheckRange(d, g, s, v) ==
                       if g > 3 then Error(Range, "group " + Decimal(g) + " not in 0-3")
                       else if s > 2 then Error(Range, "socket " + Decimal(s) + " not in 0-2")
                       else if v > 1 then Error(Range, "data " + Decimal(v) + " not in 0-1")
                       else Switch(0, g, s, v)
    ensures d == 1 ==> CheckRange(d, g, s, v) ==
                       if g > 31 then Error(Range, "group " + Decimal(g) + " not in 0-31")
                       else if s > 31 then Error(Range, "socket " + Decimal(s) + " not in 0-31")
                       else if v > 1 then Error(Range, "data " + Decimal(v) + " not in 0-1")
                       else Switch(1, g, s, v)
  {
    SwitchLineVerdict(d, g, s, v);
    LimitsOf();
    if d == 0 {
      RevNames(g, s, v);
    } else if d == 1 {
      PollinNames(g, s, v);
    }
  }

  lemma {:induction false} RevNames(g: nat, s: nat, v: nat)
    ensures CheckRange(0, g, s, v) ==
            if g > 3 then Error(Range, "group " + Decimal(g) + " not in 0-3")
            else if s > 2 then Error(Range, "socket " + Decimal(s) + " not in 0-2")
            else if v > 1 then Error(Range, "data " + Decimal(v) + " not in 0-1")
            else Switch(0, g, s, v)
  {
    LimitsOf();
    FirstNotIn(0, g, s, v, Limits(4, 3, 2));
    SmallNumbers();
    NotInText("group", g, 3, "3", " not in 0-3");
    NotInText("socket", s, 2, "2", " not in 0-2");
    NotInText("data", v, 1, "1", " not in 0-1");
  }

  lemma {:induction false} PollinNames(g: nat, s: nat, v: nat)
    ensures CheckRange(1, g, s, v) ==
            if g > 31 then Error(Range, "group " + Decimal(g) + " not in 0-31")
            else if s > 31 then Error(Range, "socket " + Decimal(s) + " not in 0-31")
            else if v > 1 then Error(Range, "data " + Decimal(v) + " not in 0-1")
            else Switch(1, g, s, v)
  {
    LimitsOf();
    FirstNotIn(1, g, s, v, Limits(32, 32, 2));
    SmallNumbers();
    NotInText("group", g, 31, "31", " not in 0-31");
    NotInText("socket", s, 31, "31", " not in 0-31");
    NotInText("data", v, 1, "1", " not in 0-1");
  }

  lemma {:induction false} FirstNotIn(d: nat, g: nat, s: nat, v: nat, l: Limits)
    requires DevLimits(d) == Some(l) && l.groups > 0 && l.sockets > 0 && l.data > 0
    ensures CheckRange(d, g, s, v) ==
            if g > l.groups - 1 then NotIn("group", g, l.groups - 1)
            else if s > l.sockets - 1 then NotIn("socket", s, l.sockets - 1)
            else if v > l.data - 1 then NotIn("data", v, l.data - 1)
            else Switch(d, g, s, v)
  {
  }

  lemma {:induction false} SmallNumbers()
    ensures Decimal(1) == "1" && Decimal(2) == "2" && Decimal(3) == "3" && Decimal(31) == "31"
    ensures " not in 0-" + "1" == " not in 0-1" && " not in 0-" + "2" == " not in 0-2"
    ensures " not in 0-" + "3" == " not in 0-3" && " not in 0-" + "31" == " not in 0-31"
  {
  }

  lemma {:induction false} NotInText(name: string, value: nat, max: nat, limit: string, text: string)
    requires Decimal(max) == limit && " not in 0-" + limit == text
    ensures NotIn(name, value, max) == Error(Range, name + " " + Decimal(value) + text)
  {
    assert name + " " + Decimal(value) + " not in 0-" + limit == name + " " + Decimal(value) + (" not in 0-" + limit);
  }

  /** The same for a raw command: the length of the word first, then the conversion of the number, then its limits. */
  lemma {:induction false} RawErrorNames(t: string, p: nat)
    requires IsTristate(t)
    ensures LineCmd(RawLine(t, p)) ==
            if |t| > 12 then Error(Range, "tristate longer than 12")
            else if p > 4294967295 then Error(Range, "pulse_len too large")
            else if p < 50 || p > 2000 then Error(Range, "pulse_len " + Decimal(p) + " not in 50-2000")
            else Raw(t, p)
  {
    RawLineVerdict(t, p);
  }
}
