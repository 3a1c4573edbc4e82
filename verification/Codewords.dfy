/**
 The tri-state codewords of the two built-in devices and the limits that their
 tables define for an address.
 */
module Codewords {
  import opened Text

  const REV_008345: nat := 0
  const POLLIN_2605: nat := 1

  const CODEWORD_MAX_LEN: nat := 12
  const PULSE_LEN_MIN_US: nat := 50
  const PULSE_LEN_MAX_US: nat := 2000
  const DEVICE_PULSE_LEN: nat := 350

  const REV_GROUPS: seq<string> := ["1FFF", "F1FF", "FF1F", "FFF1"]
  const REV_SOCKETS: seq<string> := ["1FF0", "F1F0", "FF10"]
  const REV_DATA: seq<string> := ["0001", "0010"]

  const POLLIN_PARTS: seq<string> := [
    "FFFFF", "0FFFF", "F0FFF", "00FFF",
    "FF0FF", "0F0FF", "F00FF", "000FF",
    "FFF0F", "0FF0F", "F0F0F", "00F0F",
    "FF00F", "0F00F", "F000F", "0000F",
    "FFFF0", "0FFF0", "F0FF0", "00FF0",
    "FF0F0", "0F0F0", "F00F0", "000F0",
    "FFF00", "0FF00", "F0F00", "00F00",
    "FF000", "0F000", "F0000", "00000"]
  const POLLIN_DATA: seq<string> := ["F0", "0F"]

  datatype Limits = Limits(groups: nat, sockets: nat, data: nat)

  function DevLimits(dev: nat): Option<Limits> {
    if dev == REV_008345 then Some(Limits(|REV_GROUPS|, |REV_SOCKETS|, |REV_DATA|))
    else if dev == POLLIN_2605 then Some(Limits(|POLLIN_PARTS|, |POLLIN_PARTS|, |POLLIN_DATA|))
    else None
  }

  predicate InLimits(dev: nat, group: nat, socket: nat, data: nat) {
    DevLimits(dev).Some? &&
    var l := DevLimits(dev).value;
    group < l.groups && socket < l.sockets && data < l.data
  }

  predicate IsSymbol(c: char) { c == '0' || c == '1' || c == 'F' }

  /** What tristate_check() accepts. */
  predicate IsTristate(s: string) {
    |s| > 0 && forall i :: 0 <= i < |s| ==> IsSymbol(s[i])
  }

  /** What socket_send_codeword() accepts. */
  predicate SendableCodeword(tristate: string, pulseLen: nat) {
    IsTristate(tristate) && |tristate| <= CODEWORD_MAX_LEN
    && PULSE_LEN_MIN_US <= pulseLen <= PULSE_LEN_MAX_US
  }

  /** The codeword that socket_ctrl() assembles from its three parts. */
  function Codeword(dev: nat, group: nat, socket: nat, data: nat): string
    requires InLimits(dev, group, socket, data)
  {
    if dev == REV_008345 then REV_GROUPS[group] + REV_SOCKETS[socket] + REV_DATA[data]
    else POLLIN_PARTS[group] + POLLIN_PARTS[socket] + POLLIN_DATA[data]
  }

  lemma {:induction false} PollinPart(i: nat)
    requires i < 32
    ensures |POLLIN_PARTS[i]| == 5
    ensures forall k :: 0 <= k < 5 ==> POLLIN_PARTS[i][k] in {'0', 'F'}
    ensures i == PartIndex(POLLIN_PARTS[i])
  {
  }

  /** Reads a part back: symbol k is '0' exactly when bit k of the index is set. */
  function PartIndex(part: string): nat
    requires |part| == 5
  {
    Bit(part[0]) + 2 * Bit(part[1]) + 4 * Bit(part[2]) + 8 * Bit(part[3]) + 16 * Bit(part[4])
  }

  function Bit(c: char): nat { if c == '0' then 1 else 0 }

  lemma {:induction false} CodewordIsSendable(dev: nat, group: nat, socket: nat, data: nat)
    requires InLimits(dev, group, socket, data)
    ensures |Codeword(dev, group, socket, data)| == CODEWORD_MAX_LEN
    ensures SendableCodeword(Codeword(dev, group, socket, data), DEVICE_PULSE_LEN)
  {
    if dev != REV_008345 {
      PollinPart(group);
      PollinPart(socket);
    }
  }

  lemma {:induction false} LimitsOf()
    ensures DevLimits(0) == Some(Limits(4, 3, 2)) && DevLimits(1) == Some(Limits(32, 32, 2))
    ensures forall dev :: dev > 1 ==> DevLimits(dev) == None
  {
  }

  /** The addresses of the two devices. */
  lemma {:induction false} LimitsAre(dev: nat, group: nat, socket: nat, data: nat)
    ensures InLimits(dev, group, socket, data) <==>
            ((dev == 0 && group < 4 && socket < 3) || (dev == 1 && group < 32 && socket < 32)) && data < 2
  {
  }

  /** A REV codeword, symbol by symbol: the one '1' of each part stands at its index; on is "0010", off "0001". */
  lemma {:induction false} RevSymbols(group: nat, socket: nat, data: nat)
    requires group < 4 && socket < 3 && data < 2
    ensures InLimits(0, group, socket, data)
    ensures var c := Codeword(0, group, socket, data);
            |c| == 12
            && (forall k :: 0 <= k < 4 ==> c[k] == if k == group then '1' else 'F')
            && (forall k :: 4 <= k < 7 ==> c[k] == if k - 4 == socket then '1' else 'F')
            && c[7] == '0' && c[8..] == if data == 1 then "0010" else "0001"
  {
    var c := Codeword(0, group, socket, data);
    assert forall k :: 0 <= k < 4 ==> c[k] == REV_GROUPS[group][k];
    assert forall k :: 4 <= k < 8 ==> c[k] == REV_SOCKETS[socket][k - 4];
    assert c[8..] == REV_DATA[data];
  }

  /** Bit k of an index below 32. */
  function BitAt(n: nat, k: nat): nat
    requires k < 5
  {
    (n / (if k == 0 then 1 else if k == 1 then 2 else if k == 2 then 4 else if k == 3 then 8 else 16)) % 2
  }

  /** A Pollin codeword: '0' for a bit of the group and of the socket that is set; on is "0F", off "F0". */
  lemma {:induction false} PollinSymbols(group: nat, socket: nat, data: nat)
    requires group < 32 && socket < 32 && data < 2
    ensures InLimits(1, group, socket, data)
    ensures var c := Codeword(1, group, socket, data);
            |c| == 12
            && (forall k :: 0 <= k < 5 ==> c[k] == if BitAt(group, k) == 1 then '0' else 'F')
            && (forall k :: 5 <= k < 10 ==> c[k] == if BitAt(socket, k - 5) == 1 then '0' else 'F')
            && c[10..] == if data == 1 then "0F" else "F0"
  {
    var c := Codeword(1, group, socket, data);
    PollinPart(group);
    PollinPart(socket);
    PartBits(group);
    PartBits(socket);
    assert c[..5] == POLLIN_PARTS[group] && c[5..10] == POLLIN_PARTS[socket] && c[10..] == POLLIN_DATA[data];
    forall k | 0 <= k < 5
      ensures c[k] == POLLIN_PARTS[group][k]
    {
      assert c[..5][k] == c[k];
    }
    forall k | 5 <= k < 10
      ensures c[k] == POLLIN_PARTS[socket][k - 5]
    {
      assert c[5..10][k - 5] == c[k];
    }
  }

  lemma {:induction false} PartBits(i: nat)
    requires i < 32
    ensures |POLLIN_PARTS[i]| == 5
    ensures forall k :: 0 <= k < 5 ==> POLLIN_PARTS[i][k] == if BitAt(i, k) == 1 then '0' else 'F'
  {
    PollinPart(i);
    var part := POLLIN_PARTS[i];
    BitsOf(Bit(part[0]), Bit(part[1]), Bit(part[2]), Bit(part[3]), Bit(part[4]));
  }

  lemma {:induction false} BitsOf(a: nat, b: nat, c: nat, d: nat, e: nat)
    requires a <= 1 && b <= 1 && c <= 1 && d <= 1 && e <= 1
    ensures var n := a + 2 * b + 4 * c + 8 * d + 16 * e;
            BitAt(n, 0) == a && BitAt(n, 1) == b && BitAt(n, 2) == c && BitAt(n, 3) == d && BitAt(n, 4) == e
  {
  }

  /** Only a REV codeword holds a '1', and it always does. */
  lemma {:induction false} OnlyRevHasOne(dev: nat, group: nat, socket: nat, data: nat)
    requires InLimits(dev, group, socket, data)
    ensures '1' in Codeword(dev, group, socket, data) <==> dev == REV_008345
  {
    var c := Codeword(dev, group, socket, data);
    if dev == REV_008345 {
      assert c[group] == '1';
    } else {
      PollinPart(group);
      PollinPart(socket);
      forall k | 0 <= k < |c|
        ensures c[k] != '1'
      {
        if 5 <= k < 10 {
          assert c[k] == POLLIN_PARTS[socket][k - 5];
        }
      }
    }
  }

  lemma {:induction false} RevInjective(g1: nat, s1: nat, v1: nat, g2: nat, s2: nat, v2: nat)
    requires InLimits(REV_008345, g1, s1, v1) && InLimits(REV_008345, g2, s2, v2)
    requires Codeword(REV_008345, g1, s1, v1) == Codeword(REV_008345, g2, s2, v2)
    ensures g1 == g2 && s1 == s2 && v1 == v2
  {
    var c1, c2 := Codeword(REV_008345, g1, s1, v1), Codeword(REV_008345, g2, s2, v2);
    assert c1[g1] == REV_GROUPS[g1][g1] && c2[g1] == REV_GROUPS[g2][g1];
    assert c1[4 + s1] == REV_SOCKETS[s1][s1] && c2[4 + s1] == REV_SOCKETS[s2][s1];
    assert c1[10] == REV_DATA[v1][2] && c2[10] == REV_DATA[v2][2];
  }

  lemma {:induction false} PollinInjective(g1: nat, s1: nat, v1: nat, g2: nat, s2: nat, v2: nat)
    requires InLimits(POLLIN_2605, g1, s1, v1) && InLimits(POLLIN_2605, g2, s2, v2)
    requires Codeword(POLLIN_2605, g1, s1, v1) == Codeword(POLLIN_2605, g2, s2, v2)
    ensures g1 == g2 && s1 == s2 && v1 == v2
  {
    PollinPart(g1); PollinPart(g2); PollinPart(s1); PollinPart(s2);
    var c1, c2 := Codeword(POLLIN_2605, g1, s1, v1), Codeword(POLLIN_2605, g2, s2, v2);
    assert c1[..5] == POLLIN_PARTS[g1] && c2[..5] == POLLIN_PARTS[g2];
    assert c1[5..10] == POLLIN_PARTS[s1] && c2[5..10] == POLLIN_PARTS[s2];
    assert c1[10] == POLLIN_DATA[v1][0] && c2[10] == POLLIN_DATA[v2][0];
  }

  /** No two addresses share a codeword, so the receiver that reacts is the one named. */
  lemma {:induction false} CodewordInjective(d1: nat, g1: nat, s1: nat, v1: nat, d2: nat, g2: nat, s2: nat, v2: nat)
    requires InLimits(d1, g1, s1, v1) && InLimits(d2, g2, s2, v2)
    requires Codeword(d1, g1, s1, v1) == Codeword(d2, g2, s2, v2)
    ensures d1 == d2 && g1 == g2 && s1 == s2 && v1 == v2
  {
    OnlyRevHasOne(d1, g1, s1, v1);
    OnlyRevHasOne(d2, g2, s2, v2);
    if d1 == REV_008345 {
      RevInjective(g1, s1, v1, g2, s2, v2);
    } else {
      PollinInjective(g1, s1, v1, g2, s2, v2);
    }
  }
}
