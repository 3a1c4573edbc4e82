/**
 Recording a confirmed command: which sockets it still applies to, and which of two
 commands that were confirmed close together is kept.
 */
module Recording {
  import opened Text
  import opened Household
  import opened Changes

  /** Two seconds, in the microseconds of a stamp. */
  const RACE_WINDOW: int := 2_000_000

  /** _seconds_ahead(): zero when either is not a time that the server writes. */
  function Ahead(stored: At, at: At): int {
    match (stored, at)
    case (Stamp(a), Stamp(b)) => a - b
    case _ => 0
  }

  /** A newer time is kept only when it is newer by no more than a race explains. */
  predicate Writes(last: Option<LastSent>, at: At) {
    last.None? || !(0 < Ahead(last.value.at, at) <= RACE_WINDOW)
  }

  function SocketRecorded(s: Socket, addr: Address, on: bool, at: At): Socket {
    if s.addr == addr && Writes(s.lastSent, at) then s.(lastSent := Some(LastSent(on, at))) else s
  }

  function SocketsRecorded(ss: seq<Socket>, ids: seq<string>, addr: Address, on: bool, at: At): seq<Socket> {
    seq(|ss|, j requires 0 <= j < |ss| => if ss[j].id in ids then SocketRecorded(ss[j], addr, on, at) else ss[j])
  }

  /** The document after a command has been recorded for the sockets with the ids. */
  function DocRecorded(doc: Document, ids: seq<string>, addr: Address, on: bool, at: At): Document {
    seq(|doc|, i requires 0 <= i < |doc| =>
      doc[i].(sockets := SocketsRecorded(doc[i].sockets, ids, addr, on, at)))
  }

  /** The socket with the id exists, has the address and takes the record. */
  predicate Takes(doc: Document, sid: string, addr: Address, at: At) {
    FindSocket(doc, sid).Some?
    && var s := SocketAt(doc, FindSocket(doc, sid).value); s.addr == addr && Writes(s.lastSent, at)
  }

  /** The ids that are reported as written, in the order of the request. */
  function Written(doc: Document, ids: seq<string>, addr: Address, at: At): seq<string> {
    if |ids| == 0 then []
    else
      var last := ids[|ids| - 1];
      Written(doc, ids[..|ids| - 1], addr, at) + (if Takes(doc, last, addr, at) then [last] else [])
  }

  /** A record keeps a valid document valid and moves nothing. */
  lemma {:induction false} RecordedValid(doc: Document, ids: seq<string>, addr: Address, on: bool, at: At)
    requires Valid(doc)
    ensures Valid(DocRecorded(doc, ids, addr, on, at))
  {
    var next := DocRecorded(doc, ids, addr, on, at);
    forall i | 0 <= i < |doc|
      ensures RoomIds(next[i]) == RoomIds(doc[i]) && RoomOk(next[i])
    {
      assert RoomOk(doc[i]);
      SameSocketIds(next[i].sockets, doc[i].sockets);
    }
    SameBag(next, doc, RoomIds);
    assert Ids(next) == Ids(doc);
  }

  lemma {:induction false} RecordedNames(doc: Document, key: string -> string, ids: seq<string>, addr: Address,
                                         on: bool, at: At)
    requires NamesUnique(doc, key)
    ensures NamesUnique(DocRecorded(doc, ids, addr, on, at), key)
  {
  }

  /** Each id that is reported holds exactly the new state and time afterwards. */
  lemma {:induction false} WrittenHolds(doc: Document, ids: seq<string>, addr: Address, on: bool, at: At, sid: string)
    requires sid in Written(doc, ids, addr, at)
    ensures sid in ids && Takes(doc, sid, addr, at)
    ensures var (k, j) := FindSocket(doc, sid).value;
            SocketAt(DocRecorded(doc, ids, addr, on, at), (k, j))
                == SocketAt(doc, (k, j)).(lastSent := Some(LastSent(on, at)))
  {
    WrittenAreTaken(doc, ids, addr, at, sid);
  }

  lemma {:induction false} WrittenAreTaken(doc: Document, ids: seq<string>, addr: Address, at: At, sid: string)
    ensures sid in Written(doc, ids, addr, at) <==> sid in ids && Takes(doc, sid, addr, at)
  {
    if |ids| > 0 {
      WrittenAreTaken(doc, ids[..|ids| - 1], addr, at, sid);
      assert ids == ids[..|ids| - 1] + [ids[|ids| - 1]];
    }
  }

  /** Every socket that is not reported is left as it was. */
  lemma {:induction false} UnwrittenUnchanged(doc: Document, ids: seq<string>, addr: Address, on: bool, at: At, k: nat,
                                              j: nat)
    requires UniqueIds(doc) && k < |doc| && j < |doc[k].sockets|
    requires doc[k].sockets[j].id !in Written(doc, ids, addr, at)
    ensures SocketAt(DocRecorded(doc, ids, addr, on, at), (k, j)) == SocketAt(doc, (k, j))
  {
    var sid := doc[k].sockets[j].id;
    WrittenAreTaken(doc, ids, addr, at, sid);
    assert StandsAt(doc, k, j, sid);
    var place := FindSocket(doc, sid).value;
    OnePlace(doc, k, j, place.0, place.1, sid);
  }

  // ---------- Commands that overtake each other ----------

  /** The last_sent of a socket after commands for its address were recorded in this order. */
  function Replay(last: Option<LastSent>, cmds: seq<LastSent>): Option<LastSent> {
    if |cmds| == 0 then last
    else
      var before := Replay(last, cmds[..|cmds| - 1]);
      var c := cmds[|cmds| - 1];
      if Writes(before, c.at) then Some(c) else before
  }

  predicate AllStamps(cmds: seq<LastSent>) {
    forall i :: 0 <= i < |cmds| ==> cmds[i].at.Stamp?
  }

  /** No command is recorded after one that was confirmed more than the race window later. */
  predicate LittleOvertaken(cmds: seq<LastSent>)
    requires AllStamps(cmds)
  {
    forall i, j :: 0 <= i < j < |cmds| ==> cmds[i].at.micros - cmds[j].at.micros <= RACE_WINDOW
  }

  /** The record is one of the commands, and none has a greater time. */
  predicate IsLatest(cmds: seq<LastSent>, last: Option<LastSent>)
    requires AllStamps(cmds)
  {
    last.Some? && last.value.at.Stamp? && last.value in cmds
    && forall i :: 0 <= i < |cmds| ==> cmds[i].at.micros <= last.value.at.micros
  }

  lemma {:induction false} ReplaySnoc(last: Option<LastSent>, front: seq<LastSent>, c: LastSent)
    ensures Replay(last, front + [c]) == if Writes(Replay(last, front), c.at) then Some(c) else Replay(last, front)
  {
    assert (front + [c])[..|front|] == front;
  }

  lemma {:induction false} ReplayConcat(last: Option<LastSent>, a: seq<LastSent>, b: seq<LastSent>)
    ensures Replay(last, a + b) == Replay(Replay(last, a), b)
  {
    if |b| == 0 {
      assert a + b == a;
    } else {
      var front, c := b[..|b| - 1], b[|b| - 1];
      assert a + b == (a + front) + [c];
      ReplaySnoc(last, a + front, c);
      ReplayConcat(last, a, front);
    }
  }

  lemma {:induction false} ReplayOne(last: Option<LastSent>, c: LastSent)
    ensures Replay(last, [c]) == if Writes(last, c.at) then Some(c) else last
  {
    var none: seq<LastSent> := [];
    ReplaySnoc(last, none, c);
    assert none + [c] == [c];
  }

  /** After a first command that was written, the record is one of the commands. */
  lemma {:induction false} ReplayIsOne(last: Option<LastSent>, cmds: seq<LastSent>)
    requires |cmds| > 0 && Writes(last, cmds[0].at)
    ensures Replay(last, cmds).Some? && Replay(last, cmds).value in cmds
  {
    var front, c := cmds[..|cmds| - 1], cmds[|cmds| - 1];
    assert cmds == front + [c];
    ReplaySnoc(last, front, c);
    if |front| == 0 {
      assert front == [] && Replay(last, front) == last;
    } else {
      ReplayIsOne(last, front);
    }
  }

  /** The last of the commands with the greatest time. */
  predicate Greatest(cmds: seq<LastSent>, k: int)
    requires AllStamps(cmds)
  {
    0 <= k < |cmds|
    && (forall i :: 0 <= i < |cmds| ==> cmds[i].at.micros <= cmds[k].at.micros)
    && (forall j :: k < j < |cmds| ==> cmds[j].at.micros < cmds[k].at.micros)
  }

  lemma {:induction false} GreatestExists(cmds: seq<LastSent>) returns (k: nat)
    requires |cmds| > 0 && AllStamps(cmds)
    ensures Greatest(cmds, k)
  {
    k := 0;
    for i := 1 to |cmds|
      invariant k < i && Greatest(cmds[..i], k)
    {
      assert cmds[..i + 1] == cmds[..i] + [cmds[i]];
      if cmds[k].at.micros <= cmds[i].at.micros {
        k := i;
      }
    }
    assert cmds[..|cmds|] == cmds;
  }

  /** No older command is recorded after the latest one by more than the race window. */
  ghost predicate LatestKept(cmds: seq<LastSent>)
    requires AllStamps(cmds)
  {
    forall k, j :: Greatest(cmds, k) && k < j < |cmds| ==> cmds[k].at.micros - cmds[j].at.micros <= RACE_WINDOW
  }

  /** None of the commands is older by more than the race window. */
  predicate Near(x: LastSent, tail: seq<LastSent>)
    requires x.at.Stamp? && AllStamps(tail)
  {
    forall i :: 0 <= i < |tail| ==> x.at.micros - tail[i].at.micros <= RACE_WINDOW
  }

  lemma {:induction false} NearStep(x: LastSent, front: seq<LastSent>, c: LastSent)
    requires x.at.Stamp? && AllStamps(front) && c.at.Stamp?
    ensures Near(x, front + [c]) <==> Near(x, front) && x.at.micros - c.at.micros <= RACE_WINDOW
  {
    var tail := front + [c];
    assert tail[|front|] == c && tail[..|front|] == front;
    if Near(x, tail) {
      assert forall i :: 0 <= i < |front| ==> front[i] == tail[i];
    }
  }

  /** A record that older commands come after: it stays, or one of them takes its place for good. */
  lemma {:induction false} OlderFollow(x: LastSent, tail: seq<LastSent>)
    requires x.at.Stamp? && AllStamps(tail) && forall i :: 0 <= i < |tail| ==> tail[i].at.micros < x.at.micros
    ensures if Near(x, tail) then Replay(Some(x), tail) == Some(x)
            else Replay(Some(x), tail).Some? && Replay(Some(x), tail).value in tail
  {
    if |tail| > 0 {
      var front, c := tail[..|tail| - 1], tail[|tail| - 1];
      assert tail == front + [c];
      OlderFollow(x, front);
      ReplaySnoc(Some(x), front, c);
      NearStep(x, front, c);
    }
  }

  /**
   In the end the record is the latest command exactly when no older one was recorded
   after it by more than the race window, whatever happened before.
   */
  lemma {:induction false} LatestIff(last: Option<LastSent>, cmds: seq<LastSent>)
    requires |cmds| > 0 && AllStamps(cmds) && Writes(last, cmds[0].at)
    ensures IsLatest(cmds, Replay(last, cmds)) <==> LatestKept(cmds)
  {
    var k := GreatestExists(cmds);
    var x, tail := cmds[k], cmds[k + 1..];
    WrittenAtGreatest(last, cmds, k);
    assert cmds == cmds[..k + 1] + tail;
    ReplayConcat(last, cmds[..k + 1], tail);
    OlderFollow(x, tail);
    KeptAtGreatest(cmds, k);
    OnlyGreatestIsLatest(cmds, k, Replay(last, cmds));
  }

  /** A command behind the last of the greatest is not the latest. */
  lemma {:induction false} OnlyGreatestIsLatest(cmds: seq<LastSent>, k: nat, last: Option<LastSent>)
    requires AllStamps(cmds) && Greatest(cmds, k)
    ensures last == Some(cmds[k]) ==> IsLatest(cmds, last)
    ensures last.Some? && last.value in cmds[k + 1..] ==> !IsLatest(cmds, last)
  {
    var tail := cmds[k + 1..];
    if last.Some? && last.value in tail {
      var i :| 0 <= i < |tail| && tail[i] == last.value;
      assert cmds[k + 1 + i] == last.value;
    }
  }

  lemma {:induction false} KeptAtGreatest(cmds: seq<LastSent>, k: nat)
    requires AllStamps(cmds) && Greatest(cmds, k)
    ensures LatestKept(cmds) <==> Near(cmds[k], cmds[k + 1..])
  {
    forall m | Greatest(cmds, m)
      ensures m == k
    {
      assert cmds[m].at.micros == cmds[k].at.micros;
    }
    if j :| k < j < |cmds| && cmds[k].at.micros - cmds[j].at.micros > RACE_WINDOW {
      assert cmds[k + 1..][j - k - 1] == cmds[j];
    }
  }

  lemma {:induction false} WrittenAtGreatest(last: Option<LastSent>, cmds: seq<LastSent>, k: nat)
    requires AllStamps(cmds) && Greatest(cmds, k) && Writes(last, cmds[0].at)
    ensures Replay(last, cmds[..k + 1]) == Some(cmds[k])
  {
    assert cmds[..k + 1] == cmds[..k] + [cmds[k]];
    ReplaySnoc(last, cmds[..k], cmds[k]);
    if k == 0 {
      assert cmds[..0] == [] && Replay(last, cmds[..0]) == last;
    } else {
      ReplayIsOne(last, cmds[..k]);
    }
  }

  /**
   Whatever order they are recorded in, the command with the greatest time is the one
   that stays, as long as none is recorded more than the race window too late.
   */
  lemma {:induction false} LatestStays(last: Option<LastSent>, cmds: seq<LastSent>)
    requires |cmds| > 0 && AllStamps(cmds) && LittleOvertaken(cmds) && Writes(last, cmds[0].at)
    ensures IsLatest(cmds, Replay(last, cmds))
  {
    LatestIff(last, cmds);
  }

  /** The record is the latest command at every moment exactly when none is recorded too late. */
  lemma {:induction false} LatestAlwaysIff(cmds: seq<LastSent>)
    requires AllStamps(cmds)
    ensures LittleOvertaken(cmds) <==>
            forall n :: 0 < n <= |cmds| ==> IsLatest(cmds[..n], Replay(None, cmds[..n]))
  {
    if LittleOvertaken(cmds) {
      forall n | 0 < n <= |cmds|
        ensures IsLatest(cmds[..n], Replay(None, cmds[..n]))
      {
        LatestStays(None, cmds[..n]);
      }
    } else {
      var i, j :| 0 <= i < j < |cmds| && cmds[i].at.micros - cmds[j].at.micros > RACE_WINDOW;
      LostByOvertaking(cmds, i, j);
    }
  }

  /** A command that is recorded too late replaces a later one. */
  lemma {:induction false} LostByOvertaking(cmds: seq<LastSent>, i: nat, j: nat)
    requires AllStamps(cmds) && i < j < |cmds| && cmds[i].at.micros - cmds[j].at.micros > RACE_WINDOW
    ensures exists n :: 0 < n <= |cmds| && !IsLatest(cmds[..n], Replay(None, cmds[..n]))
  {
    assert cmds[..j + 1] == cmds[..j] + [cmds[j]];
    assert cmds[..j][i] == cmds[i] && cmds[..j + 1][i] == cmds[i];
    ReplaySnoc(None, cmds[..j], cmds[j]);
    assert !IsLatest(cmds[..j], Replay(None, cmds[..j])) || !IsLatest(cmds[..j + 1], Replay(None, cmds[..j + 1]));
  }

  /** All times lie within the race window of each other. */
  predicate WithinWindow(cmds: seq<LastSent>) {
    AllStamps(cmds)
    && forall i, j :: 0 <= i < |cmds| && 0 <= j < |cmds| ==> cmds[i].at.micros - cmds[j].at.micros <= RACE_WINDOW
  }

  /** Nothing is recorded yet, or nothing that stands in the way of these commands. */
  predicate StartsBefore(last: Option<LastSent>, cmds: seq<LastSent>) {
    last.None? || last.value.at.Foreign?
    || forall i :: 0 <= i < |cmds| && cmds[i].at.Stamp? ==> last.value.at.micros <= cmds[i].at.micros
  }

  /** With different times the outcome does not depend on the order at all. */
  lemma {:induction false} OrderDoesNotMatter(last: Option<LastSent>, c1: seq<LastSent>, c2: seq<LastSent>)
    requires |c1| > 0 && multiset(c1) == multiset(c2) && WithinWindow(c1) && StartsBefore(last, c1)
    requires forall i, j :: 0 <= i < |c1| && 0 <= j < |c1| && c1[i].at == c1[j].at ==> c1[i] == c1[j]
    ensures Replay(last, c1) == Replay(last, c2)
  {
    forall i | 0 <= i < |c2|
      ensures c2[i] in c1
    {
      assert c2[i] in multiset(c2);
    }
    assert c1[0] in multiset(c2);
    LatestStays(last, c1);
    LatestStays(last, c2);
    var a, b := Replay(last, c1).value, Replay(last, c2).value;
    assert a in multiset(c2) && b in c1;
    assert a.at.micros == b.at.micros;
  }

  /** A late record of an older command is recognised exactly up to the race window. */
  lemma {:induction false} OvertakenIff(first: LastSent, second: LastSent)
    requires first.at.Stamp? && second.at.Stamp? && first.at.micros < second.at.micros
    ensures Replay(None, [second, first]) == Some(second) <==> second.at.micros - first.at.micros <= 2_000_000
    ensures Replay(None, [second, first]) == Some(first) <==> second.at.micros - first.at.micros > 2_000_000
  {
    assert [second, first][..1] == [second] && [second][..0] == [];
    assert Replay(None, [second]) == Some(second);
  }

  /** A confirmed command as it comes to be recorded: for which sockets, and what. */
  datatype Note = Note(ids: seq<string>, cmd: LastSent)

  /** The document after commands for one address were recorded in this order. */
  function DocNoted(doc: Document, addr: Address, notes: seq<Note>): Document {
    if |notes| == 0 then doc
    else
      var last := notes[|notes| - 1];
      DocRecorded(DocNoted(doc, addr, notes[..|notes| - 1]), last.ids, addr, last.cmd.on, last.cmd.at)
  }

  function Commands(notes: seq<Note>): seq<LastSent> {
    seq(|notes|, i requires 0 <= i < |notes| => notes[i].cmd)
  }

  /** A socket that has the address all along goes through the commands one by one. */
  lemma {:induction false} NotedIsReplayed(doc: Document, addr: Address, notes: seq<Note>, k: nat, j: nat)
    requires k < |doc| && j < |doc[k].sockets| && doc[k].sockets[j].addr == addr
    requires forall i :: 0 <= i < |notes| ==> doc[k].sockets[j].id in notes[i].ids
    ensures k < |DocNoted(doc, addr, notes)| && j < |DocNoted(doc, addr, notes)[k].sockets|
    ensures DocNoted(doc, addr, notes)[k].sockets[j]
         == doc[k].sockets[j].(lastSent := Replay(doc[k].sockets[j].lastSent, Commands(notes)))
  {
    if |notes| > 0 {
      var front := notes[..|notes| - 1];
      NotedIsReplayed(doc, addr, front, k, j);
      assert Commands(notes)[..|notes| - 1] == Commands(front);
    }
  }

  /**
   In the document: of the commands for a socket the one with the greatest time stays
   exactly when no older one is recorded after it by more than the race window.
   */
  lemma {:induction false} LatestStaysInDocument(doc: Document, addr: Address, notes: seq<Note>, k: nat, j: nat)
    requires k < |doc| && j < |doc[k].sockets| && doc[k].sockets[j].addr == addr
    requires forall i :: 0 <= i < |notes| ==> doc[k].sockets[j].id in notes[i].ids
    requires |notes| > 0 && AllStamps(Commands(notes)) && Writes(doc[k].sockets[j].lastSent, notes[0].cmd.at)
    ensures k < |DocNoted(doc, addr, notes)| && j < |DocNoted(doc, addr, notes)[k].sockets|
    ensures IsLatest(Commands(notes), DocNoted(doc, addr, notes)[k].sockets[j].lastSent)
            <==> LatestKept(Commands(notes))
  {
    NotedIsReplayed(doc, addr, notes, k, j);
    LatestIff(doc[k].sockets[j].lastSent, Commands(notes));
  }
}
