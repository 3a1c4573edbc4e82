/**
 Switching one socket and switching all of them off.  The store is not locked while the
 daemon is talked to, so the document may be another one when a command is recorded.
 */
module Switching {
  import opened Text
  import opened Household
  import opened Changes
  import opened Recording
  import C = Client
  import G = Grammar
  import L = LineStream
  import S = Store

  /**
   What happens around one command: how the connection and the reply go, what the client
   makes of that, the document that other requests have left when the command is
   recorded, the time of the confirmation, and what the lock and the disk do then.
   */
  datatype Turn = Turn(connect: C.Connect, script: seq<C.Recv>, answer: C.Outcome, found: Document, at: At, lock: bool,
                       write: S.Disk)

  /** The answer is what the client makes of the connection and of the reply. */
  predicate ReplyOk(connect: C.Connect, script: seq<C.Recv>, answer: C.Outcome) {
    answer == C.AnswerOf(connect, script)
    && forall i :: 0 <= i < |script| && script[i].Chunk? ==> |script[i].data| <= C.MAX_REPLY
  }

  ghost predicate TurnOk(t: Turn) { ReplyOk(t.connect, t.script, t.answer) && Valid(t.found) }

  ghost predicate TurnsOk(turns: nat -> Turn) {
    forall i {:trigger TurnOk(turns(i))} :: TurnOk(turns(i))
  }

  /** The ids that a turn reports as recorded: none when the store fails. */
  function Noted(t: Turn, ids: seq<string>, addr: Address, on: bool): seq<string> {
    if t.lock && (DocRecorded(t.found, ids, addr, on, t.at) == t.found || t.write.Replaces?)
    then Written(t.found, ids, addr, t.at)
    else []
  }

  /** The document after a record that the lock or the disk may stop. */
  function Stored(doc: Document, ids: seq<string>, addr: Address, on: bool, at: At, lock: bool,
                  write: S.Disk): Document {
    if lock && !write.Refuses? then DocRecorded(doc, ids, addr, on, at) else doc
  }

  /** The document after the record of a turn. */
  function Left(t: Turn, ids: seq<string>, addr: Address, on: bool): Document {
    Stored(t.found, ids, addr, on, t.at, t.lock, t.write)
  }

  lemma {:induction false} LeftIsValid(t: Turn, ids: seq<string>, addr: Address, on: bool)
    requires Valid(t.found)
    ensures Valid(Left(t, ids, addr, on))
  {
    RecordedValid(t.found, ids, addr, on, t.at);
  }

  /** An id that is reported as recorded holds exactly that state and time in the document. */
  lemma {:induction false} NotedIsStored(t: Turn, ids: seq<string>, addr: Address, on: bool, sid: string)
    requires sid in Noted(t, ids, addr, on)
    ensures sid in ids && FindSocket(t.found, sid).Some?
    ensures var (k, j) := FindSocket(t.found, sid).value;
            StandsAt(Left(t, ids, addr, on), k, j, sid)
            && var s := SocketAt(Left(t, ids, addr, on), (k, j));
               s.addr == addr && s.lastSent == Some(LastSent(on, t.at))
  {
    WrittenHolds(t.found, ids, addr, on, t.at, sid);
  }

  /**
   The other direction fails, for a socket that still has the address, exactly when the
   change is in the file but its directory could not be synced, or when nothing was written
   because of the lock or the disk and the socket held the very same state and time before.
   */
  lemma {:induction false} StoredButNotNoted(t: Turn, ids: seq<string>, addr: Address, on: bool, sid: string)
    requires sid in ids && FindSocket(t.found, sid).Some?
    requires SocketAt(t.found, FindSocket(t.found, sid).value).addr == addr
    ensures var place, last := FindSocket(t.found, sid).value, Some(LastSent(on, t.at));
            var before := SocketAt(t.found, place).lastSent;
            StandsAt(Left(t, ids, addr, on), place.0, place.1, sid)
            && (SocketAt(Left(t, ids, addr, on), place).lastSent == last && sid !in Noted(t, ids, addr, on)
                <==> if !t.lock then before == last
                     else Writes(before, t.at) && DocRecorded(t.found, ids, addr, on, t.at) != t.found
                          && (t.write.Unsynced? || (t.write.Refuses? && before == last)))
  {
    WrittenAreTaken(t.found, ids, addr, t.at, sid);
    if Takes(t.found, sid, addr, t.at) {
      WrittenHolds(t.found, ids, addr, on, t.at, sid);
    }
  }

  /**
   A confirmed command is in the file as soon as the lock and the disk allow it, for each
   socket of its own that still has the address and shows no command that was confirmed up
   to two seconds later; and then it is reported, unless the directory could not be synced.
   */
  lemma {:induction false} RecordHappens(t: Turn, ids: seq<string>, addr: Address, on: bool, k: nat, j: nat)
    requires Valid(t.found) && k < |t.found| && j < |t.found[k].sockets|
    ensures var s := t.found[k].sockets[j];
            var later := match s.lastSent
                         case Some(LastSent(_, Stamp(a))) => t.at.Stamp? && 0 < a - t.at.micros <= 2_000_000
                         case _ => false;
            var takes := s.id in ids && s.addr.kind == addr.kind && s.addr.group == addr.group
                         && s.addr.number == addr.number && !later;
            StandsAt(Left(t, ids, addr, on), k, j, s.id)
            && Left(t, ids, addr, on)[k].sockets[j]
               == (if takes && t.lock && !t.write.Refuses?
                   then Socket(s.id, s.name, s.addr, Some(LastSent(on, t.at))) else s)
            && (takes && t.lock && t.write.Replaces? ==> s.id in Noted(t, ids, addr, on))
            && (s.id in Noted(t, ids, addr, on) ==> takes)
  {
    var sid := t.found[k].sockets[j].id;
    assert StandsAt(t.found, k, j, sid);
    var place := FindSocket(t.found, sid).value;
    OnePlace(t.found, k, j, place.0, place.1, sid);
    WrittenAreTaken(t.found, ids, addr, t.at, sid);
  }

  /** Such a case: the only socket is switched on, and the directory of the data file cannot be synced. */
  lemma {:induction false} RecordedUnsynced() returns (t: Turn, addr: Address)
    ensures Valid(t.found) && t.lock && t.write.Unsynced? && t.answer == C.Success && AddressOk(addr)
    ensures Noted(t, ["s"], addr, true) == []
    ensures |Left(t, ["s"], addr, true)| == 1 && |Left(t, ["s"], addr, true)[0].sockets| == 1
    ensures t.found[0].sockets[0].lastSent == None
    ensures Left(t, ["s"], addr, true)[0].sockets[0].lastSent == Some(LastSent(true, t.at))
  {
    addr := Address(Rev008345, 0, 0);
    var sock := Socket("s", "lamp", addr, None);
    var room := Room("r", "hall", [sock]);
    t := Turn(C.Connected, [C.Chunk("OK\n")], C.Success, [room], Stamp(0), true, S.Unsynced);
    OneSocketValid(room, sock);
    var next := DocRecorded(t.found, ["s"], addr, true, t.at);
    assert next[0].sockets[0].lastSent == Some(LastSent(true, t.at));
  }

  lemma {:induction false} OneSocketValid(room: Room, sock: Socket)
    requires room.sockets == [sock] && RoomOk(room) && room.id != sock.id
    ensures Valid([room])
  {
    var none: seq<Socket> := [];
    SocketIdsAppend(none, sock);
    assert none + [sock] == room.sockets;
    OneRoomIds(room);
    assert RoomIds(room) == multiset{room.id} + multiset{sock.id};
  }

  /** _record(): a store that fails does not fail the command. */
  method Record(store: S.Store, t: Turn, ids: seq<string>, addr: Address, on: bool) returns (written: seq<string>)
    requires TurnOk(t)
    modifies store
    ensures written == Noted(t, ids, addr, on) && store.doc == Left(t, ids, addr, on)
  {
    store.doc := t.found;
    var r;
    r, written := store.RecordLastSent(ids, addr, on, t.at, t.lock, t.write);
  }

  /** The part of the line for an address that is written. */
  function CommandLine(connect: C.Connect, addr: Address, data: nat): string {
    if !AddressOk(addr) then ""
    else C.LinePart(connect, G.SwitchLine(TypeOf(addr.kind).dev, addr.group, addr.number, data) + "\n")
  }

  /** The number of a device in a line. */
  function DevNumber(kind: Kind): nat { if kind.Rev008345? then 0 else 1 }

  /**
   The daemon takes the line for the command that switches this address, and for no other
   command when only a part of it was written.
   */
  ghost predicate Asks(line: string, addr: Address, data: nat, whole: bool)
    requires AddressOk(addr)
  {
    var cmd := G.Switch(DevNumber(addr.kind), addr.group, addr.number, data);
    L.Run(L.FRESH, line).1 <= [cmd] && (whole ==> L.Run(L.FRESH, line) == (L.FRESH, [cmd]))
  }

  lemma {:induction false} LineAsks(connect: C.Connect, addr: Address, data: nat)
    requires AddressOk(addr) && data <= 1
    ensures Asks(CommandLine(connect, addr, data), addr, data, connect == C.Connected)
  {
    var dev := DevNumber(addr.kind);
    LimitsAgree(addr, data);
    C.PrintedLineResult(dev, addr.group, addr.number, data);
    C.FrontOfLine(dev, addr.group, addr.number, data, CommandLine(connect, addr, data));
  }

  /** client.send() for a stored address. */
  method Command(t: Turn, addr: Address, data: int) returns (line: string, answer: C.Outcome)
    requires TurnOk(t) && AddressOk(addr) && 0 <= data <= 1
    ensures answer == t.answer
    ensures line == CommandLine(t.connect, addr, data)
  {
    line, answer := C.SendCommand(TypeOf(addr.kind).dev, addr.group, addr.number, data, t.connect, t.script);
  }

  // ---------- One socket ----------

  datatype Switched =
    | SwitchOk(recorded: bool, now: Option<(string, Socket)>)
    | SocketNotFound
    | SwitchFailed(error: C.Outcome)
    | SwitchUnreadable

  /** _socket_now(): the room id and the socket, unless it is gone or the file cannot be read. */
  function SocketNow(doc: Document, readable: bool, sid: string): Option<(string, Socket)> {
    var place := FindSocket(doc, sid);
    if !readable || place.None? then None else Some((doc[place.value.0].id, SocketAt(doc, place.value)))
  }

  /** What the answer shows is the socket with that id in the document that was read, and the room that it is in. */
  lemma {:induction false} SocketNowShows(doc: Document, readable: bool, sid: string, k: nat, j: nat)
    requires Valid(doc)
    ensures readable && StandsAt(doc, k, j, sid) ==>
              SocketNow(doc, readable, sid) == Some((doc[k].id, doc[k].sockets[j]))
    ensures SocketNow(doc, readable, sid).Some? ==>
              readable && exists k: nat, j: nat :: StandsAt(doc, k, j, sid)
  {
    if StandsAt(doc, k, j, sid) {
      var place := FindSocket(doc, sid).value;
      OnePlace(doc, k, j, place.0, place.1, sid);
    }
  }

  /**
   switch_socket(): the command goes to the address that the socket had at the start;
   only a confirmed one is recorded, and last is the document that is read at the end.
   */
  method SwitchSocket(store: S.Store, sid: string, on: bool, readable: bool, t: Turn, last: Document,
                      readableLast: bool)
    returns (r: Switched, line: string)
    requires store.Ok() && TurnOk(t) && Valid(last)
    modifies store
    ensures store.Ok()
    ensures !readable ==> r == SwitchUnreadable
    ensures readable && FindSocket(old(store.doc), sid).None? ==> r == SocketNotFound
    ensures !readable || FindSocket(old(store.doc), sid).None? ==> line == "" && store.doc == old(store.doc)
    ensures readable && FindSocket(old(store.doc), sid).Some? ==>
              (var addr := SocketAt(old(store.doc), FindSocket(old(store.doc), sid).value).addr;
               AddressOk(addr) && Asks(line, addr, if on then 1 else 0, t.connect == C.Connected)
               && line == CommandLine(t.connect, addr, if on then 1 else 0)
               && if t.answer == C.Success
                  then r == SwitchOk(Noted(t, [sid], addr, on) != [], SocketNow(last, readableLast, sid))
                       && store.doc == Left(t, [sid], addr, on)
                  else r == SwitchFailed(t.answer) && store.doc == old(store.doc))
  {
    line := "";
    if !readable { return SwitchUnreadable, line; }
    var place := FindSocket(store.doc, sid);
    if place.None? { return SocketNotFound, line; }
    var addr := SocketAt(store.doc, place.value).addr;
    assert RoomOk(store.doc[place.value.0]);
    var answer;
    line, answer := Command(t, addr, if on then 1 else 0);
    LineAsks(t.connect, addr, if on then 1 else 0);
    if answer != C.Success { return SwitchFailed(answer), line; }
    var written := Record(store, t, [sid], addr, on);
    LeftIsValid(t, [sid], addr, on);
    r := SwitchOk(written != [], SocketNow(last, readableLast, sid));
  }

  /** The one id is reported as recorded exactly when the socket is still there to take it. */
  lemma {:induction false} SwitchRecordedIff(t: Turn, sid: string, addr: Address, on: bool)
    ensures Noted(t, [sid], addr, on) != [] <==>
            t.lock && Takes(t.found, sid, addr, t.at)
            && (DocRecorded(t.found, [sid], addr, on, t.at) == t.found || t.write.Replaces?)
  {
    assert [sid][..0] == [] && [sid][0] == sid;
    assert Written(t.found, [sid], addr, t.at)
        == Written(t.found, [], addr, t.at) + (if Takes(t.found, sid, addr, t.at) then [sid] else []);
  }

  // ---------- The sockets of a batch, and their addresses ----------

  datatype Listed = Listed(room: string, sock: Socket)

  function RoomListing(r: Room): seq<Listed> {
    seq(|r.sockets|, j requires 0 <= j < |r.sockets| => Listed(r.id, r.sockets[j]))
  }

  /** Every socket in display order. */
  function Listing(rooms: seq<Room>): seq<Listed> {
    if |rooms| == 0 then [] else Listing(rooms[..|rooms| - 1]) + RoomListing(rooms[|rooms| - 1])
  }

  method CollectSockets(rooms: seq<Room>) returns (ls: seq<Listed>)
    ensures ls == Listing(rooms)
  {
    ls := [];
    for i := 0 to |rooms|
      invariant ls == Listing(rooms[..i])
    {
      assert rooms[..i + 1][..i] == rooms[..i];
      assert RoomListing(rooms[i])[..0] == [];
      for j := 0 to |rooms[i].sockets|
        invariant ls == Listing(rooms[..i]) + RoomListing(rooms[i])[..j]
      {
        ls := ls + [Listed(rooms[i].id, rooms[i].sockets[j])];
      }
      assert RoomListing(rooms[i])[..|rooms[i].sockets|] == RoomListing(rooms[i]);
    }
    assert rooms[..|rooms|] == rooms;
  }

  ghost predicate ListingOk(ls: seq<Listed>) {
    (forall p :: 0 <= p < |ls| ==> AddressOk(ls[p].sock.addr))
    && forall p, q :: 0 <= p < q < |ls| ==> ls[p].sock.id != ls[q].sock.id
  }

  lemma {:induction false} ListedIds(rooms: seq<Room>, p: nat)
    requires p < |Listing(rooms)|
    ensures Listing(rooms)[p].sock.id in Ids(rooms)
  {
    var front, last := rooms[..|rooms| - 1], rooms[|rooms| - 1];
    if p < |Listing(front)| {
      ListedIds(front, p);
    } else {
      SocketIdIn(last.sockets, p - |Listing(front)|);
    }
  }

  lemma {:induction false} ListedApart(rooms: seq<Room>, p: nat, j: nat)
    requires |rooms| > 0 && UniqueIds(rooms)
    requires p < |Listing(rooms[..|rooms| - 1])| && j < |rooms[|rooms| - 1].sockets|
    ensures Listing(rooms[..|rooms| - 1])[p].sock.id != rooms[|rooms| - 1].sockets[j].id
  {
    var front, last := rooms[..|rooms| - 1], rooms[|rooms| - 1];
    ListedIds(front, p);
    SocketIdIn(last.sockets, j);
    var id := last.sockets[j].id;
    assert Ids(rooms) == Ids(front) + RoomIds(last);
    assert RoomIds(last)[id] >= 1 && Ids(rooms)[id] <= 1;
  }

  lemma {:induction false} FrontValid(rooms: seq<Room>)
    requires |rooms| > 0 && Valid(rooms)
    ensures Valid(rooms[..|rooms| - 1]) && RoomOk(rooms[|rooms| - 1])
  {
    var front := rooms[..|rooms| - 1];
    assert forall id :: Ids(front)[id] <= Ids(rooms)[id];
  }

  lemma {:induction false} OneRoomIds(r: Room)
    ensures Ids([r]) == RoomIds(r)
  {
    var none: Document := [];
    BagAppend(none, r, RoomIds);
    assert none + [r] == [r];
  }

  lemma {:induction false} SingleRoomValid(doc: Document, k: nat)
    requires Valid(doc) && k < |doc|
    ensures Valid([doc[k]])
  {
    RoomBagIn(doc, RoomIds, k);
    OneRoomIds(doc[k]);
    assert RoomOk(doc[k]);
    forall id
      ensures Ids([doc[k]])[id] <= 1
    {
      assert RoomIds(doc[k])[id] <= Ids(doc)[id];
    }
  }

  /** In a valid document no id is listed twice. */
  lemma {:induction false} ListingIsOk(rooms: seq<Room>)
    requires Valid(rooms)
    ensures ListingOk(Listing(rooms))
  {
    if |rooms| > 0 {
      var front, last := rooms[..|rooms| - 1], rooms[|rooms| - 1];
      FrontValid(rooms);
      ListingIsOk(front);
      var ls, n := Listing(rooms), |Listing(front)|;
      forall p, q | 0 <= p < q < |ls|
        ensures ls[p].sock.id != ls[q].sock.id
      {
        if p < n <= q {
          ListedApart(rooms, p, q - n);
        } else if n <= p {
          SocketsApart(rooms, |rooms| - 1, p - n, q - n);
        }
      }
    }
  }

  /** The distinct addresses in the order in which they are first seen. */
  function Addresses(ls: seq<Listed>): seq<Address> {
    if |ls| == 0 then []
    else
      var before := Addresses(ls[..|ls| - 1]);
      if ls[|ls| - 1].sock.addr in before then before else before + [ls[|ls| - 1].sock.addr]
  }

  /** The ids of the sockets with an address, in display order. */
  function Members(ls: seq<Listed>, a: Address): seq<string> {
    if |ls| == 0 then []
    else Members(ls[..|ls| - 1], a) + if ls[|ls| - 1].sock.addr == a then [ls[|ls| - 1].sock.id] else []
  }

  /** No address twice, exactly those of the sockets, and ordered by their first sockets. */
  lemma {:induction false} AddressesAreFirstSeen(ls: seq<Listed>)
    ensures Distinct(Addresses(ls))
    ensures forall a :: a in Addresses(ls) <==> exists p :: 0 <= p < |ls| && ls[p].sock.addr == a
  {
    if |ls| > 0 {
      var front, a := ls[..|ls| - 1], ls[|ls| - 1].sock.addr;
      AddressesAreFirstSeen(front);
      forall x
        ensures x in Addresses(ls) <==> exists p :: 0 <= p < |ls| && ls[p].sock.addr == x
      {
        if x in Addresses(front) {
          var p :| 0 <= p < |front| && front[p].sock.addr == x;
          assert ls[p].sock.addr == x;
        }
        if p :| 0 <= p < |front| && ls[p].sock.addr == x {
          assert front[p].sock.addr == x;
        }
        assert ls[|ls| - 1].sock.addr == a;
      }
    }
  }

  /** An address stands before another one when one of its sockets stands before all of the other's. */
  lemma {:induction false} FirstSeenOrder(ls: seq<Listed>, h: nat, i: nat, p: nat) returns (q: nat)
    requires h < i < |Addresses(ls)| && p < |ls| && ls[p].sock.addr == Addresses(ls)[i]
    ensures q < p && ls[q].sock.addr == Addresses(ls)[h]
  {
    var front := ls[..|ls| - 1];
    AddressesAreFirstSeen(front);
    if p < |front| {
      AddressListed(front, p);
      AddressesAreFirstSeen(ls);
      q := FirstSeenOrder(front, h, i, p);
    } else {
      assert Addresses(front)[h] in Addresses(front);
      q :| 0 <= q < |front| && front[q].sock.addr == Addresses(front)[h];
    }
  }

  lemma {:induction false} MemberIds(ls: seq<Listed>, a: Address, sid: string)
    ensures sid in Members(ls, a) <==> exists p :: 0 <= p < |ls| && ls[p].sock.addr == a && ls[p].sock.id == sid
  {
    if |ls| > 0 {
      var front := ls[..|ls| - 1];
      MemberIds(front, a, sid);
      if p :| 0 <= p < |front| && ls[p].sock.addr == a && ls[p].sock.id == sid {
        assert front[p].sock.id == sid;
      }
      if p :| 0 <= p < |front| && front[p].sock.addr == a && front[p].sock.id == sid {
        assert ls[p].sock.id == sid;
      }
    }
  }

  /** A socket is served by the command for its own address and by no other. */
  lemma {:induction false} MemberIff(ls: seq<Listed>, a: Address, p: nat)
    requires ListingOk(ls) && p < |ls|
    ensures ls[p].sock.id in Members(ls, a) <==> ls[p].sock.addr == a
  {
    MemberIds(ls, a, ls[p].sock.id);
  }

  /** The sockets of each address. */
  predicate Grouped(ls: seq<Listed>, members: map<Address, seq<string>>) {
    forall a :: a in Addresses(ls) ==> a in members && members[a] == Members(ls, a)
  }

  method GroupOf(ghost ls: seq<Listed>, members: map<Address, seq<string>>, a: Address) returns (ids: seq<string>)
    requires Grouped(ls, members) && a in Addresses(ls)
    ensures ids == Members(ls, a)
  {
    ids := members[a];
  }

  /** The ordered dictionary of the batch: its keys in their order, and the ids of each. */
  method Group(ls: seq<Listed>) returns (keys: seq<Address>, members: map<Address, seq<string>>)
    ensures keys == Addresses(ls) && Grouped(ls, members)
  {
    keys, members := [], map[];
    for i := 0 to |ls|
      invariant keys == Addresses(ls[..i])
      invariant forall a :: a in members <==> a in keys
      invariant forall a :: a in members ==> members[a] == Members(ls[..i], a)
      invariant forall a :: a !in members ==> Members(ls[..i], a) == []
    {
      assert ls[..i + 1][..i] == ls[..i];
      var a := ls[i].sock.addr;
      if a !in members {
        keys, members := keys + [a], members[a := []];
      }
      members := members[a := members[a] + [ls[i].sock.id]];
    }
    assert ls[..|ls|] == ls;
  }

  // ---------- What a batch does ----------

  datatype Status =
    | Ok(recorded: Option<LastSent>)
    | Error(info: C.Outcome)
    | Skipped(info: C.Outcome)

  datatype Effect =
    | Sleep
    | Attempt(addr: Address, line: string)
    | Store(ids: seq<string>, addr: Address, at: At)

  predicate Fatal(o: C.Outcome) { o.Unreachable? || o.Timeout? }

  /** The first of the first n commands that ends the batch, or n. */
  function StopAt(turns: nat -> Turn, n: nat): (k: nat)
    ensures k <= n
  {
    if n == 0 then 0
    else
      var k := StopAt(turns, n - 1);
      if k < n - 1 || Fatal(turns(n - 1).answer) then k else n
  }

  /** The stop is the first command with a fatal answer. */
  lemma {:induction false} StopAtIs(turns: nat -> Turn, n: nat, k: nat)
    requires k <= n && (forall i :: 0 <= i < k ==> !Fatal(turns(i).answer)) && (k < n ==> Fatal(turns(k).answer))
    ensures StopAt(turns, n) == k
  {
    if k < n {
      StopAtIs(turns, n - 1, k);
    } else if n > 0 {
      StopAtIs(turns, n - 1, n - 1);
    }
  }

  lemma {:induction false} StopsHere(turns: nat -> Turn, n: nat, i: nat)
    requires i < n && i <= StopAt(turns, n)
    ensures Fatal(turns(i).answer) <==> StopAt(turns, n) == i
  {
    if i < n - 1 {
      StopsHere(turns, n - 1, i);
    }
  }

  /** How many commands go out. */
  function Sends(ls: seq<Listed>, turns: nat -> Turn): nat {
    var n := |Addresses(ls)|;
    if StopAt(turns, n) < n then StopAt(turns, n) + 1 else n
  }

  /** The effects of the first n commands. */
  function Trace(ls: seq<Listed>, turns: nat -> Turn, n: nat): seq<Effect>
    requires n <= |Addresses(ls)|
  {
    if n == 0 then []
    else
      var a := Addresses(ls)[n - 1];
      Trace(ls, turns, n - 1) + OneTurn(a, Members(ls, a), n == 1, turns(n - 1))
  }

  /** The effects of one command. */
  function OneTurn(a: Address, ids: seq<string>, first: bool, t: Turn): seq<Effect> {
    (if first then [] else [Sleep]) + [Attempt(a, CommandLine(t.connect, a, 0))]
    + if t.answer == C.Success then [Store(ids, a, t.at)] else []
  }

  lemma {:induction false} KeyOk(ls: seq<Listed>, i: nat)
    requires ListingOk(ls) && i < |Addresses(ls)|
    ensures AddressOk(Addresses(ls)[i])
  {
    AddressesAreFirstSeen(ls);
    assert Addresses(ls)[i] in Addresses(ls);
  }

  /** The document after the first n commands. */
  function DocAfter(doc: Document, ls: seq<Listed>, turns: nat -> Turn, n: nat): Document
    requires n <= |Addresses(ls)|
  {
    if n == 0 then doc
    else if turns(n - 1).answer == C.Success then
      var a := Addresses(ls)[n - 1];
      Left(turns(n - 1), Members(ls, a), a, false)
    else DocAfter(doc, ls, turns, n - 1)
  }

  lemma {:induction false} BatchLeavesValid(doc: Document, ls: seq<Listed>, turns: nat -> Turn, n: nat)
    requires Valid(doc) && n <= |Addresses(ls)| && TurnsOk(turns)
    ensures Valid(DocAfter(doc, ls, turns, n))
  {
    if n > 0 {
      var a := Addresses(ls)[n - 1];
      if turns(n - 1).answer == C.Success {
        assert TurnOk(turns(n - 1));
        LeftIsValid(turns(n - 1), Members(ls, a), a, false);
        assert DocAfter(doc, ls, turns, n) == Left(turns(n - 1), Members(ls, a), a, false);
      } else {
        BatchLeavesValid(doc, ls, turns, n - 1);
        assert DocAfter(doc, ls, turns, n) == DocAfter(doc, ls, turns, n - 1);
      }
    }
  }

  /** What becomes of a socket that its command was sent for. */
  function SentStatus(t: Turn, ids: seq<string>, a: Address, sid: string): Status {
    if t.answer != C.Success then Error(t.answer)
    else Ok(if sid in Noted(t, ids, a, false) then Some(LastSent(false, t.at)) else None)
  }

  /** What becomes of a socket whose address is the i-th of the batch. */
  function StatusFor(ls: seq<Listed>, turns: nat -> Turn, i: nat, sid: string): Status
    requires i < |Addresses(ls)|
  {
    var stop := StopAt(turns, |Addresses(ls)|);
    var a := Addresses(ls)[i];
    if stop < i then Skipped(turns(stop).answer)
    else SentStatus(turns(i), Members(ls, a), a, sid)
  }

  function IndexOf(keys: seq<Address>, a: Address): (i: nat)
    requires a in keys
    ensures i < |keys| && keys[i] == a
  {
    if keys[0] == a then 0 else 1 + IndexOf(keys[1..], a)
  }

  /** Which command of the batch is the one for the socket at a position. */
  function TurnOf(ls: seq<Listed>, p: nat): (i: nat)
    requires p < |ls|
    ensures i < |Addresses(ls)| && Addresses(ls)[i] == ls[p].sock.addr
  {
    AddressListed(ls, p);
    IndexOf(Addresses(ls), ls[p].sock.addr)
  }

  lemma {:induction false} AddressListed(ls: seq<Listed>, p: nat)
    requires p < |ls|
    ensures ls[p].sock.addr in Addresses(ls)
  {
    if p < |ls| - 1 {
      AddressListed(ls[..|ls| - 1], p);
    }
  }

  function StatusAt(ls: seq<Listed>, turns: nat -> Turn, p: nat): Status
    requires p < |ls|
  {
    StatusFor(ls, turns, TurnOf(ls, p), ls[p].sock.id)
  }

  /** The same outcome for each of some ids. */
  function AllMarked(ids: seq<string>, status: Status): map<string, Status> {
    map sid | sid in ids :: status
  }

  /** The outcomes of the sockets that a command was sent for. */
  function SentMarked(t: Turn, ids: seq<string>, a: Address): map<string, Status> {
    map sid | sid in ids :: SentStatus(t, ids, a, sid)
  }

  /** The outcomes of sockets whose command was confirmed. */
  function NotedMarked(ids: seq<string>, written: seq<string>, last: LastSent): map<string, Status> {
    map sid | sid in ids :: Ok(if sid in written then Some(last) else None)
  }

  lemma {:induction false} SentMarks(t: Turn, ids: seq<string>, a: Address)
    ensures SentMarked(t, ids, a) == if t.answer == C.Success
                                       then NotedMarked(ids, Noted(t, ids, a, false), LastSent(false, t.at))
                                     else AllMarked(ids, Error(t.answer))
  {
  }

  method MarkAll(outcome: map<string, Status>, ids: seq<string>, status: Status) returns (next: map<string, Status>)
    ensures next == outcome + AllMarked(ids, status)
  {
    next := outcome;
    for i := 0 to |ids|
      invariant next == outcome + AllMarked(ids[..i], status)
    {
      assert ids[..i + 1] == ids[..i] + [ids[i]];
      next := next[ids[i] := status];
    }
    assert ids[..|ids|] == ids;
  }

  method MarkSent(outcome: map<string, Status>, ids: seq<string>, written: seq<string>, last: LastSent)
    returns (next: map<string, Status>)
    ensures next == outcome + NotedMarked(ids, written, last)
  {
    next := outcome;
    for i := 0 to |ids|
      invariant next == outcome + NotedMarked(ids[..i], written, last)
    {
      assert ids[..i + 1] == ids[..i] + [ids[i]];
      next := next[ids[i] := if ids[i] in written then Ok(Some(last)) else Ok(None)];
    }
    assert ids[..|ids|] == ids;
  }

  /** The body of the loop for an address that is not skipped. */
  method SendOne(store: S.Store, outcome: map<string, Status>, a: Address, ids: seq<string>, first: bool, t: Turn)
    returns (next: map<string, Status>, stopError: Option<C.Outcome>, log: seq<Effect>)
    requires AddressOk(a) && TurnOk(t)
    modifies store
    ensures store.doc == if t.answer == C.Success then Left(t, ids, a, false) else old(store.doc)
    ensures stopError == if Fatal(t.answer) then Some(t.answer) else None
    ensures log == OneTurn(a, ids, first, t)
    ensures next == outcome + SentMarked(t, ids, a)
  {
    SentMarks(t, ids, a);
    log, stopError := if first then [] else [Sleep], None;
    var line, answer := Command(t, a, 0);
    log := log + [Attempt(a, line)];
    if answer != C.Success {
      next := MarkAll(outcome, ids, Error(answer));
      if Fatal(answer) {
        stopError := Some(answer);
      }
    } else {
      var written := Record(store, t, ids, a, false);
      log := log + [Store(ids, a, t.at)];
      next := MarkSent(outcome, ids, written, LastSent(false, t.at));
    }
  }

  /** The first n maps, of which a later one wins. */
  function Merged(f: nat -> map<string, Status>, n: nat): map<string, Status> {
    if n == 0 then map[] else Merged(f, n - 1) + f(n - 1)
  }

  /** What only one of them has stays in all that follow. */
  lemma {:induction false} MergedStays(f: nat -> map<string, Status>, n: nat, i: nat, sid: string)
    requires i < n && sid in f(i) && forall k :: i < k < n ==> sid !in f(k)
    ensures sid in Merged(f, n) && Merged(f, n)[sid] == f(i)[sid]
  {
    if i < n - 1 {
      MergedStays(f, n - 1, i, sid);
    }
  }

  /** What the i-th address brings to its sockets. */
  function BroughtBy(ls: seq<Listed>, turns: nat -> Turn, i: nat): map<string, Status> {
    if i < |Addresses(ls)|
    then map sid | sid in Members(ls, Addresses(ls)[i]) :: StatusFor(ls, turns, i, sid)
    else map[]
  }

  function AllBrought(ls: seq<Listed>, turns: nat -> Turn): nat -> map<string, Status> {
    (i: nat) => BroughtBy(ls, turns, i)
  }

  /** What the first n addresses of the batch come to. */
  function OutcomeOf(ls: seq<Listed>, turns: nat -> Turn, n: nat): map<string, Status> {
    Merged(AllBrought(ls, turns), n)
  }

  lemma {:induction false} OutcomeSent(ls: seq<Listed>, turns: nat -> Turn, n: nat)
    requires n < |Addresses(ls)| && n <= StopAt(turns, |Addresses(ls)|)
    ensures var a := Addresses(ls)[n];
            OutcomeOf(ls, turns, n + 1) == OutcomeOf(ls, turns, n) + SentMarked(turns(n), Members(ls, a), a)
  {
    var a := Addresses(ls)[n];
    assert (map sid | sid in Members(ls, a) :: StatusFor(ls, turns, n, sid)) == SentMarked(turns(n), Members(ls, a), a);
  }

  lemma {:induction false} OutcomeSkipped(ls: seq<Listed>, turns: nat -> Turn, n: nat)
    requires StopAt(turns, |Addresses(ls)|) < n < |Addresses(ls)|
    ensures OutcomeOf(ls, turns, n + 1) == OutcomeOf(ls, turns, n)
              + AllMarked(Members(ls, Addresses(ls)[n]), Skipped(turns(StopAt(turns, |Addresses(ls)|)).answer))
  {
    var ids, error := Members(ls, Addresses(ls)[n]), turns(StopAt(turns, |Addresses(ls)|)).answer;
    assert (map sid | sid in ids :: StatusFor(ls, turns, n, sid)) == AllMarked(ids, Skipped(error));
  }

  /** A socket is one of those of an address exactly when that is its own. */
  lemma {:induction false} OwnTurn(ls: seq<Listed>, p: nat, i: nat)
    requires ListingOk(ls) && p < |ls| && i < |Addresses(ls)|
    ensures ls[p].sock.id in Members(ls, Addresses(ls)[i]) <==> i == TurnOf(ls, p)
  {
    var keys, t := Addresses(ls), TurnOf(ls, p);
    MemberIff(ls, keys[i], p);
    AddressesAreFirstSeen(ls);
    if i != t {
      assert keys[i] != keys[t];
    }
  }

  /** Each socket has the outcome of its own address. */
  lemma {:induction false} OutcomeAt(ls: seq<Listed>, turns: nat -> Turn, n: nat, p: nat)
    requires ListingOk(ls) && p < |ls| && TurnOf(ls, p) < n <= |Addresses(ls)|
    ensures ls[p].sock.id in OutcomeOf(ls, turns, n) && OutcomeOf(ls, turns, n)[ls[p].sock.id] == StatusAt(ls, turns, p)
  {
    var i, sid := TurnOf(ls, p), ls[p].sock.id;
    forall k | 0 <= k < n
      ensures sid in BroughtBy(ls, turns, k) <==> k == i
    {
      OwnTurn(ls, p, k);
    }
    MergedStays(AllBrought(ls, turns), n, i, sid);
  }

  /** The variables of the loop after n addresses. */
  ghost predicate BatchAt(ls: seq<Listed>, turns: nat -> Turn, n: nat, start: Document, doc: Document,
                          outcome: map<string, Status>, stopError: Option<C.Outcome>, sent: nat, log: seq<Effect>)
  {
    n <= |Addresses(ls)|
    && var stop := StopAt(turns, |Addresses(ls)|);
       outcome == OutcomeOf(ls, turns, n)
       && stopError == (if stop < n then Some(turns(stop).answer) else None)
       && sent == (if stop < n then stop + 1 else n)
       && log == Trace(ls, turns, sent) && doc == DocAfter(start, ls, turns, sent)
  }

  /** The next command of a batch that nothing has stopped yet. */
  method SendNext(store: S.Store, ghost ls: seq<Listed>, i: nat, a: Address, ids: seq<string>, turns: nat -> Turn,
                  outcome: map<string, Status>, sent: nat, log: seq<Effect>, ghost start: Document)
    returns (next: map<string, Status>, stopError: Option<C.Outcome>, more: seq<Effect>)
    requires ListingOk(ls) && i < |Addresses(ls)| && TurnsOk(turns)
    requires a == Addresses(ls)[i] && ids == Members(ls, a)
    requires BatchAt(ls, turns, i, start, store.doc, outcome, None, sent, log)
    modifies store
    ensures BatchAt(ls, turns, i + 1, start, store.doc, next, stopError, sent + 1, more)
  {
    assert TurnOk(turns(i));
    KeyOk(ls, i);
    StopsHere(turns, |Addresses(ls)|, i);
    OutcomeSent(ls, turns, i);
    next, stopError, more := SendOne(store, outcome, a, ids, sent == 0, turns(i));
    more := log + more;
  }

  /** An address after the end of the batch. */
  method SkipOne(ghost ls: seq<Listed>, ghost i: nat, ids: seq<string>, ghost turns: nat -> Turn,
                 outcome: map<string, Status>, error: C.Outcome, ghost sent: nat, ghost log: seq<Effect>,
                 ghost start: Document, ghost doc: Document)
    returns (next: map<string, Status>)
    requires i < |Addresses(ls)| && ids == Members(ls, Addresses(ls)[i])
    requires BatchAt(ls, turns, i, start, doc, outcome, Some(error), sent, log)
    ensures BatchAt(ls, turns, i + 1, start, doc, next, Some(error), sent, log)
  {
    OutcomeSkipped(ls, turns, i);
    next := MarkAll(outcome, ids, Skipped(error));
  }

  /** The body of the loop of all_off() over the addresses. */
  method NextAddress(store: S.Store, ghost ls: seq<Listed>, i: nat, a: Address, members: map<Address, seq<string>>,
                     turns: nat -> Turn, outcome: map<string, Status>, stopError: Option<C.Outcome>, sent: nat,
                     log: seq<Effect>, ghost start: Document)
    returns (next: map<string, Status>, stop: Option<C.Outcome>, count: nat, more: seq<Effect>)
    requires ListingOk(ls) && i < |Addresses(ls)| && TurnsOk(turns)
    requires a == Addresses(ls)[i] && Grouped(ls, members)
    requires BatchAt(ls, turns, i, start, store.doc, outcome, stopError, sent, log)
    modifies store
    ensures BatchAt(ls, turns, i + 1, start, store.doc, next, stop, count, more)
  {
    var ids := GroupOf(ls, members, a);
    if stopError.Some? {
      next := SkipOne(ls, i, ids, turns, outcome, stopError.value, sent, log, start, store.doc);
      return next, stopError, sent, log;
    }
    next, stop, more := SendNext(store, ls, i, a, ids, turns, outcome, sent, log, start);
    count := sent + 1;
  }

  lemma {:induction false} BatchStarts(ls: seq<Listed>, turns: nat -> Turn, doc: Document)
    ensures BatchAt(ls, turns, 0, doc, doc, map[], None, 0, [])
  {
  }

  /** The loop of all_off() over the addresses. */
  method SendAll(store: S.Store, ls: seq<Listed>, keys: seq<Address>, members: map<Address, seq<string>>,
                 turns: nat -> Turn)
    returns (outcome: map<string, Status>, stopError: Option<C.Outcome>, sent: nat, log: seq<Effect>)
    requires ListingOk(ls) && keys == Addresses(ls)
    requires Grouped(ls, members) && TurnsOk(turns)
    modifies store
    ensures BatchAt(ls, turns, |keys|, old(store.doc), store.doc, outcome, stopError, sent, log)
  {
    outcome, log, stopError, sent := map[], [], None, 0;
    ghost var start := store.doc;
    BatchStarts(ls, turns, start);
    for i := 0 to |keys|
      invariant BatchAt(ls, turns, i, start, store.doc, outcome, stopError, sent, log)
    {
      outcome, stopError, sent, log :=
        NextAddress(store, ls, i, keys[i], members, turns, outcome, stopError, sent, log, start);
    }
  }

  // ---------- The report ----------

  datatype Entry = Entry(socketId: string, roomId: string, status: Status)

  datatype Report = Report(ok: bool, results: seq<Entry>, oks: nat, errors: nat, skips: nat)

  datatype Batch = Reported(report: Report) | RoomNotFound | BatchUnreadable

  predicate IsOk(e: Entry) { e.status.Ok? }

  predicate IsError(e: Entry) { e.status.Error? }

  predicate IsSkipped(e: Entry) { e.status.Skipped? }

  function Count(results: seq<Entry>, f: Entry -> bool): nat {
    if |results| == 0 then 0
    else Count(results[..|results| - 1], f) + if f(results[|results| - 1]) then 1 else 0
  }

  lemma {:induction false} CountLast(results: seq<Entry>, e: Entry, f: Entry -> bool)
    ensures Count(results + [e], f) == Count(results, f) + if f(e) then 1 else 0
  {
    assert (results + [e])[..|results|] == results;
  }

  function Results(ls: seq<Listed>, turns: nat -> Turn): seq<Entry> {
    seq(|ls|, p requires 0 <= p < |ls| => Entry(ls[p].sock.id, ls[p].room, StatusAt(ls, turns, p)))
  }

  function ReportOf(results: seq<Entry>): Report {
    Report(Count(results, IsOk) == |results|, results,
           Count(results, IsOk), Count(results, IsError), Count(results, IsSkipped))
  }

  /** The loop over the sockets that builds the report. */
  method MakeReport(ls: seq<Listed>, outcome: map<string, Status>) returns (r: Report)
    requires forall p :: 0 <= p < |ls| ==> ls[p].sock.id in outcome
    ensures r == ReportOf(
                   seq(|ls|, p requires 0 <= p < |ls| => Entry(ls[p].sock.id, ls[p].room, outcome[ls[p].sock.id])))
  {
    var results: seq<Entry> := [];
    var oks, errors, skips := 0, 0, 0;
    for p := 0 to |ls|
      invariant |results| == p
      invariant forall q :: 0 <= q < p ==> results[q] == Entry(ls[q].sock.id, ls[q].room, outcome[ls[q].sock.id])
      invariant oks == Count(results, IsOk) && errors == Count(results, IsError) && skips == Count(results, IsSkipped)
    {
      var entry := Entry(ls[p].sock.id, ls[p].room, outcome[ls[p].sock.id]);
      CountLast(results, entry, IsOk);
      CountLast(results, entry, IsError);
      CountLast(results, entry, IsSkipped);
      match entry.status {
        case Ok(_) => oks := oks + 1;
        case Error(_) => errors := errors + 1;
        case Skipped(_) => skips := skips + 1;
      }
      results := results + [entry];
    }
    assert results == seq(|ls|, p requires 0 <= p < |ls| => Entry(ls[p].sock.id, ls[p].room, outcome[ls[p].sock.id]));
    r := Report(oks == |results|, results, oks, errors, skips);
  }

  /** The rooms of a batch: one of them, or all. */
  function BatchRooms(doc: Document, roomId: Option<string>): Option<seq<Room>> {
    match roomId
    case None => Some(doc)
    case Some(rid) => var k := FindRoom(doc, rid); if k.None? then None else Some([doc[k.value]])
  }

  /** How many sockets stand before room k. */
  function Offset(rooms: seq<Room>, k: nat): nat
    requires k <= |rooms|
  {
    if k == 0 then 0 else Offset(rooms, k - 1) + |rooms[k - 1].sockets|
  }

  /** Every socket is listed once, in display order, with its room. */
  lemma {:induction false} ListedAt(rooms: seq<Room>, k: nat, j: nat)
    requires k < |rooms| && j < |rooms[k].sockets|
    ensures |Listing(rooms)| == Offset(rooms, |rooms|) && Offset(rooms, k) + j < |Listing(rooms)|
    ensures Listing(rooms)[Offset(rooms, k) + j] == Listed(rooms[k].id, rooms[k].sockets[j])
  {
    var front := rooms[..|rooms| - 1];
    ListingLength(rooms);
    ListingLength(front);
    FrontOffset(rooms, |front|);
    if k < |front| {
      ListedAt(front, k, j);
      FrontOffset(rooms, k);
    }
  }

  lemma {:induction false} ListingLength(rooms: seq<Room>)
    ensures |Listing(rooms)| == Offset(rooms, |rooms|)
  {
    if |rooms| > 0 {
      ListingLength(rooms[..|rooms| - 1]);
      FrontOffset(rooms, |rooms| - 1);
    }
  }

  lemma {:induction false} FrontOffset(rooms: seq<Room>, k: nat)
    requires k < |rooms|
    ensures Offset(rooms[..|rooms| - 1], k) == Offset(rooms, k)
  {
    if k > 0 {
      FrontOffset(rooms, k - 1);
    }
  }

  /** Nothing else is listed. */
  lemma {:induction false} ListedFrom(rooms: seq<Room>, p: nat) returns (k: nat, j: nat)
    requires p < |Listing(rooms)|
    ensures k < |rooms| && j < |rooms[k].sockets| && p == Offset(rooms, k) + j
    ensures Listing(rooms)[p] == Listed(rooms[k].id, rooms[k].sockets[j])
  {
    var front := rooms[..|rooms| - 1];
    ListingLength(front);
    FrontOffset(rooms, |front|);
    if p < |Listing(front)| {
      k, j := ListedFrom(front, p);
      FrontOffset(rooms, k);
    } else {
      k, j := |front|, p - |Listing(front)|;
    }
  }

  /** A batch of all rooms lists every socket of the household, in its order. */
  lemma {:induction false} AllAreListed(doc: Document, k: nat, j: nat, sid: string)
    requires StandsAt(doc, k, j, sid)
    ensures BatchRooms(doc, None).Some?
    ensures var ls := Listing(BatchRooms(doc, None).value);
            Offset(doc, k) + j < |ls| == Offset(doc, |doc|)
            && ls[Offset(doc, k) + j] == Listed(doc[k].id, SocketAt(doc, (k, j)))
  {
    ListedAt(doc, k, j);
  }

  /** A batch of one room lists the sockets of that room, in their order, and no other. */
  lemma {:induction false} RoomIsListed(doc: Document, k: nat)
    requires Valid(doc) && k < |doc|
    ensures BatchRooms(doc, Some(doc[k].id)).Some?
    ensures var ls := Listing(BatchRooms(doc, Some(doc[k].id)).value);
            |ls| == |doc[k].sockets|
            && forall j :: 0 <= j < |ls| ==> ls[j] == Listed(doc[k].id, doc[k].sockets[j])
  {
    OneRoom(doc, k, FindRoom(doc, doc[k].id).value);
    var rooms := [doc[k]];
    assert rooms[..0] == [] && Offset(rooms, 0) == 0;
    ListingLength(rooms);
    forall j | 0 <= j < |doc[k].sockets|
      ensures Listing(rooms)[j] == Listed(doc[k].id, doc[k].sockets[j])
    {
      ListedAt(rooms, 0, j);
    }
  }

  /** There is a batch of a room exactly when there is the room. */
  lemma {:induction false} NoSuchRoom(doc: Document, rid: string)
    ensures BatchRooms(doc, Some(rid)).None? <==> forall k :: 0 <= k < |doc| ==> doc[k].id != rid
  {
  }

  /** The commands of a batch go to addresses of the sockets that it lists. */
  lemma {:induction false} AttemptsAreListed(ls: seq<Listed>, turns: nat -> Turn, n: nat, m: nat) returns (p: nat)
    requires ListingOk(ls) && n <= |Addresses(ls)| && m < |Trace(ls, turns, n)| && Trace(ls, turns, n)[m].Attempt?
    ensures p < |ls| && ls[p].sock.addr == Trace(ls, turns, n)[m].addr
  {
    TraceSwitchesOff(ls, turns, n, m);
    var i :| 0 <= i < n && Addresses(ls)[i] == Trace(ls, turns, n)[m].addr;
    AddressesAreFirstSeen(ls);
    assert Addresses(ls)[i] in Addresses(ls);
    p :| 0 <= p < |ls| && ls[p].sock.addr == Addresses(ls)[i];
  }

  /** The address of a socket of the room. */
  ghost predicate InRoom(doc: Document, rid: string, addr: Address) {
    exists k: nat, j: nat :: k < |doc| && doc[k].id == rid && j < |doc[k].sockets| && doc[k].sockets[j].addr == addr
  }

  /** A batch of one room sends to that room alone, and reports that room alone. */
  lemma {:induction false} BatchStaysInRoom(doc: Document, rid: string, turns: nat -> Turn)
    requires Valid(doc) && BatchRooms(doc, Some(rid)).Some?
    ensures var ls := Listing(BatchRooms(doc, Some(rid)).value);
            var log := Trace(ls, turns, Sends(ls, turns));
            (forall m :: 0 <= m < |log| && log[m].Attempt? ==> InRoom(doc, rid, log[m].addr))
            && (forall p :: 0 <= p < |ls| ==> Results(ls, turns)[p].roomId == rid)
  {
    var k := FindRoom(doc, rid).value;
    RoomIsListed(doc, k);
    var ls := Listing(BatchRooms(doc, Some(rid)).value);
    BatchListingOk(doc, Some(rid));
    var log := Trace(ls, turns, Sends(ls, turns));
    forall m | 0 <= m < |log| && log[m].Attempt?
      ensures InRoom(doc, rid, log[m].addr)
    {
      var p := AttemptsAreListed(ls, turns, Sends(ls, turns), m);
      assert doc[k].sockets[p].addr == log[m].addr;
    }
  }

  lemma {:induction false} BatchListingOk(doc: Document, roomId: Option<string>)
    requires Valid(doc) && BatchRooms(doc, roomId).Some?
    ensures ListingOk(Listing(BatchRooms(doc, roomId).value))
  {
    var rooms := BatchRooms(doc, roomId).value;
    if roomId.Some? {
      SingleRoomValid(doc, FindRoom(doc, roomId.value).value);
    }
    ListingIsOk(rooms);
  }

  /** The outcomes of all sockets make the report. */
  lemma {:induction false} OutcomesReport(ls: seq<Listed>, turns: nat -> Turn, outcome: map<string, Status>)
    requires ListingOk(ls) && outcome == OutcomeOf(ls, turns, |Addresses(ls)|)
    ensures forall p :: 0 <= p < |ls| ==> ls[p].sock.id in outcome
    ensures seq(|ls|, p requires 0 <= p < |ls| => Entry(ls[p].sock.id, ls[p].room, outcome[ls[p].sock.id]))
            == Results(ls, turns)
  {
    forall p | 0 <= p < |ls|
      ensures ls[p].sock.id in outcome && outcome[ls[p].sock.id] == StatusAt(ls, turns, p)
    {
      OutcomeAt(ls, turns, |Addresses(ls)|, p);
    }
  }

  /** all_off() from the list of its rooms on. */
  method SendAndReport(store: S.Store, rooms: seq<Room>, turns: nat -> Turn) returns (report: Report, log: seq<Effect>)
    requires ListingOk(Listing(rooms)) && TurnsOk(turns)
    modifies store
    ensures var ls := Listing(rooms);
            report == ReportOf(Results(ls, turns)) && log == Trace(ls, turns, Sends(ls, turns))
            && store.doc == DocAfter(old(store.doc), ls, turns, Sends(ls, turns))
  {
    var ls := CollectSockets(rooms);
    var keys, members := Group(ls);
    var outcome, stopError, sent;
    outcome, stopError, sent, log := SendAll(store, ls, keys, members, turns);
    OutcomesReport(ls, turns, outcome);
    report := MakeReport(ls, outcome);
  }

  /** all_off(). */
  method AllOff(store: S.Store, roomId: Option<string>, readable: bool, turns: nat -> Turn)
    returns (r: Batch, log: seq<Effect>)
    requires store.Ok() && TurnsOk(turns)
    modifies store
    ensures store.Ok()
    ensures !readable ==> r == BatchUnreadable
    ensures readable && BatchRooms(old(store.doc), roomId).None? ==> r == RoomNotFound
    ensures !readable || BatchRooms(old(store.doc), roomId).None? ==> log == [] && store.doc == old(store.doc)
    ensures readable && BatchRooms(old(store.doc), roomId).Some? ==>
              (var ls := Listing(BatchRooms(old(store.doc), roomId).value);
               ListingOk(ls)
               && r == Reported(ReportOf(Results(ls, turns)))
               && log == Trace(ls, turns, Sends(ls, turns))
               && store.doc == DocAfter(old(store.doc), ls, turns, Sends(ls, turns)))
    ensures r.Reported? && roomId.Some? ==>
              (forall m :: 0 <= m < |log| && log[m].Attempt? ==> InRoom(old(store.doc), roomId.value, log[m].addr))
              && (forall p :: 0 <= p < |r.report.results| ==> r.report.results[p].roomId == roomId.value)
  {
    log := [];
    if !readable { return BatchUnreadable, log; }
    var rooms := BatchRooms(store.doc, roomId);
    if rooms.None? { return RoomNotFound, log; }
    BatchListingOk(store.doc, roomId);
    if roomId.Some? {
      BatchStaysInRoom(store.doc, roomId.value, turns);
    }
    BatchLeavesValid(store.doc, Listing(rooms.value), turns, Sends(Listing(rooms.value), turns));
    var report;
    report, log := SendAndReport(store, rooms.value, turns);
    r := Reported(report);
  }

  // ---------- What a batch keeps ----------

  function Attempts(log: seq<Effect>): seq<Address> {
    if |log| == 0 then []
    else Attempts(log[..|log| - 1]) + if log[|log| - 1].Attempt? then [log[|log| - 1].addr] else []
  }

  function Sleeps(log: seq<Effect>): nat {
    if |log| == 0 then 0 else Sleeps(log[..|log| - 1]) + if log[|log| - 1].Sleep? then 1 else 0
  }

  lemma {:induction false} EffectsAppend(log: seq<Effect>, e: Effect)
    ensures Attempts(log + [e]) == Attempts(log) + if e.Attempt? then [e.addr] else []
    ensures Sleeps(log + [e]) == Sleeps(log) + if e.Sleep? then 1 else 0
  {
    assert (log + [e])[..|log|] == log;
  }

  lemma {:induction false} EffectsConcat(log: seq<Effect>, more: seq<Effect>)
    ensures Attempts(log + more) == Attempts(log) + Attempts(more)
    ensures Sleeps(log + more) == Sleeps(log) + Sleeps(more)
  {
    if |more| == 0 {
      assert log + more == log;
    } else {
      var front, e := more[..|more| - 1], more[|more| - 1];
      assert log + more == (log + front) + [e];
      EffectsConcat(log, front);
      EffectsAppend(log + front, e);
    }
  }

  lemma {:induction false} OneTurnCounts(a: Address, ids: seq<string>, first: bool, t: Turn)
    ensures Attempts(OneTurn(a, ids, first, t)) == [a]
    ensures Sleeps(OneTurn(a, ids, first, t)) == if first then 0 else 1
  {
    var log: seq<Effect> := if first then [] else [Sleep];
    if !first {
      EffectsAppend([], Sleep);
      assert [] + [Sleep] == [Sleep];
    }
    EffectsAppend(log, Attempt(a, CommandLine(t.connect, a, 0)));
    EffectsAppend(log + [Attempt(a, CommandLine(t.connect, a, 0))], Store(ids, a, t.at));
  }

  lemma {:induction false} TurnAdds(log: seq<Effect>, a: Address, ids: seq<string>, first: bool, t: Turn)
    ensures Attempts(log + OneTurn(a, ids, first, t)) == Attempts(log) + [a]
    ensures Sleeps(log + OneTurn(a, ids, first, t)) == Sleeps(log) + if first then 0 else 1
  {
    OneTurnCounts(a, ids, first, t);
    EffectsConcat(log, OneTurn(a, ids, first, t));
  }

  lemma {:induction false} TakeOneMore<T>(s: seq<T>, n: nat)
    requires 0 < n <= |s|
    ensures s[..n] == s[..n - 1] + [s[n - 1]]
  {
  }

  lemma {:induction false} TraceCounts(ls: seq<Listed>, turns: nat -> Turn, n: nat)
    requires n <= |Addresses(ls)|
    ensures Attempts(Trace(ls, turns, n)) == Addresses(ls)[..n]
    ensures Sleeps(Trace(ls, turns, n)) == if n == 0 then 0 else n - 1
  {
    if n > 0 {
      TraceCounts(ls, turns, n - 1);
      var a := Addresses(ls)[n - 1];
      TurnAdds(Trace(ls, turns, n - 1), a, Members(ls, a), n == 1, turns(n - 1));
      TakeOneMore(Addresses(ls), n);
    }
  }

  /**
   A batch sends to the first of its addresses, to each once, and leaves the rest out
   only after a daemon that cannot be reached or that times out; it sleeps between its
   commands and not otherwise.
   */
  lemma {:induction false} BatchCommands(ls: seq<Listed>, turns: nat -> Turn)
    ensures var n, log := Sends(ls, turns), Trace(ls, turns, Sends(ls, turns));
            Attempts(log) <= Addresses(ls) && |Attempts(log)| == n && Distinct(Attempts(log))
            && Sleeps(log) == (if n == 0 then 0 else n - 1)
            && (forall i :: 0 <= i < n - 1 ==> !turns(i).answer.Unreachable? && !turns(i).answer.Timeout?)
            && (n < |Addresses(ls)| ==> n > 0 && (turns(n - 1).answer.Unreachable? || turns(n - 1).answer.Timeout?))
  {
    var n, all := Sends(ls, turns), |Addresses(ls)|;
    AddressesAreFirstSeen(ls);
    TraceCounts(ls, turns, n);
    forall i | 0 <= i < n
      ensures Fatal(turns(i).answer) <==> StopAt(turns, all) == i
    {
      StopsHere(turns, all, i);
    }
  }

  /** A sleep comes right before a command; a record right after its command, which was confirmed. */
  lemma {:induction false} TraceOrder(ls: seq<Listed>, turns: nat -> Turn, n: nat, k: nat)
    requires n <= |Addresses(ls)| && k < |Trace(ls, turns, n)|
    ensures var log := Trace(ls, turns, n);
            (log[k].Sleep? ==> 0 < k && k + 1 < |log| && log[k + 1].Attempt?)
            && (log[k].Store? ==>
                  0 < k && log[k - 1].Attempt? && log[k - 1].addr == log[k].addr
                  && exists i :: 0 <= i < n && turns(i).answer == C.Success && Addresses(ls)[i] == log[k].addr
                      && turns(i).at == log[k].at)
  {
    var before, a := Trace(ls, turns, n - 1), Addresses(ls)[n - 1];
    var now := OneTurn(a, Members(ls, a), n == 1, turns(n - 1));
    assert Trace(ls, turns, n) == before + now;
    if k < |before| {
      TraceOrder(ls, turns, n - 1, k);
      assert (before + now)[k] == before[k];
    } else {
      if n > 1 {
        TraceNotEmpty(ls, turns, n - 1);
      }
      OneTurnOrder(a, Members(ls, a), n == 1, turns(n - 1), k - |before|);
      assert (before + now)[k] == now[k - |before|];
    }
  }

  lemma {:induction false} OneTurnOrder(a: Address, ids: seq<string>, first: bool, t: Turn, k: nat)
    requires k < |OneTurn(a, ids, first, t)|
    ensures var log := OneTurn(a, ids, first, t);
            (log[k].Sleep? ==> !first && k + 1 < |log| && log[k + 1].Attempt?)
            && (log[k].Store? ==>
                  0 < k && log[k - 1].Attempt? && log[k - 1].addr == log[k].addr == a
                  && t.answer == C.Success && t.at == log[k].at)
  {
  }

  /** Each command of a batch asks the daemon to switch its address off, and each record is for all of its sockets. */
  lemma {:induction false} TraceSwitchesOff(ls: seq<Listed>, turns: nat -> Turn, n: nat, k: nat)
    requires ListingOk(ls) && n <= |Addresses(ls)| && k < |Trace(ls, turns, n)|
    ensures var e := Trace(ls, turns, n)[k];
            (e.Attempt? ==> AddressOk(e.addr)
                            && exists i :: 0 <= i < n && Addresses(ls)[i] == e.addr
                                           && Asks(e.line, e.addr, 0, turns(i).connect == C.Connected))
            && (e.Store? ==> forall p :: 0 <= p < |ls| ==> (ls[p].sock.id in e.ids <==> ls[p].sock.addr == e.addr))
  {
    var before, a := Trace(ls, turns, n - 1), Addresses(ls)[n - 1];
    var ids, t := Members(ls, a), turns(n - 1);
    var now := OneTurn(a, ids, n == 1, t);
    assert Trace(ls, turns, n) == before + now;
    if k < |before| {
      TraceSwitchesOff(ls, turns, n - 1, k);
      assert (before + now)[k] == before[k];
    } else {
      KeyOk(ls, n - 1);
      LineAsks(t.connect, a, 0);
      assert (before + now)[k] == now[k - |before|];
      forall p | 0 <= p < |ls|
        ensures ls[p].sock.id in ids <==> ls[p].sock.addr == a
      {
        MemberIff(ls, a, p);
      }
    }
  }

  lemma {:induction false} TraceNotEmpty(ls: seq<Listed>, turns: nat -> Turn, n: nat)
    requires 0 < n <= |Addresses(ls)|
    ensures |Trace(ls, turns, n)| > 0
  {
  }

  /** Sockets with one address share one outcome, up to whether the store could note it. */
  lemma {:induction false} EqualAddressesShare(ls: seq<Listed>, turns: nat -> Turn, p: nat, q: nat)
    requires p < |ls| && q < |ls| && ls[p].sock.addr == ls[q].sock.addr
    ensures var a, b := StatusAt(ls, turns, p), StatusAt(ls, turns, q);
            (a.Ok? && b.Ok?) || a == b
  {
  }

  /**
   The outcome of a socket is that of the command for its own address: the answer if it was
   an error, and otherwise the state and time that was recorded for it, if it was reported.
   */
  lemma {:induction false} OutcomeIsOwn(ls: seq<Listed>, turns: nat -> Turn, p: nat, i: nat)
    requires p < |ls| && i < |Addresses(ls)| && Addresses(ls)[i] == ls[p].sock.addr && i < Sends(ls, turns)
    ensures var t, sid, addr := turns(i), ls[p].sock.id, ls[p].sock.addr;
            StatusAt(ls, turns, p)
            == if t.answer != C.Success then Error(t.answer)
               else Ok(if sid in Noted(t, Members(ls, addr), addr, false) then Some(LastSent(false, t.at)) else None)
    ensures Results(ls, turns)[p] == Entry(ls[p].sock.id, ls[p].room, StatusAt(ls, turns, p))
  {
    AddressesAreFirstSeen(ls);
    assert i == TurnOf(ls, p);
  }

  /** Skipped are exactly the sockets whose address got no command, and they carry the error that ended the batch. */
  lemma {:induction false} SkippedIff(ls: seq<Listed>, turns: nat -> Turn, p: nat)
    requires p < |ls|
    ensures var n, log := Sends(ls, turns), Trace(ls, turns, Sends(ls, turns));
            (StatusAt(ls, turns, p).Skipped? <==> ls[p].sock.addr !in Attempts(log))
            && (StatusAt(ls, turns, p).Skipped? ==> n > 0 && StatusAt(ls, turns, p).info == turns(n - 1).answer)
  {
    var n, i := Sends(ls, turns), TurnOf(ls, p);
    TraceCounts(ls, turns, n);
    AddressesAreFirstSeen(ls);
    InFront(Addresses(ls), n, i);
  }

  lemma {:induction false} InFront(keys: seq<Address>, n: nat, i: nat)
    requires n <= |keys| && i < |keys| && forall j, k :: 0 <= j < k < |keys| ==> keys[j] != keys[k]
    ensures keys[i] in keys[..n] <==> i < n
  {
    if i < n {
      assert keys[..n][i] == keys[i];
    }
  }

  /** An entry with a last_sent is in the document as it stood right after the command. */
  lemma {:induction false} ReportedIsStored(ls: seq<Listed>, turns: nat -> Turn, p: nat)
    requires p < |ls| && StatusAt(ls, turns, p).Ok? && StatusAt(ls, turns, p).recorded.Some?
    ensures var t, a, sid := turns(TurnOf(ls, p)), ls[p].sock.addr, ls[p].sock.id;
            t.answer == C.Success && StatusAt(ls, turns, p).recorded == Some(LastSent(false, t.at))
            && FindSocket(t.found, sid).Some?
            && var (k, j) := FindSocket(t.found, sid).value;
               StandsAt(Left(t, Members(ls, a), a, false), k, j, sid)
               && SocketAt(Left(t, Members(ls, a), a, false), (k, j)).lastSent == Some(LastSent(false, t.at))
  {
    var a := ls[p].sock.addr;
    NotedIsStored(turns(TurnOf(ls, p)), Members(ls, a), a, false, ls[p].sock.id);
  }

  /** The counts of a report are the numbers of its entries of each kind. */
  lemma {:induction false} CountsAreSizes(results: seq<Entry>)
    ensures var r := ReportOf(results);
            r.results == results
            && r.oks == |set p | 0 <= p < |results| && results[p].status.Ok?|
            && r.errors == |set p | 0 <= p < |results| && results[p].status.Error?|
            && r.skips == |set p | 0 <= p < |results| && results[p].status.Skipped?|
  {
    CountIsSize(results, IsOk, (s: Status) => s.Ok?);
    CountIsSize(results, IsError, (s: Status) => s.Error?);
    CountIsSize(results, IsSkipped, (s: Status) => s.Skipped?);
    assert (set p | 0 <= p < |results| && results[p].status.Ok?) == Where(results, (s: Status) => s.Ok?);
    assert (set p | 0 <= p < |results| && results[p].status.Error?) == Where(results, (s: Status) => s.Error?);
    assert (set p | 0 <= p < |results| && results[p].status.Skipped?) == Where(results, (s: Status) => s.Skipped?);
  }

  function Where(results: seq<Entry>, kind: Status -> bool): set<int> {
    set p | 0 <= p < |results| && kind(results[p].status)
  }

  lemma {:induction false} WhereSnoc(front: seq<Entry>, e: Entry, kind: Status -> bool)
    ensures |Where(front + [e], kind)| == |Where(front, kind)| + if kind(e.status) then 1 else 0
  {
    var n := |front|;
    assert n !in Where(front, kind);
    assert Where(front + [e], kind) == Where(front, kind) + if kind(e.status) then {n} else {};
  }

  lemma {:induction false} CountIsSize(results: seq<Entry>, f: Entry -> bool, kind: Status -> bool)
    requires forall e :: f(e) == kind(e.status)
    ensures Count(results, f) == |Where(results, kind)|
  {
    if |results| > 0 {
      var front, n := results[..|results| - 1], |results| - 1;
      CountIsSize(front, f, kind);
      WhereSnoc(front, results[n], kind);
      assert front + [results[n]] == results;
    }
  }

  /** Every socket is counted once. */
  lemma {:induction false} CountsAddUp(results: seq<Entry>)
    ensures ReportOf(results).oks + ReportOf(results).errors + ReportOf(results).skips == |results|
    ensures ReportOf(results).ok <==> forall p :: 0 <= p < |results| ==> results[p].status.Ok?
  {
    if |results| > 0 {
      var front, last := results[..|results| - 1], results[|results| - 1];
      CountsAddUp(front);
      assert results == front + [last];
      assert forall p :: 0 <= p < |front| ==> front[p] == results[p];
    }
  }

  /** A batch is ok exactly when every one of its addresses was confirmed. */
  lemma {:induction false} BatchOkIff(ls: seq<Listed>, turns: nat -> Turn)
    ensures ReportOf(Results(ls, turns)).ok <==>
            forall i :: 0 <= i < |Addresses(ls)| ==> turns(i).answer == C.Success
  {
    var results, n := Results(ls, turns), |Addresses(ls)|;
    CountsAddUp(results);
    AddressesAreFirstSeen(ls);
    if forall i :: 0 <= i < n ==> turns(i).answer == C.Success {
      assert !(StopAt(turns, n) < n) by { if StopAt(turns, n) < n { StopsHere(turns, n, StopAt(turns, n)); } }
    } else if ReportOf(results).ok {
      forall i | 0 <= i < n
        ensures turns(i).answer == C.Success
      {
        assert Addresses(ls)[i] in Addresses(ls);
        var p :| 0 <= p < |ls| && ls[p].sock.addr == Addresses(ls)[i];
        assert results[p].status.Ok? && TurnOf(ls, p) == i;
      }
    }
  }

  /** The skipped sockets need not be the last ones of the display order. */
  lemma {:induction false} SkippedIsNoSuffix() returns (ls: seq<Listed>, turns: nat -> Turn)
    ensures ListingOk(ls) && |ls| == 4 && TurnsOk(turns)
    ensures StatusAt(ls, turns, 2).Skipped? && !StatusAt(ls, turns, 3).Skipped?
  {
    var a, b, c := Address(Rev008345, 0, 0), Address(Rev008345, 0, 1), Address(Rev008345, 0, 2);
    ls := [Listed("r", Socket("s1", "", a, None)), Listed("r", Socket("s2", "", b, None)),
           Listed("r", Socket("s3", "", c, None)), Listed("r", Socket("s4", "", a, None))];
    turns := n => if n == 0 then Turn(C.Connected, [C.Chunk("OK\n")], C.Success, [], Stamp(0), true, S.Replaces)
                  else Turn(C.Refused, [], C.Unreachable, [], Stamp(0), true, S.Replaces);
    FourAddresses(ls, a, b, c);
    ExampleAnswer();
    StopsAtOne(turns);
  }

  lemma {:induction false} StopsAtOne(turns: nat -> Turn)
    requires !Fatal(turns(0).answer) && Fatal(turns(1).answer)
    ensures StopAt(turns, 3) == 1
  {
    assert StopAt(turns, 1) == 1 && StopAt(turns, 2) == 1;
  }

  lemma {:induction false} FourAddresses(ls: seq<Listed>, a: Address, b: Address, c: Address)
    requires |ls| == 4 && a != b && a != c && b != c
    requires ls[0].sock.addr == a && ls[1].sock.addr == b && ls[2].sock.addr == c && ls[3].sock.addr == a
    ensures Addresses(ls) == [a, b, c]
  {
    assert ls[..3][..2] == ls[..2] && ls[..2][..1] == ls[..1] && ls[..1][..0] == [];
    assert Addresses(ls[..1]) == [] + [a];
    assert Addresses(ls[..2]) == [a] + [b];
    assert Addresses(ls[..3]) == [a, b] + [c];
  }

  lemma {:induction false} ExampleAnswer()
    ensures C.AnswerOf(C.Connected, [C.Chunk("OK\n")]) == C.Success
  {
    var script := [C.Chunk("OK\n")];
    assert script[1..] == [] && C.Heard(script) == "OK\n" + "" == "OK\n" && C.EndOf(script) == C.EndClosed;
    C.OkReadBack("", C.EndClosed);
    assert "OK\n" + "" == "OK\n";
  }
}
