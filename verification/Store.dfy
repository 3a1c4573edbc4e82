/**
 The data file: every route is one locked read-modify-write of the document, which may
 fail as a whole and then changes nothing.
 */
module Store {
  import opened Text
  import opened Household
  import opened Changes
  import opened Recording
  import opened Effects

  datatype Failure = NotFound | Invalid(field: string) | NameConflict | RoomNotEmpty | OrderMismatch | StoreError

  datatype Result = Done | Failed(failure: Failure)

  /**
   What replacing the file comes to: it is put in place, it is refused before that, or it
   is put in place and then reported as an error, because the rename cannot be made durable.
   */
  datatype Disk = Replaces | Refuses | Unsynced

  /** A field of a request body: missing, unusable, or a value that passed its own checks. */
  datatype Field<T> = Absent | Bad | Given(value: T)

  // ---------- Checks of a document ----------

  /** The set holds the ids of the bag, and none stands in the bag twice. */
  predicate Tracks(seen: set<string>, ids: multiset<string>) {
    multiset(seen) == ids
  }

  lemma {:induction false} TrackOne(seen: set<string>, ids: multiset<string>, id: string)
    requires Tracks(seen, ids) && id !in seen
    ensures Tracks(seen + {id}, ids + multiset{id})
  {
    assert multiset(seen + {id}) == multiset(seen) + multiset{id};
  }

  /** The ids up to and with socket j of room i. */
  function IdsUpTo(doc: Document, i: nat, j: nat): multiset<string>
    requires i < |doc| && j <= |doc[i].sockets|
  {
    Ids(doc[..i]) + multiset{doc[i].id} + SocketIds(doc[i].sockets[..j])
  }

  lemma {:induction false} NextSocket(doc: Document, i: nat, j: nat)
    requires i < |doc| && j < |doc[i].sockets|
    ensures IdsUpTo(doc, i, j + 1) == IdsUpTo(doc, i, j) + multiset{doc[i].sockets[j].id}
  {
    assert doc[i].sockets[..j + 1] == doc[i].sockets[..j] + [doc[i].sockets[j]];
    SocketIdsAppend(doc[i].sockets[..j], doc[i].sockets[j]);
  }

  lemma {:induction false} RoomStart(doc: Document, i: nat)
    requires i < |doc|
    ensures IdsUpTo(doc, i, 0) == Ids(doc[..i]) + multiset{doc[i].id}
  {
    assert doc[i].sockets[..0] == [];
  }

  lemma {:induction false} RoomEnd(doc: Document, i: nat)
    requires i < |doc|
    ensures IdsUpTo(doc, i, |doc[i].sockets|) == Ids(doc[..i + 1])
  {
    assert doc[i].sockets[..|doc[i].sockets|] == doc[i].sockets;
    assert doc[..i + 1] == doc[..i] + [doc[i]];
    BagAppend(doc[..i], doc[i], RoomIds);
  }

  lemma {:induction false} TrackRoom(doc: Document, i: nat, seen: set<string>)
    requires i < |doc| && doc[i].id !in seen && Tracks(seen, Ids(doc[..i]))
    ensures Tracks(seen + {doc[i].id}, IdsUpTo(doc, i, 0))
  {
    TrackOne(seen, Ids(doc[..i]), doc[i].id);
    RoomStart(doc, i);
  }

  lemma {:induction false} TrackNext(doc: Document, i: nat, j: nat, seen: set<string>)
    requires i < |doc| && j < |doc[i].sockets| && doc[i].sockets[j].id !in seen && Tracks(seen, IdsUpTo(doc, i, j))
    ensures Tracks(seen + {doc[i].sockets[j].id}, IdsUpTo(doc, i, j + 1))
  {
    TrackOne(seen, IdsUpTo(doc, i, j), doc[i].sockets[j].id);
    NextSocket(doc, i, j);
  }

  /** The loop of check_document() over the sockets of room i. */
  method CheckSockets(doc: Document, i: nat, before: set<string>) returns (ok: bool, seen: set<string>)
    requires i < |doc| && IdOk(doc[i].id) && doc[i].id !in before && Tracks(before, Ids(doc[..i]))
    ensures ok ==> Tracks(seen, Ids(doc[..i + 1])) && RoomOk(doc[i])
    ensures !ok ==> !Valid(doc)
  {
    TrackRoom(doc, i, before);
    seen := before + {doc[i].id};
    for j := 0 to |doc[i].sockets|
      invariant forall m :: 0 <= m < j ==> SocketOk(doc[i].sockets[m])
      invariant Tracks(seen, IdsUpTo(doc, i, j))
    {
      var s := doc[i].sockets[j];
      if !IdOk(s.id) || s.id in seen || !AddressOk(s.addr) {
        RefusedSocket(doc, i, j);
        return false, seen;
      }
      TrackNext(doc, i, j, seen);
      seen := seen + {s.id};
    }
    RoomEnd(doc, i);
    return true, seen;
  }

  /** check_document(): the ids seen so far grow room by room and socket by socket. */
  method CheckDocument(doc: Document) returns (ok: bool)
    ensures ok <==> Valid(doc)
  {
    var seen: set<string> := {};
    for i := 0 to |doc|
      invariant forall k :: 0 <= k < i ==> RoomOk(doc[k])
      invariant Tracks(seen, Ids(doc[..i]))
    {
      var room := doc[i];
      if !IdOk(room.id) || room.id in seen {
        Refused(doc, i, room.id);
        return false;
      }
      ok, seen := CheckSockets(doc, i, seen);
      if !ok {
        return false;
      }
    }
    assert doc[..|doc|] == doc;
    return true;
  }

  /** A room whose id is malformed, or was seen in the rooms before it, makes the document invalid. */
  lemma {:induction false} Refused(doc: Document, i: nat, id: string)
    requires i < |doc| && id == doc[i].id && (!IdOk(id) || id in Ids(doc[..i]))
    ensures !Valid(doc)
  {
    if IdOk(id) {
      FrontIds(doc, i);
      assert id in RoomIds(doc[i]);
      assert (Ids(doc[..i]) + RoomIds(doc[i]))[id] >= 2;
    }
  }

  /** The same for a socket and the ids before it. */
  lemma {:induction false} RefusedSocket(doc: Document, i: nat, j: nat)
    requires i < |doc| && j < |doc[i].sockets|
    requires !SocketOk(doc[i].sockets[j]) || doc[i].sockets[j].id in IdsUpTo(doc, i, j)
    ensures !Valid(doc)
  {
    var s := doc[i].sockets[j];
    if !SocketOk(s) {
      assert !RoomOk(doc[i]);
    } else {
      FrontIds(doc, i);
      FrontSocketIds(doc[i].sockets, j);
      assert (Ids(doc[..i]) + RoomIds(doc[i]))[s.id] >= 2;
    }
  }

  lemma {:induction false} FrontIds(doc: Document, i: nat)
    requires i < |doc|
    ensures Ids(doc[..i]) + RoomIds(doc[i]) <= Ids(doc)
  {
    if i < |doc| - 1 {
      assert doc[..|doc| - 1][..i] == doc[..i];
      FrontIds(doc[..|doc| - 1], i);
    }
  }

  lemma {:induction false} FrontSocketIds(ss: seq<Socket>, j: nat)
    requires j < |ss|
    ensures SocketIds(ss[..j]) + multiset{ss[j].id} <= SocketIds(ss)
  {
    if j < |ss| - 1 {
      assert ss[..|ss| - 1][..j] == ss[..j];
      FrontSocketIds(ss[..|ss| - 1], j);
    }
  }

  // ---------- Helpers of the routes ----------

  /** list.remove(): the first element that is equal. */
  function RemoveFirst<T(==)>(s: seq<T>, x: T): seq<T> {
    if |s| == 0 then [] else if s[0] == x then s[1..] else [s[0]] + RemoveFirst(s[1..], x)
  }

  lemma {:induction false} RemoveFirstAt<T>(s: seq<T>, j: nat)
    requires j < |s| && forall i :: 0 <= i < j ==> s[i] != s[j]
    ensures RemoveFirst(s, s[j]) == s[..j] + s[j + 1..]
  {
    if j > 0 {
      RemoveFirstAt(s[1..], j - 1);
      assert s[..j] + s[j + 1..] == [s[0]] + (s[1..][..j - 1] + s[1..][j..]);
    }
  }

  function ToSet(s: seq<string>): set<string> { set x | x in s }

  /** check_permutation(): by the sizes and the members of sets. */
  predicate CheckPermutation(ids: seq<string>, current: seq<string>) {
    |ids| == |ToSet(ids)| && ToSet(ids) == ToSet(current)
  }

  lemma {:induction false} SetSize(s: seq<string>)
    ensures |ToSet(s)| <= |s|
    ensures |ToSet(s)| == |s| <==> Distinct(s)
  {
    if |s| > 0 {
      var front, last := s[..|s| - 1], s[|s| - 1];
      SetSize(front);
      assert s == front + [last];
      assert ToSet(s) == ToSet(front) + {last};
      if last in front {
        assert ToSet(s) == ToSet(front);
        var i :| 0 <= i < |front| && front[i] == last;
        assert s[i] == s[|s| - 1];
      } else {
        assert last !in ToSet(front);
        assert Distinct(s) <==> Distinct(front) by {
          if Distinct(s) {
            assert forall i, j :: 0 <= i < j < |front| ==> front[i] == s[i] && front[j] == s[j];
          }
        }
      }
    }
  }

  lemma {:induction false} CheckIsReorder(ids: seq<string>, current: seq<string>)
    ensures CheckPermutation(ids, current) <==> IsReorder(ids, current)
  {
    SetSize(ids);
    assert ToSet(ids) == ToSet(current) ==>
             (forall i :: 0 <= i < |ids| ==> ids[i] in ToSet(current))
                 && (forall i :: 0 <= i < |current| ==> current[i] in ToSet(ids));
  }

  /** new_id(): candidates are drawn until one is not taken; None while all so far were taken. */
  method NewId(doc: Document, candidates: seq<string>) returns (id: Option<string>)
    ensures id.Some? ==> id.value in candidates && id.value !in Ids(doc)
    ensures id.None? ==> forall i :: 0 <= i < |candidates| ==> candidates[i] in Ids(doc)
  {
    var taken: set<string> := {};
    for i := 0 to |doc|
      invariant forall x :: x in taken <==> x in Ids(doc[..i])
    {
      RoomStart(doc, i);
      taken := taken + {doc[i].id};
      for j := 0 to |doc[i].sockets|
        invariant forall x :: x in taken <==> x in IdsUpTo(doc, i, j)
      {
        NextSocket(doc, i, j);
        taken := taken + {doc[i].sockets[j].id};
      }
      RoomEnd(doc, i);
    }
    assert doc[..|doc|] == doc;
    for i := 0 to |candidates|
      invariant forall k :: 0 <= k < i ==> candidates[k] in taken
    {
      if candidates[i] !in taken {
        return Some(candidates[i]);
      }
    }
    return None;
  }

  // ---------- What each route checks, in its order ----------

  function Or<T>(f: Field<T>, own: T): T { if f.Given? then f.value else own }

  /** The merged field of an edit: its own value, the old one, or none that can be used. */
  function Merge<T>(f: Field<T>, own: T): Option<T> {
    match f
    case Absent => Some(own)
    case Bad => None
    case Given(value) => Some(value)
  }

  /** check_socket_fields(): the first bad field is named, in the order type, group, number. */
  function CheckSocketFields(kind: Option<Kind>, group: Option<int>, number: Option<int>): (r: Result)
    ensures r == Done <==> kind.Some? && group.Some? && number.Some?
                           && AddressOk(Address(kind.value, group.value, number.value))
  {
    if kind.None? then Failed(Invalid("type"))
    else if group.None? || !(0 <= group.value < TypeOf(kind.value).groups) then Failed(Invalid("group"))
    else if number.None? || !(0 <= number.value < TypeOf(kind.value).sockets) then Failed(Invalid("number"))
    else Done
  }

  function CreateRoomCheck(doc: Document, key: string -> string, name: Field<string>, newId: string): Result {
    if !name.Given? then Failed(Invalid("name"))
    else if !RoomNameFree(doc, key, name.value, newId) then Failed(NameConflict)
    else Done
  }

  function EditRoomCheck(doc: Document, key: string -> string, rid: string, name: Field<string>): Result {
    if FindRoom(doc, rid).None? then Failed(NotFound)
    else if name.Bad? then Failed(Invalid("name"))
    else if name.Given? && !RoomNameFree(doc, key, name.value, rid) then Failed(NameConflict)
    else Done
  }

  function DeleteRoomCheck(doc: Document, rid: string): Result {
    if FindRoom(doc, rid).None? then Failed(NotFound)
    else if doc[FindRoom(doc, rid).value].sockets != [] then Failed(RoomNotEmpty)
    else Done
  }

  function OrderRoomsCheck(doc: Document, ids: seq<string>): Result {
    if IsReorder(ids, RoomIdList(doc)) then Done else Failed(OrderMismatch)
  }

  function CreateSocketCheck(doc: Document, key: string -> string, rid: string, name: Field<string>,
                             kind: Option<Kind>, group: Option<int>, number: Option<int>, newId: string): Result
  {
    var k := FindRoom(doc, rid);
    if k.None? then Failed(NotFound)
    else if !name.Given? then Failed(Invalid("name"))
    else if CheckSocketFields(kind, group, number) != Done then CheckSocketFields(kind, group, number)
    else if !SocketNameFree(doc[k.value].sockets, key, name.value, newId) then Failed(NameConflict)
    else Done
  }

  /** The room that an edit leaves the socket in, which is its own room k unless another is named. */
  function TargetOf(doc: Document, k: nat, roomId: Field<string>): Option<nat>
    requires k < |doc|
  {
    match roomId
    case Absent => Some(k)
    case Bad => None
    case Given(rid) => FindRoom(doc, rid)
  }

  function EditSocketCheck(doc: Document, key: string -> string, sid: string, name: Field<string>,
                           kind: Field<Kind>, group: Field<int>, number: Field<int>, roomId: Field<string>): Result
  {
    var place := FindSocket(doc, sid);
    if place.None? then Failed(NotFound)
    else
      var (k, j) := place.value;
      var s := doc[k].sockets[j];
      var fields := CheckSocketFields(Merge(kind, s.addr.kind), Merge(group, s.addr.group),
                                      Merge(number, s.addr.number));
      var target := TargetOf(doc, k, roomId);
      if name.Bad? then Failed(Invalid("name"))
      else if fields != Done then fields
      else if target.None? then Failed(Invalid("room_id"))
      else if (name.Given? || target.value != k)
              && !SocketNameFree(doc[target.value].sockets, key, Or(name, s.name), sid)
        then Failed(NameConflict)
      else Done
  }

  function DeleteSocketCheck(doc: Document, sid: string): Result {
    if FindSocket(doc, sid).None? then Failed(NotFound) else Done
  }

  function OrderSocketsCheck(doc: Document, rid: string, ids: Field<seq<string>>): Result {
    var k := FindRoom(doc, rid);
    if k.None? then Failed(NotFound)
    else if !ids.Given? then Failed(Invalid("ids"))
    else if !IsReorder(ids.value, SocketIdList(doc[k.value].sockets)) then Failed(OrderMismatch)
    else Done
  }

  /** The change that an accepted edit asks for. */
  function EditOf(doc: Document, sid: string, name: Field<string>, kind: Field<Kind>, group: Field<int>,
                  number: Field<int>, roomId: Field<string>): Change
    requires FindSocket(doc, sid).Some?
  {
    var (k, j) := FindSocket(doc, sid).value;
    var s := doc[k].sockets[j];
    Change.EditSocket(sid, Or(name, s.name),
                      Address(Or(kind, s.addr.kind), Or(group, s.addr.group), Or(number, s.addr.number)),
                      Or(roomId, doc[k].id))
  }

  // ---------- When each check passes, and what each failure means ----------

  ghost predicate HasRoom(doc: Document, rid: string) { exists k :: 0 <= k < |doc| && doc[k].id == rid }

  /** Another room than this one has the same name. */
  ghost predicate RoomNameTaken(doc: Document, key: string -> string, name: string, own: string) {
    exists i :: 0 <= i < |doc| && doc[i].id != own && key(doc[i].name) == key(name)
  }

  ghost predicate SocketNameTaken(ss: seq<Socket>, key: string -> string, name: string, own: string) {
    exists j :: 0 <= j < |ss| && ss[j].id != own && key(ss[j].name) == key(name)
  }

  lemma {:induction false} CreateRoomVerdict(doc: Document, key: string -> string, name: Field<string>, newId: string)
    requires newId !in Ids(doc)
    ensures var r := CreateRoomCheck(doc, key, name, newId);
            (r == Failed(Invalid("name")) <==> !name.Given?)
            && (r == Failed(NameConflict) <==>
                  name.Given? && exists i :: 0 <= i < |doc| && key(doc[i].name) == key(name.value))
            && (r == Done <==> name.Given? && forall i :: 0 <= i < |doc| ==> key(doc[i].name) != key(name.value))
  {
    forall i | 0 <= i < |doc|
      ensures doc[i].id != newId
    {
      IdInRooms(doc, i);
    }
  }

  lemma {:induction false} EditRoomVerdict(doc: Document, key: string -> string, rid: string, name: Field<string>)
    ensures var r := EditRoomCheck(doc, key, rid, name);
            (r == Failed(NotFound) <==> !HasRoom(doc, rid))
            && (r == Failed(Invalid("name")) <==> HasRoom(doc, rid) && name.Bad?)
            && (r == Failed(NameConflict) <==>
                  HasRoom(doc, rid) && name.Given? && RoomNameTaken(doc, key, name.value, rid))
            && (r == Done <==>
                  HasRoom(doc, rid) && !name.Bad? && (name.Given? ==> !RoomNameTaken(doc, key, name.value, rid)))
  {
  }

  lemma {:induction false} DeleteRoomVerdict(doc: Document, rid: string)
    requires UniqueIds(doc)
    ensures var r := DeleteRoomCheck(doc, rid);
            (r == Failed(NotFound) <==> !HasRoom(doc, rid))
            && (r == Failed(RoomNotEmpty) <==> exists k :: 0 <= k < |doc| && doc[k].id == rid && doc[k].sockets != [])
            && (r == Done <==> exists k :: 0 <= k < |doc| && doc[k].id == rid && doc[k].sockets == [])
  {
    forall k | 0 <= k < |doc| && doc[k].id == rid
      ensures FindRoom(doc, rid) == Some(k)
    {
      RoomAt(doc, k);
    }
  }

  /** The first of type, group and number that is missing or out of range, if any is. */
  lemma {:induction false} FieldsVerdict(kind: Option<Kind>, group: Option<int>, number: Option<int>)
    ensures var r := CheckSocketFields(kind, group, number);
            var groups := if kind == Some(Rev008345) then 4 else 32;
            var sockets := if kind == Some(Rev008345) then 3 else 32;
            var groupOk := group.Some? && 0 <= group.value < groups;
            var numberOk := number.Some? && 0 <= number.value < sockets;
            (r == Failed(Invalid("type")) <==> kind.None?)
            && (r == Failed(Invalid("group")) <==> kind.Some? && !groupOk)
            && (r == Failed(Invalid("number")) <==> kind.Some? && groupOk && !numberOk)
            && (r == Done <==> kind.Some? && groupOk && numberOk)
  {
  }

  lemma {:induction false} CreateSocketVerdict(doc: Document, key: string -> string, rid: string, name: Field<string>,
                                               kind: Option<Kind>, group: Option<int>, number: Option<int>,
                                               newId: string)
    requires UniqueIds(doc) && newId !in Ids(doc)
    ensures var r := CreateSocketCheck(doc, key, rid, name, kind, group, number, newId);
            var fields := CheckSocketFields(kind, group, number);
            (r == Failed(NotFound) <==> !HasRoom(doc, rid))
            && (r == Failed(Invalid("name")) <==> HasRoom(doc, rid) && !name.Given?)
            && (r == fields && fields != Done <==> HasRoom(doc, rid) && name.Given? && fields != Done)
            && forall k :: 0 <= k < |doc| && doc[k].id == rid && name.Given? && fields == Done ==>
                 (r == Failed(NameConflict) <==> SocketNameTaken(doc[k].sockets, key, name.value, newId))
                 && (r == Done <==> !SocketNameTaken(doc[k].sockets, key, name.value, newId))
  {
    FieldsVerdict(kind, group, number);
    forall k | 0 <= k < |doc| && doc[k].id == rid
      ensures FindRoom(doc, rid) == Some(k)
    {
      RoomAt(doc, k);
    }
  }

  /** What an edit that is about the socket at place j of room k would make of its fields. */
  lemma {:induction false} EditSocketVerdict(doc: Document, key: string -> string, sid: string, name: Field<string>,
                                             kind: Field<Kind>, group: Field<int>, number: Field<int>,
                                             roomId: Field<string>, k: nat, j: nat, t: nat)
    requires UniqueIds(doc) && StandsAt(doc, k, j, sid)
    requires t < |doc| && if roomId.Given? then doc[t].id == roomId.value || !HasRoom(doc, roomId.value) else t == k
    ensures var r := EditSocketCheck(doc, key, sid, name, kind, group, number, roomId);
            var s := doc[k].sockets[j];
            var fields := CheckSocketFields(Merge(kind, s.addr.kind), Merge(group, s.addr.group),
                                            Merge(number, s.addr.number));
            var roomOk := !roomId.Bad? && (roomId.Given? ==> HasRoom(doc, roomId.value));
            var taken := (name.Given? || t != k) && SocketNameTaken(doc[t].sockets, key, Or(name, s.name), sid);
            r != Failed(NotFound)
            && (r == Failed(Invalid("name")) <==> name.Bad?)
            && (!name.Bad? && fields != Done ==> r == fields)
            && (!name.Bad? && fields == Done ==>
                  (r == Failed(Invalid("room_id")) <==> !roomOk)
                  && (r == Failed(NameConflict) <==> roomOk && taken)
                  && (r == Done <==> roomOk && !taken))
  {
    FoundAt(doc, k, j, sid);
    RoomAt(doc, t);
    var s := doc[k].sockets[j];
    FieldsVerdict(Merge(kind, s.addr.kind), Merge(group, s.addr.group), Merge(number, s.addr.number));
  }

  lemma {:induction false} NoSocketVerdict(doc: Document, key: string -> string, sid: string, name: Field<string>,
                                           kind: Field<Kind>, group: Field<int>, number: Field<int>,
                                           roomId: Field<string>)
    ensures var missing := forall k: nat, j: nat :: !StandsAt(doc, k, j, sid);
            (EditSocketCheck(doc, key, sid, name, kind, group, number, roomId) == Failed(NotFound) <==> missing)
            && (DeleteSocketCheck(doc, sid) == Failed(NotFound) <==> missing)
            && (DeleteSocketCheck(doc, sid) == Done <==> !missing)
  {
    if FindSocket(doc, sid).Some? {
      var (k, j) := FindSocket(doc, sid).value;
      assert StandsAt(doc, k, j, sid);
      var s := doc[k].sockets[j];
      FieldsVerdict(Merge(kind, s.addr.kind), Merge(group, s.addr.group), Merge(number, s.addr.number));
    }
  }

  // ---------- What a route that is done has done ----------

  ghost predicate RoomRenamed(before: Document, after: Document, rid: string, name: string) {
    exists k :: 0 <= k < |before| && before[k].id == rid && after == before[k := before[k].(name := name)]
  }

  ghost predicate RoomDropped(before: Document, after: Document, rid: string) {
    FindRoom(after, rid).None?
    && exists k :: 0 <= k < |before| && before[k].id == rid && after == before[..k] + before[k + 1..]
  }

  ghost predicate SocketAdded(before: Document, after: Document, rid: string, s: Socket) {
    exists k :: 0 <= k < |before| && before[k].id == rid
                && after == before[k := before[k].(sockets := before[k].sockets + [s])]
  }

  ghost predicate SocketDropped(before: Document, after: Document, sid: string) {
    FindSocket(after, sid).None?
    && exists k: nat, j: nat ::
         StandsAt(before, k, j, sid) && after == before[k := RoomWithGap(before[k], j)]
  }

  function RoomWithGap(r: Room, j: nat): Room
    requires j < |r.sockets|
  {
    r.(sockets := r.sockets[..j] + r.sockets[j + 1..])
  }

  /** The value of a field that was given, and otherwise the old one. */
  predicate Becomes<T(==)>(f: Field<T>, own: T, next: T) {
    match f
    case Given(value) => next == value
    case _ => next == own
  }

  /** The socket with the fields that were given, in the room that was named: in its place, or last when it moved. */
  ghost predicate SocketChanged(before: Document, after: Document, sid: string, name: Field<string>,
                                kind: Field<Kind>, group: Field<int>, number: Field<int>, roomId: Field<string>)
  {
    exists k: nat, j: nat, t: nat, n: string, addr: Address ::
      ChangedAt(before, after, sid, k, j, t, n, addr)
      && (if roomId.Given? then before[t].id == roomId.value else t == k)
      && var s := before[k].sockets[j];
         Becomes(name, s.name, n) && Becomes(kind, s.addr.kind, addr.kind)
         && Becomes(group, s.addr.group, addr.group) && Becomes(number, s.addr.number, addr.number)
  }

  predicate ChangedAt(before: Document, after: Document, sid: string, k: nat, j: nat, t: nat, name: string,
                      addr: Address)
  {
    StandsAt(before, k, j, sid) && t < |before|
    && var next := Renewed(before[k].sockets[j], name, addr);
       after == if t == k then before[k := before[k].(sockets := before[k].sockets[j := next])]
                else before[k := RoomWithGap(before[k], j)][t := before[t].(sockets := before[t].sockets + [next])]
  }

  lemma {:induction false} EditIsAsAsked(doc: Document, key: string -> string, sid: string, name: Field<string>,
                                         kind: Field<Kind>, group: Field<int>, number: Field<int>,
                                         roomId: Field<string>)
    requires Valid(doc) && FindSocket(doc, sid).Some?
    requires Allowed(doc, key, EditOf(doc, sid, name, kind, group, number, roomId))
    ensures SocketChanged(doc, Apply(doc, key, EditOf(doc, sid, name, kind, group, number, roomId)), sid, name, kind,
                          group, number, roomId)
  {
    var (k, j) := FindSocket(doc, sid).value;
    var ch := EditOf(doc, sid, name, kind, group, number, roomId);
    var t := FindRoom(doc, ch.target).value;
    RoomAt(doc, k);
    RoomAt(doc, t);
    if t == k {
      SocketIsEdited(doc, key, k, j, ch.name, ch.addr);
    } else {
      SocketIsMoved(doc, key, k, j, ch.name, ch.addr, t);
    }
    assert ChangedAt(doc, Apply(doc, key, ch), sid, k, j, t, ch.name, ch.addr);
  }

  /** check_room_name(): own is the room that may have the name. */
  method CheckRoomName(doc: Document, key: string -> string, name: string, own: Option<nat>) returns (free: bool)
    ensures free <==> forall i :: 0 <= i < |doc| && own != Some(i) ==> key(doc[i].name) != key(name)
  {
    for i := 0 to |doc|
      invariant forall k :: 0 <= k < i && own != Some(k) ==> key(doc[k].name) != key(name)
    {
      if own != Some(i) && key(doc[i].name) == key(name) {
        return false;
      }
    }
    return true;
  }

  /** check_socket_name(), over the sockets of one room. */
  method CheckSocketName(ss: seq<Socket>, key: string -> string, name: string, own: Option<nat>) returns (free: bool)
    ensures free <==> forall j :: 0 <= j < |ss| && own != Some(j) ==> key(ss[j].name) != key(name)
  {
    for j := 0 to |ss|
      invariant forall m :: 0 <= m < j && own != Some(m) ==> key(ss[m].name) != key(name)
    {
      if own != Some(j) && key(ss[j].name) == key(name) {
        return false;
      }
    }
    return true;
  }

  /** target_room(). */
  method TargetRoom(doc: Document, k: nat, roomId: Field<string>) returns (target: Option<nat>)
    requires UniqueIds(doc) && k < |doc|
    ensures target == TargetOf(doc, k, roomId)
  {
    match roomId
    case Absent => return Some(k);
    case Bad => return None;
    case Given(rid) =>
      if rid == doc[k].id {
        OneRoom(doc, k, FindRoom(doc, rid).value);
        return Some(k);
      }
      return FindRoom(doc, rid);
  }

  /** The dictionary of sockets by id, and the list that it gives in the order of the ids. */
  method PickSockets(ss: seq<Socket>, ids: seq<string>) returns (next: seq<Socket>)
    requires IsReorder(ids, SocketIdList(ss)) && forall i, j :: 0 <= i < j < |ss| ==> ss[i].id != ss[j].id
    ensures |next| == |ids|
    ensures forall i :: 0 <= i < |ids| ==> FindIn(ss, ids[i]).Some? && next[i] == Picked(ss, ids[i])
  {
    ReorderFinds(ss, ids);
    var byId: map<string, Socket> := map[];
    for i := 0 to |ss|
      invariant forall m :: 0 <= m < i ==> ss[m].id in byId && byId[ss[m].id] == ss[m]
    {
      byId := byId[ss[i].id := ss[i]];
    }
    next := [];
    for i := 0 to |ids|
      invariant |next| == i && forall m :: 0 <= m < i ==> next[m] == Picked(ss, ids[m])
    {
      next := next + [byId[ids[i]]];
    }
  }

  /** The same for the rooms. */
  method PickRooms(doc: Document, ids: seq<string>) returns (next: Document)
    requires UniqueIds(doc) && IsReorder(ids, RoomIdList(doc))
    ensures next == RoomsReordered(doc, ids)
  {
    RoomReorderFinds(doc, ids);
    var byId: map<string, Room> := map[];
    for i := 0 to |doc|
      invariant forall m :: 0 <= m < i ==> doc[m].id in byId && byId[doc[m].id] == doc[m]
    {
      OthersById(doc, i);
      byId := byId[doc[i].id := doc[i]];
    }
    next := [];
    for i := 0 to |ids|
      invariant |next| == i && forall m :: 0 <= m < i ==> next[m] == doc[FindRoom(doc, ids[m]).value]
    {
      next := next + [byId[ids[i]]];
    }
  }

  /** Another room is a room with another id. */
  lemma {:induction false} OthersById(doc: Document, k: nat)
    requires UniqueIds(doc) && k < |doc|
    ensures forall i :: 0 <= i < |doc| ==> (doc[i].id == doc[k].id <==> i == k)
  {
    forall i | 0 <= i < |doc| && doc[i].id == doc[k].id
      ensures i == k
    {
      OneRoom(doc, i, k);
    }
  }

  class Store {
    /** name_key(): two names are the same when their keys are equal. */
    const key: string -> string
    /** The content of the data file. */
    var doc: Document

    ghost predicate Ok()
      reads this
    {
      Valid(doc)
    }

    constructor (key: string -> string, doc: Document)
      requires Valid(doc)
      ensures Ok() && this.key == key && this.doc == doc
    {
      this.key, this.doc := key, doc;
    }

    /**
     The outcome of one mutate(): a lock or a file that cannot be had comes before the
     checks, the checks come before the change, and the change is in the file as a whole
     or not at all.  A document that stays the same is not written.
     */
    twostate predicate Outcome(r: Result, lock: bool, write: Disk, checks: Result, ch: Change)
      reads this
    {
      if !lock then r == Failed(StoreError) && doc == old(doc)
      else if checks != Done then r == checks && doc == old(doc)
      else
        Allowed(old(doc), key, ch)
        && var next := Apply(old(doc), key, ch);
           r == (if next == old(doc) || write.Replaces? then Done else Failed(StoreError))
           && doc == if write.Refuses? then old(doc) else next
    }

    /** The end of mutate(): the file is replaced when the document changed. */
    method Commit(data: Document, write: Disk) returns (r: Result)
      modifies this
      ensures r == if data == old(doc) || write.Replaces? then Done else Failed(StoreError)
      ensures doc == if write.Refuses? then old(doc) else data
    {
      if data != doc {
        if write.Refuses? {
          return Failed(StoreError);
        }
        doc := data;
        if write.Unsynced? {
          return Failed(StoreError);
        }
      }
      return Done;
    }

    method CreateRoom(name: Field<string>, newId: string, lock: bool, write: Disk) returns (r: Result)
      requires Ok() && IdOk(newId) && newId !in Ids(doc)
      modifies this
      ensures Ok()
      ensures Outcome(r, lock, write, CreateRoomCheck(old(doc), key, name, newId), AddRoom(newId, Or(name, "")))
      ensures r == Done ==> name.Given? && doc == old(doc) + [Room(newId, name.value, [])]
    {
      if !lock { return Failed(StoreError); }
      var data := doc;
      if !name.Given? { return Failed(Invalid("name")); }
      var free := CheckRoomName(data, key, name.value, None);
      forall i | 0 <= i < |doc| ensures doc[i].id != newId { IdInRooms(doc, i); }
      if !free { return Failed(NameConflict); }
      ApplyValid(doc, key, AddRoom(newId, name.value));
      data := data + [Room(newId, name.value, [])];
      r := Commit(data, write);
    }

    /** Without a name in the body nothing changes. */
    method EditRoom(rid: string, name: Field<string>, lock: bool, write: Disk) returns (r: Result)
      requires Ok()
      modifies this
      ensures Ok()
      ensures !name.Absent? ==>
                Outcome(r, lock, write, EditRoomCheck(old(doc), key, rid, name), RenameRoom(rid, Or(name, "")))
      ensures name.Absent? ==>
                doc == old(doc) && r == (if !lock then Failed(StoreError) else EditRoomCheck(doc, key, rid, name))
      ensures r == Done && name.Given? ==> RoomRenamed(old(doc), doc, rid, name.value)
    {
      if !lock { return Failed(StoreError); }
      var data := doc;
      var k := FindRoom(data, rid);
      if k.None? { return Failed(NotFound); }
      OthersById(doc, k.value);
      match name {
        case Absent => return Done;
        case Bad => return Failed(Invalid("name"));
        case Given(value) =>
          var free := CheckRoomName(data, key, value, k);
          if !free { return Failed(NameConflict); }
          ApplyValid(doc, key, RenameRoom(rid, value));
          RenamedIsUpdate(doc, k.value, value);
          data := data[k.value := data[k.value].(name := value)];
      }
      r := Commit(data, write);
    }

    method DeleteRoom(rid: string, lock: bool, write: Disk) returns (r: Result)
      requires Ok()
      modifies this
      ensures Ok() && Outcome(r, lock, write, DeleteRoomCheck(old(doc), rid), DropRoom(rid))
      ensures r == Done ==> RoomDropped(old(doc), doc, rid)
    {
      if !lock { return Failed(StoreError); }
      var data := doc;
      var k := FindRoom(data, rid);
      if k.None? { return Failed(NotFound); }
      var room := data[k.value];
      if room.sockets != [] { return Failed(RoomNotEmpty); }
      ApplyValid(doc, key, DropRoom(rid));
      RoomIsDropped(doc, key, k.value);
      OthersById(doc, k.value);
      RemoveFirstAt(doc, k.value);
      RoomsWithoutIsGap(doc, k.value);
      data := RemoveFirst(data, room);
      r := Commit(data, write);
    }

    /** The body is checked before the store is asked. */
    method OrderRooms(ids: Field<seq<string>>, lock: bool, write: Disk) returns (r: Result)
      requires Ok()
      modifies this
      ensures Ok()
      ensures !ids.Given? ==> r == Failed(Invalid("ids")) && doc == old(doc)
      ensures ids.Given? ==> Outcome(r, lock, write, OrderRoomsCheck(old(doc), ids.value), Change.OrderRooms(ids.value))
    {
      if !ids.Given? { return Failed(Invalid("ids")); }
      if !lock { return Failed(StoreError); }
      var data := doc;
      CheckIsReorder(ids.value, RoomIdList(data));
      if !CheckPermutation(ids.value, RoomIdList(data)) { return Failed(OrderMismatch); }
      ApplyValid(doc, key, Change.OrderRooms(ids.value));
      data := PickRooms(data, ids.value);
      r := Commit(data, write);
    }

    method CreateSocket(rid: string, name: Field<string>, kind: Option<Kind>, group: Option<int>, number: Option<int>,
                        newId: string, lock: bool, write: Disk)
      returns (r: Result)
      requires Ok() && IdOk(newId) && newId !in Ids(doc)
      modifies this
      ensures Ok()
      ensures var checks := CreateSocketCheck(old(doc), key, rid, name, kind, group, number, newId);
              if checks == Done then
                Outcome(r, lock, write, checks,
                    AddSocket(rid, newId, name.value, Address(kind.value, group.value, number.value)))
              else r == (if lock then checks else Failed(StoreError)) && doc == old(doc)
      ensures r == Done ==>
                name.Given? && kind.Some? && group.Some? && number.Some?
                && SocketAdded(old(doc), doc, rid,
                               Socket(newId, name.value, Address(kind.value, group.value, number.value), None))
    {
      if !lock { return Failed(StoreError); }
      var data := doc;
      var k := FindRoom(data, rid);
      if k.None? { return Failed(NotFound); }
      if !name.Given? { return Failed(Invalid("name")); }
      var fields := CheckSocketFields(kind, group, number);
      if fields != Done { return fields; }
      var addr := Address(kind.value, group.value, number.value);
      IdInRooms(doc, k.value);
      var free := CheckSocketName(data[k.value].sockets, key, name.value, None);
      if !free { return Failed(NameConflict); }
      ApplyValid(doc, key, AddSocket(rid, newId, name.value, addr));
      var sock := Socket(newId, name.value, addr, None);
      AppendedIsUpdate(doc, k.value, sock);
      data := data[k.value := data[k.value].(sockets := data[k.value].sockets + [sock])];
      r := Commit(data, write);
    }

    method EditSocket(sid: string, name: Field<string>, kind: Field<Kind>, group: Field<int>, number: Field<int>,
                      roomId: Field<string>, lock: bool, write: Disk)
      returns (r: Result)
      requires Ok()
      modifies this
      ensures Ok()
      ensures var checks := EditSocketCheck(old(doc), key, sid, name, kind, group, number, roomId);
              if checks == Done then
                Outcome(r, lock, write, checks, EditOf(old(doc), sid, name, kind, group, number, roomId))
              else r == (if lock then checks else Failed(StoreError)) && doc == old(doc)
      ensures r == Done ==> SocketChanged(old(doc), doc, sid, name, kind, group, number, roomId)
    {
      if !lock { return Failed(StoreError); }
      var data;
      r, data := EditIn(doc, key, sid, name, kind, group, number, roomId);
      if r != Done { return; }
      ApplyValid(doc, key, EditOf(doc, sid, name, kind, group, number, roomId));
      EditIsAsAsked(doc, key, sid, name, kind, group, number, roomId);
      r := Commit(data, write);
    }

    method DeleteSocket(sid: string, lock: bool, write: Disk) returns (r: Result)
      requires Ok()
      modifies this
      ensures Ok() && Outcome(r, lock, write, DeleteSocketCheck(old(doc), sid), DropSocket(sid))
      ensures r == Done ==> SocketDropped(old(doc), doc, sid)
    {
      if !lock { return Failed(StoreError); }
      var data := doc;
      var place := FindSocket(data, sid);
      if place.None? { return Failed(NotFound); }
      var (k, j) := place.value;
      ApplyValid(doc, key, DropSocket(sid));
      SocketIsDropped(doc, key, k, j);
      WithoutIsGap(doc, k, j, sid);
      RoomSocketsApart(doc, k);
      RemoveFirstAt(doc[k].sockets, j);
      data := data[k := data[k].(sockets := RemoveFirst(data[k].sockets, data[k].sockets[j]))];
      r := Commit(data, write);
    }

    method OrderSockets(rid: string, ids: Field<seq<string>>, lock: bool, write: Disk) returns (r: Result)
      requires Ok()
      modifies this
      ensures Ok()
      ensures Outcome(r, lock, write, OrderSocketsCheck(old(doc), rid, ids), Change.OrderSockets(rid, Or(ids, [])))
    {
      if !lock { return Failed(StoreError); }
      var data := doc;
      var found := FindRoom(data, rid);
      if found.None? { return Failed(NotFound); }
      if !ids.Given? { return Failed(Invalid("ids")); }
      var k := found.value;
      CheckIsReorder(ids.value, SocketIdList(data[k].sockets));
      if !CheckPermutation(ids.value, SocketIdList(data[k].sockets)) { return Failed(OrderMismatch); }
      ApplyValid(doc, key, Change.OrderSockets(rid, ids.value));
      RoomSocketsApart(doc, k);
      var next := PickSockets(data[k].sockets, ids.value);
      ReorderFinds(doc[k].sockets, ids.value);
      assert next == Reordered(doc[k].sockets, ids.value);
      data := data[k := data[k].(sockets := next)];
      r := Commit(data, write);
    }

    /** Store.record_last_sent(): what could not be written is not reported as written. */
    method RecordLastSent(ids: seq<string>, addr: Address, on: bool, at: At, lock: bool, write: Disk)
      returns (r: Result, written: seq<string>)
      requires Ok()
      modifies this
      ensures Ok()
      ensures var next := DocRecorded(old(doc), ids, addr, on, at);
              r == (if lock && (next == old(doc) || write.Replaces?) then Done else Failed(StoreError))
              && doc == if lock && !write.Refuses? then next else old(doc)
      ensures written == if r == Done then Written(old(doc), ids, addr, at) else []
    {
      if !lock { return Failed(StoreError), []; }
      var data;
      data, written := RecordEach(doc, ids, addr, on, at);
      RecordedValid(doc, ids, addr, on, at);
      r := Commit(data, write);
      if r != Done {
        written := [];
      }
    }
  }

  /** The function that record_last_sent() runs under the lock. */
  method RecordEach(doc: Document, ids: seq<string>, addr: Address, on: bool, at: At)
    returns (data: Document, written: seq<string>)
    requires Valid(doc)
    ensures data == DocRecorded(doc, ids, addr, on, at)
    ensures written == Written(doc, ids, addr, at)
  {
    RecordNothing(doc, addr, on, at);
    data, written := doc, [];
    for n := 0 to |ids|
      invariant data == DocRecorded(doc, ids[..n], addr, on, at)
      invariant written == Written(doc, ids[..n], addr, at)
    {
      NextRecord(doc, ids, n, addr, on, at);
      var place := FindSocket(data, ids[n]);
      if place.Some? {
        var (k, j) := place.value;
        var s := data[k].sockets[j];
        if s.addr == addr && Writes(s.lastSent, at) {
          data := data[k := data[k].(sockets := data[k].sockets[j := s.(lastSent := Some(LastSent(on, at)))])];
          written := written + [ids[n]];
        }
      }
    }
    assert ids[..|ids|] == ids;
  }

  /** One more id records at its own place, on top of what was recorded before. */
  lemma {:induction false} NextRecord(doc: Document, ids: seq<string>, n: nat, addr: Address, on: bool, at: At)
    requires Valid(doc) && n < |ids|
    ensures var now, next := DocRecorded(doc, ids[..n], addr, on, at), DocRecorded(doc, ids[..n + 1], addr, on, at);
            Written(doc, ids[..n + 1], addr, at)
            == Written(doc, ids[..n], addr, at) + (if Takes(now, ids[n], addr, at) then [ids[n]] else [])
            && (!Takes(now, ids[n], addr, at) ==> next == now)
            && (Takes(now, ids[n], addr, at) ==>
                  var (k, j) := FindSocket(now, ids[n]).value;
                  var s := now[k].sockets[j].(lastSent := Some(LastSent(on, at)));
                  next == now[k := now[k].(sockets := now[k].sockets[j := s])])
  {
    assert ids[..n + 1] == ids[..n] + [ids[n]] && ids[..n + 1][..n] == ids[..n];
    FoundAsBefore(doc, ids[..n], addr, on, at, ids[n]);
    RecordOnTop(doc, ids[..n], ids[n], addr, on, at);
    RecordedValid(doc, ids[..n], addr, on, at);
    RecordForOne(DocRecorded(doc, ids[..n], addr, on, at), ids[n], addr, on, at);
  }

  /** The checks of the edit route, in their order. */
  method CheckEdit(doc: Document, key: string -> string, sid: string, name: Field<string>, kind: Field<Kind>,
                   group: Field<int>, number: Field<int>, roomId: Field<string>, place: Option<(nat, nat)>)
    returns (r: Result, target: nat)
    requires Valid(doc) && place == FindSocket(doc, sid)
    ensures r == EditSocketCheck(doc, key, sid, name, kind, group, number, roomId)
    ensures r == Done ==> place.Some? && TargetOf(doc, place.value.0, roomId) == Some(target)
  {
    if place.None? { return Failed(NotFound), 0; }
    var (k, j) := place.value;
    var s := doc[k].sockets[j];
    if name.Bad? { return Failed(Invalid("name")), 0; }
    var fields := CheckSocketFields(Merge(kind, s.addr.kind), Merge(group, s.addr.group), Merge(number, s.addr.number));
    if fields != Done { return fields, 0; }
    var found := TargetRoom(doc, k, roomId);
    if found.None? { return Failed(Invalid("room_id")), 0; }
    target := found.value;
    NamesByPlace(doc, key, sid, k, j, target, Or(name, s.name));
    if name.Given? || target != k {
      var free := CheckSocketName(doc[target].sockets, key, Or(name, s.name), if target == k then Some(j) else None);
      if !free { return Failed(NameConflict), target; }
    }
    r := Done;
  }

  /** The function that the edit route runs under the lock. */
  method EditIn(doc: Document, key: string -> string, sid: string, name: Field<string>, kind: Field<Kind>,
                group: Field<int>, number: Field<int>, roomId: Field<string>)
    returns (r: Result, data: Document)
    requires Valid(doc)
    ensures r == EditSocketCheck(doc, key, sid, name, kind, group, number, roomId)
    ensures r == Done ==>
              (var ch := EditOf(doc, sid, name, kind, group, number, roomId);
               Allowed(doc, key, ch) && data == Apply(doc, key, ch))
  {
    var place := FindSocket(doc, sid);
    var target;
    r, target := CheckEdit(doc, key, sid, name, kind, group, number, roomId, place);
    if r != Done { return r, doc; }
    var (k, j) := place.value;
    var s := doc[k].sockets[j];
    var addr := Address(Or(kind, s.addr.kind), Or(group, s.addr.group), Or(number, s.addr.number));
    EditAccepted(doc, key, sid, name, kind, group, number, roomId, k, j, target);
    data := PutEdited(doc, sid, k, j, target, Edited(s, Or(name, s.name), addr));
  }

  /** An edit that passes the checks is a change that is allowed. */
  lemma {:induction false} EditAccepted(doc: Document, key: string -> string, sid: string, name: Field<string>,
                                        kind: Field<Kind>, group: Field<int>, number: Field<int>,
                                        roomId: Field<string>, k: nat, j: nat, target: nat)
    requires Valid(doc) && EditSocketCheck(doc, key, sid, name, kind, group, number, roomId) == Done
    requires FindSocket(doc, sid) == Some((k, j)) && TargetOf(doc, k, roomId) == Some(target)
    ensures var ch := EditOf(doc, sid, name, kind, group, number, roomId);
            Allowed(doc, key, ch)
            && Apply(doc, key, ch)
               == Moved(doc, sid, Edited(doc[k].sockets[j], ch.name, ch.addr), doc[k].id, doc[target].id)
  {
    TargetById(doc, k, roomId, target);
  }

  /** The socket is changed at its place, and then moved to the end of another room if that is asked. */
  method PutEdited(doc: Document, sid: string, k: nat, j: nat, target: nat, edited: Socket) returns (data: Document)
    requires UniqueIds(doc) && StandsAt(doc, k, j, sid) && target < |doc| && edited.id == sid
    ensures data == Moved(doc, sid, edited, doc[k].id, doc[target].id)
  {
    OthersById(doc, target);
    ReplacedIsUpdate(doc, k, j, sid, edited);
    data := doc[k := doc[k].(sockets := doc[k].sockets[j := edited])];
    if target != k {
      MoveIsWithoutAppend(doc, k, j, target, edited);
      data := data[k := data[k].(sockets := RemoveFirst(data[k].sockets, edited))];
      data := data[target := data[target].(sockets := data[target].sockets + [edited])];
    }
  }

  /** Sockets other than the one at a place are those with another id. */
  lemma {:induction false} NamesByPlace(doc: Document, key: string -> string, sid: string, k: nat, j: nat, target: nat,
                                        name: string)
    requires UniqueIds(doc) && StandsAt(doc, k, j, sid) && target < |doc|
    ensures var ss := doc[target].sockets;
            var own := if target == k then Some(j) else None;
            SocketNameFree(ss, key, name, sid)
            <==> forall m :: 0 <= m < |ss| && own != Some(m) ==> key(ss[m].name) != key(name)
  {
    var ss := doc[target].sockets;
    forall m | 0 <= m < |ss|
      ensures ss[m].id == sid <==> target == k && m == j
    {
      if ss[m].id == sid {
        OnePlace(doc, k, j, target, m, sid);
      }
    }
  }

  lemma {:induction false} TargetById(doc: Document, k: nat, roomId: Field<string>, target: nat)
    requires UniqueIds(doc) && k < |doc| && TargetOf(doc, k, roomId) == Some(target)
    ensures doc[target].id == Or(roomId, doc[k].id) && FindRoom(doc, doc[target].id) == Some(target)
  {
    OneRoom(doc, target, FindRoom(doc, doc[target].id).value);
  }

  /** Removing the edited socket from its room and appending it to the other is the move by ids. */
  lemma {:induction false} MoveIsWithoutAppend(doc: Document, k: nat, j: nat, target: nat, edited: Socket)
    requires UniqueIds(doc) && k < |doc| && j < |doc[k].sockets| && target < |doc| && target != k
    requires edited.id == doc[k].sockets[j].id
    ensures RemoveFirst(doc[k].sockets[j := edited], edited) == doc[k].sockets[..j] + doc[k].sockets[j + 1..]
    ensures DocAppended(DocWithout(doc, edited.id), doc[target].id, edited)
         == doc[k := doc[k].(sockets := doc[k].sockets[..j] + doc[k].sockets[j + 1..])]
               [target := doc[target].(sockets := doc[target].sockets + [edited])]
  {
    RoomSocketsApart(doc, k);
    var ss := doc[k].sockets[j := edited];
    RemoveFirstAt(ss, j);
    assert ss[..j] + ss[j + 1..] == doc[k].sockets[..j] + doc[k].sockets[j + 1..];
    WithoutIsGap(doc, k, j, edited.id);
    forall i | 0 <= i < |doc| && doc[i].id == doc[target].id
      ensures i == target
    {
      OneRoom(doc, i, target);
    }
  }

  lemma {:induction false} RecordNothing(doc: Document, addr: Address, on: bool, at: At)
    ensures DocRecorded(doc, [], addr, on, at) == doc
  {
    forall i | 0 <= i < |doc|
      ensures SocketsRecorded(doc[i].sockets, [], addr, on, at) == doc[i].sockets
    {
    }
  }

  /** Recording for one more id is recording for that id alone on top. */
  lemma {:induction false} RecordOnTop(doc: Document, ids: seq<string>, sid: string, addr: Address, on: bool, at: At)
    ensures DocRecorded(doc, ids + [sid], addr, on, at)
            == DocRecorded(DocRecorded(doc, ids, addr, on, at), [sid], addr, on, at)
  {
    var now := DocRecorded(doc, ids, addr, on, at);
    forall i | 0 <= i < |doc|
      ensures SocketsRecorded(doc[i].sockets, ids + [sid], addr, on, at)
              == SocketsRecorded(now[i].sockets, [sid], addr, on, at)
    {
      forall j | 0 <= j < |doc[i].sockets|
        ensures SocketsRecorded(doc[i].sockets, ids + [sid], addr, on, at)[j]
                == SocketsRecorded(now[i].sockets, [sid], addr, on, at)[j]
      {
        RecordTwice(doc[i].sockets[j], addr, on, at);
      }
    }
  }

  lemma {:induction false} RecordTwice(s: Socket, addr: Address, on: bool, at: At)
    ensures SocketRecorded(SocketRecorded(s, addr, on, at), addr, on, at) == SocketRecorded(s, addr, on, at)
    ensures Writes(SocketRecorded(s, addr, on, at).lastSent, at) == Writes(s.lastSent, at) || s.addr != addr
  {
  }

  /** For one id the record touches one place at most. */
  lemma {:induction false} RecordForOne(doc: Document, sid: string, addr: Address, on: bool, at: At)
    requires UniqueIds(doc)
    ensures var next := DocRecorded(doc, [sid], addr, on, at);
            match FindSocket(doc, sid)
            case None => next == doc
            case Some((k, j)) =>
              next == doc[k := doc[k].(sockets := doc[k].sockets[j := SocketRecorded(doc[k].sockets[j], addr, on, at)])]
              && (SocketRecorded(doc[k].sockets[j], addr, on, at) == doc[k].sockets[j] ==> next == doc)
  {
    var next := DocRecorded(doc, [sid], addr, on, at);
    var place := FindSocket(doc, sid);
    forall i, m | 0 <= i < |doc| && 0 <= m < |doc[i].sockets| && doc[i].sockets[m].id == sid
      ensures place == Some((i, m))
    {
      assert StandsAt(doc, i, m, sid);
      OnePlace(doc, place.value.0, place.value.1, i, m, sid);
    }
    forall i | 0 <= i < |doc|
      ensures var sockets := doc[i].sockets;
              next[i].sockets == if place.Some? && place.value.0 == i
                                 then sockets[place.value.1 := SocketRecorded(sockets[place.value.1], addr, on, at)]
                                 else sockets
    {
    }
    if place.Some?
       && SocketRecorded(doc[place.value.0].sockets[place.value.1], addr, on, at)
          == doc[place.value.0].sockets[place.value.1]
    {
      forall i | 0 <= i < |doc|
        ensures next[i] == doc[i]
      {
        assert next[i].sockets == doc[i].sockets;
      }
    }
  }

  /** A record moves nothing, so every id is found where it was, and takes the same record as before. */
  lemma {:induction false} FoundAsBefore(doc: Document, ids: seq<string>, addr: Address, on: bool, at: At, sid: string)
    requires Valid(doc)
    ensures var now := DocRecorded(doc, ids, addr, on, at);
            FindSocket(now, sid) == FindSocket(doc, sid) && (Takes(now, sid, addr, at) <==> Takes(doc, sid, addr, at))
  {
    var now := DocRecorded(doc, ids, addr, on, at);
    RecordedValid(doc, ids, addr, on, at);
    var p, q := FindSocket(doc, sid), FindSocket(now, sid);
    if p.Some? {
      assert StandsAt(now, p.value.0, p.value.1, sid);
      OnePlace(now, p.value.0, p.value.1, q.value.0, q.value.1, sid);
      RecordTwice(SocketAt(doc, p.value), addr, on, at);
    } else if q.Some? {
      assert StandsAt(doc, q.value.0, q.value.1, sid);
    }
  }
}
