/**
 Every change of the household document, said by what it leaves, and what all of them
 keep: validity, unique names, and every socket that the change is not about.
 */
module Changes {
  import opened Text
  import opened Household

  /** A change as it has passed the checks of its route. */
  datatype Change =
    | AddRoom(id: string, name: string)
    | RenameRoom(rid: string, name: string)
    | DropRoom(rid: string)
    | OrderRooms(ids: seq<string>)
    | AddSocket(rid: string, id: string, name: string, addr: Address)
    | EditSocket(sid: string, name: string, addr: Address, target: string)
    | DropSocket(sid: string)
    | OrderSockets(rid: string, ids: seq<string>)

  predicate Distinct<T(==)>(s: seq<T>) { forall i, j :: 0 <= i < j < |s| ==> s[i] != s[j] }

  /** check_permutation(). */
  predicate IsReorder(ids: seq<string>, current: seq<string>) {
    Distinct(ids) && (forall i :: 0 <= i < |ids| ==> ids[i] in current)
    && (forall i :: 0 <= i < |current| ==> current[i] in ids)
  }

  function RoomIdList(doc: Document): seq<string> { seq(|doc|, i requires 0 <= i < |doc| => doc[i].id) }

  function SocketIdList(ss: seq<Socket>): seq<string> { seq(|ss|, j requires 0 <= j < |ss| => ss[j].id) }

  predicate RoomNameFree(doc: Document, key: string -> string, name: string, own: string) {
    forall i :: 0 <= i < |doc| && doc[i].id != own ==> key(doc[i].name) != key(name)
  }

  predicate SocketNameFree(ss: seq<Socket>, key: string -> string, name: string, own: string) {
    forall j :: 0 <= j < |ss| && ss[j].id != own ==> key(ss[j].name) != key(name)
  }

  function SocketAt(doc: Document, place: (nat, nat)): Socket
    requires place.0 < |doc| && place.1 < |doc[place.0].sockets|
  {
    doc[place.0].sockets[place.1]
  }

  /** The checks of the routes. */
  ghost predicate Allowed(doc: Document, key: string -> string, ch: Change) {
    match ch
    case AddRoom(id, name) => IdOk(id) && id !in Ids(doc) && RoomNameFree(doc, key, name, id)
    case RenameRoom(rid, name) => FindRoom(doc, rid).Some? && RoomNameFree(doc, key, name, rid)
    case DropRoom(rid) => FindRoom(doc, rid).Some? && doc[FindRoom(doc, rid).value].sockets == []
    case OrderRooms(ids) => IsReorder(ids, RoomIdList(doc))
    case AddSocket(rid, id, name, addr) =>
      FindRoom(doc, rid).Some? && IdOk(id) && id !in Ids(doc) && AddressOk(addr)
      && SocketNameFree(doc[FindRoom(doc, rid).value].sockets, key, name, id)
    case EditSocket(sid, name, addr, target) =>
      FindSocket(doc, sid).Some? && FindRoom(doc, target).Some? && AddressOk(addr)
      && var place := FindSocket(doc, sid).value;
         (doc[place.0].id == target && SocketAt(doc, place).name == name)
         || SocketNameFree(doc[FindRoom(doc, target).value].sockets, key, name, sid)
    case DropSocket(sid) => FindSocket(doc, sid).Some?
    case OrderSockets(rid, ids) =>
      FindRoom(doc, rid).Some? && IsReorder(ids, SocketIdList(doc[FindRoom(doc, rid).value].sockets))
  }

  /** A socket with new fields: another address forgets what was sent to the old one. */
  function Edited(s: Socket, name: string, addr: Address): Socket {
    s.(name := name, addr := addr, lastSent := if addr == s.addr then s.lastSent else None)
  }

  function Picked(ss: seq<Socket>, sid: string): Socket
    requires FindIn(ss, sid).Some?
  {
    ss[FindIn(ss, sid).value]
  }

  function Reordered(ss: seq<Socket>, ids: seq<string>): seq<Socket>
    requires forall i :: 0 <= i < |ids| ==> FindIn(ss, ids[i]).Some?
  {
    seq(|ids|, i requires 0 <= i < |ids| => Picked(ss, ids[i]))
  }

  lemma {:induction false} ReorderFinds(ss: seq<Socket>, ids: seq<string>)
    requires IsReorder(ids, SocketIdList(ss))
    ensures forall i :: 0 <= i < |ids| ==> FindIn(ss, ids[i]).Some?
  {
    forall i | 0 <= i < |ids|
      ensures FindIn(ss, ids[i]).Some?
    {
      assert ids[i] in SocketIdList(ss);
    }
  }

  lemma {:induction false} RoomReorderFinds(doc: Document, ids: seq<string>)
    requires IsReorder(ids, RoomIdList(doc))
    ensures forall i :: 0 <= i < |ids| ==> FindRoom(doc, ids[i]).Some?
  {
    forall i | 0 <= i < |ids|
      ensures FindRoom(doc, ids[i]).Some?
    {
      assert ids[i] in RoomIdList(doc);
    }
  }

  function DocReordered(doc: Document, rid: string, ids: seq<string>): Document
    requires FindRoom(doc, rid).Some?
    requires IsReorder(ids, SocketIdList(doc[FindRoom(doc, rid).value].sockets))
  {
    var k := FindRoom(doc, rid).value;
    ReorderFinds(doc[k].sockets, ids);
    doc[k := doc[k].(sockets := Reordered(doc[k].sockets, ids))]
  }

  function RoomsReordered(doc: Document, ids: seq<string>): Document
    requires IsReorder(ids, RoomIdList(doc))
  {
    RoomReorderFinds(doc, ids);
    seq(|ids|, i requires 0 <= i < |ids| => doc[FindRoom(doc, ids[i]).value])
  }

  function Moved(doc: Document, sid: string, next: Socket, from: string, target: string): Document {
    if from == target then DocReplaced(doc, sid, next)
    else DocAppended(DocWithout(doc, sid), target, next)
  }

  /** The document after a change. */
  ghost function Apply(doc: Document, key: string -> string, ch: Change): Document
    requires Allowed(doc, key, ch)
  {
    match ch
    case AddRoom(id, name) => doc + [Room(id, name, [])]
    case RenameRoom(rid, name) => DocRenamed(doc, rid, name)
    case DropRoom(rid) => RoomsWithout(doc, rid)
    case OrderRooms(ids) => RoomsReordered(doc, ids)
    case AddSocket(rid, id, name, addr) => DocAppended(doc, rid, Socket(id, name, addr, None))
    case EditSocket(sid, name, addr, target) =>
      var place := FindSocket(doc, sid).value;
      Moved(doc, sid, Edited(SocketAt(doc, place), name, addr), doc[place.0].id, target)
    case DropSocket(sid) => DocWithout(doc, sid)
    case OrderSockets(rid, ids) => DocReordered(doc, rid, ids)
  }

  // ---------- The declarative forms, place by place ----------

  /** Replacing by id touches one place. */
  lemma {:induction false} ReplacedIsUpdate(doc: Document, k: nat, j: nat, sid: string, next: Socket)
    requires UniqueIds(doc) && StandsAt(doc, k, j, sid)
    ensures DocReplaced(doc, sid, next) == doc[k := doc[k].(sockets := doc[k].sockets[j := next])]
  {
    forall i, m | 0 <= i < |doc| && 0 <= m < |doc[i].sockets| && doc[i].sockets[m].id == sid
      ensures i == k && m == j
    {
      OnePlace(doc, k, j, i, m, sid);
    }
    forall i | 0 <= i < |doc|
      ensures DocReplaced(doc, sid, next)[i] == doc[k := doc[k].(sockets := doc[k].sockets[j := next])][i]
    {
      if i == k {
        assert Replaced(doc[k].sockets, sid, next) == doc[k].sockets[j := next];
      } else {
        assert Replaced(doc[i].sockets, sid, next) == doc[i].sockets;
      }
    }
  }

  /** Leaving out by id closes one gap. */
  lemma {:induction false} WithoutIsGap(doc: Document, k: nat, j: nat, sid: string)
    requires UniqueIds(doc) && StandsAt(doc, k, j, sid)
    ensures DocWithout(doc, sid) == doc[k := doc[k].(sockets := doc[k].sockets[..j] + doc[k].sockets[j + 1..])]
  {
    forall i, m | 0 <= i < |doc| && 0 <= m < |doc[i].sockets| && doc[i].sockets[m].id == sid
      ensures i == k && m == j
    {
      OnePlace(doc, k, j, i, m, sid);
    }
    forall i | 0 <= i < |doc|
      ensures DocWithout(doc, sid)[i].sockets ==
              if i == k then doc[k].sockets[..j] + doc[k].sockets[j + 1..] else doc[i].sockets
    {
      if i == k {
        WithoutOne(doc[k].sockets, j);
      } else {
        WithoutAbsent(doc[i].sockets, sid);
      }
    }
  }

  /** Appending by room id touches one room. */
  lemma {:induction false} AppendedIsUpdate(doc: Document, k: nat, s: Socket)
    requires UniqueIds(doc) && k < |doc|
    ensures DocAppended(doc, doc[k].id, s) == doc[k := doc[k].(sockets := doc[k].sockets + [s])]
  {
    forall i | 0 <= i < |doc| && doc[i].id == doc[k].id
      ensures i == k
    {
      OneRoom(doc, i, k);
    }
  }

  lemma {:induction false} RenamedIsUpdate(doc: Document, k: nat, name: string)
    requires UniqueIds(doc) && k < |doc|
    ensures DocRenamed(doc, doc[k].id, name) == doc[k := doc[k].(name := name)]
  {
    forall i | 0 <= i < |doc| && doc[i].id == doc[k].id
      ensures i == k
    {
      OneRoom(doc, i, k);
    }
  }

  lemma {:induction false} RoomsWithoutAbsent(doc: Document, rid: string)
    requires forall i :: 0 <= i < |doc| ==> doc[i].id != rid
    ensures RoomsWithout(doc, rid) == doc
  {
    if |doc| > 0 {
      RoomsWithoutAbsent(doc[..|doc| - 1], rid);
      assert doc == doc[..|doc| - 1] + [doc[|doc| - 1]];
    }
  }

  lemma {:induction false} RoomsWithoutOne(doc: Document, k: nat)
    requires k < |doc| && forall i :: 0 <= i < |doc| && i != k ==> doc[i].id != doc[k].id
    ensures RoomsWithout(doc, doc[k].id) == doc[..k] + doc[k + 1..]
  {
    var front, last := doc[..|doc| - 1], doc[|doc| - 1];
    if k == |doc| - 1 {
      RoomsWithoutAbsent(front, doc[k].id);
      assert front + [] == doc[..k] + doc[k + 1..];
    } else {
      RoomsWithoutOne(front, k);
      assert front[k] == doc[k];
      assert (front[..k] + front[k + 1..]) + [last] == doc[..k] + doc[k + 1..];
    }
  }

  lemma {:induction false} RoomsWithoutIsGap(doc: Document, k: nat)
    requires UniqueIds(doc) && k < |doc|
    ensures RoomsWithout(doc, doc[k].id) == doc[..k] + doc[k + 1..]
  {
    forall i | 0 <= i < |doc| && doc[i].id == doc[k].id
      ensures i == k
    {
      OneRoom(doc, i, k);
    }
    RoomsWithoutOne(doc, k);
  }

  // ---------- A reorder is a permutation ----------

  lemma {:induction false} DistinctCounts<T>(s: seq<T>, x: T)
    requires Distinct(s)
    ensures multiset(s)[x] == if x in s then 1 else 0
  {
    if |s| > 0 {
      DistinctCounts(s[..|s| - 1], x);
      assert s == s[..|s| - 1] + [s[|s| - 1]];
    }
  }

  lemma {:induction false} SameElements<T>(a: seq<T>, b: seq<T>)
    requires Distinct(a) && Distinct(b)
    requires (forall i :: 0 <= i < |a| ==> a[i] in b) && (forall i :: 0 <= i < |b| ==> b[i] in a)
    ensures multiset(a) == multiset(b)
  {
    forall x: T
      ensures multiset(a)[x] == multiset(b)[x]
    {
      DistinctCounts(a, x);
      DistinctCounts(b, x);
    }
  }

  lemma {:induction false} SocketsReordered(ss: seq<Socket>, ids: seq<string>)
    requires IsReorder(ids, SocketIdList(ss))
    requires forall i, j :: 0 <= i < j < |ss| ==> ss[i].id != ss[j].id
    requires forall i :: 0 <= i < |ids| ==> FindIn(ss, ids[i]).Some?
    ensures multiset(Reordered(ss, ids)) == multiset(ss)
    ensures SocketIdList(Reordered(ss, ids)) == ids
  {
    var out := Reordered(ss, ids);
    forall i | 0 <= i < |ids|
      ensures out[i].id == ids[i] && out[i] in ss
    {
    }
    forall j | 0 <= j < |ss|
      ensures ss[j] in out
    {
      assert SocketIdList(ss)[j] in ids;
      var i :| 0 <= i < |ids| && ids[i] == ss[j].id;
      assert FindIn(ss, ids[i]).value == j;
      assert out[i] == ss[j];
    }
    SameElements(out, ss);
  }

  lemma {:induction false} RoomsReorderedKeep(doc: Document, ids: seq<string>)
    requires UniqueIds(doc) && IsReorder(ids, RoomIdList(doc))
    ensures multiset(RoomsReordered(doc, ids)) == multiset(doc)
    ensures RoomIdList(RoomsReordered(doc, ids)) == ids
  {
    var out := RoomsReordered(doc, ids);
    RoomReorderFinds(doc, ids);
    forall i, j | 0 <= i < j < |doc|
      ensures doc[i] != doc[j]
    {
      if doc[i] == doc[j] {
        OneRoom(doc, i, j);
      }
    }
    forall i | 0 <= i < |ids|
      ensures out[i].id == ids[i] && out[i] in doc
    {
    }
    forall j | 0 <= j < |doc|
      ensures doc[j] in out
    {
      assert RoomIdList(doc)[j] in ids;
      var i :| 0 <= i < |ids| && ids[i] == doc[j].id;
      OneRoom(doc, FindRoom(doc, ids[i]).value, j);
      assert out[i] == doc[j];
    }
    SameElements(out, doc);
  }

  lemma {:induction false} SocketIdsOfPermutation(a: seq<Socket>, b: seq<Socket>)
    requires multiset(a) == multiset(b)
    ensures SocketIds(a) == SocketIds(b)
    decreases |a|
  {
    if |a| == 0 {
      assert |multiset(b)| == 0;
    } else {
      var front, last := a[..|a| - 1], a[|a| - 1];
      assert a == front + [last];
      assert last in multiset(b);
      var k :| 0 <= k < |b| && b[k] == last;
      TakeOut(front, last, b, k);
      SocketIdsOfPermutation(front, b[..k] + b[k + 1..]);
      GapIds(b, k);
    }
  }

  // ---------- Every change keeps the document valid ----------

  lemma {:induction false} RoomSocketsApart(doc: Document, k: nat)
    requires UniqueIds(doc) && k < |doc|
    ensures forall i, j :: 0 <= i < j < |doc[k].sockets| ==> doc[k].sockets[i].id != doc[k].sockets[j].id
  {
    forall i, j | 0 <= i < j < |doc[k].sockets|
      ensures doc[k].sockets[i].id != doc[k].sockets[j].id
    {
      SocketsApart(doc, k, i, j);
    }
  }

  /** One room gets other sockets with the same ids. */
  lemma {:induction false} RoomKeepsIds(doc: Document, k: nat, ss: seq<Socket>)
    requires k < |doc| && SocketIds(ss) == SocketIds(doc[k].sockets)
    ensures Ids(doc[k := doc[k].(sockets := ss)]) == Ids(doc)
  {
    SameBag(doc[k := doc[k].(sockets := ss)], doc, RoomIds);
  }

  /** One room gets one more socket. */
  lemma {:induction false} RoomGainsId(doc: Document, k: nat, s: Socket)
    requires k < |doc|
    ensures Ids(doc[k := doc[k].(sockets := doc[k].sockets + [s])]) == Ids(doc) + multiset{s.id}
  {
    var next := doc[k := doc[k].(sockets := doc[k].sockets + [s])];
    SocketIdsAppend(doc[k].sockets, s);
    OneRoomChanged(doc, next, RoomIds, k);
    assert RoomIds(next[k]) == RoomIds(doc[k]) + multiset{s.id};
    Cancel(Ids(next), Ids(doc), RoomIds(doc[k]), multiset{s.id});
  }

  lemma {:induction false} Cancel<T>(a: multiset<T>, b: multiset<T>, x: multiset<T>, y: multiset<T>)
    requires a + x == b + (x + y)
    ensures a == b + y
  {
    assert a == (a + x) - x;
    assert b + y == (b + (x + y)) - x;
  }

  /** One room loses the socket at place j. */
  lemma {:induction false} RoomLosesId(doc: Document, k: nat, j: nat)
    requires k < |doc| && j < |doc[k].sockets|
    ensures Ids(doc) ==
            Ids(doc[k := doc[k].(sockets := doc[k].sockets[..j] + doc[k].sockets[j + 1..])])
            + multiset{doc[k].sockets[j].id}
  {
    var rest := doc[k].sockets[..j] + doc[k].sockets[j + 1..];
    var next := doc[k := doc[k].(sockets := rest)];
    GapIds(doc[k].sockets, j);
    OneRoomChanged(next, doc, RoomIds, k);
    assert RoomIds(doc[k]) == RoomIds(next[k]) + multiset{doc[k].sockets[j].id};
    Cancel(Ids(doc), Ids(next), RoomIds(next[k]), multiset{doc[k].sockets[j].id});
  }

  lemma {:induction false} AddRoomValid(doc: Document, key: string -> string, id: string, name: string)
    requires Valid(doc) && Allowed(doc, key, AddRoom(id, name))
    ensures Valid(Apply(doc, key, AddRoom(id, name)))
  {
    BagAppend(doc, Room(id, name, []), RoomIds);
  }

  lemma {:induction false} RenamedValid(doc: Document, k: nat, name: string)
    requires Valid(doc) && k < |doc|
    ensures Valid(DocRenamed(doc, doc[k].id, name))
  {
    RenamedIsUpdate(doc, k, name);
    var next := doc[k := doc[k].(name := name)];
    SameBag(next, doc, RoomIds);
    assert Ids(next) == Ids(doc);
    assert RoomOk(doc[k]);
  }

  lemma {:induction false} DroppedValid(doc: Document, k: nat)
    requires Valid(doc) && k < |doc|
    ensures Valid(RoomsWithout(doc, doc[k].id))
  {
    RoomsWithoutIsGap(doc, k);
    BagGap(doc, k, RoomIds);
    var next := doc[..k] + doc[k + 1..];
    FewerIds(next, doc, RoomIds(doc[k]));
    forall i | 0 <= i < |next|
      ensures RoomOk(next[i])
    {
      assert next[i] == if i < k then doc[i] else doc[i + 1];
    }
  }

  lemma {:induction false} FewerIds(next: Document, doc: Document, gone: multiset<string>)
    requires UniqueIds(doc) && Ids(next) + gone == Ids(doc)
    ensures UniqueIds(next)
  {
    forall id
      ensures Ids(next)[id] <= 1
    {
      assert Ids(next)[id] <= (Ids(next) + gone)[id];
    }
  }

  lemma {:induction false} PermutationValid(next: Document, doc: Document)
    requires Valid(doc) && multiset(next) == multiset(doc)
    ensures Valid(next)
  {
    BagOfPermutation(next, doc, RoomIds);
    assert Ids(next) == Ids(doc);
    forall i | 0 <= i < |next|
      ensures RoomOk(next[i])
    {
      assert next[i] in multiset(next);
      assert next[i] in doc;
    }
  }

  lemma {:induction false} AppendedValid(doc: Document, k: nat, s: Socket)
    requires Valid(doc) && k < |doc| && SocketOk(s) && s.id !in Ids(doc)
    ensures Valid(DocAppended(doc, doc[k].id, s))
  {
    AppendedIsUpdate(doc, k, s);
    RoomGainsId(doc, k, s);
    assert RoomOk(doc[k]);
  }

  lemma {:induction false} WithoutValid(doc: Document, k: nat, j: nat, sid: string)
    requires Valid(doc) && StandsAt(doc, k, j, sid)
    ensures Valid(DocWithout(doc, sid)) && sid !in Ids(DocWithout(doc, sid))
    ensures |DocWithout(doc, sid)| == |doc| && RoomIdList(DocWithout(doc, sid)) == RoomIdList(doc)
  {
    WithoutIsGap(doc, k, j, sid);
    RoomLosesId(doc, k, j);
    OneIdLess(Ids(doc), Ids(DocWithout(doc, sid)), sid);
    assert RoomOk(doc[k]);
    OneRoomValid(doc, k, doc[k].sockets[..j] + doc[k].sockets[j + 1..], multiset{sid});
  }

  lemma {:induction false} OneIdLess(ids: multiset<string>, rest: multiset<string>, sid: string)
    requires ids == rest + multiset{sid} && forall id :: ids[id] <= 1
    ensures sid !in rest && forall id :: rest[id] <= 1
  {
    forall id
      ensures rest[id] <= 1 && (id == sid ==> rest[id] == 0)
    {
      assert ids[id] == (rest + multiset{sid})[id] <= 1;
    }
  }

  lemma {:induction false} UpdatedRoomOk(r: Room, j: nat, next: Socket)
    requires RoomOk(r) && j < |r.sockets| && SocketOk(next)
    ensures RoomOk(r.(sockets := r.sockets[j := next]))
  {
  }

  lemma {:induction false} SocketUpdateValid(doc: Document, k: nat, j: nat, next: Socket)
    requires Valid(doc) && k < |doc| && j < |doc[k].sockets| && SocketOk(next) && next.id == doc[k].sockets[j].id
    ensures Valid(doc[k := doc[k].(sockets := doc[k].sockets[j := next])])
  {
    var ss := doc[k].sockets[j := next];
    UpdatedRoomOk(doc[k], j, next);
    SameSocketIds(ss, doc[k].sockets);
    RoomKeepsIds(doc, k, ss);
    NothingGone(Ids(doc));
    OneRoomValid(doc, k, ss, multiset{});
  }

  lemma {:induction false} NothingGone(ids: multiset<string>)
    ensures ids + multiset{} == ids
  {
  }

  lemma {:induction false} ReplacedValid(doc: Document, k: nat, j: nat, sid: string, next: Socket)
    requires Valid(doc) && StandsAt(doc, k, j, sid) && SocketOk(next) && next.id == sid
    ensures Valid(DocReplaced(doc, sid, next))
  {
    ReplacedIsUpdate(doc, k, j, sid, next);
    SocketUpdateValid(doc, k, j, next);
  }

  /** A room with other sockets that are in order, and no new ids in all. */
  lemma {:induction false} OneRoomValid(doc: Document, k: nat, ss: seq<Socket>, gone: multiset<string>)
    requires Valid(doc) && k < |doc| && Ids(doc[k := doc[k].(sockets := ss)]) + gone == Ids(doc)
    requires RoomOk(doc[k].(sockets := ss))
    ensures Valid(doc[k := doc[k].(sockets := ss)])
  {
    FewerIds(doc[k := doc[k].(sockets := ss)], doc, gone);
  }

  lemma {:induction false} AddSocketValid(doc: Document, key: string -> string, ch: Change)
    requires ch.AddSocket? && Valid(doc) && Allowed(doc, key, ch)
    ensures Valid(Apply(doc, key, ch))
  {
    AppendedValid(doc, FindRoom(doc, ch.rid).value, Socket(ch.id, ch.name, ch.addr, None));
  }

  lemma {:induction false} EditSocketValid(doc: Document, key: string -> string, ch: Change)
    requires ch.EditSocket? && Valid(doc) && Allowed(doc, key, ch)
    ensures Valid(Apply(doc, key, ch))
  {
    var (k, j) := FindSocket(doc, ch.sid).value;
    assert RoomOk(doc[k]);
    var next := Edited(SocketAt(doc, (k, j)), ch.name, ch.addr);
    if doc[k].id == ch.target {
      ReplacedValid(doc, k, j, ch.sid, next);
    } else {
      WithoutValid(doc, k, j, ch.sid);
      var target := FindRoom(doc, ch.target).value;
      assert RoomIdList(DocWithout(doc, ch.sid))[target] == RoomIdList(doc)[target] == ch.target;
      AppendedValid(DocWithout(doc, ch.sid), target, next);
    }
  }

  lemma {:induction false} ReorderedValid(doc: Document, rid: string, ids: seq<string>)
    requires Valid(doc) && FindRoom(doc, rid).Some?
    requires IsReorder(ids, SocketIdList(doc[FindRoom(doc, rid).value].sockets))
    ensures Valid(DocReordered(doc, rid, ids))
  {
    var k := FindRoom(doc, rid).value;
    ReorderFinds(doc[k].sockets, ids);
    RoomSocketsApart(doc, k);
    SocketsReordered(doc[k].sockets, ids);
    var out := Reordered(doc[k].sockets, ids);
    SocketIdsOfPermutation(out, doc[k].sockets);
    RoomKeepsIds(doc, k, out);
    SocketsStayOk(out, doc[k].sockets);
  }

  lemma {:induction false} SocketsStayOk(next: seq<Socket>, ss: seq<Socket>)
    requires multiset(next) == multiset(ss) && forall i :: 0 <= i < |ss| ==> SocketOk(ss[i])
    ensures forall i :: 0 <= i < |next| ==> SocketOk(next[i])
  {
    forall i | 0 <= i < |next|
      ensures SocketOk(next[i])
    {
      assert next[i] in multiset(next);
      assert next[i] in ss;
    }
  }

  /** A valid document stays valid under every change that the routes let through. */
  lemma {:induction false} ApplyValid(doc: Document, key: string -> string, ch: Change)
    requires Valid(doc) && Allowed(doc, key, ch)
    ensures Valid(Apply(doc, key, ch))
  {
    match ch {
      case AddRoom(id, name) => AddRoomValid(doc, key, id, name);
      case RenameRoom(rid, name) => RenamedValid(doc, FindRoom(doc, rid).value, name);
      case DropRoom(rid) => DroppedValid(doc, FindRoom(doc, rid).value);
      case OrderRooms(ids) =>
        RoomsReorderedKeep(doc, ids);
        PermutationValid(RoomsReordered(doc, ids), doc);
      case AddSocket(_, _, _, _) => AddSocketValid(doc, key, ch);
      case EditSocket(_, _, _, _) => EditSocketValid(doc, key, ch);
      case DropSocket(sid) =>
        var (k, j) := FindSocket(doc, sid).value;
        WithoutValid(doc, k, j, sid);
      case OrderSockets(rid, ids) => ReorderedValid(doc, rid, ids);
    }
  }

  // ---------- Every change leaves the rest alone ----------

  lemma {:induction false} WithoutTwice(ss: seq<Socket>, sid: string)
    ensures Without(Without(ss, sid), sid) == Without(ss, sid)
  {
    if |ss| > 0 {
      var front, last := ss[..|ss| - 1], ss[|ss| - 1];
      WithoutTwice(front, sid);
      if last.id == sid {
        assert Without(front, sid) + [] == Without(front, sid);
      } else {
        WithoutSnoc(Without(front, sid), last, sid);
      }
    }
  }

  lemma {:induction false} WithoutSnoc(ss: seq<Socket>, s: Socket, sid: string)
    ensures Without(ss + [s], sid) == Without(ss, sid) + if s.id == sid then [] else [s]
  {
    assert (ss + [s])[..|ss|] == ss;
  }

  lemma {:induction false} WithoutReplaced(ss: seq<Socket>, sid: string, next: Socket)
    requires next.id == sid
    ensures Without(Replaced(ss, sid, next), sid) == Without(ss, sid)
  {
    if |ss| > 0 {
      var front, last := ss[..|ss| - 1], ss[|ss| - 1];
      WithoutReplaced(front, sid, next);
      assert Replaced(ss, sid, next) == Replaced(front, sid, next) + [if last.id == sid then next else last];
      WithoutSnoc(Replaced(front, sid, next), if last.id == sid then next else last, sid);
    }
  }

  lemma {:induction false} DocWithoutTwice(doc: Document, sid: string)
    ensures DocWithout(DocWithout(doc, sid), sid) == DocWithout(doc, sid)
  {
    forall i | 0 <= i < |doc|
      ensures DocWithout(DocWithout(doc, sid), sid)[i] == DocWithout(doc, sid)[i]
    {
      WithoutTwice(doc[i].sockets, sid);
    }
  }

  lemma {:induction false} DocWithoutReplaced(doc: Document, sid: string, next: Socket)
    requires next.id == sid
    ensures DocWithout(DocReplaced(doc, sid, next), sid) == DocWithout(doc, sid)
  {
    forall i | 0 <= i < |doc|
      ensures DocWithout(DocReplaced(doc, sid, next), sid)[i] == DocWithout(doc, sid)[i]
    {
      WithoutReplaced(doc[i].sockets, sid, next);
    }
  }

  lemma {:induction false} DocWithoutAppended(doc: Document, rid: string, s: Socket)
    ensures DocWithout(DocAppended(doc, rid, s), s.id) == DocWithout(doc, s.id)
  {
    forall i | 0 <= i < |doc|
      ensures DocWithout(DocAppended(doc, rid, s), s.id)[i] == DocWithout(doc, s.id)[i]
    {
      WithoutSnoc(doc[i].sockets, s, s.id);
    }
  }

  /**
   A change of a socket is a change of that socket only: with it left out, the document
   is the same before and after, every other socket at its place and in its order.
   */
  lemma {:induction false} OnlySubjectChanges(doc: Document, key: string -> string, ch: Change)
    requires Allowed(doc, key, ch) && (ch.AddSocket? || ch.EditSocket? || ch.DropSocket?)
    ensures var sid := if ch.AddSocket? then ch.id else ch.sid;
            DocWithout(Apply(doc, key, ch), sid) == DocWithout(doc, sid)
  {
    match ch {
      case AddSocket(rid, id, name, addr) => DocWithoutAppended(doc, rid, Socket(id, name, addr, None));
      case DropSocket(sid) => DocWithoutTwice(doc, sid);
      case EditSocket(sid, name, addr, target) =>
        var place := FindSocket(doc, sid).value;
        var next := Edited(SocketAt(doc, place), name, addr);
        if doc[place.0].id == target {
          DocWithoutReplaced(doc, sid, next);
        } else {
          DocWithoutAppended(DocWithout(doc, sid), target, next);
          DocWithoutTwice(doc, sid);
        }
    }
  }

  lemma {:induction false} RoomsWithoutSnoc(doc: Document, r: Room, rid: string)
    ensures RoomsWithout(doc + [r], rid) == RoomsWithout(doc, rid) + if r.id == rid then [] else [r]
  {
    assert (doc + [r])[..|doc|] == doc;
  }

  lemma {:induction false} RoomsWithoutTwice(doc: Document, rid: string)
    ensures RoomsWithout(RoomsWithout(doc, rid), rid) == RoomsWithout(doc, rid)
  {
    if |doc| > 0 {
      var front, last := doc[..|doc| - 1], doc[|doc| - 1];
      RoomsWithoutTwice(front, rid);
      if last.id == rid {
        assert RoomsWithout(front, rid) + [] == RoomsWithout(front, rid);
      } else {
        RoomsWithoutSnoc(RoomsWithout(front, rid), last, rid);
      }
    }
  }

  lemma {:induction false} RoomsWithoutRenamed(doc: Document, rid: string, name: string)
    ensures RoomsWithout(DocRenamed(doc, rid, name), rid) == RoomsWithout(doc, rid)
  {
    if |doc| > 0 {
      var front, last := doc[..|doc| - 1], doc[|doc| - 1];
      RoomsWithoutRenamed(front, rid, name);
      var next := if last.id == rid then last.(name := name) else last;
      assert DocRenamed(doc, rid, name) == DocRenamed(front, rid, name) + [next];
      RoomsWithoutSnoc(DocRenamed(front, rid, name), next, rid);
    }
  }

  /**
   A change of a room leaves every other room as it is and in its order, and a dropped
   room held no socket.
   */
  lemma {:induction false} OnlyThatRoomChanges(doc: Document, key: string -> string, ch: Change)
    requires Allowed(doc, key, ch) && (ch.AddRoom? || ch.RenameRoom? || ch.DropRoom?)
    ensures var rid := if ch.AddRoom? then ch.id else ch.rid;
            RoomsWithout(Apply(doc, key, ch), rid) == RoomsWithout(doc, rid)
  {
    match ch {
      case AddRoom(id, name) =>
        RoomsWithoutSnoc(doc, Room(id, name, []), id);
        assert RoomsWithout(doc, id) + [] == RoomsWithout(doc, id);
      case RenameRoom(rid, name) => RoomsWithoutRenamed(doc, rid, name);
      case DropRoom(rid) => RoomsWithoutTwice(doc, rid);
    }
  }

  /** A reorder keeps every element and puts the elements in the order of the given ids. */
  lemma {:induction false} ReorderIsPermutation(doc: Document, key: string -> string, ch: Change)
    requires Valid(doc) && Allowed(doc, key, ch) && (ch.OrderRooms? || ch.OrderSockets?)
    ensures var next := Apply(doc, key, ch);
            match ch
            case OrderRooms(ids) => multiset(next) == multiset(doc) && RoomIdList(next) == ids
            case OrderSockets(rid, ids) =>
              var k := FindRoom(doc, rid).value;
              |next| == |doc| && next == doc[k := next[k]]
              && next[k] == doc[k].(sockets := next[k].sockets)
              && multiset(next[k].sockets) == multiset(doc[k].sockets)
              && SocketIdList(next[k].sockets) == ids
  {
    match ch {
      case OrderRooms(ids) => RoomsReorderedKeep(doc, ids);
      case OrderSockets(rid, ids) =>
        var k := FindRoom(doc, rid).value;
        ReorderFinds(doc[k].sockets, ids);
        RoomSocketsApart(doc, k);
        SocketsReordered(doc[k].sockets, ids);
    }
  }

  // ---------- Every change keeps the names unique ----------

  predicate NamesDiffer(ss: seq<Socket>, key: string -> string) {
    forall i, j :: 0 <= i < j < |ss| ==> key(ss[i].name) != key(ss[j].name)
  }

  /** No two rooms, and no two sockets of a room, have names with the same key. */
  predicate NamesUnique(doc: Document, key: string -> string) {
    (forall i, j :: 0 <= i < j < |doc| ==> key(doc[i].name) != key(doc[j].name))
    && forall i :: 0 <= i < |doc| ==> NamesDiffer(doc[i].sockets, key)
  }

  /** One room gets other sockets. */
  lemma {:induction false} RoomUpdateNames(doc: Document, key: string -> string, k: nat, ss: seq<Socket>)
    requires NamesUnique(doc, key) && k < |doc| && NamesDiffer(ss, key)
    ensures NamesUnique(doc[k := doc[k].(sockets := ss)], key)
  {
    var next := doc[k := doc[k].(sockets := ss)];
    forall i, j | 0 <= i < j < |next|
      ensures key(next[i].name) != key(next[j].name)
    {
      assert next[i].name == doc[i].name && next[j].name == doc[j].name;
    }
  }

  lemma {:induction false} IdInRooms(doc: Document, k: nat)
    requires k < |doc|
    ensures doc[k].id in Ids(doc)
    ensures forall j :: 0 <= j < |doc[k].sockets| ==> doc[k].sockets[j].id in Ids(doc)
  {
    RoomBagIn(doc, RoomIds, k);
    assert doc[k].id in RoomIds(doc[k]);
    forall j | 0 <= j < |doc[k].sockets|
      ensures doc[k].sockets[j].id in Ids(doc)
    {
      SocketIdIn(doc[k].sockets, j);
      assert doc[k].sockets[j].id in RoomIds(doc[k]);
    }
  }

  lemma {:induction false} AppendedNames(doc: Document, key: string -> string, k: nat, s: Socket)
    requires UniqueIds(doc) && NamesUnique(doc, key) && k < |doc| && s.id !in Ids(doc)
    requires SocketNameFree(doc[k].sockets, key, s.name, s.id)
    ensures NamesUnique(DocAppended(doc, doc[k].id, s), key)
  {
    AppendedIsUpdate(doc, k, s);
    IdInRooms(doc, k);
    RoomUpdateNames(doc, key, k, doc[k].sockets + [s]);
  }

  lemma {:induction false} WithoutNames(doc: Document, key: string -> string, k: nat, j: nat, sid: string)
    requires UniqueIds(doc) && NamesUnique(doc, key) && StandsAt(doc, k, j, sid)
    ensures NamesUnique(DocWithout(doc, sid), key)
  {
    WithoutIsGap(doc, k, j, sid);
    var ss := doc[k].sockets;
    var rest := ss[..j] + ss[j + 1..];
    assert forall i :: 0 <= i < |rest| ==> rest[i] == if i < j then ss[i] else ss[i + 1];
    RoomUpdateNames(doc, key, k, rest);
  }

  lemma {:induction false} EditNames(doc: Document, key: string -> string, ch: Change)
    requires ch.EditSocket? && Valid(doc) && NamesUnique(doc, key) && Allowed(doc, key, ch)
    ensures NamesUnique(Apply(doc, key, ch), key)
  {
    var (k, j) := FindSocket(doc, ch.sid).value;
    var old', next := SocketAt(doc, (k, j)), Edited(SocketAt(doc, (k, j)), ch.name, ch.addr);
    var target := FindRoom(doc, ch.target).value;
    if doc[k].id == ch.target {
      OneRoom(doc, k, target);
      RoomSocketsApart(doc, k);
      ReplacedIsUpdate(doc, k, j, ch.sid, next);
      RenamedInRoom(doc[k].sockets, key, j, next);
      RoomUpdateNames(doc, key, k, doc[k].sockets[j := next]);
    } else {
      WithoutNames(doc, key, k, j, ch.sid);
      WithoutValid(doc, k, j, ch.sid);
      WithoutIsGap(doc, k, j, ch.sid);
      assert DocWithout(doc, ch.sid)[target] == doc[target];
      AppendedNames(DocWithout(doc, ch.sid), key, target, next);
    }
  }

  lemma {:induction false} RenamedInRoom(ss: seq<Socket>, key: string -> string, j: nat, next: Socket)
    requires NamesDiffer(ss, key) && j < |ss| && ss[j].id == next.id
    requires forall i, m :: 0 <= i < m < |ss| ==> ss[i].id != ss[m].id
    requires ss[j].name == next.name || SocketNameFree(ss, key, next.name, next.id)
    ensures NamesDiffer(ss[j := next], key)
  {
    if ss[j].name != next.name {
      assert forall i :: 0 <= i < |ss| && i != j ==> key(ss[i].name) != key(next.name);
    }
  }

  lemma {:induction false} AddedRoomNames(doc: Document, key: string -> string, id: string, name: string)
    requires NamesUnique(doc, key) && id !in Ids(doc) && RoomNameFree(doc, key, name, id)
    ensures NamesUnique(doc + [Room(id, name, [])], key)
  {
    forall i | 0 <= i < |doc|
      ensures key(doc[i].name) != key(name)
    {
      IdInRooms(doc, i);
    }
  }

  lemma {:induction false} RenamedRoomNames(doc: Document, key: string -> string, k: nat, name: string)
    requires UniqueIds(doc) && NamesUnique(doc, key) && k < |doc| && RoomNameFree(doc, key, name, doc[k].id)
    ensures NamesUnique(DocRenamed(doc, doc[k].id, name), key)
  {
    RenamedIsUpdate(doc, k, name);
    forall i | 0 <= i < |doc| && i != k
      ensures key(doc[i].name) != key(name)
    {
      if doc[i].id == doc[k].id {
        OneRoom(doc, i, k);
      }
    }
  }

  lemma {:induction false} DroppedRoomNames(doc: Document, key: string -> string, k: nat)
    requires UniqueIds(doc) && NamesUnique(doc, key) && k < |doc|
    ensures NamesUnique(RoomsWithout(doc, doc[k].id), key)
  {
    RoomsWithoutIsGap(doc, k);
    var rest := doc[..k] + doc[k + 1..];
    assert forall i :: 0 <= i < |rest| ==> rest[i] == if i < k then doc[i] else doc[i + 1];
  }

  /** Elements with different names keep different names in any order. */
  lemma {:induction false} ReorderNames(doc: Document, key: string -> string, ch: Change)
    requires Valid(doc) && NamesUnique(doc, key) && Allowed(doc, key, ch)
    requires ch.OrderRooms? || ch.OrderSockets?
    ensures NamesUnique(Apply(doc, key, ch), key)
  {
    match ch {
      case OrderRooms(ids) => RoomOrderNames(doc, key, ids);
      case OrderSockets(rid, ids) =>
        var k := FindRoom(doc, rid).value;
        ReorderFinds(doc[k].sockets, ids);
        SocketOrderNames(doc[k].sockets, key, ids);
        RoomUpdateNames(doc, key, k, Reordered(doc[k].sockets, ids));
    }
  }

  lemma {:induction false} SocketOrderNames(ss: seq<Socket>, key: string -> string, ids: seq<string>)
    requires NamesDiffer(ss, key) && Distinct(ids)
    requires forall i :: 0 <= i < |ids| ==> FindIn(ss, ids[i]).Some?
    ensures NamesDiffer(Reordered(ss, ids), key)
  {
    forall i, j | 0 <= i < j < |ids|
      ensures key(Reordered(ss, ids)[i].name) != key(Reordered(ss, ids)[j].name)
    {
      var a, b := FindIn(ss, ids[i]).value, FindIn(ss, ids[j]).value;
      assert a != b;
    }
  }

  lemma {:induction false} RoomOrderNames(doc: Document, key: string -> string, ids: seq<string>)
    requires NamesUnique(doc, key) && IsReorder(ids, RoomIdList(doc))
    ensures NamesUnique(RoomsReordered(doc, ids), key)
  {
    RoomReorderFinds(doc, ids);
    forall i, j | 0 <= i < j < |ids|
      ensures key(RoomsReordered(doc, ids)[i].name) != key(RoomsReordered(doc, ids)[j].name)
    {
      var a, b := FindRoom(doc, ids[i]).value, FindRoom(doc, ids[j]).value;
      assert a != b;
    }
  }

  /** Where names were unique they stay unique; nothing makes them so. */
  lemma {:induction false} NamesKept(doc: Document, key: string -> string, ch: Change)
    requires Valid(doc) && NamesUnique(doc, key) && Allowed(doc, key, ch)
    ensures NamesUnique(Apply(doc, key, ch), key)
  {
    match ch {
      case AddSocket(rid, id, name, addr) =>
        AppendedNames(doc, key, FindRoom(doc, rid).value, Socket(id, name, addr, None));
      case EditSocket(_, _, _, _) => EditNames(doc, key, ch);
      case DropSocket(sid) =>
        var (k, j) := FindSocket(doc, sid).value;
        WithoutNames(doc, key, k, j, sid);
      case OrderRooms(_) => ReorderNames(doc, key, ch);
      case OrderSockets(_, _) => ReorderNames(doc, key, ch);
      case AddRoom(id, name) => AddedRoomNames(doc, key, id, name);
      case RenameRoom(rid, name) => RenamedRoomNames(doc, key, FindRoom(doc, rid).value, name);
      case DropRoom(rid) => DroppedRoomNames(doc, key, FindRoom(doc, rid).value);
    }
  }
}
