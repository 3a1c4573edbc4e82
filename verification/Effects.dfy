/**
 What each change does, place by place: it happens, where it was asked for, and nothing
 else does.
 */
module Effects {
  import opened Text
  import opened Household
  import opened Changes

  /** A socket has the id at place j of room k and nowhere else. */
  ghost predicate OnlyAt(doc: Document, k: nat, j: nat, sid: string) {
    StandsAt(doc, k, j, sid) && forall i: nat, m: nat :: StandsAt(doc, i, m, sid) ==> i == k && m == j
  }

  lemma {:induction false} FoundAt(doc: Document, k: nat, j: nat, sid: string)
    requires UniqueIds(doc) && StandsAt(doc, k, j, sid)
    ensures FindSocket(doc, sid) == Some((k, j)) && OnlyAt(doc, k, j, sid)
  {
    var place := FindSocket(doc, sid).value;
    OnePlace(doc, k, j, place.0, place.1, sid);
    forall i: nat, m: nat | StandsAt(doc, i, m, sid)
      ensures i == k && m == j
    {
      OnePlace(doc, k, j, i, m, sid);
    }
  }

  lemma {:induction false} RoomAt(doc: Document, k: nat)
    requires UniqueIds(doc) && k < |doc|
    ensures FindRoom(doc, doc[k].id) == Some(k)
  {
    OneRoom(doc, k, FindRoom(doc, doc[k].id).value);
  }

  /** The new room is the last one, and it is empty. */
  lemma {:induction false} RoomIsAdded(doc: Document, key: string -> string, id: string, name: string)
    requires Valid(doc) && Allowed(doc, key, AddRoom(id, name))
    ensures Apply(doc, key, AddRoom(id, name)) == doc + [Room(id, name, [])]
  {
  }

  /** The room has the new name. */
  lemma {:induction false} RoomIsRenamed(doc: Document, key: string -> string, k: nat, name: string)
    requires Valid(doc) && k < |doc| && Allowed(doc, key, RenameRoom(doc[k].id, name))
    ensures Apply(doc, key, RenameRoom(doc[k].id, name)) == doc[k := doc[k].(name := name)]
  {
    RenamedIsUpdate(doc, k, name);
  }

  /** The room is gone, and the others keep their order. */
  lemma {:induction false} RoomIsDropped(doc: Document, key: string -> string, k: nat)
    requires Valid(doc) && k < |doc| && Allowed(doc, key, DropRoom(doc[k].id))
    ensures Apply(doc, key, DropRoom(doc[k].id)) == doc[..k] + doc[k + 1..]
    ensures FindRoom(Apply(doc, key, DropRoom(doc[k].id)), doc[k].id).None?
  {
    RoomsWithoutIsGap(doc, k);
    var next := doc[..k] + doc[k + 1..];
    if FindRoom(next, doc[k].id).Some? {
      var i := FindRoom(next, doc[k].id).value;
      OneRoom(doc, k, if i < k then i else i + 1);
      assert false;
    }
  }

  /** The new socket is the last one of its room, as it was asked for, and nothing has been sent to it. */
  lemma {:induction false} SocketIsAdded(doc: Document, key: string -> string, k: nat, id: string, name: string,
                                         addr: Address)
    requires Valid(doc) && k < |doc| && Allowed(doc, key, AddSocket(doc[k].id, id, name, addr))
    ensures Apply(doc, key, AddSocket(doc[k].id, id, name, addr))
         == doc[k := doc[k].(sockets := doc[k].sockets + [Socket(id, name, addr, None)])]
  {
    AppendedIsUpdate(doc, k, Socket(id, name, addr, None));
  }

  /** The socket is gone, and the others keep their order. */
  lemma {:induction false} SocketIsDropped(doc: Document, key: string -> string, k: nat, j: nat)
    requires Valid(doc) && k < |doc| && j < |doc[k].sockets| && Allowed(doc, key, DropSocket(doc[k].sockets[j].id))
    ensures var sid := doc[k].sockets[j].id;
            var next := Apply(doc, key, DropSocket(sid));
            next == doc[k := doc[k].(sockets := doc[k].sockets[..j] + doc[k].sockets[j + 1..])]
            && FindSocket(next, sid).None?
  {
    var sid := doc[k].sockets[j].id;
    WithoutIsGap(doc, k, j, sid);
    FoundAt(doc, k, j, sid);
    var next := doc[k := doc[k].(sockets := doc[k].sockets[..j] + doc[k].sockets[j + 1..])];
    if FindSocket(next, sid).Some? {
      var (i, m) := FindSocket(next, sid).value;
      assert StandsAt(doc, i, if i == k && m >= j then m + 1 else m, sid);
      assert false;
    }
  }

  /** A socket with a new name and address, which keeps its last_sent exactly when the address is the same. */
  function Renewed(s: Socket, name: string, addr: Address): Socket {
    Socket(s.id, name, addr, if addr.kind == s.addr.kind && addr.group == s.addr.group && addr.number == s.addr.number
                             then s.lastSent else None)
  }

  /** An edit in the own room leaves the socket where it is. */
  lemma {:induction false} SocketIsEdited(doc: Document, key: string -> string, k: nat, j: nat, name: string,
                                          addr: Address)
    requires Valid(doc) && k < |doc| && j < |doc[k].sockets|
    requires Allowed(doc, key, EditSocket(doc[k].sockets[j].id, name, addr, doc[k].id))
    ensures Apply(doc, key, EditSocket(doc[k].sockets[j].id, name, addr, doc[k].id))
         == doc[k := doc[k].(sockets := doc[k].sockets[j := Renewed(doc[k].sockets[j], name, addr)])]
  {
    FoundAt(doc, k, j, doc[k].sockets[j].id);
    ReplacedIsUpdate(doc, k, j, doc[k].sockets[j].id, Renewed(doc[k].sockets[j], name, addr));
  }

  /** An edit that names another room moves the socket to the end of that room. */
  lemma {:induction false} SocketIsMoved(doc: Document, key: string -> string, k: nat, j: nat, name: string,
                                         addr: Address, t: nat)
    requires Valid(doc) && k < |doc| && j < |doc[k].sockets| && t < |doc| && t != k
    requires Allowed(doc, key, EditSocket(doc[k].sockets[j].id, name, addr, doc[t].id))
    ensures var s := doc[k].sockets[j];
            var left := doc[k].(sockets := doc[k].sockets[..j] + doc[k].sockets[j + 1..]);
            Apply(doc, key, EditSocket(s.id, name, addr, doc[t].id))
            == doc[k := left][t := doc[t].(sockets := doc[t].sockets + [Renewed(s, name, addr)])]
  {
    var s := doc[k].sockets[j];
    FoundAt(doc, k, j, s.id);
    if doc[k].id == doc[t].id {
      OneRoom(doc, k, t);
      assert false;
    }
    WithoutIsGap(doc, k, j, s.id);
    WithoutValid(doc, k, j, s.id);
    AppendedIsUpdate(DocWithout(doc, s.id), t, Renewed(s, name, addr));
  }

  /** Rooms are put into the order of the ids. */
  lemma {:induction false} RoomsAreOrdered(doc: Document, key: string -> string, ids: seq<string>, i: nat, k: nat)
    requires Valid(doc) && Allowed(doc, key, OrderRooms(ids)) && i < |ids| && k < |doc| && ids[i] == doc[k].id
    ensures |Apply(doc, key, OrderRooms(ids))| == |ids| == |doc| && Apply(doc, key, OrderRooms(ids))[i] == doc[k]
  {
    RoomAt(doc, k);
    ReorderIsPermutation(doc, key, OrderRooms(ids));
    assert |doc| == |multiset(doc)| && |ids| == |multiset(Apply(doc, key, OrderRooms(ids)))|;
  }

  /** Sockets of a room are put into the order of the ids. */
  lemma {:induction false} SocketsAreOrdered(doc: Document, key: string -> string, k: nat, ids: seq<string>, i: nat,
                                             j: nat)
    requires Valid(doc) && k < |doc| && Allowed(doc, key, OrderSockets(doc[k].id, ids))
    requires i < |ids| && j < |doc[k].sockets| && ids[i] == doc[k].sockets[j].id
    ensures var next := Apply(doc, key, OrderSockets(doc[k].id, ids));
            |next| == |doc| && next == doc[k := doc[k].(sockets := next[k].sockets)]
            && |next[k].sockets| == |ids| == |doc[k].sockets| && next[k].sockets[i] == doc[k].sockets[j]
  {
    RoomAt(doc, k);
    var ch := OrderSockets(doc[k].id, ids);
    ReorderIsPermutation(doc, key, ch);
    RoomSocketsApart(doc, k);
    var next := Apply(doc, key, ch);
    ReorderFinds(doc[k].sockets, ids);
    assert |doc[k].sockets| == |multiset(doc[k].sockets)| && |ids| == |multiset(next[k].sockets)|;
    assert FindIn(doc[k].sockets, ids[i]) == Some(j);
  }
}
