/**
 The household document: rooms and sockets, what makes it valid, and what each change
 of it does.
 */
module Household {
  import opened Text
  import opened Codewords

  datatype Kind = Rev008345 | Pollin2605

  datatype SocketType = SocketType(dev: nat, groups: nat, sockets: nat)

  function TypeOf(kind: Kind): SocketType {
    match kind
    case Rev008345 => SocketType(0, 4, 3)
    case Pollin2605 => SocketType(1, 32, 32)
  }

  datatype Address = Address(kind: Kind, group: int, number: int)

  predicate AddressOk(a: Address) {
    0 <= a.group < TypeOf(a.kind).groups && 0 <= a.number < TypeOf(a.kind).sockets
  }

  /** The limits of the document are those of the library, so no stored address is refused. */
  lemma {:induction false} LimitsAgree(a: Address, data: nat)
    requires a.group >= 0 && a.number >= 0
    ensures AddressOk(a) && data <= 1 <==> InLimits(TypeOf(a.kind).dev, a.group, a.number, data)
  {
  }

  /** A recorded time: microseconds of a time that the server wrote, or any other text. */
  datatype At = Stamp(micros: int) | Foreign(text: string)

  datatype LastSent = LastSent(on: bool, at: At)

  datatype Socket = Socket(id: string, name: string, addr: Address, lastSent: Option<LastSent>)

  datatype Room = Room(id: string, name: string, sockets: seq<Socket>)

  type Document = seq<Room>

  // ---------- Validity ----------

  predicate IdChar(c: char) {
    'A' <= c <= 'Z' || 'a' <= c <= 'z' || '0' <= c <= '9' || c == '_' || c == '-'
  }

  predicate IdOk(id: string) {
    1 <= |id| <= 64 && forall i :: 0 <= i < |id| ==> IdChar(id[i])
  }

  /** What the server makes is an id, and an id needs no escaping in a path or in a line of a log. */
  lemma {:induction false} IdsAreSafe(prefix: string, digits: string, id: string)
    requires prefix in {"r_", "s_"} && |digits| == 12
    requires forall i :: 0 <= i < |digits| ==> '0' <= digits[i] <= '9' || 'a' <= digits[i] <= 'f'
    ensures IdOk(prefix + digits)
    ensures IdOk(id) ==> id != "" && |id| <= 64
    ensures IdOk(id) ==>
              forall c :: c in id ==> ('a' <= c <= 'z' || 'A' <= c <= 'Z' || '0' <= c <= '9' || c == '_' || c == '-')
  {
  }

  function SocketIds(ss: seq<Socket>): multiset<string> {
    if |ss| == 0 then multiset{} else SocketIds(ss[..|ss| - 1]) + multiset{ss[|ss| - 1].id}
  }

  function RoomIds(r: Room): multiset<string> { multiset{r.id} + SocketIds(r.sockets) }

  /** What the rooms of a document hold together. */
  function Bag<T>(doc: Document, f: Room -> multiset<T>): multiset<T> {
    if |doc| == 0 then multiset{} else Bag(doc[..|doc| - 1], f) + f(doc[|doc| - 1])
  }

  /** Every id of the document, of rooms and of sockets together. */
  function Ids(doc: Document): multiset<string> { Bag(doc, RoomIds) }

  ghost predicate UniqueIds(doc: Document) {
    forall id :: Ids(doc)[id] <= 1
  }

  predicate SocketOk(s: Socket) { IdOk(s.id) && AddressOk(s.addr) }

  predicate RoomOk(r: Room) {
    IdOk(r.id) && forall j :: 0 <= j < |r.sockets| ==> SocketOk(r.sockets[j])
  }

  /** What check_document() accepts. */
  ghost predicate Valid(doc: Document) {
    UniqueIds(doc) && forall i :: 0 <= i < |doc| ==> RoomOk(doc[i])
  }

  // ---------- Places ----------

  /** Socket id stands at place j of room k. */
  predicate StandsAt(doc: Document, k: nat, j: nat, sid: string) {
    k < |doc| && j < |doc[k].sockets| && doc[k].sockets[j].id == sid
  }

  lemma {:induction false} SocketIdIn(ss: seq<Socket>, j: nat)
    requires j < |ss|
    ensures ss[j].id in SocketIds(ss)
  {
    if j < |ss| - 1 {
      SocketIdIn(ss[..|ss| - 1], j);
    }
  }

  lemma {:induction false} SocketIdTwice(ss: seq<Socket>, i: nat, j: nat)
    requires i < j < |ss| && ss[i].id == ss[j].id
    ensures SocketIds(ss)[ss[i].id] >= 2
  {
    if j < |ss| - 1 {
      SocketIdTwice(ss[..|ss| - 1], i, j);
    } else {
      SocketIdIn(ss[..|ss| - 1], i);
    }
  }

  lemma {:induction false} RoomBagIn<T>(doc: Document, f: Room -> multiset<T>, i: nat)
    requires i < |doc|
    ensures f(doc[i]) <= Bag(doc, f)
  {
    if i < |doc| - 1 {
      RoomBagIn(doc[..|doc| - 1], f, i);
    }
  }

  lemma {:induction false} TwoRoomsIn(doc: Document, i: nat, j: nat)
    requires i < j < |doc|
    ensures RoomIds(doc[i]) + RoomIds(doc[j]) <= Ids(doc)
  {
    if j < |doc| - 1 {
      TwoRoomsIn(doc[..|doc| - 1], i, j);
    } else {
      RoomBagIn(doc[..|doc| - 1], RoomIds, i);
    }
  }

  lemma {:induction false} RoomsApart(doc: Document, i: nat, j: nat, id: string)
    requires UniqueIds(doc) && i < j < |doc| && id in RoomIds(doc[i])
    ensures id !in RoomIds(doc[j])
  {
    TwoRoomsIn(doc, i, j);
    assert (RoomIds(doc[i]) + RoomIds(doc[j]))[id] <= Ids(doc)[id];
  }

  lemma {:induction false} SocketsApart(doc: Document, k: nat, i: nat, j: nat)
    requires UniqueIds(doc) && k < |doc| && i < j < |doc[k].sockets|
    ensures doc[k].sockets[i].id != doc[k].sockets[j].id
  {
    RoomBagIn(doc, RoomIds, k);
    var id := doc[k].sockets[i].id;
    assert SocketIds(doc[k].sockets)[id] <= RoomIds(doc[k])[id] <= Ids(doc)[id];
    if doc[k].sockets[j].id == id {
      SocketIdTwice(doc[k].sockets, i, j);
      assert false;
    }
  }

  /** An id stands at one place at most. */
  lemma {:induction false} OnePlace(doc: Document, k1: nat, j1: nat, k2: nat, j2: nat, sid: string)
    requires UniqueIds(doc) && StandsAt(doc, k1, j1, sid) && StandsAt(doc, k2, j2, sid)
    ensures k1 == k2 && j1 == j2
  {
    SocketIdIn(doc[k1].sockets, j1);
    SocketIdIn(doc[k2].sockets, j2);
    if k1 != k2 {
      RoomsApart(doc, if k1 < k2 then k1 else k2, if k1 < k2 then k2 else k1, sid);
    }
    if j1 != j2 {
      SocketsApart(doc, k1, if j1 < j2 then j1 else j2, if j1 < j2 then j2 else j1);
    }
  }

  lemma {:induction false} OneRoom(doc: Document, i: nat, j: nat)
    requires UniqueIds(doc) && i < |doc| && j < |doc| && doc[i].id == doc[j].id
    ensures i == j
  {
    if i != j {
      RoomsApart(doc, if i < j then i else j, if i < j then j else i, doc[i].id);
    }
  }

  /** The first room with an id, the way find_room() looks for it. */
  function FindRoom(doc: Document, rid: string): (k: Option<nat>)
    ensures k.Some? ==> k.value < |doc| && doc[k.value].id == rid
    ensures k.None? ==> forall i :: 0 <= i < |doc| ==> doc[i].id != rid
  {
    if |doc| == 0 then None
    else if doc[0].id == rid then Some(0)
    else match FindRoom(doc[1..], rid)
      case None =>
        assert forall i :: 1 <= i < |doc| ==> doc[i] == doc[1..][i - 1];
        None
      case Some(k) => Some(k + 1)
  }

  function FindIn(ss: seq<Socket>, sid: string): (j: Option<nat>)
    ensures j.Some? ==> j.value < |ss| && ss[j.value].id == sid
    ensures j.None? ==> forall i :: 0 <= i < |ss| ==> ss[i].id != sid
  {
    if |ss| == 0 then None
    else if ss[0].id == sid then Some(0)
    else match FindIn(ss[1..], sid)
      case None =>
        assert forall i :: 1 <= i < |ss| ==> ss[i] == ss[1..][i - 1];
        None
      case Some(j) => Some(j + 1)
  }

  /** The first socket with an id over all rooms, the way find_socket() looks for it. */
  function FindSocket(doc: Document, sid: string): (place: Option<(nat, nat)>)
    ensures place.Some? ==> StandsAt(doc, place.value.0, place.value.1, sid)
    ensures place.None? ==> forall k: nat, j: nat :: !StandsAt(doc, k, j, sid)
  {
    if |doc| == 0 then None
    else match FindIn(doc[0].sockets, sid)
      case Some(j) => Some((0, j))
      case None =>
        match FindSocket(doc[1..], sid)
        case Some((k, j)) => Some((k + 1, j))
        case None =>
          assert forall k: nat, j: nat :: k > 0 && StandsAt(doc, k, j, sid) ==> StandsAt(doc[1..], k - 1, j, sid);
          None
  }

  // ---------- Changes, said by what they leave ----------

  /** The sockets of a list without the one with the id; the others keep their order. */
  function Without(ss: seq<Socket>, sid: string): seq<Socket> {
    if |ss| == 0 then []
    else Without(ss[..|ss| - 1], sid) + if ss[|ss| - 1].id == sid then [] else [ss[|ss| - 1]]
  }

  function Replaced(ss: seq<Socket>, sid: string, next: Socket): seq<Socket> {
    seq(|ss|, j requires 0 <= j < |ss| => if ss[j].id == sid then next else ss[j])
  }

  function DocWithout(doc: Document, sid: string): Document {
    seq(|doc|, i requires 0 <= i < |doc| => doc[i].(sockets := Without(doc[i].sockets, sid)))
  }

  function DocReplaced(doc: Document, sid: string, next: Socket): Document {
    seq(|doc|, i requires 0 <= i < |doc| => doc[i].(sockets := Replaced(doc[i].sockets, sid, next)))
  }

  function DocAppended(doc: Document, rid: string, s: Socket): Document {
    seq(|doc|, i requires 0 <= i < |doc| =>
      if doc[i].id == rid then doc[i].(sockets := doc[i].sockets + [s]) else doc[i])
  }

  function DocRenamed(doc: Document, rid: string, name: string): Document {
    seq(|doc|, i requires 0 <= i < |doc| => if doc[i].id == rid then doc[i].(name := name) else doc[i])
  }

  function RoomsWithout(doc: Document, rid: string): Document {
    if |doc| == 0 then []
    else RoomsWithout(doc[..|doc| - 1], rid) + if doc[|doc| - 1].id == rid then [] else [doc[|doc| - 1]]
  }

  // ---------- Keeping the ids unique ----------

  lemma {:induction false} SameBag<T>(d1: Document, d2: Document, f: Room -> multiset<T>)
    requires |d1| == |d2| && forall i :: 0 <= i < |d1| ==> f(d1[i]) == f(d2[i])
    ensures Bag(d1, f) == Bag(d2, f)
  {
    if |d1| > 0 {
      SameBag(d1[..|d1| - 1], d2[..|d2| - 1], f);
    }
  }

  lemma {:induction false} Swapped<T>(a: multiset<T>, b: multiset<T>, x: multiset<T>, y: multiset<T>,
                                       last: multiset<T>)
    requires b + x == a + y
    ensures (b + last) + x == (a + last) + y
  {
    assert (b + last) + x == (b + x) + last;
    assert (a + last) + y == (a + y) + last;
  }

  /** When one room changes, what it held is exchanged for what it holds now. */
  lemma {:induction false} OneRoomChanged<T>(d1: Document, d2: Document, f: Room -> multiset<T>, k: nat)
    requires k < |d1| == |d2| && forall i :: 0 <= i < |d1| && i != k ==> f(d1[i]) == f(d2[i])
    ensures Bag(d2, f) + f(d1[k]) == Bag(d1, f) + f(d2[k])
  {
    var f1, f2, last := d1[..|d1| - 1], d2[..|d2| - 1], f(d1[|d1| - 1]);
    if k == |d1| - 1 {
      SameBag(f1, f2, f);
    } else {
      OneRoomChanged(f1, f2, f, k);
      assert f1[k] == d1[k] && f2[k] == d2[k];
      Swapped(Bag(f1, f), Bag(f2, f), f(f1[k]), f(f2[k]), last);
    }
  }

  lemma {:induction false} BagAppend<T>(doc: Document, r: Room, f: Room -> multiset<T>)
    ensures Bag(doc + [r], f) == Bag(doc, f) + f(r)
  {
    assert (doc + [r])[..|doc|] == doc;
  }

  lemma {:induction false} BagGap<T>(doc: Document, k: nat, f: Room -> multiset<T>)
    requires k < |doc|
    ensures Bag(doc[..k] + doc[k + 1..], f) + f(doc[k]) == Bag(doc, f)
  {
    var front, last := doc[..|doc| - 1], doc[|doc| - 1];
    if k == |doc| - 1 {
      assert doc[..k] + doc[k + 1..] == front;
    } else {
      BagGap(front, k, f);
      assert front[k] == doc[k];
      assert doc[..k] + doc[k + 1..] == (front[..k] + front[k + 1..]) + [last];
      BagAppend(front[..k] + front[k + 1..], last, f);
    }
  }

  lemma {:induction false} TakeOut<T>(front: seq<T>, last: T, b: seq<T>, k: nat)
    requires multiset(front + [last]) == multiset(b) && k < |b| && b[k] == last
    ensures multiset(b[..k] + b[k + 1..]) == multiset(front)
  {
    assert b == b[..k] + [last] + b[k + 1..];
    assert multiset(b) == multiset(b[..k] + b[k + 1..]) + multiset{last};
    assert multiset(front + [last]) == multiset(front) + multiset{last};
    assert multiset(front) == multiset(b) - multiset{last};
  }

  /** The order of the rooms does not matter to what they hold together. */
  lemma {:induction false} BagOfPermutation<T>(d1: Document, d2: Document, f: Room -> multiset<T>)
    requires multiset(d1) == multiset(d2)
    ensures Bag(d1, f) == Bag(d2, f)
    decreases |d1|
  {
    if |d1| == 0 {
      assert |multiset(d2)| == 0;
    } else {
      var front, last := d1[..|d1| - 1], d1[|d1| - 1];
      assert d1 == front + [last];
      assert last in multiset(d2);
      var k :| 0 <= k < |d2| && d2[k] == last;
      TakeOut(front, last, d2, k);
      BagOfPermutation(front, d2[..k] + d2[k + 1..], f);
      BagGap(d2, k, f);
    }
  }

  lemma {:induction false} WithoutAbsent(ss: seq<Socket>, sid: string)
    requires forall j :: 0 <= j < |ss| ==> ss[j].id != sid
    ensures Without(ss, sid) == ss
  {
    if |ss| > 0 {
      WithoutAbsent(ss[..|ss| - 1], sid);
      assert ss == ss[..|ss| - 1] + [ss[|ss| - 1]];
    }
  }

  /** With one socket of that id, leaving it out closes the gap. */
  lemma {:induction false} WithoutOne(ss: seq<Socket>, j: nat)
    requires j < |ss| && forall i :: 0 <= i < |ss| && i != j ==> ss[i].id != ss[j].id
    ensures Without(ss, ss[j].id) == ss[..j] + ss[j + 1..]
  {
    var front, last := ss[..|ss| - 1], ss[|ss| - 1];
    if j == |ss| - 1 {
      WithoutAbsent(front, ss[j].id);
      assert front + [] == ss[..j] + ss[j + 1..];
    } else {
      WithoutOne(front, j);
      assert front[j] == ss[j];
      assert (front[..j] + front[j + 1..]) + [last] == ss[..j] + ss[j + 1..];
    }
  }

  lemma {:induction false} GapIds(ss: seq<Socket>, j: nat)
    requires j < |ss|
    ensures SocketIds(ss[..j] + ss[j + 1..]) + multiset{ss[j].id} == SocketIds(ss)
  {
    var front, last := ss[..|ss| - 1], ss[|ss| - 1];
    if j == |ss| - 1 {
      assert ss[..j] + ss[j + 1..] == front;
    } else {
      GapIds(front, j);
      var rest := front[..j] + front[j + 1..];
      assert front[j] == ss[j];
      assert ss[..j] + ss[j + 1..] == rest + [last];
      SocketIdsAppend(rest, last);
      Swap(SocketIds(rest), multiset{last.id}, multiset{ss[j].id});
    }
  }

  lemma {:induction false} Swap<T>(a: multiset<T>, x: multiset<T>, y: multiset<T>)
    ensures (a + x) + y == (a + y) + x
  {
  }

  lemma {:induction false} SocketIdsAppend(ss: seq<Socket>, s: Socket)
    ensures SocketIds(ss + [s]) == SocketIds(ss) + multiset{s.id}
  {
    assert (ss + [s])[..|ss|] == ss;
  }

  lemma {:induction false} SameSocketIds(a: seq<Socket>, b: seq<Socket>)
    requires |a| == |b| && forall j :: 0 <= j < |a| ==> a[j].id == b[j].id
    ensures SocketIds(a) == SocketIds(b)
  {
    if |a| > 0 {
      SameSocketIds(a[..|a| - 1], b[..|b| - 1]);
    }
  }
}
