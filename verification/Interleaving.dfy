/**
 Any number of requests at once.  A command is on its way without the store lock, so
 edits, moves, deletes and other commands come between its start and its record.  What
 the daemon does for a command is one exchange of the client with it, and what that puts
 on the air is part of the state.
 */
module Interleaving {
  import opened Text
  import opened Household
  import opened Changes
  import opened Recording
  import opened Codewords
  import opened Pulses
  import C = Client
  import D = Daemon
  import W = Switching
  import S = Store

  /** One command of a request: what is sent, and the sockets it is recorded for. */
  datatype Job = Job(ids: seq<string>, addr: Address, on: bool)

  /** One exchange with the daemon: what it handled, what that put on the air, and what the client made of it. */
  datatype Dialogue = Dialogue(
    connect: C.Connect, script: seq<C.Recv>, handled: seq<D.Handled>, outcome: C.Outcome, pulses: seq<Pulse>)

  /** What a worker is at: commands it has still to send, one on its way, or one to record. */
  datatype Worker =
    | Ready(plan: seq<Job>)
    | Sending(job: Job, plan: seq<Job>)
    | Confirmed(job: Job, x: Dialogue, at: At, plan: seq<Job>)

  /** A command that was confirmed, when, and the transmission that its own exchange put on the air. */
  datatype Confirmation = Confirmation(job: Job, at: At, aired: nat)

  datatype Airing = Airing(job: Job, pulses: seq<Pulse>)

  /** sent, air and confirmed are the history of the commands, of the transmissions and of the answers. */
  datatype System = System(
    doc: Document, workers: seq<Worker>, sent: seq<Job>, air: seq<Airing>, confirmed: seq<Confirmation>)

  /** The keys of names, the exchanges that can happen, and the whole transmission of a command. */
  datatype Rules = Rules(key: string -> string, exchanged: (Job, Dialogue) -> bool, whole: Job -> seq<Pulse>)

  datatype Action =
    | StartSwitch(w: nat, sid: string, on: bool)
    | StartAllOff(w: nat, room: Option<string>)
    | Send(w: nat)
    | Answer(w: nat, x: Dialogue, at: At)
    | Record(w: nat, lock: bool, write: S.Disk)
    | Edit(ch: Change)

  // ---------- The exchanges of the client ----------

  function DevOf(job: Job): nat { TypeOf(job.addr.kind).dev }

  function DataOf(job: Job): nat { if job.on then 1 else 0 }

  /** An exchange with the daemon over the line that is written for a command, as Client.Exchange ends. */
  ghost predicate CanHappen(job: Job, x: Dialogue) {
    AddressOk(job.addr)
    && C.Exchanged(W.CommandLine(x.connect, job.addr, DataOf(job)), x.script, x.handled)
    && W.ReplyOk(x.connect, x.script, x.outcome) && x.pulses == D.AiredBy(x.handled)
  }

  function WholeOf(job: Job): seq<Pulse> {
    if AddressOk(job.addr) then C.TransmissionFor(DevOf(job), job.addr.group, job.addr.number, DataOf(job)) else []
  }

  /** What is whole: the transmission of the codeword of that address, at 350 microseconds, on for on. */
  lemma {:induction false} WholeIs(job: Job)
    requires AddressOk(job.addr)
    ensures var dev, data := if job.addr.kind.Rev008345? then 0 else 1, if job.on then 1 else 0;
            InLimits(dev, job.addr.group, job.addr.number, data)
            && WholeOf(job) == Transmission(Codeword(dev, job.addr.group, job.addr.number, data), 350)
  {
    LimitsAgree(job.addr, DataOf(job));
  }

  ghost function ClientRules(key: string -> string): Rules {
    Rules(key, (job, x) => CanHappen(job, x), WholeOf)
  }

  /** A command that the client takes as done is on the air as a whole. */
  ghost predicate DoneIsAired(r: Rules) {
    forall job, x :: r.exchanged(job, x) && x.outcome == C.Success ==> x.pulses == r.whole(job)
  }

  ghost predicate RepliesOk(r: Rules) {
    forall job, x :: r.exchanged(job, x) ==> W.ReplyOk(x.connect, x.script, x.outcome)
  }

  lemma {:induction false} ClientRulesHold(key: string -> string)
    ensures DoneIsAired(ClientRules(key)) && RepliesOk(ClientRules(key))
  {
    forall job, x | CanHappen(job, x) && x.outcome == C.Success
      ensures x.pulses == WholeOf(job)
    {
      C.ExchangeIsSettled(DevOf(job), job.addr.group, job.addr.number, DataOf(job), x.connect, x.script, x.handled);
    }
  }

  // ---------- The steps ----------

  /** The commands of a batch: one for each address, for all of its sockets. */
  function Plan(ls: seq<W.Listed>): seq<Job> {
    var keys := W.Addresses(ls);
    seq(|keys|, i requires 0 <= i < |keys| => Job(W.Members(ls, keys[i]), keys[i], false))
  }

  ghost predicate Enabled(s: System, r: Rules, a: Action) {
    match a
    case StartSwitch(w, sid, _) => w < |s.workers| && s.workers[w] == Ready([]) && FindSocket(s.doc, sid).Some?
    case StartAllOff(w, room) => w < |s.workers| && s.workers[w] == Ready([]) && W.BatchRooms(s.doc, room).Some?
    case Send(w) => w < |s.workers| && s.workers[w].Ready? && s.workers[w].plan != []
    case Answer(w, x, _) => w < |s.workers| && s.workers[w].Sending? && r.exchanged(s.workers[w].job, x)
    case Record(w, _, _) => w < |s.workers| && s.workers[w].Confirmed?
    case Edit(ch) => Allowed(s.doc, r.key, ch)
  }

  /** The job of a switch: the address that the socket has now. */
  function SwitchJob(doc: Document, sid: string, on: bool): Job
    requires FindSocket(doc, sid).Some?
  {
    Job([sid], SocketAt(doc, FindSocket(doc, sid).value).addr, on)
  }

  ghost function After(s: System, r: Rules, a: Action): System
    requires Enabled(s, r, a)
  {
    match a
    case StartSwitch(w, sid, on) => s.(workers := s.workers[w := Ready([SwitchJob(s.doc, sid, on)])])
    case StartAllOff(w, room) =>
      s.(workers := s.workers[w := Ready(Plan(W.Listing(W.BatchRooms(s.doc, room).value)))])
    case Send(w) =>
      var plan := s.workers[w].plan;
      s.(workers := s.workers[w := Sending(plan[0], plan[1..])], sent := s.sent + [plan[0]])
    case Answer(w, x, at) =>
      var me := s.workers[w];
      var aired := s.air + [Airing(me.job, x.pulses)];
      if x.outcome == C.Success then
        s.(workers := s.workers[w := Confirmed(me.job, x, at, me.plan)], air := aired,
           confirmed := s.confirmed + [Confirmation(me.job, at, |s.air|)])
      else s.(workers := s.workers[w := Ready(if W.Fatal(x.outcome) then [] else me.plan)], air := aired)
    case Record(w, lock, write) =>
      var me := s.workers[w];
      s.(workers := s.workers[w := Ready(me.plan)],
         doc := W.Stored(s.doc, me.job.ids, me.job.addr, me.job.on, me.at, lock, write))
    case Edit(ch) => s.(doc := Apply(s.doc, r.key, ch))
  }

  ghost predicate Legal(s: System, r: Rules, run: seq<Action>)
    decreases |run|
  {
    |run| == 0 || (Enabled(s, r, run[0]) && Legal(After(s, r, run[0]), r, run[1..]))
  }

  ghost function End(s: System, r: Rules, run: seq<Action>): System
    requires Legal(s, r, run)
    decreases |run|
  {
    if |run| == 0 then s else End(After(s, r, run[0]), r, run[1..])
  }

  predicate Initial(s: System) {
    (forall w :: 0 <= w < |s.workers| ==> s.workers[w] == Ready([])) && s.sent == [] && s.air == [] && s.confirmed == []
  }

  // ---------- Where a last_sent comes from ----------

  /** A socket of the document has this id, this address and this last_sent. */
  ghost predicate Holds(doc: Document, sid: string, addr: Address, last: Option<LastSent>) {
    exists k: nat, j: nat :: HoldsAt(doc, k, j, sid, addr, last)
  }

  predicate HoldsAt(doc: Document, k: nat, j: nat, sid: string, addr: Address, last: Option<LastSent>) {
    StandsAt(doc, k, j, sid) && SocketAt(doc, (k, j)).addr == addr && SocketAt(doc, (k, j)).lastSent == last
  }

  predicate IsFor(c: Confirmation, sid: string, addr: Address) { sid in c.job.ids && c.job.addr == addr }

  /** A command to that very address, with that state, was confirmed at that time for that socket. */
  ghost predicate WasConfirmed(confirmed: seq<Confirmation>, sid: string, addr: Address, last: LastSent) {
    exists i :: 0 <= i < |confirmed| && IsFor(confirmed[i], sid, addr)
                && confirmed[i].job.on == last.on && confirmed[i].at == last.at
  }

  /** The change is about the socket: it is new, or it gets another address. */
  predicate Readdresses(doc: Document, ch: Change, sid: string) {
    match ch
    case AddSocket(_, id, _, _) => id == sid
    case EditSocket(id, _, addr, _) =>
      id == sid && (FindSocket(doc, sid).None? || SocketAt(doc, FindSocket(doc, sid).value).addr != addr)
    case _ => false
  }

  /**
   A change of the document invents no last_sent and gives none to another address: a
   socket has it from before, or has none because it is new or has a new address.
   */
  lemma {:induction false} ChangeInventsNothing(doc: Document, key: string -> string, ch: Change,
                             sid: string, addr: Address, last: Option<LastSent>)
    requires Valid(doc) && Allowed(doc, key, ch) && Holds(Apply(doc, key, ch), sid, addr, last)
    ensures Holds(doc, sid, addr, last) || (last.None? && Readdresses(doc, ch, sid))
  {
    var k: nat, j: nat :| HoldsAt(Apply(doc, key, ch), k, j, sid, addr, last);
    match ch {
      case AddRoom(_, _) => assert HoldsAt(doc, k, j, sid, addr, last);
      case RenameRoom(_, _) => assert HoldsAt(doc, k, j, sid, addr, last);
      case DropRoom(rid) => DropInventsNothing(doc, rid, k, j, sid, addr, last);
      case OrderRooms(ids) => RoomOrderInventsNothing(doc, ids, k, j, sid, addr, last);
      case AddSocket(_, _, _, _) => AddInventsNothing(doc, key, ch, k, j, sid, addr, last);
      case EditSocket(_, _, _, _) => EditInventsNothing(doc, key, ch, k, j, sid, addr, last);
      case DropSocket(id) =>
        var j0 := GapInventsNothing(doc, id, k, j);
        assert HoldsAt(doc, k, j0, sid, addr, last);
      case OrderSockets(rid, ids) =>
        var j0 := OrderInventsNothing(doc, rid, ids, k, j);
        assert HoldsAt(doc, k, j0, sid, addr, last);
    }
  }

  lemma {:induction false} DropInventsNothing(doc: Document, rid: string, k: nat, j: nat, sid: string, addr: Address,
                                              last: Option<LastSent>)
    requires Valid(doc) && FindRoom(doc, rid).Some? && HoldsAt(RoomsWithout(doc, rid), k, j, sid, addr, last)
    ensures Holds(doc, sid, addr, last)
  {
    var gap := FindRoom(doc, rid).value;
    RoomsWithoutIsGap(doc, gap);
    assert HoldsAt(doc, if k < gap then k else k + 1, j, sid, addr, last);
  }

  lemma {:induction false} RoomOrderInventsNothing(doc: Document, ids: seq<string>, k: nat, j: nat, sid: string,
                                                   addr: Address, last: Option<LastSent>)
    requires Valid(doc) && IsReorder(ids, RoomIdList(doc)) && HoldsAt(RoomsReordered(doc, ids), k, j, sid, addr, last)
    ensures Holds(doc, sid, addr, last)
  {
    RoomReorderFinds(doc, ids);
    assert HoldsAt(doc, FindRoom(doc, ids[k]).value, j, sid, addr, last);
  }

  lemma {:induction false} AddInventsNothing(doc: Document, key: string -> string, ch: Change, k: nat, j: nat,
                          sid: string, addr: Address, last: Option<LastSent>)
    requires ch.AddSocket? && Valid(doc) && Allowed(doc, key, ch) && HoldsAt(Apply(doc, key, ch), k, j, sid, addr, last)
    ensures Holds(doc, sid, addr, last) || (last.None? && sid == ch.id)
  {
    if j < |doc[k].sockets| {
      assert HoldsAt(doc, k, j, sid, addr, last);
    }
  }

  lemma {:induction false} OrderInventsNothing(doc: Document, rid: string, ids: seq<string>, k: nat, j: nat)
    returns (j0: nat)
    requires FindRoom(doc, rid).Some? && IsReorder(ids, SocketIdList(doc[FindRoom(doc, rid).value].sockets))
    requires k < |doc| && j < |DocReordered(doc, rid, ids)[k].sockets|
    ensures j0 < |doc[k].sockets| && doc[k].sockets[j0] == DocReordered(doc, rid, ids)[k].sockets[j]
  {
    var r := FindRoom(doc, rid).value;
    ReorderFinds(doc[r].sockets, ids);
    j0 := if k == r then FindIn(doc[r].sockets, ids[j]).value else j;
  }

  /** Leaving a socket out leaves the others as they are. */
  lemma {:induction false} GapInventsNothing(doc: Document, gone: string, k: nat, j: nat) returns (j0: nat)
    requires UniqueIds(doc) && FindSocket(doc, gone).Some?
    requires k < |doc| && j < |DocWithout(doc, gone)[k].sockets|
    ensures j0 < |doc[k].sockets| && doc[k].sockets[j0] == DocWithout(doc, gone)[k].sockets[j]
  {
    var (gk, gj) := FindSocket(doc, gone).value;
    WithoutIsGap(doc, gk, gj, gone);
    j0 := if k == gk && j >= gj then j + 1 else j;
  }

  lemma {:induction false} EditInventsNothing(doc: Document, key: string -> string, ch: Change, k: nat, j: nat,
                           sid: string, addr: Address, last: Option<LastSent>)
    requires ch.EditSocket? && Valid(doc) && Allowed(doc, key, ch)
             && HoldsAt(Apply(doc, key, ch), k, j, sid, addr, last)
    ensures Holds(doc, sid, addr, last) || (last.None? && Readdresses(doc, ch, sid))
  {
    var place := FindSocket(doc, ch.sid).value;
    var was := SocketAt(doc, place);
    var edited := Edited(was, ch.name, ch.addr);
    var s := SocketAt(Apply(doc, key, ch), (k, j));
    if s == edited {
      assert HoldsAt(doc, place.0, place.1, sid, was.addr, was.lastSent);
    } else if doc[place.0].id == ch.target {
      assert HoldsAt(doc, k, j, sid, addr, last);
    } else {
      var j0 := GapInventsNothing(doc, ch.sid, k, j);
      assert HoldsAt(doc, k, j0, sid, addr, last);
    }
  }

  /** The record of a command for a socket with that id and address. */
  predicate Reaches(job: Job, lock: bool, write: S.Disk, sid: string, addr: Address) {
    sid in job.ids && job.addr == addr && lock && !write.Refuses?
  }

  /** A record writes what was confirmed, for sockets of its own that have the address it was sent to. */
  lemma {:induction false} RecordInventsNothing(doc: Document, job: Job, at: At, lock: bool, write: S.Disk,
                             sid: string, addr: Address, last: Option<LastSent>)
    returns (before: Option<LastSent>)
    requires Holds(W.Stored(doc, job.ids, job.addr, job.on, at, lock, write), sid, addr, last)
    ensures Holds(doc, sid, addr, before)
    ensures last ==
            if Reaches(job, lock, write, sid, addr) && Writes(before, at) then Some(LastSent(job.on, at)) else before
  {
    var next := W.Stored(doc, job.ids, job.addr, job.on, at, lock, write);
    var k: nat, j: nat :| HoldsAt(next, k, j, sid, addr, last);
    before := SocketAt(doc, (k, j)).lastSent;
    assert HoldsAt(doc, k, j, sid, addr, before);
  }

  // ---------- The invariant ----------

  ghost predicate Accounted(start: Document, s: System) {
    forall sid, addr, last :: Holds(s.doc, sid, addr, Some(last)) ==>
      Holds(start, sid, addr, Some(last)) || WasConfirmed(s.confirmed, sid, addr, last)
  }

  predicate JobOk(job: Job) { AddressOk(job.addr) }

  predicate PlanOk(plan: seq<Job>) {
    forall i :: 0 <= i < |plan| ==> JobOk(plan[i])
  }

  predicate Answered(confirmed: seq<Confirmation>, job: Job, at: At) {
    exists i :: 0 <= i < |confirmed| && confirmed[i].job == job && confirmed[i].at == at
  }

  predicate WorkerOk(r: Rules, w: Worker, confirmed: seq<Confirmation>, sent: seq<Job>) {
    PlanOk(w.plan)
    && (!w.Ready? ==> w.job in sent)
    && (w.Confirmed? ==> Answered(confirmed, w.job, w.at) && w.x.outcome == C.Success && r.exchanged(w.job, w.x))
  }

  /** A confirmed command was sent, and what its exchange put on the air is its whole transmission. */
  predicate ConfirmationOk(r: Rules, s: System, c: Confirmation) {
    c.job in s.sent && c.aired < |s.air| && s.air[c.aired] == Airing(c.job, r.whole(c.job))
  }

  /** That holds of all of them, and no two share a transmission. */
  predicate ConfirmedOk(r: Rules, s: System) {
    (forall i :: 0 <= i < |s.confirmed| ==> ConfirmationOk(r, s, s.confirmed[i]))
    && forall i, j :: 0 <= i < j < |s.confirmed| ==> s.confirmed[i].aired < s.confirmed[j].aired
  }

  predicate WorkersOk(r: Rules, s: System) {
    (forall w :: 0 <= w < |s.workers| ==> WorkerOk(r, s.workers[w], s.confirmed, s.sent)) && PlanOk(s.sent)
  }

  ghost predicate Invariant(start: Document, r: Rules, s: System) {
    Valid(s.doc) && Accounted(start, s) && WorkersOk(r, s) && ConfirmedOk(r, s)
  }

  lemma {:induction false} InitialInvariant(r: Rules, s: System)
    requires Initial(s) && Valid(s.doc)
    ensures Invariant(s.doc, r, s)
  {
  }

  lemma {:induction false} WorkersStayOk(r: Rules, s: System, confirmed: seq<Confirmation>, sent: seq<Job>)
    requires WorkersOk(r, s) && s.confirmed <= confirmed && s.sent <= sent
    ensures forall w :: 0 <= w < |s.workers| ==> WorkerOk(r, s.workers[w], confirmed, sent)
  {
    forall w | 0 <= w < |s.workers|
      ensures WorkerOk(r, s.workers[w], confirmed, sent)
    {
      var me := s.workers[w];
      assert WorkerOk(r, me, s.confirmed, s.sent);
      if me.Confirmed? {
        var i :| 0 <= i < |s.confirmed| && s.confirmed[i].job == me.job && s.confirmed[i].at == me.at;
        assert confirmed[i] == s.confirmed[i];
      }
    }
  }

  lemma {:induction false} BatchPlanOk(doc: Document, room: Option<string>)
    requires Valid(doc) && W.BatchRooms(doc, room).Some?
    ensures PlanOk(Plan(W.Listing(W.BatchRooms(doc, room).value)))
  {
    var ls := W.Listing(W.BatchRooms(doc, room).value);
    W.BatchListingOk(doc, room);
    forall i | 0 <= i < |Plan(ls)|
      ensures JobOk(Plan(ls)[i])
    {
      W.KeyOk(ls, i);
    }
  }

  lemma {:induction false} ConfirmedStays(before: seq<Confirmation>, after: seq<Confirmation>, sid: string,
                                          addr: Address, last: LastSent)
    requires before <= after && WasConfirmed(before, sid, addr, last)
    ensures WasConfirmed(after, sid, addr, last)
  {
    var i :| 0 <= i < |before| && IsFor(before[i], sid, addr)
             && before[i].job.on == last.on && before[i].at == last.at;
    assert after[i] == before[i];
  }

  lemma {:induction false} RecordAccounted(start: Document, r: Rules, s: System, a: Action, sid: string, addr: Address,
                                           last: LastSent)
    requires Invariant(start, r, s) && a.Record? && Enabled(s, r, a) && Holds(After(s, r, a).doc, sid, addr, Some(last))
    ensures Holds(start, sid, addr, Some(last)) || WasConfirmed(s.confirmed, sid, addr, last)
  {
    var me := s.workers[a.w];
    assert WorkerOk(r, me, s.confirmed, s.sent);
    var before := RecordInventsNothing(s.doc, me.job, me.at, a.lock, a.write, sid, addr, Some(last));
    if !Holds(s.doc, sid, addr, Some(last)) {
      var i :| 0 <= i < |s.confirmed| && s.confirmed[i].job == me.job && s.confirmed[i].at == me.at;
      assert IsFor(s.confirmed[i], sid, addr);
    }
  }

  lemma {:induction false} StepKeepsDocument(start: Document, r: Rules, s: System, a: Action)
    requires Invariant(start, r, s) && Enabled(s, r, a)
    ensures Valid(After(s, r, a).doc) && Accounted(start, After(s, r, a))
  {
    var next := After(s, r, a);
    if a.Edit? {
      ApplyValid(s.doc, r.key, a.ch);
    } else if a.Record? {
      var me := s.workers[a.w];
      RecordedValid(s.doc, me.job.ids, me.job.addr, me.job.on, me.at);
    }
    forall sid, addr, last | Holds(next.doc, sid, addr, Some(last))
      ensures Holds(start, sid, addr, Some(last)) || WasConfirmed(next.confirmed, sid, addr, last)
    {
      if a.Edit? {
        ChangeInventsNothing(s.doc, r.key, a.ch, sid, addr, Some(last));
      } else if a.Record? {
        RecordAccounted(start, r, s, a, sid, addr, last);
      }
      if WasConfirmed(s.confirmed, sid, addr, last) {
        ConfirmedStays(s.confirmed, next.confirmed, sid, addr, last);
      }
    }
  }

  lemma {:induction false} StartKeepsWorkers(r: Rules, s: System, a: Action)
    requires WorkersOk(r, s) && Valid(s.doc) && Enabled(s, r, a) && (a.StartSwitch? || a.StartAllOff?)
    ensures WorkersOk(r, After(s, r, a))
  {
    var n := After(s, r, a);
    if a.StartAllOff? {
      BatchPlanOk(s.doc, a.room);
    } else {
      assert RoomOk(s.doc[FindSocket(s.doc, a.sid).value.0]);
    }
    assert PlanOk(n.workers[a.w].plan);
    assert forall v :: 0 <= v < |n.workers| && v != a.w ==> n.workers[v] == s.workers[v];
  }

  lemma {:induction false} StepKeepsWorkers(r: Rules, s: System, a: Action)
    requires WorkersOk(r, s) && Enabled(s, r, a) && !a.StartSwitch? && !a.StartAllOff?
    ensures WorkersOk(r, After(s, r, a))
  {
    var n := After(s, r, a);
    WorkersStayOk(r, s, n.confirmed, n.sent);
    if !a.Edit? {
      assert WorkerOk(r, s.workers[a.w], s.confirmed, s.sent);
      if a.Answer? && a.x.outcome == C.Success {
        assert n.confirmed[|s.confirmed|].job == s.workers[a.w].job;
      }
      assert WorkerOk(r, n.workers[a.w], n.confirmed, n.sent);
      assert forall v :: 0 <= v < |n.workers| && v != a.w ==> n.workers[v] == s.workers[v];
    }
  }

  lemma {:induction false} StepKeepsConfirmed(r: Rules, s: System, a: Action)
    requires DoneIsAired(r) && WorkersOk(r, s) && ConfirmedOk(r, s) && Enabled(s, r, a)
    ensures ConfirmedOk(r, After(s, r, a))
  {
    var n := After(s, r, a);
    assert s.air <= n.air;
    forall i | 0 <= i < |s.confirmed|
      ensures ConfirmationOk(r, n, s.confirmed[i])
    {
      assert ConfirmationOk(r, s, s.confirmed[i]);
    }
    if a.Answer? {
      var job := s.workers[a.w].job;
      assert WorkerOk(r, s.workers[a.w], s.confirmed, s.sent);
      assert n.air[|s.air|] == Airing(job, a.x.pulses);
      if a.x.outcome == C.Success {
        assert ConfirmationOk(r, n, Confirmation(job, a.at, |s.air|));
      }
    }
  }

  lemma {:induction false} StepInvariant(start: Document, r: Rules, s: System, a: Action)
    requires DoneIsAired(r) && Invariant(start, r, s) && Enabled(s, r, a)
    ensures Invariant(start, r, After(s, r, a))
  {
    StepKeepsDocument(start, r, s, a);
    if a.StartSwitch? || a.StartAllOff? {
      StartKeepsWorkers(r, s, a);
    } else {
      StepKeepsWorkers(r, s, a);
    }
    StepKeepsConfirmed(r, s, a);
  }

  lemma {:induction false} RunInvariant(start: Document, r: Rules, s: System, run: seq<Action>)
    requires DoneIsAired(r) && Invariant(start, r, s) && Legal(s, r, run)
    ensures Invariant(start, r, End(s, r, run))
    decreases |run|
  {
    if |run| > 0 {
      StepInvariant(start, r, s, run[0]);
      RunInvariant(start, r, After(s, r, run[0]), run[1..]);
    }
  }

  // ---------- What a reader of the document can rely on ----------

  /** Everything that was put on the air, in order. */
  function LogOf(air: seq<Airing>): seq<Pulse> {
    if |air| == 0 then [] else LogOf(air[..|air| - 1]) + air[|air| - 1].pulses
  }

  /** The pulses of part stand in the log from that place on. */
  predicate StandsIn(log: seq<Pulse>, place: nat, part: seq<Pulse>) {
    place + |part| <= |log| && log[place..place + |part|] == part
  }

  /** What an exchange put on the air stands in the log behind what those before it did. */
  lemma {:induction false} AiringInLog(air: seq<Airing>, n: nat)
    requires n < |air|
    ensures StandsIn(LogOf(air), |LogOf(air[..n])|, air[n].pulses)
  {
    var front, part := air[..|air| - 1], air[n].pulses;
    var before, log := LogOf(front), LogOf(air);
    if n == |front| {
      assert log[|before|..|before| + |part|] == part;
    } else {
      AiringInLog(front, n);
      assert front[..n] == air[..n];
      var place := |LogOf(air[..n])|;
      assert log[place..place + |part|] == before[place..place + |part|];
    }
  }

  /** A socket shows a command for it that was sent, to the address it has now, and confirmed. */
  predicate Shows(sock: Socket, now: System, c: Confirmation) {
    c.job in now.sent && IsFor(c, sock.id, sock.addr)
    && sock.lastSent == Some(LastSent(c.job.on, c.at))
  }

  /** The exchange of the confirmed command put its whole transmission on the air, and there it stands in the log. */
  predicate AiredWhole(now: System, whole: Job -> seq<Pulse>, c: Confirmation) {
    c.aired < |now.air| && now.air[c.aired] == Airing(c.job, whole(c.job))
    && StandsIn(LogOf(now.air), |LogOf(now.air[..c.aired])|, whole(c.job))
  }

  /**
   However the requests interleave: the document stays valid, and each last_sent that it
   shows was in the file at the start, for that socket and that address, or a command to
   exactly the address that the socket has now was sent and confirmed, with that state and
   at that time, and the exchange that confirmed it put the whole transmission of that
   address and state on the air.  No two confirmed commands share a transmission.
   */
  lemma {:induction false} LastSentIsTrue(s: System, key: string -> string, run: seq<Action>, k: nat, j: nat)
    requires Initial(s) && Valid(s.doc) && Legal(s, ClientRules(key), run)
    ensures Valid(End(s, ClientRules(key), run).doc)
    ensures var now := End(s, ClientRules(key), run);
            k < |now.doc| && j < |now.doc[k].sockets| && now.doc[k].sockets[j].lastSent.Some? ==>
              (var sock := now.doc[k].sockets[j];
               Holds(s.doc, sock.id, sock.addr, sock.lastSent)
               || exists i :: 0 <= i < |now.confirmed| && Shows(sock, now, now.confirmed[i])
                              && AiredWhole(now, WholeOf, now.confirmed[i]))
    ensures var confirmed := End(s, ClientRules(key), run).confirmed;
            forall i, j :: 0 <= i < j < |confirmed| ==> confirmed[i].aired < confirmed[j].aired
  {
    var r := ClientRules(key);
    ClientRulesHold(key);
    InitialInvariant(r, s);
    RunInvariant(s.doc, r, s, run);
    var now := End(s, r, run);
    if k < |now.doc| && j < |now.doc[k].sockets| && now.doc[k].sockets[j].lastSent.Some? {
      ShownIsTrue(s.doc, r, now, k, j);
    }
  }

  lemma {:induction false} ShownIsTrue(start: Document, r: Rules, now: System, k: nat, j: nat)
    requires Invariant(start, r, now) && k < |now.doc| && j < |now.doc[k].sockets|
             && now.doc[k].sockets[j].lastSent.Some?
    ensures var sock := now.doc[k].sockets[j];
            Holds(start, sock.id, sock.addr, sock.lastSent)
            || exists i :: 0 <= i < |now.confirmed| && Shows(sock, now, now.confirmed[i])
                           && AiredWhole(now, r.whole, now.confirmed[i])
  {
    var sock := now.doc[k].sockets[j];
    var last := sock.lastSent.value;
    assert HoldsAt(now.doc, k, j, sock.id, sock.addr, Some(last));
    if !Holds(start, sock.id, sock.addr, Some(last)) {
      var i :| 0 <= i < |now.confirmed| && IsFor(now.confirmed[i], sock.id, sock.addr)
               && now.confirmed[i].job.on == last.on && now.confirmed[i].at == last.at;
      assert ConfirmationOk(r, now, now.confirmed[i]);
      AiringInLog(now.air, now.confirmed[i].aired);
      assert Shows(sock, now, now.confirmed[i]) && AiredWhole(now, r.whole, now.confirmed[i]);
    }
  }

  /** No request ever makes the daemon answer with a range error: every address sent is one the library takes. */
  lemma {:induction false} SentIsInLimits(s: System, r: Rules, run: seq<Action>, i: nat)
    requires DoneIsAired(r) && Initial(s) && Valid(s.doc) && Legal(s, r, run) && i < |End(s, r, run).sent|
    ensures var job := End(s, r, run).sent[i];
            job.addr.group >= 0 && job.addr.number >= 0
            && InLimits(TypeOf(job.addr.kind).dev, job.addr.group, job.addr.number, DataOf(job))
  {
    InitialInvariant(r, s);
    RunInvariant(s.doc, r, s, run);
    var job := End(s, r, run).sent[i];
    assert JobOk(job);
    LimitsAgree(job.addr, DataOf(job));
  }

  /** Names that are unique stay unique in any run. */
  lemma {:induction false} RunKeepsNames(start: Document, r: Rules, s: System, run: seq<Action>)
    requires DoneIsAired(r) && Invariant(start, r, s) && NamesUnique(s.doc, r.key) && Legal(s, r, run)
    ensures NamesUnique(End(s, r, run).doc, r.key)
    decreases |run|
  {
    if |run| > 0 {
      StepInvariant(start, r, s, run[0]);
      StepKeepsNames(s, r, run[0]);
      RunKeepsNames(start, r, After(s, r, run[0]), run[1..]);
    }
  }

  lemma {:induction false} StepKeepsNames(s: System, r: Rules, a: Action)
    requires Valid(s.doc) && NamesUnique(s.doc, r.key) && Enabled(s, r, a)
    ensures NamesUnique(After(s, r, a).doc, r.key)
  {
    if a.Edit? {
      NamesKept(s.doc, r.key, a.ch);
    } else if a.Record? {
      var me := s.workers[a.w];
      RecordedNames(s.doc, r.key, me.job.ids, me.job.addr, me.job.on, me.at);
    }
  }

  // ---------- When the last_sent is the latest command ----------

  /** The record of one step, if it is one that reaches the socket. */
  ghost function RecordOf(s: System, r: Rules, a: Action, sid: string, addr: Address): seq<LastSent>
    requires Enabled(s, r, a)
  {
    if a.Record? && Reaches(s.workers[a.w].job, a.lock, a.write, sid, addr)
    then [LastSent(s.workers[a.w].job.on, s.workers[a.w].at)] else []
  }

  /** The records of a run that reach a socket with that id and address, in their order. */
  ghost function RecordsFor(s: System, r: Rules, run: seq<Action>, sid: string, addr: Address): seq<LastSent>
    requires Legal(s, r, run)
    decreases |run|
  {
    if |run| == 0 then []
    else
      RecordOf(s, r, run[0], sid, addr) + RecordsFor(After(s, r, run[0]), r, run[1..], sid, addr)
  }

  /** No change of the run makes the socket anew or gives it another address. */
  ghost predicate KeepsAddress(s: System, r: Rules, run: seq<Action>, sid: string)
    requires Legal(s, r, run)
    decreases |run|
  {
    |run| == 0
    || (!(run[0].Edit? && Readdresses(s.doc, run[0].ch, sid)) && KeepsAddress(After(s, r, run[0]), r, run[1..], sid))
  }

  /** What a socket shows at the end is what it showed at the start after the records that reached it. */
  lemma {:induction false} SocketFollowsRecords(start: Document, s: System, r: Rules, run: seq<Action>, sid: string,
                                                addr: Address, last: Option<LastSent>)
    requires DoneIsAired(r) && Invariant(start, r, s) && Legal(s, r, run) && KeepsAddress(s, r, run, sid)
    requires Holds(End(s, r, run).doc, sid, addr, last)
    ensures exists before: Option<LastSent> ::
              Holds(s.doc, sid, addr, before) && last == Replay(before, RecordsFor(s, r, run, sid, addr))
    decreases |run|
  {
    if |run| == 0 {
      assert Replay(last, []) == last;
    } else {
      var a, next, rest := run[0], After(s, r, run[0]), run[1..];
      StepInvariant(start, r, s, a);
      SocketFollowsRecords(start, next, r, rest, sid, addr, last);
      var then': Option<LastSent> :|
        Holds(next.doc, sid, addr, then') && last == Replay(then', RecordsFor(next, r, rest, sid, addr));
      var before := StepBack(s, r, a, sid, addr, then');
      assert RecordsFor(s, r, run, sid, addr) == RecordOf(s, r, a, sid, addr) + RecordsFor(next, r, rest, sid, addr);
      ReplayConcat(before, RecordOf(s, r, a, sid, addr), RecordsFor(next, r, rest, sid, addr));
    }
  }

  lemma {:induction false} StepBack(s: System, r: Rules, a: Action, sid: string, addr: Address, last: Option<LastSent>)
    returns (before: Option<LastSent>)
    requires Valid(s.doc) && Enabled(s, r, a) && !(a.Edit? && Readdresses(s.doc, a.ch, sid))
    requires Holds(After(s, r, a).doc, sid, addr, last)
    ensures Holds(s.doc, sid, addr, before) && last == Replay(before, RecordOf(s, r, a, sid, addr))
  {
    before := last;
    if a.Edit? {
      ChangeInventsNothing(s.doc, r.key, a.ch, sid, addr, last);
    } else if a.Record? {
      var me := s.workers[a.w];
      before := RecordInventsNothing(s.doc, me.job, me.at, a.lock, a.write, sid, addr, last);
      ReplayOne(before, LastSent(me.job.on, me.at));
    }
  }

  /** Every command that was confirmed for the socket at this address has been recorded. */
  ghost predicate AllRecorded(now: System, records: seq<LastSent>, sid: string, addr: Address) {
    forall i :: 0 <= i < |now.confirmed| && IsFor(now.confirmed[i], sid, addr) ==>
      LastSent(now.confirmed[i].job.on, now.confirmed[i].at) in records
  }

  /**
   The run is over for a socket: it kept its address, every confirmed command for it has
   been recorded, and what the file showed at the start gave way to the first of them.
   */
  ghost predicate FullyRecorded(s: System, r: Rules, run: seq<Action>, sid: string, addr: Address)
    requires Legal(s, r, run)
  {
    var records := RecordsFor(s, r, run, sid, addr);
    KeepsAddress(s, r, run, sid) && AllRecorded(End(s, r, run), records, sid, addr)
    && |records| > 0 && AllStamps(records)
    && forall before :: Holds(s.doc, sid, addr, before) ==> Writes(before, records[0].at)
  }

  /**
   Then its last_sent is the command for it with the greatest time exactly when no older
   one was recorded after that by more than the race window.
   */
  lemma {:induction false} LatestIsShown(s: System, r: Rules, run: seq<Action>, k: nat, j: nat)
    requires DoneIsAired(r) && Initial(s) && Valid(s.doc) && Legal(s, r, run)
    requires k < |End(s, r, run).doc| && j < |End(s, r, run).doc[k].sockets|
    requires var sock := End(s, r, run).doc[k].sockets[j]; FullyRecorded(s, r, run, sock.id, sock.addr)
    ensures var sock := End(s, r, run).doc[k].sockets[j];
            var records := RecordsFor(s, r, run, sock.id, sock.addr);
            (IsLatest(records, sock.lastSent) <==> LatestKept(records))
            && (LatestKept(records) ==>
                  forall i :: 0 <= i < |End(s, r, run).confirmed| ==>
                    (var c := End(s, r, run).confirmed[i];
                     IsFor(c, sock.id, sock.addr) ==> c.at.Stamp? && c.at.micros <= sock.lastSent.value.at.micros))
  {
    var now := End(s, r, run);
    var sock := now.doc[k].sockets[j];
    var records := RecordsFor(s, r, run, sock.id, sock.addr);
    InitialInvariant(r, s);
    assert HoldsAt(now.doc, k, j, sock.id, sock.addr, sock.lastSent);
    SocketFollowsRecords(s.doc, s, r, run, sock.id, sock.addr, sock.lastSent);
    var before: Option<LastSent> :|
      Holds(s.doc, sock.id, sock.addr, before) && sock.lastSent == Replay(before, records);
    LatestIff(before, records);
    if LatestKept(records) {
      forall i | 0 <= i < |now.confirmed| && IsFor(now.confirmed[i], sock.id, sock.addr)
        ensures now.confirmed[i].at.Stamp? && now.confirmed[i].at.micros <= sock.lastSent.value.at.micros
      {
        var m :| 0 <= m < |records| && records[m] == LastSent(now.confirmed[i].job.on, now.confirmed[i].at);
      }
    }
  }

  /** The clock does not go back from one answer to the next. */
  predicate ClockRuns(run: seq<Action>) {
    forall i, j :: 0 <= i < j < |run| && run[i].Answer? && run[j].Answer? ==> NotAfter(run[i].at, run[j].at)
  }

  predicate NotAfter(a: At, b: At) { a.Stamp? && b.Stamp? ==> a.micros <= b.micros }

  /** Then the commands are confirmed in the order of their times. */
  predicate InOrder(confirmed: seq<Confirmation>) {
    forall i, j :: 0 <= i < j < |confirmed| ==> NotAfter(confirmed[i].at, confirmed[j].at)
  }

  lemma {:induction false} ClockOrders(s: System, r: Rules, run: seq<Action>)
    requires Legal(s, r, run) && ClockRuns(run) && InOrder(s.confirmed)
    requires forall i, j :: 0 <= i < |s.confirmed| && 0 <= j < |run| && run[j].Answer? ==>
               NotAfter(s.confirmed[i].at, run[j].at)
    ensures InOrder(End(s, r, run).confirmed)
    decreases |run|
  {
    if |run| > 0 {
      var next := After(s, r, run[0]);
      assert next.confirmed == s.confirmed
             || (run[0].Answer? && next.confirmed[..|s.confirmed|] == s.confirmed
                 && |next.confirmed| == |s.confirmed| + 1 && next.confirmed[|s.confirmed|].at == run[0].at);
      ClockOrders(next, r, run[1..]);
    }
  }

  lemma {:induction false} HistoryGrows(s: System, r: Rules, run: seq<Action>)
    requires Legal(s, r, run)
    ensures s.confirmed <= End(s, r, run).confirmed
    decreases |run|
  {
    if |run| > 0 {
      HistoryGrows(After(s, r, run[0]), r, run[1..]);
    }
  }

  /** Every record that reaches a socket is that of a confirmed command for it. */
  lemma {:induction false} RecordsAreConfirmed(start: Document, s: System, r: Rules, run: seq<Action>, sid: string,
                                               addr: Address, c: LastSent)
    requires DoneIsAired(r) && Invariant(start, r, s) && Legal(s, r, run) && c in RecordsFor(s, r, run, sid, addr)
    ensures WasConfirmed(End(s, r, run).confirmed, sid, addr, c)
    decreases |run|
  {
    var a, next := run[0], After(s, r, run[0]);
    StepInvariant(start, r, s, a);
    if c in RecordOf(s, r, a, sid, addr) {
      var me := s.workers[a.w];
      assert WorkerOk(r, me, s.confirmed, s.sent);
      var i :| 0 <= i < |s.confirmed| && s.confirmed[i].job == me.job && s.confirmed[i].at == me.at;
      assert WasConfirmed(s.confirmed, sid, addr, c);
      HistoryGrows(s, r, run);
      ConfirmedStays(s.confirmed, End(s, r, run).confirmed, sid, addr, c);
    } else {
      RecordsAreConfirmed(start, next, r, run[1..], sid, addr, c);
    }
  }

  /**
   When the clock does not go back either, the socket shows the command for it that was
   confirmed last of all, or one that was confirmed for it at the very same time.
   */
  lemma {:induction false} LastAnswerIsShown(s: System, r: Rules, run: seq<Action>, k: nat, j: nat, i: nat)
    requires DoneIsAired(r) && Initial(s) && Valid(s.doc) && Legal(s, r, run) && ClockRuns(run)
    requires k < |End(s, r, run).doc| && j < |End(s, r, run).doc[k].sockets|
    requires var sock := End(s, r, run).doc[k].sockets[j];
             FullyRecorded(s, r, run, sock.id, sock.addr)
             && LatestKept(RecordsFor(s, r, run, sock.id, sock.addr))
    requires var confirmed := End(s, r, run).confirmed;
             var sock := End(s, r, run).doc[k].sockets[j];
             i < |confirmed| && IsFor(confirmed[i], sock.id, sock.addr)
             && forall n :: i < n < |confirmed| ==> !IsFor(confirmed[n], sock.id, sock.addr)
    ensures var confirmed := End(s, r, run).confirmed;
            var sock := End(s, r, run).doc[k].sockets[j];
            sock.lastSent.Some? && sock.lastSent.value.at == confirmed[i].at
            && WasConfirmed(confirmed, sock.id, sock.addr, sock.lastSent.value)
  {
    var now := End(s, r, run);
    var sock := now.doc[k].sockets[j];
    LatestIsShown(s, r, run, k, j);
    InitialInvariant(r, s);
    ClockOrders(s, r, run);
    var shown := sock.lastSent.value;
    RecordsAreConfirmed(s.doc, s, r, run, sock.id, sock.addr, shown);
    var n :| 0 <= n < |now.confirmed| && IsFor(now.confirmed[n], sock.id, sock.addr)
             && now.confirmed[n].job.on == shown.on && now.confirmed[n].at == shown.at;
    LastIsGreatest(now.confirmed, sock.id, sock.addr, i, n);
  }

  lemma {:induction false} LastIsGreatest(confirmed: seq<Confirmation>, sid: string, addr: Address, i: nat, n: nat)
    requires InOrder(confirmed) && i < |confirmed| && n < |confirmed|
    requires IsFor(confirmed[i], sid, addr) && forall m :: i < m < |confirmed| ==> !IsFor(confirmed[m], sid, addr)
    requires IsFor(confirmed[n], sid, addr) && confirmed[n].at.Stamp? && confirmed[i].at.Stamp?
    requires confirmed[i].at.micros <= confirmed[n].at.micros
    ensures confirmed[n].at == confirmed[i].at
  {
    if n < i {
      assert NotAfter(confirmed[n].at, confirmed[i].at);
    }
  }

  // ---------- The requests as they are programmed are runs of these steps ----------

  /** A worker starts nothing new. */
  predicate NoStart(run: seq<Action>, w: nat) {
    forall i :: 0 <= i < |run| ==> !((run[i].StartSwitch? || run[i].StartAllOff?) && run[i].w == w)
  }

  function TurnWith(x: Dialogue, found: Document, at: At, lock: bool, write: S.Disk): W.Turn {
    W.Turn(x.connect, x.script, x.outcome, found, at, lock, write)
  }

  /** What a worker has done with a command: how it was answered, and what its record found. */
  datatype Done = Done(job: Job, turn: W.Turn)

  /** The commands that a worker finishes in a run, whatever the others do in between. */
  ghost function DoneBy(s: System, r: Rules, run: seq<Action>, w: nat): seq<Done>
    requires Legal(s, r, run)
    decreases |run|
  {
    if |run| == 0 then []
    else DoneNow(s, r, run[0], w) + DoneBy(After(s, r, run[0]), r, run[1..], w)
  }

  ghost function DoneNow(s: System, r: Rules, a: Action, w: nat): seq<Done>
    requires Enabled(s, r, a)
  {
    match a
    case Answer(v, x, at) =>
      if v == w && x.outcome != C.Success
      then [Done(s.workers[w].job, TurnWith(x, s.doc, at, false, S.Refuses))] else []
    case Record(v, lock, write) =>
      var me := s.workers[v];
      if v == w then [Done(me.job, TurnWith(me.x, s.doc, me.at, lock, write))] else []
    case _ => []
  }

  /** The document right after the last record of a worker in a run. */
  ghost function LeftBy(s: System, r: Rules, run: seq<Action>, w: nat, doc: Document): Document
    requires Legal(s, r, run)
    decreases |run|
  {
    if |run| == 0 then doc
    else
      var next := After(s, r, run[0]);
      LeftBy(next, r, run[1..], w, if run[0].Record? && run[0].w == w then next.doc else doc)
  }

  function Remaining(w: Worker): seq<Job> { if w.Ready? then w.plan else [w.job] + w.plan }

  /** The document that commands leave, as Switching says it of their turns. */
  function DoneLeaves(done: seq<Done>, doc: Document): Document {
    if |done| == 0 then doc
    else
      var d := done[|done| - 1];
      if d.turn.answer == C.Success then W.Left(d.turn, d.job.ids, d.job.addr, d.job.on)
      else DoneLeaves(done[..|done| - 1], doc)
  }

  /** The commands are done in the order of the plan, and a fatal answer ends them. */
  predicate Follows(plan: seq<Job>, done: seq<Done>, rest: seq<Job>)
    decreases |done|
  {
    if |done| == 0 then rest == plan
    else |plan| > 0 && done[0].job == plan[0]
         && Follows(if W.Fatal(done[0].turn.answer) then [] else plan[1..], done[1..], rest)
  }

  lemma {:induction false} DoneLeavesCons(d: Done, rest: seq<Done>, doc: Document)
    ensures DoneLeaves([d] + rest, doc)
         == DoneLeaves(rest,
                       if d.turn.answer == C.Success then W.Left(d.turn, d.job.ids, d.job.addr, d.job.on) else doc)
  {
    var all := [d] + rest;
    if |rest| == 0 {
      assert all == [d] && all[..0] == [];
    } else {
      DoneLeavesCons(d, rest[..|rest| - 1], doc);
      assert all[..|all| - 1] == [d] + rest[..|rest| - 1];
    }
  }

  /** One step of the run, seen by a worker. */
  lemma {:induction false} StepIsFollowed(s: System, r: Rules, a: Action, w: nat)
    requires WorkersOk(r, s) && w < |s.workers| && Enabled(s, r, a)
    requires !((a.StartSwitch? || a.StartAllOff?) && a.w == w)
    ensures var next, done := After(s, r, a), DoneNow(s, r, a, w);
            |next.workers| == |s.workers|
            && if done == [] then Remaining(next.workers[w]) == Remaining(s.workers[w])
               else |done| == 1 && Remaining(s.workers[w]) != [] && done[0].job == Remaining(s.workers[w])[0]
                    && Remaining(next.workers[w])
                       == if W.Fatal(done[0].turn.answer) then [] else Remaining(s.workers[w])[1..]
    ensures var next, done := After(s, r, a), DoneNow(s, r, a, w);
            if a.Record? && a.w == w then
              |done| == 1 && done[0].turn.answer == C.Success
              && next.doc == W.Left(done[0].turn, done[0].job.ids, done[0].job.addr, done[0].job.on)
            else done == [] || done[0].turn.answer != C.Success
  {
    assert WorkerOk(r, s.workers[w], s.confirmed, s.sent);
  }

  lemma {:induction false} PlanIsFollowed(start: Document, s: System, r: Rules, run: seq<Action>, w: nat, doc: Document)
    requires DoneIsAired(r) && Invariant(start, r, s) && w < |s.workers| && Legal(s, r, run) && NoStart(run, w)
    ensures |End(s, r, run).workers| == |s.workers|
    ensures Follows(Remaining(s.workers[w]), DoneBy(s, r, run, w), Remaining(End(s, r, run).workers[w]))
    ensures LeftBy(s, r, run, w, doc) == DoneLeaves(DoneBy(s, r, run, w), doc)
    decreases |run|
  {
    if |run| > 0 {
      var a, next, rest := run[0], After(s, r, run[0]), run[1..];
      StepIsFollowed(s, r, a, w);
      StepInvariant(start, r, s, a);
      var now, later := DoneNow(s, r, a, w), DoneBy(next, r, rest, w);
      var left := if a.Record? && a.w == w then next.doc else doc;
      PlanIsFollowed(start, next, r, rest, w, left);
      if now == [] {
        assert now + later == later;
      } else {
        assert now == [now[0]] && (now + later)[1..] == later;
        DoneLeavesCons(now[0], later, doc);
      }
    }
  }

  lemma {:induction false} FollowsAt(plan: seq<Job>, done: seq<Done>, rest: seq<Job>)
    requires Follows(plan, done, rest)
    ensures |done| <= |plan|
    ensures forall i :: 0 <= i < |done| ==> done[i].job == plan[i]
    ensures forall i :: 0 <= i < |done| - 1 ==> !W.Fatal(done[i].turn.answer)
    ensures rest == if |done| > 0 && W.Fatal(done[|done| - 1].turn.answer) then [] else plan[|done|..]
    decreases |done|
  {
    if |done| > 0 {
      FollowsAt(if W.Fatal(done[0].turn.answer) then [] else plan[1..], done[1..], rest);
    }
  }

  const IDLE: W.Turn := W.Turn(C.Refused, [], C.Unreachable, [], Stamp(0), false, S.Refuses)

  function TurnsOf(done: seq<Done>): nat -> W.Turn {
    (i: nat) => if i < |done| then done[i].turn else IDLE
  }

  lemma {:induction false} BatchLeaves(ls: seq<W.Listed>, done: seq<Done>, doc: Document, n: nat)
    requires n <= |done| <= |W.Addresses(ls)|
    requires forall i :: 0 <= i < |done| ==> done[i].job == Plan(ls)[i]
    ensures DoneLeaves(done[..n], doc) == W.DocAfter(doc, ls, TurnsOf(done), n)
  {
    if n > 0 {
      BatchLeaves(ls, done, doc, n - 1);
      assert done[..n][..n - 1] == done[..n - 1];
    }
  }

  /**
   all_off() is a run: whatever the other requests do, and whenever, a worker that has
   started a batch and finished it has sent the commands that Switching.AllOff sends for
   the same answers, to the same sockets, and its last record left the same document.
   */
  lemma {:induction false} BatchIsARun(start: Document, s: System, r: Rules, run: seq<Action>, w: nat,
                                       room: Option<string>)
    requires DoneIsAired(r) && Invariant(start, r, s) && Enabled(s, r, StartAllOff(w, room))
    requires Legal(After(s, r, StartAllOff(w, room)), r, run) && NoStart(run, w)
    requires w < |End(After(s, r, StartAllOff(w, room)), r, run).workers|
    requires End(After(s, r, StartAllOff(w, room)), r, run).workers[w] == Ready([])
    ensures var begun, ls := After(s, r, StartAllOff(w, room)), W.Listing(W.BatchRooms(s.doc, room).value);
            var done := DoneBy(begun, r, run, w);
            |done| == W.Sends(ls, TurnsOf(done)) <= |Plan(ls)|
            && (forall i :: 0 <= i < |done| ==> done[i].job == Plan(ls)[i])
            && LeftBy(begun, r, run, w, s.doc) == W.DocAfter(s.doc, ls, TurnsOf(done), |done|)
  {
    var begun, ls := After(s, r, StartAllOff(w, room)), W.Listing(W.BatchRooms(s.doc, room).value);
    var done := DoneBy(begun, r, run, w);
    StepInvariant(start, r, s, StartAllOff(w, room));
    PlanIsFollowed(start, begun, r, run, w, s.doc);
    BatchIsDone(ls, done, s.doc);
  }

  /** Commands that follow the plan of a batch to its end are those that Switching counts. */
  lemma {:induction false} BatchIsDone(ls: seq<W.Listed>, done: seq<Done>, doc: Document)
    requires Follows(Plan(ls), done, [])
    ensures |done| == W.Sends(ls, TurnsOf(done)) <= |Plan(ls)|
    ensures forall i :: 0 <= i < |done| ==> done[i].job == Plan(ls)[i]
    ensures DoneLeaves(done, doc) == W.DocAfter(doc, ls, TurnsOf(done), |done|)
  {
    FollowsAt(Plan(ls), done, []);
    var fatal := |done| > 0 && W.Fatal(done[|done| - 1].turn.answer);
    W.StopAtIs(TurnsOf(done), |W.Addresses(ls)|, if fatal then |done| - 1 else |done|);
    BatchLeaves(ls, done, doc, |done|);
    assert done[..|done|] == done;
  }

  /** switch_socket() is a run in the same way, with its one command. */
  lemma {:induction false} SwitchIsARun(start: Document, s: System, r: Rules, run: seq<Action>, w: nat, sid: string,
                                        on: bool)
    requires DoneIsAired(r) && Invariant(start, r, s) && Enabled(s, r, StartSwitch(w, sid, on))
    requires Legal(After(s, r, StartSwitch(w, sid, on)), r, run) && NoStart(run, w)
    requires w < |End(After(s, r, StartSwitch(w, sid, on)), r, run).workers|
    requires End(After(s, r, StartSwitch(w, sid, on)), r, run).workers[w] == Ready([])
    ensures var begun, job := After(s, r, StartSwitch(w, sid, on)), SwitchJob(s.doc, sid, on);
            var done := DoneBy(begun, r, run, w);
            |done| == 1 && done[0].job == job
            && LeftBy(begun, r, run, w, s.doc)
               == if done[0].turn.answer == C.Success then W.Left(done[0].turn, [sid], job.addr, on) else s.doc
  {
    var begun := After(s, r, StartSwitch(w, sid, on));
    var done := DoneBy(begun, r, run, w);
    StepInvariant(start, r, s, StartSwitch(w, sid, on));
    PlanIsFollowed(start, begun, r, run, w, s.doc);
    OneIsDone(SwitchJob(s.doc, sid, on), done, s.doc);
  }

  /** A plan of one command is done when that command is. */
  lemma {:induction false} OneIsDone(job: Job, done: seq<Done>, doc: Document)
    requires Follows([job], done, [])
    ensures |done| == 1 && done[0].job == job
    ensures DoneLeaves(done, doc)
         == if done[0].turn.answer == C.Success then W.Left(done[0].turn, job.ids, job.addr, job.on) else doc
  {
    FollowsAt([job], done, []);
    assert done[..0] == [];
  }

  /** The turns of a run are turns that Switching allows. */
  lemma {:induction false} DoneIsOk(start: Document, s: System, r: Rules, run: seq<Action>, w: nat)
    requires DoneIsAired(r) && RepliesOk(r) && Invariant(start, r, s) && Legal(s, r, run)
    ensures forall i :: 0 <= i < |DoneBy(s, r, run, w)| ==> W.TurnOk(DoneBy(s, r, run, w)[i].turn)
    decreases |run|
  {
    if |run| > 0 {
      StepInvariant(start, r, s, run[0]);
      DoneIsOk(start, After(s, r, run[0]), r, run[1..], w);
      DoneNowIsOk(start, s, r, run[0], w);
    }
  }

  lemma {:induction false} DoneNowIsOk(start: Document, s: System, r: Rules, a: Action, w: nat)
    requires RepliesOk(r) && Invariant(start, r, s) && Enabled(s, r, a)
    ensures forall i :: 0 <= i < |DoneNow(s, r, a, w)| ==> W.TurnOk(DoneNow(s, r, a, w)[i].turn)
  {
    if a.Answer? {
      assert r.exchanged(s.workers[a.w].job, a.x);
    } else if a.Record? {
      var me := s.workers[a.w];
      assert WorkerOk(r, me, s.confirmed, s.sent);
      assert r.exchanged(me.job, me.x);
    }
  }
}
