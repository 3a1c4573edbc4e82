/**
 Any number of threads that call the library at once: a state machine with one action
 for each step that another thread may come between.  A thread that sends stands
 somewhere in the loops of send_tris() and between the two writes of transmit(), and
 every board call may fail.  On the host board the two writes are one step, which is a
 run of this machine in which nothing comes between them.
 */
module SendLock {
  import opened Text
  import opened Codewords
  import opened Pulses
  import opened Sending

  /**
   What the threads need to know about requests: which are accepted, the word and pulse
   length that each one sends, and how often a word is repeated.
   */
  datatype Rules = Rules(accepts: Request -> bool, message: Request -> Message, reps: nat)

  function LibraryRules(): Rules {
    Rules(req => Accepted(req), req => if Accepted(req) then MessageOf(req) else Message("", 0), NTIMES)
  }

  /** The whole transmission of a message. */
  function Plan(m: Message, reps: nat): seq<Pulse> { Repeated(m.word, m.pulseLen, reps) }

  // ---------- Where send_tris() stands ----------

  /** The repetition, the symbol in it, with the sync pulse after the last, and the half of the symbol. */
  datatype Pc = Pc(rep: nat, sym: nat, half: nat)

  predicate PcOk(m: Message, reps: nat, pc: Pc) {
    pc.rep <= reps && pc.sym <= |m.word| && pc.half <= 1
    && (pc.half == 1 ==> pc.sym < |m.word|)
    && (pc.rep == reps ==> pc.sym == 0 && pc.half == 0)
  }

  /** The pulse that is sent next: a half of a symbol, or the sync pulse behind the last one. */
  function PulseAt(m: Message, pc: Pc): Pulse
    requires pc.sym <= |m.word|
  {
    if pc.sym == |m.word| then Sync(m.pulseLen)
    else if pc.half == 0 then First(m.word[pc.sym], m.pulseLen)
    else Second(m.word[pc.sym], m.pulseLen)
  }

  function NextPc(m: Message, pc: Pc): Pc {
    if pc.sym < |m.word| && pc.half == 0 then Pc(pc.rep, pc.sym, 1)
    else if pc.sym < |m.word| then Pc(pc.rep, pc.sym + 1, 0)
    else Pc(pc.rep + 1, 0, 0)
  }

  function PartAt(m: Message, pc: Pc): seq<Pulse>
    requires pc.sym <= |m.word| && (pc.half == 1 ==> pc.sym < |m.word|)
  {
    Word(m.word[..pc.sym], m.pulseLen) + if pc.half == 1 then [First(m.word[pc.sym], m.pulseLen)] else []
  }

  /** What has been sent when send_tris() stands there. */
  function SentAt(m: Message, pc: Pc): seq<Pulse>
    requires pc.sym <= |m.word| && (pc.half == 1 ==> pc.sym < |m.word|)
  {
    Repeated(m.word, m.pulseLen, pc.rep) + PartAt(m, pc)
  }

  lemma {:induction false} PartAdvances(m: Message, pc: Pc)
    requires pc.sym <= |m.word| && pc.half <= 1 && (pc.half == 1 ==> pc.sym < |m.word|)
    ensures var next := NextPc(m, pc);
            if pc.sym < |m.word| then PartAt(m, next) == PartAt(m, pc) + [PulseAt(m, pc)]
            else PartAt(m, next) == [] && PartAt(m, pc) + [PulseAt(m, pc)] == Frame(m.word, m.pulseLen)
  {
    if pc.sym < |m.word| {
      WordFront(m.word, m.pulseLen, pc.sym);
    } else {
      assert m.word[..pc.sym] == m.word;
    }
  }

  lemma {:induction false} PcAdvances(m: Message, reps: nat, pc: Pc)
    requires PcOk(m, reps, pc) && pc.rep < reps
    ensures PcOk(m, reps, NextPc(m, pc))
    ensures SentAt(m, NextPc(m, pc)) == SentAt(m, pc) + [PulseAt(m, pc)]
  {
    var done := Repeated(m.word, m.pulseLen, pc.rep);
    PartAdvances(m, pc);
    Reassociate(done, PartAt(m, pc), [PulseAt(m, pc)]);
    if pc.sym == |m.word| {
      assert SentAt(m, NextPc(m, pc)) == (done + Frame(m.word, m.pulseLen)) + [];
    }
  }

  /** Before the last repetition is over the transmission is not whole. */
  lemma {:induction false} PcUnfinished(m: Message, reps: nat, pc: Pc)
    requires PcOk(m, reps, pc)
    ensures pc.rep < reps ==> SentAt(m, pc) < Plan(m, reps)
    ensures pc.rep == reps ==> SentAt(m, pc) == Plan(m, reps)
  {
    if pc.rep < reps {
      PartUnfinished(m, pc);
      FrameFront(m.word, m.pulseLen, pc.rep, reps);
      ProperPrefix(Repeated(m.word, m.pulseLen, pc.rep), PartAt(m, pc), Frame(m.word, m.pulseLen), Plan(m, reps));
    }
  }

  lemma {:induction false} PartUnfinished(m: Message, pc: Pc)
    requires pc.sym <= |m.word| && pc.half <= 1 && (pc.half == 1 ==> pc.sym < |m.word|)
    ensures PartAt(m, pc) < Frame(m.word, m.pulseLen)
  {
    if pc.sym < |m.word| {
      UnfinishedWord(m.word, m.pulseLen, pc.sym);
    } else {
      assert m.word[..pc.sym] == m.word;
    }
  }

  lemma {:induction false} ProperPrefix(a: seq<Pulse>, part: seq<Pulse>, whole: seq<Pulse>, all: seq<Pulse>)
    requires part < whole && a + whole <= all
    ensures a + part < all
  {
    assert (a + whole)[..|a + part|] == a + part;
  }

  // ---------- The machine ----------

  datatype Call = Send(req: Request) | Configure(config: Option<string>)

  /** Where a thread stands; raised is between the two writes of transmit(). */
  datatype Thread =
    | Outside
    | Asking(call: Call)
    | Holding(req: Request, ticket: nat, atLock: Option<string>)
    | Storing(config: Option<string>)
    | Pulsing(session: nat, pc: Pc, raised: bool)
    | Closing(session: nat, ret: int)
    | Leaving(closed: Option<nat>, ret: int)

  /**
   One board session: who opened it and with what, the pulses that went out and where in
   send_tris() they end, what the call and board_exit() returned, and the level of the
   line when the lock was given back.
   */
  datatype Session = Session(
    thread: nat, req: Request, ticket: nat,
    atLock: Option<string>, config: Option<string>,
    message: Message, sent: seq<Pulse>, at: Pc, ret: Option<int>, exit: Option<int>, left: bool)

  /** first is the level of the line before any session. */
  datatype State = State(
    rules: Rules,
    threads: seq<Thread>,
    lock: Option<nat>,
    config: Option<string>,
    log: seq<Pulse>,
    first: bool,
    level: bool,
    lineHigh: bool,
    openSessions: nat,
    overlapCount: nat,
    tickets: nat,
    sessions: seq<Session>)

  datatype Action =
    | Begin(call: Call)
    | Reject
    | LockFails
    | Take
    | InitFails
    | InitWorks
    | RaiseWorks
    | RaiseFails
    | LowerWorks
    | LowerFails
    | BadSymbol
    | Finish
    | ExitWorks
    | ExitFails
    | Store
    | GiveBack

  function Start(rules: Rules, n: nat, level: bool): State {
    State(rules, seq(n, _ => Outside), None, None, [], level, level, false, 0, 0, 0, [])
  }

  predicate HoldsLock(th: Thread) {
    th.Holding? || th.Storing? || th.Pulsing? || th.Closing? || th.Leaving?
  }

  predicate SessionOpen(th: Thread) { th.Pulsing? || th.Closing? }

  /** A thread that is about to send a pulse, or to find that there is no pulse for a symbol. */
  predicate BeforePulse(s: State, th: Thread) {
    th.Pulsing? && !th.raised && th.session < |s.sessions| && th.pc.rep < s.rules.reps
    && th.pc.sym <= |s.sessions[th.session].message.word|
  }

  predicate HasSymbol(m: Message, pc: Pc)
    requires pc.sym <= |m.word|
  {
    pc.sym == |m.word| || IsSymbol(m.word[pc.sym])
  }

  /** Thread t may do the action now. */
  predicate Enabled(s: State, t: nat, a: Action) {
    t < |s.threads| &&
    var th := s.threads[t];
    match a
    case Begin(_) => th.Outside?
    case Reject => th.Asking? && th.call.Send? && !s.rules.accepts(th.call.req)
    case LockFails => th.Asking? && (th.call.Send? ==> s.rules.accepts(th.call.req))
    case Take => th.Asking? && (th.call.Send? ==> s.rules.accepts(th.call.req)) && s.lock == None
    case InitFails => th.Holding?
    case InitWorks => th.Holding?
    case RaiseWorks => BeforePulse(s, th) && HasSymbol(s.sessions[th.session].message, th.pc)
    case RaiseFails => BeforePulse(s, th) && HasSymbol(s.sessions[th.session].message, th.pc)
    case BadSymbol => BeforePulse(s, th) && !HasSymbol(s.sessions[th.session].message, th.pc)
    case LowerWorks => th.Pulsing? && th.raised && th.session < |s.sessions|
                       && th.pc.sym <= |s.sessions[th.session].message.word|
    case LowerFails => th.Pulsing? && th.raised
    case Finish => th.Pulsing? && !th.raised && th.pc.rep >= s.rules.reps
    case ExitWorks => th.Closing? && th.session < |s.sessions|
    case ExitFails => th.Closing? && th.session < |s.sessions| && s.lineHigh
    case Store => th.Storing?
    case GiveBack => th.Leaving? && (th.closed.Some? ==> th.closed.value < |s.sessions|)
  }

  /** The session that board_init() opens. */
  function Opened(s: State, t: nat, th: Thread): Session
    requires th.Holding?
  {
    Session(t, th.req, th.ticket, th.atLock, s.config, s.rules.message(th.req), [], Pc(0, 0, 0), None, None, false)
  }

  function After(s: State, t: nat, a: Action): (next: State)
    requires Enabled(s, t, a)
    ensures next.rules == s.rules && next.first == s.first && |next.threads| == |s.threads|
    ensures forall u :: 0 <= u < |s.threads| && u != t ==> next.threads[u] == s.threads[u]
  {
    var th := s.threads[t];
    match a
    case Begin(call) => s.(threads := s.threads[t := Asking(call)])
    case Reject => s.(threads := s.threads[t := Outside])
    case LockFails => s.(threads := s.threads[t := Outside])
    case Take =>
      var inside := match th.call
        case Send(req) => Holding(req, s.tickets, s.config)
        case Configure(config) => Storing(config);
      s.(threads := s.threads[t := inside], lock := Some(t), tickets := s.tickets + 1)
    case InitFails => s.(threads := s.threads[t := Leaving(None, -1)])
    case InitWorks =>
      s.(threads := s.threads[t := Pulsing(|s.sessions|, Pc(0, 0, 0), false)],
         sessions := s.sessions + [Opened(s, t, th)],
         level := false, lineHigh := false,
         openSessions := s.openSessions + 1,
         overlapCount := s.overlapCount + if s.openSessions > 0 then 1 else 0)
    case RaiseWorks =>
      s.(threads := s.threads[t := Pulsing(th.session, th.pc, true)], level := true, lineHigh := true)
    case RaiseFails => s.(threads := s.threads[t := Closing(th.session, -1)])
    case BadSymbol => s.(threads := s.threads[t := Closing(th.session, -1)])
    case LowerWorks =>
      var now := s.sessions[th.session];
      var p := PulseAt(now.message, th.pc);
      var pc := NextPc(now.message, th.pc);
      s.(threads := s.threads[t := Pulsing(th.session, pc, false)],
         level := false, lineHigh := false,
         sessions := s.sessions[th.session := now.(sent := now.sent + [p], at := pc)], log := s.log + [p])
    case LowerFails => s.(threads := s.threads[t := Closing(th.session, -1)])
    case Finish => s.(threads := s.threads[t := Closing(th.session, 0)])
    case ExitWorks => Exited(s, t, th, 0).(level := s.level && !s.lineHigh)
    case ExitFails => Exited(s, t, th, -1)
    case Store => s.(threads := s.threads[t := Leaving(None, 0)], config := th.config)
    case GiveBack =>
      s.(threads := s.threads[t := Outside], lock := None,
         sessions := match th.closed
           case None => s.sessions
           case Some(k) => s.sessions[k := s.sessions[k].(ret := Some(th.ret), left := s.level)])
  }

  /** board_exit() apart from its low write, which is made when line_high is set. */
  function Exited(s: State, t: nat, th: Thread, exit: int): State
    requires t < |s.threads| && th.Closing? && th.session < |s.sessions|
  {
    s.(threads := s.threads[t := Leaving(Some(th.session), th.ret)],
       sessions := s.sessions[th.session := s.sessions[th.session].(exit := Some(exit))],
       lineHigh := false,
       openSessions := if s.openSessions > 0 then s.openSessions - 1 else 0)
  }

  /** A run is any interleaving of enabled actions. */
  predicate Legal(s: State, run: seq<(nat, Action)>)
    decreases |run|
  {
    |run| > 0 ==> Enabled(s, run[0].0, run[0].1) && Legal(After(s, run[0].0, run[0].1), run[1..])
  }

  function End(s: State, run: seq<(nat, Action)>): State
    requires Legal(s, run)
    decreases |run|
  {
    if |run| == 0 then s else End(After(s, run[0].0, run[0].1), run[1..])
  }

  // ---------- What every state of every run satisfies ----------

  /** The pulses of all sessions in the order in which they took the lock. */
  function Flat(ss: seq<Session>): seq<Pulse> {
    if |ss| == 0 then [] else Flat(ss[..|ss| - 1]) + ss[|ss| - 1].sent
  }

  /** A call that returns 0 has come to the end of send_tris(), any other has not. */
  predicate RetFits(r: Rules, s: Session, ret: int) {
    (ret == 0 && s.at.rep == r.reps) || (ret == -1 && s.at.rep < r.reps)
  }

  /** board_exit() answers 0 and leaves the line low, or it answers -1 because it could not. */
  predicate ExitFits(s: Session, ret: int, level: bool) {
    (s.exit == Some(0) && !level) || (s.exit == Some(-1) && level && ret != 0)
  }

  predicate Returned(r: Rules, s: Session) {
    s.ret.Some? && RetFits(r, s, s.ret.value) && ExitFits(s, s.ret.value, s.left)
  }

  /** What holds of any session, open or not. */
  predicate SessionOk(r: Rules, s: Session) {
    r.accepts(s.req) && s.message == r.message(s.req) && s.config == s.atLock
    && PcOk(s.message, r.reps, s.at) && s.sent == SentAt(s.message, s.at)
  }

  /** The session that is the last one and has not returned yet belongs to thread t. */
  predicate Current(s: State, t: nat, k: nat) {
    |s.sessions| > 0 && k == |s.sessions| - 1 && s.sessions[k].thread == t && s.sessions[k].ret == None
  }

  /** The session stands where its thread stands, and so does the level of the line. */
  predicate PulsingOk(s: State, k: nat, pc: Pc, raised: bool)
    requires k < |s.sessions|
  {
    s.sessions[k].at == pc && PcOk(s.sessions[k].message, s.rules.reps, pc)
    && (raised ==> pc.rep < s.rules.reps)
    && s.level == raised && s.lineHigh == raised
  }

  predicate ThreadOk(s: State, t: nat)
    requires t < |s.threads|
  {
    var th := s.threads[t];
    (HoldsLock(th) <==> s.lock == Some(t))
    && match th
       case Holding(req, ticket, atLock) => s.rules.accepts(req) && atLock == s.config && ticket + 1 == s.tickets
       case Pulsing(k, pc, raised) => Current(s, t, k) && PulsingOk(s, k, pc, raised)
       case Closing(k, ret) =>
         Current(s, t, k) && RetFits(s.rules, s.sessions[k], ret) && s.lineHigh == s.level && (ret == 0 ==> !s.level)
       case Leaving(Some(k), ret) =>
         Current(s, t, k) && RetFits(s.rules, s.sessions[k], ret) && ExitFits(s.sessions[k], ret, s.level)
       case _ => true
  }

  /** Some thread is busy with the session that is the last of the list. */
  predicate Pending(th: Thread) { th.Pulsing? || th.Closing? || (th.Leaving? && th.closed.Some?) }

  function Holder(s: State): Thread {
    if s.lock.Some? && s.lock.value < |s.threads| then s.threads[s.lock.value] else Outside
  }

  /** All sessions, of which the last may still be pending. */
  predicate SessionsOk(r: Rules, ss: seq<Session>, pending: bool) {
    (forall k :: 0 <= k < |ss| ==> SessionOk(r, ss[k]))
    && (forall k :: 0 < k < |ss| ==> ss[k - 1].ticket < ss[k].ticket)
    && (forall k :: 0 <= k < |ss| - (if pending then 1 else 0) ==> Returned(r, ss[k]))
  }

  predicate LastBefore(ss: seq<Session>, ticket: nat) {
    |ss| > 0 ==> ss[|ss| - 1].ticket < ticket
  }

  predicate ThreadsOk(s: State) {
    (s.lock.Some? ==> s.lock.value < |s.threads|)
    && forall t :: 0 <= t < |s.threads| ==> ThreadOk(s, t)
  }

  /** The level at which the sessions so far left the line. */
  function LeftAt(first: bool, ss: seq<Session>): bool {
    if |ss| == 0 then first else ss[|ss| - 1].left
  }

  /** While no session is busy the line is as the last one left it. */
  predicate LineOk(s: State) {
    !Pending(Holder(s)) ==> s.level == LeftAt(s.first, s.sessions)
  }

  predicate BooksOk(s: State) {
    LineOk(s)
    && s.openSessions == (if SessionOpen(Holder(s)) then 1 else 0)
    && s.overlapCount == 0
    && SessionsOk(s.rules, s.sessions, Pending(Holder(s)))
    && LastBefore(s.sessions, if Holder(s).Holding? then Holder(s).ticket else s.tickets)
    && s.log == Flat(s.sessions)
  }

  predicate Invariant(s: State) { ThreadsOk(s) && BooksOk(s) }

  lemma {:induction false} StartInvariant(rules: Rules, n: nat, level: bool)
    ensures Invariant(Start(rules, n, level))
  {
  }

  lemma {:induction false} AppendSession(r: Rules, ss: seq<Session>, now: Session)
    requires SessionsOk(r, ss, false) && SessionOk(r, now) && LastBefore(ss, now.ticket)
    ensures SessionsOk(r, ss + [now], true)
    ensures Flat(ss + [now]) == Flat(ss) + now.sent
  {
    assert (ss + [now])[..|ss|] == ss;
  }

  lemma {:induction false} ChangeLast(r: Rules, ss: seq<Session>, now: Session, pending: bool)
    requires |ss| > 0 && SessionsOk(r, ss, true) && SessionOk(r, now) && now.ticket == ss[|ss| - 1].ticket
    requires !pending ==> Returned(r, now)
    ensures SessionsOk(r, ss[|ss| - 1 := now], pending)
    ensures Flat(ss[|ss| - 1 := now]) == Flat(ss[..|ss| - 1]) + now.sent
  {
    assert ss[|ss| - 1 := now][..|ss| - 1] == ss[..|ss| - 1];
  }

  /** A thread without the lock does not notice what the holder of the lock does. */
  lemma {:induction false} OthersKeep(s: State, s': State, t: nat)
    requires ThreadsOk(s) && t < |s.threads| && |s'.threads| == |s.threads| && s'.rules == s.rules
    requires forall u :: 0 <= u < |s.threads| && u != t ==> s'.threads[u] == s.threads[u]
    requires s.lock == None || s.lock == Some(t)
             || (s'.sessions == s.sessions && s'.config == s.config && s'.tickets == s.tickets
                 && s'.level == s.level && s'.lineHigh == s.lineHigh)
    requires s'.lock == s.lock || (s.lock == None && s'.lock == Some(t)) || (s.lock == Some(t) && s'.lock == None)
    requires ThreadOk(s', t)
    ensures ThreadsOk(s')
  {
    forall u | 0 <= u < |s.threads|
      ensures ThreadOk(s', u)
    {
      assert ThreadOk(s, u);
    }
  }

  lemma {:induction false} StepOutside(s: State, t: nat, a: Action)
    requires Invariant(s) && Enabled(s, t, a) && (a.Begin? || a.Reject? || a.LockFails?)
    ensures ThreadOk(After(s, t, a), t) && BooksOk(After(s, t, a))
  {
    assert ThreadOk(s, t);
  }

  /** A step between the sessions leaves the books as they are. */
  lemma {:induction false} BooksStay(s: State, s': State)
    requires BooksOk(s) && !Pending(Holder(s)) && !Pending(Holder(s'))
    requires s'.rules == s.rules && s'.first == s.first && s'.sessions == s.sessions && s'.log == s.log
    requires s'.level == s.level && s'.openSessions == s.openSessions && s'.overlapCount == s.overlapCount
    requires s.tickets <= s'.tickets && (Holder(s).Holding? ==> Holder(s).ticket <= s.tickets)
    requires Holder(s').Holding? ==> Holder(s').ticket == s.tickets
    ensures BooksOk(s')
  {
  }

  lemma {:induction false} StepTake(s: State, t: nat)
    requires Invariant(s) && Enabled(s, t, Take)
    ensures ThreadOk(After(s, t, Take), t) && BooksOk(After(s, t, Take))
  {
    assert ThreadOk(s, t);
    BooksStay(s, After(s, t, Take));
  }

  lemma {:induction false} StepNoSession(s: State, t: nat, a: Action)
    requires Invariant(s) && Enabled(s, t, a) && (a.InitFails? || a.Store?)
    ensures ThreadOk(After(s, t, a), t) && BooksOk(After(s, t, a))
  {
    assert ThreadOk(s, t);
    BooksStay(s, After(s, t, a));
  }

  /** Nothing of a new session has been sent. */
  lemma {:induction false} NewSession(r: Rules, now: Session)
    requires r.accepts(now.req) && now.message == r.message(now.req) && now.config == now.atLock
    requires now.sent == [] && now.at == Pc(0, 0, 0)
    ensures SessionOk(r, now)
  {
    assert now.message.word[..0] == "";
  }

  lemma {:induction false} InitThread(s: State, t: nat)
    requires Invariant(s) && Enabled(s, t, InitWorks)
    ensures ThreadOk(After(s, t, InitWorks), t) && SessionOk(s.rules, Opened(s, t, s.threads[t]))
  {
    assert ThreadOk(s, t);
    NewSession(s.rules, Opened(s, t, s.threads[t]));
    assert After(s, t, InitWorks).sessions[|s.sessions|] == Opened(s, t, s.threads[t]);
  }

  lemma {:induction false} StepInit(s: State, t: nat)
    requires Invariant(s) && Enabled(s, t, InitWorks)
    ensures ThreadOk(After(s, t, InitWorks), t) && BooksOk(After(s, t, InitWorks))
  {
    InitThread(s, t);
    assert ThreadOk(s, t);
    var s', now := After(s, t, InitWorks), Opened(s, t, s.threads[t]);
    assert s'.sessions == s.sessions + [now] && s'.log == s.log && s'.lock == Some(t) && Holder(s') == s'.threads[t];
    AppendSession(s.rules, s.sessions, now);
    assert s.log + [] == s.log;
  }

  /** A write that changes only the level of the line, or fails and changes nothing. */
  lemma {:induction false} StepWrite(s: State, t: nat, a: Action)
    requires Invariant(s) && Enabled(s, t, a)
             && (a.RaiseWorks? || a.RaiseFails? || a.LowerFails? || a.BadSymbol? || a.Finish?)
    ensures ThreadOk(After(s, t, a), t) && BooksOk(After(s, t, a))
  {
    assert ThreadOk(s, t);
  }

  /** One more pulse brings the session to the next place. */
  lemma {:induction false} OneMorePulse(r: Rules, now: Session)
    requires SessionOk(r, now) && now.at.rep < r.reps
    ensures SessionOk(r, now.(sent := now.sent + [PulseAt(now.message, now.at)], at := NextPc(now.message, now.at)))
  {
    PcAdvances(now.message, r.reps, now.at);
  }

  /** The holder of the lock goes on with the last session, or gives it back. */
  lemma {:induction false} LastChanges(s: State, s': State, now: Session)
    requires BooksOk(s) && Pending(Holder(s)) && |s.sessions| > 0
    requires SessionOk(s.rules, now) && now.ticket == s.sessions[|s.sessions| - 1].ticket
    requires s'.rules == s.rules && s'.first == s.first && s'.tickets == s.tickets && s'.overlapCount == 0
    requires s'.sessions == s.sessions[|s.sessions| - 1 := now]
    requires s'.log == Flat(s.sessions[..|s.sessions| - 1]) + now.sent
    requires s'.openSessions == (if SessionOpen(Holder(s')) then 1 else 0) && !Holder(s').Holding?
    requires !Pending(Holder(s')) ==> Returned(s.rules, now) && s'.level == now.left
    ensures BooksOk(s')
  {
    ChangeLast(s.rules, s.sessions, now, Pending(Holder(s')));
  }

  lemma {:induction false} StepLower(s: State, t: nat)
    requires Invariant(s) && Enabled(s, t, LowerWorks)
    ensures ThreadOk(After(s, t, LowerWorks), t) && BooksOk(After(s, t, LowerWorks))
  {
    assert ThreadOk(s, t);
    var s', th := After(s, t, LowerWorks), s.threads[t];
    var k := th.session;
    var was := s.sessions[k];
    var p := PulseAt(was.message, th.pc);
    var now := was.(sent := was.sent + [p], at := NextPc(was.message, th.pc));
    OneMorePulse(s.rules, was);
    assert s'.threads[t] == Pulsing(k, now.at, false) && Holder(s') == s'.threads[t];
    assert Flat(s.sessions[..k]) + (was.sent + [p]) == (Flat(s.sessions[..k]) + was.sent) + [p];
    LastChanges(s, s', now);
    assert s'.sessions[k] == now;
  }

  lemma {:induction false} StepExit(s: State, t: nat, a: Action)
    requires Invariant(s) && Enabled(s, t, a) && (a.ExitWorks? || a.ExitFails?)
    ensures ThreadOk(After(s, t, a), t) && BooksOk(After(s, t, a))
  {
    assert ThreadOk(s, t);
    var s', k := After(s, t, a), s.threads[t].session;
    var now := s.sessions[k].(exit := Some(if a.ExitWorks? then 0 else -1));
    assert s'.threads[t] == Leaving(Some(k), s.threads[t].ret) && Holder(s') == s'.threads[t];
    assert SessionOk(s.rules, now);
    LastChanges(s, s', now);
    assert s'.sessions[k] == now;
  }

  /** A session that comes back has returned. */
  lemma {:induction false} SessionReturns(r: Rules, now: Session, ret: int, level: bool)
    requires SessionOk(r, now) && RetFits(r, now, ret) && ExitFits(now, ret, level)
    ensures var next := now.(ret := Some(ret), left := level); SessionOk(r, next) && Returned(r, next)
  {
  }

  lemma {:induction false} StepReturn(s: State, t: nat)
    requires Invariant(s) && Enabled(s, t, GiveBack) && s.threads[t].closed.Some?
    ensures ThreadOk(After(s, t, GiveBack), t) && BooksOk(After(s, t, GiveBack))
  {
    assert ThreadOk(s, t);
    var s', th := After(s, t, GiveBack), s.threads[t];
    var k := th.closed.value;
    SessionReturns(s.rules, s.sessions[k], th.ret, s.level);
    assert Holder(s') == Outside;
    LastChanges(s, s', s.sessions[k].(ret := Some(th.ret), left := s.level));
  }

  lemma {:induction false} StepLeave(s: State, t: nat)
    requires Invariant(s) && Enabled(s, t, GiveBack) && s.threads[t].closed.None?
    ensures ThreadOk(After(s, t, GiveBack), t) && BooksOk(After(s, t, GiveBack))
  {
    assert ThreadOk(s, t);
    BooksStay(s, After(s, t, GiveBack));
  }

  /** A step of one thread leaves the others as they may be. */
  lemma {:induction false} StepThreads(s: State, t: nat, a: Action)
    requires Invariant(s) && Enabled(s, t, a) && ThreadOk(After(s, t, a), t)
    ensures ThreadsOk(After(s, t, a))
  {
    assert ThreadOk(s, t);
    OthersKeep(s, After(s, t, a), t);
  }

  lemma {:induction false} StepInvariant(s: State, t: nat, a: Action)
    requires Invariant(s) && Enabled(s, t, a)
    ensures Invariant(After(s, t, a))
  {
    match a {
      case Begin(_) => StepOutside(s, t, a);
      case Reject => StepOutside(s, t, a);
      case LockFails => StepOutside(s, t, a);
      case Take => StepTake(s, t);
      case InitFails => StepNoSession(s, t, a);
      case InitWorks => StepInit(s, t);
      case Store => StepNoSession(s, t, a);
      case LowerWorks => StepLower(s, t);
      case ExitWorks => StepExit(s, t, a);
      case ExitFails => StepExit(s, t, a);
      case GiveBack => if s.threads[t].closed.Some? { StepReturn(s, t); } else { StepLeave(s, t); }
      case _ => StepWrite(s, t, a);
    }
    StepThreads(s, t, a);
  }

  lemma {:induction false} RunInvariant(s: State, run: seq<(nat, Action)>)
    requires Invariant(s) && Legal(s, run)
    ensures Invariant(End(s, run))
    decreases |run|
  {
    if |run| > 0 {
      StepInvariant(s, run[0].0, run[0].1);
      RunInvariant(After(s, run[0].0, run[0].1), run[1..]);
    }
  }

  // ---------- Whose call a session is, and whose config it uses ----------

  /** The calls of a run in the order in which they took the lock, with the threads that made them. */
  function TakenBy(s: State, run: seq<(nat, Action)>): seq<(nat, Call)>
    requires Legal(s, run)
    decreases |run|
  {
    if |run| == 0 then []
    else TakenNow(s, run[0].0, run[0].1) + TakenBy(After(s, run[0].0, run[0].1), run[1..])
  }

  function TakenNow(s: State, t: nat, a: Action): seq<(nat, Call)>
    requires Enabled(s, t, a)
  {
    if a.Take? then [(t, s.threads[t].call)] else []
  }

  /** The config of the last call that set one. */
  function LastConfigure(taken: seq<(nat, Call)>): Option<string> {
    if |taken| == 0 then None
    else match taken[|taken| - 1].1
      case Configure(config) => config
      case Send(_) => LastConfigure(taken[..|taken| - 1])
  }

  predicate OwnSession(s: Session, taken: seq<(nat, Call)>) {
    s.ticket < |taken| && taken[s.ticket] == (s.thread, Send(s.req)) && s.config == LastConfigure(taken[..s.ticket])
  }

  /** A thread that has just taken the lock is about the call with which it did. */
  predicate OwnThread(t: nat, th: Thread, taken: seq<(nat, Call)>) {
    match th
    case Holding(req, ticket, _) => ticket + 1 == |taken| && taken[ticket] == (t, Send(req))
    case Storing(config) => |taken| > 0 && taken[|taken| - 1] == (t, Configure(config))
    case _ => true
  }

  predicate Own(s: State, taken: seq<(nat, Call)>) {
    |taken| == s.tickets
    && (s.lock.Some? ==> s.lock.value < |s.threads| && OwnThread(s.lock.value, Holder(s), taken))
    && (Holder(s).Storing? ==> |taken| > 0)
    && s.config == LastConfigure(if Holder(s).Storing? then taken[..|taken| - 1] else taken)
    && forall k :: 0 <= k < |s.sessions| ==> OwnSession(s.sessions[k], taken)
  }

  lemma {:induction false} SessionsStayOwn(ss: seq<Session>, taken: seq<(nat, Call)>, more: seq<(nat, Call)>)
    requires forall k :: 0 <= k < |ss| ==> OwnSession(ss[k], taken)
    ensures forall k :: 0 <= k < |ss| ==> OwnSession(ss[k], taken + more)
  {
    forall k | 0 <= k < |ss|
      ensures OwnSession(ss[k], taken + more)
    {
      assert (taken + more)[..ss[k].ticket] == taken[..ss[k].ticket];
    }
  }

  lemma {:induction false} OwnTake(s: State, t: nat, taken: seq<(nat, Call)>)
    requires Invariant(s) && Enabled(s, t, Take) && Own(s, taken)
    ensures Own(After(s, t, Take), taken + TakenNow(s, t, Take))
  {
    assert ThreadOk(s, t);
    var now := [(t, s.threads[t].call)];
    SessionsStayOwn(s.sessions, taken, now);
    assert (taken + now)[..|taken|] == taken;
  }

  lemma {:induction false} OwnInit(s: State, t: nat, taken: seq<(nat, Call)>)
    requires Invariant(s) && Enabled(s, t, InitWorks) && Own(s, taken)
    ensures Own(After(s, t, InitWorks), taken)
  {
    assert ThreadOk(s, t);
    var next := Opened(s, t, s.threads[t]);
    assert s.lock == Some(t) && LastConfigure(taken) == LastConfigure(taken[..|taken| - 1]);
    assert OwnSession(next, taken);
    assert After(s, t, InitWorks).sessions == s.sessions + [next];
  }

  lemma {:induction false} OwnStep(s: State, t: nat, a: Action, taken: seq<(nat, Call)>)
    requires Invariant(s) && Enabled(s, t, a) && Own(s, taken)
    ensures Own(After(s, t, a), taken + TakenNow(s, t, a))
  {
    assert ThreadOk(s, t);
    assert taken + [] == taken;
    match a {
      case Take => OwnTake(s, t, taken);
      case InitWorks => OwnInit(s, t, taken);
      case _ => OwnOther(s, t, a, taken);
    }
  }

  /** No step changes whose a session is. */
  lemma {:induction false} SessionsKeepOwner(s: State, t: nat, a: Action)
    requires Enabled(s, t, a) && !a.InitWorks?
    ensures var next := After(s, t, a);
            |next.sessions| == |s.sessions|
            && forall k :: 0 <= k < |s.sessions| ==>
                 next.sessions[k].thread == s.sessions[k].thread && next.sessions[k].req == s.sessions[k].req
                 && next.sessions[k].ticket == s.sessions[k].ticket && next.sessions[k].config == s.sessions[k].config
  {
  }

  /** Who holds the lock, and the config, behind a step that takes no lock. */
  lemma {:induction false} HolderStep(s: State, t: nat, a: Action)
    requires Invariant(s) && Enabled(s, t, a) && !a.Take? && !a.InitWorks?
    ensures var next := After(s, t, a);
            next.tickets == s.tickets && next.config == (if a.Store? then s.threads[t].config else s.config)
            && (a.Store? ==> Holder(s) == s.threads[t] && Holder(s).Storing?)
            && (Holder(next) == Holder(s)
                || (!Holder(next).Holding? && !Holder(next).Storing? && (a.Store? || !Holder(s).Storing?)))
            && (a.Store? ==> !Holder(next).Storing?)
            && (next.lock.Some? ==> next.lock == s.lock)
  {
    assert ThreadOk(s, t);
  }

  lemma {:induction false} OwnOther(s: State, t: nat, a: Action, taken: seq<(nat, Call)>)
    requires Invariant(s) && Enabled(s, t, a) && Own(s, taken) && !a.Take? && !a.InitWorks?
    ensures Own(After(s, t, a), taken)
  {
    var next := After(s, t, a);
    HolderStep(s, t, a);
    SessionsKeepOwner(s, t, a);
    forall k | 0 <= k < |next.sessions|
      ensures OwnSession(next.sessions[k], taken)
    {
      assert OwnSession(s.sessions[k], taken);
    }
  }

  lemma {:induction false} TakenRegroup(a: seq<(nat, Call)>, b: seq<(nat, Call)>, c: seq<(nat, Call)>)
    ensures a + (b + c) == (a + b) + c
  {
  }

  lemma {:induction false} OwnRun(s: State, run: seq<(nat, Action)>, taken: seq<(nat, Call)>)
    requires Invariant(s) && Legal(s, run) && Own(s, taken)
    ensures Own(End(s, run), taken + TakenBy(s, run))
    decreases |run|
  {
    if |run| == 0 {
      assert taken + [] == taken;
    } else {
      var next, now := After(s, run[0].0, run[0].1), TakenNow(s, run[0].0, run[0].1);
      StepInvariant(s, run[0].0, run[0].1);
      OwnStep(s, run[0].0, run[0].1, taken);
      OwnRun(next, run[1..], taken + now);
      TakenRegroup(taken, now, TakenBy(next, run[1..]));
      assert End(s, run) == End(next, run[1..]);
      assert taken + TakenBy(s, run) == (taken + now) + TakenBy(next, run[1..]);
    }
  }

  /**
   Each session is that of the very call that took the lock for it, by the thread that made
   the call; and it uses the config of the last socket_gpio_config() that took the lock
   before it, or none when there was none.
   */
  lemma {:induction false} SessionsAreOwn(rules: Rules, n: nat, level: bool, run: seq<(nat, Action)>)
    requires Legal(Start(rules, n, level), run)
    ensures var s, taken := End(Start(rules, n, level), run), TakenBy(Start(rules, n, level), run);
            |taken| == s.tickets
            && forall k :: 0 <= k < |s.sessions| ==>
                 s.sessions[k].ticket < |taken|
                 && taken[s.sessions[k].ticket] == (s.sessions[k].thread, Send(s.sessions[k].req))
                 && s.sessions[k].config == LastConfigure(taken[..s.sessions[k].ticket])
  {
    StartInvariant(rules, n, level);
    OwnRun(Start(rules, n, level), run, []);
    var taken := TakenBy(Start(rules, n, level), run);
    assert [] + taken == taken;
  }

  // ---------- The promises of the library ----------

  lemma {:induction false} PendingHasNotReturned(s: State, k: nat)
    requires Invariant(s) && k < |s.sessions| && s.sessions[k].ret.Some?
    ensures Returned(s.rules, s.sessions[k])
  {
    if Pending(Holder(s)) {
      assert ThreadOk(s, s.lock.value);
    }
  }

  lemma {:induction false} TicketsGrow(r: Rules, ss: seq<Session>, pending: bool, j: nat, k: nat)
    requires SessionsOk(r, ss, pending) && j < k < |ss|
    ensures ss[j].ticket < ss[k].ticket && Returned(r, ss[j])
    decreases k
  {
    if j + 1 < k {
      TicketsGrow(r, ss, pending, j, k - 1);
    }
  }

  lemma {:induction false} RulesStay(s: State, run: seq<(nat, Action)>)
    requires Legal(s, run)
    ensures End(s, run).rules == s.rules && |End(s, run).threads| == |s.threads|
    decreases |run|
  {
    if |run| > 0 {
      RulesStay(After(s, run[0].0, run[0].1), run[1..]);
    }
  }

  lemma {:induction false} Reached(rules: Rules, n: nat, level: bool, run: seq<(nat, Action)>) returns (s: State)
    requires Legal(Start(rules, n, level), run)
    ensures s == End(Start(rules, n, level), run) && Invariant(s) && s.rules == rules && |s.threads| == n
  {
    StartInvariant(rules, n, level);
    RunInvariant(Start(rules, n, level), run);
    RulesStay(Start(rules, n, level), run);
    s := End(Start(rules, n, level), run);
  }

  /**
   A session that has returned was whole exactly when it returned 0; board_exit() answered
   0 and left the line low, or it answered -1 because it could not, and the call failed.
   */
  predicate WholeOrFailed(r: Rules, s: Session) {
    ((s.ret == Some(0) && s.sent == Plan(s.message, r.reps)) || (s.ret == Some(-1) && s.sent < Plan(s.message, r.reps)))
    && ((s.exit == Some(0) && !s.left) || (s.exit == Some(-1) && s.left && s.ret == Some(-1)))
  }

  /**
   Serialisation, for every interleaving of any number of threads and any faults: the
   pulses on the air are those of the sessions one after the other in lock order; no two
   sessions were ever open at once; each session is a part of the transmission of an
   accepted request; each used the config that was stored last before it took the lock;
   and one that has returned was whole exactly when it returned 0, and left the line low
   unless its own board_exit() failed, which then answered -1.
   */
  lemma {:induction false} Serialised(rules: Rules, n: nat, level: bool, run: seq<(nat, Action)>)
    requires Legal(Start(rules, n, level), run)
    ensures var s := End(Start(rules, n, level), run);
            s.log == Flat(s.sessions)
            && s.overlapCount == 0 && s.openSessions <= 1
            && (forall k :: 0 <= k < |s.sessions| ==>
                  rules.accepts(s.sessions[k].req) && s.sessions[k].message == rules.message(s.sessions[k].req)
                  && s.sessions[k].sent <= Plan(s.sessions[k].message, rules.reps)
                  && s.sessions[k].config == s.sessions[k].atLock)
            && (forall k :: 0 <= k < |s.sessions| && s.sessions[k].ret.Some? ==> WholeOrFailed(rules, s.sessions[k]))
            && (forall j, k :: 0 <= j < k < |s.sessions| ==>
                  s.sessions[j].ticket < s.sessions[k].ticket && s.sessions[j].ret.Some?)
  {
    var s := Reached(rules, n, level, run);
    forall k | 0 <= k < |s.sessions|
      ensures s.sessions[k].sent <= Plan(s.sessions[k].message, rules.reps)
      ensures s.sessions[k].ret.Some? ==> WholeOrFailed(rules, s.sessions[k])
    {
      assert SessionOk(rules, s.sessions[k]);
      PcUnfinished(s.sessions[k].message, rules.reps, s.sessions[k].at);
      if s.sessions[k].ret.Some? {
        PendingHasNotReturned(s, k);
      }
    }
    forall j, k | 0 <= j < k < |s.sessions|
      ensures s.sessions[j].ticket < s.sessions[k].ticket && s.sessions[j].ret.Some?
    {
      TicketsGrow(rules, s.sessions, Pending(Holder(s)), j, k);
    }
  }

  /**
   The line, in every state of every run: line_high is its level while a session is open;
   between the end of board_exit() and the unlock it is low unless that very call failed;
   and while no session is busy it is as the last one left it.
   */
  lemma {:induction false} LineIsKnown(rules: Rules, n: nat, level: bool, run: seq<(nat, Action)>, t: nat)
    requires Legal(Start(rules, n, level), run) && t < |End(Start(rules, n, level), run).threads|
    ensures var s := End(Start(rules, n, level), run);
            var th := s.threads[t];
            (SessionOpen(th) ==> s.lock == Some(t) && s.lineHigh == s.level)
            && (th.Leaving? && th.closed.Some? ==>
                  th.closed.value == |s.sessions| - 1
                  && (s.sessions[th.closed.value].exit == Some(0) ==> !s.level)
                  && (s.sessions[th.closed.value].exit == Some(-1) || s.sessions[th.closed.value].exit == Some(0))
                  && (th.ret == 0 ==> s.sessions[th.closed.value].exit == Some(0)))
            && (s.lock == None ==> s.level == LeftAt(level, s.sessions))
  {
    var s := Reached(rules, n, level, run);
    FirstStays(Start(rules, n, level), run);
    assert ThreadOk(s, t);
  }

  lemma {:induction false} FirstStays(s: State, run: seq<(nat, Action)>)
    requires Legal(s, run)
    ensures End(s, run).first == s.first
    decreases |run|
  {
    if |run| > 0 {
      FirstStays(After(s, run[0].0, run[0].1), run[1..]);
    }
  }

  /**
   The same for the rules of the library: each session that has returned relates to its
   request as one call of Sending.Library does, although any number of threads run.
   */
  lemma {:induction false} LibrarySerialised(n: nat, level: bool, run: seq<(nat, Action)>, k: nat)
    requires Legal(Start(LibraryRules(), n, level), run)
    requires k < |End(Start(LibraryRules(), n, level), run).sessions|
    ensures var session := End(Start(LibraryRules(), n, level), run).sessions[k];
            Accepted(session.req)
            && session.sent <= TransmissionOf(MessageOf(session.req))
            && (session.ret.Some? ==>
                  Sent([], session.sent, MessageOf(session.req), session.ret == Some(0))
                  && (session.exit == Some(0) ==> !session.left)
                  && (session.ret == Some(0) ==> session.exit == Some(0)))
  {
    Serialised(LibraryRules(), n, level, run);
    var session := End(Start(LibraryRules(), n, level), run).sessions[k];
    assert session.sent[0..] == session.sent;
  }

  function Messages(ss: seq<Session>): seq<Message> {
    if |ss| == 0 then [] else Messages(ss[..|ss| - 1]) + [ss[|ss| - 1].message]
  }

  lemma {:induction false} WholeSessionsAreATrain(ss: seq<Session>)
    requires forall k :: 0 <= k < |ss| ==>
               Accepted(ss[k].req) && ss[k].message == MessageOf(ss[k].req)
               && ss[k].sent == TransmissionOf(ss[k].message)
    ensures Flat(ss) == Train(Messages(ss)) && Decodable(Messages(ss), CODEWORD_MAX_LEN)
  {
    if |ss| > 0 {
      var front, last := ss[..|ss| - 1], ss[|ss| - 1];
      WholeSessionsAreATrain(front);
      AcceptedIsSendable(last.req);
      assert Messages(ss)[..|Messages(ss)| - 1] == Messages(front);
    }
  }

  /**
   When every call has returned 0, what a receiver decodes from the air is the list of
   the requested messages in lock order, and nothing else, however the threads ran.
   */
  lemma {:induction false} ReceiverHearsLockOrder(n: nat, level: bool, run: seq<(nat, Action)>, decoded: seq<Message>)
    requires Legal(Start(LibraryRules(), n, level), run)
    requires forall k :: 0 <= k < |End(Start(LibraryRules(), n, level), run).sessions| ==>
               End(Start(LibraryRules(), n, level), run).sessions[k].ret == Some(0)
    requires Decodable(decoded, 31) && Train(decoded) == End(Start(LibraryRules(), n, level), run).log
    ensures var s := End(Start(LibraryRules(), n, level), run);
            decoded == Messages(s.sessions)
            && forall k :: 0 <= k < |s.sessions| ==>
                 Accepted(s.sessions[k].req) && s.sessions[k].message == MessageOf(s.sessions[k].req)
  {
    var s := End(Start(LibraryRules(), n, level), run);
    Serialised(LibraryRules(), n, level, run);
    WholeSessionsAreATrain(s.sessions);
    TrainInjective(decoded, Messages(s.sessions));
  }

  /** What a thread that holds the lock can do next. */
  function NextOf(s: State, th: Thread): Action {
    match th
    case Holding(_, _, _) => InitWorks
    case Storing(_) => Store
    case Pulsing(k, pc, raised) =>
      if raised then LowerWorks
      else if pc.rep >= s.rules.reps then Finish
      else if k < |s.sessions| && pc.sym <= |s.sessions[k].message.word| && !HasSymbol(s.sessions[k].message, pc)
      then BadSymbol
      else RaiseWorks
    case Closing(_, _) => ExitWorks
    case _ => GiveBack
  }

  lemma {:induction false} HolderGoesOn(s: State, u: nat)
    requires u < |s.threads| && ThreadOk(s, u) && s.lock == Some(u)
    ensures var a := NextOf(s, s.threads[u]); !a.Begin? && !a.LockFails? && Enabled(s, u, a)
  {
  }

  /** No run gets stuck: while some thread is inside a call, some thread can go on. */
  lemma {:induction false} NeverStuck(rules: Rules, n: nat, level: bool, run: seq<(nat, Action)>, t: nat)
    requires Legal(Start(rules, n, level), run) && t < |End(Start(rules, n, level), run).threads|
    requires !End(Start(rules, n, level), run).threads[t].Outside?
    ensures exists u: nat, a: Action :: !a.Begin? && !a.LockFails? && Enabled(End(Start(rules, n, level), run), u, a)
  {
    var s := Reached(rules, n, level, run);
    assert ThreadOk(s, t);
    if s.lock == None {
      var a := if s.threads[t].call.Send? && !rules.accepts(s.threads[t].call.req) then Reject else Take;
      assert Enabled(s, t, a);
    } else {
      HolderGoesOn(s, s.lock.value);
    }
  }
}
