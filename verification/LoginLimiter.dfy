/**
 The login limiter: a bounded table of failed logins, cleared lazily, that answers each
 address as a limiter of its own would.
 */
module LoginLimiter {
  import opened Text

  /** The failures counted since the first one; a locked address has the end of its lock. */
  datatype Entry = Entry(failures: nat, first: real, until: Option<real>)

  type Table = map<string, Entry>

  datatype Config = Config(maxFailures: nat, window: real, lockout: real, maxTracked: nat)

  predicate ConfigOk(cfg: Config) { cfg.maxFailures >= 1 && cfg.maxTracked >= 1 }

  predicate Over(cfg: Config, e: Entry, now: real) {
    match e.until
    case None => now - e.first > cfg.window
    case Some(until) => now >= until
  }

  function Expired(cfg: Config, m: Table, now: real): Table {
    map a | a in m && !Over(cfg, m[a], now) :: m[a]
  }

  // ---------- The order in which entries are evicted ----------

  /** The order of strings. */
  predicate Before(a: string, b: string) {
    b != "" && (a == "" || a[0] < b[0] || (a[0] == b[0] && Before(a[1..], b[1..])))
  }

  lemma {:induction false} BeforeTotal(a: string, b: string)
    ensures a == b || Before(a, b) || Before(b, a)
    ensures !(Before(a, b) && Before(b, a)) && (a == b ==> !Before(a, b))
  {
    if a != "" && b != "" {
      BeforeTotal(a[1..], b[1..]);
      if a[0] == b[0] && a[1..] == b[1..] {
        assert a == [a[0]] + a[1..] == b;
      }
    }
  }

  lemma {:induction false} BeforeTransitive(a: string, b: string, c: string)
    requires Before(a, b) && Before(b, c)
    ensures Before(a, c)
  {
    if a != "" && a[0] == b[0] == c[0] {
      BeforeTransitive(a[1..], b[1..], c[1..]);
    }
  }

  /** Tuples of a time and an address, by the time first. */
  predicate Sooner(t: real, a: string, u: real, b: string) { t < u || (t == u && Before(a, b)) }

  /** The time that counts in the eviction: the first failure, or the end of the lock. */
  function Mark(e: Entry): real {
    match e.until
    case None => e.first
    case Some(until) => until
  }

  function Unlocked(m: Table): set<string> { set a | a in m && m[a].until.None? }

  function Candidates(m: Table): set<string> { if Unlocked(m) != {} then Unlocked(m) else m.Keys }

  predicate Soonest(m: Table, pool: set<string>, a: string)
    requires pool <= m.Keys
  {
    a in pool && forall b :: b in pool && b != a ==> Sooner(Mark(m[a]), a, Mark(m[b]), b)
  }

  predicate IsVictim(m: Table, a: string) { Soonest(m, Candidates(m), a) }

  lemma {:induction false} SoonerOrNot(m: Table, a: string, b: string)
    requires a in m && b in m && a != b
    ensures Sooner(Mark(m[a]), a, Mark(m[b]), b) <==> !Sooner(Mark(m[b]), b, Mark(m[a]), a)
  {
    BeforeTotal(a, b);
  }

  lemma {:induction false} SoonerTransitive(m: Table, a: string, b: string, c: string)
    requires a in m && b in m && c in m
    requires Sooner(Mark(m[a]), a, Mark(m[b]), b) && Sooner(Mark(m[b]), b, Mark(m[c]), c)
    ensures Sooner(Mark(m[a]), a, Mark(m[c]), c)
  {
    if Mark(m[a]) == Mark(m[b]) == Mark(m[c]) {
      BeforeTransitive(a, b, c);
    }
  }

  /** The better of an entry and the best of the others is the best of all. */
  lemma {:induction false} SoonestOfMore(m: Table, pool: set<string>, best: string, a: string)
    requires pool <= m.Keys && Soonest(m, pool, best) && a in m && a !in pool
    ensures Soonest(m, pool + {a}, if Sooner(Mark(m[a]), a, Mark(m[best]), best) then a else best)
  {
    SoonerOrNot(m, a, best);
    if Sooner(Mark(m[a]), a, Mark(m[best]), best) {
      forall b | b in pool
        ensures Sooner(Mark(m[a]), a, Mark(m[b]), b)
      {
        if b != best {
          SoonerTransitive(m, a, best, b);
        }
      }
    }
  }

  lemma {:induction false} SoonestExists(m: Table, pool: set<string>) returns (a: string)
    requires pool <= m.Keys && pool != {}
    ensures Soonest(m, pool, a)
    decreases |pool|
  {
    var c :| c in pool;
    var rest := pool - {c};
    assert rest + {c} == pool;
    if rest == {} {
      a := c;
    } else {
      var best := SoonestExists(m, rest);
      SoonestOfMore(m, rest, best, c);
      a := if Sooner(Mark(m[c]), c, Mark(m[best]), best) then c else best;
    }
  }

  lemma {:induction false} VictimIsUnique(m: Table, a: string, b: string)
    requires IsVictim(m, a) && IsVictim(m, b)
    ensures a == b
  {
    if a != b {
      SoonerOrNot(m, a, b);
    }
  }

  ghost function Victim(m: Table): (a: string)
    requires m != map[]
    ensures IsVictim(m, a)
  {
    VictimExists(m);
    var a :| IsVictim(m, a);
    a
  }

  lemma {:induction false} VictimExists(m: Table)
    requires m != map[]
    ensures exists a :: IsVictim(m, a)
  {
    assert m.Keys != {};
    var best := SoonestExists(m, Candidates(m));
    assert IsVictim(m, best);
  }

  /** min() over the pairs of a pool. */
  method FindSoonest(m: Table, pool: set<string>) returns (best: string)
    requires pool <= m.Keys && pool != {}
    ensures Soonest(m, pool, best)
  {
    best :| best in pool;
    var rest := pool - {best};
    while rest != {}
      invariant rest <= pool && best in pool - rest && Soonest(m, pool - rest, best)
      decreases |rest|
    {
      var a :| a in rest;
      SoonestOfMore(m, pool - rest, best, a);
      assert pool - (rest - {a}) == (pool - rest) + {a};
      if Sooner(Mark(m[a]), a, Mark(m[best]), best) {
        best := a;
      }
      rest := rest - {a};
    }
    assert pool - rest == pool;
  }

  // ---------- What a call does to the table ----------

  /** The first whole number not below x. */
  function Ceil(x: real): int { -((-x).Floor) }

  datatype Op = Fail | Succeed | Ask

  datatype Answer = Locks(starts: bool) | Wait(seconds: int) | Silence

  /** One more failure of an address with this entry. */
  function Counted(cfg: Config, e: Entry, now: real): Entry {
    if e.failures + 1 >= cfg.maxFailures then Entry(0, e.first, Some(now + cfg.lockout))
    else e.(failures := e.failures + 1)
  }

  ghost function MakeRoom(cfg: Config, m: Table): Table
    requires ConfigOk(cfg)
  {
    if |m| >= cfg.maxTracked then m - {Victim(m)} else m
  }

  ghost function AfterFail(cfg: Config, m: Table, a: string, now: real): (Table, Answer)
    requires ConfigOk(cfg)
  {
    var live := Expired(cfg, m, now);
    if a !in live then
      var e := Counted(cfg, Entry(0, now, None), now);
      (MakeRoom(cfg, live)[a := e], Locks(e.until.Some?))
    else if live[a].until.Some? then (live, Locks(false))
    else
      var e := Counted(cfg, live[a], now);
      (live[a := e], Locks(e.until.Some?))
  }

  function AfterAsk(m: Table, a: string, now: real): (Table, Answer) {
    if a !in m || m[a].until.None? then (m, Wait(0))
    else if now >= m[a].until.value then (m - {a}, Wait(0))
    else (m, Wait(Max(1, Ceil(m[a].until.value - now))))
  }

  function Max(a: int, b: int): int { if a < b then b else a }

  ghost function AfterCall(cfg: Config, m: Table, op: Op, a: string, now: real): (Table, Answer)
    requires ConfigOk(cfg)
  {
    match op
    case Fail => AfterFail(cfg, m, a, now)
    case Succeed => (m - {a}, Silence)
    case Ask => AfterAsk(m, a, now)
  }

  class LoginLimiter {
    const cfg: Config
    var entries: Table

    constructor (cfg: Config)
      ensures this.cfg == cfg && entries == map[]
    {
      this.cfg, entries := cfg, map[];
    }

    method RetryAfter(a: string, now: real) returns (seconds: int)
      modifies this
      ensures (entries, Wait(seconds)) == AfterAsk(old(entries), a, now)
    {
      if a !in entries || entries[a].until.None? {
        return 0;
      }
      var until := entries[a].until.value;
      if now >= until {
        entries := entries - {a};
        return 0;
      }
      return Max(1, Ceil(until - now));
    }

    method Failed(a: string, now: real) returns (starts: bool)
      requires ConfigOk(cfg)
      modifies this
      ensures (entries, Locks(starts)) == AfterFail(cfg, old(entries), a, now)
    {
      Expire(now);
      if a !in entries {
        if |entries| >= cfg.maxTracked {
          assert |entries.Keys| > 0;
          Evict();
        }
        ghost var room := entries;
        entries := entries[a := Entry(0, now, None)];
        starts := Count(a, now);
        assert entries == room[a := entries[a]];
      } else {
        if entries[a].until.Some? {
          return false;
        }
        starts := Count(a, now);
      }
    }

    /** The end of failed(): one more failure for an entry of the table. */
    method Count(a: string, now: real) returns (starts: bool)
      requires a in entries && entries[a].until.None?
      modifies this
      ensures entries == old(entries)[a := Counted(cfg, old(entries[a]), now)]
      ensures starts == Counted(cfg, old(entries[a]), now).until.Some?
    {
      var entry := entries[a];
      entry := entry.(failures := entry.failures + 1);
      entries := entries[a := entry];
      if entry.failures >= cfg.maxFailures {
        entry := entry.(failures := 0, until := Some(now + cfg.lockout));
        entries := entries[a := entry];
        return true;
      }
      return false;
    }

    method Succeeded(a: string)
      modifies this
      ensures entries == old(entries) - {a}
    {
      entries := entries - {a};
    }

    /** _expire(). */
    method Expire(now: real)
      modifies this
      ensures entries == Expired(cfg, old(entries), now)
    {
      var todo := entries.Keys;
      while todo != {}
        invariant todo <= entries.Keys <= old(entries).Keys
        invariant forall a :: a in entries <==> a in old(entries) && (a in todo || !Over(cfg, old(entries)[a], now))
        invariant forall a :: a in entries ==> entries[a] == old(entries)[a]
        decreases |todo|
      {
        var a :| a in todo;
        todo := todo - {a};
        if Over(cfg, entries[a], now) {
          entries := entries - {a};
        }
      }
    }

    /** _evict(). */
    method Evict()
      requires entries != map[]
      modifies this
      ensures entries == old(entries) - {Victim(old(entries))}
    {
      assert entries.Keys != {};
      var unlocked := Unlocked(entries);
      var a := FindSoonest(entries, if unlocked != {} then unlocked else entries.Keys);
      VictimIsUnique(entries, a, Victim(entries));
      entries := entries - {a};
    }
  }

  // ---------- The table over a run ----------

  datatype Call = Call(op: Op, addr: string, now: real)

  /** The clock does not go back. */
  predicate Monotone(calls: seq<Call>, from: real) {
    |calls| == 0 || (calls[0].now >= from && Monotone(calls[1..], calls[0].now))
  }

  ghost function Run(cfg: Config, m: Table, calls: seq<Call>): (Table, seq<Answer>)
    requires ConfigOk(cfg)
    decreases |calls|
  {
    if |calls| == 0 then (m, [])
    else
      var (next, answer) := AfterCall(cfg, m, calls[0].op, calls[0].addr, calls[0].now);
      var (end, answers) := Run(cfg, next, calls[1..]);
      (end, [answer] + answers)
  }

  lemma {:induction false} RunLength(cfg: Config, m: Table, calls: seq<Call>)
    requires ConfigOk(cfg)
    ensures |Run(cfg, m, calls).1| == |calls|
    decreases |calls|
  {
    if |calls| > 0 {
      RunLength(cfg, AfterCall(cfg, m, calls[0].op, calls[0].addr, calls[0].now).0, calls[1..]);
    }
  }

  /** An unlocked entry has counted, but not enough for a lock; a locked one counts no more. */
  predicate EntryOk(cfg: Config, e: Entry) {
    match e.until
    case None => 1 <= e.failures < cfg.maxFailures
    case Some(_) => e.failures == 0
  }

  ghost predicate TableOk(cfg: Config, m: Table) {
    |m| <= cfg.maxTracked && forall a :: a in m ==> EntryOk(cfg, m[a])
  }

  lemma {:induction false} Fewer(m: Table, n: Table)
    requires n.Keys <= m.Keys
    ensures |n| <= |m|
  {
    SubsetSize(n.Keys, m.Keys);
    assert |n| == |n.Keys| && |m| == |m.Keys|;
  }

  lemma {:induction false} SubsetSize(a: set<string>, b: set<string>)
    requires a <= b
    ensures |a| <= |b|
    decreases |a|
  {
    if a != {} {
      var x :| x in a;
      SubsetSize(a - {x}, b - {x});
    }
  }

  lemma {:induction false} RoomForOne(cfg: Config, m: Table, a: string, e: Entry)
    requires ConfigOk(cfg) && TableOk(cfg, m) && a !in m && EntryOk(cfg, e)
    ensures TableOk(cfg, MakeRoom(cfg, m)[a := e])
  {
    var room := MakeRoom(cfg, m);
    if |m| >= cfg.maxTracked {
      assert room.Keys == m.Keys - {Victim(m)};
      assert |room.Keys| == |m.Keys| - 1;
    }
    assert room[a := e].Keys == room.Keys + {a};
    assert |room[a := e]| == |room[a := e].Keys| == |room.Keys| + 1;
  }

  /** Every call keeps the table bounded and its counters below the limit. */
  lemma {:induction false} CallKeepsTable(cfg: Config, m: Table, op: Op, a: string, now: real)
    requires ConfigOk(cfg) && TableOk(cfg, m)
    ensures TableOk(cfg, AfterCall(cfg, m, op, a, now).0)
  {
    match op {
      case Succeed => Fewer(m, m - {a});
      case Ask => Fewer(m, m - {a});
      case Fail =>
        var live := Expired(cfg, m, now);
        Fewer(m, live);
        if a !in live {
          RoomForOne(cfg, live, a, Counted(cfg, Entry(0, now, None), now));
        } else if live[a].until.None? {
          var next := live[a := Counted(cfg, live[a], now)];
          assert next.Keys == live.Keys;
          Fewer(live, next);
        }
    }
  }

  lemma {:induction false} RunKeepsTable(cfg: Config, m: Table, calls: seq<Call>)
    requires ConfigOk(cfg) && TableOk(cfg, m)
    ensures TableOk(cfg, Run(cfg, m, calls).0)
    decreases |calls|
  {
    if |calls| > 0 {
      CallKeepsTable(cfg, m, calls[0].op, calls[0].addr, calls[0].now);
      RunKeepsTable(cfg, AfterCall(cfg, m, calls[0].op, calls[0].addr, calls[0].now).0, calls[1..]);
    }
  }

  // ---------- One address on its own ----------

  function Live(cfg: Config, e: Option<Entry>, now: real): Option<Entry> {
    if e.Some? && Over(cfg, e.value, now) then None else e
  }

  /** A limiter for a single address, with nothing to expire lazily and nothing to evict. */
  function AloneCall(cfg: Config, e: Option<Entry>, op: Op, now: real): (Option<Entry>, Answer) {
    var live := Live(cfg, e, now);
    match op
    case Succeed => (None, Silence)
    case Ask =>
      (live, Wait(if live.Some? && live.value.until.Some? then Max(1, Ceil(live.value.until.value - now)) else 0))
    case Fail =>
      if live.Some? && live.value.until.Some? then (live, Locks(false))
      else
        var counted := Counted(cfg, if live.Some? then live.value else Entry(0, now, None), now);
        (Some(counted), Locks(counted.until.Some?))
  }

  function Alone(cfg: Config, e: Option<Entry>, calls: seq<Call>): seq<Answer>
    decreases |calls|
  {
    if |calls| == 0 then []
    else
      var (next, answer) := AloneCall(cfg, e, calls[0].op, calls[0].now);
      [answer] + Alone(cfg, next, calls[1..])
  }

  /** The calls of one address, and the answers that they got. */
  function Own(calls: seq<Call>, a: string): seq<Call> {
    if |calls| == 0 then []
    else (if calls[0].addr == a then [calls[0]] else []) + Own(calls[1..], a)
  }

  function AnswersTo(calls: seq<Call>, answers: seq<Answer>, a: string): seq<Answer>
    requires |calls| == |answers|
  {
    if |calls| == 0 then []
    else (if calls[0].addr == a then [answers[0]] else []) + AnswersTo(calls[1..], answers[1..], a)
  }

  function Lookup(m: Table, a: string): Option<Entry> { if a in m then Some(m[a]) else None }

  /** The address that a call pushes out of the table. */
  ghost function Evicts(cfg: Config, m: Table, c: Call): Option<string>
    requires ConfigOk(cfg)
  {
    var live := Expired(cfg, m, c.now);
    if c.op.Fail? && c.addr !in live && |live| >= cfg.maxTracked then Some(Victim(live)) else None
  }

  /** No call of a run pushes the address out. */
  ghost predicate Spared(cfg: Config, m: Table, calls: seq<Call>, a: string)
    requires ConfigOk(cfg)
    decreases |calls|
  {
    |calls| == 0
    || (Evicts(cfg, m, calls[0]) != Some(a)
        && Spared(cfg, AfterCall(cfg, m, calls[0].op, calls[0].addr, calls[0].now).0, calls[1..], a))
  }

  lemma {:induction false} LiveLater(cfg: Config, e: Option<Entry>, f: Option<Entry>, now: real, later: real)
    requires Live(cfg, e, now) == Live(cfg, f, now) && now <= later
    ensures Live(cfg, e, later) == Live(cfg, f, later)
  {
  }

  /** The calls of other addresses cannot be seen, whatever they expire or evict. */
  lemma {:induction false} OthersAreInvisible(cfg: Config, m: Table, c: Call, a: string)
    requires ConfigOk(cfg) && c.addr != a && Evicts(cfg, m, c) != Some(a)
    ensures var next := AfterCall(cfg, m, c.op, c.addr, c.now).0;
            Live(cfg, Lookup(next, a), c.now) == Live(cfg, Lookup(m, a), c.now)
  {
  }

  /** The calls of an address do what they do to a limiter of its own. */
  lemma {:induction false} OwnCall(cfg: Config, m: Table, c: Call, e: Option<Entry>)
    requires ConfigOk(cfg) && Evicts(cfg, m, c) != Some(c.addr)
    requires Live(cfg, Lookup(m, c.addr), c.now) == Live(cfg, e, c.now)
    ensures var (next, answer) := AfterCall(cfg, m, c.op, c.addr, c.now);
            var (alone, own) := AloneCall(cfg, e, c.op, c.now);
            answer == own && Live(cfg, Lookup(next, c.addr), c.now) == Live(cfg, alone, c.now)
  {
  }

  /** An address that is never evicted gets exactly the answers of a limiter that sees only its own calls. */
  lemma {:induction false} AnsweredAsAlone(cfg: Config, m: Table, e: Option<Entry>, calls: seq<Call>, a: string,
                                           from: real)
    requires ConfigOk(cfg) && Monotone(calls, from) && Spared(cfg, m, calls, a)
    requires Live(cfg, Lookup(m, a), from) == Live(cfg, e, from)
    ensures |Run(cfg, m, calls).1| == |calls|
    ensures AnswersTo(calls, Run(cfg, m, calls).1, a) == Alone(cfg, e, Own(calls, a))
    decreases |calls|
  {
    RunLength(cfg, m, calls);
    if |calls| > 0 {
      var c := calls[0];
      var next := AfterCall(cfg, m, c.op, c.addr, c.now).0;
      LiveLater(cfg, Lookup(m, a), e, from, c.now);
      RunLength(cfg, next, calls[1..]);
      assert Run(cfg, m, calls).1[1..] == Run(cfg, next, calls[1..]).1;
      if c.addr == a {
        OwnCall(cfg, m, c, e);
        AnsweredAsAlone(cfg, next, AloneCall(cfg, e, c.op, c.now).0, calls[1..], a, c.now);
        assert Own(calls, a)[1..] == Own(calls[1..], a);
      } else {
        OthersAreInvisible(cfg, m, c, a);
        AnsweredAsAlone(cfg, next, e, calls[1..], a, c.now);
        assert [] + Own(calls[1..], a) == Own(calls[1..], a);
      }
    }
  }

  /** With no more addresses than the table has room for, nothing is ever evicted. */
  lemma {:induction false} FewAddressesSpareAll(cfg: Config, m: Table, calls: seq<Call>, addrs: set<string>, a: string)
    requires ConfigOk(cfg) && m.Keys <= addrs && |addrs| <= cfg.maxTracked
    requires forall i :: 0 <= i < |calls| ==> calls[i].addr in addrs
    ensures Spared(cfg, m, calls, a)
    decreases |calls|
  {
    if |calls| > 0 {
      var c := calls[0];
      var live := Expired(cfg, m, c.now);
      if c.addr !in live {
        SubsetSize(live.Keys, addrs - {c.addr});
        assert |live| == |live.Keys|;
      }
      FewAddressesSpareAll(cfg, AfterCall(cfg, m, c.op, c.addr, c.now).0, calls[1..], addrs, a);
    }
  }

  lemma {:induction false} OwnCallsOnly(calls: seq<Call>, a: string, from: real)
    requires Monotone(calls, from)
    ensures Monotone(Own(calls, a), from)
    ensures forall i :: 0 <= i < |Own(calls, a)| ==> Own(calls, a)[i].addr == a
    ensures Own(Own(calls, a), a) == Own(calls, a)
  {
    if |calls| > 0 {
      OwnCallsOnly(calls[1..], a, calls[0].now);
      if calls[0].addr == a {
        assert Own(calls, a)[1..] == Own(calls[1..], a);
      } else {
        assert [] + Own(calls[1..], a) == Own(calls[1..], a);
        EarlierStart(Own(calls, a), calls[0].now, from);
      }
    }
  }

  lemma {:induction false} EarlierStart(calls: seq<Call>, now: real, from: real)
    requires Monotone(calls, now) && from <= now
    ensures Monotone(calls, from)
  {
  }

  lemma {:induction false} AnswersToAll(calls: seq<Call>, answers: seq<Answer>, a: string)
    requires |calls| == |answers| && forall i :: 0 <= i < |calls| ==> calls[i].addr == a
    ensures AnswersTo(calls, answers, a) == answers
  {
    if |calls| > 0 {
      AnswersToAll(calls[1..], answers[1..], a);
      assert answers == [answers[0]] + answers[1..];
    }
  }

  /**
   On every run with a monotone clock and at most maxTracked addresses, each address gets
   the answers that the same limiter gives when it sees the calls of that address alone.
   */
  lemma {:induction false} AddressesAreIndependent(cfg: Config, calls: seq<Call>, addrs: set<string>, a: string,
                                                   from: real)
    requires ConfigOk(cfg) && Monotone(calls, from) && |addrs| <= cfg.maxTracked
    requires forall i :: 0 <= i < |calls| ==> calls[i].addr in addrs
    ensures |Run(cfg, map[], calls).1| == |calls|
    ensures AnswersTo(calls, Run(cfg, map[], calls).1, a) == Run(cfg, map[], Own(calls, a)).1
  {
    var own := Own(calls, a);
    FewAddressesSpareAll(cfg, map[], calls, addrs, a);
    AnsweredAsAlone(cfg, map[], None, calls, a, from);
    OwnCallsOnly(calls, a, from);
    FewAddressesSpareAll(cfg, map[], own, {a}, a);
    AnsweredAsAlone(cfg, map[], None, own, a, from);
    AnswersToAll(own, Run(cfg, map[], own).1, a);
  }

  // ---------- Locks ----------

  /** The wait is the least whole number of seconds after which the lock is over. */
  lemma {:induction false} WaitIsLeast(m: Table, a: string, now: real, seconds: int)
    requires a in m && m[a].until.Some? && now < m[a].until.value
    ensures now + seconds as real >= m[a].until.value <==> seconds >= AfterAsk(m, a, now).1.seconds
    ensures AfterAsk(m, a, now).1.seconds >= 1
  {
  }

  /** A wait of zero is answered exactly to who may try, and after the wait the answer is zero. */
  lemma {:induction false} WaitZeroIff(m: Table, a: string, now: real)
    ensures AfterAsk(m, a, now).1 == Wait(0) <==> !(a in m && m[a].until.Some? && now < m[a].until.value)
    ensures var (next, w) := AfterAsk(m, a, now); AfterAsk(next, a, now + w.seconds as real).1 == Wait(0)
  {
  }

  /** A lock is evicted only when there are locks alone, and then it is the one that ends first. */
  lemma {:induction false} LockedVictim(m: Table, a: string)
    requires IsVictim(m, a) && m[a].until.Some?
    ensures forall b :: b in m ==> m[b].until.Some? && m[a].until.value <= m[b].until.value
  {
    if b :| b in Unlocked(m) {
      assert false;
    }
    forall b | b in m
      ensures m[b].until.Some? && m[a].until.value <= m[b].until.value
    {
      assert b !in Unlocked(m);
    }
  }

  /** When a call pushes an address out, an unlocked one is there to be pushed out. */
  ghost predicate LocksAreSafe(cfg: Config, m: Table, calls: seq<Call>)
    requires ConfigOk(cfg)
    decreases |calls|
  {
    |calls| == 0
    || ((Evicts(cfg, m, calls[0]).Some? ==> Unlocked(Expired(cfg, m, calls[0].now)) != {})
        && LocksAreSafe(cfg, AfterCall(cfg, m, calls[0].op, calls[0].addr, calls[0].now).0, calls[1..]))
  }

  lemma {:induction false} LockKept(cfg: Config, m: Table, c: Call, a: string)
    requires ConfigOk(cfg) && a in m && m[a].until.Some? && c.now < m[a].until.value
    requires !(c.op.Succeed? && c.addr == a)
    requires Evicts(cfg, m, c).Some? ==> Unlocked(Expired(cfg, m, c.now)) != {}
    ensures var (next, answer) := AfterCall(cfg, m, c.op, c.addr, c.now);
            a in next && next[a] == m[a] && (c.op.Fail? && c.addr == a ==> answer == Locks(false))
  {
    var live := Expired(cfg, m, c.now);
    if Evicts(cfg, m, c) == Some(a) {
      LockedVictim(live, a);
      assert false;
    }
  }

  /**
   Until it ends a lock is neither lifted nor extended, whatever fails and whoever asks,
   unless its own address succeeds.
   */
  lemma {:induction false} LockSurvives(cfg: Config, m: Table, calls: seq<Call>, a: string)
    requires ConfigOk(cfg) && a in m && m[a].until.Some? && LocksAreSafe(cfg, m, calls)
    requires forall i :: 0 <= i < |calls| ==>
               (calls[i].now < m[a].until.value && !(calls[i].op.Succeed? && calls[i].addr == a))
    ensures a in Run(cfg, m, calls).0 && Run(cfg, m, calls).0[a] == m[a]
    decreases |calls|
  {
    if |calls| > 0 {
      LockKept(cfg, m, calls[0], a);
      LockSurvives(cfg, AfterCall(cfg, m, calls[0].op, calls[0].addr, calls[0].now).0, calls[1..], a);
    }
  }

  predicate AllFail(calls: seq<Call>) { forall i :: 0 <= i < |calls| ==> calls[i].op.Fail? }

  predicate NoLock(answers: seq<Answer>) { Locks(true) !in answers }

  lemma {:induction false} MonotoneAt(calls: seq<Call>, from: real, i: nat)
    requires Monotone(calls, from) && i < |calls|
    ensures calls[i].now >= from
  {
    if i > 0 {
      MonotoneAt(calls[1..], calls[0].now, i - 1);
    }
  }

  lemma {:induction false} AlonePrefix(cfg: Config, e: Option<Entry>, calls: seq<Call>, n: nat)
    requires n <= |calls|
    ensures |Alone(cfg, e, calls)| == |calls| && Alone(cfg, e, calls[..n]) == Alone(cfg, e, calls)[..n]
    decreases |calls|
  {
    if |calls| > 0 {
      var next := AloneCall(cfg, e, calls[0].op, calls[0].now).0;
      AlonePrefix(cfg, next, calls[1..], if n == 0 then 0 else n - 1);
      if n > 0 {
        assert calls[..n][1..] == calls[1..][..n - 1];
      }
    }
  }

  // ---------- Failures without the calls that ask ----------

  function Fails(calls: seq<Call>): seq<Call> {
    if |calls| == 0 then [] else (if calls[0].op.Fail? then [calls[0]] else []) + Fails(calls[1..])
  }

  /** The answers to the calls that report a failure. */
  function FailAnswers(calls: seq<Call>, answers: seq<Answer>): seq<Answer>
    requires |calls| == |answers|
  {
    if |calls| == 0 then []
    else (if calls[0].op.Fail? then [answers[0]] else []) + FailAnswers(calls[1..], answers[1..])
  }

  lemma {:induction false} FailsAreFails(calls: seq<Call>, from: real)
    requires Monotone(calls, from)
    ensures AllFail(Fails(calls)) && Monotone(Fails(calls), from)
  {
    if |calls| > 0 {
      FailsAreFails(calls[1..], calls[0].now);
      if calls[0].op.Fail? {
        assert Fails(calls)[1..] == Fails(calls[1..]);
      } else {
        assert Fails(calls) == Fails(calls[1..]);
        EarlierStart(Fails(calls), calls[0].now, from);
      }
    }
  }

  /** Two states that are alive alike give the same answers from then on. */
  lemma {:induction false} AloneAlike(cfg: Config, e: Option<Entry>, f: Option<Entry>, calls: seq<Call>, from: real)
    requires Monotone(calls, from) && Live(cfg, e, from) == Live(cfg, f, from)
    ensures Alone(cfg, e, calls) == Alone(cfg, f, calls)
  {
    if |calls| > 0 {
      LiveLater(cfg, e, f, from, calls[0].now);
    }
  }

  /** Asking changes nothing: failures are answered as if nobody had asked. */
  lemma {:induction false} AsksDoNotCount(cfg: Config, e: Option<Entry>, calls: seq<Call>, from: real)
    requires Monotone(calls, from) && forall i :: 0 <= i < |calls| ==> !calls[i].op.Succeed?
    ensures |Alone(cfg, e, calls)| == |calls|
    ensures FailAnswers(calls, Alone(cfg, e, calls)) == Alone(cfg, e, Fails(calls))
    decreases |calls|
  {
    AlonePrefix(cfg, e, calls, 0);
    if |calls| > 0 {
      var c, rest := calls[0], calls[1..];
      var (next, answer) := AloneCall(cfg, e, c.op, c.now);
      assert Alone(cfg, e, calls)[1..] == Alone(cfg, next, rest);
      AsksDoNotCount(cfg, next, rest, c.now);
      FailsAreFails(rest, c.now);
      if c.op.Fail? {
        assert Fails(calls)[1..] == Fails(rest);
      } else {
        AloneAlike(cfg, next, e, Fails(rest), c.now);
        assert Fails(calls) == Fails(rest);
      }
    }
  }

  // ---------- When the table locks ----------

  predicate IsFail(c: Call, a: string) { c.op.Fail? && c.addr == a }

  /** The failures of an address. */
  function FailsOf(calls: seq<Call>, a: string): seq<Call> { Fails(Own(calls, a)) }

  /** What the address was told when they were reported. */
  ghost function ToldOf(cfg: Config, m: Table, calls: seq<Call>, a: string): seq<Answer>
    requires ConfigOk(cfg)
    decreases |calls|
  {
    if |calls| == 0 then []
    else
      var (next, answer) := AfterCall(cfg, m, calls[0].op, calls[0].addr, calls[0].now);
      (if IsFail(calls[0], a) then [answer] else []) + ToldOf(cfg, next, calls[1..], a)
  }

  lemma {:induction false} FailsStep(calls: seq<Call>, a: string)
    requires |calls| > 0
    ensures FailsOf(calls, a) == (if IsFail(calls[0], a) then [calls[0]] else []) + FailsOf(calls[1..], a)
  {
    var own, rest := Own(calls, a), Own(calls[1..], a);
    if calls[0].addr == a {
      assert own == [calls[0]] + rest && own[1..] == rest;
    } else {
      assert own == rest;
    }
  }

  /** These are the answers to its calls that report a failure, and only they can start a lock. */
  lemma {:induction false} ToldIsAnswered(cfg: Config, m: Table, calls: seq<Call>, a: string)
    requires ConfigOk(cfg)
    ensures |Run(cfg, m, calls).1| == |calls|
    ensures |AnswersTo(calls, Run(cfg, m, calls).1, a)| == |Own(calls, a)|
    ensures ToldOf(cfg, m, calls, a) == FailAnswers(Own(calls, a), AnswersTo(calls, Run(cfg, m, calls).1, a))
    ensures NoLock(AnswersTo(calls, Run(cfg, m, calls).1, a)) <==> NoLock(ToldOf(cfg, m, calls, a))
    decreases |calls|
  {
    RunLength(cfg, m, calls);
    if |calls| > 0 {
      var c, rest := calls[0], calls[1..];
      var (next, answer) := AfterCall(cfg, m, c.op, c.addr, c.now);
      var answers := Run(cfg, m, calls).1;
      ToldIsAnswered(cfg, next, rest, a);
      assert answers == [answer] + Run(cfg, next, rest).1 && answers[1..] == Run(cfg, next, rest).1;
      if c.addr == a {
        var own, told := Own(calls, a), AnswersTo(calls, answers, a);
        assert own == [c] + Own(rest, a) && own[1..] == Own(rest, a);
        assert told == [answer] + AnswersTo(rest, answers[1..], a) && told[1..] == AnswersTo(rest, answers[1..], a);
      } else {
        assert Own(calls, a) == Own(rest, a);
        assert AnswersTo(calls, answers, a) == AnswersTo(rest, answers[1..], a);
      }
    }
  }

  /** An address that nobody clears or evicts is told the same as a limiter that sees only its failures. */
  lemma {:induction false} ToldAsAlone(cfg: Config, m: Table, calls: seq<Call>, a: string, from: real)
    requires ConfigOk(cfg) && Monotone(calls, from) && Spared(cfg, m, calls, a)
    requires forall i :: 0 <= i < |calls| ==> !(calls[i].op.Succeed? && calls[i].addr == a)
    ensures ToldOf(cfg, m, calls, a) == Alone(cfg, Lookup(m, a), FailsOf(calls, a))
    ensures |Run(cfg, m, calls).1| == |calls|
    ensures NoLock(AnswersTo(calls, Run(cfg, m, calls).1, a)) <==> NoLock(ToldOf(cfg, m, calls, a))
  {
    ToldIsAnswered(cfg, m, calls, a);
    AnsweredAsAlone(cfg, m, Lookup(m, a), calls, a, from);
    OwnCallsOnly(calls, a, from);
    OwnAreCalls(calls, a);
    AsksDoNotCount(cfg, Lookup(m, a), Own(calls, a), from);
  }

  /** Of the failures that are answered the one at place n starts a lock, if any does. */
  predicate LocksOnlyAt(told: seq<Answer>, n: int, starts: bool) {
    forall i :: 0 <= i < |told| ==> told[i].Locks? && (told[i].starts <==> i == n && starts)
  }

  lemma {:induction false} LockIsTold(told: seq<Answer>, n: nat, starts: bool)
    requires LocksOnlyAt(told, n, starts)
    ensures n < |told| ==> (!NoLock(told) <==> starts)
    ensures !starts ==> NoLock(told)
  {
    if n < |told| {
      assert told[n] == Locks(starts);
    }
  }

  lemma {:induction false} OneMoreTold(first: bool, told: seq<Answer>, n: int, starts: bool)
    requires LocksOnlyAt(told, n, starts) && (n >= 0 || !starts)
    ensures !first ==> LocksOnlyAt([Locks(first)] + told, n + 1, starts)
    ensures !starts ==> LocksOnlyAt([Locks(first)] + told, 0, first)
  {
  }

  /** The failures of an address that count towards a lock. */
  function Held(m: Table, a: string): nat { if a in m && m[a].until.None? then m[a].failures else 0 }

  /** Only a failure of its own raises the count of an address. */
  lemma {:induction false} HeldStep(cfg: Config, m: Table, c: Call, a: string)
    requires ConfigOk(cfg)
    ensures var (next, answer) := AfterCall(cfg, m, c.op, c.addr, c.now);
            Held(next, a) <= Held(m, a) + (if IsFail(c, a) then 1 else 0)
            && (IsFail(c, a) && Held(m, a) + 1 < cfg.maxFailures ==> answer == Locks(false))
  {
  }

  /** Failures that are too few for the limit start no lock, whatever is expired, evicted or cleared between them. */
  lemma {:induction false} TooFewFailures(cfg: Config, m: Table, calls: seq<Call>, a: string)
    requires ConfigOk(cfg) && Held(m, a) + |FailsOf(calls, a)| < cfg.maxFailures
    ensures |ToldOf(cfg, m, calls, a)| == |FailsOf(calls, a)|
    ensures LocksOnlyAt(ToldOf(cfg, m, calls, a), 0, false)
    decreases |calls|
  {
    if |calls| > 0 {
      var c := calls[0];
      FailsStep(calls, a);
      HeldStep(cfg, m, c, a);
      TooFewFailures(cfg, AfterCall(cfg, m, c.op, c.addr, c.now).0, calls[1..], a);
    }
  }

  /** No call pushes the address out before it has reported n more failures. */
  ghost predicate KeptFor(cfg: Config, m: Table, calls: seq<Call>, a: string, n: nat)
    requires ConfigOk(cfg)
    decreases |calls|
  {
    n == 0 || |calls| == 0
    || (Evicts(cfg, m, calls[0]) != Some(a)
        && KeptFor(cfg, AfterCall(cfg, m, calls[0].op, calls[0].addr, calls[0].now).0, calls[1..], a,
                   if IsFail(calls[0], a) then n - 1 else n))
  }

  lemma {:induction false} SparedIsKept(cfg: Config, m: Table, calls: seq<Call>, a: string, n: nat)
    requires ConfigOk(cfg) && Spared(cfg, m, calls, a)
    ensures KeptFor(cfg, m, calls, a, n)
    decreases |calls|
  {
    if n > 0 && |calls| > 0 {
      SparedIsKept(cfg, AfterCall(cfg, m, calls[0].op, calls[0].addr, calls[0].now).0, calls[1..], a,
                   if IsFail(calls[0], a) then n - 1 else n);
    }
  }

  lemma {:induction false} FailsAreLater(calls: seq<Call>, a: string, from: real)
    requires Monotone(calls, from)
    ensures forall i :: 0 <= i < |FailsOf(calls, a)| ==> FailsOf(calls, a)[i].now >= from
  {
    OwnCallsOnly(calls, a, from);
    FailsAreFails(Own(calls, a), from);
    forall i | 0 <= i < |FailsOf(calls, a)|
      ensures FailsOf(calls, a)[i].now >= from
    {
      MonotoneAt(FailsOf(calls, a), from, i);
    }
  }

  /** What a call does to an address that is counting. */
  lemma {:induction false} CountingStep(cfg: Config, m: Table, c: Call, a: string)
    requires ConfigOk(cfg) && a in m && m[a].until.None? && EntryOk(cfg, m[a]) && !(c.op.Succeed? && c.addr == a)
    ensures var (next, answer) := AfterCall(cfg, m, c.op, c.addr, c.now);
            if IsFail(c, a) then
              Evicts(cfg, m, c) != Some(a) && a in next
              && if Over(cfg, m[a], c.now) then next[a] == Entry(1, c.now, None) && answer == Locks(false)
                 else next[a] == Counted(cfg, m[a], c.now) && answer == Locks(m[a].failures + 1 == cfg.maxFailures)
            else if Evicts(cfg, m, c) == Some(a) then a !in next
            else if a in next then next[a] == m[a]
            else Over(cfg, m[a], c.now)
  {
  }

  /** The failure that fills the count of an entry is within its window. */
  predicate InTime(cfg: Config, e: Entry, fails: seq<Call>) {
    var last := cfg.maxFailures - e.failures - 1;
    0 <= last < |fails| && fails[last].now - e.first <= cfg.window
  }

  lemma {:induction false} InTimeCounts(cfg: Config, e: Entry, c: Call, rest: seq<Call>)
    requires e.failures < cfg.maxFailures
    ensures InTime(cfg, e, [c] + rest)
         == if e.failures + 1 == cfg.maxFailures then c.now - e.first <= cfg.window
            else InTime(cfg, e.(failures := e.failures + 1), rest)
  {
    var last := cfg.maxFailures - e.failures - 1;
    if 0 < last <= |rest| {
      assert ([c] + rest)[last] == rest[last - 1];
    }
  }

  /** What a call, which may be one of the failures, does to that. */
  lemma {:induction false} InTimeStep(cfg: Config, e: Entry, c: Call, own: bool, rest: seq<Call>)
    requires e.until.None? && e.failures < cfg.maxFailures && forall i :: 0 <= i < |rest| ==> rest[i].now >= c.now
    ensures var fails := (if own then [c] else []) + rest;
            if Over(cfg, e, c.now) then !InTime(cfg, e, fails)
            else if !own then InTime(cfg, e, fails) == InTime(cfg, e, rest)
            else if e.failures + 1 == cfg.maxFailures then InTime(cfg, e, fails)
            else InTime(cfg, e, fails) == InTime(cfg, e.(failures := e.failures + 1), rest)
  {
    if own {
      InTimeCounts(cfg, e, c, rest);
    } else {
      assert [] + rest == rest;
    }
  }

  /**
   An address with a count, and its failures that are fewer than the limit: it is told of a
   lock at the failure that fills the count and at no other, and there exactly when that
   one comes within the window of the first and nobody pushed the address out before;
   whatever else others do, and however often anyone asks.
   */
  lemma {:induction false} FailuresLock(cfg: Config, m: Table, calls: seq<Call>, a: string, from: real)
    requires ConfigOk(cfg) && Monotone(calls, from)
    requires forall i :: 0 <= i < |calls| ==> !(calls[i].op.Succeed? && calls[i].addr == a)
    requires a in m && m[a].until.None? && EntryOk(cfg, m[a]) && |FailsOf(calls, a)| < cfg.maxFailures
    ensures |ToldOf(cfg, m, calls, a)| == |FailsOf(calls, a)|
    ensures var left := cfg.maxFailures - m[a].failures;
            LocksOnlyAt(ToldOf(cfg, m, calls, a), left - 1,
                        InTime(cfg, m[a], FailsOf(calls, a)) && KeptFor(cfg, m, calls, a, left))
    decreases |calls|
  {
    if |calls| > 0 {
      var c, rest, left := calls[0], calls[1..], cfg.maxFailures - m[a].failures;
      var next := AfterCall(cfg, m, c.op, c.addr, c.now).0;
      FailsStep(calls, a);
      CountingStep(cfg, m, c, a);
      FailsAreLater(rest, a, c.now);
      if a in next && !(IsFail(c, a) && (Over(cfg, m[a], c.now) || left == 1)) {
        FailuresLock(cfg, next, rest, a, c.now);
        CallTold(cfg, m, calls, a, left);
        StillCounts(cfg, m[a], c, IsFail(c, a), KeptFor(cfg, m, calls, a, left), FailsOf(rest, a),
                    ToldOf(cfg, next, rest, a), FailsOf(calls, a), ToldOf(cfg, m, calls, a));
      } else {
        Stops(cfg, m, calls, a, from);
      }
    }
  }

  /** What a call that does not push the address out means for what comes after it. */
  lemma {:induction false} CallTold(cfg: Config, m: Table, calls: seq<Call>, a: string, n: nat)
    requires ConfigOk(cfg) && |calls| > 0 && n > 0 && Evicts(cfg, m, calls[0]) != Some(a)
    ensures var c := calls[0];
            var (next, answer) := AfterCall(cfg, m, c.op, c.addr, c.now);
            ToldOf(cfg, m, calls, a) == (if IsFail(c, a) then [answer] else []) + ToldOf(cfg, next, calls[1..], a)
            && KeptFor(cfg, m, calls, a, n) == KeptFor(cfg, next, calls[1..], a, if IsFail(c, a) then n - 1 else n)
  {
  }

  /** A call that ends the count: what is left starts no other lock. */
  lemma {:induction false} Stops(cfg: Config, m: Table, calls: seq<Call>, a: string, from: real)
    requires ConfigOk(cfg) && Monotone(calls, from) && |calls| > 0 && !(calls[0].op.Succeed? && calls[0].addr == a)
    requires a in m && m[a].until.None? && EntryOk(cfg, m[a]) && |FailsOf(calls, a)| < cfg.maxFailures
    requires var c := calls[0];
             a !in AfterCall(cfg, m, c.op, c.addr, c.now).0
             || (IsFail(c, a) && (Over(cfg, m[a], c.now) || m[a].failures + 1 == cfg.maxFailures))
    ensures |ToldOf(cfg, m, calls, a)| == |FailsOf(calls, a)|
    ensures var left := cfg.maxFailures - m[a].failures;
            LocksOnlyAt(ToldOf(cfg, m, calls, a), left - 1,
                        InTime(cfg, m[a], FailsOf(calls, a)) && KeptFor(cfg, m, calls, a, left))
  {
    var c, rest, left := calls[0], calls[1..], cfg.maxFailures - m[a].failures;
    var (next, answer) := AfterCall(cfg, m, c.op, c.addr, c.now);
    FailsStep(calls, a);
    FailsAreLater(rest, a, c.now);
    CountingStep(cfg, m, c, a);
    InTimeStep(cfg, m[a], c, IsFail(c, a), FailsOf(rest, a));
    TooFewFailures(cfg, next, rest, a);
    var told := ToldOf(cfg, m, calls, a);
    var starts := InTime(cfg, m[a], FailsOf(calls, a)) && KeptFor(cfg, m, calls, a, left);
    assert KeptFor(cfg, next, rest, a, 0);
    if IsFail(c, a) {
      OneMoreTold(answer.starts, ToldOf(cfg, next, rest, a), 0, false);
      assert told == [answer] + ToldOf(cfg, next, rest, a) && starts == answer.starts;
    } else {
      assert told == ToldOf(cfg, next, rest, a) && !starts;
    }
    assert LocksOnlyAt(told, 0, starts) && (starts ==> left == 1);
  }

  /** A call that the entry outlives leaves the place and the condition of its lock as they are. */
  lemma {:induction false} StillCounts(cfg: Config, e: Entry, c: Call, own: bool, kept: bool, rest: seq<Call>,
                                       told: seq<Answer>, fails: seq<Call>, all: seq<Answer>)
    requires e.until.None? && e.failures < cfg.maxFailures
    requires own ==> !Over(cfg, e, c.now) && e.failures + 1 < cfg.maxFailures
    requires forall i :: 0 <= i < |rest| ==> rest[i].now >= c.now
    requires fails == (if own then [c] else []) + rest && all == (if own then [Locks(false)] else []) + told
    requires var next := if own then e.(failures := e.failures + 1) else e;
             LocksOnlyAt(told, cfg.maxFailures - next.failures - 1, InTime(cfg, next, rest) && kept)
    ensures LocksOnlyAt(all, cfg.maxFailures - e.failures - 1, InTime(cfg, e, fails) && kept)
  {
    if own {
      InTimeStep(cfg, e, c, own, rest);
      OneMoreTold(false, told, cfg.maxFailures - e.failures - 2, InTime(cfg, e, fails) && kept);
    } else {
      assert all == told && fails == rest;
    }
  }

  /** The table when the address reports its first failure, and the calls from then on. */
  ghost function AtFirst(cfg: Config, m: Table, calls: seq<Call>, a: string): (Table, seq<Call>)
    requires ConfigOk(cfg)
    decreases |calls|
  {
    if |calls| == 0 || IsFail(calls[0], a) then (m, calls)
    else AtFirst(cfg, AfterCall(cfg, m, calls[0].op, calls[0].addr, calls[0].now).0, calls[1..], a)
  }

  /** How many more failures an address has to report for a lock. */
  function Needed(cfg: Config, live: Option<Entry>): int {
    cfg.maxFailures - if live.Some? then live.value.failures else 0
  }

  /** No entry is alive, or the one that is alive has its count filled within its own window. */
  predicate LockIsDue(cfg: Config, live: Option<Entry>, fails: seq<Call>) {
    match live
    case None => true
    case Some(e) => e.until.None? && InTime(cfg, e, fails)
  }

  /** A lock is due for this entry, and the address is in the table until it starts. */
  ghost predicate LockStarts(cfg: Config, m: Table, calls: seq<Call>, a: string)
    requires ConfigOk(cfg) && TableOk(cfg, m)
    requires |calls| > 0
  {
    var live := Live(cfg, Lookup(m, a), calls[0].now);
    LockIsDue(cfg, live, FailsOf(calls, a)) && KeptFor(cfg, m, calls, a, Needed(cfg, live))
  }

  /** What the first failure of an address does, given the entry that is alive then. */
  lemma {:induction false} FirstStep(cfg: Config, m: Table, a: string, now: real)
    requires ConfigOk(cfg) && TableOk(cfg, m)
    ensures var live, (next, answer) := Live(cfg, Lookup(m, a), now), AfterFail(cfg, m, a, now);
            Evicts(cfg, m, Call(Fail, a, now)) != Some(a) && a in next
            && answer == Locks(!(live.Some? && live.value.until.Some?) && Needed(cfg, live) == 1)
            && if live.Some? && live.value.until.Some? then Held(next, a) == 0
               else Needed(cfg, live) >= 1
                    && (Needed(cfg, live) > 1 ==>
                          EntryOk(cfg, next[a]) && next[a].until.None?
                          && next[a].failures == cfg.maxFailures - Needed(cfg, live) + 1
                          && next[a].first == if live.Some? then live.value.first else now)
  {
  }

  /** The address reports as many failures as the limit within one window, and has no success in between. */
  ghost predicate Reports(cfg: Config, m: Table, calls: seq<Call>, a: string, from: real)
    requires ConfigOk(cfg)
  {
    TableOk(cfg, m) && Monotone(calls, from)
    && (forall i :: 0 <= i < |calls| ==> !(calls[i].op.Succeed? && calls[i].addr == a))
    && |FailsOf(calls, a)| == cfg.maxFailures
    && FailsOf(calls, a)[cfg.maxFailures - 1].now - FailsOf(calls, a)[0].now <= cfg.window
  }

  /** A failure of the address is told first, and is one that it reports in the table. */
  lemma {:induction false} FailureTold(cfg: Config, m: Table, calls: seq<Call>, a: string, n: nat)
    requires ConfigOk(cfg) && |calls| > 0 && IsFail(calls[0], a) && Evicts(cfg, m, calls[0]) != Some(a)
    ensures var c := calls[0];
            var (next, answer) := AfterCall(cfg, m, c.op, c.addr, c.now);
            (!NoLock(ToldOf(cfg, m, calls, a)) <==>
               answer == Locks(true) || !NoLock(ToldOf(cfg, next, calls[1..], a)))
            && KeptFor(cfg, m, calls, a, n + 1) == KeptFor(cfg, next, calls[1..], a, n)
  {
  }

  lemma {:induction false} FirstFailure(cfg: Config, m: Table, calls: seq<Call>, a: string, from: real)
    requires ConfigOk(cfg) && Reports(cfg, m, calls, a, from) && |calls| > 0 && IsFail(calls[0], a)
    ensures !NoLock(ToldOf(cfg, m, calls, a)) <==> LockStarts(cfg, m, calls, a)
  {
    var c, rest := calls[0], calls[1..];
    var live := Live(cfg, Lookup(m, a), c.now);
    FailsStep(calls, a);
    FirstStep(cfg, m, a, c.now);
    if live.Some? && live.value.until.Some? {
      FailureTold(cfg, m, calls, a, 0);
      TooFewFailures(cfg, AfterFail(cfg, m, a, c.now).0, rest, a);
      LockIsTold(ToldOf(cfg, AfterFail(cfg, m, a, c.now).0, rest, a), 0, false);
    } else {
      var (next, answer) := AfterFail(cfg, m, a, c.now);
      FailureTold(cfg, m, calls, a, Needed(cfg, live) - 1);
      CountedFirst(cfg, live, c, answer, next, rest, a);
    }
  }

  /** The first failure counts, and perhaps those that follow it. */
  lemma {:induction false} CountedFirst(cfg: Config, live: Option<Entry>, c: Call, answer: Answer, next: Table,
                                        rest: seq<Call>, a: string)
    requires ConfigOk(cfg) && Monotone(rest, c.now) && |FailsOf(rest, a)| + 1 == cfg.maxFailures
    requires forall i :: 0 <= i < |rest| ==> !(rest[i].op.Succeed? && rest[i].addr == a)
    requires var fails := [c] + FailsOf(rest, a); fails[cfg.maxFailures - 1].now - c.now <= cfg.window
    requires live.Some? ==> EntryOk(cfg, live.value) && live.value.until.None? && !Over(cfg, live.value, c.now)
    requires a in next && answer == Locks(Needed(cfg, live) == 1)
    requires Needed(cfg, live) > 1 ==>
               EntryOk(cfg, next[a]) && next[a].until.None?
               && next[a].failures == cfg.maxFailures - Needed(cfg, live) + 1
               && next[a].first == if live.Some? then live.value.first else c.now
    ensures answer == Locks(true) || !NoLock(ToldOf(cfg, next, rest, a))
            <==> LockIsDue(cfg, live, [c] + FailsOf(rest, a)) && KeptFor(cfg, next, rest, a, Needed(cfg, live) - 1)
  {
    FirstInTime(cfg, live, next[a], c, FailsOf(rest, a));
    if Needed(cfg, live) > 1 {
      CountsOn(cfg, next, rest, a, c.now);
    }
  }

  /** An address with a count, and failures enough to fill it. */
  lemma {:induction false} CountsOn(cfg: Config, m: Table, calls: seq<Call>, a: string, from: real)
    requires ConfigOk(cfg) && Monotone(calls, from)
    requires forall i :: 0 <= i < |calls| ==> !(calls[i].op.Succeed? && calls[i].addr == a)
    requires a in m && m[a].until.None? && EntryOk(cfg, m[a])
    requires cfg.maxFailures - m[a].failures <= |FailsOf(calls, a)| < cfg.maxFailures
    ensures !NoLock(ToldOf(cfg, m, calls, a))
            <==> InTime(cfg, m[a], FailsOf(calls, a)) && KeptFor(cfg, m, calls, a, cfg.maxFailures - m[a].failures)
  {
    var left := cfg.maxFailures - m[a].failures;
    FailuresLock(cfg, m, calls, a, from);
    LockIsTold(ToldOf(cfg, m, calls, a), left - 1,
               InTime(cfg, m[a], FailsOf(calls, a)) && KeptFor(cfg, m, calls, a, left));
  }

  /** A lock is due from the first failure on exactly when it is from the entry that this leaves. */
  lemma {:induction false} FirstInTime(cfg: Config, live: Option<Entry>, e: Entry, c: Call, rest: seq<Call>)
    requires |rest| + 1 == cfg.maxFailures && ([c] + rest)[|rest|].now - c.now <= cfg.window
    requires live.Some? ==> live.value.until.None? && live.value.failures < cfg.maxFailures
                            && !Over(cfg, live.value, c.now)
    requires Needed(cfg, live) > 1 ==> e.until.None? && e.failures == cfg.maxFailures - Needed(cfg, live) + 1
                                       && e.first == if live.Some? then live.value.first else c.now
    ensures LockIsDue(cfg, live, [c] + rest) == (Needed(cfg, live) == 1 || InTime(cfg, e, rest))
  {
    if live.Some? {
      InTimeCounts(cfg, live.value, c, rest);
    } else if Needed(cfg, live) > 1 {
      assert ([c] + rest)[|rest|] == rest[|rest| - 1];
    }
  }

  /**
   The limiter is meant to lock an address after maxFailures failures within one window.
   It does so exactly when, at the first of them, no entry of the address is alive, or one
   that is not locked and whose own window holds until its count is full, and when nobody
   pushes the address out of the table before that; however often anyone asks.
   */
  lemma {:induction false} LocksIff(cfg: Config, m: Table, calls: seq<Call>, a: string, from: real)
    requires ConfigOk(cfg) && TableOk(cfg, m) && Monotone(calls, from)
    requires forall i :: 0 <= i < |calls| ==> !(calls[i].op.Succeed? && calls[i].addr == a)
    requires |FailsOf(calls, a)| == cfg.maxFailures
    requires FailsOf(calls, a)[cfg.maxFailures - 1].now - FailsOf(calls, a)[0].now <= cfg.window
    ensures |Run(cfg, m, calls).1| == |calls|
    ensures var (first, rest) := AtFirst(cfg, m, calls, a);
            TableOk(cfg, first) && |rest| > 0 && FailsOf(rest, a) == FailsOf(calls, a)
            && rest[0] == FailsOf(calls, a)[0]
            && (Locks(true) in AnswersTo(calls, Run(cfg, m, calls).1, a) <==> LockStarts(cfg, first, rest, a))
  {
    ToldIsAnswered(cfg, m, calls, a);
    FromFirst(cfg, m, calls, a, from);
  }

  lemma {:induction false} FromFirst(cfg: Config, m: Table, calls: seq<Call>, a: string, from: real)
    requires ConfigOk(cfg) && Reports(cfg, m, calls, a, from)
    ensures var (first, rest) := AtFirst(cfg, m, calls, a);
            TableOk(cfg, first) && |rest| > 0 && FailsOf(rest, a) == FailsOf(calls, a)
            && rest[0] == FailsOf(calls, a)[0]
            && (!NoLock(ToldOf(cfg, m, calls, a)) <==> LockStarts(cfg, first, rest, a))
    decreases |calls|
  {
    var c := calls[0];
    FailsStep(calls, a);
    if IsFail(c, a) {
      FirstFailure(cfg, m, calls, a, from);
    } else {
      CallKeepsTable(cfg, m, c.op, c.addr, c.now);
      FromFirst(cfg, AfterCall(cfg, m, c.op, c.addr, c.now).0, calls[1..], a, c.now);
    }
  }

  // ---------- How long a lock lasts ----------

  /** The address is locked until that time, or it is past that time and nothing is kept of it. */
  ghost predicate LockedUntil(m: Table, a: string, end: real, from: real) {
    (a in m && m[a].until == Some(end)) || (a !in m && from >= end)
  }

  /** Until its lock ends no call lifts it; after that only a failure or a success of its own counts. */
  lemma {:induction false} LockedStep(cfg: Config, m: Table, c: Call, a: string, end: real, from: real)
    requires ConfigOk(cfg) && LockedUntil(m, a, end, from) && from <= c.now
    requires !(c.op.Succeed? && c.addr == a) && (IsFail(c, a) ==> c.now < end)
    requires Evicts(cfg, m, c).Some? ==> Unlocked(Expired(cfg, m, c.now)) != {}
    ensures LockedUntil(AfterCall(cfg, m, c.op, c.addr, c.now).0, a, end, c.now)
  {
    if a in m {
      if c.now < end {
        LockKept(cfg, m, c, a);
      } else if a in AfterCall(cfg, m, c.op, c.addr, c.now).0 {
        assert c.addr != a || c.op.Ask?;
      }
    }
  }

  lemma {:induction false} LockedAt(cfg: Config, m: Table, calls: seq<Call>, a: string, end: real, from: real, i: nat)
    returns (now: Table)
    requires ConfigOk(cfg) && LockedUntil(m, a, end, from) && Monotone(calls, from) && i < |calls|
    requires LocksAreSafe(cfg, m, calls)
    requires forall j :: 0 <= j < |calls| ==> !(calls[j].op.Succeed? && calls[j].addr == a)
    requires forall j :: 0 <= j < i && IsFail(calls[j], a) ==> calls[j].now < end
    ensures LockedUntil(now, a, end, calls[i].now) || (a in now && now[a].until == Some(end))
    ensures |Run(cfg, m, calls).1| == |calls|
    ensures Run(cfg, m, calls).1[i] == AfterCall(cfg, now, calls[i].op, calls[i].addr, calls[i].now).1
    decreases |calls|
  {
    RunLength(cfg, m, calls);
    var c := calls[0];
    var next := AfterCall(cfg, m, c.op, c.addr, c.now).0;
    now := m;
    if i > 0 {
      LockedStep(cfg, m, c, a, end, from);
      now := LockedAt(cfg, next, calls[1..], a, end, c.now, i - 1);
    }
  }

  /** The least whole number of seconds, and at least one, after which that time has come. */
  predicate LeastWait(now: real, end: real, seconds: int) {
    seconds >= 1 && now + seconds as real >= end && (seconds > 1 ==> now + (seconds - 1) as real < end)
  }

  lemma {:induction false} AskedWhenLocked(m: Table, a: string, now: real, end: real)
    requires LockedUntil(m, a, end, now) || (a in m && m[a].until == Some(end))
    ensures var w := AfterAsk(m, a, now).1;
            w.Wait? && if now >= end then w.seconds == 0 else LeastWait(now, end, w.seconds)
  {
  }

  /**
   A failure that is told that it starts a lock locks the address for cfg.lockout seconds:
   until then another failure starts no lock, and who asks is told the least number of whole
   seconds that are left; from then on who asks is told zero, until a new failure.
   The address must not succeed in between, nor be evicted, which LocksAreSafe excludes.
   */
  lemma {:induction false} LockLasts(cfg: Config, m: Table, calls: seq<Call>, a: string, i: nat)
    requires ConfigOk(cfg) && 0 < i < |calls| && IsFail(calls[0], a) && Monotone(calls, calls[0].now)
    requires LocksAreSafe(cfg, m, calls)
    requires |Run(cfg, m, calls).1| == |calls| && Run(cfg, m, calls).1[0] == Locks(true)
    requires forall j :: 0 <= j < |calls| ==> !(calls[j].op.Succeed? && calls[j].addr == a)
    requires forall j :: 0 < j < i && IsFail(calls[j], a) ==> calls[j].now < calls[0].now + cfg.lockout
    requires calls[i].addr == a
    ensures var (u, end, answer) := (calls[i].now, calls[0].now + cfg.lockout, Run(cfg, m, calls).1[i]);
            (calls[i].op.Ask? ==>
               answer.Wait? && if u >= end then answer.seconds == 0 else LeastWait(u, end, answer.seconds))
            && (calls[i].op.Fail? && u < end ==> answer == Locks(false))
  {
    var c, rest := calls[0], calls[1..];
    var end := c.now + cfg.lockout;
    var (next, answer) := AfterFail(cfg, m, a, c.now);
    assert Run(cfg, m, calls).1 == [answer] + Run(cfg, next, rest).1;
    LockStartsAt(cfg, m, a, c.now);
    forall j | 0 <= j < i - 1 && IsFail(rest[j], a)
      ensures rest[j].now < end
    {
      assert rest[j] == calls[j + 1];
    }
    var now := LockedAt(cfg, next, rest, a, end, c.now, i - 1);
    if calls[i].op.Ask? {
      AskedWhenLocked(now, a, calls[i].now, end);
    } else {
      FailedWhenLocked(cfg, now, a, calls[i].now, end);
    }
  }

  lemma {:induction false} LockStartsAt(cfg: Config, m: Table, a: string, now: real)
    requires ConfigOk(cfg) && AfterFail(cfg, m, a, now).1 == Locks(true)
    ensures LockedUntil(AfterFail(cfg, m, a, now).0, a, now + cfg.lockout, now)
  {
  }

  lemma {:induction false} FailedWhenLocked(cfg: Config, m: Table, a: string, now: real, end: real)
    requires ConfigOk(cfg) && (LockedUntil(m, a, end, now) || (a in m && m[a].until == Some(end)))
    ensures now < end ==> AfterFail(cfg, m, a, now).1 == Locks(false)
  {
  }

  /** Only a lock makes anyone wait. */
  lemma {:induction false} NobodyWaitsUnlocked(cfg: Config, m: Table, calls: seq<Call>, a: string)
    requires ConfigOk(cfg) && (a in m ==> m[a].until.None?) && NoLock(ToldOf(cfg, m, calls, a))
    ensures |Run(cfg, m, calls).1| == |calls|
    ensures forall i :: 0 <= i < |calls| && calls[i].op.Ask? && calls[i].addr == a ==>
              Run(cfg, m, calls).1[i] == Wait(0)
    decreases |calls|
  {
    RunLength(cfg, m, calls);
    if |calls| > 0 {
      var c := calls[0];
      var (next, answer) := AfterCall(cfg, m, c.op, c.addr, c.now);
      var told := ToldOf(cfg, next, calls[1..], a);
      assert ToldOf(cfg, m, calls, a) == (if IsFail(c, a) then [answer] else []) + told;
      assert NoLock(told) && (IsFail(c, a) ==> answer != Locks(true)) by {
        if IsFail(c, a) {
          assert ToldOf(cfg, m, calls, a)[0] == answer;
        }
      }
      UnlockedStays(cfg, m, c, a);
      NobodyWaitsUnlocked(cfg, next, calls[1..], a);
      assert Run(cfg, m, calls).1 == [answer] + Run(cfg, next, calls[1..]).1;
    }
  }

  lemma {:induction false} UnlockedStays(cfg: Config, m: Table, c: Call, a: string)
    requires ConfigOk(cfg) && (a in m ==> m[a].until.None?)
    requires IsFail(c, a) ==> AfterFail(cfg, m, a, c.now).1 != Locks(true)
    ensures var (next, answer) := AfterCall(cfg, m, c.op, c.addr, c.now);
            (a in next ==> next[a].until.None?) && (c.op.Ask? && c.addr == a ==> answer == Wait(0))
  {
  }

  /**
   After a success an address starts afresh: it may try at once, and failures fewer than the
   limit start no lock and make it wait for nothing.
   */
  lemma {:induction false} SuccessForgets(cfg: Config, m: Table, calls: seq<Call>, a: string)
    requires ConfigOk(cfg) && |calls| > 0 && calls[0].op.Succeed? && calls[0].addr == a
    requires |FailsOf(calls, a)| < cfg.maxFailures
    ensures |Run(cfg, m, calls).1| == |calls|
    ensures forall i :: 0 < i < |calls| && calls[i].addr == a ==>
              Run(cfg, m, calls).1[i]
              == match calls[i].op case Ask => Wait(0) case Fail => Locks(false) case Succeed => Silence
  {
    var next, rest := m - {a}, calls[1..];
    FailsStep(calls, a);
    TooFewFailures(cfg, next, rest, a);
    LockIsTold(ToldOf(cfg, next, rest, a), 0, false);
    NobodyWaitsUnlocked(cfg, next, rest, a);
    RunLength(cfg, m, calls);
    assert Run(cfg, m, calls).1 == [Silence] + Run(cfg, next, rest).1;
    forall i | 0 < i < |calls| && calls[i].addr == a
      ensures Run(cfg, m, calls).1[i]
           == match calls[i].op case Ask => Wait(0) case Fail => Locks(false) case Succeed => Silence
    {
      AnsweredOrTold(cfg, next, rest, a, i - 1);
    }
  }

  /** Every call is answered in its own kind. */
  lemma {:induction false} AnsweredOrTold(cfg: Config, m: Table, calls: seq<Call>, a: string, i: nat)
    requires ConfigOk(cfg) && i < |calls| && calls[i].addr == a
    ensures |Run(cfg, m, calls).1| == |calls|
    ensures var answer := Run(cfg, m, calls).1[i];
            match calls[i].op
            case Ask => answer.Wait?
            case Fail => answer.Locks? && answer in ToldOf(cfg, m, calls, a)
            case Succeed => answer == Silence
    decreases |calls|
  {
    RunLength(cfg, m, calls);
    var c := calls[0];
    var (next, answer) := AfterCall(cfg, m, c.op, c.addr, c.now);
    var told := ToldOf(cfg, next, calls[1..], a);
    assert Run(cfg, m, calls).1 == [answer] + Run(cfg, next, calls[1..]).1;
    assert ToldOf(cfg, m, calls, a) == (if IsFail(c, a) then [answer] else []) + told;
    if i == 0 {
      if IsFail(c, a) {
        assert ToldOf(cfg, m, calls, a)[0] == answer;
      }
    } else {
      AnsweredOrTold(cfg, next, calls[1..], a, i - 1);
    }
  }

  /** The order of two addresses: the first character that differs decides, or the length. */
  lemma {:induction false} BeforeIff(a: string, b: string)
    ensures Before(a, b) <==>
            a < b || exists i :: 0 <= i < |a| && i < |b| && a[..i] == b[..i] && a[i] < b[i]
  {
    if a != "" && b != "" {
      if a[0] == b[0] {
        BeforeIff(a[1..], b[1..]);
        SameHead(a, b);
      } else if a[0] < b[0] {
        assert a[..0] == b[..0];
      } else {
        assert forall i :: 0 < i < |a| && i < |b| ==> a[..i][0] != b[..i][0];
      }
    }
  }

  lemma {:induction false} SameHead(a: string, b: string)
    requires a != "" && b != "" && a[0] == b[0]
    ensures a < b <==> a[1..] < b[1..]
    ensures (exists i :: 0 <= i < |a| && i < |b| && a[..i] == b[..i] && a[i] < b[i]) <==>
            (exists i :: 0 <= i < |a[1..]| && i < |b[1..]| && a[1..][..i] == b[1..][..i] && a[1..][i] < b[1..][i])
  {
    assert a == [a[0]] + a[1..] && b == [b[0]] + b[1..];
    if i :| 0 <= i < |a| && i < |b| && a[..i] == b[..i] && a[i] < b[i] {
      assert a[1..][..i - 1] == a[..i][1..] && b[1..][..i - 1] == b[..i][1..];
      assert a[1..][i - 1] < b[1..][i - 1];
    }
    if i :| 0 <= i < |a[1..]| && i < |b[1..]| && a[1..][..i] == b[1..][..i] && a[1..][i] < b[1..][i] {
      assert a[..i + 1] == [a[0]] + a[1..][..i] && b[..i + 1] == [b[0]] + b[1..][..i];
      assert a[i + 1] < b[i + 1];
    }
  }

  /**
   Among unlocked entries the one whose first failure is the oldest is evicted, among locks
   alone the one that ends first; of equal times it is the first address.
   */
  lemma {:induction false} OldestIsEvicted(m: Table, a: string, b: string)
    requires IsVictim(m, a) && b in m && b != a
    ensures m[a].until.None? && m[b].until.None? ==>
              m[a].first < m[b].first || (m[a].first == m[b].first && Before(a, b))
    ensures m[a].until.Some? ==>
              m[b].until.Some?
              && (m[a].until.value < m[b].until.value || (m[a].until.value == m[b].until.value && Before(a, b)))
  {
    assert m[b].until.None? ==> b in Unlocked(m);
    assert m[a].until.None? ==> a in Unlocked(m);
  }

  // ---------- How many failures get through ----------

  function Failures(calls: seq<Call>): nat {
    if |calls| == 0 then 0 else (if calls[0].op.Fail? then 1 else 0) + Failures(calls[1..])
  }

  /** How many more failures an address has before a lock, in a span that started at start. */
  function Budget(cfg: Config, live: Option<Entry>, start: real): int {
    match live
    case None => cfg.maxFailures - 1
    case Some(e) =>
      if e.first >= start then cfg.maxFailures - 1 - e.failures
      else 2 * (cfg.maxFailures - 1) - e.failures
  }

  predicate Unharmed(cfg: Config, live: Option<Entry>) {
    live.Some? ==> live.value.until.None? && 1 <= live.value.failures < cfg.maxFailures
  }

  lemma {:induction false} BudgetHolds(cfg: Config, e: Option<Entry>, calls: seq<Call>, start: real, from: real)
    requires ConfigOk(cfg) && start <= from && Monotone(calls, from)
    requires forall i :: 0 <= i < |calls| ==> !calls[i].op.Succeed? && calls[i].now <= start + cfg.window
    requires NoLock(Alone(cfg, e, calls)) && Unharmed(cfg, Live(cfg, e, from))
    ensures Failures(calls) <= Budget(cfg, Live(cfg, e, from), start)
    decreases |calls|
  {
    if |calls| > 0 {
      var c := calls[0];
      var (next, answer) := AloneCall(cfg, e, c.op, c.now);
      assert Alone(cfg, e, calls)[0] == answer && Alone(cfg, e, calls)[1..] == Alone(cfg, next, calls[1..]);
      assert answer != Locks(true);
      assert NoLock(Alone(cfg, next, calls[1..]));
      BudgetStep(cfg, e, c, start, from);
      BudgetHolds(cfg, next, calls[1..], start, c.now);
    }
  }

  /** One call uses up what it counts. */
  lemma {:induction false} BudgetStep(cfg: Config, e: Option<Entry>, c: Call, start: real, from: real)
    requires ConfigOk(cfg) && start <= from <= c.now <= start + cfg.window && !c.op.Succeed?
    requires Unharmed(cfg, Live(cfg, e, from)) && AloneCall(cfg, e, c.op, c.now).1 != Locks(true)
    ensures var next := Live(cfg, AloneCall(cfg, e, c.op, c.now).0, c.now);
            Unharmed(cfg, next)
            && Budget(cfg, next, start) + (if c.op.Fail? then 1 else 0) <= Budget(cfg, Live(cfg, e, from), start)
  {
  }

  /**
   In a span of at most one window an address that is not locked, evicted or cleared fails
   no more than twice as often as it may within one window: once at the end of an old
   window, and once in a new one.
   */
  lemma {:induction false} RateIsBounded(cfg: Config, m: Table, calls: seq<Call>, a: string, start: real)
    requires ConfigOk(cfg) && TableOk(cfg, m) && Monotone(calls, start) && Spared(cfg, m, calls, a)
    requires forall i :: 0 <= i < |calls| ==>
               (calls[i].now <= start + cfg.window && !(calls[i].op.Succeed? && calls[i].addr == a))
    requires a in m && !Over(cfg, m[a], start) ==> m[a].until.None?
    requires |Run(cfg, m, calls).1| == |calls| && NoLock(AnswersTo(calls, Run(cfg, m, calls).1, a))
    ensures Failures(Own(calls, a)) <= 2 * (cfg.maxFailures - 1)
  {
    AnsweredAsAlone(cfg, m, Lookup(m, a), calls, a, start);
    OwnCallsOnly(calls, a, start);
    OwnAreCalls(calls, a);
    BudgetHolds(cfg, Lookup(m, a), Own(calls, a), start, start);
  }

  lemma {:induction false} OwnAreCalls(calls: seq<Call>, a: string)
    ensures forall i :: 0 <= i < |Own(calls, a)| ==> Own(calls, a)[i] in calls && Own(calls, a)[i].addr == a
  {
    if |calls| > 0 {
      OwnAreCalls(calls[1..], a);
    }
  }

  /** The calls that a request with a wrong password makes: it asks twice before it reports its failure. */
  function Login(a: string, now: real): seq<Call> {
    [Call(Ask, a, now), Call(Ask, a, now), Call(Fail, a, now)]
  }

  function Logins(a: string, times: seq<real>): seq<Call> {
    if |times| == 0 then [] else Login(a, times[0]) + Logins(a, times[1..])
  }

  function FailsAt(a: string, times: seq<real>): seq<Call> {
    seq(|times|, i requires 0 <= i < |times| => Call(Fail, a, times[i]))
  }

  predicate Rising(times: seq<real>, from: real) {
    |times| == 0 || (from <= times[0] && Rising(times[1..], times[0]))
  }

  /** What one request adds to a run. */
  lemma {:induction false} LoginFails(b: string, now: real, rest: seq<Call>, a: string, from: real)
    requires from <= now && Monotone(rest, now)
    ensures Monotone(Login(b, now) + rest, from)
    ensures Fails(Login(b, now) + rest) == [Call(Fail, b, now)] + Fails(rest)
    ensures FailsOf(Login(b, now) + rest, a) == (if a == b then [Call(Fail, b, now)] else []) + FailsOf(rest, a)
  {
    var ask, fail, calls := Call(Ask, b, now), Call(Fail, b, now), Login(b, now) + rest;
    assert calls == [ask] + ([ask] + ([fail] + rest));
    OneMoreCall(fail, rest, a, now);
    OneMoreCall(ask, [fail] + rest, a, now);
    OneMoreCall(ask, [ask] + ([fail] + rest), a, from);
  }

  lemma {:induction false} OneMoreCall(c: Call, rest: seq<Call>, a: string, from: real)
    requires from <= c.now && Monotone(rest, c.now)
    ensures Monotone([c] + rest, from)
    ensures Fails([c] + rest) == (if c.op.Fail? then [c] else []) + Fails(rest)
    ensures FailsOf([c] + rest, a) == (if IsFail(c, a) then [c] else []) + FailsOf(rest, a)
  {
    assert ([c] + rest)[1..] == rest;
    FailsStep([c] + rest, a);
  }

  lemma {:induction false} LoginsFail(a: string, times: seq<real>, from: real)
    requires Rising(times, from)
    ensures Monotone(Logins(a, times), from) && Fails(Logins(a, times)) == FailsAt(a, times)
    ensures forall i :: 0 <= i < |Logins(a, times)| ==>
              (Logins(a, times)[i].addr == a && !Logins(a, times)[i].op.Succeed?)
  {
    if |times| > 0 {
      LoginsFail(a, times[1..], times[0]);
      LoginFails(a, times[0], Logins(a, times[1..]), a, from);
      assert FailsAt(a, times) == [Call(Fail, a, times[0])] + FailsAt(a, times[1..]);
    }
  }

  /** On a table without a lock of the address its request is told what its failure brings. */
  lemma {:induction false} LoginStep(cfg: Config, m: Table, a: string, now: real, rest: seq<Call>)
    requires ConfigOk(cfg) && (a in m ==> m[a].until.None?)
    ensures var (next, answer) := AfterFail(cfg, m, a, now);
            Run(cfg, m, Login(a, now) + rest).1 == [Wait(0), Wait(0), answer] + Run(cfg, next, rest).1
  {
    var ask, fail := Call(Ask, a, now), Call(Fail, a, now);
    var three := [fail] + rest;
    var two := [ask] + three;
    assert Login(a, now) + rest == [ask] + two;
    OneMoreAnswer(cfg, m, ask, two);
    OneMoreAnswer(cfg, m, ask, three);
    OneMoreAnswer(cfg, m, fail, rest);
  }

  lemma {:induction false} OneMoreAnswer(cfg: Config, m: Table, c: Call, rest: seq<Call>)
    requires ConfigOk(cfg)
    ensures var (next, answer) := AfterCall(cfg, m, c.op, c.addr, c.now);
            Run(cfg, m, [c] + rest).1 == [answer] + Run(cfg, next, rest).1
  {
    assert ([c] + rest)[1..] == rest;
  }

  /** Such a request of an address that is counting, alone in the table. */
  lemma {:induction false} CountsAlone(cfg: Config, a: string, e: Entry, now: real)
    requires ConfigOk(cfg) && EntryOk(cfg, e) && e.until.None?
    requires Over(cfg, e, now) || e.failures + 1 < cfg.maxFailures
    ensures AfterFail(cfg, map[a := e], a, now)
         == (map[a := if Over(cfg, e, now) then Entry(1, now, None) else e.(failures := e.failures + 1)], Locks(false))
  {
    var live := Expired(cfg, map[a := e], now);
    if Over(cfg, e, now) {
      assert live == map[];
    } else {
      var next := Counted(cfg, e, now);
      assert live == map[a := e] && map[a := e][a := next] == map[a := next];
    }
  }

  /** The first request on an empty table. */
  lemma {:induction false} CountsFirst(cfg: Config, a: string, now: real)
    requires ConfigOk(cfg) && cfg.maxFailures > 1
    ensures AfterFail(cfg, map[], a, now) == (map[a := Entry(1, now, None)], Locks(false))
  {
    assert Expired(cfg, map[], now) == map[];
  }

  /**
   The window is that of the first failure and does not slide: on an empty table three
   wrong passwords within three seconds start no lock, although three is the limit for a
   minute, because one that came a minute before them opened the window.
   */
  lemma {:induction false} WindowDoesNotSlide() returns (cfg: Config, times: seq<real>)
    ensures cfg.maxFailures == 3 && cfg.window == 60.0 && ConfigOk(cfg)
    ensures times == [0.0, 59.0, 60.5, 62.0] && Monotone(Logins("a", times), 0.0)
    ensures Locks(true) !in Run(cfg, map[], Logins("a", times)).1
  {
    cfg, times := Config(3, 60.0, 60.0, 256), [0.0, 59.0, 60.5, 62.0];
    FourRise(times);
    LoginsFail("a", times, 0.0);
    var second, third, fourth := Logins("a", times[1..]), Logins("a", times[2..]), Logins("a", times[3..]);
    FourLogins(times);
    CountsFirst(cfg, "a", 0.0);
    CountsAlone(cfg, "a", Entry(1, 0.0, None), 59.0);
    CountsAlone(cfg, "a", Entry(2, 0.0, None), 60.5);
    CountsAlone(cfg, "a", Entry(1, 60.5, None), 62.0);
    LoginStep(cfg, map[], "a", 0.0, second);
    LoginStep(cfg, map["a" := Entry(1, 0.0, None)], "a", 59.0, third);
    LoginStep(cfg, map["a" := Entry(2, 0.0, None)], "a", 60.5, fourth);
    LoginStep(cfg, map["a" := Entry(1, 60.5, None)], "a", 62.0, []);
  }

  lemma {:induction false} FourLogins(times: seq<real>)
    requires times == [0.0, 59.0, 60.5, 62.0]
    ensures Logins("a", times) == Login("a", 0.0) + Logins("a", times[1..])
    ensures Logins("a", times[1..]) == Login("a", 59.0) + Logins("a", times[2..])
    ensures Logins("a", times[2..]) == Login("a", 60.5) + Logins("a", times[3..])
    ensures Logins("a", times[3..]) == Login("a", 62.0) + []
  {
    var t1, t2, t3 := times[1..], times[2..], times[3..];
    assert t1[1..] == t2 && t2[1..] == t3 && t3[1..] == [];
  }

  lemma {:induction false} FourRise(times: seq<real>)
    requires times == [0.0, 59.0, 60.5, 62.0]
    ensures Rising(times, 0.0)
  {
    var t1, t2, t3 := times[1..], times[2..], times[3..];
    assert t3[1..] == [];
    assert Rising(t3, 60.5);
    assert t2[1..] == t3;
    assert Rising(t2, 59.0);
    assert t1[1..] == t2;
    assert Rising(t1, 0.0);
  }

  /** In a table for one address, a request of another one pushes out the one that is there. */
  lemma {:induction false} PushesOut(cfg: Config, a: string, e: Entry, b: string, now: real)
    requires ConfigOk(cfg) && cfg.maxTracked == 1 && cfg.maxFailures > 1 && a != b && !Over(cfg, e, now)
    ensures AfterFail(cfg, map[a := e], b, now) == (map[b := Entry(1, now, None)], Locks(false))
    ensures Evicts(cfg, map[a := e], Call(Fail, b, now)) == Some(a)
  {
    var m := map[a := e];
    assert Expired(cfg, m, now) == m && m.Keys == {a} && |m| == |m.Keys|;
    assert Victim(m) in Candidates(m) && Victim(m) == a;
    assert MakeRoom(cfg, m) == map[];
  }

  /**
   A table that is full forgets: two wrong passwords of an address within two seconds start
   no lock, although two is the limit for a minute, because another address came between
   them and the table has room for one.
   */
  lemma {:induction false} EvictionForgets() returns (cfg: Config, calls: seq<Call>)
    ensures cfg == Config(2, 60.0, 60.0, 1) && ConfigOk(cfg)
    ensures calls == Login("a", 0.0) + Login("b", 1.0) + Login("a", 2.0) && Monotone(calls, 0.0)
    ensures FailsOf(calls, "a") == [Call(Fail, "a", 0.0), Call(Fail, "a", 2.0)]
    ensures Locks(true) !in Run(cfg, map[], calls).1
  {
    cfg := Config(2, 60.0, 60.0, 1);
    var third := Login("a", 2.0) + [];
    var second := Login("b", 1.0) + third;
    calls := Login("a", 0.0) + second;
    assert calls == Login("a", 0.0) + Login("b", 1.0) + Login("a", 2.0);
    CountsFirst(cfg, "a", 0.0);
    PushesOut(cfg, "a", Entry(1, 0.0, None), "b", 1.0);
    PushesOut(cfg, "b", Entry(1, 1.0, None), "a", 2.0);
    LoginStep(cfg, map["b" := Entry(1, 1.0, None)], "a", 2.0, []);
    LoginStep(cfg, map["a" := Entry(1, 0.0, None)], "b", 1.0, third);
    LoginStep(cfg, map[], "a", 0.0, second);
    CallsOfThree(calls, second, third);
  }

  lemma {:induction false} CallsOfThree(calls: seq<Call>, second: seq<Call>, third: seq<Call>)
    requires third == Login("a", 2.0) + [] && second == Login("b", 1.0) + third && calls == Login("a", 0.0) + second
    ensures Monotone(calls, 0.0)
    ensures FailsOf(calls, "a") == [Call(Fail, "a", 0.0), Call(Fail, "a", 2.0)]
  {
    LoginFails("a", 2.0, [], "a", 2.0);
    LoginFails("b", 1.0, third, "a", 1.0);
    LoginFails("a", 0.0, second, "a", 0.0);
  }
}
