/**
 The re-entrant event loop of async.c and aio-posix.c: bottom halves, file-descriptor
 handlers and `aio_poll`.

 Objects the C code allocates are addressed by pointers into a memory map; freeing an object
 removes it from the map and pointers are never handed out twice. Following a pointer is a map
 lookup, so the proof that every lookup is defined is the proof that no freed object is touched.

 A callback is arbitrary code: during one invocation it may create, schedule, cancel or delete
 bottom halves, install or remove handlers, and call `aio_poll` again. One run of all callbacks is
 a finite tree (`Call`, `Cmd`, `PollRun`): the n-th invocation made by a walk performs the n-th
 list of commands of that walk (nothing, past the end of the list), and a nested poll carries its
 own tree. Every behaviour of every
 callback, however it depends on the state, is one such tree, and the methods are proved for all.
 */
module EventLoop {
  import opened Options

  type Ptr = nat

  /** A QEMUBH; its position in the list is kept in the list itself. */
  datatype Bh = Bh(scheduled: bool, idle: bool, deleted: bool)

  datatype Events = Events(input: bool, output: bool, hangup: bool, error: bool)

  /** An AioHandler; `ioRead`, `ioWrite` and `ioFlush` say whether that callback is installed. */
  datatype Handler = Handler(fd: int, events: Events, revents: Events,
                             ioRead: bool, ioWrite: bool, ioFlush: bool,
                             deleted: bool, pollfdsIdx: int)

  datatype PollFd = PollFd(fd: int, events: Events)

  /** What a callback may do. */
  datatype Cmd =
    | BhNew
    | BhSchedule(b: Ptr)
    | BhScheduleIdle(b: Ptr)
    | BhCancel(b: Ptr)
    | BhDelete(b: Ptr)
    | SetFdHandler(fd: int, ioRead: bool, ioWrite: bool, ioFlush: bool)
    | AioPoll(blocking: bool, run: PollRun)

  /** One invocation of a callback: its commands and, for an io_flush callback, its answer. */
  datatype Call = Call(cmds: seq<Cmd>, answer: int)

  /** The invocations made by each phase of one aio_poll, and the answer of g_poll. */
  datatype PollRun = PollRun(bhCalls: seq<Call>, firstCalls: seq<Call>, flushCalls: seq<Call>,
                             ready: int, revents: seq<Events>, secondCalls: seq<Call>)

  const NoEvents := Events(false, false, false, false)

  function And(a: Events, b: Events): Events {
    Events(a.input && b.input, a.output && b.output, a.hangup && b.hangup, a.error && b.error)
  }

  // ---------------------------------------------------------------- the history of a list

  /** What happened to the objects of one list. `depth` is the number of walks under way, of
      either list, and `answer` what an io_flush callback will say. A walk passes over a bottom half
      that it finds with nothing to do. */
  datatype Event =
    | Enter
    | Leave
    | Scheduled(p: Ptr)
    | Called(p: Ptr, idle: bool, depth: nat, answer: int)
    | Passed(p: Ptr, depth: nat)
    | Cancelled(p: Ptr)
    | Deleted(p: Ptr)
    | Freed(p: Ptr)

  /** Walks entered and not yet left. */
  ghost function Depth(trace: seq<Event>): int {
    if trace == [] then 0
    else
      var e := trace[|trace| - 1];
      Depth(trace[..|trace| - 1]) + (if e.Enter? then 1 else if e.Leave? then -1 else 0)
  }

  ghost predicate EverDeleted(trace: seq<Event>, p: Ptr) {
    Deleted(p) in trace
  }

  ghost predicate EverFreed(trace: seq<Event>, p: Ptr) {
    Freed(p) in trace
  }

  /** Event `i` was legal when it happened: only an object that was neither deleted nor freed is
      called, and only a deleted object is freed, once, while no walk is under way. */
  ghost predicate LegalAt(trace: seq<Event>, i: nat)
    requires i < |trace|
  {
    match trace[i]
    case Called(p, _, _, _) => !EverDeleted(trace[..i], p) && !EverFreed(trace[..i], p)
    case Freed(p) => EverDeleted(trace[..i], p) && !EverFreed(trace[..i], p) && Depth(trace[..i]) == 0
    case _ => true
  }

  ghost predicate Legal(trace: seq<Event>) {
    forall i: nat :: i < |trace| ==> LegalAt(trace, i)
  }

  lemma DepthSnoc(trace: seq<Event>, e: Event)
    ensures Depth(trace + [e]) == Depth(trace) + (if e.Enter? then 1 else if e.Leave? then -1 else 0)
  {
    assert (trace + [e])[..|trace|] == trace;
  }

  lemma LegalSnoc(trace: seq<Event>, e: Event)
    requires Legal(trace)
    requires e.Called? ==> !EverDeleted(trace, e.p) && !EverFreed(trace, e.p)
    requires e.Freed? ==> EverDeleted(trace, e.p) && !EverFreed(trace, e.p) && Depth(trace) == 0
    ensures Legal(trace + [e])
  {
    var t := trace + [e];
    forall i: nat | i < |t|
      ensures LegalAt(t, i)
    {
      if i < |trace| {
        assert LegalAt(trace, i);
        assert t[..i] == trace[..i];
      } else {
        assert t[..i] == trace;
      }
    }
  }

  ghost predicate NoDup(s: seq<Ptr>) {
    forall i, j :: 0 <= i < j < |s| ==> s[i] != s[j]
  }

  /** `s` is what remains of `t` after dropping a prefix. */
  ghost predicate IsSuffix(s: seq<Ptr>, t: seq<Ptr>) {
    |s| <= |t| && t[|t| - |s|..] == s
  }

  lemma SuffixTrans(s: seq<Ptr>, t: seq<Ptr>, u: seq<Ptr>)
    requires IsSuffix(s, t) && IsSuffix(t, u)
    ensures IsSuffix(s, u)
  {
    var d := |u| - |t|;
    assert forall i :: 0 <= i < |t| ==> t[i] == u[d..][i] == u[d + i];
    assert forall i :: 0 <= i < |s| ==> s[i] == t[|t| - |s|..][i] == t[|t| - |s| + i];
    assert u[|u| - |s|..] == s;
  }

  /** Index of a pointer in a list. */
  function IndexOf(list: seq<Ptr>, p: Ptr): (i: nat)
    requires p in list
    ensures i < |list| && list[i] == p
  {
    if list[0] == p then 0 else 1 + IndexOf(list[1..], p)
  }

  function First(list: seq<Ptr>): Option<Ptr> {
    if list == [] then None else Some(list[0])
  }

  /** The node after `p`; asking for the successor of an unlinked node is not allowed. */
  function Next(list: seq<Ptr>, p: Ptr): Option<Ptr>
    requires p in list
  {
    var i := IndexOf(list, p);
    if i + 1 < |list| then Some(list[i + 1]) else None
  }

  /** Where a walk stands: `rem` nodes are still to be visited, `cur` being the first of them. */
  ghost predicate At(list: seq<Ptr>, rem: nat, cur: Option<Ptr>) {
    rem <= |list| && cur == First(list[|list| - rem..])
  }

  lemma AtNext(list: seq<Ptr>, rem: nat, p: Ptr)
    requires NoDup(list) && At(list, rem, Some(p))
    ensures rem > 0 && list[|list| - rem] == p && p in list
    ensures At(list, rem - 1, Next(list, p)) && IndexOf(list, p) == |list| - rem
  {
    assert IndexOf(list, p) == |list| - rem;
  }

  lemma AtSuffix(s: seq<Ptr>, t: seq<Ptr>, rem: nat, cur: Option<Ptr>)
    requires IsSuffix(s, t) && At(s, rem, cur)
    ensures At(t, rem, cur)
  {
    assert s[|s| - rem..] == t[|t| - rem..];
  }

  /** What holds of either list in every reachable state: it links exactly the allocated objects,
      freed pointers are not reused, and everything that happened so far was legal. */
  ghost predicate WellKept(list: seq<Ptr>, alive: set<Ptr>, limit: Ptr, walking: nat, trace: seq<Event>) {
    && NoDup(list)
    && (forall p :: p in list <==> p in alive)
    && (forall p :: p in alive ==> p < limit && !EverFreed(trace, p))
    && (forall e :: e in trace && !e.Enter? && !e.Leave? ==> e.p < limit)
    && Legal(trace)
    && walking == Depth(trace)
  }

  /** Recording a legal event that frees nothing keeps the list well kept. */
  lemma WellKeptSnoc(list: seq<Ptr>, alive: set<Ptr>, limit: Ptr, walking: nat, trace: seq<Event>, e: Event)
    requires WellKept(list, alive, limit, walking, trace)
    requires !e.Freed? && (e.Leave? ==> walking > 0)
    requires !e.Enter? && !e.Leave? ==> e.p in alive
    requires e.Called? ==> !EverDeleted(trace, e.p)
    ensures WellKept(list, alive, limit,
                     if e.Enter? then walking + 1 else if e.Leave? then walking - 1 else walking, trace + [e])
  {
    LegalSnoc(trace, e);
    DepthSnoc(trace, e);
  }

  /** Linking a new object at the head keeps the list well kept, and the object has no history. */
  lemma WellKeptInsert(list: seq<Ptr>, alive: set<Ptr>, limit: Ptr, walking: nat, trace: seq<Event>)
    requires WellKept(list, alive, limit, walking, trace)
    ensures WellKept([limit] + list, alive + {limit}, limit + 1, walking, trace)
    ensures IsSuffix(list, [limit] + list)
    ensures !EverDeleted(trace, limit) && !EverFreed(trace, limit)
  {
    assert limit !in list;
    assert Deleted(limit).p == Freed(limit).p == limit;
  }

  /** Unlinking and freeing a deleted object while nobody walks keeps the list well kept. */
  lemma WellKeptFree(list: seq<Ptr>, alive: set<Ptr>, limit: Ptr, trace: seq<Event>, i: nat)
    requires WellKept(list, alive, limit, 0, trace)
    requires i < |list| && EverDeleted(trace, list[i])
    ensures WellKept(list[..i] + list[i + 1..], alive - {list[i]}, limit, 0, trace + [Freed(list[i])])
  {
    var p, l := list[i], list[..i] + list[i + 1..];
    LegalSnoc(trace, Freed(p));
    DepthSnoc(trace, Freed(p));
    forall q ensures q in l <==> q in alive - {p} {
      if q in list && q != p {
        var j := IndexOf(list, q);
        assert q == if j < i then l[j] else l[j - 1];
      }
    }
  }

  // ---------------------------------------------------------------- bottom halves

  datatype BhState = BhState(list: seq<Ptr>, mem: map<Ptr, Bh>, limit: Ptr, walking: nat, trace: seq<Event>)

  /** What an event makes of the scheduled flag of `b`. */
  ghost predicate Flag(e: Event, b: Ptr, was: bool) {
    if e.Scheduled? && e.p == b then true
    else if (e.Called? || e.Cancelled? || e.Deleted?) && e.p == b then false
    else was
  }

  /** By its history `b` is scheduled. */
  ghost predicate ScheduledBy(trace: seq<Event>, b: Ptr) {
    trace != [] && Flag(trace[|trace| - 1], b, ScheduledBy(trace[..|trace| - 1], b))
  }

  lemma ScheduledSnoc(trace: seq<Event>, e: Event)
    ensures forall b :: ScheduledBy(trace + [e], b) <==> Flag(e, b, ScheduledBy(trace, b))
  {
    assert (trace + [e])[..|trace|] == trace;
  }

  lemma {:induction false} NeverScheduled(trace: seq<Event>, b: Ptr)
    requires forall e :: e in trace && !e.Enter? && !e.Leave? ==> e.p != b
    ensures !ScheduledBy(trace, b)
  {
    if trace != [] { NeverScheduled(trace[..|trace| - 1], b); }
  }

  ghost predicate FlagsOk(mem: map<Ptr, Bh>, trace: seq<Event>) {
    forall b :: b in mem ==> (mem[b].scheduled <==> ScheduledBy(trace, b))
  }

  lemma FlagsSnoc(mem: map<Ptr, Bh>, mem': map<Ptr, Bh>, trace: seq<Event>, e: Event)
    requires FlagsOk(mem, trace)
    requires forall b :: b in mem' ==> b in mem && (mem'[b].scheduled <==> Flag(e, b, mem[b].scheduled))
    ensures FlagsOk(mem', trace + [e])
  {
    hide ScheduledBy;
    ScheduledSnoc(trace, e);
  }

  ghost predicate BhValid(s: BhState) {
    && WellKept(s.list, s.mem.Keys, s.limit, s.walking, s.trace)
    && (forall b :: b in s.mem ==> (s.mem[b].deleted <==> EverDeleted(s.trace, b)))
    && FlagsOk(s.mem, s.trace)
  }

  predicate Pending(bh: Bh) {
    bh.scheduled && !bh.deleted
  }

  /** Event `i` is the turn of `b` in the walk at this depth: it was called if it was pending then, and
      passed over if it was not. */
  ghost predicate TurnAt(trace: seq<Event>, i: nat, b: Ptr, depth: nat)
    requires i < |trace|
  {
    match trace[i]
    case Called(p, _, k, _) => p == b && k == depth && ScheduledBy(trace[..i], b) && !EverDeleted(trace[..i], b)
    case Passed(p, k) => p == b && k == depth && !(ScheduledBy(trace[..i], b) && !EverDeleted(trace[..i], b))
    case _ => false
  }

  /** Since `from`, `b` has had its turn in the walk at this depth. */
  ghost predicate HadTurn(trace: seq<Event>, from: nat, b: Ptr, depth: nat) {
    exists i: nat :: from <= i < |trace| && TurnAt(trace, i, b, depth)
  }

  lemma TurnStays(a: seq<Event>, c: seq<Event>, from: nat, from': nat, b: Ptr, depth: nat)
    requires a <= c && from' <= from && HadTurn(a, from, b, depth)
    ensures HadTurn(c, from', b, depth)
  {
    var i: nat :| from <= i < |a| && TurnAt(a, i, b, depth);
    assert c[..i] == a[..i];
    assert TurnAt(c, i, b, depth);
  }

  lemma TurnsStay(a: seq<Event>, c: seq<Event>, from: nat, from': nat)
    requires a <= c && from' <= from
    ensures forall b, depth: nat :: HadTurn(a, from, b, depth) ==> HadTurn(c, from', b, depth)
  {
    forall b, depth: nat | HadTurn(a, from, b, depth) ensures HadTurn(c, from', b, depth) {
      TurnStays(a, c, from, from', b, depth);
    }
  }

  /** `b` was run, cancelled or deleted. */
  ghost predicate Settled(b: Ptr, events: seq<Event>) {
    (exists e :: e in events && e.Called? && e.p == b) || Cancelled(b) in events || Deleted(b) in events
  }

  /** Every turn recorded was in a walk nested inside `depth` walks. */
  ghost predicate CallsInside(events: seq<Event>, depth: nat) {
    forall e :: e in events && (e.Called? || e.Passed?) ==> e.depth > depth
  }

  /** What code running between two moments may have done to the bottom halves, all its calls
      being made by walks nested inside `depth` others. */
  ghost predicate BhRely(depth: nat, s: BhState, t: BhState) {
    && s.walking == t.walking
    && s.trace <= t.trace
    && CallsInside(t.trace[|s.trace|..], depth)
    && (s.walking > 0 ==> IsSuffix(s.list, t.list) && s.mem.Keys <= t.mem.Keys)
    && forall b :: b in s.mem && Pending(s.mem[b]) ==>
         (b in t.mem && Pending(t.mem[b])) || Settled(b, t.trace[|s.trace|..])
  }

  /** A non-idle bottom half, or a handler, was called by the walk at this depth itself. */
  ghost predicate DirectCall(events: seq<Event>, depth: nat) {
    exists e :: e in events && e.Called? && !e.idle && e.depth == depth
  }

  /** An io_flush callback called by the walk at this depth answered that it is busy. */
  ghost predicate BusyCall(events: seq<Event>, depth: nat) {
    exists e :: e in events && e.Called? && e.idle && e.answer != 0 && e.depth == depth
  }

  lemma TraceSplit(r: seq<Event>, s: seq<Event>, t: seq<Event>)
    requires r <= s <= t
    ensures t[|r|..] == s[|r|..] + t[|s|..]
  {
  }

  lemma BhRelyTrans(depth: nat, inner: nat, r: BhState, s: BhState, t: BhState)
    requires depth <= inner && BhRely(depth, r, s) && BhRely(inner, s, t)
    ensures BhRely(depth, r, t)
  {
    TraceSplit(r.trace, s.trace, t.trace);
    if r.walking > 0 { SuffixTrans(r.list, s.list, t.list); }
  }

  function BhAdd(s: BhState): BhState {
    s.(list := [s.limit] + s.list, mem := s.mem[s.limit := Bh(false, false, false)], limit := s.limit + 1)
  }

  lemma BhAddKeeps(s: BhState)
    requires BhValid(s)
    ensures BhValid(BhAdd(s)) && forall depth: nat :: BhRely(depth, s, BhAdd(s))
  {
    WellKeptInsert(s.list, s.mem.Keys, s.limit, s.walking, s.trace);
    NeverScheduled(s.trace, s.limit);
    assert BhAdd(s).mem.Keys == s.mem.Keys + {s.limit};
  }

  /** qemu_bh_schedule and qemu_bh_schedule_idle: a bottom half already scheduled is left alone. */
  ghost function BhSet(s: BhState, b: Ptr, idle: bool): BhState
    requires b in s.mem
  {
    if s.mem[b].scheduled then s
    else s.(mem := s.mem[b := s.mem[b].(scheduled := true, idle := idle)], trace := s.trace + [Scheduled(b)])
  }

  /** One recorded event that changes flags only. */
  lemma OneEventValid(s: BhState, t: BhState, e: Event)
    requires BhValid(s) && t == s.(mem := t.mem, trace := s.trace + [e]) && t.mem.Keys == s.mem.Keys
    requires !e.Enter? && !e.Leave? && !e.Freed? && e.p in s.mem && (e.Called? ==> !s.mem[e.p].deleted)
    requires forall b :: b in s.mem ==>
               (t.mem[b].scheduled <==> Flag(e, b, s.mem[b].scheduled)) &&
               t.mem[b].deleted == ((e.Deleted? && e.p == b) || s.mem[b].deleted)
    ensures BhValid(t)
  {
    WellKeptSnoc(s.list, s.mem.Keys, s.limit, s.walking, s.trace, e);
    FlagsSnoc(s.mem, t.mem, s.trace, e);
    hide WellKept, FlagsOk, Flag;
  }

  lemma OneEventRely(depth: nat, s: BhState, t: BhState, e: Event)
    requires t == s.(mem := t.mem, trace := s.trace + [e]) && t.mem.Keys == s.mem.Keys
    requires e.Called? || e.Passed? ==> e.depth > depth
    requires forall b :: b in s.mem && Pending(s.mem[b]) ==> Pending(t.mem[b]) || Settled(b, [e])
    ensures BhRely(depth, s, t) && t.trace[|s.trace|..] == [e]
  {
    assert t.trace[|s.trace|..] == [e];
    hide Settled;
  }

  lemma OneEventSettles(e: Event)
    ensures e.Called? || e.Cancelled? || e.Deleted? ==> Settled(e.p, [e])
  {
    assert e in [e];
  }

  lemma BhSetKeeps(s: BhState, b: Ptr, idle: bool)
    requires BhValid(s) && b in s.mem
    ensures BhValid(BhSet(s, b, idle)) && forall depth: nat :: BhRely(depth, s, BhSet(s, b, idle))
    ensures BhSet(s, b, idle).mem[b].scheduled
  {
    hide BhValid, BhRely, Settled, IsSuffix;
    var t := BhSet(s, b, idle);
    if t == s {
      forall depth: nat ensures BhRely(depth, s, s) { BhRelySelf(depth, s); }
    } else {
      assert t.mem.Keys == s.mem.Keys;
      OneEventValid(s, t, Scheduled(b));
      forall depth: nat ensures BhRely(depth, s, t) { OneEventRely(depth, s, t, Scheduled(b)); }
    }
  }

  lemma BhRelySelf(depth: nat, s: BhState)
    ensures BhRely(depth, s, s)
  {
  }

  /** Changing the flags of one bottom half and recording why. */
  ghost function BhNote(s: BhState, b: Ptr, bh: Bh, e: Event): BhState {
    s.(mem := s.mem[b := bh], trace := s.trace + [e])
  }

  lemma BhNoteKeeps(s: BhState, b: Ptr, bh: Bh, e: Event)
    requires BhValid(s) && b in s.mem
    requires e == Cancelled(b) || e == Deleted(b) || (e.Called? && e.p == b)
    requires bh.deleted == (e.Deleted? || s.mem[b].deleted) && !bh.scheduled
    requires e.Called? ==> !s.mem[b].deleted
    ensures BhValid(BhNote(s, b, bh, e))
    ensures forall depth: nat :: (e.Called? ==> e.depth > depth) ==> BhRely(depth, s, BhNote(s, b, bh, e))
  {
    hide BhValid, BhRely, Settled;
    var t := BhNote(s, b, bh, e);
    assert t.mem.Keys == s.mem.Keys;
    OneEventValid(s, t, e);
    OneEventSettles(e);
    forall depth: nat | e.Called? ==> e.depth > depth ensures BhRely(depth, s, t) { OneEventRely(depth, s, t, e); }
  }

  /** A walk finds `b` with nothing to do. */
  ghost function BhPass(s: BhState, b: Ptr, depth: nat): BhState {
    s.(trace := s.trace + [Passed(b, depth)])
  }

  lemma BhPassKeeps(s: BhState, b: Ptr, d: nat)
    requires BhValid(s) && b in s.mem
    ensures BhValid(BhPass(s, b, d + 1)) && BhRely(d, s, BhPass(s, b, d + 1))
    ensures BhPass(s, b, d + 1).trace[|s.trace|..] == [Passed(b, d + 1)]
  {
    hide BhValid, BhRely, Settled;
    OneEventValid(s, BhPass(s, b, d + 1), Passed(b, d + 1));
    OneEventRely(d, s, BhPass(s, b, d + 1), Passed(b, d + 1));
  }

  /** The event that a visit records is the turn of `b`. */
  lemma TurnNow(s: BhState, b: Ptr, e: Event, depth: nat)
    requires BhValid(s) && b in s.mem
    requires if Pending(s.mem[b]) then e.Called? && e.p == b && e.depth == depth else e == Passed(b, depth)
    ensures HadTurn(s.trace + [e], |s.trace|, b, depth)
  {
    assert (s.trace + [e])[..|s.trace|] == s.trace;
    assert TurnAt(s.trace + [e], |s.trace|, b, depth);
  }

  /** A visit to a pending bottom half: the call, and what is nested in it. */
  lemma VisitRan(d: nat, s: BhState, t: BhState, u: BhState, b: Ptr, bh: Bh, e: Event)
    requires BhValid(s) && b in s.mem && Pending(s.mem[b]) && bh == s.mem[b].(scheduled := false, idle := false)
    requires e.Called? && e.p == b && e.depth == d + 1 && t == BhNote(s, b, bh, e)
    requires BhRely(d + 1, t, u)
    ensures BhRely(d, s, u) && Settled(b, u.trace[|s.trace|..]) && HadTurn(u.trace, |s.trace|, b, d + 1)
    ensures DirectCall(u.trace[|s.trace|..], d + 1) <==> !e.idle
  {
    hide BhValid, BhRely, HadTurn;
    BhNoteKeeps(s, b, bh, e);
    TurnNow(s, b, e, d + 1);
    BhRelyFacts(d, s, t);
    BhRelyFacts(d + 1, t, u);
    BhRelyTrans(d, d + 1, s, t, u);
    TurnStays(t.trace, u.trace, |s.trace|, |s.trace|, b, d + 1);
    TraceSplit(s.trace, t.trace, u.trace);
    assert t.trace[|s.trace|..] == [e];
    assert e in u.trace[|s.trace|..];
    NoOwnCalls(d, t, u, HandlerState([], map[], 0, 0, [], []), HandlerState([], map[], 0, 0, [], []));
  }

  /** A visit to one that is not. */
  lemma VisitPassed(d: nat, s: BhState, b: Ptr)
    requires BhValid(s) && b in s.mem && !Pending(s.mem[b])
    ensures var t := BhPass(s, b, d + 1);
            BhValid(t) && BhRely(d, s, t) && HadTurn(t.trace, |s.trace|, b, d + 1) &&
            !DirectCall(t.trace[|s.trace|..], d + 1)
  {
    hide BhValid, BhRely, HadTurn;
    BhPassKeeps(s, b, d);
    TurnNow(s, b, Passed(b, d + 1), d + 1);
  }

  /** Entering or leaving a walk, as one recorded event. */
  ghost function BhEnter(s: BhState): BhState {
    s.(walking := s.walking + 1, trace := s.trace + [Enter])
  }

  ghost function BhLeave(s: BhState): BhState
    requires s.walking > 0
  {
    s.(walking := s.walking - 1, trace := s.trace + [Leave])
  }

  lemma BhEnterKeeps(s: BhState)
    requires BhValid(s)
    ensures BhValid(BhEnter(s))
  {
    WellKeptSnoc(s.list, s.mem.Keys, s.limit, s.walking, s.trace, Enter);
    FlagsSnoc(s.mem, s.mem, s.trace, Enter);
  }

  lemma BhLeaveKeeps(s: BhState)
    requires BhValid(s) && s.walking > 0
    ensures BhValid(BhLeave(s))
  {
    WellKeptSnoc(s.list, s.mem.Keys, s.limit, s.walking, s.trace, Leave);
    FlagsSnoc(s.mem, s.mem, s.trace, Leave);
  }

  /** A whole walk, seen from outside: what happened between entering and leaving it, then the
      sweep that frees only. */
  ghost predicate FreesOnly(events: seq<Event>) {
    forall e :: e in events ==> e.Freed?
  }

  lemma BhWalkRely(d: nat, s: BhState, t: BhState, u: BhState)
    requires BhRely(d, BhEnter(s), t)
    requires u.walking == s.walking && BhLeave(t).trace <= u.trace
    requires FreesOnly(u.trace[|t.trace| + 1..])
    requires s.walking > 0 ==> u == BhLeave(t)
    requires forall b :: b in t.mem && Pending(t.mem[b]) ==> b in u.mem && u.mem[b] == t.mem[b]
    ensures BhRely(d, s, u)
  {
    TraceSplit(s.trace, BhEnter(s).trace, t.trace);
    TraceSplit(s.trace, t.trace, BhLeave(t).trace);
    TraceSplit(s.trace, BhLeave(t).trace, u.trace);
    assert BhEnter(s).trace[|s.trace|..] == [Enter];
    assert BhLeave(t).trace[|t.trace|..] == [Leave];
  }

  /** Of the first `k` bottom halves, those that were pending are settled. */
  ghost predicate SettledUpTo(s: BhState, k: nat, events: seq<Event>)
    requires k <= |s.list|
  {
    forall i :: 0 <= i < k && s.list[i] in s.mem && Pending(s.mem[s.list[i]]) ==> Settled(s.list[i], events)
  }

  lemma SettledNext(s: BhState, k: nat, a: seq<Event>, b: seq<Event>)
    requires k < |s.list| && SettledUpTo(s, k, a)
    requires s.list[k] in s.mem && Pending(s.mem[s.list[k]]) ==> Settled(s.list[k], a + b)
    ensures SettledUpTo(s, k + 1, a + b)
  {
    EventsJoin(a, b);
  }

  /** Of the first `k` bottom halves, each has had its turn. */
  ghost predicate TurnsUpTo(s: BhState, k: nat, trace: seq<Event>, depth: nat)
    requires k <= |s.list|
  {
    forall i :: 0 <= i < k ==> HadTurn(trace, |s.trace|, s.list[i], depth)
  }

  lemma TurnsNext(s: BhState, k: nat, t: seq<Event>, u: seq<Event>, depth: nat)
    requires k < |s.list| && TurnsUpTo(s, k, t, depth) && s.trace <= t <= u
    requires HadTurn(u, |t|, s.list[k], depth)
    ensures TurnsUpTo(s, k + 1, u, depth)
  {
    hide HadTurn;
    TurnsStay(t, u, |s.trace|, |s.trace|);
    TurnsStay(u, u, |t|, |s.trace|);
  }

  /** Where a walk that began in `s` stands in `t`: `rem` of its bottom halves are still to come,
      those before have had their turn and are settled, and `ret` tells whether it ran a non-idle one. */
  ghost predicate BhWalk(d: nat, s: BhState, t: BhState, rem: nat, cur: Option<Ptr>, ret: bool) {
    && s.walking > 0 && rem <= |s.list| && At(t.list, rem, cur)
    && BhRely(d, s, t)
    && SettledUpTo(s, |s.list| - rem, t.trace[|s.trace|..])
    && TurnsUpTo(s, |s.list| - rem, t.trace, d + 1)
    && (ret <==> DirectCall(t.trace[|s.trace|..], d + 1))
  }

  lemma BhWalkParts(d: nat, s: BhState, t: BhState, rem: nat, cur: Option<Ptr>, ret: bool)
    ensures BhWalk(d, s, t, rem, cur, ret) <==>
              s.walking > 0 && rem <= |s.list| && At(t.list, rem, cur) && BhRely(d, s, t) &&
              SettledUpTo(s, |s.list| - rem, t.trace[|s.trace|..]) && TurnsUpTo(s, |s.list| - rem, t.trace, d + 1) &&
              (ret <==> DirectCall(t.trace[|s.trace|..], d + 1))
  {
  }

  lemma BhWalkStart(d: nat, s: BhState)
    requires s.walking > 0
    ensures BhWalk(d, s, s, |s.list|, First(s.list), false)
  {
    assert s.list[0..] == s.list;
  }

  lemma BhWalkStep(d: nat, s: BhState, t: BhState, u: BhState, rem: nat, b: Ptr, ret: bool, worked: bool)
    requires BhValid(s) && BhValid(t) && BhWalk(d, s, t, rem, Some(b), ret)
    requires b in t.list && BhRely(d, t, u)
    requires b in t.mem && Pending(t.mem[b]) ==> Settled(b, u.trace[|t.trace|..])
    requires HadTurn(u.trace, |t.trace|, b, d + 1)
    requires worked <==> DirectCall(u.trace[|t.trace|..], d + 1)
    ensures rem > 0 && BhWalk(d, s, u, rem - 1, Next(t.list, b), ret || worked)
  {
    hide *;
    BhWalkParts(d, s, t, rem, Some(b), ret);
    BhLinked(t);
    AtNext(t.list, rem, b);
    BhRelyFacts(d, s, t);
    BhRelyFacts(d, t, u);
    SuffixAt(s.list, t.list, rem);
    BhRelyTrans(d, d, s, t, u);
    AtSuffix(t.list, u.list, rem - 1, Next(t.list, b));
    TraceSplit(s.trace, t.trace, u.trace);
    EventsJoin(t.trace[|s.trace|..], u.trace[|t.trace|..]);
    if b in s.mem && Pending(s.mem[b]) {
      BhPendingSplit(d, s, t, u, b);
    }
    SettledNext(s, |s.list| - rem, t.trace[|s.trace|..], u.trace[|t.trace|..]);
    TurnsNext(s, |s.list| - rem, t.trace, u.trace, d + 1);
    BhWalkParts(d, s, u, rem - 1, Next(t.list, b), ret || worked);
  }

  lemma EventsJoin(a: seq<Event>, b: seq<Event>)
    ensures forall p :: Settled(p, a) ==> Settled(p, a + b)
    ensures forall d: nat :: DirectCall(a + b, d) <==> DirectCall(a, d) || DirectCall(b, d)
    ensures forall d: nat :: BusyCall(a + b, d) <==> BusyCall(a, d) || BusyCall(b, d)
  {
  }

  lemma BhRelyFacts(depth: nat, s: BhState, t: BhState)
    requires BhRely(depth, s, t)
    ensures s.walking == t.walking && s.trace <= t.trace
    ensures s.walking > 0 ==> IsSuffix(s.list, t.list)
  {
  }

  lemma SuffixAt(s: seq<Ptr>, t: seq<Ptr>, rem: nat)
    requires IsSuffix(s, t) && 0 < rem <= |s|
    ensures s[|s| - rem] == t[|t| - rem]
  {
    assert s[|s| - rem] == t[|t| - |s|..][|s| - rem];
  }

  lemma BhPendingSplit(depth: nat, s: BhState, t: BhState, u: BhState, b: Ptr)
    requires BhRely(depth, s, t) && t.trace <= u.trace && b in s.mem && Pending(s.mem[b])
    requires b in t.mem && Pending(t.mem[b]) ==> Settled(b, u.trace[|t.trace|..])
    ensures Settled(b, u.trace[|s.trace|..])
  {
    TraceSplit(s.trace, t.trace, u.trace);
  }

  lemma BhWalkAt(d: nat, s: BhState, t: BhState, rem: nat, b: Ptr, ret: bool)
    requires BhWalk(d, s, t, rem, Some(b), ret)
    ensures b in t.list && rem > 0
  {
  }

  lemma BhWalkEnd(d: nat, s: BhState, t: BhState, ret: bool)
    requires BhValid(s) && exists rem: nat :: BhWalk(d, s, t, rem, None, ret)
    ensures BhRely(d, s, t)
    ensures forall b :: b in s.mem && Pending(s.mem[b]) ==> Settled(b, t.trace[|s.trace|..])
    ensures forall b :: b in s.mem ==> HadTurn(t.trace, |s.trace|, b, d + 1)
    ensures ret <==> DirectCall(t.trace[|s.trace|..], d + 1)
  {
    hide WellKept, HadTurn;
    BhLinked(s);
    forall b | b in s.mem ensures HadTurn(t.trace, |s.trace|, b, d + 1) {
      assert b == s.list[IndexOf(s.list, b)];
    }
    forall b | b in s.mem && Pending(s.mem[b]) ensures Settled(b, t.trace[|s.trace|..]) {
      assert b == s.list[IndexOf(s.list, b)];
    }
  }

  /** Unlinking and freeing the deleted bottom half at position `i`. */
  ghost function BhFree(s: BhState, i: nat): BhState
    requires i < |s.list|
  {
    s.(list := s.list[..i] + s.list[i + 1..], mem := s.mem - {s.list[i]}, trace := s.trace + [Freed(s.list[i])])
  }

  /** How far the sweep that began in `s` has come in `t`: nothing deleted among the first `i`. */
  ghost predicate BhSwept(s: BhState, t: BhState, i: nat) {
    && i <= |t.list| && BhValid(t) && t.walking == 0
    && s.trace <= t.trace && FreesOnly(t.trace[|s.trace|..])
    && (forall j :: 0 <= j < i ==> t.list[j] in t.mem && !t.mem[t.list[j]].deleted)
    && (forall b :: b in t.mem ==> b in s.mem && t.mem[b] == s.mem[b])
    && (forall b :: b in s.mem && !s.mem[b].deleted ==> b in t.mem)
  }

  lemma BhFreeValid(t: BhState, i: nat)
    requires BhValid(t) && t.walking == 0 && i < |t.list| && t.list[i] in t.mem && t.mem[t.list[i]].deleted
    ensures BhValid(BhFree(t, i))
  {
    var u := BhFree(t, i);
    WellKeptFree(t.list, t.mem.Keys, t.limit, t.trace, i);
    FlagsSnoc(t.mem, u.mem, t.trace, Freed(t.list[i]));
    hide WellKept, FlagsOk;
    assert u.mem.Keys == t.mem.Keys - {t.list[i]};
    assert forall b :: EverDeleted(u.trace, b) <==> EverDeleted(t.trace, b);
  }

  lemma BhFreeKeeps(s: BhState, t: BhState, i: nat)
    requires BhSwept(s, t, i) && i < |t.list| && t.list[i] in t.mem && t.mem[t.list[i]].deleted
    ensures BhSwept(s, BhFree(t, i), i)
  {
    hide BhValid, NoDup;
    var u := BhFree(t, i);
    BhFreeValid(t, i);
    TraceSplit(s.trace, t.trace, u.trace);
    assert u.trace[|t.trace|..] == [Freed(t.list[i])];
    BhLinked(u);
  }

  lemma BhSweptEnd(s: BhState, t: BhState)
    requires BhSwept(s, t, |t.list|)
    ensures forall b :: b in t.mem <==> b in s.mem && !s.mem[b].deleted
  {
    BhLinked(t);
  }

  // ---------------------------------------------------------------- handlers

  datatype HandlerState = HandlerState(list: seq<Ptr>, mem: map<Ptr, Handler>, limit: Ptr, walking: nat,
                                       trace: seq<Event>, pollfds: seq<PollFd>)

  /** `p` is the node serving `fd`. */
  ghost predicate Serves(s: HandlerState, p: Ptr, fd: int) {
    p in s.mem && s.mem[p].fd == fd && !s.mem[p].deleted
  }

  ghost predicate HandlersValid(s: HandlerState) {
    && WellKept(s.list, s.mem.Keys, s.limit, s.walking, s.trace)
    && (forall p :: p in s.mem ==> (s.mem[p].deleted <==> EverDeleted(s.trace, p)))
    && (forall p, q, fd :: Serves(s, p, fd) && Serves(s, q, fd) ==> p == q)
  }

  /** The node serving `fd`, if there is one; by HandlersValid it is unique. */
  ghost function ServerOf(s: HandlerState, fd: int): (r: Option<Ptr>)
    ensures r.Some? ==> Serves(s, r.value, fd)
    ensures r.None? ==> forall p :: !Serves(s, p, fd)
  {
    if p :| Serves(s, p, fd) then Some(p) else None
  }

  /** The entry a node claims in the poll array is the entry for its descriptor. */
  ghost predicate IdxOk(s: HandlerState, p: Ptr)
    requires p in s.mem
  {
    var i := s.mem[p].pollfdsIdx;
    i == -1 || (0 <= i < |s.pollfds| && s.pollfds[i].fd == s.mem[p].fd)
  }

  ghost predicate AllIdxOk(s: HandlerState) {
    forall p :: p in s.mem ==> IdxOk(s, p)
  }

  /** Either the poll array was rebuilt as a whole or claims were only given up. */
  ghost predicate IdxRely(s: HandlerState, t: HandlerState) {
    || AllIdxOk(t)
    || (t.pollfds == s.pollfds &&
        forall p :: p in t.mem ==>
          t.mem[p].pollfdsIdx == -1 || (p in s.mem && t.mem[p].pollfdsIdx == s.mem[p].pollfdsIdx))
  }

  ghost predicate SameFds(s: HandlerState, t: HandlerState) {
    forall p :: p in s.mem && p in t.mem ==> t.mem[p].fd == s.mem[p].fd
  }

  /** What code running between two moments may have done to the list of handlers. */
  ghost predicate NodesRely(depth: nat, s: HandlerState, t: HandlerState) {
    && s.walking == t.walking && s.limit <= t.limit
    && s.trace <= t.trace
    && CallsInside(t.trace[|s.trace|..], depth)
    && (s.walking > 0 ==> IsSuffix(s.list, t.list) && s.mem.Keys <= t.mem.Keys)
    && (forall p :: p in t.mem && p !in s.mem ==> p >= s.limit)
    && SameFds(s, t)
  }

  ghost predicate HandlersRely(depth: nat, s: HandlerState, t: HandlerState) {
    NodesRely(depth, s, t) && IdxRely(s, t)
  }

  lemma NodesRelyTrans(depth: nat, inner: nat, r: HandlerState, s: HandlerState, t: HandlerState)
    requires depth <= inner && NodesRely(depth, r, s) && NodesRely(inner, s, t)
    requires HandlersValid(r) && HandlersValid(s)
    ensures NodesRely(depth, r, t)
  {
    TraceSplit(r.trace, s.trace, t.trace);
    if r.walking > 0 { SuffixTrans(r.list, s.list, t.list); }
  }

  lemma HandlersRelyTrans(depth: nat, inner: nat, r: HandlerState, s: HandlerState, t: HandlerState)
    requires depth <= inner && HandlersRely(depth, r, s) && HandlersRely(inner, s, t)
    requires HandlersValid(r) && HandlersValid(s)
    ensures HandlersRely(depth, r, t)
  {
    NodesRelyTrans(depth, inner, r, s, t);
  }

  /** Seen from outside, a walk adds nothing to what happened inside it but frees. */
  lemma WalkEvents(s: BhState, t: BhState, u: BhState)
    requires BhEnter(s).trace <= t.trace && t.trace + [Leave] <= u.trace
    requires FreesOnly(u.trace[|t.trace| + 1..])
    ensures forall b :: Settled(b, t.trace[|s.trace| + 1..]) ==> Settled(b, u.trace[|s.trace|..])
    ensures forall d: nat :: DirectCall(t.trace[|s.trace| + 1..], d) <==> DirectCall(u.trace[|s.trace|..], d)
  {
    var inner := t.trace[|s.trace| + 1..];
    var outer := u.trace[|s.trace|..];
    assert outer == [Enter] + inner + [Leave] + u.trace[|t.trace| + 1..];
    assert forall e :: e in inner ==> e in outer;
    assert forall e :: e in outer && e.Called? ==> e in inner;
  }

  lemma NoChange(s: BhState, h: HandlerState)
    ensures forall depth: nat :: BhRely(depth, s, s) && HandlersRely(depth, h, h)
  {
  }

  lemma BhLinked(s: BhState)
    requires BhValid(s)
    ensures NoDup(s.list) && forall b :: b in s.list <==> b in s.mem
  {
  }

  lemma HandlersLinked(s: HandlerState)
    requires HandlersValid(s)
    ensures NoDup(s.list) && forall p :: p in s.list <==> p in s.mem
  {
  }

  /** aio_set_fd_handler, given the node serving the descriptor. */
  ghost function HandlersSet(s: HandlerState, node: Option<Ptr>, fd: int,
                             ioRead: bool, ioWrite: bool, ioFlush: bool): HandlerState
    requires node.Some? ==> node.value in s.list && node.value in s.mem
  {
    if !ioRead && !ioWrite then
      match node
      case None => s
      case Some(p) =>
        if s.walking > 0 then
          s.(mem := s.mem[p := s.mem[p].(deleted := true, revents := NoEvents)],
             trace := s.trace + [Deleted(p)])
        else
          var i := IndexOf(s.list, p);
          s.(list := s.list[..i] + s.list[i + 1..], mem := s.mem - {p},
             trace := s.trace + [Deleted(p)] + [Freed(p)])
    else
      var events := Events(ioRead, ioWrite, ioRead, false);
      match node
      case None =>
        s.(list := [s.limit] + s.list, limit := s.limit + 1,
           mem := s.mem[s.limit := Handler(fd, events, NoEvents, ioRead, ioWrite, ioFlush, false, -1)])
      case Some(p) =>
        s.(mem := s.mem[p := s.mem[p].(events := events, ioRead := ioRead, ioWrite := ioWrite,
                                       ioFlush := ioFlush, pollfdsIdx := -1)])
  }

  /** Marking a node deleted, as removal does while a walk is under way. */
  lemma MarkKeeps(s: HandlerState, t: HandlerState, p: Ptr)
    requires HandlersValid(s) && p in s.mem
    requires t == s.(mem := s.mem[p := s.mem[p].(deleted := true, revents := NoEvents)],
                     trace := s.trace + [Deleted(p)])
    ensures HandlersValid(t) && (forall depth: nat :: HandlersRely(depth, s, t))
  {
    WellKeptSnoc(s.list, s.mem.Keys, s.limit, s.walking, s.trace, Deleted(p));
    assert t.mem.Keys == s.mem.Keys;
    assert t.trace[|s.trace|..] == [Deleted(p)];
    assert forall q, fd :: Serves(t, q, fd) ==> Serves(s, q, fd);
  }

  /** Unlinking and freeing a node whose deletion is on record. */
  lemma UnlinkKeeps(s: HandlerState, t: HandlerState, p: Ptr)
    requires HandlersValid(s) && p in s.list && s.walking == 0 && EverDeleted(s.trace, p)
    requires var i := IndexOf(s.list, p);
             t == s.(list := s.list[..i] + s.list[i + 1..], mem := s.mem - {p}, trace := s.trace + [Freed(p)])
    ensures HandlersValid(t) && (forall depth: nat :: HandlersRely(depth, s, t))
  {
    WellKeptFree(s.list, s.mem.Keys, s.limit, s.trace, IndexOf(s.list, p));
    assert t.mem.Keys == s.mem.Keys - {p};
    assert forall q, fd :: Serves(t, q, fd) ==> Serves(s, q, fd);
    UnlinkRely(s, t, p);
  }

  lemma UnlinkRely(s: HandlerState, t: HandlerState, p: Ptr)
    requires s.walking == 0 && t == s.(list := t.list, mem := s.mem - {p}, trace := s.trace + [Freed(p)])
    ensures forall depth: nat :: HandlersRely(depth, s, t)
  {
    hide AllIdxOk;
    assert t.trace[|s.trace|..] == [Freed(p)];
  }

  lemma DeletedLast(trace: seq<Event>, p: Ptr)
    ensures EverDeleted(trace + [Deleted(p)], p)
  {
    assert (trace + [Deleted(p)])[|trace|] == Deleted(p);
  }

  /** Removing a live node at once, as removal does while nobody walks. */
  lemma RemoveKeeps(s: HandlerState, t: HandlerState, p: Ptr)
    requires HandlersValid(s) && p in s.list && s.walking == 0
    requires var i := IndexOf(s.list, p);
             t == s.(list := s.list[..i] + s.list[i + 1..], mem := s.mem - {p},
                     trace := s.trace + [Deleted(p)] + [Freed(p)])
    ensures HandlersValid(t) && (forall depth: nat :: HandlersRely(depth, s, t))
  {
    hide HandlersValid, HandlersRely, NodesRely, IdxRely, EverDeleted, EverFreed;
    HandlersLinked(s);
    var m := s.(mem := s.mem[p := s.mem[p].(deleted := true, revents := NoEvents)],
                trace := s.trace + [Deleted(p)]);
    MarkKeeps(s, m, p);
    DeletedLast(s.trace, p);
    assert m.mem - {p} == s.mem - {p};
    UnlinkKeeps(m, t, p);
    RelyTransAll(s, m, t);
  }

  ghost function NodeAdd(s: HandlerState, h: Handler): HandlerState {
    s.(list := [s.limit] + s.list, limit := s.limit + 1, mem := s.mem[s.limit := h])
  }

  lemma NodeAddServes(s: HandlerState, h: Handler)
    requires s.limit !in s.mem && (forall p :: !Serves(s, p, h.fd))
    requires forall p, q, fd :: Serves(s, p, fd) && Serves(s, q, fd) ==> p == q
    ensures forall p, q, fd :: Serves(NodeAdd(s, h), p, fd) && Serves(NodeAdd(s, h), q, fd) ==> p == q
  {
    assert forall p, fd :: Serves(NodeAdd(s, h), p, fd) ==> (p == s.limit && fd == h.fd) || Serves(s, p, fd);
  }

  lemma NodeAddRely(s: HandlerState, h: Handler)
    requires s.limit !in s.mem && h.pollfdsIdx == -1
    ensures (forall depth: nat :: HandlersRely(depth, s, NodeAdd(s, h)))
  {
    hide AllIdxOk;
    var t := NodeAdd(s, h);
    assert t.mem.Keys == s.mem.Keys + {s.limit};
    assert t.trace[|s.trace|..] == [];
    assert IsSuffix(s.list, t.list);
  }

  /** Linking a node for a descriptor nobody serves. */
  lemma InsertKeeps(s: HandlerState, t: HandlerState, h: Handler)
    requires HandlersValid(s) && forall p :: !Serves(s, p, h.fd)
    requires !h.deleted && h.pollfdsIdx == -1
    requires t == NodeAdd(s, h)
    ensures HandlersValid(t) && (forall depth: nat :: HandlersRely(depth, s, t))
  {
    WellKeptInsert(s.list, s.mem.Keys, s.limit, s.walking, s.trace);
    assert s.limit !in s.mem;
    assert t.mem.Keys == s.mem.Keys + {s.limit};
    hide WellKept, EverDeleted, HandlersRely, Serves;
    NodeAddServes(s, h);
    NodeAddRely(s, h);
  }

  /** Changing a node in place, its descriptor and deletion mark excepted, and the poll array. */
  lemma RewriteKeeps(s: HandlerState, t: HandlerState, p: Ptr, h: Handler, pollfds: seq<PollFd>)
    requires HandlersValid(s) && p in s.mem && h.fd == s.mem[p].fd && h.deleted == s.mem[p].deleted
    requires t == s.(mem := s.mem[p := h], pollfds := pollfds)
    ensures HandlersValid(t) && forall depth: nat :: NodesRely(depth, s, t)
  {
    assert t.mem.Keys == s.mem.Keys;
    assert forall q, fd :: Serves(t, q, fd) ==> Serves(s, q, fd);
  }

  /** Changing a node in place, giving up its claim on the poll array at most. */
  lemma UpdateKeeps(s: HandlerState, t: HandlerState, p: Ptr, h: Handler)
    requires HandlersValid(s) && p in s.mem && h.fd == s.mem[p].fd && h.deleted == s.mem[p].deleted
    requires h.pollfdsIdx == -1 || h.pollfdsIdx == s.mem[p].pollfdsIdx
    requires t == s.(mem := s.mem[p := h])
    ensures HandlersValid(t) && forall depth: nat :: HandlersRely(depth, s, t)
  {
    RewriteKeeps(s, t, p, h, s.pollfds);
  }

  lemma HandlersSetKeeps(s: HandlerState, node: Option<Ptr>, fd: int, ioRead: bool, ioWrite: bool, ioFlush: bool)
    requires HandlersValid(s)
    requires node.Some? ==> node.value in s.list && Serves(s, node.value, fd)
    requires node.None? ==> forall p :: !Serves(s, p, fd)
    ensures var t := HandlersSet(s, node, fd, ioRead, ioWrite, ioFlush);
            HandlersValid(t) && (forall depth: nat :: HandlersRely(depth, s, t))
  {
    var t := HandlersSet(s, node, fd, ioRead, ioWrite, ioFlush);
    if !ioRead && !ioWrite {
      if node.Some? {
        if s.walking > 0 { MarkKeeps(s, t, node.value); } else { RemoveKeeps(s, t, node.value); }
      }
    } else if node.None? {
      InsertKeeps(s, t, t.mem[s.limit]);
    } else {
      UpdateKeeps(s, t, node.value, t.mem[node.value]);
    }
  }

  /** Calling a callback of the node. A flush callback does not count as progress: `idle`. */
  ghost function NodeCall(s: HandlerState, e: Event): HandlerState {
    s.(trace := s.trace + [e])
  }

  lemma NodeCallKeeps(d: nat, s: HandlerState, e: Event)
    requires HandlersValid(s) && e.Called? && e.p in s.mem && !s.mem[e.p].deleted && e.depth == d + 1
    ensures HandlersValid(NodeCall(s, e)) && HandlersRely(d, s, NodeCall(s, e))
    ensures NodeCall(s, e).trace[|s.trace|..] == [e]
  {
    WellKeptSnoc(s.list, s.mem.Keys, s.limit, s.walking, s.trace, e);
    assert NodeCall(s, e).trace[|s.trace|..] == [e];
    assert forall q, fd :: Serves(NodeCall(s, e), q, fd) <==> Serves(s, q, fd);
  }

  ghost function NodesEnter(s: HandlerState): HandlerState {
    s.(walking := s.walking + 1, trace := s.trace + [Enter])
  }

  ghost function NodesLeave(s: HandlerState): HandlerState
    requires s.walking > 0
  {
    s.(walking := s.walking - 1, trace := s.trace + [Leave])
  }

  lemma NodesEnterKeeps(s: HandlerState)
    requires HandlersValid(s)
    ensures HandlersValid(NodesEnter(s))
  {
    WellKeptSnoc(s.list, s.mem.Keys, s.limit, s.walking, s.trace, Enter);
    assert forall p, fd :: Serves(NodesEnter(s), p, fd) <==> Serves(s, p, fd);
  }

  lemma NodesLeaveKeeps(s: HandlerState)
    requires HandlersValid(s) && s.walking > 0
    ensures HandlersValid(NodesLeave(s))
  {
    WellKeptSnoc(s.list, s.mem.Keys, s.limit, s.walking, s.trace, Leave);
    assert forall p, fd :: Serves(NodesLeave(s), p, fd) <==> Serves(s, p, fd);
  }

  /** What happened between entering a walk in `s` and leaving it in `t`, seen from outside. */
  lemma NodesInside(d: nat, s: HandlerState, t: HandlerState)
    requires NodesRely(d, NodesEnter(s), t)
    ensures NodesRely(d, s, NodesLeave(t))
    ensures IdxRely(NodesEnter(s), t) ==> IdxRely(s, NodesLeave(t))
    ensures forall k: nat :: DirectCall(NodesLeave(t).trace[|s.trace|..], k) <==>
                               DirectCall(t.trace[|NodesEnter(s).trace|..], k)
    ensures forall k: nat :: BusyCall(NodesLeave(t).trace[|s.trace|..], k) <==>
                               BusyCall(t.trace[|NodesEnter(s).trace|..], k)
  {
    var u := NodesLeave(t);
    var inner := t.trace[|NodesEnter(s).trace|..];
    assert u.trace[|s.trace|..] == [Enter] + inner + [Leave];
    assert forall e :: e in u.trace[|s.trace|..] && e.Called? <==> e in inner && e.Called?;
  }

  /** Both lists end in the same `k` nodes. */
  ghost predicate SameTail(s: seq<Ptr>, t: seq<Ptr>, k: nat) {
    k <= |s| && k <= |t| && s[|s| - k..] == t[|t| - k..]
  }

  lemma SuffixTail(s: seq<Ptr>, t: seq<Ptr>, k: nat)
    requires IsSuffix(s, t) && k <= |s|
    ensures SameTail(s, t, k)
  {
    assert t[|t| - k..] == t[|t| - |s|..][|s| - k..];
  }

  lemma TailShrink(s: seq<Ptr>, t: seq<Ptr>, u: seq<Ptr>, j: nat, k: nat)
    requires j <= k && SameTail(s, t, k) && SameTail(t, u, j)
    ensures SameTail(s, u, j)
  {
    assert s[|s| - j..] == s[|s| - k..][k - j..];
    assert t[|t| - j..] == t[|t| - k..][k - j..];
  }

  lemma AtTail(s: seq<Ptr>, t: seq<Ptr>, k: nat, cur: Option<Ptr>)
    requires SameTail(s, t, k) && At(s, k, cur)
    ensures At(t, k, cur)
  {
  }

  lemma UnlinkTail(list: seq<Ptr>, rem: nat, p: Ptr)
    requires NoDup(list) && At(list, rem, Some(p)) && p in list
    ensures rem > 0
    ensures var i := IndexOf(list, p); SameTail(list, list[..i] + list[i + 1..], rem - 1)
  {
    AtNext(list, rem, p);
    var i := IndexOf(list, p);
    assert i == |list| - rem;
    CutTail(list, i);
  }

  lemma CutTail(list: seq<Ptr>, i: nat)
    requires i < |list|
    ensures SameTail(list, list[..i] + list[i + 1..], |list| - i - 1)
  {
    var l := list[..i] + list[i + 1..];
    assert l[i..] == list[i + 1..];
  }

  /** Once freed, always freed; a node deleted in `s` is marked if it is still there in `t`. */
  lemma DeletedStays(s: HandlerState, t: HandlerState, p: Ptr)
    requires HandlersValid(s) && HandlersValid(t) && s.trace <= t.trace
    ensures EverFreed(s.trace, p) ==> EverFreed(t.trace, p)
    ensures p in s.mem && s.mem[p].deleted && p in t.mem ==> t.mem[p].deleted
  {
  }

  lemma HandlersRelyFacts(depth: nat, s: HandlerState, t: HandlerState)
    requires NodesRely(depth, s, t)
    ensures s.walking == t.walking && s.trace <= t.trace
    ensures s.walking > 0 ==> IsSuffix(s.list, t.list) && s.mem.Keys <= t.mem.Keys
  {
  }

  /** Where the walk of aio_dispatch that began in `s` stands in `t`. */
  ghost predicate NodeWalk(d: nat, s: HandlerState, t: HandlerState, rem: nat, cur: Option<Ptr>, progress: bool) {
    && SameTail(s.list, t.list, rem) && At(t.list, rem, cur)
    && HandlersRely(d, s, t)
    && (progress <==> DirectCall(t.trace[|s.trace|..], d + 1)) && !BusyCall(t.trace[|s.trace|..], d + 1)
    && (s.walking == 0 ==> FreedUpTo(s, |s.list| - rem, t.trace))
  }

  /** Of the first `k` nodes, those deleted in `s` are freed. */
  ghost predicate FreedUpTo(s: HandlerState, k: nat, trace: seq<Event>)
    requires k <= |s.list|
  {
    forall i :: 0 <= i < k && s.list[i] in s.mem && s.mem[s.list[i]].deleted ==> EverFreed(trace, s.list[i])
  }

  lemma FreedNext(s: HandlerState, k: nat, t: HandlerState, u: HandlerState)
    requires k < |s.list| && FreedUpTo(s, k, t.trace) && t.trace <= u.trace
    requires s.list[k] in s.mem && s.mem[s.list[k]].deleted ==> EverFreed(u.trace, s.list[k])
    ensures FreedUpTo(s, k + 1, u.trace)
  {
  }

  lemma NodeWalkParts(d: nat, s: HandlerState, t: HandlerState, rem: nat, cur: Option<Ptr>, progress: bool)
    ensures NodeWalk(d, s, t, rem, cur, progress) <==>
              SameTail(s.list, t.list, rem) && At(t.list, rem, cur) && HandlersRely(d, s, t) &&
              (progress <==> DirectCall(t.trace[|s.trace|..], d + 1)) && !BusyCall(t.trace[|s.trace|..], d + 1) &&
              (s.walking == 0 ==> FreedUpTo(s, |s.list| - rem, t.trace))
    ensures NodeWalk(d, s, t, rem, cur, progress) ==> rem <= |s.list| && (cur.Some? ==> rem > 0 && cur.value in t.list)
  {
  }

  lemma NodeWalkStart(d: nat, s: HandlerState)
    ensures NodeWalk(d, s, s, |s.list|, First(s.list), false)
  {
    assert s.list[0..] == s.list;
  }

  lemma NodeWalkEnd(d: nat, s: HandlerState, t: HandlerState, rem: nat, progress: bool)
    requires HandlersValid(s) && HandlersValid(t) && NodeWalk(d, s, t, rem, None, progress)
    ensures HandlersRely(d, s, t)
    ensures (progress <==> DirectCall(t.trace[|s.trace|..], d + 1)) && !BusyCall(t.trace[|s.trace|..], d + 1)
    ensures s.walking == 0 ==>
              forall p :: p in s.mem && s.mem[p].deleted ==> EverFreed(t.trace, p) && p !in t.mem
  {
    assert rem == 0;
    forall p | s.walking == 0 && p in s.mem && s.mem[p].deleted
      ensures EverFreed(t.trace, p) && p !in t.mem
    {
      assert p == s.list[IndexOf(s.list, p)];
    }
  }

  lemma EmptyTail(trace: seq<Event>)
    ensures trace[|trace|..] == [] && forall d: nat :: !DirectCall(trace[|trace|..], d) && !BusyCall(trace[|trace|..], d)
  {
  }

  lemma NodeWalkStep(d: nat, s: HandlerState, t: HandlerState, u: HandlerState, rem: nat, p: Ptr, next: Option<Ptr>,
                     progress: bool, worked: bool)
    requires HandlersValid(s) && HandlersValid(t) && HandlersValid(u)
    requires NodeWalk(d, s, t, rem, Some(p), progress) && rem > 0
    requires HandlersRely(d, t, u)
    requires SameTail(t.list, u.list, rem - 1) && At(u.list, rem - 1, next)
    requires (worked <==> DirectCall(u.trace[|t.trace|..], d + 1)) && !BusyCall(u.trace[|t.trace|..], d + 1)
    requires s.walking == 0 && p in t.mem && t.mem[p].deleted ==> EverFreed(u.trace, p)
    ensures NodeWalk(d, s, u, rem - 1, next, progress || worked)
  {
    hide *;
    NodeWalkParts(d, s, t, rem, Some(p), progress);
    HandlersRelySplit(d, s, t);
    HandlersRelySplit(d, t, u);
    HandlersRelyFacts(d, s, t);
    HandlersRelyFacts(d, t, u);
    TailShrink(s.list, t.list, u.list, rem - 1, rem);
    HandlersRelyTrans(d, d, s, t, u);
    TraceSplit(s.trace, t.trace, u.trace);
    EventsJoin(t.trace[|s.trace|..], u.trace[|t.trace|..]);
    if s.walking == 0 {
      TailHead(s.list, t.list, rem, p);
      HandlersLinked(t);
      DeletedStays(s, t, p);
      FreedNext(s, |s.list| - rem, t, u);
    }
    NodeWalkParts(d, s, u, rem - 1, next, progress || worked);
  }

  lemma TailHead(s: seq<Ptr>, t: seq<Ptr>, rem: nat, p: Ptr)
    requires SameTail(s, t, rem) && At(t, rem, Some(p)) && rem > 0
    ensures s[|s| - rem] == p && p in t
  {
    assert s[|s| - rem] == s[|s| - rem..][0];
  }

  lemma HandlersRelySplit(depth: nat, s: HandlerState, t: HandlerState)
    ensures HandlersRely(depth, s, t) <==> NodesRely(depth, s, t) && IdxRely(s, t)
  {
  }

  /** After the callbacks of the node `p` have run, the walk can go on from it. */
  lemma VisitFacts(d: nat, s: HandlerState, t: HandlerState, rem: nat, p: Ptr)
    requires HandlersValid(s) && HandlersValid(t) && At(s.list, rem, Some(p)) && p in s.mem
    requires HandlersRely(d, NodesEnter(s), t)
    ensures rem > 0 && p in t.list && p in t.mem && At(t.list, rem, Some(p))
    ensures SameTail(s.list, t.list, rem - 1) && At(t.list, rem - 1, Next(t.list, p))
    ensures HandlersRely(d, s, NodesLeave(t))
    ensures s.mem[p].deleted ==> t.mem[p].deleted
    ensures DirectCall(NodesLeave(t).trace[|s.trace|..], d + 1) <==>
              DirectCall(t.trace[|NodesEnter(s).trace|..], d + 1)
    ensures BusyCall(NodesLeave(t).trace[|s.trace|..], d + 1) <==>
              BusyCall(t.trace[|NodesEnter(s).trace|..], d + 1)
  {
    hide *;
    HandlersRelySplit(d, NodesEnter(s), t);
    HandlersRelyFacts(d, NodesEnter(s), t);
    EnterFields(s);
    HandlersLinked(s);
    HandlersLinked(t);
    AtNext(s.list, rem, p);
    AtSuffix(s.list, t.list, rem, Some(p));
    AtNext(t.list, rem, p);
    AtBound(s.list, rem, Some(p));
    SuffixTail(s.list, t.list, rem - 1);
    NodesInside(d, s, t);
    LeaveFields(t);
    HandlersRelySplit(d, s, NodesLeave(t));
    DeletedStays(s, t, p);
  }

  lemma EnterFields(s: HandlerState)
    ensures NodesEnter(s) == s.(walking := s.walking + 1, trace := s.trace + [Enter])
    ensures s.trace <= NodesEnter(s).trace
  {
  }

  lemma LeaveFields(s: HandlerState)
    requires s.walking > 0
    ensures NodesLeave(s) == s.(walking := s.walking - 1, trace := s.trace + [Leave])
    ensures s.trace <= NodesLeave(s).trace
  {
  }

  lemma AtBound(list: seq<Ptr>, rem: nat, cur: Option<Ptr>)
    requires At(list, rem, cur)
    ensures rem <= |list|
  {
  }

  /** Freeing the visited node afterwards keeps the rest of the walk. */
  lemma UnlinkVisited(d: nat, s: HandlerState, u: HandlerState, v: HandlerState, rem: nat, p: Ptr)
    requires HandlersValid(s) && HandlersValid(u) && u.walking == 0
    requires p in u.list && p in u.mem && u.mem[p].deleted && At(u.list, rem, Some(p))
    requires rem > 0 && SameTail(s.list, u.list, rem - 1) && At(u.list, rem - 1, Next(u.list, p))
    requires HandlersRely(d, s, u) && s.walking == 0
    requires var i := IndexOf(u.list, p);
             v == u.(list := u.list[..i] + u.list[i + 1..], mem := u.mem - {p}, trace := u.trace + [Freed(p)])
    ensures HandlersValid(v) && HandlersRely(d, s, v)
    ensures SameTail(s.list, v.list, rem - 1) && At(v.list, rem - 1, Next(u.list, p))
    ensures EverFreed(v.trace, p)
    ensures DirectCall(v.trace[|s.trace|..], d + 1) <==> DirectCall(u.trace[|s.trace|..], d + 1)
    ensures BusyCall(v.trace[|s.trace|..], d + 1) <==> BusyCall(u.trace[|s.trace|..], d + 1)
  {
    hide *;
    HandlersLinked(u);
    DeletedOnRecord(u, p);
    UnlinkKeeps(u, v, p);
    HandlersRelyTrans(d, d, s, u, v);
    UnlinkTail(u.list, rem, p);
    TailShrink(s.list, u.list, v.list, rem - 1, rem - 1);
    AtTail(u.list, v.list, rem - 1, Next(u.list, p));
    HandlersRelySplit(d, s, u);
    HandlersRelyFacts(d, s, u);
    FreedLast(s.trace, u.trace, p);
  }

  lemma DeletedOnRecord(s: HandlerState, p: Ptr)
    requires HandlersValid(s) && p in s.mem
    ensures s.mem[p].deleted <==> EverDeleted(s.trace, p)
  {
  }

  lemma FreedLast(r: seq<Event>, s: seq<Event>, p: Ptr)
    requires r <= s
    ensures EverFreed(s + [Freed(p)], p)
    ensures forall d: nat :: DirectCall((s + [Freed(p)])[|r|..], d) <==> DirectCall(s[|r|..], d)
    ensures forall d: nat :: BusyCall((s + [Freed(p)])[|r|..], d) <==> BusyCall(s[|r|..], d)
  {
    assert (s + [Freed(p)])[|s|] == Freed(p);
    assert (s + [Freed(p)])[|r|..] == s[|r|..] + [Freed(p)];
  }

  /** Every node except possibly the last `k` holds a valid claim on the poll array. */
  ghost predicate ClaimsOk(s: HandlerState, k: nat)
    requires k <= |s.list|
  {
    forall p :: p in s.mem && p !in s.list[|s.list| - k..] ==> IdxOk(s, p)
  }

  /** Callbacks, even ones that rebuild the poll array, keep the claims. */
  lemma ClaimsRely(depth: nat, s: HandlerState, t: HandlerState, k: nat)
    requires k <= |s.list| && ClaimsOk(s, k) && SameTail(s.list, t.list, k)
    requires SameFds(s, t) && IdxRely(s, t)
    ensures ClaimsOk(t, k)
  {
  }

  /** Dropping the claim of the node being visited leaves one node less to visit. */
  lemma ClaimsDrop(s: HandlerState, t: HandlerState, rem: nat, p: Ptr)
    requires HandlersValid(s) && At(s.list, rem, Some(p)) && p in s.mem && 0 < rem && ClaimsOk(s, rem)
    requires t == s.(mem := s.mem[p := s.mem[p].(pollfdsIdx := -1)])
    ensures ClaimsOk(t, rem - 1)
  {
    hide WellKept;
    var l := s.list;
    assert l[|l| - rem..] == [p] + l[|l| - (rem - 1)..];
  }

  /** Appending an entry for the node and letting it claim that entry. */
  lemma ClaimsAdd(s: HandlerState, t: HandlerState, k: nat, p: Ptr)
    requires HandlersValid(s) && k <= |s.list| && p in s.mem && ClaimsOk(s, k) && s.walking > 0
    requires t == s.(mem := s.mem[p := s.mem[p].(pollfdsIdx := |s.pollfds|)],
                     pollfds := s.pollfds + [PollFd(s.mem[p].fd, s.mem[p].events)])
    ensures HandlersValid(t) && ClaimsOk(t, k) && forall depth: nat :: NodesRely(depth, s, t)
  {
    RewriteKeeps(s, t, p, t.mem[p], t.pollfds);
    hide HandlersValid, NodesRely;
    assert forall q :: q in s.mem && IdxOk(s, q) ==> IdxOk(t, q);
  }

  lemma ClaimsEnd(s: HandlerState)
    requires ClaimsOk(s, 0)
    ensures AllIdxOk(s)
  {
    assert s.list[|s.list|..] == [];
  }

  lemma ClaimsStart(s: HandlerState)
    requires HandlersValid(s)
    ensures ClaimsOk(s, |s.list|)
  {
    assert s.list[0..] == s.list;
  }

  /** What a node is told once g_poll has answered. */
  function Answered(h: Handler, answers: seq<Events>): Handler {
    if 0 <= h.pollfdsIdx < |answers| then h.(revents := answers[h.pollfdsIdx]) else h
  }

  lemma AnsweredMeans(s: HandlerState, p: Ptr, answers: seq<Events>)
    requires AllIdxOk(s) && p in s.mem && |answers| == |s.pollfds|
    ensures IdxOk(s, p)
    ensures Answered(s.mem[p], answers) ==
            if s.mem[p].pollfdsIdx == -1 then s.mem[p] else s.mem[p].(revents := answers[s.mem[p].pollfdsIdx])
  {
  }

  lemma FlushFacts(d: nat, s: HandlerState, t: HandlerState, u: HandlerState, e: Event, k: nat)
    requires HandlersValid(s) && HandlersValid(t) && HandlersValid(u) && s.walking > 0
    requires e.Called? && e.idle && e.depth == d + 1 && e.p in s.mem
    requires t == NodeCall(s, e) && HandlersRely(d, s, t) && HandlersRely(d + 1, t, u)
    requires k <= |s.list| && ClaimsOk(s, k)
    ensures NodesRely(d, s, u) && e.p in u.mem && s.walking == u.walking
    ensures k <= |u.list| && ClaimsOk(u, k)
    ensures s.trace <= u.trace && !DirectCall(u.trace[|s.trace|..], d + 1)
    ensures BusyCall(u.trace[|s.trace|..], d + 1) <==> e.answer != 0
  {
    hide HandlersValid, ClaimsOk, IdxRely, HandlersRely;
    HandlersRelySplit(d, s, t);
    HandlersRelySplit(d + 1, t, u);
    HandlersRelyTrans(d, d + 1, s, t, u);
    HandlersRelySplit(d, s, u);
    SuffixTail(s.list, u.list, k);
    ClaimsRely(d, s, u, k);
    TraceSplit(s.trace, t.trace, u.trace);
    assert t.trace[|s.trace|..] == [e];
    assert e in u.trace[|s.trace|..];
  }

  lemma EmptyArrayKeeps(s: HandlerState)
    requires HandlersValid(s)
    ensures HandlersValid(s.(pollfds := [])) && forall depth: nat :: NodesRely(depth, s, s.(pollfds := []))
  {
    assert forall q, fd :: Serves(s.(pollfds := []), q, fd) <==> Serves(s, q, fd);
  }

  lemma Distinct(list: seq<Ptr>)
    requires NoDup(list)
    ensures forall i, j :: 0 <= i < j < |list| ==> list[i] != list[j]
  {
  }

  lemma RelyTransAll(r: HandlerState, s: HandlerState, t: HandlerState)
    requires HandlersValid(r) && HandlersValid(s)
    requires forall depth: nat :: HandlersRely(depth, r, s) && HandlersRely(depth, s, t)
    ensures forall depth: nat :: HandlersRely(depth, r, t)
  {
    hide HandlersValid, HandlersRely;
    forall depth: nat ensures HandlersRely(depth, r, t) {
      HandlersRelyTrans(depth, depth, r, s, t);
    }
  }

  lemma AtFirst(list: seq<Ptr>)
    ensures At(list, |list|, First(list))
  {
    assert list[0..] == list;
  }

  lemma AtNone(list: seq<Ptr>, rem: nat)
    requires At(list, rem, None)
    ensures rem == 0
  {
  }

  lemma NodeThere(s: HandlerState, rem: nat, p: Ptr)
    requires HandlersValid(s) && At(s.list, rem, Some(p))
    ensures p in s.mem && 0 < rem <= |s.list|
  {
    hide WellKept;
    HandlersLinked(s);
    AtNext(s.list, rem, p);
  }

  lemma FillStep(d: nat, s: HandlerState, t: HandlerState, u: HandlerState, rem: nat, p: Ptr)
    requires HandlersValid(s) && HandlersValid(t) && HandlersValid(u) && s.walking > 0
    requires NodesRely(d, s, t) && NodesRely(d, t, u)
    requires At(t.list, rem, Some(p)) && rem > 0
    requires s.trace <= t.trace && t.trace <= u.trace
    requires !DirectCall(t.trace[|s.trace|..], d + 1) && !DirectCall(u.trace[|t.trace|..], d + 1)
    ensures NodesRely(d, s, u) && p in u.list
    ensures rem - 1 <= |u.list| && At(u.list, rem - 1, Next(u.list, p))
    ensures s.trace <= u.trace && !DirectCall(u.trace[|s.trace|..], d + 1)
    ensures BusyCall(u.trace[|s.trace|..], d + 1) <==>
              BusyCall(t.trace[|s.trace|..], d + 1) || BusyCall(u.trace[|t.trace|..], d + 1)
  {
    hide *;
    NodesRelyTrans(d, d, s, t, u);
    HandlersRelyFacts(d, s, t);
    HandlersRelyFacts(d, t, u);
    AtSuffix(t.list, u.list, rem, Some(p));
    HandlersLinked(u);
    AtNext(u.list, rem, p);
    AtBound(u.list, rem, Some(p));
    TraceSplit(s.trace, t.trace, u.trace);
    EventsJoin(t.trace[|s.trace|..], u.trace[|t.trace|..]);
  }

  /** Where the loop that fills the poll array, begun in `b0` and `s0`, stands in `b` and `t`. */
  ghost predicate Filling(d: nat, b0: BhState, s0: HandlerState, b: BhState, t: HandlerState, rem: nat, node: Option<Ptr>, busy: bool) {
    && BhRely(d + 1, b0, b) && NodesRely(d, s0, t)
    && rem <= |t.list| && At(t.list, rem, node) && ClaimsOk(t, rem)
    && s0.trace <= t.trace && !DirectCall(t.trace[|s0.trace|..], d + 1)
    && (busy <==> BusyCall(t.trace[|s0.trace|..], d + 1))
  }

  lemma FillingStart(d: nat, b0: BhState, s0: HandlerState)
    requires HandlersValid(s0.(pollfds := [])) && NodesRely(d, s0, s0.(pollfds := []))
    ensures Filling(d, b0, s0, b0, s0.(pollfds := []), |s0.list|, First(s0.list), false)
  {
    hide HandlersValid, NodesRely, ClaimsOk, BhRely, HandlersRely, DirectCall, BusyCall, At, First;
    NoChange(b0, s0);
    ClaimsStart(s0.(pollfds := []));
    EmptyTail(s0.trace);
    AtFirst(s0.list);
  }

  lemma FillingHere(d: nat, b0: BhState, s0: HandlerState, b: BhState, t: HandlerState, rem: nat, p: Ptr, busy: bool)
    requires HandlersValid(t) && Filling(d, b0, s0, b, t, rem, Some(p), busy)
    ensures p in t.mem && 0 < rem <= |t.list| && At(t.list, rem, Some(p)) && ClaimsOk(t, rem)
  {
    hide HandlersValid, NodesRely, ClaimsOk, BhRely, DirectCall, BusyCall, At;
    NodeThere(t, rem, p);
  }

  lemma FillingStep(d: nat, b0: BhState, s0: HandlerState, b1: BhState, t: HandlerState, b2: BhState, u: HandlerState,
                    rem: nat, p: Ptr, busy: bool, b: bool)
    requires HandlersValid(s0) && HandlersValid(t) && HandlersValid(u) && s0.walking > 0 && rem > 0
    requires Filling(d, b0, s0, b1, t, rem, Some(p), busy)
    requires BhRely(d + 1, b1, b2) && NodesRely(d, t, u) && rem - 1 <= |u.list| && ClaimsOk(u, rem - 1)
    requires t.trace <= u.trace && !DirectCall(u.trace[|t.trace|..], d + 1) && (b <==> BusyCall(u.trace[|t.trace|..], d + 1))
    ensures p in u.list && Filling(d, b0, s0, b2, u, rem - 1, Next(u.list, p), busy || b)
  {
    hide HandlersValid, NodesRely, ClaimsOk, BhRely, DirectCall, BusyCall, At, Next;
    BhRelyTrans(d + 1, d + 1, b0, b1, b2);
    FillStep(d, s0, t, u, rem, p);
  }

  lemma FillingEnd(d: nat, b0: BhState, s0: HandlerState, b: BhState, t: HandlerState, rem: nat, busy: bool)
    requires Filling(d, b0, s0, b, t, rem, None, busy)
    ensures BhRely(d + 1, b0, b) && NodesRely(d, s0, t) && AllIdxOk(t)
    ensures s0.trace <= t.trace && !DirectCall(t.trace[|s0.trace|..], d + 1) && (busy <==> BusyCall(t.trace[|s0.trace|..], d + 1))
  {
    hide NodesRely, ClaimsOk, BhRely, DirectCall, BusyCall, At, AllIdxOk;
    AtNone(t.list, rem);
    ClaimsEnd(t);
  }

  /** Code that is nested deeper is nested deep enough. */
  lemma DeeperRely(d: nat, inner: nat, b: BhState, c: BhState, s: HandlerState, t: HandlerState)
    requires d <= inner
    ensures BhRely(inner, b, c) ==> BhRely(d, b, c)
    ensures HandlersRely(inner, s, t) ==> HandlersRely(d, s, t)
  {
  }

  /** Two phases of a poll in a row. */
  lemma PollStep(d: nat, b0: BhState, b1: BhState, b2: BhState, h0: HandlerState, h1: HandlerState, h2: HandlerState)
    requires BhRely(d, b0, b1) && BhRely(d, b1, b2)
    requires HandlersValid(h0) && HandlersValid(h1)
    requires HandlersRely(d, h0, h1) && HandlersRely(d, h1, h2)
    ensures BhRely(d, b0, b2) && HandlersRely(d, h0, h2)
    ensures b0.trace <= b1.trace <= b2.trace && h0.trace <= h1.trace <= h2.trace
    ensures forall b :: Settled(b, b1.trace[|b0.trace|..]) ==> Settled(b, b2.trace[|b0.trace|..])
    ensures forall b, k: nat :: HadTurn(b1.trace, |b0.trace|, b, k) ==> HadTurn(b2.trace, |b0.trace|, b, k)
    ensures forall p :: p in h0.mem && p !in h1.mem ==> p !in h2.mem
    ensures forall p :: p in h0.mem && h0.mem[p].deleted && p in h1.mem ==> h1.mem[p].deleted
    ensures forall k: nat :: DirectCall(b2.trace[|b0.trace|..], k) <==>
                               DirectCall(b1.trace[|b0.trace|..], k) || DirectCall(b2.trace[|b1.trace|..], k)
    ensures forall k: nat :: DirectCall(h2.trace[|h0.trace|..], k) <==>
                               DirectCall(h1.trace[|h0.trace|..], k) || DirectCall(h2.trace[|h1.trace|..], k)
    ensures forall k: nat :: BusyCall(h2.trace[|h0.trace|..], k) <==>
                               BusyCall(h1.trace[|h0.trace|..], k) || BusyCall(h2.trace[|h1.trace|..], k)
  {
    BhRelyTrans(d, d, b0, b1, b2);
    HandlersRelyTrans(d, d, h0, h1, h2);
    TraceSplit(b0.trace, b1.trace, b2.trace);
    TraceSplit(h0.trace, h1.trace, h2.trace);
    hide Settled, HadTurn, BhRely, HandlersRely, IdxRely, DirectCall, BusyCall;
    TurnsStay(b1.trace, b2.trace, |b0.trace|, |b0.trace|);
    EventsJoin(b1.trace[|b0.trace|..], b2.trace[|b1.trace|..]);
    EventsJoin(h1.trace[|h0.trace|..], h2.trace[|h1.trace|..]);
    HandlersRelySplit(d, h0, h1);
    HandlersRelySplit(d, h1, h2);
    assert forall p :: EverDeleted(h0.trace, p) ==> EverDeleted(h1.trace, p);
  }

  /** A handler called by the walk itself, and what is nested in the call. */
  lemma OwnCall(d: nat, s: HandlerState, t: HandlerState, u: HandlerState, e: Event)
    requires t == NodeCall(s, e) && HandlersRely(d + 1, t, u) && e.Called? && !e.idle && e.depth == d + 1
    ensures s.trace <= u.trace && DirectCall(u.trace[|s.trace|..], d + 1) && !BusyCall(u.trace[|s.trace|..], d + 1)
  {
    hide IdxRely, SameFds, IsSuffix;
    TraceSplit(s.trace, t.trace, u.trace);
    assert t.trace[|s.trace|..] == [e];
    assert e in u.trace[|s.trace|..];
  }

  /** Code nested deeper than a walk makes none of that walk's own calls. */
  lemma NoOwnCalls(d: nat, b: BhState, c: BhState, s: HandlerState, t: HandlerState)
    ensures BhRely(d + 1, b, c) ==> !DirectCall(c.trace[|b.trace|..], d + 1)
    ensures HandlersRely(d + 1, s, t) ==> !DirectCall(t.trace[|s.trace|..], d + 1) && !BusyCall(t.trace[|s.trace|..], d + 1)
  {
  }

  // ---------------------------------------------------------------- the context

  class AioContext {
    var bhList: seq<Ptr>
    var bhs: map<Ptr, Bh>
    var bhLimit: Ptr
    var walkingBh: nat
    var handlers: seq<Ptr>
    var nodes: map<Ptr, Handler>
    var nodeLimit: Ptr
    var walkingHandlers: nat
    var pollfds: seq<PollFd>
    ghost var bhTrace: seq<Event>
    ghost var nodeTrace: seq<Event>

    ghost function Bhs(): BhState
      reads this
    {
      BhState(bhList, bhs, bhLimit, walkingBh, bhTrace)
    }

    ghost function Nodes(): HandlerState
      reads this
    {
      HandlerState(handlers, nodes, nodeLimit, walkingHandlers, nodeTrace, pollfds)
    }

    /** How many walks, of either list, are under way. */
    ghost function Level(): nat
      reads this
    {
      walkingBh + walkingHandlers
    }

    ghost predicate Valid()
      reads this
    {
      BhValid(Bhs()) && HandlersValid(Nodes())
    }

    constructor ()
      ensures Valid() && bhList == [] && handlers == [] && walkingBh == 0 && walkingHandlers == 0
    {
      bhList, bhs, bhLimit, walkingBh, bhTrace := [], map[], 0, 0, [];
      handlers, nodes, nodeLimit, walkingHandlers, nodeTrace, pollfds := [], map[], 0, 0, [], [];
    }

    /** aio_bh_new */
    method BhNew() returns (b: Ptr)
      requires Valid()
      modifies this
      ensures Valid() && Bhs() == BhAdd(old(Bhs())) && Nodes() == old(Nodes())
      ensures b in bhs && b !in old(bhs) && bhList[0] == b
    {
      assert bhLimit !in bhs;
      hide WellKept, BhValid, BhRely, HandlersValid;
      BhAddKeeps(Bhs());
      b := bhLimit;
      bhs := bhs[b := Bh(false, false, false)];
      bhList := [b] + bhList;
      bhLimit := bhLimit + 1;
    }

    /** qemu_bh_schedule (idle == false) and qemu_bh_schedule_idle (idle == true) */
    method BhSchedule(b: Ptr, idle: bool)
      requires Valid() && b in bhs
      modifies this
      ensures Valid() && Bhs() == BhSet(old(Bhs()), b, idle) && Nodes() == old(Nodes())
    {
      hide WellKept, BhValid, BhRely, HandlersValid;
      BhSetKeeps(Bhs(), b, idle);
      if bhs[b].scheduled {
        return;
      }
      bhs := bhs[b := bhs[b].(scheduled := true, idle := idle)];
      bhTrace := bhTrace + [Scheduled(b)];
    }

    /** qemu_bh_cancel */
    method BhCancel(b: Ptr)
      requires Valid() && b in bhs
      modifies this
      ensures Valid() && Nodes() == old(Nodes())
      ensures Bhs() == BhNote(old(Bhs()), b, old(bhs[b]).(scheduled := false), Cancelled(b))
    {
      hide WellKept, BhValid, BhRely, HandlersValid;
      BhNoteKeeps(Bhs(), b, bhs[b].(scheduled := false), Cancelled(b));
      bhs := bhs[b := bhs[b].(scheduled := false)];
      bhTrace := bhTrace + [Cancelled(b)];
    }

    /** qemu_bh_delete: only marks; the memory goes when no walk needs it */
    method BhDelete(b: Ptr)
      requires Valid() && b in bhs
      modifies this
      ensures Valid() && Nodes() == old(Nodes())
      ensures Bhs() == BhNote(old(Bhs()), b, old(bhs[b]).(scheduled := false, deleted := true), Deleted(b))
    {
      hide WellKept, BhValid, BhRely, HandlersValid;
      BhNoteKeeps(Bhs(), b, bhs[b].(scheduled := false, deleted := true), Deleted(b));
      bhs := bhs[b := bhs[b].(scheduled := false, deleted := true)];
      bhTrace := bhTrace + [Deleted(b)];
    }

    /** Everything a callback does in one invocation. A caller may not use a freed bottom half;
        using one that is deleted but not yet freed is allowed. */
    method RunCmds(cmds: seq<Cmd>)
      requires Valid()
      modifies this
      ensures Valid() && walkingBh == old(walkingBh) && walkingHandlers == old(walkingHandlers)
      ensures BhRely(old(Level()), old(Bhs()), Bhs())
      ensures HandlersRely(old(Level()), old(Nodes()), Nodes())
      decreases cmds, 1
    {
      hide WellKept, BhValid, BhRely, HandlersValid, HandlersRely;
      NoChange(Bhs(), Nodes());
      for i := 0 to |cmds|
        invariant Valid() && walkingBh == old(walkingBh) && walkingHandlers == old(walkingHandlers)
        invariant BhRely(old(Level()), old(Bhs()), Bhs())
        invariant HandlersRely(old(Level()), old(Nodes()), Nodes())
      {
        ghost var s, h := Bhs(), Nodes();
        RunCmd(cmds[i]);
        BhRelyTrans(old(Level()), old(Level()), old(Bhs()), s, Bhs());
        HandlersRelyTrans(old(Level()), old(Level()), old(Nodes()), h, Nodes());
      }
    }

    method RunCmd(c: Cmd)
      requires Valid()
      modifies this
      ensures Valid() && walkingBh == old(walkingBh) && walkingHandlers == old(walkingHandlers)
      ensures BhRely(old(Level()), old(Bhs()), Bhs())
      ensures HandlersRely(old(Level()), old(Nodes()), Nodes())
      decreases c, 1
    {
      hide WellKept, BhValid, BhRely, HandlersValid, HandlersRely;
      NoChange(Bhs(), Nodes());
      match c
      case BhNew =>
        BhAddKeeps(Bhs());
        var b := BhNew();
      case BhSchedule(b) =>
        if b in bhs {
          BhSetKeeps(Bhs(), b, false);
          BhSchedule(b, false);
        }
      case BhScheduleIdle(b) =>
        if b in bhs {
          BhSetKeeps(Bhs(), b, true);
          BhSchedule(b, true);
        }
      case BhCancel(b) =>
        if b in bhs {
          BhNoteKeeps(Bhs(), b, bhs[b].(scheduled := false), Cancelled(b));
          BhCancel(b);
        }
      case BhDelete(b) =>
        if b in bhs {
          BhNoteKeeps(Bhs(), b, bhs[b].(scheduled := false, deleted := true), Deleted(b));
          BhDelete(b);
        }
      case SetFdHandler(fd, ioRead, ioWrite, ioFlush) =>
        SetFdHandler(fd, ioRead, ioWrite, ioFlush);
      case AioPoll(blocking, run) =>
        var progress := AioPoll(blocking, run);
    }

    /** The n-th invocation of a callback in a phase. */
    method RunNth(calls: seq<Call>, n: nat)
      requires Valid()
      modifies this
      ensures Valid() && walkingBh == old(walkingBh) && walkingHandlers == old(walkingHandlers)
      ensures BhRely(old(Level()), old(Bhs()), Bhs())
      ensures HandlersRely(old(Level()), old(Nodes()), Nodes())
      decreases calls, 0
    {
      hide WellKept, BhValid, HandlersValid, HandlersRely, NodesRely;
      NoChange(Bhs(), Nodes());
      if n < |calls| {
        RunCmds(calls[n].cmds);
      }
    }

    /** One turn of the walk in aio_bh_poll. Returns whether a non-idle bottom half was run. */
    method VisitBh(b: Ptr, calls: seq<Call>, n: nat) returns (ran: bool, worked: bool)
      requires Valid() && walkingBh > 0 && b in bhs
      modifies this
      ensures Valid() && walkingBh == old(walkingBh) && walkingHandlers == old(walkingHandlers)
      ensures BhRely(old(Level()) - 1, old(Bhs()), Bhs())
      ensures HandlersRely(old(Level()), old(Nodes()), Nodes())
      ensures ran <==> Pending(old(bhs)[b])
      ensures ran ==> Settled(b, bhTrace[|old(bhTrace)|..])
      ensures HadTurn(bhTrace, |old(bhTrace)|, b, Level())
      ensures worked <==> DirectCall(bhTrace[|old(bhTrace)|..], Level())
      decreases calls, 1
    {
      hide WellKept, BhValid, BhRely, HadTurn, Settled, DirectCall, HandlersValid, HandlersRely;
      NoChange(Bhs(), Nodes());
      ran, worked := false, false;
      if !bhs[b].deleted && bhs[b].scheduled {
        ran, worked := true, !bhs[b].idle;
        ghost var s, e := Bhs(), Called(b, bhs[b].idle, Level(), 0);
        BhNoteKeeps(s, b, bhs[b].(scheduled := false, idle := false), e);
        bhs := bhs[b := bhs[b].(scheduled := false, idle := false)];
        bhTrace := bhTrace + [e];
        ghost var t := Bhs();
        RunNth(calls, n);
        VisitRan(Level() - 1, s, t, Bhs(), b, t.mem[b], e);
      } else {
        VisitPassed(Level() - 1, Bhs(), b);
        bhTrace := bhTrace + [Passed(b, Level())];
      }
    }

    /** The walk of aio_bh_poll, whatever the callbacks do to the list meanwhile: every bottom half
        that was there at the start has its turn, in which it is called exactly if it is pending then;
        so those pending at the start are run, cancelled or deleted. */
    method WalkBhs(calls: seq<Call>) returns (ret: bool)
      requires Valid() && walkingBh > 0
      modifies this
      ensures Valid() && walkingBh == old(walkingBh) && walkingHandlers == old(walkingHandlers)
      ensures BhRely(old(Level()) - 1, old(Bhs()), Bhs())
      ensures HandlersRely(old(Level()), old(Nodes()), Nodes())
      ensures forall b :: b in old(bhs) ==> HadTurn(bhTrace, |old(bhTrace)|, b, Level())
      ensures forall b :: b in old(bhs) && Pending(old(bhs)[b]) ==> Settled(b, bhTrace[|old(bhTrace)|..])
      ensures ret <==> DirectCall(bhTrace[|old(bhTrace)|..], Level())
      decreases calls, 2
    {
      hide WellKept, BhValid, BhRely, BhWalk, HandlersValid, HandlersRely;
      NoChange(Bhs(), Nodes());
      ghost var s := Bhs();
      ghost var d := Level() - 1;
      BhWalkStart(d, s);
      ret := false;
      var n := 0;
      var bh := First(bhList);
      ghost var rem: nat := |bhList|;
      while bh.Some?
        invariant BhWalk(d, s, Bhs(), rem, bh, ret)
        invariant Valid() && HandlersRely(old(Level()), old(Nodes()), Nodes())
        invariant walkingBh == s.walking && walkingHandlers == old(walkingHandlers)
        decreases rem
      {
        var b := bh.value;
        BhLinked(Bhs());
        BhWalkAt(d, s, Bhs(), rem, b, ret);
        var next := Next(bhList, b);
        ghost var t, h := Bhs(), Nodes();
        var ran, worked := VisitBh(b, calls, n);
        BhWalkStep(d, s, t, Bhs(), rem, b, ret, worked);
        HandlersRelyTrans(old(Level()), old(Level()), old(Nodes()), h, Nodes());
        n := if ran then n + 1 else n;
        ret := ret || worked;
        bh := next;
        rem := rem - 1;
      }
      BhWalkEnd(d, s, Bhs(), ret);
    }

    /** The sweep of aio_bh_poll: unlink and free the deleted bottom halves, and only those. */
    method SweepBhs()
      requires Valid() && walkingBh == 0
      modifies this
      ensures Valid() && walkingBh == 0 && Nodes() == old(Nodes())
      ensures old(bhTrace) <= bhTrace && FreesOnly(bhTrace[|old(bhTrace)|..])
      ensures forall b :: b in bhs <==> b in old(bhs) && !old(bhs)[b].deleted
      ensures forall b :: b in bhs ==> bhs[b] == old(bhs)[b]
    {
      hide WellKept, BhValid, HandlersValid;
      ghost var s := Bhs();
      var i := 0;
      while i < |bhList|
        invariant BhSwept(s, Bhs(), i) && HandlersValid(Nodes()) && Nodes() == old(Nodes())
        decreases |bhList| - i
      {
        var b := bhList[i];
        BhLinked(Bhs());
        if bhs[b].deleted {
          BhFreeKeeps(s, Bhs(), i);
          bhList := bhList[..i] + bhList[i + 1..];
          bhs := bhs - {b};
          bhTrace := bhTrace + [Freed(b)];
        } else {
          i := i + 1;
        }
      }
      BhSweptEnd(s, Bhs());
    }

    /** aio_bh_poll: run every scheduled bottom half, then free the deleted ones if this is the
        outermost walk. */
    method AioBhPoll(calls: seq<Call>) returns (ret: bool)
      requires Valid()
      modifies this
      ensures Valid() && walkingBh == old(walkingBh) && walkingHandlers == old(walkingHandlers)
      ensures BhRely(old(Level()), old(Bhs()), Bhs())
      ensures HandlersRely(old(Level()) + 1, old(Nodes()), Nodes())
      ensures forall b :: b in old(bhs) ==> HadTurn(bhTrace, |old(bhTrace)|, b, old(Level()) + 1)
      ensures forall b :: b in old(bhs) && Pending(old(bhs)[b]) ==> Settled(b, bhTrace[|old(bhTrace)|..])
      ensures old(walkingBh) == 0 ==> forall b :: b in bhs ==> !bhs[b].deleted
      ensures ret <==> DirectCall(bhTrace[|old(bhTrace)|..], old(Level()) + 1)
      decreases calls, 3
    {
      hide WellKept, BhValid, BhRely, HadTurn, Settled, DirectCall, HandlersValid, HandlersRely;
      ghost var s := Bhs();
      BhEnterKeeps(s);
      walkingBh := walkingBh + 1;
      bhTrace := bhTrace + [Enter];
      ret := WalkBhs(calls);
      ghost var t := Bhs();
      BhRelyFacts(old(Level()), BhEnter(s), t);
      BhLeaveKeeps(t);
      walkingBh := walkingBh - 1;
      bhTrace := bhTrace + [Leave];
      if walkingBh == 0 {
        SweepBhs();
      }
      ghost var u := Bhs();
      assert u.trace[|t.trace| + 1..] == u.trace[|BhLeave(t).trace|..];
      BhWalkRely(old(Level()), s, t, u);
      WalkEvents(s, t, u);
      TurnsStay(t.trace, u.trace, |s.trace| + 1, |s.trace|);
    }
  
    /** find_aio_handler */
    method FindAioHandler(fd: int) returns (r: Option<Ptr>)
      requires Valid()
      ensures r == ServerOf(Nodes(), fd)
    {
      for i := 0 to |handlers|
        invariant forall j :: 0 <= j < i ==> !Serves(Nodes(), handlers[j], fd)
      {
        var p := handlers[i];
        if nodes[p].fd == fd && !nodes[p].deleted {
          assert Serves(Nodes(), p, fd);
          return Some(p);
        }
      }
      assert forall p :: p in nodes ==> p in handlers;
      return None;
    }

    /** The removing half of aio_set_fd_handler */
    method RemoveFdHandler(fd: int)
      requires Valid()
      modifies this
      ensures Valid() && Bhs() == old(Bhs())
      ensures Nodes() == HandlersSet(old(Nodes()), ServerOf(old(Nodes()), fd), fd, false, false, false)
    {
      hide WellKept, BhValid, HandlersValid, HandlersRely;
      var node := FindAioHandler(fd);
      HandlersLinked(Nodes());
      HandlersSetKeeps(Nodes(), node, fd, false, false, false);
      if node.Some? {
        var p := node.value;
        nodeTrace := nodeTrace + [Deleted(p)];
        if walkingHandlers > 0 {
          nodes := nodes[p := nodes[p].(deleted := true, revents := NoEvents)];
        } else {
          var i := IndexOf(handlers, p);
          handlers := handlers[..i] + handlers[i + 1..];
          nodes := nodes - {p};
          nodeTrace := nodeTrace + [Freed(p)];
        }
      }
    }

    /** The installing half of aio_set_fd_handler */
    method InstallFdHandler(fd: int, ioRead: bool, ioWrite: bool, ioFlush: bool)
      requires Valid() && (ioRead || ioWrite)
      modifies this
      ensures Valid() && Bhs() == old(Bhs())
      ensures Nodes() == HandlersSet(old(Nodes()), ServerOf(old(Nodes()), fd), fd, ioRead, ioWrite, ioFlush)
    {
      hide WellKept, BhValid, HandlersValid, HandlersRely;
      var node := FindAioHandler(fd);
      HandlersLinked(Nodes());
      HandlersSetKeeps(Nodes(), node, fd, ioRead, ioWrite, ioFlush);
      var events := Events(ioRead, ioWrite, ioRead, false);
      if node.None? {
        var p := nodeLimit;
        nodeLimit := nodeLimit + 1;
        nodes := nodes[p := Handler(fd, events, NoEvents, ioRead, ioWrite, ioFlush, false, -1)];
        handlers := [p] + handlers;
      } else {
        var p := node.value;
        nodes := nodes[p := nodes[p].(events := events, ioRead := ioRead, ioWrite := ioWrite,
                                      ioFlush := ioFlush, pollfdsIdx := -1)];
      }
    }

    /** aio_set_fd_handler */
    method SetFdHandler(fd: int, ioRead: bool, ioWrite: bool, ioFlush: bool)
      requires Valid()
      modifies this
      ensures Valid() && Bhs() == old(Bhs())
      ensures Nodes() == HandlersSet(old(Nodes()), ServerOf(old(Nodes()), fd), fd, ioRead, ioWrite, ioFlush)
      ensures HandlersRely(old(Level()), old(Nodes()), Nodes())
    {
      HandlersSetKeeps(Nodes(), ServerOf(Nodes(), fd), fd, ioRead, ioWrite, ioFlush);
      if !ioRead && !ioWrite {
        RemoveFdHandler(fd);
      } else {
        InstallFdHandler(fd, ioRead, ioWrite, ioFlush);
      }
    }
  
    /** One of the two guarded calls in the body of aio_dispatch. The guard is evaluated now: an
        earlier callback may have deleted the node or replaced its callbacks. */
    method CallIfReady(p: Ptr, revents: Events, write: bool, calls: seq<Call>, n: nat) returns (called: bool)
      requires Valid() && walkingHandlers > 0 && p in nodes
      modifies this
      ensures Valid() && walkingBh == old(walkingBh) && walkingHandlers == old(walkingHandlers) && p in nodes
      ensures BhRely(old(Level()), old(Bhs()), Bhs())
      ensures HandlersRely(old(Level()) - 1, old(Nodes()), Nodes())
      ensures called <==> !old(nodes)[p].deleted &&
                          (if write then (revents.output || revents.error) && old(nodes)[p].ioWrite
                           else (revents.input || revents.hangup || revents.error) && old(nodes)[p].ioRead)
      ensures called <==> DirectCall(nodeTrace[|old(nodeTrace)|..], old(Level()))
      ensures !BusyCall(nodeTrace[|old(nodeTrace)|..], old(Level()))
      decreases calls, 1
    {
      hide WellKept, BhValid, BhRely, HandlersValid, HandlersRely, NodesRely, IdxRely, DirectCall, BusyCall;
      NoChange(Bhs(), Nodes());
      EmptyTail(nodeTrace);
      var wanted := if write then (revents.output || revents.error) && nodes[p].ioWrite
                    else (revents.input || revents.hangup || revents.error) && nodes[p].ioRead;
      called := !nodes[p].deleted && wanted;
      if called {
        ghost var s, e := Nodes(), Called(p, false, Level(), 0);
        NodeCallKeeps(Level() - 1, s, e);
        nodeTrace := nodeTrace + [e];
        ghost var t := Nodes();
        RunNth(calls, n);
        HandlersRelySplit(Level(), t, Nodes());
        HandlersRelyFacts(Level(), t, Nodes());
        HandlersRelyTrans(Level() - 1, Level(), s, t, Nodes());
        OwnCall(Level() - 1, s, t, Nodes(), e);
      }
    }

    /** The calls aio_dispatch makes for one node, between taking and releasing the walking lock. */
    method DispatchNode(p: Ptr, calls: seq<Call>, n: nat) returns (count: nat, worked: bool)
      requires Valid() && walkingHandlers > 0 && p in nodes
      modifies this
      ensures Valid() && walkingBh == old(walkingBh) && walkingHandlers == old(walkingHandlers) && p in nodes
      ensures BhRely(old(Level()), old(Bhs()), Bhs())
      ensures HandlersRely(old(Level()) - 1, old(Nodes()), Nodes())
      ensures worked <==> DirectCall(nodeTrace[|old(nodeTrace)|..], old(Level()))
      ensures !BusyCall(nodeTrace[|old(nodeTrace)|..], old(Level()))
      decreases calls, 2
    {
      hide WellKept, BhValid, BhRely, HandlersValid, HandlersRely, NodesRely, IdxRely, DirectCall, BusyCall;
      var revents := And(nodes[p].revents, nodes[p].events);
      ghost var d := Level() - 1;
      ghost var b0, s0 := Bhs(), Nodes();
      NoChange(b0, s0);
      UpdateKeeps(s0, s0.(mem := s0.mem[p := s0.mem[p].(revents := NoEvents)]), p, s0.mem[p].(revents := NoEvents));
      nodes := nodes[p := nodes[p].(revents := NoEvents)];
      ghost var s1 := Nodes();
      var read := CallIfReady(p, revents, false, calls, n);
      ghost var b2, s2 := Bhs(), Nodes();
      var write := CallIfReady(p, revents, true, calls, if read then n + 1 else n);
      ghost var b3, s3 := Bhs(), Nodes();
      BhRelyTrans(d + 1, d + 1, b0, b2, b3);
      HandlersRelyTrans(d, d, s0, s1, s2);
      HandlersRelyTrans(d, d, s0, s2, s3);
      HandlersRelySplit(d, s0, s2);
      HandlersRelySplit(d, s2, s3);
      HandlersRelyFacts(d, s0, s2);
      HandlersRelyFacts(d, s2, s3);
      TraceSplit(s0.trace, s2.trace, s3.trace);
      EventsJoin(s2.trace[|s0.trace|..], s3.trace[|s2.trace|..]);
      count := n + (if read then 1 else 0) + (if write then 1 else 0);
      worked := read || write;
    }

    /** The body of the loop in aio_dispatch for the node `p`, with `rem` nodes still to visit. */
    method VisitNode(p: Ptr, ghost rem: nat, calls: seq<Call>, n: nat)
      returns (next: Option<Ptr>, count: nat, worked: bool)
      requires Valid() && At(handlers, rem, Some(p)) && p in nodes
      modifies this
      ensures Valid() && walkingBh == old(walkingBh) && walkingHandlers == old(walkingHandlers)
      ensures BhRely(old(Level()) + 1, old(Bhs()), Bhs())
      ensures HandlersRely(old(Level()), old(Nodes()), Nodes())
      ensures rem > 0 && SameTail(old(handlers), handlers, rem - 1) && At(handlers, rem - 1, next)
      ensures worked <==> DirectCall(nodeTrace[|old(nodeTrace)|..], old(Level()) + 1)
      ensures old(walkingHandlers) == 0 && old(nodes)[p].deleted ==> EverFreed(nodeTrace, p)
      ensures !BusyCall(nodeTrace[|old(nodeTrace)|..], old(Level()) + 1)
      decreases calls, 3
    {
      hide WellKept, BhValid, BhRely, HandlersValid, HandlersRely, NodesRely, IdxRely, DirectCall, BusyCall, At, SameTail, Next;
      ghost var s := Nodes();
      NodesEnterKeeps(s);
      walkingHandlers := walkingHandlers + 1;
      nodeTrace := nodeTrace + [Enter];
      count, worked := DispatchNode(p, calls, n);
      ghost var t := Nodes();
      VisitFacts(old(Level()), s, t, rem, p);
      next := Next(handlers, p);
      NodesLeaveKeeps(t);
      walkingHandlers := walkingHandlers - 1;
      nodeTrace := nodeTrace + [Leave];
      if walkingHandlers == 0 && nodes[p].deleted {
        ghost var u := Nodes();
        var i := IndexOf(handlers, p);
        handlers := handlers[..i] + handlers[i + 1..];
        nodes := nodes - {p};
        nodeTrace := nodeTrace + [Freed(p)];
        UnlinkVisited(old(Level()), s, u, Nodes(), rem, p);
      }
    }
  
    /** aio_dispatch. Run by nobody else's walk, it also frees every node that was already deleted. */
    method AioDispatch(calls: seq<Call>) returns (progress: bool)
      requires Valid()
      modifies this
      ensures Valid() && walkingBh == old(walkingBh) && walkingHandlers == old(walkingHandlers)
      ensures BhRely(old(Level()) + 1, old(Bhs()), Bhs())
      ensures HandlersRely(old(Level()), old(Nodes()), Nodes())
      ensures progress <==> DirectCall(nodeTrace[|old(nodeTrace)|..], old(Level()) + 1)
      ensures !BusyCall(nodeTrace[|old(nodeTrace)|..], old(Level()) + 1)
      ensures old(walkingHandlers) == 0 ==>
                forall p :: p in old(nodes) && old(nodes)[p].deleted ==> EverFreed(nodeTrace, p) && p !in nodes
      decreases calls, 4
    {
      hide WellKept, BhValid, BhRely, HandlersValid, HandlersRely, NodesRely, IdxRely, DirectCall, BusyCall, At, SameTail, NodeWalk;
      ghost var b0, s := Bhs(), Nodes();
      NoChange(b0, s);
      ghost var d := Level();
      NodeWalkStart(d, s);
      progress := false;
      var n := 0;
      var node := First(handlers);
      ghost var rem: nat := |handlers|;
      while node.Some?
        invariant Valid() && walkingBh == b0.walking && walkingHandlers == s.walking
        invariant BhRely(d + 1, b0, Bhs())
        invariant NodeWalk(d, s, Nodes(), rem, node, progress)
        decreases rem
      {
        ghost var b1, t := Bhs(), Nodes();
        NodeWalkParts(d, s, t, rem, node, progress);
        HandlersLinked(t);
        var next, count, worked := VisitNode(node.value, rem, calls, n);
        BhRelyTrans(d + 1, d + 1, b0, b1, Bhs());
        NodeWalkStep(d, s, t, Nodes(), rem, node.value, next, progress, worked);
        progress := progress || worked;
        n, node, rem := count, next, rem - 1;
      }
      NodeWalkEnd(d, s, Nodes(), rem, progress);
    }

    /** The body of the loop in aio_poll that fills the poll array. */
    method FillNode(p: Ptr, ghost rem: nat, calls: seq<Call>, n: nat) returns (count: nat, busy: bool)
      requires Valid() && walkingHandlers > 0 && p in nodes
      requires At(handlers, rem, Some(p)) && 0 < rem <= |handlers| && ClaimsOk(Nodes(), rem)
      modifies this
      ensures Valid() && walkingBh == old(walkingBh) && walkingHandlers == old(walkingHandlers)
      ensures BhRely(old(Level()), old(Bhs()), Bhs())
      ensures NodesRely(old(Level()) - 1, old(Nodes()), Nodes())
      ensures rem - 1 <= |handlers| && ClaimsOk(Nodes(), rem - 1)
      ensures !DirectCall(nodeTrace[|old(nodeTrace)|..], old(Level()))
      ensures busy <==> BusyCall(nodeTrace[|old(nodeTrace)|..], old(Level()))
      decreases calls, 2
    {
      hide WellKept, BhValid, BhRely, HandlersValid, HandlersRely, NodesRely, IdxRely, DirectCall, BusyCall, At, SameTail,
           ClaimsOk, IsSuffix, SameFds;
      count, busy := n, false;
      ghost var d := Level() - 1;
      ghost var b0, s0 := Bhs(), Nodes();
      NoChange(b0, s0);
      ghost var h := s0.mem[p].(pollfdsIdx := -1);
      UpdateKeeps(s0, s0.(mem := s0.mem[p := h]), p, h);
      ClaimsDrop(s0, s0.(mem := s0.mem[p := h]), rem, p);
      nodes := nodes[p := nodes[p].(pollfdsIdx := -1)];
      ghost var s1 := Nodes();
      HandlersRelySplit(d, s0, s1);
      EmptyTail(s0.trace);
      if !nodes[p].deleted && nodes[p].ioFlush {
        var answer := CallFlush(p, rem - 1, calls, n);
        count := n + 1;
        NodesRelyTrans(d, d, s0, s1, Nodes());
        if answer == 0 {
          return;
        }
        busy := true;
      }
      if !nodes[p].deleted && nodes[p].events != NoEvents {
        ghost var s2 := Nodes();
        var pfd := PollFd(nodes[p].fd, nodes[p].events);
        nodes := nodes[p := nodes[p].(pollfdsIdx := |pollfds|)];
        pollfds := pollfds + [pfd];
        ClaimsAdd(s2, Nodes(), rem - 1, p);
        NodesRelyTrans(d, d, s0, s2, Nodes());
      }
    }

    /** Calling io_flush of a live node. */
    method CallFlush(p: Ptr, ghost k: nat, calls: seq<Call>, n: nat) returns (answer: int)
      requires Valid() && walkingHandlers > 0 && p in nodes && !nodes[p].deleted
      requires k <= |handlers| && ClaimsOk(Nodes(), k)
      modifies this
      ensures Valid() && walkingBh == old(walkingBh) && walkingHandlers == old(walkingHandlers) && p in nodes
      ensures BhRely(old(Level()), old(Bhs()), Bhs())
      ensures NodesRely(old(Level()) - 1, old(Nodes()), Nodes())
      ensures k <= |handlers| && ClaimsOk(Nodes(), k)
      ensures !DirectCall(nodeTrace[|old(nodeTrace)|..], old(Level()))
      ensures BusyCall(nodeTrace[|old(nodeTrace)|..], old(Level())) <==> answer != 0
      ensures answer == if n < |calls| then calls[n].answer else 0
      decreases calls, 1
    {
      hide WellKept, BhValid, BhRely, HandlersValid, HandlersRely, NodesRely, IdxRely, DirectCall, ClaimsOk,
           IsSuffix, SameTail, SameFds, CallsInside;
      ghost var d := Level() - 1;
      answer := if n < |calls| then calls[n].answer else 0;
      ghost var s, e := Nodes(), Called(p, true, Level(), answer);
      NodeCallKeeps(d, s, e);
      nodeTrace := nodeTrace + [e];
      ghost var t := Nodes();
      RunNth(calls, n);
      FlushFacts(d, s, t, Nodes(), e, k);
    }

    /** The loop in aio_poll that fills the poll array. Whatever the flush callbacks do, nested
        polls included, every claim left at the end is a claim on the node's own entry. */
    method FillPollfds(calls: seq<Call>) returns (busy: bool)
      requires Valid() && walkingHandlers > 0
      modifies this
      ensures Valid() && walkingBh == old(walkingBh) && walkingHandlers == old(walkingHandlers)
      ensures BhRely(old(Level()), old(Bhs()), Bhs())
      ensures NodesRely(old(Level()) - 1, old(Nodes()), Nodes())
      ensures AllIdxOk(Nodes())
      ensures !DirectCall(nodeTrace[|old(nodeTrace)|..], old(Level()))
      ensures busy <==> BusyCall(nodeTrace[|old(nodeTrace)|..], old(Level()))
      decreases calls, 3
    {
      hide WellKept, BhValid, BhRely, HandlersValid, HandlersRely, NodesRely, IdxRely, DirectCall, BusyCall, At, SameTail,
           ClaimsOk, IsSuffix, SameFds, AllIdxOk, Next, NoDup, IndexOf, First, CallsInside, Filling;
      ghost var d := Level() - 1;
      ghost var b0, s0 := Bhs(), Nodes();
      EmptyArrayKeeps(s0);
      pollfds := [];
      FillingStart(d, b0, s0);
      busy := false;
      var n := 0;
      var node := First(handlers);
      ghost var rem: nat := |handlers|;
      while node.Some?
        invariant Valid() && walkingBh == b0.walking && walkingHandlers == s0.walking
        invariant Filling(d, b0, s0, Bhs(), Nodes(), rem, node, busy)
        decreases rem
      {
        var p := node.value;
        ghost var b1, t := Bhs(), Nodes();
        FillingHere(d, b0, s0, b1, t, rem, p, busy);
        var count, b := FillNode(p, rem, calls, n);
        HandlersRelyFacts(d, t, Nodes());
        FillingStep(d, b0, s0, b1, t, Bhs(), Nodes(), rem, p, busy, b);
        busy := busy || b;
        node := Next(handlers, p);
        n, rem := count, rem - 1;
      }
      FillingEnd(d, b0, s0, Bhs(), Nodes(), rem, busy);
    }

    /** Copying the answers of g_poll to the nodes that claimed an entry. */
    method StoreRevents(answers: seq<Events>)
      requires Valid() && AllIdxOk(Nodes()) && |answers| == |pollfds|
      modifies this
      ensures Valid() && Bhs() == old(Bhs()) && walkingHandlers == old(walkingHandlers)
      ensures forall depth: nat :: HandlersRely(depth, old(Nodes()), Nodes())
      ensures nodeTrace == old(nodeTrace) && pollfds == old(pollfds) && nodes.Keys == old(nodes.Keys)
      ensures forall p :: p in nodes ==>
                var h := old(nodes)[p];
                if h.pollfdsIdx == -1 then nodes[p] == h
                else 0 <= h.pollfdsIdx < |pollfds| && pollfds[h.pollfdsIdx].fd == h.fd &&
                     nodes[p] == h.(revents := answers[h.pollfdsIdx])
    {
      hide WellKept, BhValid, HandlersValid, HandlersRely, NodesRely, IdxRely, NoDup, BhRely, Answered, AllIdxOk;
      ghost var s := Nodes();
      NoChange(Bhs(), s);
      HandlersLinked(s);
      Distinct(handlers);
      for i := 0 to |handlers|
        invariant Valid() && Bhs() == old(Bhs()) && handlers == s.list && nodes.Keys == s.mem.Keys
        invariant walkingHandlers == s.walking && nodeTrace == s.trace && pollfds == s.pollfds && nodeLimit == s.limit
        invariant forall depth: nat :: HandlersRely(depth, s, Nodes())
        invariant forall j :: i <= j < |handlers| ==> nodes[handlers[j]] == s.mem[handlers[j]]
        invariant forall j :: 0 <= j < i ==> nodes[handlers[j]] == Answered(s.mem[handlers[j]], answers)
      {
        var p := handlers[i];
        AnsweredMeans(s, p, answers);
        if nodes[p].pollfdsIdx != -1 {
          ghost var t := Nodes();
          var h := nodes[p].(revents := answers[nodes[p].pollfdsIdx]);
          UpdateKeeps(t, t.(mem := t.mem[p := h]), p, h);
          nodes := nodes[p := h];
          assert nodes.Keys == s.mem.Keys;
          RelyTransAll(s, t, Nodes());
        }
      }
      forall p | p in nodes
        ensures nodes[p] == Answered(s.mem[p], answers) && IdxOk(s, p)
        ensures nodes[p] == if s.mem[p].pollfdsIdx == -1 then s.mem[p] else s.mem[p].(revents := answers[s.mem[p].pollfdsIdx])
      {
        AnsweredMeans(s, p, answers);
        assert p == handlers[IndexOf(handlers, p)];
      }
    }

    /** The walk of aio_poll that rebuilds the poll array, under the walking lock. */
    method RebuildPollfds(calls: seq<Call>) returns (busy: bool)
      requires Valid()
      modifies this
      ensures Valid() && walkingBh == old(walkingBh) && walkingHandlers == old(walkingHandlers)
      ensures BhRely(old(Level()) + 1, old(Bhs()), Bhs())
      ensures HandlersRely(old(Level()), old(Nodes()), Nodes())
      ensures AllIdxOk(Nodes())
      ensures !DirectCall(nodeTrace[|old(nodeTrace)|..], old(Level()) + 1)
      ensures busy <==> BusyCall(nodeTrace[|old(nodeTrace)|..], old(Level()) + 1)
      decreases calls, 4
    {
      hide WellKept, BhValid, BhRely, HandlersValid, HandlersRely, NodesRely, DirectCall;
      ghost var s := Nodes();
      NodesEnterKeeps(s);
      walkingHandlers := walkingHandlers + 1;
      nodeTrace := nodeTrace + [Enter];
      busy := FillPollfds(calls);
      ghost var t := Nodes();
      NodesLeaveKeeps(t);
      walkingHandlers := walkingHandlers - 1;
      nodeTrace := nodeTrace + [Leave];
      NodesInside(old(Level()), s, t);
      HandlersRelySplit(old(Level()), s, Nodes());
      assert forall p :: p in t.mem ==> IdxOk(t, p);
      assert forall p :: p in nodes ==> IdxOk(Nodes(), p);
    }

    /** The end of aio_poll: hand the answers of g_poll to the nodes and dispatch. */
    method DispatchReady(run: PollRun) returns (progress: bool)
      requires Valid() && AllIdxOk(Nodes())
      modifies this
      ensures Valid() && walkingBh == old(walkingBh) && walkingHandlers == old(walkingHandlers)
      ensures BhRely(old(Level()) + 1, old(Bhs()), Bhs())
      ensures HandlersRely(old(Level()), old(Nodes()), Nodes())
      ensures !BusyCall(nodeTrace[|old(nodeTrace)|..], old(Level()) + 1)
      ensures progress <==> DirectCall(nodeTrace[|old(nodeTrace)|..], old(Level()) + 1)
      decreases run, 0
    {
      hide WellKept, BhValid, BhRely, HandlersValid, HandlersRely, AllIdxOk;
      ghost var s := Nodes();
      var answers := seq(|pollfds|, i requires 0 <= i => if i < |run.revents| then run.revents[i] else NoEvents);
      StoreRevents(answers);
      ghost var t := Nodes();
      progress := AioDispatch(run.secondCalls);
      HandlersRelyTrans(Level(), Level(), s, t, Nodes());
    }

    /** aio_poll. The result is true exactly when this poll itself, and not one nested in a callback,
        ran a bottom half that is not idle or called a handler, or was told by an io_flush callback
        that there is something to wait for. */
    method AioPoll(blocking: bool, run: PollRun) returns (result: bool)
      requires Valid()
      modifies this
      ensures Valid() && walkingBh == old(walkingBh) && walkingHandlers == old(walkingHandlers)
      ensures BhRely(old(Level()), old(Bhs()), Bhs())
      ensures HandlersRely(old(Level()), old(Nodes()), Nodes())
      ensures forall b :: b in old(bhs) ==> HadTurn(bhTrace, |old(bhTrace)|, b, old(Level()) + 1)
      ensures forall b :: b in old(bhs) && Pending(old(bhs)[b]) ==> Settled(b, bhTrace[|old(bhTrace)|..])
      ensures old(walkingHandlers) == 0 ==>
                forall p :: p in old(nodes) && old(nodes)[p].deleted ==> p !in nodes
      ensures result <==> DirectCall(bhTrace[|old(bhTrace)|..], old(Level()) + 1) ||
                          DirectCall(nodeTrace[|old(nodeTrace)|..], old(Level()) + 1) ||
                          BusyCall(nodeTrace[|old(nodeTrace)|..], old(Level()) + 1)
      ensures DirectCall(bhTrace[|old(bhTrace)|..], old(Level()) + 1) ==>
                !BusyCall(nodeTrace[|old(nodeTrace)|..], old(Level()) + 1)
      decreases run, 1
    {
      hide WellKept, BhValid, BhRely, HandlersValid, HandlersRely, AllIdxOk, Settled, HadTurn, DirectCall, BusyCall;
      ghost var d, b0, h0 := Level(), Bhs(), Nodes();
      var blocks := blocking;
      var progress := false;
      var ran := AioBhPoll(run.bhCalls);
      if ran {
        blocks, progress := false, true;
      }
      ghost var b1, h1 := Bhs(), Nodes();
      NoOwnCalls(d, b0, b0, h0, h1);
      DeeperRely(d, d + 1, b0, b0, h0, h1);
      var dispatched := AioDispatch(run.firstCalls);
      if dispatched {
        progress := true;
      }
      ghost var b2, h2 := Bhs(), Nodes();
      NoOwnCalls(d, b1, b2, h0, h0);
      DeeperRely(d, d + 1, b1, b2, h0, h0);
      PollStep(d, b0, b1, b2, h0, h1, h2);
      if progress && !blocks {
        return true;
      }
      var busy := RebuildPollfds(run.flushCalls);
      ghost var b3, h3 := Bhs(), Nodes();
      NoOwnCalls(d, b2, b3, h0, h0);
      DeeperRely(d, d + 1, b2, b3, h0, h0);
      PollStep(d, b0, b2, b3, h0, h2, h3);
      if !busy {
        return progress;
      }
      if run.ready > 0 {
        var again := DispatchReady(run);
        progress := progress || again;
        NoOwnCalls(d, b3, Bhs(), h0, h0);
        DeeperRely(d, d + 1, b3, Bhs(), h0, h0);
        PollStep(d, b0, b3, Bhs(), h0, h3, Nodes());
      }
      return true;
    }
  }
}
