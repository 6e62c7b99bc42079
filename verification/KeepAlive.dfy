/** What the operations on the deadline list do to its order and its contents. */
module DeadlineOrder {
  import opened Sequences
  import opened TimerSpec

  lemma {:induction false} AfterIndexBounds(es: seq<Entry>, k: nat, expire: int)
    requires k < |es|
    ensures var p := AfterIndex(es, k, expire);
            && (forall i :: k < i < p ==> es[i].expire < expire)
            && (p < |es| ==> expire <= es[p].expire)
    decreases |es| - k
  {
    if k + 1 < |es| && expire > es[k + 1].expire {
      AfterIndexBounds(es, k + 1, expire);
    }
  }

  /** `add_timer` keeps the order, and taking the new entry out again gives the old list back. */
  lemma AddKeepsOrder(es: seq<Entry>, e: Entry)
    requires Sorted(es)
    ensures Sorted(Add(es, e))
    ensures Add(es, e)[AddIndex(es, e)] == e && Remove(Add(es, e), AddIndex(es, e)) == es
  {
    if es != [] {
      AfterIndexBounds(es, 0, e.expire);
    }
  }

  /** Where `add_timer` puts an entry among others with the same deadline: behind an equal head, and
      before all other equal ones. */
  lemma AddIndexIs(es: seq<Entry>, e: Entry)
    ensures var p := AddIndex(es, e);
            && (p == 0 <==> es == [] || e.expire < es[0].expire)
            && (forall i :: 0 < i < p ==> es[i].expire < e.expire)
            && (0 < p < |es| ==> e.expire <= es[p].expire)
  {
    if es != [] {
      AfterIndexBounds(es, 0, e.expire);
    }
  }

  /** Where a refresh leaves an entry: it stays if it is the last or strictly before its successor;
      otherwise it ends up behind its successor and all later ones that are strictly before it. */
  lemma RefreshIndexIs(es: seq<Entry>, k: nat, expire: int)
    requires k < |es|
    ensures var p, rest := RefreshIndex(es, k, expire), Remove(es, k);
            && (p == k <==> k == |es| - 1 || expire < es[k + 1].expire)
            && k <= p
            && (forall i :: k < i < p ==> rest[i].expire < expire)
            && (k < p < |rest| ==> expire <= rest[p].expire)
  {
    var rest := Remove(es, k);
    assert Remove(es[k := es[k].(expire := expire)], k) == rest;
    if k < |es| - 1 && es[k + 1].expire <= expire {
      assert rest[k] == es[k + 1];
      AfterIndexBounds(rest, k, expire);
    }
  }

  /** The head is taken out and put in again exactly when its place changes. */
  lemma MovesHeadIff(es: seq<Entry>, k: nat, expire: int)
    requires k < |es|
    ensures MovesHead(es, k, expire) <==> k == 0 && RefreshIndex(es, k, expire) != 0
  {
    RefreshIndexIs(es, k, expire);
  }

  lemma SortedInsert(r: seq<Entry>, p: nat, e: Entry)
    requires Sorted(r) && p <= |r|
    requires 0 < p ==> r[p - 1].expire <= e.expire
    requires p < |r| ==> e.expire <= r[p].expire
    ensures Sorted(Insert(r, p, e))
  {
  }

  /** Where an overtaken timer is put when its search starts at its old successor. */
  lemma MoveBounds(rest: seq<Entry>, k: nat, p: nat, expire: int)
    requires k < |rest| && rest[k].expire <= expire && p == AfterIndex(rest, k, expire)
    ensures rest[p - 1].expire <= expire && (p < |rest| ==> expire <= rest[p].expire)
  {
    AfterIndexBounds(rest, k, expire);
  }

  /** A timer that is overtaken by its successor is moved. */
  lemma RefreshMoves(es: seq<Entry>, k: nat, expire: int)
    requires Sorted(es) && k + 1 < |es| && es[k + 1].expire <= expire
    ensures Sorted(Refresh(es, k, expire))
  {
    var e, rest, p := es[k].(expire := expire), Remove(es, k), RefreshIndex(es, k, expire);
    assert Remove(es[k := e], k) == rest && rest[k] == es[k + 1] && Sorted(rest);
    assert Refresh(es, k, expire) == Insert(rest, p, e) && p == AfterIndex(rest, k, expire);
    hide Insert, Remove, AfterIndex, Sorted;
    MoveBounds(rest, k, p, expire);
    SortedInsert(rest, p, e);
  }

  /** Any other timer stays where it is. */
  lemma RefreshStays(es: seq<Entry>, k: nat, expire: int)
    requires k < |es| && (k + 1 < |es| ==> expire < es[k + 1].expire)
    ensures Refresh(es, k, expire) == es[k := Entry(es[k].slot, expire)]
  {
    InsertRemoved(es[k := es[k].(expire := expire)], k);
  }

  lemma SortedUpdateIff(es: seq<Entry>, k: nat, e: Entry)
    requires Sorted(es) && k < |es| && (k + 1 < |es| ==> e.expire < es[k + 1].expire)
    ensures Sorted(es[k := e]) <==> k == 0 || es[k - 1].expire <= e.expire
  {
    var r := es[k := e];
    if k > 0 {
      assert r[k - 1] == es[k - 1] && r[k] == e;
    }
  }

  /** Writing a new expiry and calling `adjust_timer` keeps the order exactly when the new
      expiry is not before the predecessor's: a timer is only ever moved towards the tail. */
  lemma RefreshOrderIff(es: seq<Entry>, k: nat, expire: int)
    requires Sorted(es) && k < |es|
    ensures Sorted(Refresh(es, k, expire)) <==> k == 0 || es[k - 1].expire <= expire
  {
    assert 0 < k && k + 1 < |es| ==> es[k - 1].expire <= es[k + 1].expire;
    hide *;
    if k + 1 < |es| && es[k + 1].expire <= expire {
      RefreshMoves(es, k, expire);
    } else {
      RefreshStays(es, k, expire);
      SortedUpdateIff(es, k, Entry(es[k].slot, expire));
    }
  }

  /** A refresh moves one entry and leaves all others in place and in order. */
  lemma RefreshContents(es: seq<Entry>, k: nat, expire: int)
    requires k < |es|
    ensures var p := RefreshIndex(es, k, expire);
            && Refresh(es, k, expire)[p] == Entry(es[k].slot, expire)
            && Remove(Refresh(es, k, expire), p) == Remove(es, k)
            && Refresh(es, k, expire) == Insert(Remove(es, k), p, Entry(es[k].slot, expire))
  {
    assert Remove(es[k := es[k].(expire := expire)], k) == Remove(es, k);
  }

  /** Two sorted ways to put the same entry into the same list show the same deadlines. */
  lemma SortedInsertUnique(r: seq<Entry>, p: nat, q: nat, e: Entry)
    requires p <= |r| && q <= |r| && Sorted(Insert(r, p, e)) && Sorted(Insert(r, q, e))
    ensures forall i :: 0 <= i <= |r| ==> Insert(r, p, e)[i].expire == Insert(r, q, e)[i].expire
  {
    var (lo, hi) := if p <= q then (p, q) else (q, p);
    var a, b := Insert(r, lo, e), Insert(r, hi, e);
    forall i | 0 <= i <= |r|
      ensures a[i].expire == b[i].expire
    {
      if lo <= i <= hi {
        assert a[lo].expire <= a[i].expire <= a[hi].expire;
        assert b[lo].expire <= b[i].expire <= b[hi].expire;
        if lo < hi {
          assert a[lo] == e && b[hi] == e && a[hi] == r[hi - 1] && b[lo] == r[lo];
          assert b[hi - 1] == a[hi] && b[lo] == a[lo + 1];
          assert b[hi - 1].expire <= b[hi].expire;
          assert a[lo].expire <= a[lo + 1].expire;
        }
      }
    }
  }

  /** `adjust_timer` starts its search at the old successor. The deadlines end up in the order in
      which removing the timer and adding it again from the head would leave them. */
  lemma RefreshIsReinsertion(es: seq<Entry>, k: nat, expire: int)
    requires Sorted(es) && k < |es| && (k == 0 || es[k - 1].expire <= expire)
    ensures var again := Add(Remove(es, k), Entry(es[k].slot, expire));
            && |Refresh(es, k, expire)| == |again| == |es|
            && forall i :: 0 <= i < |es| ==> Refresh(es, k, expire)[i].expire == again[i].expire
  {
    var e := Entry(es[k].slot, expire);
    RefreshOrderIff(es, k, expire);
    assert Remove(es[k := e], k) == Remove(es, k);
    AddKeepsOrder(Remove(es, k), e);
    SortedInsertUnique(Remove(es, k), RefreshIndex(es, k, expire), AddIndex(Remove(es, k), e), e);
  }

  /** A tick that keeps the list splits it at the deadline: what it reaps is due, the rest is not. */
  lemma {:induction false} TickSplits(es: seq<Entry>, cur: int)
    requires Sorted(es)
    ensures var (due, left) := Tick(es, cur, false);
            && es == due + left
            && (forall i :: 0 <= i < |due| ==> due[i].expire <= cur)
            && (forall i :: 0 <= i < |left| ==> cur < left[i].expire)
  {
    hide Sorted;
    SortedTail(es);
    if es != [] && es[0].expire <= cur {
      TickSplits(es[1..], cur);
      Rejoin(es, Tick(es[1..], cur, false).0, Tick(es[1..], cur, false).1);
    } else {
      assert [] + es == es;
    }
  }

  lemma SortedTail(es: seq<Entry>)
    requires Sorted(es)
    ensures es != [] ==> Sorted(es[1..]) && forall i :: 0 <= i < |es| ==> es[0].expire <= es[i].expire
  {
  }

  lemma Rejoin<T>(s: seq<T>, a: seq<T>, b: seq<T>)
    requires s != [] && s[1..] == a + b
    ensures s == [s[0]] + a + b
  {
    assert s == [s[0]] + s[1..];
  }

  /** A callback that unlinks the reaped timer does no harm exactly when no timer is due or the
      list holds a single timer. */
  lemma TickAsWrittenIff(es: seq<Entry>, cur: int)
    ensures Tick(es, cur, true) == Tick(es, cur, false) <==> |es| <= 1 || cur < es[0].expire
    ensures es != [] && es[0].expire <= cur ==> Tick(es, cur, true) == ([es[0]], [])
  {
    assert Tick([], cur, true) == ([], []);
    if es != [] && es[0].expire <= cur {
      assert [es[0]] + [] == [es[0]];
      assert Tick(es, cur, true) == ([es[0]], []);
      if |es| == 1 {
        assert es[1..] == [] && Tick(es[1..], cur, false) == ([], []);
      } else {
        TickLength(es, cur);
      }
    }
  }

  lemma {:induction false} TickLength(es: seq<Entry>, cur: int)
    ensures |Tick(es, cur, false).0| + |Tick(es, cur, false).1| == |es|
    decreases |es|
  {
    if es != [] && es[0].expire <= cur {
      TickLength(es[1..], cur);
    }
  }
}

/** Connections kept alive by one shared, sorted list of deadlines, over whole runs. */
module KeepAlive {
  import opened Codec
  import opened Sequences
  import opened Strings
  import opened TimerSpec
  import opened DeadlineOrder
  import opened Wrappers

  /** What happens to the connection in a slot, with the clock reading the server takes. */
  datatype Event =
    | Open(slot: nat, keepAlive: nat, at: int)
    | Activity(slot: nat, at: int)
    | Shut(slot: nat, at: int)
    | Expiry(at: int)

  /** Seconds without activity that CONNECT grants: one and a half keep-alive periods, in 16 bits. */
  function Span(keepAlive: nat): nat {
    var period := if keepAlive == 0 then 30 else keepAlive;
    (period + period / 2) % 65536
  }

  lemma SpanIff(keepAlive: nat)
    requires 0 < keepAlive < 65536
    ensures Span(keepAlive) == 3 * keepAlive / 2 <==> keepAlive <= 43690
    ensures Span(0) == 45
  {
  }

  /** A keep-alive time read by the code as written is at most 4335 seconds: no span wraps. */
  lemma SpanAsWritten(msb: byte, lsb: byte)
    ensures var keepAlive := Join(AsWritten, msb, lsb);
            Span(keepAlive) == if keepAlive == 0 then 45 else 3 * keepAlive / 2
  {
  }

  // ----- the server: one list for all connections

  /** The deadline list, and the span of every connection that is open. */
  datatype State = State(timers: seq<Entry>, spans: map<nat, nat>)

  function Find(es: seq<Entry>, slot: nat): (k: nat)
    ensures k <= |es|
    ensures k < |es| ==> es[k].slot == slot
    ensures forall i :: 0 <= i < k ==> es[i].slot != slot
  {
    if es == [] then 0 else if es[0].slot == slot then 0 else 1 + Find(es[1..], slot)
  }

  /** What an event does to the list if the server comes back from it. */
  function Effect(s: State, e: Event, unlinks: bool): State {
    match e
    case Open(slot, keepAlive, at) =>
      State(Add(s.timers, Entry(slot, at + Span(keepAlive))), s.spans[slot := Span(keepAlive)])
    case Activity(slot, at) =>
      var k := Find(s.timers, slot);
      if slot in s.spans && k < |s.timers| then s.(timers := Refresh(s.timers, k, at + s.spans[slot])) else s
    case Shut(slot, at) =>
      var k := Find(s.timers, slot);
      State(if k < |s.timers| then Remove(s.timers, k) else s.timers, s.spans - {slot})
    case Expiry(at) =>
      var (due, left) := Tick(s.timers, at, unlinks);
      State(left, s.spans - set x | x in due :: x.slot)
  }

  /** Whether the list's mutex may be locked again by its holder, and whether the rest of the list
      is read from a reaped timer after the callback has unlinked it. */
  datatype Server = Server(reentrant: bool, unlinks: bool)

  const AS_WRITTEN := Server(false, true)
  const REENTRANT := Server(true, true)
  const REPAIRED := Server(true, false)

  /** The event ends in a lock of the mutex by the thread that holds it (see `TimerList`). */
  predicate Blocks(s: State, e: Event, server: Server) {
    && !server.reentrant
    && match e
       case Activity(slot, at) =>
         var k := Find(s.timers, slot);
         slot in s.spans && k < |s.timers| && MovesHead(s.timers, k, at + s.spans[slot])
       case Expiry(at) => server.unlinks && Tick(s.timers, at, server.unlinks).0 != []
       case _ => false
  }

  /** None: the server hangs, with the mutex held. */
  function Step(s: State, e: Event, server: Server): Option<State> {
    if Blocks(s, e, server) then None else Some(Effect(s, e, server.unlinks))
  }

  /** As written, activity hangs exactly on the connection at the head of the list, if its new deadline
      is not before that of the next one. */
  lemma ActivityHangsIff(s: State, slot: nat, at: int)
    requires slot in s.spans
    ensures Step(s, Activity(slot, at), AS_WRITTEN).None?
       <==> |s.timers| > 1 && s.timers[0].slot == slot && s.timers[1].expire <= at + s.spans[slot]
  {
    assert Find(s.timers, slot) == 0 <==> s.timers == [] || s.timers[0].slot == slot;
  }

  /** As written, a tick hangs exactly if the head of the list is due. */
  lemma ExpiryHangsIff(s: State, at: int)
    ensures Step(s, Expiry(at), AS_WRITTEN).None? <==> s.timers != [] && s.timers[0].expire <= at
  {
    if s.timers != [] && s.timers[0].expire <= at {
      TickAsWrittenIff(s.timers, at);
    }
  }

  /** Neither opening nor shutting a connection blocks. */
  lemma OpenStep(s: State, e: Event, server: Server)
    requires e.Open? || e.Shut?
    ensures Step(s, e, server) == Some(Effect(s, e, false))
  {
  }

  function Run(trace: seq<Event>, server: Server): Option<State> {
    if trace == [] then Some(State([], map[]))
    else match Run(trace[..|trace| - 1], server)
      case None => None
      case Some(s) => Step(s, trace[|trace| - 1], server)
  }

  /** The same from any state. */
  function Steps(s: State, events: seq<Event>, server: Server): Option<State> {
    if events == [] then Some(s)
    else match Steps(s, events[..|events| - 1], server)
      case None => None
      case Some(t) => Step(t, events[|events| - 1], server)
  }

  lemma {:induction false} RunSteps(trace: seq<Event>, more: seq<Event>, server: Server)
    requires Run(trace, server).Some?
    ensures Run(trace + more, server) == Steps(Run(trace, server).value, more, server)
  {
    if more == [] {
      assert trace + more == trace;
    } else {
      hide Step;
      RunSteps(trace, more[..|more| - 1], server);
      LastOfJoin(trace, more);
    }
  }

  // ----- the reference: every connection watched on its own

  datatype Connection = Closed | Alive(last: int, keepAlive: nat) {
    function Deadline(): int
      requires Alive?
    {
      last + Span(keepAlive)
    }
  }

  /** What an event means to the connection in one slot. */
  function Observe(c: Connection, e: Event, slot: nat): Connection {
    match e
    case Open(s, keepAlive, at) => if s == slot then Alive(at, keepAlive) else c
    case Activity(s, at) => if s == slot && c.Alive? then c.(last := at) else c
    case Shut(s, at) => if s == slot then Closed else c
    case Expiry(at) => if c.Alive? && c.Deadline() <= at then Closed else c
  }

  function Watch(trace: seq<Event>, slot: nat): Connection {
    if trace == [] then Closed else Observe(Watch(trace[..|trace| - 1], slot), trace[|trace| - 1], slot)
  }

  function ObserveAll(c: Connection, events: seq<Event>, slot: nat): Connection {
    if events == [] then c else Observe(ObserveAll(c, events[..|events| - 1], slot), events[|events| - 1], slot)
  }

  lemma {:induction false} WatchJoin(trace: seq<Event>, more: seq<Event>, slot: nat)
    ensures Watch(trace + more, slot) == ObserveAll(Watch(trace, slot), more, slot)
  {
    if more == [] {
      assert trace + more == trace;
    } else {
      hide Observe;
      WatchJoin(trace, more[..|more| - 1], slot);
      LastOfJoin(trace, more);
    }
  }

  /** The clock never runs backwards, CONNECT comes on a closed slot and activity on an open one.
      A connection may be shut at any time. */
  ghost predicate WellFormed(trace: seq<Event>) {
    trace == [] ||
    var before, e := trace[..|trace| - 1], trace[|trace| - 1];
    && WellFormed(before)
    && (before != [] ==> before[|before| - 1].at <= e.at)
    && (e.Open? ==> Watch(before, e.slot).Closed?)
    && (e.Activity? ==> Watch(before, e.slot).Alive?)
  }

  /** The list holds exactly the live connections, each with its own deadline, in order. */
  ghost predicate Agrees(s: State, trace: seq<Event>) {
    && Sorted(s.timers)
    && DistinctSlots(s.timers)
    && (forall e :: e in s.timers ==> Watch(trace, e.slot).Alive? && Watch(trace, e.slot).Deadline() == e.expire)
    && (forall slot :: Watch(trace, slot).Alive? ==> Entry(slot, Watch(trace, slot).Deadline()) in s.timers)
    && (forall slot :: slot in s.spans <==> Watch(trace, slot).Alive?)
    && (forall slot :: slot in s.spans ==> s.spans[slot] == Span(Watch(trace, slot).keepAlive))
  }

  // ----- every run

  lemma {:induction false} LastActivityBefore(trace: seq<Event>, slot: nat)
    requires WellFormed(trace) && Watch(trace, slot).Alive?
    ensures trace != [] && Watch(trace, slot).last <= trace[|trace| - 1].at
  {
    var before := trace[..|trace| - 1];
    if Watch(before, slot).Alive? {
      LastActivityBefore(before, slot);
    }
  }

  lemma RunSnoc(trace: seq<Event>, e: Event)
    ensures forall server :: Run(trace + [e], server) ==
                             if Run(trace, server).None? then None else Step(Run(trace, server).value, e, server)
    ensures forall slot :: Watch(trace + [e], slot) == Observe(Watch(trace, slot), e, slot)
    ensures WellFormed(trace + [e]) <==>
              && WellFormed(trace)
              && (trace != [] ==> trace[|trace| - 1].at <= e.at)
              && (e.Open? ==> Watch(trace, e.slot).Closed?)
              && (e.Activity? ==> Watch(trace, e.slot).Alive?)
  {
    assert (trace + [e])[..|trace + [e]| - 1] == trace;
  }

  lemma InsertMembers(r: seq<Entry>, p: nat, e: Entry)
    requires p <= |r|
    ensures forall x :: x in Insert(r, p, e) <==> x == e || x in r
    ensures DistinctSlots(r) && (forall x :: x in r ==> x.slot != e.slot) ==> DistinctSlots(Insert(r, p, e))
  {
    var s := Insert(r, p, e);
    forall x | x in r
      ensures x in s
    {
      var i :| 0 <= i < |r| && r[i] == x;
      assert s[if i < p then i else i + 1] == x;
    }
  }

  lemma RemoveMembers(es: seq<Entry>, k: nat)
    requires DistinctSlots(es) && k < |es|
    ensures forall x :: x in Remove(es, k) <==> x in es && x.slot != es[k].slot
    ensures DistinctSlots(Remove(es, k))
  {
    var s := Remove(es, k);
    forall x | x in es && x.slot != es[k].slot
      ensures x in s
    {
      var i :| 0 <= i < |es| && es[i] == x;
      assert s[if i < k then i else i - 1] == x;
    }
  }

  lemma OpenAgrees(s: State, trace: seq<Event>, e: Event)
    requires e.Open? && WellFormed(trace + [e]) && Agrees(s, trace)
    ensures Agrees(Effect(s, e, false), trace + [e])
  {
    hide Insert, AddIndex, Sorted, DistinctSlots, Watch, WellFormed, Span;
    RunSnoc(trace, e);
    var entry := Entry(e.slot, e.at + Span(e.keepAlive));
    AddKeepsOrder(s.timers, entry);
    InsertMembers(s.timers, AddIndex(s.timers, entry), entry);
  }

  lemma ActivityAgrees(s: State, trace: seq<Event>, e: Event)
    requires e.Activity? && WellFormed(trace + [e]) && Agrees(s, trace)
    ensures Agrees(Effect(s, e, false), trace + [e])
  {
    hide Insert, Remove, Refresh, RefreshIndex, Sorted, DistinctSlots, Watch, WellFormed, Span, Find;
    RunSnoc(trace, e);
    LastActivityBefore(trace, e.slot);
    var was := Entry(e.slot, Watch(trace, e.slot).Deadline());
    var k := FindMember(s.timers, was);
    var entry := Entry(e.slot, e.at + s.spans[e.slot]);
    RefreshMembers(s.timers, k, entry);
  }

  /** Moving a deadline back replaces one entry. */
  lemma RefreshMembers(es: seq<Entry>, k: nat, e: Entry)
    requires Sorted(es) && DistinctSlots(es) && k < |es| && es[k].slot == e.slot && es[k].expire <= e.expire
    ensures Sorted(Refresh(es, k, e.expire)) && DistinctSlots(Refresh(es, k, e.expire))
    ensures forall x :: x in Refresh(es, k, e.expire) <==> x == e || (x in es && x.slot != e.slot)
  {
    hide Insert, Remove, Refresh, RefreshIndex, DistinctSlots, Sorted;
    SortedAt(es, k);
    RefreshOrderIff(es, k, e.expire);
    RefreshContents(es, k, e.expire);
    RemoveMembers(es, k);
    InsertMembers(Remove(es, k), RefreshIndex(es, k, e.expire), e);
  }

  lemma SortedAt(es: seq<Entry>, k: nat)
    requires Sorted(es) && k < |es|
    ensures 0 < k ==> es[k - 1].expire <= es[k].expire
  {
  }

  lemma FindMember(es: seq<Entry>, e: Entry) returns (k: nat)
    requires e in es && DistinctSlots(es)
    ensures k == Find(es, e.slot) && k < |es| && es[k] == e
  {
    k := Find(es, e.slot);
  }

  lemma FindNone(es: seq<Entry>, slot: nat)
    requires forall e :: e in es ==> e.slot != slot
    ensures Find(es, slot) == |es|
  {
  }

  lemma ShutAgrees(s: State, trace: seq<Event>, e: Event)
    requires e.Shut? && WellFormed(trace + [e]) && Agrees(s, trace)
    ensures Agrees(Effect(s, e, false), trace + [e])
  {
    hide Watch, WellFormed, Span, Find, DistinctSlots, Sorted, Remove;
    RunSnoc(trace, e);
    if Watch(trace, e.slot).Alive? {
      var k := FindMember(s.timers, Entry(e.slot, Watch(trace, e.slot).Deadline()));
      RemoveMembers(s.timers, k);
      RemoveSorted(s.timers, k);
    } else {
      FindNone(s.timers, e.slot);
      assert Effect(s, e, false) == s;
    }
  }

  lemma RemoveSorted(es: seq<Entry>, k: nat)
    requires Sorted(es) && k < |es|
    ensures Sorted(Remove(es, k))
  {
  }

  lemma ExpiryAgrees(s: State, trace: seq<Event>, e: Event)
    requires e.Expiry? && WellFormed(trace + [e]) && Agrees(s, trace)
    ensures Agrees(Effect(s, e, false), trace + [e])
  {
    hide Watch, WellFormed, Span, Tick, Sorted, DistinctSlots;
    RunSnoc(trace, e);
    DueIff(s.timers, e.at);
  }

  /** A tick takes out the entries that are due, and leaves the others as they were. */
  lemma DueIff(es: seq<Entry>, at: int)
    requires Sorted(es) && DistinctSlots(es)
    ensures var (due, left) := Tick(es, at, false);
            && Sorted(left) && DistinctSlots(left)
            && (forall x, y :: x in due && y in left ==> x.slot != y.slot)
            && (forall x :: x in es <==> x in due || x in left)
            && (forall x :: x in es ==> (x in due <==> x.expire <= at))
  {
    hide Tick;
    TickSplits(es, at);
    var (due, left) := Tick(es, at, false);
    SplitSorted(due, left);
  }

  lemma SplitSorted(due: seq<Entry>, left: seq<Entry>)
    requires Sorted(due + left) && DistinctSlots(due + left)
    ensures Sorted(left) && DistinctSlots(left)
    ensures forall x, y :: x in due && y in left ==> x.slot != y.slot
  {
    var es := due + left;
    assert forall i :: 0 <= i < |left| ==> left[i] == es[|due| + i];
    forall x, y | x in due && y in left
      ensures x.slot != y.slot
    {
      var i :| 0 <= i < |due| && due[i] == x;
      var j :| 0 <= j < |left| && left[j] == y;
      assert es[i].slot != es[|due| + j].slot;
    }
  }

  /** The shared list keeps every connection exactly as long as if it were watched on its own. */
  lemma {:induction false} EveryRunAgrees(trace: seq<Event>)
    requires WellFormed(trace)
    ensures Run(trace, REPAIRED).Some? && Agrees(Run(trace, REPAIRED).value, trace)
  {
    if trace != [] {
      var before, e := trace[..|trace| - 1], trace[|trace| - 1];
      assert trace == before + [e];
      EveryRunAgrees(before);
      StepAgrees(Run(before, REPAIRED).value, before, e);
    }
  }

  lemma StepAgrees(s: State, trace: seq<Event>, e: Event)
    requires WellFormed(trace + [e]) && Agrees(s, trace)
    ensures Agrees(Effect(s, e, false), trace + [e])
  {
    match e
    case Open(_, _, _) => OpenAgrees(s, trace, e);
    case Activity(_, _) => ActivityAgrees(s, trace, e);
    case Shut(_, _) => ShutAgrees(s, trace, e);
    case Expiry(_) => ExpiryAgrees(s, trace, e);
  }

  /** A tick of this list leaves the rest of the list as it is, or hangs before it can lose it. The code
      as written is of this kind, and so is the repaired one. */
  predicate KeepsOrHangs(server: Server): (r: bool)
    ensures server == AS_WRITTEN || server == REPAIRED ==> r
  {
    server.unlinks ==> !server.reentrant
  }

  lemma StepSame(s: State, e: Event, server: Server)
    requires KeepsOrHangs(server) && Step(s, e, server).Some?
    ensures Step(s, e, server) == Step(s, e, REPAIRED)
    ensures e.Expiry? ==> Tick(s.timers, e.at, server.unlinks) == Tick(s.timers, e.at, false)
  {
    if e.Expiry? && server.unlinks {
      TickAsWrittenIff(s.timers, e.at);
    }
  }

  /** Until it hangs, such a list is the repaired one. */
  lemma {:induction false} SameUntilItHangs(trace: seq<Event>, server: Server)
    requires KeepsOrHangs(server) && Run(trace, server).Some?
    ensures Run(trace, server) == Run(trace, REPAIRED)
  {
    if trace != [] {
      hide Step;
      SameUntilItHangs(trace[..|trace| - 1], server);
      StepSame(Run(trace[..|trace| - 1], server).value, trace[|trace| - 1], server);
    }
  }

  /** The code as written keeps the list right, too, for as long as it does not hang. */
  lemma AgreesUntilItHangs(trace: seq<Event>, server: Server)
    requires WellFormed(trace) && KeepsOrHangs(server) && Run(trace, server).Some?
    ensures Agrees(Run(trace, server).value, trace)
  {
    hide Run, Agrees, WellFormed;
    SameUntilItHangs(trace, server);
    EveryRunAgrees(trace);
  }

  /** On every run, a tick reaps each connection that has been silent for its span, and no other. */
  lemma TickReapsExactlyTheSilent(trace: seq<Event>, cur: int, slot: nat)
    requires WellFormed(trace)
    ensures Run(trace, REPAIRED).Some?
    ensures slot in Slots(Tick(Run(trace, REPAIRED).value.timers, cur, false).0)
       <==> Watch(trace, slot).Alive? && Watch(trace, slot).last + Span(Watch(trace, slot).keepAlive) <= cur
    ensures Watch(trace, slot).Alive? && 0 < Watch(trace, slot).keepAlive <= 43690 ==>
              (slot in Slots(Tick(Run(trace, REPAIRED).value.timers, cur, false).0)
               <==> Watch(trace, slot).last + 3 * Watch(trace, slot).keepAlive / 2 <= cur)
  {
    EveryRunAgrees(trace);
    if Watch(trace, slot).Alive? && 0 < Watch(trace, slot).keepAlive <= 43690 {
      SpanIff(Watch(trace, slot).keepAlive);
    }
    hide Watch, WellFormed, Run, Tick, Span, Sorted, DistinctSlots;
    var timers := Run(trace, REPAIRED).value.timers;
    TickSplits(timers, cur);
    var (due, left) := Tick(timers, cur, false);
    SlotIn(due, slot);
    if Watch(trace, slot).Alive? && Watch(trace, slot).Deadline() <= cur {
      assert Entry(slot, Watch(trace, slot).Deadline()) in due + left;
    }
    if slot in Slots(due) {
      var e :| e in due && e.slot == slot;
      assert e in due + left;
    }
  }

  lemma SlotIn(es: seq<Entry>, slot: nat)
    ensures slot in Slots(es) <==> exists e :: e in es && e.slot == slot
  {
    if slot in Slots(es) {
      var i :| 0 <= i < |es| && Slots(es)[i] == slot;
      assert es[i] in es;
    }
    forall e | e in es && e.slot == slot
      ensures slot in Slots(es)
    {
      var i :| 0 <= i < |es| && es[i] == e;
      assert Slots(es)[i] == slot;
    }
  }

  /** It reaps them one after the other, the longest overdue first, and none twice. */
  lemma TickReapsInOrder(trace: seq<Event>, cur: int, i: nat, j: nat)
    requires WellFormed(trace)
    ensures Run(trace, REPAIRED).Some?
    ensures var reaped := Slots(Tick(Run(trace, REPAIRED).value.timers, cur, false).0);
            i < j < |reaped| ==>
              && reaped[i] != reaped[j]
              && Watch(trace, reaped[i]).Alive? && Watch(trace, reaped[j]).Alive?
              && Watch(trace, reaped[i]).Deadline() <= Watch(trace, reaped[j]).Deadline()
  {
    EveryRunAgrees(trace);
    hide Watch, WellFormed, Run, Tick, Span;
    var timers := Run(trace, REPAIRED).value.timers;
    TickSplits(timers, cur);
    var due := Tick(timers, cur, false).0;
    if i < j < |due| {
      assert due[i] == timers[i] && due[j] == timers[j];
      assert timers[i] in timers && timers[j] in timers;
    }
  }

  // ----- as written, and with a mutex that may be locked again

  /** The event neither hangs the server nor loses a deadline. With the source's mutex that means
      that no deadline is due and that the head stays where it is. */
  predicate Safe(s: State, e: Event, server: Server) {
    match e
    case Activity(slot, at) =>
      var k := Find(s.timers, slot);
      server.reentrant || !(slot in s.spans && k < |s.timers| && MovesHead(s.timers, k, at + s.spans[slot]))
    case Expiry(at) =>
      || !server.unlinks
      || s.timers == []
      || at < s.timers[0].expire
      || (server.reentrant && |s.timers| == 1)
    case _ => true
  }

  /** A tick with a callback that unlinks its timer loses the others exactly when it reaps one of several. */
  lemma ExpiryAgreesIff(s: State, trace: seq<Event>, e: Event)
    requires e.Expiry? && WellFormed(trace + [e]) && Agrees(s, trace)
    ensures Agrees(Effect(s, e, true), trace + [e]) <==> |s.timers| <= 1 || e.at < s.timers[0].expire
  {
    TickAsWrittenIff(s.timers, e.at);
    if |s.timers| <= 1 || e.at < s.timers[0].expire {
      ExpiryAgrees(s, trace, e);
    } else {
      var all := trace + [e];
      assert all[..|all| - 1] == trace;
      var lost := s.timers[1];
      assert lost in s.timers && lost.slot in s.spans;
      assert Tick([], e.at, true).1 == [] && Tick([], e.at, true).0 == [];
      var (due, left) := Tick(s.timers, e.at, true);
      assert due == [s.timers[0]] && left == [];
      assert lost.slot in Effect(s, e, true).spans;
    }
  }

  lemma StepSafeIff(s: State, trace: seq<Event>, e: Event, server: Server)
    requires WellFormed(trace + [e]) && Agrees(s, trace)
    ensures Step(s, e, server).Some? && Agrees(Step(s, e, server).value, trace + [e]) <==> Safe(s, e, server)
  {
    hide WellFormed, Agrees, Effect;
    if e.Expiry? && server.unlinks {
      ExpiryAgreesIff(s, trace, e);
    } else {
      SameEffect(s, e, server.unlinks);
      StepAgrees(s, trace, e);
    }
  }

  lemma SameEffect(s: State, e: Event, unlinks: bool)
    requires e.Expiry? ==> !unlinks
    ensures Effect(s, e, unlinks) == Effect(s, e, false)
  {
  }

  /** The server has come back from every event, and its list is right. */
  ghost predicate OnTime(trace: seq<Event>, server: Server) {
    Run(trace, server).Some? && Agrees(Run(trace, server).value, trace)
  }

  ghost predicate SafeAfter(trace: seq<Event>, e: Event, server: Server) {
    Run(trace, server).Some? ==> Safe(Run(trace, server).value, e, server)
  }

  lemma OnTimeStep(trace: seq<Event>, e: Event, server: Server)
    requires WellFormed(trace + [e]) && OnTime(trace, server)
    ensures OnTime(trace + [e], server) <==> SafeAfter(trace, e, server)
  {
    hide WellFormed, Agrees, Run, Safe, Step, Watch;
    RunSnoc(trace, e);
    StepSafeIff(Run(trace, server).value, trace, e, server);
  }

  /** A run never hangs and keeps its list right after every event if and only if every step is
      safe: for the code as written, no tick finds a deadline due and no activity moves the head;
      with a mutex that may be locked again, no tick reaps one of several timers. */
  lemma RunIff(trace: seq<Event>, server: Server)
    requires WellFormed(trace)
    ensures (forall n :: 0 <= n <= |trace| ==> OnTime(trace[..n], server))
       <==> (forall n :: 0 <= n < |trace| ==> SafeAfter(trace[..n], trace[n], server))
  {
    hide *;
    NothingYet(server);
    forall n | 0 <= n < |trace| && OnTime(trace[..n], server)
      ensures OnTime(trace[..n + 1], server) <==> SafeAfter(trace[..n], trace[n], server)
    {
      assert trace[..n + 1] == trace[..n] + [trace[n]];
      WellFormedPrefix(trace, n + 1);
      OnTimeStep(trace[..n], trace[n], server);
    }
    PrefixIff(trace, t => OnTime(t, server), (t, e) => SafeAfter(t, e, server));
  }

  lemma NothingYet(server: Server)
    ensures OnTime([], server)
  {
  }

  lemma {:induction false} WellFormedPrefix(trace: seq<Event>, n: nat)
    requires WellFormed(trace) && n <= |trace|
    ensures WellFormed(trace[..n])
  {
    if n < |trace| {
      WellFormedPrefix(trace[..|trace| - 1], n);
      assert trace[..|trace| - 1][..n] == trace[..n];
    } else {
      assert trace[..n] == trace;
    }
  }

  /** The code as written hangs at the first deadline that comes. */
  lemma HangsAtFirstReap()
    ensures var trace := [Open(1, 10, 0), Expiry(15)];
            WellFormed(trace) && Run(trace, AS_WRITTEN) == None && Run(trace, REENTRANT).Some?
  {
    var a, b := Open(1, 10, 0), Expiry(15);
    assert [a] == [] + [a] && [a, b] == [a] + [b];
    assert Watch([], 1) == Closed && WellFormed([]);
    hide Run, Watch, WellFormed, Find, Remove, Refresh, Add, Tick, Span;
    RunSnoc([], a);
    RunSnoc([a], b);
    SampleLists();
  }

  /** It hangs, with no deadline anywhere near, when the connection at the head shows activity and
      another one is due no later than it is then. */
  lemma HangsOnActivity()
    ensures var trace := [Open(1, 10, 0), Open(2, 10, 0), Activity(1, 5)];
            WellFormed(trace) && Run(trace, AS_WRITTEN) == None && Run(trace, REENTRANT).Some?
  {
    var a, b, c := Open(1, 10, 0), Open(2, 10, 0), Activity(1, 5);
    assert [a] == [] + [a] && [a, b] == [a] + [b] && [a, b, c] == [a, b] + [c];
    assert Watch([], 1) == Watch([], 2) == Closed && WellFormed([]);
    hide Run, Watch, WellFormed, Find, Remove, Refresh, Add, Tick, Span;
    RunSnoc([], a);
    RunSnoc([a], b);
    RunSnoc([a, b], c);
    SampleLists();
  }

  /** With a mutex that may be locked again, the second of two connections is never reaped once the
      first has been. */
  lemma LostDeadline()
    ensures var trace := [Open(1, 10, 0), Open(2, 20, 0), Expiry(15)];
            && WellFormed(trace) && Watch(trace, 2) == Alive(0, 20)
            && Run(trace, REENTRANT).Some? && Run(trace, REENTRANT).value.timers == []
  {
    var a, b, c := Open(1, 10, 0), Open(2, 20, 0), Expiry(15);
    assert [a] == [] + [a] && [a, b] == [a] + [b] && [a, b, c] == [a, b] + [c];
    assert Watch([], 1) == Watch([], 2) == Closed && WellFormed([]);
    hide Run, Watch, WellFormed, Find, Remove, Refresh, Add, Tick, Span;
    RunSnoc([], a);
    RunSnoc([a], b);
    RunSnoc([a, b], c);
    SampleLists();
  }

  lemma SampleLists()
    ensures Add([], Entry(1, 15)) == [Entry(1, 15)]
    ensures Add([Entry(1, 15)], Entry(2, 30)) == [Entry(1, 15), Entry(2, 30)]
    ensures Add([Entry(1, 15)], Entry(2, 15)) == [Entry(1, 15), Entry(2, 15)]
    ensures Tick([Entry(1, 15)], 15, true).0 != [] && Tick([Entry(1, 15), Entry(2, 30)], 15, true).1 == []
    ensures Find([Entry(1, 15), Entry(2, 15)], 1) == 0
    ensures Span(10) == 15 && Span(20) == 30 && forall server :: Run([], server) == Some(State([], map[]))
  {
  }
}
