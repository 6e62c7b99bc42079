/** The list of connection deadlines (src/mqtt_timer.c) on values: what each
    operation does to the sequence of timers met from `head` to `tail`. */
module TimerSpec {
  import opened Sequences

  datatype Entry = Entry(slot: nat, expire: int)

  ghost predicate Sorted(es: seq<Entry>) {
    forall i, j :: 0 <= i < j < |es| ==> es[i].expire <= es[j].expire
  }

  ghost predicate DistinctSlots(es: seq<Entry>) {
    forall i, j :: 0 <= i < j < |es| ==> es[i].slot != es[j].slot
  }

  /** Where `add_timer_after` links a timer in when it starts searching at position k. */
  function AfterIndex(es: seq<Entry>, k: nat, expire: int): (p: nat)
    requires k < |es|
    ensures k < p <= |es|
    decreases |es| - k
  {
    if k + 1 < |es| && expire > es[k + 1].expire then AfterIndex(es, k + 1, expire) else k + 1
  }

  function AddAfter(es: seq<Entry>, k: nat, e: Entry): seq<Entry>
    requires k < |es|
  {
    Insert(es, AfterIndex(es, k, e.expire), e)
  }

  /** The position at which `add_timer` puts an entry. */
  function AddIndex(es: seq<Entry>, e: Entry): (p: nat)
    ensures p <= |es|
  {
    if es == [] || e.expire < es[0].expire then 0 else AfterIndex(es, 0, e.expire)
  }

  function Add(es: seq<Entry>, e: Entry): seq<Entry> {
    Insert(es, AddIndex(es, e), e)
  }

  /** Where `adjust_timer` leaves the timer at position k, whose new expiry is already written. */
  function AdjustIndex(es: seq<Entry>, k: nat): (p: nat)
    requires k < |es|
    ensures p < |es|
  {
    if k == |es| - 1 || es[k].expire < es[k + 1].expire then k
    else if k == 0 then AddIndex(Remove(es, 0), es[0])
    else AfterIndex(Remove(es, k), k, es[k].expire)
  }

  function Adjust(es: seq<Entry>, k: nat): seq<Entry>
    requires k < |es|
  {
    Insert(Remove(es, k), AdjustIndex(es, k), es[k])
  }

  function RefreshIndex(es: seq<Entry>, k: nat, expire: int): (p: nat)
    requires k < |es|
    ensures p < |es|
  {
    AdjustIndex(es[k := es[k].(expire := expire)], k)
  }

  function Refresh(es: seq<Entry>, k: nat, expire: int): seq<Entry>
    requires k < |es|
  {
    Adjust(es[k := es[k].(expire := expire)], k)
  }

  /** Does refreshing the timer at k unlink the head and call `add_timer` again? */
  predicate MovesHead(es: seq<Entry>, k: nat, expire: int) {
    k == 0 && 1 < |es| && es[1].expire <= expire
  }

  /** What one tick at time `cur` reaps, in order, and what it leaves in the list. A callback
      that unlinks the timer it is called for takes the rest of the list with it. */
  function Tick(es: seq<Entry>, cur: int, unlinks: bool): (r: (seq<Entry>, seq<Entry>))
    decreases |es|
  {
    if es == [] || cur < es[0].expire then ([], es)
    else
      var (due, left) := Tick(if unlinks then [] else es[1..], cur, unlinks);
      ([es[0]] + due, left)
  }

  /** A tick that started on `start` has reaped `reaped` so far and stands before `left`. */
  ghost predicate Reaping(start: seq<Entry>, cur: int, unlinks: bool, reaped: seq<nat>, left: seq<Entry>) {
    && Slots(Tick(start, cur, unlinks).0) == reaped + Slots(Tick(left, cur, unlinks).0)
    && Tick(start, cur, unlinks).1 == Tick(left, cur, unlinks).1
  }

  lemma ReapsNothing(start: seq<Entry>, cur: int, unlinks: bool)
    ensures Reaping(start, cur, unlinks, [], start)
  {
  }

  lemma ReapsHead(start: seq<Entry>, cur: int, unlinks: bool, reaped: seq<nat>, left: seq<Entry>)
    requires Reaping(start, cur, unlinks, reaped, left)
    requires left != [] && left[0].expire <= cur
    ensures Tick(start, cur, unlinks).0 != []
    ensures Reaping(start, cur, unlinks, reaped + [left[0].slot], if unlinks then [] else left[1..])
  {
    var rest := Tick(if unlinks then [] else left[1..], cur, unlinks);
    assert Tick(left, cur, unlinks).0[1..] == rest.0;
    assert |Slots(Tick(start, cur, unlinks).0)| == |reaped| + |Tick(left, cur, unlinks).0|;
  }

  lemma ReapsAll(start: seq<Entry>, cur: int, unlinks: bool, reaped: seq<nat>, left: seq<Entry>)
    requires Reaping(start, cur, unlinks, reaped, left)
    requires left == [] || cur < left[0].expire
    ensures (reaped, left) == (Slots(Tick(start, cur, unlinks).0), Tick(start, cur, unlinks).1)
    ensures reaped == [] ==> Tick(start, cur, unlinks).0 == []
  {
    assert Tick(left, cur, unlinks) == ([], left);
    assert reaped + [] == reaped;
  }

  function Slots(es: seq<Entry>): (slots: seq<nat>)
    ensures |slots| == |es|
    ensures forall i {:trigger slots[i]} :: 0 <= i < |es| ==> slots[i] == es[i].slot
  {
    if es == [] then [] else [es[0].slot] + Slots(es[1..])
  }
}

/** The same list as linked nodes, updated in place. */
module TimerList {
  import opened Sequences
  import opened TimerSpec

  /** Blocked: the calling thread locks a mutex that it already holds and waits for itself. */
  datatype Status = Success | NullArgument | Blocked

  /** `struct util_timer`, the first member of a connection's `struct client_data`. */
  class Timer {
    const slot: nat
    var expire: int
    var prev: Timer?
    var next: Timer?

    constructor (slot: nat)
      ensures this.slot == slot && next == null && prev == null
    {
      this.slot, this.expire, this.prev, this.next := slot, 0, null, null;
    }
  }

  class TimerList {
    var head: Timer?
    var tail: Timer?
    var held: bool
    /** Whether the mutex may be locked again by its holder; `timer_init` asks for one that may not. */
    const reentrant: bool
    ghost var timers: seq<Timer>

    ghost predicate Linked()
      reads this`head, this`tail, this`timers, timers`next, timers`prev
    {
      && Distinct(timers)
      && head == At(timers, 0, null)
      && tail == At(timers, |timers| - 1, null)
      && (forall i {:trigger timers[i].next} :: 0 <= i < |timers| ==> timers[i].next == At(timers, i + 1, null))
      && (forall i {:trigger timers[i].prev} :: 0 <= i < |timers| ==> timers[i].prev == At(timers, i - 1, null))
    }

    static ghost predicate Distinct(ts: seq<Timer>) {
      forall i, j :: 0 <= i < j < |ts| ==> ts[i].slot != ts[j].slot
    }

    static lemma DistinctFrom(ts: seq<Timer>, k: nat)
      requires Distinct(ts) && k < |ts|
      ensures forall i {:trigger ts[i]} :: 0 <= i < |ts| && i != k ==> ts[i].slot != ts[k].slot
    {
    }

    static lemma DistinctSuffix(ts: seq<Timer>, n: nat)
      requires Distinct(ts) && n <= |ts|
      ensures forall i {:trigger ts[i]} :: 0 <= i < n ==> ts[i] !in ts[n..]
    {
    }

    static lemma SuffixMembers(ts: seq<Timer>, n: nat)
      requires n <= |ts|
      ensures forall t :: t in ts[n..] ==> t in ts
      ensures n < |ts| ==> ts[n..][1..] == ts[n + 1..]
      ensures ts[|ts|..] == []
    {
    }

    static ghost predicate Cleared(ts: seq<Timer>, n: nat)
      reads ts`next, ts`prev
    {
      n <= |ts| && forall i {:trigger ts[i]} :: 0 <= i < n ==> ts[i].next == null && ts[i].prev == null
    }

    static lemma NoneCleared(ts: seq<Timer>)
      ensures Cleared(ts, 0)
    {
    }

    lemma AllDetached(ts: seq<Timer>, n: nat)
      requires Distinct(ts) && Cleared(ts, n) && timers == ts[n..]
      ensures forall i :: 0 <= i < n ==> Detached(ts[i])
    {
    }

    lemma LinkedDistinct()
      requires Linked()
      ensures Distinct(timers)
    {
    }

    lemma DetachedLinks(timer: Timer)
      requires Detached(timer)
      ensures timer.next == null && timer.prev == null
    {
    }

    static lemma DistinctNone()
      ensures Distinct([])
    {
    }

    static lemma DistinctRemove(ts: seq<Timer>, k: nat)
      requires Distinct(ts) && k < |ts|
      ensures Distinct(Remove(ts, k))
      ensures forall i {:trigger Remove(ts, k)[i]} :: 0 <= i < |ts| - 1 ==> Remove(ts, k)[i].slot != ts[k].slot
    {
    }

    static lemma DistinctInsert(ts: seq<Timer>, p: nat, timer: Timer)
      requires Distinct(ts) && p <= |ts|
      requires forall i :: 0 <= i < |ts| ==> ts[i].slot != timer.slot
      ensures Distinct(Insert(ts, p, timer))
    {
    }

    lemma Ends(k: nat)
      requires Linked() && k < |timers|
      ensures timers[k] == head <==> k == 0
      ensures timers[k] == tail <==> k == |timers| - 1
      ensures k < |timers| - 1 ==> timers[k].next == timers[k + 1]
    {
      DistinctFrom(timers, k);
    }

    /** The list's timers as values. */
    ghost function View(): (es: seq<Entry>)
      reads this`timers, timers`expire
      ensures |es| == |timers|
      ensures forall i {:trigger es[i]} :: 0 <= i < |es| ==> es[i] == Entry(timers[i].slot, timers[i].expire)
    {
      ViewOf(timers)
    }

    static ghost function ViewOf(ts: seq<Timer>): (es: seq<Entry>)
      reads ts`expire
      ensures |es| == |ts|
      ensures forall i {:trigger es[i]} :: 0 <= i < |es| ==> es[i] == Entry(ts[i].slot, ts[i].expire)
    {
      if ts == [] then [] else ViewOf(ts[..|ts| - 1]) + [Entry(ts[|ts| - 1].slot, ts[|ts| - 1].expire)]
    }

    lemma HeadView()
      requires Linked()
      ensures (head == null) == (timers == []) == (View() == [])
      ensures head != null ==> head == timers[0] && View()[0] == Entry(head.slot, head.expire)
    {
    }

    static lemma ViewInsert(ts: seq<Timer>, p: nat, timer: Timer)
      requires p <= |ts|
      ensures ViewOf(Insert(ts, p, timer)) == Insert(ViewOf(ts), p, Entry(timer.slot, timer.expire))
    {
      hide *;
    }

    static lemma ViewRemove(ts: seq<Timer>, k: nat)
      requires k < |ts|
      ensures ViewOf(Remove(ts, k)) == Remove(ViewOf(ts), k)
    {
      hide *;
    }

    /** A timer that is in no list. */
    ghost predicate Detached(timer: Timer)
      reads this`timers, timer`next, timer`prev
    {
      && timer.prev == null
      && timer.next == null
      && forall i :: 0 <= i < |timers| ==> timers[i].slot != timer.slot
    }

    constructor (reentrant: bool)
      ensures Linked() && timers == [] && !held && this.reentrant == reentrant
    {
      head, tail, held, timers := null, null, false, [];
      this.reentrant := reentrant;
    }

    method LinkAfter(timer: Timer, tmp: Timer, ghost p: nat)
      requires Linked() && Detached(timer) && 0 < p <= |timers| && timers[p - 1] == tmp
      modifies this`tail, this`timers, timer`next, timer`prev, timers`next, timers`prev
      ensures Linked() && timers == Insert(old(timers), p, timer)
    {
      hide Distinct, Insert;
      DistinctInsert(timers, p, timer);
      DistinctFrom(timers, p - 1);
      if p < |timers| {
        DistinctFrom(timers, p);
      }
      ghost var ts, more := timers, Insert(timers, p, timer);
      if tmp.next == null {
        timer.prev := tmp;
        timer.next := tmp.next;
        tmp.next := timer;
        tail := timer;
      } else {
        timer.prev := tmp;
        tmp.next.prev := timer;
        timer.next := tmp.next;
        tmp.next := timer;
      }
      timers := more;
      forall i {:trigger more[i].next} | 0 <= i < |more|
        ensures more[i].next == At(more, i + 1, null) && more[i].prev == At(more, i - 1, null)
      {
        assert more[i] == if i < p then ts[i] else if i == p then timer else ts[i - 1];
      }
    }

    method LinkFirst(timer: Timer)
      requires Linked() && Detached(timer)
      modifies this`head, this`tail, this`timers, timer`next, timer`prev, timers`next, timers`prev
      ensures Linked() && timers == Insert(old(timers), 0, timer)
    {
      hide Distinct, Insert;
      DistinctInsert(timers, 0, timer);
      if head == null {
        head := timer;
        tail := timer;
      } else {
        DistinctFrom(timers, 0);
        timer.next := head;
        head.prev := timer;
        head := timer;
      }
      timers := Insert(timers, 0, timer);
    }

    method AddTimer(timer: Timer) returns (status: Status)
      requires Linked() && Detached(timer)
      modifies this`head, this`tail, this`held, this`timers, timer`next, timer`prev, timers`next, timers`prev
      ensures status == if old(held) && !reentrant then Blocked else Success
      ensures status == Blocked ==> unchanged(this, timer) && unchanged(old(timers))
      ensures status == Success ==>
                && Linked() && held == old(held)
                && timers == Insert(old(timers), AddIndex(old(View()), Entry(timer.slot, timer.expire)), timer)
                && View() == Add(old(View()), Entry(timer.slot, timer.expire))
    {
      hide Insert, Detached, Distinct, AfterIndex, View, ViewOf;
      HeadView();
      if held && !reentrant {
        return Blocked;
      }
      var outer := held;
      held := true;
      if head == null || timer.expire < head.expire {
        ViewInsert(timers, 0, timer);
        LinkFirst(timer);
        held := outer;
        return Success;
      }
      status := AddTimerAfter(timer, head, 0);
      held := outer;
    }

    method AddTimerAfter(timer: Timer, target: Timer, ghost k: nat) returns (status: Status)
      requires Linked() && Detached(timer) && k < |timers| && timers[k] == target
      modifies this`tail, this`timers, timer`next, timer`prev, timers`next, timers`prev
      ensures Linked() && status == Success
      ensures timers == Insert(old(timers), AfterIndex(old(View()), k, timer.expire), timer)
      ensures View() == AddAfter(old(View()), k, Entry(timer.slot, timer.expire))
    {
      hide Insert, Detached, Distinct, View, ViewOf;
      var tmp := target;
      ghost var j := k;
      while tmp.next != null && timer.expire > tmp.next.expire
        invariant k <= j < |timers| && tmp == timers[j]
        invariant AfterIndex(View(), j, timer.expire) == AfterIndex(View(), k, timer.expire)
        decreases |timers| - j
      {
        assert tmp.next == At(timers, j + 1, null);
        tmp := tmp.next;
        j := j + 1;
      }
      assert tmp.next == At(timers, j + 1, null);
      ViewInsert(timers, j + 1, timer);
      LinkAfter(timer, tmp, j + 1);
      return Success;
    }

    method AdjustTimer(timer: Timer, ghost k: nat) returns (status: Status)
      requires Linked() && k < |timers| && timers[k] == timer
      modifies this`head, this`tail, this`held, this`timers, timers`next, timers`prev
      ensures status == if held && !reentrant && MovesHead(old(View()), k, timer.expire) then Blocked else Success
      ensures held == old(held)
      ensures status == Blocked ==> Linked() && timers == Remove(old(timers), k) && Detached(timer)
      ensures status == Success ==>
                && Linked()
                && timers == Insert(Remove(old(timers), k), AdjustIndex(old(View()), k), timer)
                && View() == Adjust(old(View()), k)
    {
      hide Linked, At, Insert, Remove, AfterIndex, Detached, Distinct, View, ViewOf;
      Ends(k);
      if timer == tail || timer.expire < timer.next.expire {
        InsertRemoved(timers, k);
        InsertRemoved(View(), k);
        return Success;
      }
      ViewRemove(timers, k);
      var tmp := timer.next;
      if timer == head {
        UnhookHead(timer);
        assert View() == Remove(old(View()), k);
        status := AddTimer(timer);
      } else {
        UnhookMiddle(timer, k);
        assert View() == Remove(old(View()), k);
        status := AddTimerAfter(timer, tmp, k);
      }
    }

    method UnhookHead(timer: Timer)
      requires Linked() && 1 < |timers| && timers[0] == timer
      modifies this`head, this`timers, timers`next, timers`prev
      ensures Linked() && timers == Remove(old(timers), 0) && Detached(timer)
    {
      hide Distinct, Remove, View, ViewOf;
      DistinctFrom(timers, 0);
      DistinctFrom(timers, 1);
      DistinctRemove(timers, 0);
      ghost var ts, rest := timers, Remove(timers, 0);
      head.next.prev := null;
      head := head.next;
      timer.next := null;
      timers := rest;
      forall i {:trigger rest[i].next} | 0 <= i < |rest|
        ensures rest[i].next == At(rest, i + 1, null) && rest[i].prev == At(rest, i - 1, null)
      {
        assert rest[i] == ts[i + 1];
      }
    }

    method UnhookMiddle(timer: Timer, ghost k: nat)
      requires Linked() && 0 < k < |timers| - 1 && timers[k] == timer
      modifies this`timers, timers`next, timers`prev
      ensures Linked() && timers == Remove(old(timers), k) && Detached(timer)
    {
      hide Distinct, Remove, View, ViewOf;
      DistinctFrom(timers, k - 1);
      DistinctFrom(timers, k);
      DistinctFrom(timers, k + 1);
      DistinctRemove(timers, k);
      assert timer.prev == timers[k - 1] && timer.next == timers[k + 1];
      ghost var ts, rest := timers, Remove(timers, k);
      timer.next.prev := timer.prev;
      timer.prev.next := timer.next;
      timer.prev := null;
      timer.next := null;
      timers := rest;
      forall i {:trigger rest[i].next} | 0 <= i < |rest|
        ensures rest[i].next == At(rest, i + 1, null) && rest[i].prev == At(rest, i - 1, null)
      {
        assert rest[i] == if i < k then ts[i] else ts[i + 1];
      }
    }

    method IncTimer(timer: Timer, incTime: nat, now: int, ghost k: nat) returns (status: Status)
      requires Linked() && k < |timers| && timers[k] == timer && !held
      modifies this`head, this`tail, this`held, this`timers, timers`next, timers`prev, timer`expire
      ensures timer.expire == now + incTime
      ensures status == if !reentrant && MovesHead(old(View()), k, now + incTime) then Blocked else Success
      ensures status == Blocked ==> held && Linked() && timers == Remove(old(timers), k)
      ensures status == Success ==>
                && !held && Linked()
                && timers == Insert(Remove(old(timers), k), RefreshIndex(old(View()), k, now + incTime), timer)
                && View() == Refresh(old(View()), k, now + incTime)
    {
      hide Insert, Remove, AdjustIndex, Detached, Distinct;
      DistinctFrom(timers, k);
      held := true;
      timer.expire := now + incTime;
      assert View() == old(View())[k := Entry(timer.slot, now + incTime)];
      status := AdjustTimer(timer, k);
      if status == Success {
        held := false;
      }
    }

    method RemoveTimer(timer: Timer, ghost k: nat) returns (status: Status)
      requires Linked()
      requires (k < |timers| && timers[k] == timer) || (k == |timers| && Detached(timer))
      modifies this`head, this`tail, this`held, this`timers, timer`next, timer`prev, timers`next, timers`prev
      ensures status == if old(timers) == [] then NullArgument
                        else if old(held) && !reentrant then Blocked else Success
      ensures status != Success ==> unchanged(this, timer) && unchanged(old(timers))
      ensures status == Success ==> Linked() && held == old(held) && Detached(timer)
      ensures status == Success && k < |old(timers)| ==>
                timers == Remove(old(timers), k) && View() == Remove(old(View()), k)
      ensures status == Success && k == |old(timers)| ==>
                timers == old(timers) && View() == old(View())
    {
      hide Remove, Detached, Distinct, ViewOf;
      if head == null {
        return NullArgument;
      }
      if held && !reentrant {
        return Blocked;
      }
      var outer := held;
      held := true;
      if k < |timers| {
        ViewRemove(timers, k);
      }
      Unlink(timer, k);
      held := outer;
      return Success;
    }

    /** The pointer updates of `remove_timer`. */
    method Unlink(timer: Timer, ghost k: nat)
      requires Linked() && timers != []
      requires (k < |timers| && timers[k] == timer) || (k == |timers| && Detached(timer))
      modifies this`head, this`tail, this`timers, timer`next, timer`prev, timers`next, timers`prev
      ensures Linked() && Detached(timer)
      ensures timers == if k < |old(timers)| then Remove(old(timers), k) else old(timers)
      ensures k == |old(timers)| ==> unchanged(old(timers))
    {
      hide Distinct, Remove;
      if k < |timers| {
        DistinctFrom(timers, k);
      }
      if timer == head {
        UnlinkHead(timer);
      } else if timer == tail {
        UnlinkTail(timer);
      } else if timer.next != null && timer.prev != null {
        UnhookMiddle(timer, k);
      } else {
        timer.next := null;
        timer.prev := null;
      }
    }

    method UnlinkHead(timer: Timer)
      requires Linked() && timers != [] && timers[0] == timer
      modifies this`head, this`tail, this`timers, timers`next, timers`prev
      ensures Linked() && timers == Remove(old(timers), 0) && Detached(timer)
    {
      hide Distinct, Remove, View, ViewOf;
      DistinctFrom(timers, 0);
      DistinctRemove(timers, 0);
      if 1 < |timers| {
        DistinctFrom(timers, 1);
      }
      ghost var ts, rest := timers, Remove(timers, 0);
      head := timer.next;
      if head != null {
        head.prev := null;
      } else {
        tail := null;
      }
      timer.next := null;
      timer.prev := null;
      timers := rest;
      forall i {:trigger rest[i].next} | 0 <= i < |rest|
        ensures rest[i].next == At(rest, i + 1, null) && rest[i].prev == At(rest, i - 1, null)
      {
        assert rest[i] == ts[i + 1];
      }
    }

    method UnlinkTail(timer: Timer)
      requires Linked() && 1 < |timers| && timers[|timers| - 1] == timer
      modifies this`tail, this`timers, timers`next, timers`prev
      ensures Linked() && timers == Remove(old(timers), |old(timers)| - 1) && Detached(timer)
    {
      hide Distinct, Remove, View, ViewOf;
      ghost var ts, rest := timers, Remove(timers, |timers| - 1);
      DistinctFrom(ts, |ts| - 1);
      DistinctFrom(ts, |ts| - 2);
      DistinctRemove(ts, |ts| - 1);
      tail := timer.prev;
      tail.next := null;
      timer.next := null;
      timer.prev := null;
      timers := rest;
      forall i {:trigger rest[i].next} | 0 <= i < |rest|
        ensures rest[i].next == At(rest, i + 1, null) && rest[i].prev == At(rest, i - 1, null)
      {
        assert rest[i] == ts[i];
      }
    }

    /** `timer_tick`. The callback `dead_clean` may unlink the timer it is called for, as
        `shut_dead_conn` does; the rest of the list is then read from links already cleared. */
    method TimerTick(cur: int, unlinks: bool) returns (status: Status, reaped: seq<nat>)
      requires Linked() && !held
      modifies this`head, this`tail, this`held, this`timers, timers`next, timers`prev
      ensures status == if unlinks && !reentrant && Tick(old(View()), cur, unlinks).0 != [] then Blocked else Success
      ensures status == Blocked ==> reaped == [] && held && Linked() && timers == old(timers) && View() == old(View())
      ensures status == Success ==>
                && !held && Linked()
                && reaped == Slots(Tick(old(View()), cur, unlinks).0)
                && View() == Tick(old(View()), cur, unlinks).1
      ensures reaped == [] ==> timers == old(timers)
    {
      hide *;
      ghost var start, ts, n := View(), timers, 0;
      reaped := [];
      HeadView();
      ReapsNothing(start, cur, unlinks);
      if head == null {
        ReapsAll(start, cur, unlinks, [], []);
        return Success, [];
      }
      held := true;
      var tmp := head;
      while tmp != null && tmp.expire <= cur
        invariant held && Linked() && tmp == head
        invariant 0 <= n <= |ts| && timers == ts[n..] && (reaped == [] ==> n == 0)
        invariant unlinks && !reentrant ==> reaped == [] && View() == start
        invariant Reaping(start, cur, unlinks, reaped, View())
        decreases |timers|
      {
        HeadView();
        SuffixMembers(ts, n);
        ReapsHead(start, cur, unlinks, reaped, View());
        status := DropHead(tmp, unlinks);
        if status == Blocked {
          return;
        }
        n := if unlinks then |ts| else n + 1;
        reaped := reaped + [tmp.slot];
        tmp := head;
      }
      HeadView();
      ReapsAll(start, cur, unlinks, reaped, View());
      held := false;
      return Success, reaped;
    }

    /** The body of the loop: the callback for the head, then the new head. */
    method DropHead(tmp: Timer, unlinks: bool) returns (status: Status)
      requires Linked() && timers != [] && tmp == timers[0] && held
      modifies this`head, this`tail, this`held, this`timers, timers`next, timers`prev
      ensures status == if unlinks && !reentrant then Blocked else Success
      ensures held && Linked()
      ensures timers == if unlinks then (if reentrant then [] else old(timers)) else old(timers)[1..]
      ensures View() == if unlinks then (if reentrant then [] else old(View())) else old(View())[1..]
    {
      hide Distinct, Remove, View, ViewOf;
      HeadView();
      DistinctFrom(timers, 0);
      if unlinks {
        status := RemoveTimer(tmp, 0);
        if status == Blocked {
          return;
        }
        timers := [];
        assert Distinct([]) by { DistinctNone(); }
      } else {
        DistinctRemove(timers, 0);
        RemoveFirst(timers);
        timers := timers[1..];
      }
      head := tmp.next;
      if head != null {
        DistinctFrom(timers, 0);
        head.prev := null;
      } else {
        tail := null;
      }
      return Success;
    }

    /** `timer_tick` with the next timer taken from the list once `shut_dead_conn` has returned. */
    method TimerTickRepaired(cur: int) returns (status: Status, reaped: seq<nat>)
      requires Linked() && !held && reentrant
      modifies this`head, this`tail, this`held, this`timers, timers`next, timers`prev
      ensures status == Success && !held && Linked()
      ensures |reaped| <= |old(timers)| && timers == old(timers)[|reaped|..]
      ensures forall i :: 0 <= i < |reaped| ==> Detached(old(timers)[i])
      ensures reaped == Slots(Tick(old(View()), cur, false).0) && View() == Tick(old(View()), cur, false).1
    {
      hide *;
      ghost var start, ts := View(), timers;
      reaped := [];
      HeadView();
      LinkedDistinct();
      NoneCleared(ts);
      ReapsNothing(start, cur, false);
      if head == null {
        ReapsAll(start, cur, false, [], []);
        return Success, [];
      }
      held := true;
      var tmp := head;
      while tmp != null && tmp.expire <= cur
        invariant held && Linked() && tmp == head
        invariant |timers| + |reaped| == |ts| && timers == ts[|reaped|..]
        invariant Cleared(ts, |reaped|)
        invariant Reaping(start, cur, false, reaped, View())
        decreases |timers|
      {
        HeadView();
        ReapsHead(start, cur, false, reaped, View());
        status := ReapHead(tmp, ts, |reaped|);
        reaped := reaped + [tmp.slot];
        tmp := head;
      }
      HeadView();
      ReapsAll(start, cur, false, reaped, View());
      AllDetached(ts, |reaped|);
      held := false;
      return Success, reaped;
    }

    method ReapHead(tmp: Timer, ghost ts: seq<Timer>, ghost n: nat) returns (status: Status)
      requires Linked() && n < |ts| && timers == ts[n..] && tmp == timers[0] && held && reentrant
      requires Distinct(ts) && Cleared(ts, n)
      modifies this`head, this`tail, this`held, this`timers, timers`next, timers`prev
      ensures status == Success && held && Linked() && Cleared(ts, n + 1)
      ensures timers == ts[n + 1..] && View() == old(View())[1..]
    {
      hide Linked, Distinct, Detached, Remove, View, ViewOf;
      SuffixMembers(ts, n);
      DistinctSuffix(ts, n);
      RemoveFirst(timers);
      RemoveFirst(View());
      status := RemoveTimer(tmp, 0);
      DetachedLinks(tmp);
    }
  }
}
