/** The timers of all connections and the list they are kept in, updated in place: what the handlers
    do with them (src/mqtt_handler.c, src/server.c), against the values of `KeepAlive`. */
module Connections {
  import opened Sequences
  import opened TimerSpec
  import opened TimerList
  import KeepAlive

  /** The list holds the timers of exactly the slots with a span. */
  ghost predicate Tracks(ts: seq<Timer>, timer: seq<Timer>, spans: map<nat, nat>) {
    && (forall k {:trigger timer[k]} :: 0 <= k < |timer| ==> timer[k].slot == k)
    && (forall t :: t in ts ==> t.slot < |timer| && timer[t.slot] == t)
    && (forall k: nat :: k in spans <==> k < |timer| && timer[k] in ts)
  }

  lemma TracksInsert(ts: seq<Timer>, timer: seq<Timer>, spans: map<nat, nat>, k: nat, p: nat, span: nat)
    requires Tracks(ts, timer, spans) && k < |timer| && p <= |ts|
    ensures Tracks(Insert(ts, p, timer[k]), timer, spans[k := span])
    ensures k !in spans ==> forall t :: t in ts ==> t.slot != k
  {
    hide Insert;
    MembersInserted(ts, p, timer[k]);
    assert forall j {:trigger timer[j]} :: 0 <= j < |timer| && j != k ==> timer[j].slot != timer[k].slot;
  }

  lemma TracksMoved(ts: seq<Timer>, timer: seq<Timer>, spans: map<nat, nat>, k: nat, p: nat)
    requires Tracks(ts, timer, spans) && k < |ts| && p < |ts|
    ensures Tracks(Insert(Remove(ts, k), p, ts[k]), timer, spans)
    ensures forall t :: t in Insert(Remove(ts, k), p, ts[k]) <==> t in ts
  {
    hide Insert, Remove;
    MembersRemoved(ts, k);
    MembersInserted(Remove(ts, k), p, ts[k]);
  }

  lemma TracksRemove(ts: seq<Timer>, timer: seq<Timer>, spans: map<nat, nat>, k: nat)
    requires Tracks(ts, timer, spans) && TimerList.Distinct(ts) && k < |ts|
    ensures Tracks(Remove(ts, k), timer, spans - {ts[k].slot})
    ensures forall t :: t in Remove(ts, k) <==> t in ts && t != ts[k]
  {
    hide Remove;
    MembersRemoved(ts, k);
    TimerList.DistinctRemove(ts, k);
    assert forall t :: t in Remove(ts, k) ==> t.slot != ts[k].slot;
  }

  lemma TracksSuffix(ts: seq<Timer>, timer: seq<Timer>, spans: map<nat, nat>, slots: seq<nat>)
    requires Tracks(ts, timer, spans) && TimerList.Distinct(ts) && |slots| <= |ts|
    requires forall i :: 0 <= i < |slots| ==> slots[i] == ts[i].slot
    ensures Tracks(ts[|slots|..], timer, spans - set s | s in slots)
  {
    var n := |slots|;
    forall i | n <= i < |ts|
      ensures ts[i] in ts[n..] && ts[i].slot !in slots
    {
      assert ts[n..][i - n] == ts[i];
    }
    forall i | 0 <= i < n
      ensures ts[i] !in ts[n..] && ts[i].slot in slots
    {
      TimerList.DistinctSuffix(ts, n);
      assert slots[i] == ts[i].slot;
    }
  }

  /** What a tick reaps is a prefix of the list, and it forgets those slots. */
  lemma {:induction false} DuePrefix(es: seq<Entry>, cur: int)
    ensures var (due, left) := Tick(es, cur, false);
            && due <= es && left == es[|due|..]
            && (set x | x in due :: x.slot) == set s | s in Slots(due)
    decreases |es|
  {
    var due := Tick(es, cur, false).0;
    if es != [] && es[0].expire <= cur {
      DuePrefix(es[1..], cur);
      assert due == [es[0]] + Tick(es[1..], cur, false).0;
    }
    forall s
      ensures s in Slots(due) <==> exists x :: x in due && x.slot == s
    {
      KeepAlive.SlotIn(due, s);
    }
  }

  class Connections {
    const list: TimerList
    /** The timer inside each slot's `struct client_data`. */
    const timer: seq<Timer>
    /** `expire_time` of the slots whose CONNECT has been read. */
    var expireTime: map<nat, nat>

    ghost predicate Valid()
      reads this, list, list.timers, timer
    {
      && list.Linked() && !list.held
      && Tracks(list.timers, timer, expireTime)
      && OthersClear(list.timers)
    }

    /** Timers that are not among these are in no list. */
    ghost predicate OthersClear(ts: seq<Timer>)
      reads timer
    {
      forall k {:trigger timer[k]} :: 0 <= k < |timer| && timer[k] !in ts ==>
        timer[k].next == null && timer[k].prev == null
    }

    ghost function Clock(): KeepAlive.State
      reads this, list, list.timers
    {
      KeepAlive.State(list.View(), expireTime)
    }

    /** As many slots as the server has room for. */
    constructor (slots: nat, reentrant: bool)
      ensures Valid() && |timer| == slots && list.reentrant == reentrant && Clock() == KeepAlive.State([], map[])
      ensures fresh(list) && fresh(timer)
    {
      list := new TimerList(reentrant);
      var ts := Allocate(slots);
      timer, expireTime := ts, map[];
    }

    static method Allocate(slots: nat) returns (ts: seq<Timer>)
      ensures |ts| == slots && fresh(ts)
      ensures forall k {:trigger ts[k]} :: 0 <= k < slots ==> ts[k].slot == k && ts[k].next == null && ts[k].prev == null
    {
      ts := [];
      while |ts| < slots
        invariant |ts| <= slots && fresh(ts)
        invariant forall k {:trigger ts[k]} :: 0 <= k < |ts| ==> ts[k].slot == k && ts[k].next == null && ts[k].prev == null
      {
        var t := new Timer(|ts|);
        ts := ts + [t];
      }
    }

    lemma FreeTimer(k: nat)
      requires Valid() && k < |timer| && k !in expireTime
      ensures timer[k].slot == k && list.Detached(timer[k]) && timer[k] !in list.timers
    {
      assert timer[k] !in list.timers;
      forall i | 0 <= i < |list.timers|
        ensures list.timers[i].slot != timer[k].slot
      {
        assert list.timers[i] in list.timers;
      }
    }

    /** The timer part of `mqtt_handler_connect`. */
    method Open(sockfd: nat, keepAlive: nat, now: int) returns (status: Status)
      requires Valid() && sockfd < |timer| && sockfd !in expireTime
      modifies this, list, list.timers, timer[sockfd]
      ensures status == Success && Valid() && expireTime.Keys == old(expireTime.Keys) + {sockfd}
      ensures forall t :: t in list.timers <==> t in old(list.timers) || t == timer[sockfd]
      ensures Clock() == KeepAlive.Effect(old(Clock()), KeepAlive.Open(sockfd, keepAlive, now), false)
    {
      hide Insert, AddIndex, KeepAlive.Span, TimerList.Linked, TimerList.Detached, Tracks, TimerList.ViewOf;
      FreeTimer(sockfd);
      var t := timer[sockfd];
      expireTime := expireTime[sockfd := KeepAlive.Span(keepAlive)];
      t.expire := now + expireTime[sockfd];
      assert list.View() == old(list.View());
      ghost var p := AddIndex(list.View(), Entry(sockfd, t.expire));
      TracksInsert(list.timers, timer, old(expireTime), sockfd, p, KeepAlive.Span(keepAlive));
      MembersInserted(list.timers, p, t);
      status := list.AddTimer(t);
      assert status == Success && list.timers == Insert(old(list.timers), p, t);
      assert Tracks(list.timers, timer, expireTime);
      assert list.Linked() && !list.held;
    }

    /** How the list is written: with the source's mutex as in the source, otherwise repaired. */
    ghost function Written(): KeepAlive.Server {
      if list.reentrant then KeepAlive.REPAIRED else KeepAlive.AS_WRITTEN
    }

    /** Where a slot's timer is in the list. */
    lemma FindTimer(sockfd: nat) returns (k: nat)
      requires Valid() && sockfd in expireTime
      ensures k == KeepAlive.Find(list.View(), sockfd) && k < |list.timers| && list.timers[k] == timer[sockfd]
      ensures sockfd < |timer| && timer[sockfd].slot == sockfd
    {
      k := KeepAlive.Find(list.View(), sockfd);
      var i :| 0 <= i < |list.timers| && list.timers[i] == timer[sockfd];
      assert list.View()[i].slot == sockfd;
      assert list.timers[k] in list.timers;
    }

    /** `update_conn_timer`. */
    method Activity(sockfd: nat, now: int) returns (status: Status)
      requires Valid() && sockfd in expireTime
      modifies list, list.timers
      ensures match KeepAlive.Step(old(Clock()), KeepAlive.Activity(sockfd, now), Written())
              case None => status == Blocked
              case Some(clock) => status == Success && Valid() && Clock() == clock
    {
      hide Insert, Remove, RefreshIndex, Refresh, MovesHead, TimerList.Linked, TimerList.Detached, TimerList.Distinct;
      hide TimerList.View, TimerList.ViewOf, Tracks, KeepAlive.Find;
      ghost var k := FindTimer(sockfd);
      ghost var was, p := list.timers, RefreshIndex(list.View(), k, now + expireTime[sockfd]);
      TracksMoved(was, timer, expireTime, k, p);
      status := list.IncTimer(timer[sockfd], expireTime[sockfd], now, k);
    }

    /** The list holds timers of slots only. */
    lemma ListedTimers()
      requires Valid()
      ensures forall i :: 0 <= i < |list.timers| ==> list.timers[i] in timer
    {
      forall i | 0 <= i < |list.timers|
        ensures list.timers[i] in timer
      {
        assert list.timers[i] in list.timers;
      }
    }

    /** The timer part of `shut_dead_conn`. */
    method Shut(sockfd: nat, now: int)
      requires Valid() && sockfd < |timer|
      modifies this`expireTime, list, list.timers, timer[sockfd]
      ensures Clock() == KeepAlive.Effect(old(Clock()), KeepAlive.Shut(sockfd, now), false)
      ensures Valid() && expireTime == old(expireTime) - {sockfd}
    {
      ghost var k, left := Taken(sockfd, now);
      hide Remove, Tracks, OthersClear, KeepAlive.Effect, TimerList.Linked, TimerList.Detached, TimerList.View;
      expireTime := expireTime - {sockfd};
      TakeOut(sockfd, k, left);
    }

    /** A connection that is shut in the course of its CONNECT. */
    method OpenAndShut(sockfd: nat, keepAlive: nat, now: int)
      requires Valid() && sockfd < |timer| && sockfd !in expireTime
      modifies this, list, timer
      ensures Valid() && expireTime == old(expireTime)
      ensures Clock() == KeepAlive.Effect(KeepAlive.Effect(old(Clock()), KeepAlive.Open(sockfd, keepAlive, now), false),
                                          KeepAlive.Shut(sockfd, now), false)
    {
      ListedTimers();
      ghost var clock := Clock();
      assert expireTime[sockfd := KeepAlive.Span(keepAlive)] - {sockfd} == expireTime;
      OpenSpans(clock, sockfd, keepAlive, now);
      hide Valid, KeepAlive.Effect;
      var status := Open(sockfd, keepAlive, now);
      ListedTimers();
      Shut(sockfd, now);
    }

    lemma OpenSpans(clock: KeepAlive.State, sockfd: nat, keepAlive: nat, now: int)
      ensures KeepAlive.Effect(clock, KeepAlive.Open(sockfd, keepAlive, now), false).spans ==
              clock.spans[sockfd := KeepAlive.Span(keepAlive)]
    {
    }

    method TakeOut(sockfd: nat, ghost k: nat, ghost left: seq<Timer>)
      requires list.Linked() && !list.held && OthersClear(list.timers) && sockfd < |timer| && k <= |list.timers|
      requires if k < |list.timers| then list.timers[k] == timer[sockfd] else list.Detached(timer[sockfd])
      requires left == if k < |list.timers| then Remove(list.timers, k) else list.timers
      requires forall t :: t in list.timers && t != timer[sockfd] ==> t in left
      modifies list, list.timers, timer[sockfd]
      ensures list.Linked() && !list.held && list.timers == left && OthersClear(left)
      ensures list.View() == if k < |old(list.timers)| then Remove(old(list.View()), k) else old(list.View())
    {
      hide Remove, TimerList.Linked, TimerList.Distinct, TimerList.View;
      var status := list.RemoveTimer(timer[sockfd], k);
    }

    /** What shutting a slot takes out of the list, if anything. */
    lemma Taken(sockfd: nat, now: int) returns (k: nat, left: seq<Timer>)
      requires Valid() && sockfd < |timer|
      ensures k <= |list.timers| && left == (if k < |list.timers| then Remove(list.timers, k) else list.timers)
      ensures if k < |list.timers| then list.timers[k] == timer[sockfd] else list.Detached(timer[sockfd])
      ensures Tracks(left, timer, expireTime - {sockfd})
      ensures forall t :: t in list.timers && t != timer[sockfd] ==> t in left
      ensures KeepAlive.Effect(Clock(), KeepAlive.Shut(sockfd, now), false) ==
              KeepAlive.State(if k < |list.timers| then Remove(list.View(), k) else list.View(), expireTime - {sockfd})
    {
      hide Remove, TimerList.Linked, TimerList.Detached, TimerList.Distinct;
      if sockfd in expireTime {
        k := FindTimer(sockfd);
        list.LinkedDistinct();
        TracksRemove(list.timers, timer, expireTime, k);
        left := Remove(list.timers, k);
      } else {
        FreeTimer(sockfd);
        NotFound(sockfd);
        k, left := |list.timers|, list.timers;
      }
    }

    lemma NotFound(sockfd: nat)
      requires Valid() && sockfd !in expireTime
      ensures KeepAlive.Find(list.View(), sockfd) == |list.timers| && expireTime - {sockfd} == expireTime
    {
      forall e | e in list.View()
        ensures e.slot != sockfd
      {
        var i :| 0 <= i < |list.timers| && list.View()[i] == e;
        assert list.timers[i] in list.timers;
      }
      KeepAlive.FindNone(list.View(), sockfd);
    }

    /** The list's part of a tick. */
    method Reap(now: int) returns (status: Status, reaped: seq<nat>)
      requires list.Linked() && !list.held && OthersClear(list.timers)
      modifies list, list.timers
      ensures status == if !list.reentrant && Tick(old(list.View()), now, true).0 != [] then Blocked else Success
      ensures status == Success ==>
                && list.Linked() && !list.held && OthersClear(list.timers)
                && reaped == Slots(Tick(old(list.View()), now, !list.reentrant).0)
                && list.View() == Tick(old(list.View()), now, !list.reentrant).1
                && |reaped| <= |old(list.timers)| && list.timers == old(list.timers)[|reaped|..]
    {
      hide Tick, TimerList.Linked, TimerList.Distinct, TimerList.View, Slots;
      if list.reentrant {
        status, reaped := list.TimerTickRepaired(now);
      } else {
        status, reaped := list.TimerTick(now, true);
        assert status == Success ==> reaped == [] && list.timers == old(list.timers)[0..];
      }
    }

    /** `timer_handler`, with the part of `shut_dead_conn` that concerns the timer. */
    method Expiry(now: int) returns (status: Status, reaped: seq<nat>)
      requires Valid()
      modifies this`expireTime, list, list.timers
      ensures match KeepAlive.Step(old(Clock()), KeepAlive.Expiry(now), Written())
              case None => status == Blocked
              case Some(clock) =>
                && status == Success && Valid() && Clock() == clock
                && expireTime == old(expireTime) - (set s | s in reaped)
                && reaped == Slots(Tick(old(list.View()), now, Written().unlinks).0)
    {
      hide Tick, Tracks, TimerList.Linked, TimerList.Distinct, Slots, OthersClear;
      ghost var ts, es := list.timers, list.View();
      list.LinkedDistinct();
      DuePrefix(es, now);
      status, reaped := Reap(now);
      if status == Success {
        assert forall i :: 0 <= i < |reaped| ==> reaped[i] == ts[i].slot;
        TracksSuffix(ts, timer, expireTime, reaped);
        Forget(reaped);
      }
    }

    method Forget(slots: seq<nat>)
      requires list.Linked() && !list.held && OthersClear(list.timers)
      requires Tracks(list.timers, timer, expireTime - set s | s in slots)
      modifies this`expireTime
      ensures Valid() && expireTime == old(expireTime) - set s | s in slots
      ensures list.View() == old(list.View())
    {
      hide Tracks, TimerList.Linked, TimerList.View, OthersClear;
      expireTime := expireTime - set s | s in slots;
    }
  }
}
