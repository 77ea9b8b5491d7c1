/**
  The death-watch registry: actors watch others, and learn once per registration when a
  watched actor has stopped.
*/
module DeathWatch {
  import opened Sequences
  import opened Wrappers
  import opened Wire

  /** For every watched actor, the watchers in registration order. */
  type WatcherMap = map<ActorId, seq<ActorId>>

  datatype ChildTerminated = ChildTerminated(watcher: ActorId, child: ActorId, reason: Option<string>)

  function Without(entries: seq<ActorId>, watcher: ActorId): seq<ActorId> {
    if entries == [] then []
    else (if entries[0] == watcher then [] else [entries[0]]) + Without(entries[1..], watcher)
  }

  function WatchersOf(m: WatcherMap, target: ActorId): seq<ActorId> {
    if target in m then m[target] else []
  }

  function AfterWatch(m: WatcherMap, watcher: ActorId, target: ActorId): WatcherMap {
    m[target := WatchersOf(m, target) + [watcher]]
  }

  function AfterUnwatch(m: WatcherMap, watcher: ActorId, target: ActorId): WatcherMap {
    if target !in m then m
    else
      var entries := Without(m[target], watcher);
      if entries == [] then m - {target} else m[target := entries]
  }

  /** The registry once `actor` has stopped: gone as a target and as a watcher, with no empty lists left. */
  function AfterStop(m: WatcherMap, actor: ActorId): WatcherMap {
    map t | t in m && t != actor && Without(m[t], actor) != [] :: Without(m[t], actor)
  }

  /** The steps of a stop: the target goes, then the watcher, then lists that are left empty. */
  lemma StopInSteps(m: WatcherMap, actor: ActorId)
    ensures var others := m - {actor};
            var retained := map t | t in others :: Without(others[t], actor);
            AfterStop(m, actor) == map t | t in retained && retained[t] != [] :: retained[t]
  {
    hide Without;
  }

  class WatchRegistry {
    var watchers: WatcherMap

    constructor ()
      ensures watchers == map[]
    {
      watchers := map[];
    }

    method Watch(watcher: ActorId, target: ActorId)
      modifies this
      ensures watchers == AfterWatch(old(watchers), watcher, target)
    {
      var entries := if target in watchers then watchers[target] else [];
      watchers := watchers[target := entries + [watcher]];
    }

    method Unwatch(watcher: ActorId, target: ActorId)
      modifies this
      ensures watchers == AfterUnwatch(old(watchers), watcher, target)
    {
      if target in watchers {
        var entries := Without(watchers[target], watcher);
        watchers := watchers[target := entries];
        if entries == [] {
          watchers := watchers - {target};
          assert watchers == old(watchers) - {target};
        }
      }
    }

    /** The registry part of `post_stop`; the result is the notifications sent, in order. */
    method PostStop(actor: ActorId, reason: Option<string>) returns (sent: seq<ChildTerminated>)
      modifies this
      ensures watchers == AfterStop(old(watchers), actor)
      ensures |sent| == |WatchersOf(old(watchers), actor)|
      ensures forall i :: 0 <= i < |sent| ==>
                            sent[i] == ChildTerminated(WatchersOf(old(watchers), actor)[i], actor, reason)
    {
      var entries := if actor in watchers then watchers[actor] else [];
      StopInSteps(watchers, actor);
      hide AfterStop, Without;
      watchers := watchers - {actor};
      RetainOthers(actor);
      watchers := map t | t in watchers && watchers[t] != [] :: watchers[t];
      sent := NotifyAll(entries, actor, reason);
    }

    /** Calls every entry's notification, in order. */
    method NotifyAll(entries: seq<ActorId>, actor: ActorId, reason: Option<string>) returns (sent: seq<ChildTerminated>)
      ensures |sent| == |entries|
      ensures forall i :: 0 <= i < |sent| ==> sent[i] == ChildTerminated(entries[i], actor, reason)
    {
      sent := [];
      for i := 0 to |entries|
        invariant |sent| == i
        invariant forall k :: 0 <= k < i ==> sent[k] == ChildTerminated(entries[k], actor, reason)
      {
        sent := sent + [ChildTerminated(entries[i], actor, reason)];
      }
    }

    /** Removes `actor` as a watcher from every list. */
    method RetainOthers(actor: ActorId)
      modifies this
      ensures watchers == map t | t in old(watchers) :: Without(old(watchers)[t], actor)
    {
      var todo := watchers.Keys;
      while todo != {}
        invariant watchers.Keys == old(watchers).Keys && todo <= watchers.Keys
        invariant forall t :: t in watchers ==>
                                watchers[t] == if t in todo then old(watchers)[t] else Without(old(watchers)[t], actor)
        decreases |todo|
      {
        var t :| t in todo;
        watchers := watchers[t := Without(watchers[t], actor)];
        todo := todo - {t};
      }
    }
  }

  // ----- Histories -----

  datatype Event =
    | Watch(watcher: ActorId, target: ActorId)
    | Unwatch(watcher: ActorId, target: ActorId)
    | Stopped(actor: ActorId)

  function AfterEvent(m: WatcherMap, e: Event): WatcherMap {
    match e
    case Watch(w, t) => AfterWatch(m, w, t)
    case Unwatch(w, t) => AfterUnwatch(m, w, t)
    case Stopped(a) => AfterStop(m, a)
  }

  function Run(h: seq<Event>): WatcherMap {
    if h == [] then map[]
    else AfterEvent(Run(h[..|h| - 1]), h[|h| - 1])
  }

  /** What ends a registration of `watcher` with `target`: an unwatch, or either of the two stopping. */
  predicate Ends(e: Event, watcher: ActorId, target: ActorId) {
    e == Unwatch(watcher, target) || e == Stopped(watcher) || e == Stopped(target)
  }

  /** The watch call at index `i` registered a watcher of `target`, and nothing has ended it since. */
  predicate Live(h: seq<Event>, i: nat, target: ActorId)
    requires i < |h|
  {
    && h[i].Watch? && h[i].target == target
    && forall j :: i < j < |h| ==> !Ends(h[j], h[i].watcher, target)
  }

  /** The watchers whose registrations with `target` among the first `n` events are still live, in order. */
  function LiveWatchers(h: seq<Event>, n: nat, target: ActorId): seq<ActorId>
    requires n <= |h|
  {
    if n == 0 then []
    else LiveWatchers(h, n - 1, target) + if Live(h, n - 1, target) then [h[n - 1].watcher] else []
  }

  /** `entries` without those whose registration with `target` the event ends. */
  function Surviving(entries: seq<ActorId>, e: Event, target: ActorId): seq<ActorId> {
    match e
    case Watch(_, _) => entries
    case Unwatch(w, t) => if t == target then Without(entries, w) else entries
    case Stopped(a) => if a == target then [] else Without(entries, a)
  }

  lemma {:induction false} WithoutConcat(a: seq<ActorId>, b: seq<ActorId>, w: ActorId)
    ensures Without(a + b, w) == Without(a, w) + Without(b, w)
  {
    if a == [] {
      ConcatNothing(b);
      ConcatNothing(Without(b, w));
    } else {
      WithoutConcat(a[1..], b, w);
      TailOfConcat(a, b);
      var head := if a[0] == w then [] else [a[0]];
      assert Without(a, w) == head + Without(a[1..], w);
      assert Without(a + b, w) == head + Without((a + b)[1..], w);
      hide Without;
      ConcatAssociates(head, Without(a[1..], w), Without(b, w));
    }
  }

  lemma {:induction false} WithoutRemoves(entries: seq<ActorId>, w: ActorId)
    ensures w !in Without(entries, w)
    ensures w !in entries ==> Without(entries, w) == entries
  {
    if entries != [] { WithoutRemoves(entries[1..], w); }
  }

  lemma SurvivingOneMore(before: seq<ActorId>, w: ActorId, e: Event, target: ActorId)
    ensures Surviving(before + [w], e, target) == Surviving(before, e, target) + if Ends(e, w, target) then [] else [w]
    ensures Surviving(before + [], e, target) == Surviving(before, e, target) + []
  {
    assert before + [] == before;
    match e
    case Watch(_, _) =>
    case Unwatch(u, _) =>
      WithoutConcat(before, [w], u);
      WithoutOne(w, u);
    case Stopped(a) =>
      WithoutConcat(before, [w], a);
      WithoutOne(w, a);
  }

  lemma WithoutOne(w: ActorId, u: ActorId)
    ensures Without([w], u) == if w == u then [] else [w]
  {
  }

  /** One more event ends some of the live registrations and starts at most one. */
  lemma {:induction false} LiveAfterEvent(h: seq<Event>, e: Event, n: nat, target: ActorId)
    requires n <= |h|
    ensures LiveWatchers(h + [e], n, target) == Surviving(LiveWatchers(h, n, target), e, target)
  {
    if n > 0 {
      LiveAfterEvent(h, e, n - 1, target);
      LiveOneMore(h, e, n - 1, target);
      var before := LiveWatchers(h, n - 1, target);
      if Live(h, n - 1, target) {
        SurvivingOneMore(before, h[n - 1].watcher, e, target);
      } else {
        assert before + [] == before;
      }
      assert (h + [e])[n - 1] == h[n - 1];
    }
  }

  lemma LiveOneMore(h: seq<Event>, e: Event, i: nat, target: ActorId)
    requires i < |h|
    ensures h[i].Stopped? ==> !Live(h + [e], i, target) && !Live(h, i, target)
    ensures !h[i].Stopped? ==> (Live(h + [e], i, target) <==> Live(h, i, target) && !Ends(e, h[i].watcher, target))
  {
    var longer := h + [e];
    assert longer[|h|] == e;
    assert forall j :: 0 <= j < |h| ==> longer[j] == h[j];
  }

  ghost predicate NoEmptyLists(m: WatcherMap) {
    forall t :: t in m ==> m[t] != []
  }

  lemma EventKeepsOthers(m: WatcherMap, e: Event, target: ActorId)
    requires NoEmptyLists(m)
    ensures NoEmptyLists(AfterEvent(m, e))
    ensures WatchersOf(AfterEvent(m, e), target)
         == Surviving(WatchersOf(m, target), e, target)
            + if e.Watch? && e.target == target then [e.watcher] else []
  {
    ConcatNothing(Surviving(WatchersOf(m, target), e, target));
    if !e.Watch? { WithoutNothing(if e.Unwatch? then e.watcher else e.actor); }
    hide Without;
  }

  lemma WithoutNothing(w: ActorId)
    ensures Without([], w) == []
  {
  }

  /**
    At every point of every history the registry lists, for each target and in order,
    exactly the watch calls that nothing has ended since, and holds no empty list.
  */
  lemma {:induction false} RegistryIsLiveWatches(h: seq<Event>, target: ActorId)
    ensures WatchersOf(Run(h), target) == LiveWatchers(h, |h|, target)
    ensures NoEmptyLists(Run(h))
  {
    if h != [] {
      var prior, e := h[..|h| - 1], h[|h| - 1];
      RegistryIsLiveWatches(prior, target);
      LiveAfterEvent(prior, e, |prior|, target);
      InitAndLast(h);
      EventKeepsOthers(Run(prior), e, target);
      hide AfterEvent, Surviving, WatchersOf, NoEmptyLists;
    }
  }

  function Count(entries: seq<ActorId>, w: ActorId): nat {
    if entries == [] then 0 else Count(entries[..|entries| - 1], w) + if entries[|entries| - 1] == w then 1 else 0
  }

  /** The live registrations of `watcher` with `target` among the first `n` events. */
  function LiveCalls(h: seq<Event>, n: nat, watcher: ActorId, target: ActorId): nat
    requires n <= |h|
  {
    if n == 0 then 0
    else LiveCalls(h, n - 1, watcher, target) + if Live(h, n - 1, target) && h[n - 1].watcher == watcher then 1 else 0
  }

  lemma {:induction false} CountIsLiveCalls(h: seq<Event>, n: nat, watcher: ActorId, target: ActorId)
    requires n <= |h|
    ensures Count(LiveWatchers(h, n, target), watcher) == LiveCalls(h, n, watcher, target)
  {
    if n > 0 {
      CountIsLiveCalls(h, n - 1, watcher, target);
      var before := LiveWatchers(h, n - 1, target);
      if Live(h, n - 1, target) {
        assert (before + [h[n - 1].watcher])[..|before|] == before;
      } else {
        assert before + [] == before;
      }
    }
  }

  /**
    When an actor stops, each watcher is notified exactly once per watch call of its own
    that is still registered; afterwards the stopped actor is neither watched nor watching,
    so stopping it again notifies nobody.
  */
  lemma StopNotifiesExactly(h: seq<Event>, actor: ActorId, watcher: ActorId)
    ensures Count(WatchersOf(Run(h), actor), watcher) == LiveCalls(h, |h|, watcher, actor)
    ensures var after := Run(h + [Stopped(actor)]);
            && actor !in after
            && (forall t :: t in after ==> actor !in after[t])
            && WatchersOf(after, actor) == []
            && NoEmptyLists(after)
  {
    RegistryIsLiveWatches(h, actor);
    CountIsLiveCalls(h, |h|, watcher, actor);
    assert (h + [Stopped(actor)])[..|h|] == h;
    var m := Run(h);
    forall t | t in m ensures actor !in Without(m[t], actor) { WithoutRemoves(m[t], actor); }
  }
}
