/** The event-coalescing store: the current objects, and one update per object
    touched since the last reset. */
module ObjectStores {
  import opened Wrappers
  import opened Keys

  datatype Status = Unchanged | Upserted | Deleted

  datatype Update<T> = Update(oldObject: Option<T>, newObject: Option<T>, status: Status)

  datatype Event<T> = Upsert(key: ObjectKey, obj: T) | Delete(key: ObjectKey)

  datatype StoreState<T> = StoreState(objects: map<ObjectKey, T>, updates: map<ObjectKey, Update<T>>)

  function Lookup<T>(m: map<ObjectKey, T>, k: ObjectKey): Option<T> {
    if k in m then Some(m[k]) else None
  }

  /** The oldest version since the reset is kept, the newest replaces. */
  function Step<T>(s: StoreState<T>, e: Event<T>): StoreState<T> {
    var oldest := if e.key in s.updates then s.updates[e.key].oldObject else Lookup(s.objects, e.key);
    match e
    case Upsert(k, obj) => StoreState(s.objects[k := obj], s.updates[k := Update(oldest, Some(obj), Upserted)])
    case Delete(k) => StoreState(s.objects - {k}, s.updates[k := Update(oldest, None, Deleted)])
  }

  function Run<T>(s: StoreState<T>, events: seq<Event<T>>): StoreState<T>
    decreases |events|
  {
    if events == [] then s
    else Step(Run(s, events[..|events|-1]), events[|events|-1])
  }

  lemma RunSnoc<T>(s: StoreState<T>, events: seq<Event<T>>, e: Event<T>)
    ensures Run(s, events + [e]) == Step(Run(s, events), e)
  {
    assert (events + [e])[..|events|] == events;
  }

  class ObjectStore<T> {
    var objects: map<ObjectKey, T>
    var updates: map<ObjectKey, Update<T>>

    ghost function State(): StoreState<T>
      reads this
    {
      StoreState(objects, updates)
    }

    constructor ()
      ensures State() == StoreState(map[], map[])
    {
      objects, updates := map[], map[];
    }

    method Upsert(key: ObjectKey, obj: T)
      modifies this
      ensures State() == Step(old(State()), Event.Upsert(key, obj))
    {
      var previousObj := Lookup(objects, key);
      objects := objects[key := obj];
      var update := if key in updates then updates[key] else Update(previousObj, None, Unchanged);
      update := update.(status := Upserted);
      update := update.(newObject := Some(obj));
      updates := updates[key := update];
    }

    method Delete(key: ObjectKey)
      modifies this
      ensures State() == Step(old(State()), Event.Delete(key))
    {
      var previousObj := Lookup(objects, key);
      objects := objects - {key};
      var update := if key in updates then updates[key] else Update(previousObj, None, Unchanged);
      update := update.(status := Deleted);
      update := update.(newObject := None);
      updates := updates[key := update];
    }

    method ResetUpdates()
      modifies this
      ensures State() == StoreState(old(objects), map[])
    {
      updates := map[];
    }

    method Handle(events: seq<Event<T>>)
      modifies this
      ensures State() == Run(old(State()), events)
    {
      for i := 0 to |events|
        invariant State() == Run(old(State()), events[..i])
      {
        assert events[..i+1][..i] == events[..i];
        match events[i] {
          case Upsert(k, obj) => Upsert(k, obj);
          case Delete(k) => Delete(k);
        }
      }
      assert events[..|events|] == events;
    }
  }

  // ---- what a run of events means, without the store

  ghost function Touched<T>(events: seq<Event<T>>): set<ObjectKey> {
    set e | e in events :: e.key
  }

  /** The object the last event on `k` leaves behind. */
  ghost function Net<T>(base: map<ObjectKey, T>, events: seq<Event<T>>, k: ObjectKey): Option<T>
    decreases |events|
  {
    if events == [] then Lookup(base, k)
    else
      var last := events[|events|-1];
      if last.key != k then Net(base, events[..|events|-1], k)
      else if last.Upsert? then Some(last.obj) else None
  }

  /** `updates` is exactly the difference between `base` and `objects` on the touched keys. */
  ghost predicate Coalesced<T>(base: map<ObjectKey, T>, s: StoreState<T>) {
    && (forall k :: k !in s.updates ==> Lookup(base, k) == Lookup(s.objects, k))
    && (forall k :: k in s.updates ==>
          s.updates[k] == Update(Lookup(base, k), Lookup(s.objects, k),
                                 if k in s.objects then Upserted else Deleted))
  }

  /** Replays the updates on the objects of the last reset. */
  ghost function ApplyUpdates<T>(base: map<ObjectKey, T>, updates: map<ObjectKey, Update<T>>): map<ObjectKey, T> {
    map k | k in base.Keys + updates.Keys && (k in updates ==> updates[k].newObject.Some?) ::
      if k in updates then updates[k].newObject.value else base[k]
  }

  lemma {:induction false} RunCoalesces<T>(base: map<ObjectKey, T>, events: seq<Event<T>>)
    ensures var s := Run(StoreState(base, map[]), events);
            && Coalesced(base, s)
            && s.updates.Keys == Touched(events)
            && (forall k :: Lookup(s.objects, k) == Net(base, events, k))
    decreases |events|
  {
    if events != [] {
      var init, last := events[..|events|-1], events[|events|-1];
      RunCoalesces(base, init);
      TouchedSnoc(init, last);
      assert events == init + [last];
      hide Touched, Coalesced, Net;
      RunIsNet(base, events);
      StepCoalesces(base, Run(StoreState(base, map[]), init), last);
    }
  }

  lemma {:induction false} RunIsNet<T>(base: map<ObjectKey, T>, events: seq<Event<T>>)
    ensures forall k :: Lookup(Run(StoreState(base, map[]), events).objects, k) == Net(base, events, k)
    decreases |events|
  {
    if events != [] {
      RunIsNet(base, events[..|events|-1]);
    }
  }

  lemma TouchedSnoc<T>(events: seq<Event<T>>, e: Event<T>)
    ensures Touched(events + [e]) == Touched(events) + {e.key}
  {
    forall k | k in Touched(events) + {e.key} ensures k in Touched(events + [e]) {
      if k == e.key { assert e in events + [e]; }
    }
  }

  lemma StepCoalesces<T>(base: map<ObjectKey, T>, s: StoreState<T>, e: Event<T>)
    requires Coalesced(base, s)
    ensures Coalesced(base, Step(s, e))
  {}

  lemma UpdatesReplay<T>(base: map<ObjectKey, T>, events: seq<Event<T>>)
    ensures var s := Run(StoreState(base, map[]), events);
            ApplyUpdates(base, s.updates) == s.objects
  {
    RunCoalesces(base, events);
    var s := Run(StoreState(base, map[]), events);
    CoalescedReplay(base, s);
  }

  lemma CoalescedReplay<T>(base: map<ObjectKey, T>, s: StoreState<T>)
    requires Coalesced(base, s)
    ensures ApplyUpdates(base, s.updates) == s.objects
  {
    var r := ApplyUpdates(base, s.updates);
    forall k ensures Lookup(r, k) == Lookup(s.objects, k) {}
    assert forall k :: k in r <==> Lookup(r, k).Some?;
    assert forall k :: k in s.objects <==> Lookup(s.objects, k).Some?;
  }
}
