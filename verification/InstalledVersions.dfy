/** How many installed CRDs carry each Gateway API version, kept up to date from the updates
    of each batch. An object of the store stands for its version annotation. */
module InstalledVersions {
  import opened Wrappers
  import opened Keys
  import opened ObjectStores

  ghost function Annotated(crds: map<ObjectKey, string>, v: string): set<ObjectKey> {
    set k | k in crds && crds[k] == v
  }

  /** A missing entry reads as zero. */
  function Counter(versions: map<string, int>, v: string): int {
    if v in versions then versions[v] else 0
  }

  ghost predicate CountsAt(versions: map<string, int>, crds: map<ObjectKey, string>, v: string) {
    Counter(versions, v) == |Annotated(crds, v)| && (v in versions ==> versions[v] != 0)
  }

  /** Every counter is the number of CRDs with that version; none is zero. */
  ghost predicate Counts(versions: map<string, int>, crds: map<ObjectKey, string>) {
    forall v :: CountsAt(versions, crds, v)
  }

  function Increment(versions: map<string, int>, v: string): map<string, int> {
    versions[v := Counter(versions, v) + 1]
  }

  function Decrement(versions: map<string, int>, v: string): map<string, int> {
    var n := Counter(versions, v) - 1;
    if n == 0 then versions - {v} else versions[v := n]
  }

  lemma CountAdded(versions: map<string, int>, crds: map<ObjectKey, string>, k: ObjectKey, v: string)
    requires Counts(versions, crds) && k !in crds
    ensures Counts(Increment(versions, v), crds[k := v])
  {
    var after := crds[k := v];
    forall w ensures CountsAt(Increment(versions, v), after, w) {
      assert CountsAt(versions, crds, w);
      assert Annotated(after, w) == Annotated(crds, w) + if w == v then {k} else {};
    }
  }

  lemma CountRemoved(versions: map<string, int>, crds: map<ObjectKey, string>, k: ObjectKey)
    requires Counts(versions, crds) && k in crds
    ensures Counts(Decrement(versions, crds[k]), crds - {k})
  {
    var v := crds[k];
    forall w ensures CountsAt(Decrement(versions, v), crds - {k}, w) {
      assert CountsAt(versions, crds, w);
      assert Annotated(crds - {k}, w) == Annotated(crds, w) - if w == v then {k} else {};
      assert w == v ==> k in Annotated(crds, w);
    }
  }

  /** The CRDs once the updates in `done` were counted: those as they are, the rest as before. */
  ghost function Mixed(base: map<ObjectKey, string>, crds: map<ObjectKey, string>, done: set<ObjectKey>): map<ObjectKey, string> {
    map k | k in base.Keys + crds.Keys && (if k in done then k in crds else k in base) :: if k in done then crds[k] else base[k]
  }

  lemma MixedStep(base: map<ObjectKey, string>, crds: map<ObjectKey, string>, done: set<ObjectKey>, k: ObjectKey)
    requires k !in done
    ensures var before, after := Mixed(base, crds, done), Mixed(base, crds, done + {k});
            && Lookup(before, k) == Lookup(base, k)
            && after == if k in crds then (before - {k})[k := crds[k]] else before - {k}
  {}

  lemma MixedEnds(base: map<ObjectKey, string>, s: StoreState<string>)
    requires Coalesced(base, s)
    ensures Mixed(base, s.objects, {}) == base && Mixed(base, s.objects, s.updates.Keys) == s.objects
  {
    var m := Mixed(base, s.objects, s.updates.Keys);
    forall k ensures Lookup(m, k) == Lookup(s.objects, k) {}
    assert forall k :: k in m <==> Lookup(m, k).Some?;
    assert forall k :: k in s.objects <==> Lookup(s.objects, k).Some?;
  }

  lemma UpdateAt(base: map<ObjectKey, string>, s: StoreState<string>, k: ObjectKey)
    requires Coalesced(base, s) && k in s.updates
    ensures s.updates[k].oldObject == Lookup(base, k)
    ensures s.updates[k].status == if k in s.objects then Upserted else Deleted
  {}

  /** A CRD seen and gone within one batch: its deletion has no old object to read. */
  ghost predicate CameAndWent(u: Update<string>) {
    u.status == Deleted && u.oldObject == None
  }

  ghost predicate AllSupported(supported: string -> bool, crds: map<ObjectKey, string>) {
    forall k :: k in crds ==> supported(crds[k])
  }

  class InstalledVersionsBuilder {
    const supported: string -> bool
    var versions: map<string, int>
    var allValid: bool
    var updated: Option<bool>

    /** The counters are right, and once there was an update so is the verdict. */
    ghost predicate Valid(crds: map<ObjectKey, string>)
      reads this
    {
      Counts(versions, crds) && (updated != None ==> (allValid <==> AllSupported(supported, crds)))
    }

    constructor (supported: string -> bool)
      ensures Valid(map[]) && updated == None && this.supported == supported
    {
      this.supported := supported;
      versions, allValid, updated := map[], false, None;
      new;
      forall v ensures CountsAt(versions, map[], v) {
        assert Annotated(map[], v) == {};
      }
    }

    /** Counts the updates in any order. A deletion reads its old object, so a CRD that
        came and went within the batch stops the controller. */
    method Build(crds: map<ObjectKey, string>, updates: map<ObjectKey, Update<string>>, ghost base: map<ObjectKey, string>)
      returns (crashed: bool)
      requires Valid(base) && Coalesced(base, StoreState(crds, updates))
      modifies this
      ensures crashed <==> exists k :: k in updates && CameAndWent(updates[k])
      ensures !crashed ==> Valid(crds)
      ensures !crashed && updates != map[] ==>
                updated == Some(old(updated) == None || allValid != old(allValid))
      ensures updates == map[] ==> updated == old(updated) && allValid == old(allValid)
    {
      MixedEnds(base, StoreState(crds, updates));
      hide Counts, Mixed, Coalesced;
      var todo := updates.Keys;
      assert updates.Keys - todo == {};
      while todo != {}
        invariant todo <= updates.Keys
        invariant Counts(versions, Mixed(base, crds, updates.Keys - todo))
        invariant forall k :: k in updates.Keys - todo ==> !CameAndWent(updates[k])
        invariant updated == old(updated) && allValid == old(allValid)
      {
        var k :| k in todo;
        ghost var done := updates.Keys - todo;
        todo := todo - {k};
        assert updates.Keys - todo == done + {k};
        MixedStep(base, crds, done, k);
        UpdateAt(base, StoreState(crds, updates), k);
        ghost var before := Mixed(base, crds, done);
        match updates[k].status {
          case Upserted =>
            BuildUpserted(crds, k, updates[k], before);
          case Deleted =>
            if updates[k].oldObject == None {
              return true;
            }
            BuildDeleted(k, updates[k].oldObject.value, before);
          case Unchanged =>
        }
      }
      assert updates.Keys - todo == updates.Keys;
      assert updates == map[] ==> updates.Keys == {};
      if updates != map[] {
        OnUpdateInstalledVersion(crds);
      }
      return false;
    }

    method BuildUpserted(crds: map<ObjectKey, string>, k: ObjectKey, update: Update<string>, ghost before: map<ObjectKey, string>)
      requires Counts(versions, before) && Lookup(before, k) == update.oldObject
      modifies this`versions
      ensures Counts(versions, if k in crds then (before - {k})[k := crds[k]] else before)
    {
      if k !in crds {
        return;
      }
      var bundleVersion := crds[k];
      if update.oldObject != None {
        var previous := update.oldObject.value;
        if previous == bundleVersion {
          assert (before - {k})[k := crds[k]] == before;
          return;
        }
        CountRemoved(versions, before, k);
        versions := Decrement(versions, previous);
      } else {
        assert before - {k} == before;
      }
      CountAdded(versions, before - {k}, k, bundleVersion);
      versions := Increment(versions, bundleVersion);
    }

    /** Between cycles the flag is lowered, unless it was never set. */
    method CleanUpdated(ghost crds: map<ObjectKey, string>)
      requires Valid(crds)
      modifies this`updated
      ensures Valid(crds) && updated == if old(updated) == None then None else Some(false)
    {
      if updated != None {
        updated := Some(false);
      }
    }

    method BuildDeleted(k: ObjectKey, previous: string, ghost before: map<ObjectKey, string>)
      requires Counts(versions, before) && Lookup(before, k) == Some(previous)
      modifies this`versions
      ensures Counts(versions, before - {k})
    {
      CountRemoved(versions, before, k);
      versions := Decrement(versions, previous);
    }

    method OnUpdateInstalledVersion(ghost crds: map<ObjectKey, string>)
      requires Counts(versions, crds)
      modifies this`allValid, this`updated
      ensures allValid <==> AllSupported(supported, crds)
      ensures updated == Some(old(updated) == None || allValid != old(allValid))
    {
      var versionValidUpdated := CheckSupportedVersion(crds);
      if updated == None {
        updated := Some(true);
        return;
      }
      updated := Some(versionValidUpdated);
    }

    method CheckSupportedVersion(ghost crds: map<ObjectKey, string>) returns (changed: bool)
      requires Counts(versions, crds)
      modifies this`allValid
      ensures allValid <==> AllSupported(supported, crds)
      ensures changed <==> allValid != old(allValid)
    {
      var newValue := true;
      var todo := versions.Keys;
      while todo != {}
        invariant todo <= versions.Keys && allValid == old(allValid)
        invariant newValue <==> forall v :: v in versions.Keys - todo ==> supported(v)
      {
        var v :| v in todo;
        todo := todo - {v};
        newValue := newValue && supported(v);
      }
      VersionsAreThoseOf(versions, crds);
      changed := newValue != allValid;
      allValid := newValue;
    }
  }

  lemma VersionsAreThoseOf(versions: map<string, int>, crds: map<ObjectKey, string>)
    requires Counts(versions, crds)
    ensures forall v :: v in versions <==> exists k :: k in crds && crds[k] == v
  {
    forall v ensures v in versions <==> exists k :: k in crds && crds[k] == v {
      assert CountsAt(versions, crds, v);
      if k :| k in crds && crds[k] == v {
        assert k in Annotated(crds, v);
      }
      if v in versions {
        assert Annotated(crds, v) != {};
      }
    }
  }

  /** Whether a batch leaves a trace of a CRD that existed neither before nor after it. */
  ghost predicate HasFleeting(base: map<ObjectKey, string>, batch: seq<Event<string>>) {
    exists k :: k in ObjectStores.Touched(batch) && k !in base && Net(base, batch, k) == None
  }

  /** Installing a CRD and removing it before the batch is handled is such a batch. */
  lemma FleetingExample(k: ObjectKey, v: string)
    ensures HasFleeting(map[], [Upsert(k, v), Delete(k)])
  {
    var batch: seq<Event<string>> := [Upsert(k, v), Delete(k)];
    assert batch[1].key == k && k in ObjectStores.Touched(batch);
    assert Net(map[], batch, k) == None;
  }

  ghost predicate NoneTouched(batches: seq<seq<Event<string>>>, n: nat)
    requires n <= |batches|
  {
    forall j :: 0 <= j < n ==> ObjectStores.Touched(batches[j]) == {}
  }

  ghost predicate VerdictChanges(supported: string -> bool, base: map<ObjectKey, string>, batches: seq<seq<Event<string>>>, i: nat)
    requires i < |batches|
  {
    AllSupported(supported, ObjectsAfter(base, batches[..i + 1])) != AllSupported(supported, ObjectsAfter(base, batches[..i]))
  }

  /** Batch after batch the counters stay right, and only a CRD that came and went stops it.
      The flag is raised by the first batch that touches a CRD, and by those that change the
      verdict on all of them. */
  method RunBatches(store: ObjectStore<string>, builder: InstalledVersionsBuilder, batches: seq<seq<Event<string>>>)
    returns (crashed: bool, done: nat, ghost raised: seq<bool>)
    requires builder.Valid(store.objects) && store.updates == map[]
    modifies store, builder
    ensures !crashed ==> done == |batches| && builder.Valid(store.objects)
    ensures crashed ==> done < |batches|
    ensures forall i :: 0 <= i < done ==> !HasFleeting(ObjectsAfter(old(store.objects), batches[..i]), batches[i])
    ensures crashed ==> HasFleeting(ObjectsAfter(old(store.objects), batches[..done]), batches[done])
    ensures store.objects == ObjectsAfter(old(store.objects), batches[..if crashed then done + 1 else done])
    ensures |raised| == done
    ensures forall i :: 0 <= i < done && ObjectStores.Touched(batches[i]) != {} ==>
              (raised[i] <==> (old(builder.updated) == None && NoneTouched(batches, i)) || VerdictChanges(builder.supported, old(store.objects), batches, i))
    ensures !crashed && batches != [] ==> builder.updated in {None, Some(false)}
  {
    hide Coalesced, Run, HasFleeting, CameAndWent, Counts, AllSupported, ObjectsAfter;
    NoBatches(store.objects, batches);
    ghost var start := store.objects;
    raised := [];
    crashed, done := false, 0;
    for i := 0 to |batches|
      invariant done == i && builder.Valid(store.objects) && store.updates == map[]
      invariant store.objects == ObjectsAfter(start, batches[..i])
      invariant forall j :: 0 <= j < i ==> !HasFleeting(ObjectsAfter(start, batches[..j]), batches[j])
      invariant |raised| == i && (i > 0 ==> builder.updated in {None, Some(false)})
      invariant builder.updated == None <==> old(builder.updated) == None && NoneTouched(batches, i)
      invariant forall j :: 0 <= j < i && ObjectStores.Touched(batches[j]) != {} ==>
                  (raised[j] <==> (old(builder.updated) == None && NoneTouched(batches, j)) || VerdictChanges(builder.supported, start, batches, j))
    {
      ghost var base := store.objects;
      AfterOneMore(start, batches, i);
      RunCoalesces(base, batches[i]);
      store.Handle(batches[i]);
      crashed := builder.Build(store.objects, store.updates, base);
      FleetingIsCameAndWent(base, batches[i]);
      if crashed {
        return;
      }
      raised := raised + [builder.updated == Some(true)];
      store.ResetUpdates();
      builder.CleanUpdated(store.objects);
      done := done + 1;
    }
  }

  ghost function ObjectsAfter(base: map<ObjectKey, string>, batches: seq<seq<Event<string>>>): map<ObjectKey, string>
    decreases |batches|
  {
    if batches == [] then base
    else Run(StoreState(ObjectsAfter(base, batches[..|batches| - 1]), map[]), batches[|batches| - 1]).objects
  }

  lemma NoBatches(base: map<ObjectKey, string>, batches: seq<seq<Event<string>>>)
    ensures ObjectsAfter(base, batches[..0]) == base
  {}

  lemma AfterOneMore(base: map<ObjectKey, string>, batches: seq<seq<Event<string>>>, i: nat)
    requires i < |batches|
    ensures ObjectsAfter(base, batches[..i + 1]) == Run(StoreState(ObjectsAfter(base, batches[..i]), map[]), batches[i]).objects
  {
    assert batches[..i + 1][..i] == batches[..i];
  }

  lemma FleetingIsCameAndWent(base: map<ObjectKey, string>, batch: seq<Event<string>>)
    ensures var updates := Run(StoreState(base, map[]), batch).updates;
            HasFleeting(base, batch) <==> exists k :: k in updates && CameAndWent(updates[k])
  {
    RunCoalesces(base, batch);
    var s := Run(StoreState(base, map[]), batch);
    if k :| k in s.updates && CameAndWent(s.updates[k]) {
      assert Lookup(s.objects, k) == Net(base, batch, k);
      assert k in ObjectStores.Touched(batch) && k !in base && Net(base, batch, k) == None;
    }
    if HasFleeting(base, batch) {
      var k :| k in ObjectStores.Touched(batch) && k !in base && Net(base, batch, k) == None;
      assert Lookup(s.objects, k) == Net(base, batch, k);
      assert k in s.updates && CameAndWent(s.updates[k]);
    }
  }
}
