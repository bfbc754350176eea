/** From queues to configuration: what the two passes over the routes of a cycle do to the
    configured backends. */
module BackendCycles {
  import opened Wrappers
  import opened Keys
  import opened BackendOwnership
  import C = Configurations

  type Op = C.Op<C.Backend>

  type Routes = map<ObjectKey, Route>

  ghost predicate NamesKept(backends: map<string, C.Backend>) {
    forall n :: n in backends ==> backends[n].name == n
  }

  /** What can be built in a pass: the backends, and the metadata from their owners. */
  datatype Built = Built(backends: map<string, C.Backend>, metadata: map<string, string>)

  ghost predicate LegalBuilt(b: Built) {
    NamesKept(b.backends)
  }

  /** A backend with a kind of owner, though perhaps no owner of that kind. */
  predicate Typed(o: Owners, be: string) {
    be in o && (HTTPRoute in o[be] || TLSRoute in o[be])
  }

  /** What the two passes of a cycle come to: the owners between them, and what each upserts,
      gives new metadata and deletes; the second works off the queues of the first as well. */
  datatype Passes = Passes(between: Owners, upserted1: set<string>, refreshed1: set<string>, deleted1: set<string>,
                           upserted2: set<string>, refreshed2: set<string>, deleted2: set<string>)

  ghost predicate PassesOf(p: Passes, naming: Naming, before: Owners, after: Owners, http: Routes, tls: Routes, built: Built, built2: Built) {
    && Pruned(before) && Pruned(p.between) && Pruned(after)
    && Renewed(naming, HTTPRoute, http, http.Keys, before, p.between) && Renewed(naming, TLSRoute, tls, tls.Keys, p.between, after)
    && p.upserted1 == QueuedBy(naming, HTTPRoute, http, http.Keys) * p.between.Keys * built.backends.Keys
    && p.deleted1 == GivenUp(before, HTTPRoute, http, http.Keys) + Orphans(before, p.between)
    && p.refreshed1 == LeftBy(naming, HTTPRoute, http, http.Keys, before) * p.between.Keys * built.metadata.Keys
    && p.upserted2 == (QueuedBy(naming, HTTPRoute, http, http.Keys) + QueuedBy(naming, TLSRoute, tls, tls.Keys)) * after.Keys * built2.backends.Keys
    && p.deleted2 == p.deleted1 + GivenUp(p.between, TLSRoute, tls, tls.Keys) + Orphans(p.between, after)
    && p.refreshed2 == (LeftBy(naming, HTTPRoute, http, http.Keys, before) + LeftBy(naming, TLSRoute, tls, tls.Keys, p.between)) * after.Keys * built2.metadata.Keys
  }

  lemma ArePasses(p: Passes, naming: Naming, before: Owners, after: Owners, http: Routes, tls: Routes, built: Built, built2: Built)
    requires Pruned(before) && Pruned(p.between) && Pruned(after)
    requires Renewed(naming, HTTPRoute, http, http.Keys, before, p.between) && Renewed(naming, TLSRoute, tls, tls.Keys, p.between, after)
    requires p.upserted1 == QueuedBy(naming, HTTPRoute, http, http.Keys) * p.between.Keys * built.backends.Keys
    requires p.deleted1 == GivenUp(before, HTTPRoute, http, http.Keys) + Orphans(before, p.between)
    requires p.refreshed1 == LeftBy(naming, HTTPRoute, http, http.Keys, before) * p.between.Keys * built.metadata.Keys
    requires p.upserted2 == (QueuedBy(naming, HTTPRoute, http, http.Keys) + QueuedBy(naming, TLSRoute, tls, tls.Keys)) * after.Keys * built2.backends.Keys
    requires p.deleted2 == p.deleted1 + GivenUp(p.between, TLSRoute, tls, tls.Keys) + Orphans(p.between, after)
    requires p.refreshed2 == (LeftBy(naming, HTTPRoute, http, http.Keys, before) + LeftBy(naming, TLSRoute, tls, tls.Keys, p.between)) * after.Keys * built2.metadata.Keys
    ensures PassesOf(p, naming, before, after, http, tls, built, built2) && WithinBuilt(p, built, built2)
  {}

  lemma SeenInFirstSync(u1: set<string>, d1: set<string>, u2: set<string>, d2: set<string>)
    requires d1 <= d2
    ensures {} + u1 - d1 + u2 - d2 == u1 + u2 - d2
  {}

  // ---- what the configured backends hold

  type Backends = map<string, C.Backend>

  /** Upserts give a backend what was built for it, and leave it the servers it had. */
  ghost function Merge(before: Backends, up: set<string>, built: Backends): Backends {
    map b | b in before.Keys + up * built.Keys ::
      if b in up && b in built then (if b in before then built[b].(servers := before[b].servers) else built[b]) else before[b]
  }

  ghost function Refresh(before: Backends, renewed: set<string>, metadata: map<string, string>): Backends {
    map b | b in before :: if b in renewed && b in metadata then before[b].(metadata := metadata[b]) else before[b]
  }

  ghost function Pass(before: Backends, up: set<string>, renewed: set<string>, gone: set<string>, built: Built): Backends {
    Refresh(Merge(before, up, built.backends), renewed, built.metadata) - gone
  }

  /** The settings a configured backend has at the end: those built in the last pass that
      upserted it, or the ones it had. */
  ghost predicate ContentAt(p: Passes, before: Backends, after: Backends, built: Built, built2: Built, b: string)
    requires b in after
  {
    var be := after[b];
    && be.name == b
    && (b in p.upserted2 ==> b in built2.backends && be.settings == built2.backends[b].settings)
    && (b !in p.upserted2 && b in p.upserted1 ==> b in built.backends && be.settings == built.backends[b].settings)
    && (b !in p.upserted2 + p.upserted1 ==> b in before && be.settings == before[b].settings)
    && be.servers == (if b in before then before[b].servers
                      else if b in p.upserted1 && b in built.backends then built.backends[b].servers
                      else if b in built2.backends then built2.backends[b].servers else map[])
    && (b in p.refreshed2 ==> b in built2.metadata && be.metadata == built2.metadata[b])
    && (b !in p.refreshed2 && b in p.upserted2 ==> b in built2.backends && be.metadata == built2.backends[b].metadata)
    && (b !in p.refreshed2 + p.upserted2 && b in p.refreshed1 ==> b in built.metadata && be.metadata == built.metadata[b])
    && (b !in p.refreshed2 + p.upserted2 + p.refreshed1 && b in p.upserted1 ==> b in built.backends && be.metadata == built.backends[b].metadata)
    && (b !in p.refreshed2 + p.upserted2 + p.refreshed1 + p.upserted1 ==> b in before && be == before[b])
  }

  ghost predicate ContentsExact(p: Passes, before: Backends, after: Backends, built: Built, built2: Built) {
    forall b :: b in after ==> ContentAt(p, before, after, built, built2, b)
  }

  ghost predicate WithinBuilt(p: Passes, built: Built, built2: Built) {
    && p.upserted1 <= built.backends.Keys && p.upserted2 <= built2.backends.Keys
    && p.refreshed1 <= built.metadata.Keys && p.refreshed2 <= built2.metadata.Keys && p.deleted1 <= p.deleted2
  }

  lemma PassesContents(p: Passes, before: Backends, after: Backends, built: Built, built2: Built)
    requires NamesKept(before) && LegalBuilt(built) && LegalBuilt(built2) && WithinBuilt(p, built, built2)
    requires after.Keys !! p.deleted2
    requires var passed := Pass(Pass(before, p.upserted1, p.refreshed1, p.deleted1, built), p.upserted2, p.refreshed2, p.deleted2, built2);
             forall b :: b in after ==> b in passed && after[b] == passed[b]
    ensures ContentsExact(p, before, after, built, built2)
  {
    forall b | b in after ensures ContentAt(p, before, after, built, built2, b) {
      assert b !in p.deleted2 && b !in p.deleted1;
      PassAt(before, p.upserted1, p.refreshed1, p.deleted1, built, b);
      PassAt(Pass(before, p.upserted1, p.refreshed1, p.deleted1, built), p.upserted2, p.refreshed2, p.deleted2, built2, b);
      hide Pass;
    }
  }

  lemma PassAt(before: Backends, up: set<string>, renewed: set<string>, gone: set<string>, built: Built, b: string)
    requires up <= built.backends.Keys && renewed <= built.metadata.Keys && b !in gone
    ensures var after := Pass(before, up, renewed, gone, built);
            && (b in after <==> b in before || b in up)
            && (b in after ==>
                  && after[b].settings == (if b in up then built.backends[b].settings else before[b].settings)
                  && after[b].servers == (if b in before then before[b].servers else built.backends[b].servers)
                  && after[b].metadata == (if b in renewed then built.metadata[b] else if b in up then built.backends[b].metadata else before[b].metadata)
                  && after[b].name == (if b in up then built.backends[b].name else before[b].name))
  {}

  class BackendCycle {
    const manager: BackendManager
    const config: C.Configuration
    var firstSync: bool
    var firstSyncBackends: set<string>

    /** Between cycles. */
    ghost predicate Valid()
      reads this, manager, config
    {
      && config as object != manager && Pruned(manager.owners) && NamesKept(config.backends)
      && firstSyncBackends == {} && (firstSync ==> manager.owners == map[])
    }

    constructor (manager: BackendManager, config: C.Configuration)
      requires config as object != manager && manager.owners == map[] && NamesKept(config.backends)
      ensures Valid() && firstSync && this.manager == manager && this.config == config
    {
      this.manager, this.config := manager, config;
      firstSync, firstSyncBackends := true, {};
    }

    /** `ops` are the operations carried out since `start`. */
    ghost predicate Ran(start: C.Section<C.Backend>, ops: seq<Op>)
      reads config
    {
      config.Backends() == C.ApplyAll(start, ops) && NamesKept(config.backends)
    }

    method Upsert(be: C.Backend, ghost start: C.Section<C.Backend>, ghost ops: seq<Op>) returns (ghost op: Op)
      requires Ran(start, ops)
      modifies config
      ensures Ran(start, ops + [op]) && op.Put? && op.name == be.name && config.Frontends() == old(config.Frontends())
      ensures config.backends == old(config.backends)[be.name := if be.name in old(config.backends) then be.(servers := old(config.backends)[be.name].servers) else be]
    {
      hide C.Apply;
      op := C.Put(be.name, if be.name in config.backends then be.(servers := config.backends[be.name].servers) else be);
      C.LastOp(start, ops + [op]);
      assert (ops + [op])[..|ops|] == ops;
      C.OpValue(config.Backends(), be.name, op.value);
      config.UpsertBackend(be);
      PutKeepsNames(C.ApplyAll(start, ops), op);
    }

    method Overwrite(name: string, md: string, ghost start: C.Section<C.Backend>, ghost ops: seq<Op>) returns (ghost more: seq<Op>)
      requires Ran(start, ops)
      modifies config
      ensures Ran(start, ops + more) && C.NoPuts(more) && C.Removed(more) == {} && config.Frontends() == old(config.Frontends())
      ensures config.backends == Refresh(old(config.backends), {name}, map[name := md])
    {
      hide C.Apply;
      more := if name in config.backends then [C.Overwrite(name, config.backends[name].(metadata := md))] else [];
      if name in config.backends {
        C.OpValue(config.Backends(), name, config.backends[name].(metadata := md));
        C.LastOp(start, ops + more);
        assert (ops + more)[..|ops|] == ops;
      } else {
        assert ops + more == ops;
      }
      config.UpsertBackendMetadata(name, md);
    }

    method Delete(name: string, ghost start: C.Section<C.Backend>, ghost ops: seq<Op>)
      requires Ran(start, ops)
      modifies config
      ensures Ran(start, ops + [C.Remove(name)]) && config.Frontends() == old(config.Frontends())
      ensures config.backends == old(config.backends) - {name}
    {
      C.LastOp(start, ops + [C.Remove(name)]);
      assert (ops + [C.Remove(name)])[..|ops|] == ops;
      config.DeleteBackend(name);
    }

    // -- one pass over the queues

    /** The backends the upsert queue can still bring about: owned, and buildable. */
    ghost function Upsertable(built: Built): set<string>
      reads manager
    {
      set be | be in manager.upserted && Typed(manager.owners, be) && be in built.backends
    }

    /** The unreferenced backends that get new metadata, and those that are deleted. */
    ghost function Refreshed(built: Built): set<string>
      reads manager
    {
      set be | be in manager.unreferenced && Typed(manager.owners, be) && be in built.metadata
    }

    ghost function Untyped(): set<string>
      reads manager
    {
      set be | be in manager.unreferenced && be in manager.owners && !Typed(manager.owners, be)
    }

    method ProcessBackendsUpserted(built: Built, ghost start: C.Section<C.Backend>, ghost ops: seq<Op>) returns (ghost puts: seq<Op>)
      requires LegalBuilt(built) && Ran(start, ops) && config as object != manager
      modifies config, this`firstSyncBackends
      ensures Ran(start, ops + puts) && C.OnlyPuts(puts) && C.Names(puts) == Upsertable(built)
      ensures firstSyncBackends == old(firstSyncBackends) + if firstSync then Upsertable(built) else {}
      ensures config.Frontends() == old(config.Frontends())
      ensures config.backends == Merge(old(config.backends), Upsertable(built), built.backends)
    {
      hide Ran, Upsertable, Merge;
      NothingMerged(config.backends, built.backends);
      puts := [];
      assert ops + puts == ops;
      var todo := manager.upserted.Keys;
      OnlyQueued(built);
      assert Upsertable(built) - todo == {};
      while todo != {}
        invariant todo <= manager.upserted.Keys && Ran(start, ops + puts) && C.OnlyPuts(puts)
        invariant C.Names(puts) == Upsertable(built) - todo
        invariant firstSyncBackends == old(firstSyncBackends) + if firstSync then Upsertable(built) - todo else {}
        invariant config.Frontends() == old(config.Frontends())
        invariant config.backends == Merge(old(config.backends), Upsertable(built) - todo, built.backends)
      {
        var be :| be in todo;
        OneMoreMerged(old(config.backends), Upsertable(built), todo, be, built.backends);
        todo := todo - {be};
        ghost var one := ProcessUpserted(be, built, start, ops + puts);
        assert ops + puts + one == ops + (puts + one);
        if one == [] {
          assert puts + one == puts;
        } else {
          C.NamesSnoc(puts, one[0]);
          assert one == [one[0]];
        }
        puts := puts + one;
      }
      assert Upsertable(built) - todo == Upsertable(built);
    }

    lemma OnlyQueued(built: Built)
      ensures Upsertable(built) <= manager.upserted.Keys
    {}

    method ProcessUpserted(be: string, built: Built, ghost start: C.Section<C.Backend>, ghost ops: seq<Op>) returns (ghost puts: seq<Op>)
      requires be in manager.upserted && LegalBuilt(built) && Ran(start, ops) && config as object != manager
      modifies config, this`firstSyncBackends
      ensures Ran(start, ops + puts)
      ensures if be in Upsertable(built) then |puts| == 1 && puts == [puts[0]] && puts[0].Put? && puts[0].name == be else puts == []
      ensures firstSyncBackends == old(firstSyncBackends) + if firstSync then {be} * Upsertable(built) else {}
      ensures config.Frontends() == old(config.Frontends())
      ensures config.backends == Merge(old(config.backends), {be} * Upsertable(built), built.backends)
    {
      hide Ran, Merge;
      NothingMerged(config.backends, built.backends);
      puts := [];
      assert ops + puts == ops;
      assert be !in Upsertable(built) ==> {be} * Upsertable(built) == {};
      if be !in manager.owners {
        return;
      }
      if HTTPRoute !in manager.owners[be] && TLSRoute !in manager.owners[be] {
        return;
      }
      if be !in built.backends {
        return;
      }
      assert {be} * Upsertable(built) == {be};
      MergedOne(config.backends, be, built.backends);
      ghost var op := Upsert(built.backends[be], start, ops);
      puts := [op];
      if firstSync {
        firstSyncBackends := firstSyncBackends + {be};
      }
    }

    /** Backends that a route no longer names get new metadata, as long as they have a kind
        of owner; the others are deleted. */
    method ProcessBackendsUnreferenced(built: Built, ghost start: C.Section<C.Backend>, ghost ops: seq<Op>) returns (ghost more: seq<Op>)
      requires Ran(start, ops) && config as object != manager
      modifies config, this`firstSyncBackends
      ensures Ran(start, ops + more) && C.NoPuts(more) && C.Removed(more) == Untyped()
      ensures firstSyncBackends == if firstSync then old(firstSyncBackends) - Untyped() + Refreshed(built) else old(firstSyncBackends)
      ensures config.Frontends() == old(config.Frontends())
      ensures config.backends == Refresh(old(config.backends), Refreshed(built), built.metadata) - Untyped()
    {
      hide Ran, Untyped, Refreshed, Refresh;
      NothingRefreshed(config.backends, built.metadata);
      more := [];
      assert ops + more == ops;
      var todo := manager.unreferenced;
      NoneUnreferenced(built);
      assert Refreshed(built) - todo == {} && Untyped() - todo == {};
      while todo != {}
        invariant todo <= manager.unreferenced && Ran(start, ops + more) && C.NoPuts(more)
        invariant C.Removed(more) == Untyped() - todo
        invariant firstSyncBackends == if firstSync then old(firstSyncBackends) - (Untyped() - todo) + (Refreshed(built) - todo) else old(firstSyncBackends)
        invariant config.Frontends() == old(config.Frontends())
        invariant config.backends == Refresh(old(config.backends), Refreshed(built) - todo, built.metadata) - (Untyped() - todo)
      {
        var be :| be in todo;
        OneMoreRefreshed(old(config.backends), Refreshed(built), Untyped(), todo, be, built.metadata);
        todo := todo - {be};
        ghost var one := ProcessUnreferenced(be, built, start, ops + more);
        assert ops + more + one == ops + (more + one);
        RemovedConcat(more, one);
        more := more + one;
      }
      assert Refreshed(built) - todo == Refreshed(built) && Untyped() - todo == Untyped();
    }

    lemma NoneUnreferenced(built: Built)
      ensures Untyped() <= manager.unreferenced && Refreshed(built) <= manager.unreferenced && Untyped() !! Refreshed(built)
    {}

    method ProcessUnreferenced(be: string, built: Built, ghost start: C.Section<C.Backend>, ghost ops: seq<Op>) returns (ghost more: seq<Op>)
      requires be in manager.unreferenced && Ran(start, ops) && config as object != manager
      modifies config, this`firstSyncBackends
      ensures Ran(start, ops + more) && C.NoPuts(more) && C.Removed(more) == {be} * Untyped()
      ensures firstSyncBackends == if firstSync then old(firstSyncBackends) - {be} * Untyped() + {be} * Refreshed(built) else old(firstSyncBackends)
      ensures config.Frontends() == old(config.Frontends())
      ensures config.backends == Refresh(old(config.backends), {be} * Refreshed(built), built.metadata) - {be} * Untyped()
    {
      hide Ran, Refresh;
      NothingRefreshed(config.backends, built.metadata);
      more := [];
      assert ops + more == ops;
      if be !in manager.owners {
        assert {be} * Refreshed(built) == {} == {be} * Untyped();
        return;
      }
      if HTTPRoute !in manager.owners[be] && TLSRoute !in manager.owners[be] {
        Delete(be, start, ops);
        more := [C.Remove(be)];
        assert C.Removed(more) == {be} by { assert more[0].Remove?; }
        assert {be} * Refreshed(built) == {} && {be} * Untyped() == {be};
        if firstSync {
          firstSyncBackends := firstSyncBackends - {be};
        }
        return;
      }
      assert {be} * Untyped() == {};
      if be !in built.metadata {
        assert {be} * Refreshed(built) == {};
        return;
      }
      assert {be} * Refreshed(built) == {be};
      RefreshedOne(config.backends, be, built.metadata);
      more := Overwrite(be, built.metadata[be], start, ops);
      if firstSync {
        firstSyncBackends := firstSyncBackends + {be};
      }
    }

    method ProcessBackendsDeleted(ghost start: C.Section<C.Backend>, ghost ops: seq<Op>) returns (ghost deletes: seq<Op>)
      requires Ran(start, ops) && config as object != manager
      modifies config, this`firstSyncBackends
      ensures Ran(start, ops + deletes) && C.NoPuts(deletes) && C.Removed(deletes) == manager.deleted
      ensures firstSyncBackends == if firstSync then old(firstSyncBackends) - manager.deleted else old(firstSyncBackends)
      ensures config.Frontends() == old(config.Frontends()) && config.backends == old(config.backends) - manager.deleted
    {
      hide Ran;
      deletes := [];
      assert ops + deletes == ops;
      var todo := manager.deleted;
      while todo != {}
        invariant todo <= manager.deleted && Ran(start, ops + deletes) && C.NoPuts(deletes)
        invariant C.Removed(deletes) == manager.deleted - todo
        invariant firstSyncBackends == if firstSync then old(firstSyncBackends) - (manager.deleted - todo) else old(firstSyncBackends)
        invariant config.Frontends() == old(config.Frontends()) && config.backends == old(config.backends) - (manager.deleted - todo)
      {
        var be :| be in todo;
        todo := todo - {be};
        Delete(be, start, ops + deletes);
        assert ops + deletes + [C.Remove(be)] == ops + (deletes + [C.Remove(be)]);
        C.NamesSnoc(deletes, C.Remove(be));
        deletes := deletes + [C.Remove(be)];
        if firstSync {
          firstSyncBackends := firstSyncBackends - {be};
        }
      }
    }

    /** With a pruned index every entry has a kind of owner. */
    method ProcessBackendsModified(built: Built, ghost start: C.Section<C.Backend>, ghost ops: seq<Op>) returns (ghost puts: seq<Op>, ghost rest: seq<Op>)
      requires LegalBuilt(built) && Pruned(manager.owners) && Ran(start, ops) && config as object != manager
      modifies config, this`firstSyncBackends
      ensures Ran(start, ops + puts + rest) && C.OnlyPuts(puts) && C.NoPuts(rest)
      ensures C.Names(puts) == manager.upserted.Keys * manager.owners.Keys * built.backends.Keys
      ensures C.Removed(rest) == manager.deleted
      ensures firstSync && manager.unreferenced == {} ==>
                firstSyncBackends == old(firstSyncBackends) + manager.upserted.Keys * manager.owners.Keys * built.backends.Keys - manager.deleted
      ensures !firstSync ==> firstSyncBackends == old(firstSyncBackends)
      ensures config.Frontends() == old(config.Frontends())
      ensures config.backends == Pass(old(config.backends), manager.upserted.Keys * manager.owners.Keys * built.backends.Keys,
                                      manager.unreferenced * manager.owners.Keys * built.metadata.Keys, manager.deleted, built)
    {
      hide Ran, Merge, Refresh;
      PrunedTyped(manager.owners);
      assert Upsertable(built) == manager.upserted.Keys * manager.owners.Keys * built.backends.Keys;
      assert Untyped() == {} && Refreshed(built) == manager.unreferenced * manager.owners.Keys * built.metadata.Keys;
      hide Pruned, Typed;
      puts := ProcessBackendsUpserted(built, start, ops);
      ghost var more := ProcessBackendsUnreferenced(built, start, ops + puts);
      ghost var deletes := ProcessBackendsDeleted(start, ops + puts + more);
      rest := more + deletes;
      RemovedConcat(more, deletes);
      assert ops + puts + more + deletes == ops + puts + rest;
    }

    // -- the cycle

    /** The first time, the backends left from a previous life are deleted. */
    method CleanupAfterFirstSync(ghost start: C.Section<C.Backend>, ghost ops: seq<Op>) returns (ghost more: seq<Op>)
      requires Ran(start, ops)
      modifies config, this`firstSync, this`firstSyncBackends
      ensures Ran(start, ops + more) && C.NoPuts(more) && !firstSync
      ensures C.Removed(more) == if old(firstSync) then old(config.backends.Keys) - old(firstSyncBackends) else {}
      ensures firstSyncBackends == if old(firstSync) then {} else old(firstSyncBackends)
      ensures config.Frontends() == old(config.Frontends()) && config.backends == old(config.backends) - C.Removed(more)
    {
      hide Ran;
      more := [];
      assert ops + more == ops;
      if !firstSync {
        return;
      }
      var names := config.backends.Keys;
      var todo := names;
      while todo != {}
        invariant todo <= names && Ran(start, ops + more) && C.NoPuts(more) && firstSync && firstSyncBackends == old(firstSyncBackends)
        invariant C.Removed(more) == (names - todo) - firstSyncBackends
        invariant config.Frontends() == old(config.Frontends()) && config.backends == old(config.backends) - C.Removed(more)
      {
        var be :| be in todo;
        todo := todo - {be};
        if be !in firstSyncBackends {
          Delete(be, start, ops + more);
          assert ops + more + [C.Remove(be)] == ops + (more + [C.Remove(be)]);
          C.NamesSnoc(more, C.Remove(be));
          more := more + [C.Remove(be)];
        }
      }
      firstSyncBackends := {};
      firstSync := false;
    }

    /** The cycle of the backends: the queues start empty and are worked off after the HTTP
        routes and again, with what the TLS routes add, after those. The diffs are ones the
        receiver follows, even when the first pass deletes what the second upserts. What the
        cycle upserts is configured unless it also deletes it; the backends of before stay
        unless deleted, but for the first cycle, which drops them. */
    method RunCycle(http: Routes, tls: Routes, built: Built, built2: Built) returns (ghost p: Passes)
      requires Valid() && LegalBuilt(built) && LegalBuilt(built2) && config.Backends() == C.ResetDiffs(config.backends)
      requires manager.upserted == map[] && manager.deleted == {} && manager.unreferenced == {}
      modifies this, manager, config
      ensures Valid() && !firstSync && config.Frontends() == old(config.Frontends())
      ensures PassesOf(p, manager.naming, old(manager.owners), manager.owners, http, tls, built, built2)
      ensures C.Followed(old(config.backends), config.Backends())
      ensures config.backends.Keys == (if old(firstSync) then {} else old(config.backends).Keys) + p.upserted1 + p.upserted2 - p.deleted2
      ensures ContentsExact(p, old(config.backends), config.backends, built, built2)
    {
      hide Ran, PassesOf, Pruned, NamesKept, LegalBuilt, Pass, ContentsExact, C.Replayable, C.Consistent, C.NoPuts, C.OnlyPuts;
      ghost var start := config.Backends();
      ghost var u1, w1, u2, w2;
      p, u1, w1, u2, w2 := RunPasses(http, tls, built, built2);
      C.TwoPassesReplayable(start.current, u1, w1, u2, w2);
      RanIs(start, u1 + w1 + u2 + w2);
      ghost var x := CleanupAfterFirstSync(start, u1 + w1 + u2 + w2);
      RemovedConcat(w2, x);
      assert u1 + w1 + u2 + w2 + x == u1 + w1 + u2 + (w2 + x);
      C.TwoPassesReplayable(start.current, u1, w1, u2, w2 + x);
      RanIs(start, u1 + w1 + u2 + (w2 + x));
      C.OpsConsistent(start.current, u1 + w1 + u2 + (w2 + x));
      PassesContents(p, start.current, config.backends, built, built2);
    }

    method RunPasses(http: Routes, tls: Routes, built: Built, built2: Built)
      returns (ghost p: Passes, ghost u1: seq<Op>, ghost w1: seq<Op>, ghost u2: seq<Op>, ghost w2: seq<Op>)
      requires Valid() && LegalBuilt(built) && LegalBuilt(built2) && config.Backends() == C.ResetDiffs(config.backends)
      requires manager.upserted == map[] && manager.deleted == {} && manager.unreferenced == {}
      modifies this`firstSyncBackends, manager, config
      ensures Pruned(manager.owners) && config.Frontends() == old(config.Frontends())
      ensures PassesOf(p, manager.naming, old(manager.owners), manager.owners, http, tls, built, built2)
      ensures Ran(old(config.Backends()), u1 + w1 + u2 + w2)
      ensures C.OnlyPuts(u1) && C.NoPuts(w1) && C.OnlyPuts(u2) && C.NoPuts(w2)
      ensures p.upserted1 == C.Names(u1) && p.upserted2 == C.Names(u2) && p.deleted1 == C.Removed(w1) && p.deleted2 == C.Removed(w2)
      ensures WithinBuilt(p, built, built2)
      ensures config.backends == Pass(Pass(old(config.backends), p.upserted1, p.refreshed1, p.deleted1, built), p.upserted2, p.refreshed2, p.deleted2, built2)
      ensures firstSyncBackends == if firstSync then p.upserted1 + p.upserted2 - p.deleted2 else {}
    {
      hide Ran, Renewed, Pruned, NamesKept, GivenUp, Orphans, QueuedBy, LeftBy, LegalBuilt, PassesOf, Pass, WithinBuilt, C.NoPuts, C.OnlyPuts, C.Names, C.Removed;
      ghost var start, before := config.Backends(), manager.owners;
      NothingRan(start);
      manager.ProcessRoutes(HTTPRoute, http);
      ghost var between, deleted1, unreferenced1 := manager.owners, manager.deleted, manager.unreferenced;
      NoneOwned(manager.naming, http, before, between);
      u1, w1 := ProcessBackendsModified(built, start, []);
      manager.ProcessRoutes(TLSRoute, tls);
      u2, w2 := ProcessBackendsModified(built2, start, [] + u1 + w1);
      p := Passes(between, C.Names(u1), unreferenced1 * between.Keys * built.metadata.Keys, deleted1,
                  C.Names(u2), manager.unreferenced * manager.owners.Keys * built2.metadata.Keys, manager.deleted);
      ArePasses(p, manager.naming, before, manager.owners, http, tls, built, built2);
      SeenInFirstSync(p.upserted1, p.deleted1, p.upserted2, p.deleted2);
      assert [] + u1 + w1 == u1 + w1;
    }

    lemma NothingRan(start: C.Section<C.Backend>)
      requires start == config.Backends() && NamesKept(config.backends)
      ensures Ran(start, [])
    {}

    lemma RanIs(start: C.Section<C.Backend>, ops: seq<Op>)
      requires Ran(start, ops)
      ensures config.Backends() == C.ApplyAll(start, ops) && NamesKept(config.backends)
    {}
  }

  lemma PrunedTyped(o: Owners)
    requires Pruned(o)
    ensures forall be :: Typed(o, be) <==> be in o
  {
    forall be | be in o ensures Typed(o, be) {
      var t :| t in o[be];
      assert t == HTTPRoute || t == TLSRoute;
    }
  }

  /** Without owners to start from, HTTP routes make no TLS owners. */
  lemma NoneOwned(naming: Naming, http: Routes, before: Owners, after: Owners)
    requires Renewed(naming, HTTPRoute, http, http.Keys, before, after)
    ensures before == map[] ==> forall routes: Routes :: LeftBy(naming, HTTPRoute, routes, routes.Keys, before) == {}
    ensures before == map[] ==> forall routes: Routes :: LeftBy(naming, TLSRoute, routes, routes.Keys, after) == {}
  {
    if before == map[] {
      forall be, k ensures Generation(after, be, TLSRoute, k) == None {
        assert Generation(after, be, TLSRoute, k) == RenewedAt(naming, HTTPRoute, http, http.Keys, before, be, TLSRoute, k);
      }
      forall routes: Routes ensures LeftBy(naming, HTTPRoute, routes, routes.Keys, before) == {} && LeftBy(naming, TLSRoute, routes, routes.Keys, after) == {} {
        NoneLeft(naming, HTTPRoute, routes, before);
        NoneLeft(naming, TLSRoute, routes, after);
      }
    }
  }

  lemma NoneLeft(naming: Naming, t: OwnerType, routes: Routes, o: Owners)
    requires forall be, k :: Generation(o, be, t, k) == None
    ensures LeftBy(naming, t, routes, routes.Keys, o) == {}
  {
    hide CallsFor;
    forall k ensures OwnedBackends(o, t, k) == {} {}
  }

  lemma NothingMerged(before: Backends, built: Backends)
    ensures Merge(before, {}, built) == before
  {}

  lemma MergedOne(before: Backends, be: string, built: Backends)
    requires be in built
    ensures Merge(before, {be}, built) == before[be := if be in before then built[be].(servers := before[be].servers) else built[be]]
  {}

  lemma RefreshedOne(before: Backends, be: string, metadata: map<string, string>)
    requires be in metadata
    ensures Refresh(before, {be}, map[be := metadata[be]]) == Refresh(before, {be}, metadata) == Refresh(before, {be}, metadata) - {}
  {}

  lemma OneMoreMerged(before: Backends, up: set<string>, todo: set<string>, be: string, built: Backends)
    requires be in todo
    ensures Merge(Merge(before, up - todo, built), {be} * up, built) == Merge(before, up - (todo - {be}), built)
  {}

  lemma NothingRefreshed(before: Backends, metadata: map<string, string>)
    ensures Refresh(before, {}, metadata) - {} == before
  {}

  lemma OneMoreRefreshed(before: Backends, renewed: set<string>, gone: set<string>, todo: set<string>, be: string, metadata: map<string, string>)
    requires be in todo && renewed !! gone
    ensures Refresh(Refresh(before, renewed - todo, metadata) - (gone - todo), {be} * renewed, metadata) - {be} * gone
         == Refresh(before, renewed - (todo - {be}), metadata) - (gone - (todo - {be}))
  {}

  lemma RemovedConcat(a: seq<Op>, b: seq<Op>)
    requires C.NoPuts(a) && C.NoPuts(b)
    ensures C.NoPuts(a + b) && C.Removed(a + b) == C.Removed(a) + C.Removed(b)
  {
    var all := a + b;
    forall n ensures n in C.Removed(all) <==> n in C.Removed(a) || n in C.Removed(b) {
      if n in C.Removed(a) {
        var i :| 0 <= i < |a| && a[i].Remove? && a[i].name == n;
        assert all[i].name == n;
      }
      if n in C.Removed(b) {
        var i :| 0 <= i < |b| && b[i].Remove? && b[i].name == n;
        assert all[|a| + i].name == n;
      }
      if n in C.Removed(all) {
        var i :| 0 <= i < |all| && all[i].Remove? && all[i].name == n;
        if i < |a| { assert a[i].name == n; } else { assert b[i - |a|].name == n; }
      }
    }
  }

  lemma PutKeepsNames(s: C.Section<C.Backend>, op: Op)
    requires NamesKept(s.current) && op.Put? && op.value.name == op.name
    ensures NamesKept(C.Apply(s, op).current)
  {}
}
