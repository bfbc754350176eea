/** Which frontends belong to which gateway, and keeping the configuration to exactly
    those although each cycle looks only at some gateways. */
module FrontendOwnership {
  import opened Wrappers
  import opened Keys
  import opened ObjectStores
  import opened Configurations

  datatype FrontendListener = FrontendListener(valid: bool, settings: string)

  /** A tree gateway as far as frontends go: its built listeners, and the listener names of its (or, once
      deleted, its last) spec, if there is one. */
  datatype ServedGateway = ServedGateway(status: Status, valid: bool, listeners: map<string, FrontendListener>, specNames: Option<seq<string>>)

  /** The name template: distinct listeners get distinct names. */
  type Naming = (ObjectKey, string) -> string

  ghost predicate Injective(naming: Naming) {
    forall k, n, k', n' :: naming(k, n) == naming(k', n') ==> k == k' && n == n'
  }

  type Gateways = map<ObjectKey, ServedGateway>

  // ---- what one gateway calls for

  ghost predicate ServesTraffic(g: ServedGateway) {
    g.status == Upserted && g.valid
  }

  /** The names looked at when the gateway is processed. */
  ghost function LookedAt(naming: Naming, k: ObjectKey, g: ServedGateway, managed: bool): set<string> {
    if managed && ServesTraffic(g) then set n | n in g.listeners :: naming(k, n)
    else if g.specNames == None then {}
    else set n | n in g.specNames.value :: naming(k, n)
  }

  /** The names of the valid listeners of a valid managed gateway; none otherwise. */
  ghost function Owned(naming: Naming, k: ObjectKey, g: ServedGateway, managed: bool): set<string> {
    if managed && ServesTraffic(g) then set n | n in g.listeners && g.listeners[n].valid :: naming(k, n) else {}
  }

  /** Unmanaged gateways are processed every cycle, managed ones when touched. */
  ghost function TouchedBy(naming: Naming, managed: Gateways, unmanaged: Gateways, k: ObjectKey): set<string> {
    if k in managed && managed[k].status != Unchanged then LookedAt(naming, k, managed[k], true)
    else if k in unmanaged then LookedAt(naming, k, unmanaged[k], false)
    else {}
  }

  ghost function OwnedBy(naming: Naming, managed: Gateways, unmanaged: Gateways, k: ObjectKey): set<string> {
    if k in managed && managed[k].status != Unchanged then Owned(naming, k, managed[k], true)
    else {}
  }

  /** Each gateway that named a listener owns what it calls for; the others what they had. */
  ghost predicate OwnershipRenewed(naming: Naming, managed: Gateways, unmanaged: Gateways, before: map<ObjectKey, set<string>>,
                                   after: map<ObjectKey, set<string>>) {
    forall k :: Lookup(after, k) == RenewedOwner(naming, managed, unmanaged, before, k)
  }

  ghost function RenewedOwner(naming: Naming, managed: Gateways, unmanaged: Gateways, before: map<ObjectKey, set<string>>, k: ObjectKey): Option<set<string>> {
    if TouchedBy(naming, managed, unmanaged, k) != {} then Some(OwnedBy(naming, managed, unmanaged, k)) else Lookup(before, k)
  }

  ghost predicate Belongs(naming: Naming, k: ObjectKey, name: string) {
    exists n :: name == naming(k, n)
  }

  ghost function AllOwned(current: map<ObjectKey, set<string>>): set<string> {
    set k, f | k in current && f in current[k] :: f
  }

  /** Every gateway owns only names of its own. */
  ghost predicate OwnNames(naming: Naming, m: map<ObjectKey, set<string>>) {
    forall k, f :: k in m && f in m[k] ==> Belongs(naming, k, f)
  }

  ghost predicate NamesKept(frontends: map<string, Frontend>) {
    forall n :: n in frontends ==> frontends[n].name == n
  }

  /** Names outside `touched` are as they were, or gone. */
  ghost predicate Kept(before: map<string, Frontend>, after: map<string, Frontend>, touched: set<string>) {
    forall f :: f in after && f !in touched ==> f in before && after[f] == before[f]
  }

  lemma KeptTwice(a: map<string, Frontend>, b: map<string, Frontend>, c: map<string, Frontend>, t: set<string>, u: set<string>)
    requires Kept(a, b, t) && Kept(b, c, u)
    ensures Kept(a, c, t + u)
  {}

  lemma KeptToTheEnd(a: map<string, Frontend>, b: map<string, Frontend>, c: map<string, Frontend>, d: map<string, Frontend>, t: set<string>)
    requires Kept(a, b, t) && Kept(b, c, {}) && Kept(c, d, {})
    ensures Kept(a, d, t)
  {}

  lemma KeptMore(a: map<string, Frontend>, b: map<string, Frontend>, t: set<string>, u: set<string>)
    requires Kept(a, b, t) && t <= u
    ensures Kept(a, b, u)
  {}

  /** Some valid listeners of a gateway have their frontends, set up as they ask. */
  ghost predicate SetUp(naming: Naming, frontends: map<string, Frontend>, k: ObjectKey, g: ServedGateway, listeners: set<string>) {
    forall n :: n in listeners && n in g.listeners && g.listeners[n].valid ==>
      naming(k, n) in frontends && frontends[naming(k, n)].settings == g.listeners[n].settings
  }

  /** Every gateway upserted in this cycle has its frontends set up. */
  ghost predicate AllSetUp(naming: Naming, frontends: map<string, Frontend>, managed: Gateways, keys: set<ObjectKey>) {
    forall k :: k in keys && k in managed && ServesTraffic(managed[k]) ==> SetUp(naming, frontends, k, managed[k], managed[k].listeners.Keys)
  }

  /** Handling another gateway leaves the frontends of this one alone. */
  lemma StaysSetUp(naming: Naming, before: map<string, Frontend>, after: map<string, Frontend>, managed: Gateways, keys: set<ObjectKey>,
                   k: ObjectKey, touched: set<string>, owned: set<string>)
    requires Injective(naming) && k !in keys && AllSetUp(naming, before, managed, keys)
    requires Kept(before, after, touched) && after.Keys == After(before.Keys, touched, owned)
    requires forall f :: f in touched ==> Belongs(naming, k, f)
    ensures AllSetUp(naming, after, managed, keys)
  {
    forall k', n | k' in keys && k' in managed && ServesTraffic(managed[k']) && n in managed[k'].listeners && managed[k'].listeners[n].valid
      ensures naming(k', n) in after && after[naming(k', n)].settings == managed[k'].listeners[n].settings
    {
      assert SetUp(naming, before, k', managed[k'], managed[k'].listeners.Keys);
      assert Belongs(naming, k', naming(k', n));
      NotBoth(naming, k', k, naming(k', n));
    }
  }

  lemma NoneProcessed(naming: Naming, managed: Gateways, unmanaged: Gateways, before: set<string>, frontends: map<string, Frontend>)
    ensures before - AllTouched(naming, managed, unmanaged, {}) + AllOwnedIn(naming, managed, unmanaged, {}) == before
    ensures AllOwnedIn(naming, managed, unmanaged, {}) == {}
    ensures IsUpdated(naming, managed, unmanaged, {}, map[]) && AllSetUp(naming, frontends, managed, {})
  {}

  lemma MoreSetUp(naming: Naming, frontends: map<string, Frontend>, managed: Gateways, keys: set<ObjectKey>, k: ObjectKey)
    requires AllSetUp(naming, frontends, managed, keys)
    requires k in managed && ServesTraffic(managed[k]) ==> SetUp(naming, frontends, k, managed[k], managed[k].listeners.Keys)
    ensures AllSetUp(naming, frontends, managed, keys + {k})
  {}

  // ---- one cycle, on sets of names

  /** The names collected for one gateway: nothing is recorded before a name was looked at. */
  ghost function WithNames(m: map<ObjectKey, set<string>>, k: ObjectKey, touched: set<string>, owned: set<string>): map<ObjectKey, set<string>> {
    if touched == {} then m else m[k := owned]
  }

  ghost function Amended(m: map<ObjectKey, set<string>>, k: ObjectKey, added: set<string>, removed: set<string>): map<ObjectKey, set<string>> {
    m[k := After(if k in m then m[k] else {}, removed, added)]
  }

  ghost function After(names: set<string>, removed: set<string>, added: set<string>): set<string> {
    names - removed + added
  }

  lemma AfterTwice(names: set<string>, touched: set<string>, owned: set<string>, removed: set<string>, added: set<string>)
    requires owned <= touched
    ensures After(After(names, touched, owned), removed, added) == After(names, touched + added + removed, After(owned, removed, added))
    ensures After(owned, removed, added) <= touched + added + removed
  {}

  lemma AfterNothing(names: set<string>)
    ensures After(names, {}, {}) == names && After({}, names, {}) == {}
  {}

  lemma OneMoreName(m: map<ObjectKey, set<string>>, k: ObjectKey, touched: set<string>, owned: set<string>, added: set<string>, removed: set<string>)
    requires k !in m && owned <= touched && added + removed != {}
    ensures Amended(WithNames(m, k, touched, owned), k, added, removed)
         == WithNames(m, k, touched + added + removed, After(owned, removed, added))
  {
    if touched == {} { assert owned == {}; }
  }

  /** The owned sets after processing: `updated` replaces what it names. */
  lemma OwnedAfterCycle(naming: Naming, current: map<ObjectKey, set<string>>, updated: map<ObjectKey, set<string>>,
                        touched: set<string>, before: set<string>)
    requires Injective(naming) && OwnNames(naming, current) && OwnNames(naming, updated)
    requires before == AllOwned(current)
    requires AllOwned(updated) <= touched
    requires forall f :: f in touched ==> exists k :: k in updated && Belongs(naming, k, f)
    ensures (before - touched + AllOwned(updated)) - Dropped(current, updated) == AllOwned(current + updated)
  {
    var after := (before - touched + AllOwned(updated)) - Dropped(current, updated);
    forall f ensures f in after <==> f in AllOwned(current + updated) {
      if f in after {
        if f in AllOwned(updated) {
          var k :| k in updated && f in updated[k];
          assert k in current + updated && f in (current + updated)[k];
        } else {
          var k :| k in current && f in current[k];
          if k in updated { HadAndLost(current, updated, k, f); }
          assert f in (current + updated)[k];
        }
      }
      if f in AllOwned(current + updated) {
        var k :| k in current + updated && f in (current + updated)[k];
        if k in updated {
          NotDropped(naming, current, updated, k, f);
        } else {
          NotTouched(naming, current, updated, touched, k, f);
        }
      }
    }
  }

  /** What the cleanup deletes: names a processed gateway had and has no more. */
  ghost function Dropped(current: map<ObjectKey, set<string>>, updated: map<ObjectKey, set<string>>): set<string> {
    DroppedBy(current, updated, updated.Keys)
  }

  ghost function DroppedBy(current: map<ObjectKey, set<string>>, updated: map<ObjectKey, set<string>>, keys: set<ObjectKey>): set<string> {
    set k, f | k in keys && k in updated && k in current && f in current[k] && f !in updated[k] :: f
  }

  lemma DroppedByNone(current: map<ObjectKey, set<string>>, updated: map<ObjectKey, set<string>>)
    ensures DroppedBy(current, updated, {}) == {}
  {}

  lemma DroppedByMore(current: map<ObjectKey, set<string>>, updated: map<ObjectKey, set<string>>, keys: set<ObjectKey>, k: ObjectKey)
    ensures DroppedBy(current, updated, keys + {k}) == DroppedBy(current, updated, keys) + DroppedBy(current, updated, {k})
  {}

  lemma HadAndLost(current: map<ObjectKey, set<string>>, updated: map<ObjectKey, set<string>>, k: ObjectKey, f: string)
    requires k in current && f in current[k] && k in updated
    ensures f in Dropped(current, updated) || f in AllOwned(updated)
  {}

  lemma NotDropped(naming: Naming, current: map<ObjectKey, set<string>>, updated: map<ObjectKey, set<string>>, k: ObjectKey, f: string)
    requires Injective(naming) && OwnNames(naming, current) && OwnNames(naming, updated)
    requires k in updated && f in updated[k]
    ensures f !in Dropped(current, updated) && f in AllOwned(updated)
  {
    forall k' | k' in updated && k' in current && f in current[k'] ensures k' == k {
      SameOwner(naming, k, k', f);
    }
  }

  lemma NotTouched(naming: Naming, current: map<ObjectKey, set<string>>, updated: map<ObjectKey, set<string>>, touched: set<string>, k: ObjectKey, f: string)
    requires Injective(naming) && OwnNames(naming, current) && OwnNames(naming, updated)
    requires forall f' :: f' in touched ==> exists k' :: k' in updated && Belongs(naming, k', f')
    requires k in current && k !in updated && f in current[k]
    ensures f !in touched && f !in Dropped(current, updated)
  {
    forall k' | k' in updated ensures !Belongs(naming, k', f) {
      NotBoth(naming, k, k', f);
    }
  }

  lemma NotBoth(naming: Naming, k: ObjectKey, k': ObjectKey, f: string)
    requires Injective(naming) && Belongs(naming, k, f) && k != k'
    ensures !Belongs(naming, k', f)
  {
    var n :| f == naming(k, n);
    forall n' ensures f != naming(k', n') {
      assert naming(k, n) == naming(k', n') ==> k == k';
    }
  }

  lemma SameOwner(naming: Naming, k: ObjectKey, k': ObjectKey, f: string)
    requires Injective(naming) && Belongs(naming, k, f) && Belongs(naming, k', f)
    ensures k == k'
  {
    var n :| f == naming(k, n);
    var n' :| f == naming(k', n');
  }

  class FrontendManager {
    const config: Configuration
    const naming: Naming
    var current: map<ObjectKey, set<string>>
    var byUpdatedGateways: map<ObjectKey, set<string>>
    var firstSync: bool
    var firstSyncFrontends: set<string>
    /** The configured frontends at the start of the cycle. */
    ghost var start: map<string, Frontend>

    /** The diffs of the cycle so far are ones the receiver could follow. */
    ghost predicate Follows()
      reads this, config
    {
      NamesKept(config.frontends) && Followed(start, config.Frontends())
    }

    /** Between cycles: after the first sync the configured names are exactly the owned
        ones. */
    ghost predicate Valid()
      reads this, config
    {
      && Injective(naming) && OwnNames(naming, current) && NamesKept(config.frontends)
      && byUpdatedGateways == map[] && firstSyncFrontends == {}
      && (firstSync ==> current == map[])
      && (!firstSync ==> config.frontends.Keys == AllOwned(current))
    }

    constructor (config: Configuration, naming: Naming)
      requires Injective(naming) && NamesKept(config.frontends)
      ensures Valid() && firstSync && this.config == config && this.naming == naming
    {
      this.config, this.naming := config, naming;
      current, byUpdatedGateways := map[], map[];
      firstSync, firstSyncFrontends := true, {};
      start := map[];
    }

    /** One cycle, the first of which also drops the frontends left from a previous life.
        A processed gateway with at least one listener then owns exactly its valid ones,
        and those are set up as its listeners ask; frontends no processed gateway looked at
        stay as they were, or go. The diffs are ones the receiver follows. */
    method RunCycle(managed: Gateways, unmanaged: Gateways)
      requires Valid() && managed.Keys !! unmanaged.Keys && config.Frontends() == ResetDiffs(config.frontends)
      modifies this, config
      ensures Valid() && !firstSync
      ensures OwnershipRenewed(naming, managed, unmanaged, old(current), current)
      ensures AllSetUp(naming, config.frontends, managed, managed.Keys)
      ensures Followed(old(config.frontends), config.Frontends())
      ensures Kept(old(config.frontends), config.frontends, AllTouched(naming, managed, unmanaged, managed.Keys + unmanaged.Keys))
      ensures config.Backends() == old(config.Backends())
    {
      hide Injective, OwnNames, IsUpdated, OwnershipRenewed, AllOwned, AllOwnedIn, AllTouched, Dropped, Kept, AllSetUp, Consistent, Replayable;
      start := config.frontends;
      ResetFollowed(start);
      hide NamesKept, Followed;
      ghost var before, backends := config.frontends.Keys, config.Backends();
      NoneYet(managed, unmanaged);
      ProcessManaged(managed, unmanaged, before, backends);
      ProcessUnmanaged(managed, unmanaged, before, backends);
      CycleOwnership(naming, managed, unmanaged, current, byUpdatedGateways, before);
      ghost var processed := config.frontends;
      CleanupFrontendsForGateways();
      ghost var cleaned := config.frontends;
      FinalizeFrontendsByGateway();
      CleanupAfterFirstSync();
      CycleSetUp(naming, managed, unmanaged, old(current), current, processed, cleaned, config.frontends);
      KeptToTheEnd(start, processed, cleaned, config.frontends, AllTouched(naming, managed, unmanaged, managed.Keys + unmanaged.Keys));
    }

    /** The state after the gateways in `done` were processed. */
    ghost predicate Midway(managed: Gateways, unmanaged: Gateways, before: set<string>, backends: Section<Backend>, done: set<ObjectKey>)
      reads this, config
    {
      && Follows() && config.Backends() == backends && config.deletedFrontends <= AllTouched(naming, managed, unmanaged, done)
      && config.frontends.Keys == before - AllTouched(naming, managed, unmanaged, done) + AllOwnedIn(naming, managed, unmanaged, done)
      && IsUpdated(naming, managed, unmanaged, done, byUpdatedGateways)
      && AllSetUp(naming, config.frontends, managed, done)
      && Kept(start, config.frontends, AllTouched(naming, managed, unmanaged, done))
      && firstSyncFrontends == if firstSync then AllOwnedIn(naming, managed, unmanaged, done) else {}
    }

    lemma NoneYet(managed: Gateways, unmanaged: Gateways)
      requires Follows() && config.deletedFrontends == {} && byUpdatedGateways == map[] && firstSyncFrontends == {} && start == config.frontends
      ensures Midway(managed, unmanaged, config.frontends.Keys, config.Backends(), {})
    {
      NoneProcessed(naming, managed, unmanaged, config.frontends.Keys, config.frontends);
    }

    method ProcessManaged(managed: Gateways, unmanaged: Gateways, ghost before: set<string>, ghost backends: Section<Backend>)
      requires Injective(naming) && managed.Keys !! unmanaged.Keys && Midway(managed, unmanaged, before, backends, {})
      modifies this`byUpdatedGateways, this`firstSyncFrontends, config
      ensures Midway(managed, unmanaged, before, backends, managed.Keys)
    {
      hide Midway, Injective;
      var todo := managed.Keys;
      assert managed.Keys - todo == {};
      while todo != {}
        invariant todo <= managed.Keys && Midway(managed, unmanaged, before, backends, managed.Keys - todo)
      {
        var k :| k in todo;
        ghost var done := managed.Keys - todo;
        todo := todo - {k};
        assert managed.Keys - todo == done + {k};
        ProcessManagedGateway(k, managed, unmanaged, before, backends, done);
      }
      assert managed.Keys - todo == managed.Keys;
    }

    method ProcessManagedGateway(k: ObjectKey, managed: Gateways, unmanaged: Gateways, ghost before: set<string>,
                                 ghost backends: Section<Backend>, ghost done: set<ObjectKey>)
      requires Injective(naming) && k in managed && k !in unmanaged && k !in done && Midway(managed, unmanaged, before, backends, done)
      modifies this`byUpdatedGateways, this`firstSyncFrontends, config
      ensures Midway(managed, unmanaged, before, backends, done + {k})
    {
      hide Injective, NamesKept, IsUpdated, AllOwnedIn, AllTouched, AllSetUp, Kept, SetUp, OwnNames, Followed;
      ghost var frontendsBefore := config.frontends;
      OneMoreGateway(naming, managed, unmanaged, before, done, k, byUpdatedGateways);
      match managed[k].status {
        case Unchanged =>
          MoreSetUp(naming, config.frontends, managed, done, k);
          KeptMore(start, config.frontends, AllTouched(naming, managed, unmanaged, done), AllTouched(naming, managed, unmanaged, done + {k}));
          return;
        case Upserted =>
          OnUpsertedGateway(k, managed[k]);
        case Deleted =>
          DeleteFrontendForAllListeners(k, managed[k]);
      }
      NamesBelong(naming, managed, unmanaged, k);
      StaysSetUp(naming, frontendsBefore, config.frontends, managed, done, k,
                 TouchedBy(naming, managed, unmanaged, k), OwnedBy(naming, managed, unmanaged, k));
      MoreSetUp(naming, config.frontends, managed, done, k);
      KeptTwice(start, frontendsBefore, config.frontends, AllTouched(naming, managed, unmanaged, done), TouchedBy(naming, managed, unmanaged, k));
    }

    method ProcessUnmanaged(managed: Gateways, unmanaged: Gateways, ghost before: set<string>, ghost backends: Section<Backend>)
      requires Injective(naming) && managed.Keys !! unmanaged.Keys && Midway(managed, unmanaged, before, backends, managed.Keys)
      modifies this`byUpdatedGateways, this`firstSyncFrontends, config
      ensures Midway(managed, unmanaged, before, backends, managed.Keys + unmanaged.Keys)
    {
      hide Midway, Injective;
      var todo := unmanaged.Keys;
      assert managed.Keys + (unmanaged.Keys - todo) == managed.Keys;
      while todo != {}
        invariant todo <= unmanaged.Keys
        invariant Midway(managed, unmanaged, before, backends, managed.Keys + (unmanaged.Keys - todo))
      {
        var k :| k in todo;
        ghost var done := managed.Keys + (unmanaged.Keys - todo);
        todo := todo - {k};
        assert managed.Keys + (unmanaged.Keys - todo) == done + {k};
        ProcessUnmanagedGateway(k, managed, unmanaged, before, backends, done);
      }
      assert managed.Keys + (unmanaged.Keys - todo) == managed.Keys + unmanaged.Keys;
    }

    method ProcessUnmanagedGateway(k: ObjectKey, managed: Gateways, unmanaged: Gateways, ghost before: set<string>,
                                   ghost backends: Section<Backend>, ghost done: set<ObjectKey>)
      requires Injective(naming) && k in unmanaged && k !in managed && k !in done && Midway(managed, unmanaged, before, backends, done)
      modifies this`byUpdatedGateways, this`firstSyncFrontends, config
      ensures Midway(managed, unmanaged, before, backends, done + {k})
    {
      hide Injective, NamesKept, IsUpdated, AllOwnedIn, AllTouched, AllSetUp, Kept, SetUp, OwnNames, Followed;
      ghost var frontendsBefore := config.frontends;
      OneMoreGateway(naming, managed, unmanaged, before, done, k, byUpdatedGateways);
      DeleteFrontendForAllListeners(k, unmanaged[k]);
      NamesBelong(naming, managed, unmanaged, k);
      StaysSetUp(naming, frontendsBefore, config.frontends, managed, done, k,
                 TouchedBy(naming, managed, unmanaged, k), OwnedBy(naming, managed, unmanaged, k));
      MoreSetUp(naming, config.frontends, managed, done, k);
      KeptTwice(start, frontendsBefore, config.frontends, AllTouched(naming, managed, unmanaged, done), TouchedBy(naming, managed, unmanaged, k));
    }

    /** What processing one gateway does to the names. */
    twostate predicate Handled(k: ObjectKey, touched: set<string>, owned: set<string>)
      reads this, config
    {
      && Follows() && config.deletedFrontends <= old(config.deletedFrontends) + touched
      && config.Backends() == old(config.Backends())
      && config.frontends.Keys == After(old(config.frontends.Keys), touched, owned)
      && Kept(old(config.frontends), config.frontends, touched)
      && byUpdatedGateways == WithNames(old(byUpdatedGateways), k, touched, owned)
      && firstSyncFrontends == if firstSync then After(old(firstSyncFrontends), touched, owned) else old(firstSyncFrontends)
    }

    method OnUpsertedGateway(k: ObjectKey, g: ServedGateway)
      requires Injective(naming) && Follows() && k !in byUpdatedGateways && g.status == Upserted
      requires config.deletedFrontends !! LookedAt(naming, k, g, true)
      modifies this`byUpdatedGateways, this`firstSyncFrontends, config
      ensures Handled(k, LookedAt(naming, k, g, true), Owned(naming, k, g, true))
      ensures ServesTraffic(g) ==> SetUp(naming, config.frontends, k, g, g.listeners.Keys)
    {
      if g.valid {
        UpsertFrontends(k, g);
      } else {
        DeleteFrontendForAllListeners(k, g);
      }
    }

    ghost function NamesFor(k: ObjectKey, listeners: set<string>): set<string> {
      set n | n in listeners :: naming(k, n)
    }

    ghost function NamesOf(k: ObjectKey, listeners: seq<string>): set<string> {
      set n | n in listeners :: naming(k, n)
    }

    ghost function ValidOnes(g: ServedGateway, listeners: set<string>): set<string> {
      set n | n in listeners && n in g.listeners && g.listeners[n].valid
    }

    method UpsertFrontends(k: ObjectKey, g: ServedGateway)
      requires Injective(naming) && Follows() && k !in byUpdatedGateways && ServesTraffic(g)
      requires config.deletedFrontends !! LookedAt(naming, k, g, true)
      modifies this`byUpdatedGateways, this`firstSyncFrontends, config
      ensures Handled(k, LookedAt(naming, k, g, true), Owned(naming, k, g, true))
      ensures ServesTraffic(g) ==> SetUp(naming, config.frontends, k, g, g.listeners.Keys)
    {
      hide NamesFor, ValidOnes, WithNames, Amended, After, Injective, NamesKept, Kept, SetUp, Followed;
      var todo := g.listeners.Keys;
      NothingDone(k, g);
      AfterNothing(config.frontends.Keys);
      AfterNothing(firstSyncFrontends);
      assert g.listeners.Keys - todo == {};
      while todo != {}
        invariant todo <= g.listeners.Keys
        invariant Handled(k, NamesFor(k, g.listeners.Keys - todo), NamesFor(k, ValidOnes(g, g.listeners.Keys - todo)))
        invariant SetUp(naming, config.frontends, k, g, g.listeners.Keys - todo)
      {
        var n :| n in todo;
        ghost var done := g.listeners.Keys - todo;
        todo := todo - {n};
        assert g.listeners.Keys - todo == done + {n};
        OneMoreListener(k, g, done, n);
        ghost var t, o := NamesFor(k, done), NamesFor(k, ValidOnes(g, done));
        if !g.listeners[n].valid {
          OneMoreName(old(byUpdatedGateways), k, t, o, {}, {naming(k, n)});
          AfterTwice(old(config.frontends.Keys), t, o, {naming(k, n)}, {});
          AfterTwice(old(firstSyncFrontends), t, o, {naming(k, n)}, {});
          ghost var before := config.frontends;
          DeleteFrontendForListener(k, n);
          KeptTwice(old(config.frontends), before, config.frontends, t, {naming(k, n)});
          assert t + {} + {naming(k, n)} == t + {naming(k, n)};
          OneMoreSetUp(before, config.frontends, k, g, done, n);
          continue;
        }
        OneMoreName(old(byUpdatedGateways), k, t, o, {naming(k, n)}, {});
        AfterTwice(old(config.frontends.Keys), t, o, {}, {naming(k, n)});
        AfterTwice(old(firstSyncFrontends), t, o, {}, {naming(k, n)});
        ghost var before := config.frontends;
        UpsertFrontend(k, Frontend(naming(k, n), g.listeners[n].settings));
        KeptTwice(old(config.frontends), before, config.frontends, t, {naming(k, n)});
        assert t + {naming(k, n)} + {} == t + {naming(k, n)};
        OneMoreSetUp(before, config.frontends, k, g, done, n);
      }
      assert g.listeners.Keys - todo == g.listeners.Keys;
      AllDone(k, g);
    }

    lemma OneMoreSetUp(before: map<string, Frontend>, after: map<string, Frontend>, k: ObjectKey, g: ServedGateway, done: set<string>, n: string)
      requires Injective(naming) && n !in done && n in g.listeners && SetUp(naming, before, k, g, done)
      requires Kept(before, after, {naming(k, n)}) && before.Keys - {naming(k, n)} <= after.Keys
      requires g.listeners[n].valid ==> naming(k, n) in after && after[naming(k, n)].settings == g.listeners[n].settings
      ensures SetUp(naming, after, k, g, done + {n})
    {}

    lemma NothingDone(k: ObjectKey, g: ServedGateway)
      ensures NamesFor(k, {}) == NamesFor(k, ValidOnes(g, {})) == {}
      ensures WithNames(byUpdatedGateways, k, {}, {}) == byUpdatedGateways
      ensures Kept(config.frontends, config.frontends, {}) && SetUp(naming, config.frontends, k, g, {})
    {}

    lemma AllDone(k: ObjectKey, g: ServedGateway)
      requires ServesTraffic(g)
      ensures LookedAt(naming, k, g, true) == NamesFor(k, g.listeners.Keys)
      ensures Owned(naming, k, g, true) == NamesFor(k, ValidOnes(g, g.listeners.Keys))
    {}

    method UpsertFrontend(k: ObjectKey, newFe: Frontend)
      requires Follows() && newFe.name !in config.deletedFrontends
      modifies this`byUpdatedGateways, this`firstSyncFrontends, config
      ensures Follows() && config.deletedFrontends == old(config.deletedFrontends) && config.Backends() == old(config.Backends())
      ensures config.frontends.Keys == After(old(config.frontends.Keys), {}, {newFe.name})
      ensures Kept(old(config.frontends), config.frontends, {newFe.name})
      ensures newFe.name in config.frontends && config.frontends[newFe.name].settings == newFe.settings
      ensures old(config.frontends).Keys - {newFe.name} <= config.frontends.Keys
      ensures byUpdatedGateways == Amended(old(byUpdatedGateways), k, {newFe.name}, {})
      ensures firstSyncFrontends == if firstSync then After(old(firstSyncFrontends), {}, {newFe.name}) else old(firstSyncFrontends)
    {
      if firstSync {
        firstSyncFrontends := firstSyncFrontends + {newFe.name};
      }
      hide Consistent, Replayable;
      StepFollowed(start, config.Frontends(), Put(newFe.name, newFe));
      config.UpsertFrontend(newFe);
      AddToUpdated(k, newFe.name);
    }

    lemma OneMoreListener(k: ObjectKey, g: ServedGateway, done: set<string>, n: string)
      requires Injective(naming) && n !in done && n in g.listeners
      ensures var x, t, o := naming(k, n), NamesFor(k, done), NamesFor(k, ValidOnes(g, done));
              var t', o' := NamesFor(k, done + {n}), NamesFor(k, ValidOnes(g, done + {n}));
              && o <= t && x !in t
              && if g.listeners[n].valid then t' == t + {x} + {} && o' == After(o, {}, {x}) else t' == t + {} + {x} && o' == After(o, {x}, {})
    {
      assert ValidOnes(g, done + {n}) == ValidOnes(g, done) + if g.listeners[n].valid then {n} else {};
    }

    /** Without a spec to read the listeners from, this reports an error and does nothing. */
    method DeleteFrontendForAllListeners(k: ObjectKey, g: ServedGateway)
      requires Follows() && k !in byUpdatedGateways
      modifies this`byUpdatedGateways, this`firstSyncFrontends, config
      ensures Handled(k, LookedAt(naming, k, g, false), {})
    {
      if g.specNames == None {
        return;
      }
      hide WithNames, Amended, After, NamesOf, Injective, NamesKept, Kept, Followed;
      NothingDone(k, g);
      AfterNothing(config.frontends.Keys);
      AfterNothing(firstSyncFrontends);
      var specs := g.specNames.value;
      AllSpecs(k, g);
      for i := 0 to |specs|
        invariant Handled(k, NamesOf(k, specs[..i]), {})
      {
        ghost var t := NamesOf(k, specs[..i]);
        OneMoreSpec(k, specs, i);
        AfterNothing({naming(k, specs[i])});
        OneMoreName(old(byUpdatedGateways), k, t, {}, {}, {naming(k, specs[i])});
        AfterTwice(old(config.frontends.Keys), t, {}, {naming(k, specs[i])}, {});
        AfterTwice(old(firstSyncFrontends), t, {}, {naming(k, specs[i])}, {});
        ghost var before := config.frontends;
        DeleteFrontendForListener(k, specs[i]);
        KeptTwice(old(config.frontends), before, config.frontends, t, {});
        KeptMore(old(config.frontends), config.frontends, t + {}, t + {} + {naming(k, specs[i])});
      }
    }

    lemma OneMoreSpec(k: ObjectKey, specs: seq<string>, i: nat)
      requires i < |specs|
      ensures NamesOf(k, specs[..i + 1]) == NamesOf(k, specs[..i]) + {} + {naming(k, specs[i])}
    {
      assert specs[..i + 1] == specs[..i] + [specs[i]];
    }

    lemma AllSpecs(k: ObjectKey, g: ServedGateway)
      requires g.specNames != None
      ensures NamesOf(k, g.specNames.value[..0]) == {}
      ensures NamesOf(k, g.specNames.value[..|g.specNames.value|]) == LookedAt(naming, k, g, false)
    {
      assert g.specNames.value[..|g.specNames.value|] == g.specNames.value;
    }

    method DeleteFrontendForListener(k: ObjectKey, n: string)
      requires Follows()
      modifies this`byUpdatedGateways, this`firstSyncFrontends, config
      ensures Follows() && config.deletedFrontends <= old(config.deletedFrontends) + {naming(k, n)} && config.Backends() == old(config.Backends())
      ensures config.frontends.Keys == After(old(config.frontends.Keys), {naming(k, n)}, {})
      ensures Kept(old(config.frontends), config.frontends, {}) && Kept(old(config.frontends), config.frontends, {naming(k, n)})
      ensures old(config.frontends).Keys - {naming(k, n)} <= config.frontends.Keys
      ensures byUpdatedGateways == Amended(old(byUpdatedGateways), k, {}, {naming(k, n)})
      ensures firstSyncFrontends == if firstSync then After(old(firstSyncFrontends), {naming(k, n)}, {}) else old(firstSyncFrontends)
    {
      DeleteFrontend(k, naming(k, n));
      if firstSync {
        firstSyncFrontends := firstSyncFrontends - {naming(k, n)};
      }
    }

    method DeleteFrontend(k: ObjectKey, name: string)
      requires Follows()
      modifies this`byUpdatedGateways, config
      ensures Follows() && config.deletedFrontends <= old(config.deletedFrontends) + {name} && config.Backends() == old(config.Backends())
      ensures config.frontends.Keys == After(old(config.frontends.Keys), {name}, {})
      ensures Kept(old(config.frontends), config.frontends, {})
      ensures byUpdatedGateways == Amended(old(byUpdatedGateways), k, {}, {name})
    {
      RemoveConfigured(name);
      RemoveFromUpdated(k, name);
    }

    method RemoveConfigured(name: string)
      requires Follows()
      modifies config
      ensures Follows() && config.deletedFrontends <= old(config.deletedFrontends) + {name} && config.Backends() == old(config.Backends())
      ensures config.frontends == old(config.frontends) - {name}
    {
      hide Consistent, Replayable;
      StepFollowed(start, config.Frontends(), Remove(name));
      config.DeleteFrontend(name);
    }

    method AddToUpdated(k: ObjectKey, name: string)
      modifies this`byUpdatedGateways
      ensures byUpdatedGateways == Amended(old(byUpdatedGateways), k, {name}, {})
    {
      if k !in byUpdatedGateways {
        byUpdatedGateways := byUpdatedGateways[k := {}];
      }
      byUpdatedGateways := byUpdatedGateways[k := byUpdatedGateways[k] + {name}];
      assert (if k in old(byUpdatedGateways) then old(byUpdatedGateways)[k] else {}) - {} + {name} == byUpdatedGateways[k];
    }

    method RemoveFromUpdated(k: ObjectKey, name: string)
      modifies this`byUpdatedGateways
      ensures byUpdatedGateways == Amended(old(byUpdatedGateways), k, {}, {name})
    {
      if k !in byUpdatedGateways {
        byUpdatedGateways := byUpdatedGateways[k := {}];
      }
      byUpdatedGateways := byUpdatedGateways[k := byUpdatedGateways[k] - {name}];
      assert (if k in old(byUpdatedGateways) then old(byUpdatedGateways)[k] else {}) - {name} + {} == byUpdatedGateways[k];
    }

    /** Deletes what the processed gateways had and have no more. */
    method CleanupFrontendsForGateways()
      requires Follows()
      modifies this`byUpdatedGateways, config
      ensures Follows() && config.Backends() == old(config.Backends()) && byUpdatedGateways == old(byUpdatedGateways)
      ensures config.frontends.Keys == old(config.frontends.Keys) - Dropped(current, byUpdatedGateways)
      ensures Kept(old(config.frontends), config.frontends, {})
    {
      hide DroppedBy;
      DroppedByNone(current, byUpdatedGateways);
      var todo := byUpdatedGateways.Keys;
      assert byUpdatedGateways.Keys - todo == {};
      while todo != {}
        invariant todo <= byUpdatedGateways.Keys && Follows() && config.Backends() == old(config.Backends()) && byUpdatedGateways == old(byUpdatedGateways)
        invariant config.frontends.Keys == old(config.frontends.Keys) - DroppedBy(current, byUpdatedGateways, byUpdatedGateways.Keys - todo)
        invariant Kept(old(config.frontends), config.frontends, {})
      {
        var k :| k in todo;
        ghost var done := byUpdatedGateways.Keys - todo;
        todo := todo - {k};
        assert byUpdatedGateways.Keys - todo == done + {k};
        DroppedByMore(current, byUpdatedGateways, done, k);
        CleanupGateway(k);
      }
      assert byUpdatedGateways.Keys - todo == byUpdatedGateways.Keys;
    }

    method CleanupGateway(k: ObjectKey)
      requires Follows() && k in byUpdatedGateways
      modifies this`byUpdatedGateways, config
      ensures Follows() && config.Backends() == old(config.Backends()) && byUpdatedGateways == old(byUpdatedGateways)
      ensures config.frontends.Keys == old(config.frontends.Keys) - DroppedBy(current, byUpdatedGateways, {k})
      ensures Kept(old(config.frontends), config.frontends, {})
    {
      if k !in current {
        assert DroppedBy(current, byUpdatedGateways, {k}) == {};
        return;
      }
      var names := current[k];
      var todo := names;
      while todo != {}
        invariant todo <= names && Follows() && config.Backends() == old(config.Backends()) && byUpdatedGateways == old(byUpdatedGateways)
        invariant config.frontends.Keys == old(config.frontends.Keys) - ((names - todo) - byUpdatedGateways[k])
        invariant Kept(old(config.frontends), config.frontends, {})
      {
        var name :| name in todo;
        todo := todo - {name};
        if name !in byUpdatedGateways[k] {
          assert After(byUpdatedGateways[k], {name}, {}) == byUpdatedGateways[k];
          DeleteFrontend(k, name);
        }
      }
      assert DroppedBy(current, byUpdatedGateways, {k}) == names - byUpdatedGateways[k];
    }

    method FinalizeFrontendsByGateway()
      modifies this`current, this`byUpdatedGateways
      ensures current == old(current) + old(byUpdatedGateways) && byUpdatedGateways == map[]
    {
      var todo := byUpdatedGateways.Keys;
      while todo != {}
        invariant todo == byUpdatedGateways.Keys && byUpdatedGateways.Keys <= old(byUpdatedGateways).Keys
        invariant forall k :: k in byUpdatedGateways ==> byUpdatedGateways[k] == old(byUpdatedGateways)[k]
        invariant current == old(current) + (old(byUpdatedGateways) - todo)
      {
        var k :| k in todo;
        todo := todo - {k};
        current := current[k := byUpdatedGateways[k]];
        byUpdatedGateways := byUpdatedGateways - {k};
      }
    }

    method CleanupAfterFirstSync()
      requires Follows() && (firstSync ==> firstSyncFrontends <= config.frontends.Keys)
      modifies this`firstSync, this`firstSyncFrontends, config
      ensures Follows() && config.Backends() == old(config.Backends()) && !firstSync
      ensures config.frontends.Keys == if old(firstSync) then old(firstSyncFrontends) else old(config.frontends.Keys)
      ensures firstSyncFrontends == if old(firstSync) then {} else old(firstSyncFrontends)
      ensures Kept(old(config.frontends), config.frontends, {})
    {
      if !firstSync {
        return;
      }
      var names := config.frontends.Keys;
      var todo := names;
      while todo != {}
        invariant todo <= names && Follows() && config.Backends() == old(config.Backends()) && firstSync && firstSyncFrontends == old(firstSyncFrontends)
        invariant config.frontends.Keys == names - ((names - todo) - firstSyncFrontends)
        invariant Kept(old(config.frontends), config.frontends, {})
      {
        var name :| name in todo;
        todo := todo - {name};
        if name !in firstSyncFrontends {
          RemoveConfigured(name);
        }
      }
      firstSyncFrontends := {};
      firstSync := false;
    }
  }

  // ---- all gateways together

  ghost function AllTouched(naming: Naming, managed: Gateways, unmanaged: Gateways, keys: set<ObjectKey>): set<string> {
    set k, f | k in keys && f in TouchedBy(naming, managed, unmanaged, k) :: f
  }

  ghost function AllOwnedIn(naming: Naming, managed: Gateways, unmanaged: Gateways, keys: set<ObjectKey>): set<string> {
    set k, f | k in keys && f in OwnedBy(naming, managed, unmanaged, k) :: f
  }

  ghost predicate IsUpdated(naming: Naming, managed: Gateways, unmanaged: Gateways, done: set<ObjectKey>, m: map<ObjectKey, set<string>>) {
    forall k :: Lookup(m, k) == UpdateOf(naming, managed, unmanaged, done, k)
  }

  ghost function UpdateOf(naming: Naming, managed: Gateways, unmanaged: Gateways, done: set<ObjectKey>, k: ObjectKey): Option<set<string>> {
    if k in done && TouchedBy(naming, managed, unmanaged, k) != {} then Some(OwnedBy(naming, managed, unmanaged, k)) else None
  }

  lemma NamesBelong(naming: Naming, managed: Gateways, unmanaged: Gateways, k: ObjectKey)
    ensures OwnedBy(naming, managed, unmanaged, k) <= TouchedBy(naming, managed, unmanaged, k)
    ensures forall f :: f in TouchedBy(naming, managed, unmanaged, k) ==> Belongs(naming, k, f)
  {}

  /** Names of one gateway never meet those of another, so gateways can be taken one by one. */
  lemma OneMoreGateway(naming: Naming, managed: Gateways, unmanaged: Gateways, before: set<string>, done: set<ObjectKey>, k: ObjectKey,
                       updated: map<ObjectKey, set<string>>)
    requires Injective(naming) && k !in done && IsUpdated(naming, managed, unmanaged, done, updated)
    ensures var t, o := TouchedBy(naming, managed, unmanaged, k), OwnedBy(naming, managed, unmanaged, k);
            && AllTouched(naming, managed, unmanaged, done) !! t
            && AllTouched(naming, managed, unmanaged, done + {k}) == AllTouched(naming, managed, unmanaged, done) + t
            && before - AllTouched(naming, managed, unmanaged, done + {k}) + AllOwnedIn(naming, managed, unmanaged, done + {k})
               == (before - AllTouched(naming, managed, unmanaged, done) + AllOwnedIn(naming, managed, unmanaged, done)) - t + o
            && AllOwnedIn(naming, managed, unmanaged, done + {k}) == AllOwnedIn(naming, managed, unmanaged, done) - t + o
            && IsUpdated(naming, managed, unmanaged, done + {k}, WithNames(updated, k, t, o))
            && k !in updated
  {
    hide OwnedBy, TouchedBy;
    var t, o := TouchedBy(naming, managed, unmanaged, k), OwnedBy(naming, managed, unmanaged, k);
    NamesBelong(naming, managed, unmanaged, k);
    assert AllTouched(naming, managed, unmanaged, done + {k}) == AllTouched(naming, managed, unmanaged, done) + t;
    assert AllOwnedIn(naming, managed, unmanaged, done + {k}) == AllOwnedIn(naming, managed, unmanaged, done) + o;
    forall f | f in AllTouched(naming, managed, unmanaged, done) ensures f !in t {
      var k' :| k' in done && f in TouchedBy(naming, managed, unmanaged, k');
      NamesBelong(naming, managed, unmanaged, k');
      if f in t { SameOwner(naming, k, k', f); }
    }
    forall f | f in AllOwnedIn(naming, managed, unmanaged, done) ensures f !in t {
      var k' :| k' in done && f in OwnedBy(naming, managed, unmanaged, k');
      NamesBelong(naming, managed, unmanaged, k');
      if f in t { SameOwner(naming, k, k', f); }
    }
    forall k' ensures Lookup(WithNames(updated, k, t, o), k') == UpdateOf(naming, managed, unmanaged, done + {k}, k') {
      assert Lookup(updated, k') == UpdateOf(naming, managed, unmanaged, done, k');
    }
    assert Lookup(updated, k) == UpdateOf(naming, managed, unmanaged, done, k);
  }

  /** What the cleanup and the end of the cycle make of the names. */
  lemma CycleOwnership(naming: Naming, managed: Gateways, unmanaged: Gateways, current: map<ObjectKey, set<string>>,
                       updated: map<ObjectKey, set<string>>, before: set<string>)
    requires Injective(naming) && OwnNames(naming, current)
    requires IsUpdated(naming, managed, unmanaged, managed.Keys + unmanaged.Keys, updated)
    ensures OwnNames(naming, current + updated) && OwnershipRenewed(naming, managed, unmanaged, current, current + updated)
    ensures var owned := AllOwnedIn(naming, managed, unmanaged, managed.Keys + unmanaged.Keys);
            var names := before - AllTouched(naming, managed, unmanaged, managed.Keys + unmanaged.Keys) + owned;
            && (before == AllOwned(current) ==> names - Dropped(current, updated) == AllOwned(current + updated))
            && (current == map[] ==> owned <= names - Dropped(current, updated) && owned == AllOwned(current + updated))
  {
    UpdatedNames(naming, managed, unmanaged, updated);
    var touched := AllTouched(naming, managed, unmanaged, managed.Keys + unmanaged.Keys);
    if before == AllOwned(current) {
      OwnedAfterCycle(naming, current, updated, touched, before);
    }
    if current == map[] {
      assert current + updated == updated;
    }
    forall k ensures Lookup(current + updated, k) == RenewedOwner(naming, managed, unmanaged, current, k) {
      assert Lookup(updated, k) == UpdateOf(naming, managed, unmanaged, managed.Keys + unmanaged.Keys, k);
    }
  }

  /** The frontends set up in a cycle survive its cleanups: they are owned. */
  lemma CycleSetUp(naming: Naming, managed: Gateways, unmanaged: Gateways, before: map<ObjectKey, set<string>>, current: map<ObjectKey, set<string>>,
                   processed: map<string, Frontend>, cleaned: map<string, Frontend>, after: map<string, Frontend>)
    requires AllSetUp(naming, processed, managed, managed.Keys + unmanaged.Keys)
    requires Kept(processed, cleaned, {}) && Kept(cleaned, after, {}) && after.Keys == AllOwned(current)
    requires OwnershipRenewed(naming, managed, unmanaged, before, current)
    ensures AllSetUp(naming, after, managed, managed.Keys)
  {
    forall k, n | k in managed && ServesTraffic(managed[k]) && n in managed[k].listeners && managed[k].listeners[n].valid
      ensures naming(k, n) in after && after[naming(k, n)].settings == managed[k].listeners[n].settings
    {
      assert SetUp(naming, processed, k, managed[k], managed[k].listeners.Keys);
      assert naming(k, n) in OwnedBy(naming, managed, unmanaged, k) && naming(k, n) in TouchedBy(naming, managed, unmanaged, k);
      assert Lookup(current, k) == RenewedOwner(naming, managed, unmanaged, before, k);
      assert naming(k, n) in current[k];
      assert naming(k, n) in AllOwned(current);
    }
  }

  lemma UpdatedNames(naming: Naming, managed: Gateways, unmanaged: Gateways, updated: map<ObjectKey, set<string>>)
    requires IsUpdated(naming, managed, unmanaged, managed.Keys + unmanaged.Keys, updated)
    ensures OwnNames(naming, updated)
    ensures var keys := managed.Keys + unmanaged.Keys;
            && AllOwned(updated) == AllOwnedIn(naming, managed, unmanaged, keys)
            && AllOwned(updated) <= AllTouched(naming, managed, unmanaged, keys)
            && forall f :: f in AllTouched(naming, managed, unmanaged, keys) ==> exists k :: k in updated && Belongs(naming, k, f)
  {
    hide OwnedBy, TouchedBy, Belongs;
    var keys := managed.Keys + unmanaged.Keys;
    forall k ensures k in updated <==> k in keys && TouchedBy(naming, managed, unmanaged, k) != {}
             ensures k in updated ==> updated[k] == OwnedBy(naming, managed, unmanaged, k)
             ensures OwnedBy(naming, managed, unmanaged, k) <= TouchedBy(naming, managed, unmanaged, k)
             ensures forall f :: f in TouchedBy(naming, managed, unmanaged, k) ==> Belongs(naming, k, f)
    {
      assert Lookup(updated, k) == if k in updated then Some(updated[k]) else None;
      NamesBelong(naming, managed, unmanaged, k);
    }
    forall f ensures f in AllOwned(updated) <==> f in AllOwnedIn(naming, managed, unmanaged, keys) {
      if f in AllOwnedIn(naming, managed, unmanaged, keys) {
        var k :| k in keys && f in OwnedBy(naming, managed, unmanaged, k);
        assert k in updated && f in updated[k];
      }
    }
  }
}
