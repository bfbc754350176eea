/** One configuration, one set of diffs: the frontends and the backends of a cycle are sent
    together, and are accepted or refused together. */
module HaproxyConfMgrs {
  import opened Wrappers
  import opened Keys
  import opened Configurations
  import FrontendOwnership
  import opened BackendOwnership
  import opened BackendCycles

  /** What a cycle reads: the tree, and the backends that can be built in each pass. */
  datatype CycleInput = CycleInput(managed: FrontendOwnership.Gateways, unmanaged: FrontendOwnership.Gateways,
                                   http: Routes, tls: Routes, built: Built, built2: Built)

  ghost predicate LegalInput(input: CycleInput) {
    input.managed.Keys !! input.unmanaged.Keys && LegalBuilt(input.built) && LegalBuilt(input.built2)
  }

  // ---- the configured backends against the owned ones

  /** No owned backend is deleted, and every newly owned one is upserted. */
  ghost predicate Kept(p: Passes, before: Owners, after: Owners) {
    after.Keys !! p.deleted2 && after.Keys - before.Keys <= p.upserted1 + p.upserted2
  }

  lemma OrphanKeys(before: Owners, after: Owners)
    requires Pruned(after)
    ensures Orphans(before, after) == before.Keys - after.Keys
  {
    forall be ensures be in after <==> !Ownerless(after, be) { PrunedIsOwned(after, be); }
  }

  lemma PassKeys(p: Passes, naming: Naming, before: Owners, after: Owners, input: CycleInput)
    requires PassesOf(p, naming, before, after, input.http, input.tls, input.built, input.built2)
    ensures before.Keys - p.between.Keys <= p.deleted1 <= p.deleted2 && p.between.Keys - after.Keys <= p.deleted2
    ensures p.upserted1 <= p.between.Keys && p.upserted2 <= after.Keys
  {
    OrphanKeys(before, p.between);
    OrphanKeys(p.between, after);
  }

  /** A cycle that starts with exactly the owned backends configured ends so if and only if
      it deletes none that is owned and upserts all that are newly owned. */
  lemma ConfiguredAreOwned(p: Passes, naming: Naming, before: Owners, after: Owners, input: CycleInput)
    requires PassesOf(p, naming, before, after, input.http, input.tls, input.built, input.built2)
    ensures before.Keys + p.upserted1 + p.upserted2 - p.deleted2 == after.Keys <==> Kept(p, before, after)
  {
    hide PassesOf;
    PassKeys(p, naming, before, after, input);
    var names := before.Keys + p.upserted1 + p.upserted2 - p.deleted2;
    assert names <= after.Keys;
    if names == after.Keys {
      forall be | be in after.Keys ensures be !in p.deleted2 && (be in before.Keys || be in p.upserted1 + p.upserted2) {
        assert be in names;
      }
    }
    if Kept(p, before, after) {
      forall be | be in after.Keys ensures be in names {
        assert be in before.Keys || be in after.Keys - before.Keys;
      }
    }
  }

  /** A backend that one HTTP route gives up and another calls for in the same batch is
      deleted in both passes: it ends unconfigured and owned. */
  lemma ContestedIsDropped(p: Passes, naming: Naming, before: Owners, after: Owners, input: CycleInput,
                           k: ObjectKey, k': ObjectKey, be: string)
    requires PassesOf(p, naming, before, after, input.http, input.tls, input.built, input.built2)
    requires k in input.http && Withdraws(input.http[k]) && be in OwnedBackends(before, HTTPRoute, k)
    requires k' in input.http && be in QueuedByOne(naming, HTTPRoute, input.http[k'])
    ensures be in after.Keys * p.deleted2 && !Kept(p, before, after)
  {
    hide Withdraws, Pruned;
    var route := input.http[k'];
    assert be in GivenUp(before, HTTPRoute, input.http, input.http.Keys);
    CalledIsOwned(naming, route, be);
    assert Generation(p.between, be, HTTPRoute, k') == RenewedAt(naming, HTTPRoute, input.http, input.http.Keys, before, be, HTTPRoute, k');
    assert Generation(after, be, HTTPRoute, k') == RenewedAt(naming, TLSRoute, input.tls, input.tls.Keys, p.between, be, HTTPRoute, k');
  }

  /** A backend that one HTTP route gives up and another, untouched, owns is deleted and still
      owned. */
  lemma SharedIsDropped(p: Passes, naming: Naming, before: Owners, after: Owners, input: CycleInput,
                        k: ObjectKey, k': ObjectKey, be: string)
    requires PassesOf(p, naming, before, after, input.http, input.tls, input.built, input.built2)
    requires k in input.http && Withdraws(input.http[k]) && be in OwnedBackends(before, HTTPRoute, k)
    requires be in OwnedBackends(before, HTTPRoute, k') && (k' in input.http ==> input.http[k'].status.Unchanged?)
    ensures be in after.Keys * p.deleted2 && !Kept(p, before, after)
  {
    hide Withdraws, Pruned;
    assert be in GivenUp(before, HTTPRoute, input.http, input.http.Keys);
    assert Generation(p.between, be, HTTPRoute, k') == RenewedAt(naming, HTTPRoute, input.http, input.http.Keys, before, be, HTTPRoute, k');
    assert Generation(after, be, HTTPRoute, k') == RenewedAt(naming, TLSRoute, input.tls, input.tls.Keys, p.between, be, HTTPRoute, k');
  }

  lemma CalledIsOwned(naming: Naming, route: Route, be: string)
    requires be in QueuedByOne(naming, HTTPRoute, route)
    ensures route.status.Upserted? && route.valid && CallsFor(naming, HTTPRoute, route, be)
  {
    var rule, ref :| rule in route.rules && rule.valid && ref in rule.refs && AddedBy(naming, HTTPRoute, route.ns, rule, ref) == Some(be);
    assert Calls(naming, HTTPRoute, route.ns, rule, ref, be);
  }

  // ---- cycles

  /** A cycle on record: what both sections were and became, whether its transaction failed,
      and whether the receiver has them afterwards. */
  datatype Sent = Sent(input: CycleInput, before: Owners, after: Owners, passes: Passes,
                       startF: map<string, Frontend>, startB: map<string, Backend>,
                       endF: map<string, Frontend>, endB: map<string, Backend>, failed: bool, equal: bool)

  ghost predicate Recorded(naming: Naming, s: Sent) {
    PassesOf(s.passes, naming, s.before, s.after, s.input.http, s.input.tls, s.input.built, s.input.built2)
    && ContentsExact(s.passes, s.startB, s.endB, s.input.built, s.input.built2)
  }

  /** What the cycle makes of the frontends: who owns them, how the processed ones are set up,
      and that the others stay as they were. */
  ghost predicate FrontendsExact(naming: FrontendOwnership.Naming, input: CycleInput, owned: map<ObjectKey, set<string>>, owned': map<ObjectKey, set<string>>,
                                 before: map<string, Frontend>, after: map<string, Frontend>) {
    && FrontendOwnership.OwnershipRenewed(naming, input.managed, input.unmanaged, owned, owned')
    && FrontendOwnership.AllSetUp(naming, after, input.managed, input.managed.Keys)
    && FrontendOwnership.Kept(before, after, FrontendOwnership.AllTouched(naming, input.managed, input.unmanaged, input.managed.Keys + input.unmanaged.Keys))
  }

  /** A failed transaction changed nothing that matters. */
  ghost predicate LosesNothing(s: Sent) {
    s.failed ==> s.startF == s.endF && s.startB == s.endB
  }

  ghost predicate IsKept(s: Sent) {
    Kept(s.passes, s.before, s.after)
  }

  ghost predicate IsOwned(s: Sent) {
    s.endB.Keys == s.after.Keys
  }

  /** From equal sides a cycle ends with equal sides if and only if it loses nothing; from the
      owned backends it ends with the owned ones if and only if it keeps them. */
  ghost predicate SentStep(equal: bool, owned: bool, s: Sent) {
    (equal ==> (s.equal <==> LosesNothing(s))) && (owned ==> (IsOwned(s) <==> IsKept(s)))
  }

  ghost predicate SentAt(h: seq<Sent>, i: nat)
    requires i < |h|
  {
    SentStep(i == 0 || h[i - 1].equal, i == 0 || IsOwned(h[i - 1]), h[i])
  }

  ghost predicate Chain(h: seq<Sent>) {
    forall i :: 0 <= i < |h| ==> SentAt(h, i)
  }

  lemma ChainSnoc(h: seq<Sent>, s: Sent)
    requires Chain(h) && SentStep(h == [] || h[|h| - 1].equal, h == [] || IsOwned(h[|h| - 1]), s)
    ensures Chain(h + [s])
  {
    forall i | 0 <= i < |h| + 1 ensures SentAt(h + [s], i) {
      if i < |h| {
        assert SentAt(h, i);
      }
    }
  }

  ghost predicate NoneFailed(h: seq<Sent>) {
    forall i :: 0 <= i < |h| ==> !h[i].failed
  }

  ghost predicate AllEqual(h: seq<Sent>) {
    forall i :: 0 <= i < |h| ==> h[i].equal
  }

  ghost predicate NothingLost(h: seq<Sent>) {
    forall i :: 0 <= i < |h| ==> LosesNothing(h[i])
  }

  ghost predicate AllOwned(h: seq<Sent>) {
    forall i :: 0 <= i < |h| ==> IsOwned(h[i])
  }

  ghost predicate AllKept(h: seq<Sent>) {
    forall i :: 0 <= i < |h| ==> IsKept(h[i])
  }

  lemma RunsStay(h: seq<Sent>)
    requires Chain(h)
    ensures AllEqual(h) <==> NothingLost(h)
    ensures AllOwned(h) <==> AllKept(h)
  {
    hide LosesNothing, IsKept, IsOwned;
    forall i | 0 <= i < |h|
      ensures NothingLost(h) ==> h[i].equal
      ensures AllKept(h) ==> IsOwned(h[i])
      ensures AllEqual(h) ==> LosesNothing(h[i])
      ensures AllOwned(h) ==> IsKept(h[i])
    {
      StaysUpTo(h, i);
      assert SentAt(h, i);
    }
  }

  lemma {:induction false} StaysUpTo(h: seq<Sent>, i: nat)
    requires i < |h| && Chain(h)
    ensures NothingLost(h) ==> h[i].equal
    ensures AllKept(h) ==> IsOwned(h[i])
  {
    hide LosesNothing, IsKept, IsOwned;
    assert SentAt(h, i);
    if i > 0 {
      StaysUpTo(h, i - 1);
    }
  }

  lemma StepOwned(s: Sent, naming: Naming)
    requires Recorded(naming, s)
    ensures s.endB.Keys == s.before.Keys + s.passes.upserted1 + s.passes.upserted2 - s.passes.deleted2 ==> (IsOwned(s) <==> IsKept(s))
  {
    hide PassesOf, ContentsExact, Kept;
    ConfiguredAreOwned(s.passes, naming, s.before, s.after, s.input);
  }

  class HaproxyConfMgr {
    const config: Configuration
    const frontends: FrontendOwnership.FrontendManager
    const backends: BackendCycle
    ghost var history: seq<Sent>

    ghost predicate Valid()
      reads frontends, backends, backends.manager, config
    {
      && frontends.config == config && backends.config == config
      && frontends.Valid() && backends.Valid() && frontends.firstSync == backends.firstSync
    }

    ghost predicate Equal(r: Receiver)
      reads config, r
    {
      r.frontends == config.frontends && r.backends == config.backends
    }

    constructor (config: Configuration, frontends: FrontendOwnership.FrontendManager, backends: BackendCycle)
      requires frontends.config == config && backends.config == config
      requires frontends.Valid() && backends.Valid() && frontends.firstSync && backends.firstSync
      ensures Valid() && history == [] && this.config == config && this.frontends == frontends && this.backends == backends
    {
      this.config, this.frontends, this.backends, history := config, frontends, backends, [];
    }

    /** The frontends, then the backends, into one set of diffs that the receiver follows. */
    method ComputeDiffs(input: CycleInput) returns (ghost p: Passes)
      requires Valid() && LegalInput(input)
      modifies config, frontends, backends, backends.manager
      ensures Valid() && !frontends.firstSync
      ensures Followed(old(config.frontends), config.Frontends()) && Followed(old(config.backends), config.Backends())
      ensures PassesOf(p, backends.manager.naming, old(backends.manager.owners), backends.manager.owners, input.http, input.tls, input.built, input.built2)
      ensures config.backends.Keys == (if old(frontends.firstSync) then {} else old(config.backends).Keys) + p.upserted1 + p.upserted2 - p.deleted2
      ensures ContentsExact(p, old(config.backends), config.backends, input.built, input.built2)
      ensures FrontendsExact(frontends.naming, input, old(frontends.current), frontends.current, old(config.frontends), config.frontends)
    {
      hide ContentsExact, FrontendOwnership.OwnershipRenewed, FrontendOwnership.AllSetUp, FrontendOwnership.Kept, FrontendOwnership.AllTouched;
      config.ResetAllDiffs();
      backends.manager.ResetQueues();
      frontends.RunCycle(input.managed, input.unmanaged);
      p := backends.RunCycle(input.http, input.tls, input.built, input.built2);
    }

    /** One cycle, sent as one transaction. From equal sides, whatever the cycle does, it is
        refused only when the transaction fails, and otherwise the sides are equal again. From
        any sides it is refused as well when an edit or a delete misses. */
    method RunCycle(input: CycleInput, r: Receiver) returns (ghost p: Passes, err: bool)
      requires Valid() && LegalInput(input)
      modifies this`history, config, frontends, backends, backends.manager, r
      ensures Valid() && !frontends.firstSync
      ensures old(Equal(r)) ==> (err <==> r.failed) && (!err ==> Equal(r))
      ensures err ==> r.frontends == old(r.frontends) && r.backends == old(r.backends)
      ensures err <==> r.failed || !(Hits(old(r.frontends), config.Frontends()) && Hits(old(r.backends), config.Backends()))
      ensures Followed(old(config.frontends), config.Frontends()) && Followed(old(config.backends), config.Backends())
      ensures history == old(history) + [Sent(input, old(backends.manager.owners), backends.manager.owners, p, old(config.frontends), old(config.backends),
                                              config.frontends, config.backends, r.failed, Equal(r))]
      ensures Recorded(backends.manager.naming, history[|old(history)|])
      ensures FrontendsExact(frontends.naming, input, old(frontends.current), frontends.current, old(config.frontends), config.frontends)
      ensures SentStep(old(Equal(r)), old(frontends.firstSync || config.backends.Keys == backends.manager.owners.Keys), history[|old(history)|])
    {
      hide LegalInput, PassesOf, ContentsExact, FrontendsExact, Followed, Hits, Kept, Valid;
      ghost var startF, startB, before, naming := config.frontends, config.backends, backends.manager.owners, backends.manager.naming;
      FirstHasNoOwners();
      p := ComputeDiffs(input);
      err := SendDiffs(r, startF, startB);
      ghost var s := Sent(input, before, backends.manager.owners, p, startF, startB, config.frontends, config.backends, r.failed, Equal(r));
      history := history + [s];
      StepOwned(s, naming);
    }

    lemma FirstHasNoOwners()
      requires Valid()
      ensures frontends.firstSync ==> backends.manager.owners == map[]
    {}

    method SendDiffs(r: Receiver, ghost startF: map<string, Frontend>, ghost startB: map<string, Backend>) returns (err: bool)
      requires Followed(startF, config.Frontends()) && Followed(startB, config.Backends())
      modifies r
      ensures err <==> r.failed || !(Hits(old(r.frontends), config.Frontends()) && Hits(old(r.backends), config.Backends()))
      ensures err ==> r.frontends == old(r.frontends) && r.backends == old(r.backends)
      ensures old(r.frontends) == startF && old(r.backends) == startB ==> (err <==> r.failed) && (!err ==> Equal(r))
    {
      FollowedIsReceived(startF, config.Frontends());
      FollowedIsReceived(startB, config.Backends());
      hide Hits, Replay;
      err := r.ApplyCfgUpdates(Section(config.frontends, config.createdFrontends, config.updatedFrontends, config.deletedFrontends),
                               Section(config.backends, config.createdBackends, config.updatedBackends, config.deletedBackends));
    }
  }

  /** What each record says, and how the records follow one another. */
  ghost predicate Records(naming: Naming, h: seq<Sent>, inputs: seq<CycleInput>) {
    |h| == |inputs| && forall i :: 0 <= i < |h| ==>
      Recorded(naming, h[i]) && h[i].input == inputs[i]
      && (i > 0 ==> h[i].startF == h[i - 1].endF && h[i].startB == h[i - 1].endB && h[i].before == h[i - 1].after)
  }

  /** The records start from this configuration and these owners. */
  ghost predicate StartsAt(h: seq<Sent>, frontends: map<string, Frontend>, backends: map<string, Backend>, owners: Owners) {
    h != [] ==> h[0].startF == frontends && h[0].startB == backends && h[0].before == owners
  }

  ghost predicate EndsAt(h: seq<Sent>, frontends: map<string, Frontend>, backends: map<string, Backend>, owners: Owners, failed: bool, equal: bool) {
    h != [] ==> var last := h[|h| - 1];
                last.endF == frontends && last.endB == backends && last.after == owners && last.failed == failed && last.equal == equal
  }

  /** On every run from the first sync on, with equal sides at its start: the receiver has the
      controller's frontends and backends after every cycle when no transaction fails, and if
      and only if every cycle whose transaction fails was to change nothing. The configured
      backends are the owned ones after every cycle if and only if each cycle keeps what is
      owned. */
  method RunCycles(m: HaproxyConfMgr, r: Receiver, inputs: seq<CycleInput>)
    requires m.Valid() && m.frontends.firstSync && m.Equal(r) && m.history == []
    requires forall i :: 0 <= i < |inputs| ==> LegalInput(inputs[i])
    modifies m`history, m.config, m.frontends, m.backends, m.backends.manager, r
    ensures m.Valid() && Records(m.backends.manager.naming, m.history, inputs)
    ensures StartsAt(m.history, old(m.config.frontends), old(m.config.backends), old(m.backends.manager.owners))
    ensures EndsAt(m.history, m.config.frontends, m.config.backends, m.backends.manager.owners, r.failed, m.Equal(r))
    ensures NoneFailed(m.history) ==> AllEqual(m.history) && m.Equal(r)
    ensures AllEqual(m.history) <==> NothingLost(m.history)
    ensures AllOwned(m.history) <==> AllKept(m.history)
  {
    hide Recorded, SentStep, LegalInput, IsOwned, Records, Chain, NoneFailed, AllEqual, NothingLost, AllOwned, AllKept, HaproxyConfMgr.Valid, PassesOf, FrontendsExact;
    ghost var naming := m.backends.manager.naming;
    NoRecords(naming);
    for i := 0 to |inputs|
      invariant m.Valid() && |m.history| == i && (i == 0 <==> m.frontends.firstSync)
      invariant Records(naming, m.history, inputs[..i]) && Chain(m.history)
      invariant i == 0 ==> m.Equal(r) && m.config.frontends == old(m.config.frontends) && m.config.backends == old(m.config.backends)
                           && m.backends.manager.owners == old(m.backends.manager.owners)
      invariant StartsAt(m.history, old(m.config.frontends), old(m.config.backends), old(m.backends.manager.owners))
      invariant EndsAt(m.history, m.config.frontends, m.config.backends, m.backends.manager.owners, r.failed, m.Equal(r))
    {
      ghost var h := m.history;
      LastOwned(h);
      var _, err := m.RunCycle(inputs[i], r);
      ChainSnoc(h, m.history[i]);
      RecordsSnoc(naming, h, inputs[..i], m.history[i], inputs[i]);
      assert m.history == h + [m.history[i]] && inputs[..i + 1] == inputs[..i] + [inputs[i]];
    }
    assert inputs[..|inputs|] == inputs;
    RunsStay(m.history);
    NoFailureNoLoss(m.history);
  }

  /** Failed transactions are not made up for. When the cycle that configured a backend was
      lost, the first cycle that drops it or changes it, and does not create it anew, is
      refused however its transaction goes. */
  method LostBackend(m: HaproxyConfMgr, r: Receiver, first: CycleInput, second: CycleInput, be: string) returns (lost: bool, refused: bool)
    requires m.Valid() && LegalInput(first) && LegalInput(second) && m.Equal(r) && be !in r.backends
    modifies m`history, m.config, m.frontends, m.backends, m.backends.manager, r
    ensures |m.history| == |old(m.history)| + 2
    ensures var was, now := m.history[|old(m.history)|].endB, m.config.backends;
            lost && be in was && be !in m.config.createdBackends && (be in now ==> now[be] != was[be]) ==> refused
    ensures lost <==> m.history[|old(m.history)|].failed
  {
    hide LegalInput, PassesOf, SentStep, Recorded, Hits, Followed, FrontendsExact, HaproxyConfMgr.Valid;
    ghost var _, err := m.RunCycle(first, r);
    lost := r.failed;
    ghost var was := m.config.backends;
    ghost var p;
    p, refused := m.RunCycle(second, r);
    if lost && be in was && be !in m.config.createdBackends && (be in m.config.backends ==> m.config.backends[be] != was[be]) {
      LostNameRefuses(was, old(r.backends), m.config.Backends(), be);
    }
  }

  lemma NoFailureNoLoss(h: seq<Sent>)
    ensures NoneFailed(h) ==> NothingLost(h)
    ensures AllEqual(h) && h != [] ==> h[|h| - 1].equal
  {}

  lemma NoRecords(naming: Naming)
    ensures Records(naming, [], []) && Chain([])
  {}

  lemma RecordsSnoc(naming: Naming, h: seq<Sent>, inputs: seq<CycleInput>, s: Sent, input: CycleInput)
    requires Records(naming, h, inputs) && Recorded(naming, s) && s.input == input
    requires h != [] ==> s.startF == h[|h| - 1].endF && s.startB == h[|h| - 1].endB && s.before == h[|h| - 1].after
    ensures Records(naming, h + [s], inputs + [input])
  {
    hide Recorded;
  }

  lemma LastOwned(h: seq<Sent>)
    ensures h != [] ==> (IsOwned(h[|h| - 1]) <==> h[|h| - 1].endB.Keys == h[|h| - 1].after.Keys)
  {}
}
