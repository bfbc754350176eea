/** Bringing the running HAProxy's certificates in line with the disk through its
    runtime socket, with a reload whenever that cannot be done or goes wrong.
    Certificates and crt-lists are named by the keys their paths encode. */
module RuntimeCertificates {
  import opened Wrappers
  import opened Keys
  import opened GatewayApi
  import opened ObjectStores
  import opened References
  import opened CertificateSpec
  import opened CertificateRun
  import opened Sets

  type Error = bool
  const Ok: Error := false
  const Failed: Error := true

  class ReloadMgr {
    var reload: bool

    constructor ()
      ensures !reload
    {
      reload := false;
    }

    method SetReload()
      modifies this
      ensures reload
    {
      reload := true;
    }

    method Reset()
      modifies this
      ensures !reload
    {
      reload := false;
    }
  }

  /** HAProxy's side of the socket. Any command may be refused, without effect; one that
      cannot be carried out always is. */
  class RuntimeClient {
    var certs: map<ObjectKey, bytes>
    var lists: map<ObjectKey, set<ObjectKey>>
    var transaction: Option<(ObjectKey, bytes)>
    /** Some command was refused since the cycle began, and some although it could have been
        carried out. */
    ghost var refused: bool
    ghost var balked: bool
    /** Some certificate was to be deleted that a crt-list named. */
    ghost var askedInUse: bool
    /** Some transaction could not be aborted. */
    ghost var abortFailed: bool

    predicate Listed(k: ObjectKey)
      reads this`lists
    {
      exists l :: l in lists && k in lists[l]
    }

    constructor ()
      ensures certs == map[] && lists == map[] && transaction == None && !refused && !balked && !askedInUse && !abortFailed
    {
      certs, lists, transaction := map[], map[], None;
      refused, balked, askedInUse, abortFailed := false, false, false, false;
    }

    ghost method BeginCycle()
      modifies this`refused, this`balked
      ensures !refused && !balked
    {
      refused, balked := false, false;
    }

    method Answer(can: bool) returns (err: Error)
      modifies this`refused, this`balked
      ensures !can ==> err
      ensures refused == (old(refused) || err) && balked == (old(balked) || (err && can))
    {
      err := *;
      balked := balked || (err && can);
      err := err || !can;
      refused := refused || err;
    }

    method NewCertEntry(k: ObjectKey) returns (err: Error)
      modifies this`certs, this`refused, this`balked
      ensures refused == (old(refused) || err) && balked == (old(balked) || (err && k !in old(certs)))
      ensures certs == if err then old(certs) else old(certs)[k := []]
      ensures !err ==> k !in old(certs)
    {
      err := Answer(k !in certs);
      if !err {
        certs := certs[k := []];
      }
    }

    predicate CanSet(k: ObjectKey)
      reads this`certs, this`transaction
    {
      (transaction == None || transaction.value.0 == k) && k in certs
    }

    /** There is one transaction at a time. */
    method SetCertEntry(k: ObjectKey, data: bytes) returns (err: Error)
      modifies this`transaction, this`refused, this`balked
      ensures refused == (old(refused) || err) && balked == (old(balked) || (err && old(CanSet(k))))
      ensures transaction == if err then old(transaction) else Some((k, data))
      ensures !err ==> old(CanSet(k))
    {
      err := Answer(CanSet(k));
      if !err {
        transaction := Some((k, data));
      }
    }

    predicate CanCommit(k: ObjectKey)
      reads this`transaction
    {
      transaction != None && transaction.value.0 == k
    }

    method CommitCertEntry(k: ObjectKey) returns (err: Error)
      modifies this`certs, this`transaction, this`refused, this`balked
      ensures refused == (old(refused) || err) && balked == (old(balked) || (err && old(CanCommit(k))))
      ensures err ==> certs == old(certs) && transaction == old(transaction)
      ensures !err ==> old(CanCommit(k)) && transaction == None && certs == old(certs)[k := old(transaction).value.1]
    {
      err := Answer(CanCommit(k));
      if !err {
        certs, transaction := certs[k := transaction.value.1], None;
      }
    }

    method AbortCertEntry(k: ObjectKey) returns (err: Error)
      modifies this`transaction, this`abortFailed, this`refused, this`balked
      ensures refused == (old(refused) || err) && balked == (old(balked) || err)
      ensures transaction == if err then old(transaction) else None
      ensures abortFailed == (old(abortFailed) || err)
    {
      err := Answer(true);
      abortFailed := abortFailed || err;
      if !err {
        transaction := None;
      }
    }

    /** HAProxy refuses to delete a certificate some crt-list names. */
    method DeleteCertEntry(k: ObjectKey) returns (err: Error)
      modifies this`certs, this`askedInUse, this`refused, this`balked
      ensures refused == (old(refused) || err) && balked == (old(balked) || (err && k in old(certs) && !Listed(k)))
      ensures certs == if err then old(certs) else old(certs) - {k}
      ensures !err ==> k in old(certs) && !Listed(k)
      ensures askedInUse == (old(askedInUse) || Listed(k))
    {
      askedInUse := askedInUse || Listed(k);
      err := Answer(k in certs && !Listed(k));
      if !err {
        certs := certs - {k};
      }
    }

    method ShowCrtListEntries(l: ObjectKey) returns (entries: set<ObjectKey>, err: Error)
      modifies this`refused, this`balked
      ensures refused == (old(refused) || err) && balked == (old(balked) || (err && l in lists))
      ensures !err ==> l in lists && entries == lists[l]
    {
      err := Answer(l in lists);
      entries := if err then {} else lists[l];
    }

    method AddCrtListEntry(l: ObjectKey, k: ObjectKey) returns (err: Error)
      modifies this`lists, this`refused, this`balked
      ensures refused == (old(refused) || err) && balked == (old(balked) || (err && l in old(lists)))
      ensures err ==> lists == old(lists)
      ensures !err ==> l in old(lists) && lists == old(lists)[l := old(lists)[l] + {k}]
    {
      err := Answer(l in lists);
      if !err {
        lists := lists[l := lists[l] + {k}];
      }
    }

    method DeleteCrtListEntry(l: ObjectKey, k: ObjectKey) returns (err: Error)
      modifies this`lists, this`refused, this`balked
      ensures refused == (old(refused) || err) && balked == (old(balked) || (err && l in old(lists)))
      ensures err ==> lists == old(lists)
      ensures !err ==> l in old(lists) && lists == old(lists)[l := old(lists)[l] - {k}]
    {
      err := Answer(l in lists);
      if !err {
        lists := lists[l := lists[l] - {k}];
      }
    }

    /** A reload makes HAProxy read the files again. */
    method Reload(diskCerts: map<ObjectKey, bytes>, diskLists: map<ObjectKey, set<ObjectKey>>)
      modifies this`certs, this`lists, this`transaction
      ensures certs == diskCerts && lists == diskLists && transaction == None
    {
      certs, lists, transaction := diskCerts, diskLists, None;
    }
  }

  ghost predicate Nothing(c: CertDiffs, d: ListDiffs) {
    c == CertDiffs(map[], map[], {}) && d == ListDiffs(map[], map[], {})
  }

  /** Every command of the cycle can be carried out: what is created is not there, what is
      updated or deleted is, and what is deleted is listed no more. */
  ghost predicate Acceptable(certs: map<ObjectKey, bytes>, lists: map<ObjectKey, set<ObjectKey>>, c: CertDiffs, d: ListDiffs) {
    && c.created.Keys * certs.Keys == {} && c.updated.Keys <= certs.Keys + c.created.Keys && d.updated.Keys <= lists.Keys
    && c.deleted <= certs.Keys + c.created.Keys && DeletedUnlisted(c, WriteLists(lists, d))
  }

  /** No certificate to delete is named by a crt-list after the cycle. */
  ghost predicate DeletedUnlisted(c: CertDiffs, lists: map<ObjectKey, set<ObjectKey>>) {
    forall k, l :: k in c.deleted && l in lists ==> k !in lists[l]
  }

  /** What the updater is given in one cycle: the diffs and the disk after them; whether the
      configuration that comes with them asks for a reload itself, and whether it is applied. */
  datatype UpdaterCycle = UpdaterCycle(c: CertDiffs, d: ListDiffs, diskCerts: map<ObjectKey, bytes>, diskLists: map<ObjectKey, set<ObjectKey>>,
                                       other: bool, applied: bool)

  ghost predicate GivenIn(before: State, batch: Batch, cycle: UpdaterCycle) {
    && cycle.c == CertDiffsIn(before, batch) && cycle.d == ListDiffsIn(before, batch)
    && cycle.diskCerts == Cycle(before, batch).certs && cycle.diskLists == Cycle(before, batch).lists
  }

  ghost predicate Relists(d: ListDiffs) {
    d.created != map[] || d.deleted != {}
  }

  ghost function OutcomeOf(before: State, cycle: UpdaterCycle, refused: bool, balked: bool, requested: bool, mirrored: bool): Outcome {
    Outcome(Relists(cycle.d), Acceptable(before.certs, before.lists, cycle.c, cycle.d),
            cycle.diskCerts != before.certs || cycle.diskLists != before.lists, refused, balked,
            requested, cycle.applied && (requested || cycle.other), mirrored)
  }

  lemma OutcomeIs(before: State, cycle: UpdaterCycle, refused: bool, balked: bool, requested: bool, mirrored: bool)
    ensures var o := OutcomeOf(before, cycle, refused, balked, requested, mirrored);
            IsOutcome(o, before, cycle) && o.refused == refused && o.balked == balked && o.requested == requested && o.mirrored == mirrored
  {}

  ghost predicate IsOutcome(o: Outcome, before: State, cycle: UpdaterCycle) {
    o == OutcomeOf(before, cycle, o.refused, o.balked, o.requested, o.mirrored)
  }

  /** What a cycle came to: whether it creates or deletes crt-lists, can be carried out on the
      disk it found, and changes it; whether a command was refused, and one that could have
      been carried out; whether it requests a reload for its certificates, has one taken, and
      leaves the runtime mirroring. */
  datatype Outcome = Outcome(listed: bool, acceptable: bool, changes: bool, refused: bool, balked: bool,
                             requested: bool, taken: bool, mirrored: bool)

  /** One cycle, from a runtime that did or did not mirror the disk. */
  ghost predicate MirrorStep(was: bool, o: Outcome) {
    && (o.requested <==> o.listed || o.refused)
    && (was ==> (o.requested <==> o.listed || o.balked || !o.acceptable))
    && (o.taken ==> o.mirrored)
    && (was && !o.requested ==> o.mirrored)
    && (was && o.listed && !o.taken ==> (o.mirrored <==> !o.changes))
  }

  ghost predicate Chained(h: seq<Outcome>) {
    forall i :: 0 <= i < |h| ==> StepAt(h, i)
  }

  ghost predicate StepAt(h: seq<Outcome>, i: nat)
    requires i < |h|
  {
    MirrorStep(i == 0 || h[i - 1].mirrored, h[i])
  }

  lemma NoneChained()
    ensures Chained([])
  {}

  lemma ChainedSnoc(h: seq<Outcome>, o: Outcome)
    requires Chained(h) && MirrorStep(h == [] || h[|h| - 1].mirrored, o)
    ensures Chained(h + [o])
  {
    forall i | 0 <= i < |h| + 1 ensures StepAt(h + [o], i) {
      if i < |h| {
        assert StepAt(h, i);
      }
    }
  }

  ghost predicate AllMirrored(h: seq<Outcome>) {
    forall i :: 0 <= i < |h| ==> h[i].mirrored
  }

  /** Every requested reload was taken. */
  ghost predicate AllTaken(h: seq<Outcome>) {
    forall i :: 0 <= i < |h| && h[i].requested ==> h[i].taken
  }

  /** Reloads were only missed by cycles that create or delete crt-lists. */
  ghost predicate MissedByLists(h: seq<Outcome>) {
    forall i :: 0 <= i < |h| && h[i].requested && !h[i].taken ==> h[i].listed
  }

  ghost predicate RefusedUnchanged(h: seq<Outcome>) {
    forall i :: 0 <= i < |h| && h[i].listed && !h[i].taken ==> !h[i].changes
  }

  /** Reloads are requested by the cycles that create or delete crt-lists or cannot be carried
      out on the disk they found, and when HAProxy refuses what it could do; by no other. */
  ghost predicate RequestsExact(h: seq<Outcome>) {
    forall i :: 0 <= i < |h| ==> (h[i].requested <==> h[i].listed || h[i].balked || !h[i].acceptable)
  }

  /** The runtime mirrors the disk after every cycle when every requested reload is taken, and
      then reloads are requested only where they are needed or HAProxy balks; and when reloads are only missed by cycles that create or delete crt-lists, if and
      only if each of those left the disk unchanged. */
  lemma MirroredThroughout(h: seq<Outcome>)
    requires Chained(h)
    ensures AllTaken(h) ==> AllMirrored(h)
    ensures MissedByLists(h) ==> (AllMirrored(h) <==> RefusedUnchanged(h))
    ensures AllMirrored(h) ==> RequestsExact(h)
  {
    if AllTaken(h) || (MissedByLists(h) && RefusedUnchanged(h)) {
      forall i | 0 <= i < |h| ensures h[i].mirrored {
        MirroredUpTo(h, i);
      }
    }
    if AllMirrored(h) {
      forall i | 0 <= i < |h|
        ensures h[i].listed && !h[i].taken ==> !h[i].changes
        ensures h[i].requested <==> h[i].listed || h[i].balked || !h[i].acceptable
      {
        assert StepAt(h, i);
      }
    }
  }

  lemma {:induction false} MirroredUpTo(h: seq<Outcome>, i: nat)
    requires i < |h| && Chained(h) && (AllTaken(h) || (MissedByLists(h) && RefusedUnchanged(h)))
    ensures h[i].mirrored
  {
    assert StepAt(h, i);
    if i > 0 {
      MirroredUpTo(h, i - 1);
    }
  }

  class CertificateUpdater {
    const runtime: RuntimeClient
    const reloadMgr: ReloadMgr
    const runtimeUpdate: bool
    ghost var history: seq<Outcome>

    constructor (runtime: RuntimeClient, reloadMgr: ReloadMgr, runtimeUpdate: bool)
      ensures this.runtime == runtime && this.reloadMgr == reloadMgr && this.runtimeUpdate == runtimeUpdate && history == []
    {
      this.runtime, this.reloadMgr, this.runtimeUpdate, history := runtime, reloadMgr, runtimeUpdate, [];
    }

    /** The runtime is as it was. */
    twostate predicate Untouched()
      reads runtime
    {
      runtime.certs == old(runtime.certs) && runtime.lists == old(runtime.lists) && runtime.transaction == old(runtime.transaction)
    }

    /** From whatever the runtime holds, and whatever commands fail: either a reload is
        requested or the runtime is changed by exactly the diffs. */
    method ProcessCertificates(c: CertDiffs, d: ListDiffs) returns (err: Error)
      modifies runtime, reloadMgr
      ensures runtimeUpdate && !reloadMgr.reload ==>
        !err && runtime.certs == WriteCerts(old(runtime.certs), c) && runtime.lists == WriteLists(old(runtime.lists), d)
        && (old(runtime.transaction) == None ==> runtime.transaction == None)
      ensures err ==> reloadMgr.reload
      ensures old(reloadMgr.reload) ==> reloadMgr.reload
      ensures runtimeUpdate && (d.created != map[] || d.deleted != {}) ==> reloadMgr.reload && Untouched()
      ensures Nothing(c, d) ==> !err && Untouched() && reloadMgr.reload == old(reloadMgr.reload)
      ensures DeletedUnlisted(c, WriteLists(old(runtime.lists), d)) ==> runtime.askedInUse == old(runtime.askedInUse)
      ensures !runtimeUpdate ==> Untouched() && reloadMgr.reload == old(reloadMgr.reload)
      ensures !old(reloadMgr.reload) && !old(runtime.refused) ==>
                (reloadMgr.reload <==> runtimeUpdate && (Relists(d) || runtime.refused)) && (err <==> runtime.refused)
      ensures !old(reloadMgr.reload) && !old(runtime.balked) && old(runtime.transaction) == None ==>
                (reloadMgr.reload <==> runtimeUpdate && (Relists(d) || runtime.balked || !Acceptable(old(runtime.certs), old(runtime.lists), c, d)))
    {
      if !runtimeUpdate {
        return Ok;
      }
      RuntimeCertificatesPrechecks(d);
      err := ExecuteRuntimeCertCommands(c, d);
    }

    /** Crt-lists cannot be created or deleted through the socket. */
    method RuntimeCertificatesPrechecks(d: ListDiffs)
      modifies reloadMgr
      ensures reloadMgr.reload <==> old(reloadMgr.reload) || d.created != map[] || d.deleted != {}
    {
      if |d.created| > 0 {
        reloadMgr.SetReload();
      }
      if |d.deleted| > 0 {
        reloadMgr.SetReload();
      }
    }

    /** Certificates that leave are deleted last, when no updated crt-list names them. */
    method ExecuteRuntimeCertCommands(c: CertDiffs, d: ListDiffs) returns (err: Error)
      requires !reloadMgr.reload ==> d.created == map[] && d.deleted == {}
      modifies runtime, reloadMgr
      ensures !reloadMgr.reload ==>
        !err && runtime.certs == WriteCerts(old(runtime.certs), c) && runtime.lists == WriteLists(old(runtime.lists), d)
        && (old(runtime.transaction) == None ==> runtime.transaction == None)
      ensures err ==> reloadMgr.reload
      ensures old(reloadMgr.reload) ==> !err && reloadMgr.reload && Untouched()
      ensures Nothing(c, d) ==> !err && Untouched() && reloadMgr.reload == old(reloadMgr.reload)
      ensures DeletedUnlisted(c, WriteLists(old(runtime.lists), d)) ==> runtime.askedInUse == old(runtime.askedInUse)
      ensures runtime.refused == (old(runtime.refused) || err) && (runtime.balked ==> old(runtime.balked) || err)
      ensures !old(reloadMgr.reload) ==> (reloadMgr.reload <==> err)
      ensures !old(reloadMgr.reload) && !runtime.balked && old(runtime.transaction) == None ==>
                (err <==> !Acceptable(old(runtime.certs), old(runtime.lists), c, d))
    {
      if reloadMgr.reload {
        return Ok;
      }
      err := CreateCerts(c.created);
      if err { return; }
      err := UpdateCerts(c.updated);
      if err { return; }
      err := UpdateCrtLists(d.updated);
      if err { return; }
      OnlyUpdated(old(runtime.lists), d);
      UnlistedAll(c, runtime.lists);
      hide DeletedUnlisted, WriteLists;
      err := DeleteCerts(c.deleted);
    }

    method CreateCerts(created: map<ObjectKey, bytes>) returns (err: Error)
      requires !reloadMgr.reload
      modifies runtime`certs, runtime`transaction, runtime`abortFailed, runtime`refused, runtime`balked, reloadMgr
      ensures err <==> reloadMgr.reload
      ensures runtime.refused == (old(runtime.refused) || err) && (old(runtime.balked) ==> runtime.balked) && (runtime.balked ==> old(runtime.balked) || err)
      ensures !runtime.balked && old(runtime.transaction) == None ==> (err <==> created.Keys * old(runtime.certs).Keys != {})
      ensures !err ==> runtime.certs == old(runtime.certs) + created && runtime.transaction in {None, old(runtime.transaction)}
      ensures created == map[] ==> !err && runtime.transaction == old(runtime.transaction)
    {
      var todo := created.Keys;
      err := Ok;
      while todo != {}
        invariant todo <= created.Keys && runtime.transaction in {None, old(runtime.transaction)} && !reloadMgr.reload && !err
        invariant created == map[] ==> runtime.transaction == old(runtime.transaction)
        invariant runtime.refused == old(runtime.refused) && runtime.balked == old(runtime.balked)
        invariant !runtime.balked && old(runtime.transaction) == None ==> (created.Keys - todo) !! old(runtime.certs).Keys
        invariant runtime.certs == old(runtime.certs) + map k | k in created && k !in todo :: created[k]
      {
        var k :| k in todo;
        err := RuntimeCreateCert(k, created[k]);
        if err {
          assert k in runtime.certs.Keys ==> k in created.Keys;
          assert !runtime.balked && old(runtime.transaction) == None ==> k in created.Keys * old(runtime.certs).Keys;
          reloadMgr.SetReload();
          return;
        }
        todo := todo - {k};
      }
    }

    method UpdateCerts(updated: map<ObjectKey, bytes>) returns (err: Error)
      requires !reloadMgr.reload
      modifies runtime`certs, runtime`transaction, runtime`abortFailed, runtime`refused, runtime`balked, reloadMgr
      ensures err <==> reloadMgr.reload
      ensures runtime.refused == (old(runtime.refused) || err) && (old(runtime.balked) ==> runtime.balked) && (runtime.balked ==> old(runtime.balked) || err)
      ensures !runtime.balked && old(runtime.transaction) == None ==> (err <==> !(updated.Keys <= old(runtime.certs).Keys))
      ensures !err ==> runtime.certs == old(runtime.certs) + updated && runtime.transaction in {None, old(runtime.transaction)}
      ensures updated == map[] ==> !err && runtime.transaction == old(runtime.transaction)
    {
      var todo := updated.Keys;
      err := Ok;
      while todo != {}
        invariant todo <= updated.Keys && runtime.transaction in {None, old(runtime.transaction)} && !reloadMgr.reload && !err
        invariant updated == map[] ==> runtime.transaction == old(runtime.transaction)
        invariant runtime.refused == old(runtime.refused) && runtime.balked == old(runtime.balked)
        invariant !runtime.balked && old(runtime.transaction) == None ==> updated.Keys - todo <= old(runtime.certs).Keys
        invariant runtime.certs == old(runtime.certs) + map k | k in updated && k !in todo :: updated[k]
      {
        var k :| k in todo;
        err := RuntimeUpdateCert(k, updated[k]);
        if err {
          reloadMgr.SetReload();
          return;
        }
        todo := todo - {k};
      }
    }

    method UpdateCrtLists(updated: map<ObjectKey, set<ObjectKey>>) returns (err: Error)
      requires !reloadMgr.reload
      modifies runtime`lists, runtime`refused, runtime`balked, reloadMgr
      ensures err <==> reloadMgr.reload
      ensures runtime.refused == (old(runtime.refused) || err) && (old(runtime.balked) ==> runtime.balked) && (runtime.balked ==> old(runtime.balked) || err)
      ensures !runtime.balked ==> (err <==> !(updated.Keys <= old(runtime.lists).Keys))
      ensures !err ==> runtime.lists == old(runtime.lists) + updated
      ensures updated == map[] ==> !err
    {
      var todo := updated.Keys;
      err := Ok;
      while todo != {}
        invariant todo <= updated.Keys && !reloadMgr.reload && !err
        invariant runtime.lists == old(runtime.lists) + map l | l in updated && l !in todo :: updated[l]
        invariant runtime.refused == old(runtime.refused) && runtime.balked == old(runtime.balked)
        invariant !runtime.balked ==> updated.Keys - todo <= old(runtime.lists).Keys
      {
        var l :| l in todo;
        err := RuntimeUpdateCrtList(l, updated[l]);
        if err {
          reloadMgr.SetReload();
          return;
        }
        todo := todo - {l};
      }
    }

    method DeleteCerts(deleted: set<ObjectKey>) returns (err: Error)
      requires !reloadMgr.reload
      modifies runtime`certs, runtime`askedInUse, runtime`refused, runtime`balked, reloadMgr
      ensures err <==> reloadMgr.reload
      ensures runtime.refused == (old(runtime.refused) || err) && (old(runtime.balked) ==> runtime.balked) && (runtime.balked ==> old(runtime.balked) || err)
      ensures !runtime.balked ==> (err <==> !(deleted <= old(runtime.certs).Keys && forall k :: k in deleted ==> !runtime.Listed(k)))
      ensures !err ==> runtime.certs == old(runtime.certs) - deleted && forall k :: k in deleted ==> !runtime.Listed(k)
      ensures deleted == {} ==> !err
      ensures (forall k :: k in deleted ==> !runtime.Listed(k)) ==> runtime.askedInUse == old(runtime.askedInUse)
    {
      var todo := deleted;
      err := Ok;
      while todo != {}
        invariant todo <= deleted && !reloadMgr.reload && !err
        invariant runtime.certs == old(runtime.certs) - (deleted - todo)
        invariant runtime.refused == old(runtime.refused) && runtime.balked == old(runtime.balked)
        invariant deleted - todo <= old(runtime.certs).Keys && forall k :: k in deleted - todo ==> !runtime.Listed(k)
        invariant (forall k :: k in deleted ==> !runtime.Listed(k)) ==> runtime.askedInUse == old(runtime.askedInUse)
      {
        var k :| k in todo;
        err := runtime.DeleteCertEntry(k);
        if err {
          reloadMgr.SetReload();
          return;
        }
        todo := todo - {k};
      }
    }

    method RuntimeCreateCert(k: ObjectKey, data: bytes) returns (err: Error)
      modifies runtime`certs, runtime`transaction, runtime`abortFailed, runtime`refused, runtime`balked
      ensures runtime.refused == (old(runtime.refused) || err) && (old(runtime.balked) ==> runtime.balked) && (runtime.balked ==> old(runtime.balked) || err)
      ensures !runtime.balked && old(runtime.transaction) == None ==> (err <==> k in old(runtime.certs))
      ensures err && old(runtime.transaction) == None && !runtime.abortFailed ==> runtime.transaction == None
      ensures !err ==> runtime.certs == old(runtime.certs)[k := data] && runtime.transaction == None
    {
      err := runtime.NewCertEntry(k);
      if err { return; }
      err := RuntimeUpdateCert(k, data);
    }

    /** A failed commit aborts the transaction; should that fail too, the reload that
        follows drops it. */
    method RuntimeUpdateCert(k: ObjectKey, data: bytes) returns (err: Error)
      modifies runtime`certs, runtime`transaction, runtime`abortFailed, runtime`refused, runtime`balked
      ensures runtime.refused == (old(runtime.refused) || err) && (old(runtime.balked) ==> runtime.balked) && (runtime.balked ==> old(runtime.balked) || err)
      ensures !runtime.balked && old(runtime.transaction) == None ==> (err <==> k !in old(runtime.certs))
      ensures err ==> runtime.certs == old(runtime.certs)
      ensures err && old(runtime.transaction) == None && !runtime.abortFailed ==> runtime.transaction == None
      ensures !err ==> runtime.certs == old(runtime.certs)[k := data] && runtime.transaction == None
    {
      err := runtime.SetCertEntry(k, data);
      if err { return; }
      err := runtime.CommitCertEntry(k);
      if err {
        var errAbort := runtime.AbortCertEntry(k);
        return;
      }
    }

    method RuntimeUpdateCrtList(l: ObjectKey, content: set<ObjectKey>) returns (err: Error)
      modifies runtime`lists, runtime`refused, runtime`balked
      ensures runtime.refused == (old(runtime.refused) || err) && (old(runtime.balked) ==> runtime.balked) && (runtime.balked ==> old(runtime.balked) || err)
      ensures !runtime.balked ==> (err <==> l !in old(runtime.lists))
      ensures !err ==> runtime.lists == old(runtime.lists)[l := content]
    {
      var currentCerts;
      currentCerts, err := runtime.ShowCrtListEntries(l);
      if err { return; }
      var added := SetDifference(content, currentCerts);
      var removed := SetDifference(currentCerts, content);
      var todo := added;
      while todo != {}
        invariant todo <= added && !err && runtime.refused == old(runtime.refused) && runtime.balked == old(runtime.balked)
        invariant l in runtime.lists && runtime.lists == old(runtime.lists)[l := runtime.lists[l]]
        invariant runtime.lists[l] == currentCerts + (added - todo)
      {
        var k :| k in todo;
        err := runtime.AddCrtListEntry(l, k);
        if err { return; }
        todo := todo - {k};
      }
      todo := removed;
      while todo != {}
        invariant todo <= removed && !err && runtime.refused == old(runtime.refused) && runtime.balked == old(runtime.balked)
        invariant l in runtime.lists && runtime.lists == old(runtime.lists)[l := runtime.lists[l]]
        invariant runtime.lists[l] == (currentCerts + added) - (removed - todo)
      {
        var k :| k in todo;
        err := runtime.DeleteCrtListEntry(l, k);
        if err { return; }
        todo := todo - {k};
      }
      assert removed - todo == removed && (currentCerts + added) - removed == content;
      assert runtime.lists[l] == content;
    }

    /** One cycle followed by the reload that it, or else the configuration it comes with,
        asks for, and that is taken only when that configuration is applied. A reload that is
        taken makes the runtime mirror the disk; without a request a runtime that mirrored the
        disk mirrors it again. A cycle that creates or deletes a crt-list always requests one:
        if the configuration is refused, the runtime stays as it was, and mirrors the disk only
        if nothing on it changed. */
    method ProcessThenReload(ghost before: State, ghost batch: Batch, cycle: UpdaterCycle) returns (requested: bool)
      requires runtimeUpdate && Tracks(before) && GivenIn(before, batch, cycle)
      modifies runtime, reloadMgr, this`history
      ensures reloadMgr.reload <==> requested || cycle.other
      ensures reloadMgr.reload && cycle.applied ==> Mirrored(Cycle(before, batch))
      ensures !requested && old(Mirrored(before)) ==> Mirrored(Cycle(before, batch))
      ensures Relists(cycle.d) && !cycle.applied ==> Untouched()
      ensures Nothing(cycle.c, cycle.d) ==> !requested && (!(cycle.applied && cycle.other) ==> Untouched())
      ensures old(Mirrored(before)) ==> runtime.askedInUse == old(runtime.askedInUse)
      ensures requested <==> Relists(cycle.d) || runtime.refused
      ensures old(Mirrored(before)) ==>
                (requested <==> Relists(cycle.d) || runtime.balked || !Acceptable(before.certs, before.lists, cycle.c, cycle.d))
      ensures |history| == |old(history)| + 1 && MirrorStep(old(Mirrored(before)), history[|old(history)|])
      ensures history == old(history) + [OutcomeOf(before, cycle, runtime.refused, runtime.balked, requested, Mirrored(Cycle(before, batch)))]
    {
      hide Cycle, CertDiffsIn, ListDiffsIn, Nothing, Relists, Acceptable, GivenIn, Tracks;
      requested := ProcessGiven(before, batch, cycle);
      history := history + [OutcomeOf(before, cycle, runtime.refused, runtime.balked, requested, Mirrored(Cycle(before, batch)))];
    }

    method ProcessGiven(ghost before: State, ghost batch: Batch, cycle: UpdaterCycle) returns (requested: bool)
      requires runtimeUpdate && Tracks(before) && GivenIn(before, batch, cycle)
      modifies runtime, reloadMgr
      ensures reloadMgr.reload <==> requested || cycle.other
      ensures reloadMgr.reload && cycle.applied ==> Mirrored(Cycle(before, batch))
      ensures !requested && old(Mirrored(before)) ==> Mirrored(Cycle(before, batch))
      ensures Relists(cycle.d) && !cycle.applied ==> Untouched()
      ensures old(Mirrored(before)) && Untouched() ==>
                (Mirrored(Cycle(before, batch)) <==> cycle.diskCerts == before.certs && cycle.diskLists == before.lists)
      ensures Nothing(cycle.c, cycle.d) ==> !requested && (!(cycle.applied && cycle.other) ==> Untouched())
      ensures old(Mirrored(before)) ==> runtime.askedInUse == old(runtime.askedInUse)
      ensures requested <==> Relists(cycle.d) || runtime.refused
      ensures old(Mirrored(before)) ==>
                (requested <==> Relists(cycle.d) || runtime.balked || !Acceptable(before.certs, before.lists, cycle.c, cycle.d))
    {
      CycleDeletesUnlisted(before, batch);
      CycleWrites(before, batch);
      hide Cycle, CertDiffsIn, ListDiffsIn, WriteCerts, WriteLists, DeletedUnlisted, Nothing, Relists, Acceptable;
      requested := ProcessAndReload(cycle);
    }

    method ProcessAndReload(cycle: UpdaterCycle) returns (requested: bool)
      requires runtimeUpdate
      modifies runtime, reloadMgr
      ensures reloadMgr.reload <==> requested || cycle.other
      ensures reloadMgr.reload && cycle.applied ==> runtime.certs == cycle.diskCerts && runtime.lists == cycle.diskLists && runtime.transaction == None
      ensures !requested && !(cycle.other && cycle.applied) ==>
        runtime.certs == WriteCerts(old(runtime.certs), cycle.c) && runtime.lists == WriteLists(old(runtime.lists), cycle.d)
        && (old(runtime.transaction) == None ==> runtime.transaction == None)
      ensures requested <==> Relists(cycle.d) || runtime.refused
      ensures old(runtime.transaction) == None ==>
                (requested <==> Relists(cycle.d) || runtime.balked || !Acceptable(old(runtime.certs), old(runtime.lists), cycle.c, cycle.d))
      ensures Relists(cycle.d) && !cycle.applied ==> Untouched()
      ensures Nothing(cycle.c, cycle.d) ==> !requested && (!(cycle.applied && cycle.other) ==> Untouched())
      ensures DeletedUnlisted(cycle.c, WriteLists(old(runtime.lists), cycle.d)) ==> runtime.askedInUse == old(runtime.askedInUse)
    {
      hide WriteCerts, WriteLists, DeletedUnlisted, Nothing, Acceptable;
      reloadMgr.Reset();
      runtime.BeginCycle();
      var err := ProcessCertificates(cycle.c, cycle.d);
      requested := reloadMgr.reload;
      if cycle.other {
        reloadMgr.SetReload();
      }
      if reloadMgr.reload && cycle.applied {
        runtime.Reload(cycle.diskCerts, cycle.diskLists);
      }
    }

    ghost predicate Mirrored(s: State)
      reads runtime
    {
      runtime.certs == s.certs && runtime.lists == s.lists && runtime.transaction == None
    }
  }

  // ---- runs

  ghost predicate CyclesOf(batches: seq<Batch>, cycles: seq<UpdaterCycle>) {
    |cycles| == |batches| && forall i :: 0 <= i < |cycles| ==> GivenIn(Cycles(INITIAL, batches[..i]), batches[i], cycles[i])
  }

  /** Whole runs, cycles with refused configurations included. As long as the runtime mirrors
      the disk, it is not asked to delete a certificate in use. */
  method Run(u: CertificateUpdater, ghost batches: seq<Batch>, cycles: seq<UpdaterCycle>)
    requires u.runtimeUpdate && u.Mirrored(INITIAL) && u.history == [] && CyclesOf(batches, cycles)
    modifies u, u.runtime, u.reloadMgr
    ensures |u.history| == |cycles| && Chained(u.history)
    ensures forall i :: 0 <= i < |cycles| ==>
              IsOutcome(u.history[i], Cycles(INITIAL, batches[..i]), cycles[i])
    ensures cycles != [] ==> var last := |cycles| - 1;
              && (u.reloadMgr.reload <==> u.history[last].requested || cycles[last].other)
              && u.history[last].refused == u.runtime.refused && u.history[last].balked == u.runtime.balked
              && (u.history[last].mirrored <==> u.Mirrored(Cycles(INITIAL, batches)))
    ensures AllMirrored(u.history) ==> RequestsExact(u.history)
    ensures AllTaken(u.history) ==> AllMirrored(u.history)
    ensures MissedByLists(u.history) ==> (AllMirrored(u.history) <==> RefusedUnchanged(u.history))
    ensures AllMirrored(u.history) ==> u.Mirrored(Cycles(INITIAL, batches)) && u.runtime.askedInUse == old(u.runtime.askedInUse)
  {
    hide Cycle, Cycles, Tracks, CertDiffsIn, ListDiffsIn, Chained, AllTaken, MissedByLists, RefusedUnchanged, RequestsExact, Nothing, MirrorStep, Acceptable, IsOutcome, OutcomeOf, Relists;
    InitialExact(batches);
    NoneChained();
    for i := 0 to |cycles|
      invariant |u.history| == i && Chained(u.history)
      invariant forall j :: 0 <= j < i ==>
                  IsOutcome(u.history[j], Cycles(INITIAL, batches[..j]), cycles[j])
      invariant i > 0 ==> (u.reloadMgr.reload <==> u.history[i - 1].requested || cycles[i - 1].other)
                          && u.history[i - 1].refused == u.runtime.refused && u.history[i - 1].balked == u.runtime.balked
      invariant (i == 0 || u.history[i - 1].mirrored) <==> u.Mirrored(Cycles(INITIAL, batches[..i]))
      invariant AllMirrored(u.history) ==> u.runtime.askedInUse == old(u.runtime.askedInUse)
    {
      ghost var before, h := Cycles(INITIAL, batches[..i]), u.history;
      assert GivenIn(before, batches[i], cycles[i]);
      RunListsExact(batches[..i]);
      CyclesSnoc(INITIAL, batches, i);
      var requested := u.ProcessThenReload(before, batches[i], cycles[i]);
      OutcomeIs(before, cycles[i], u.runtime.refused, u.runtime.balked, requested, u.Mirrored(Cycles(INITIAL, batches[..i + 1])));
      ChainedSnoc(h, u.history[i]);
      assert u.history == h + [u.history[i]];
    }
    assert batches[..|batches|] == batches;
    MirroredThroughout(u.history);
  }

  /** A reload that is requested and not taken is forgotten: when a cycle that creates a
      crt-list is refused and the next batch has no secret or gateway event, no reload is
      requested for the list, and the runtime mirrors the disk again only if the next
      configuration happens to be applied with a reload of its own. */
  method LostReload(u: CertificateUpdater, ghost s: State, ghost batch: Batch, refused: UpdaterCycle, next: UpdaterCycle)
    requires u.runtimeUpdate && Tracks(s) && u.Mirrored(s)
    requires GivenIn(s, batch, refused) && GivenIn(Cycle(s, batch), [], next)
    requires refused.d.created != map[] && !refused.applied
    modifies u, u.runtime, u.reloadMgr
    ensures u.reloadMgr.reload <==> next.other
    ensures u.Mirrored(Cycle(Cycle(s, batch), [])) <==> next.applied && next.other
  {
    hide Cycle, Tracks, CertDiffsIn, ListDiffsIn, Nothing, MirrorStep;
    CycleTracks(s, batch);
    CreatedChanges(s, batch);
    IdleCycle(Cycle(s, batch));
    var requested := u.ProcessThenReload(s, batch, refused);
    requested := u.ProcessThenReload(Cycle(s, batch), [], next);
  }

  lemma CreatedChanges(s: State, batch: Batch)
    requires Tracks(s) && ListDiffsIn(s, batch).created != map[]
    ensures Cycle(s, batch).lists != s.lists
  {
    var d := ListDiffsIn(s, batch);
    var l :| l in d.created;
    assert ListExactAt(s.lists, s.secrets, s.refs, l);
    assert l in Cycle(s, batch).lists && l !in s.lists;
  }

  /** The first batch with a gateway that references a secret is such a cycle. */
  lemma FirstCreatesList(k: ObjectKey, gk: ObjectKey, gw: Gateway, i: nat, secret: Secret)
    requires gk == gw.key && i < |gw.listeners| && ListenerRefers(gw, gw.listeners[i], k)
    ensures ListDiffsIn(INITIAL, [GatewayEvent(Upsert(gk, gw)), SecretEvent(Upsert(k, secret))]).created != map[]
  {
    var first: Batch := [GatewayEvent(Upsert(gk, gw)), SecretEvent(Upsert(k, secret))];
    FirstCycle(k, gk, gw, i, secret);
    InitialExact([first]);
    CyclesSnoc(INITIAL, [first], 0);
    assert [first][..1] == [first] && [first][0] == first;
    FirstListed(INITIAL, first, k);
  }

  lemma FirstListed(s: State, first: Batch, k: ObjectKey)
    requires s.refs == {} && k in Secrets(Cycle(s, first).refs)
    ensures ListDiffsIn(s, first).created != map[]
  {
    hide RefsAfter, TreeAfter, Flagged;
    var p :| p in RefsAfter(s, first) && p.0 == k;
    assert p.1 in Listeners(RefsAfter(s, first)) - Listeners(s.refs);
    assert p.1 in ListDiffsIn(s, first).created;
  }

  lemma IdleCycle(s: State)
    requires Tracks(s)
    ensures Nothing(CertDiffsIn(s, []), ListDiffsIn(s, [])) && Cycle(s, []).certs == s.certs && Cycle(s, []).lists == s.lists
  {
    CycleTracks(s, []);
    IdleDiffs(s.refs, TreeAfter(s, []));
  }

  lemma IdleDiffs(refs: set<Ref>, tree: Tree)
    requires forall k :: k in tree ==> tree[k].status == Unchanged
    ensures Nothing(CertDiffsOf(Secrets(refs), Secrets(refs), tree, map[]), ListDiffsOf(refs, refs, tree))
  {}

  lemma OnlyUpdated(lists: map<ObjectKey, set<ObjectKey>>, d: ListDiffs)
    requires d.created == map[] && d.deleted == {}
    ensures WriteLists(lists, d) == lists + d.updated
  {}

  lemma UnlistedAll(c: CertDiffs, lists: map<ObjectKey, set<ObjectKey>>)
    ensures DeletedUnlisted(c, lists) <==> forall k :: k in c.deleted ==> !exists l :: l in lists && k in lists[l]
  {}

  lemma CycleWrites(s: State, batch: Batch)
    ensures Cycle(s, batch).certs == WriteCerts(s.certs, CertDiffsIn(s, batch))
    ensures Cycle(s, batch).lists == WriteLists(s.lists, ListDiffsIn(s, batch))
  {}

  // ---- commands that cannot be carried out

  /** A secret referenced before and after gets the key pair it did not have. */
  ghost predicate GainsAPair(s: State, batch: Batch) {
    exists k :: k in CertDiffsIn(s, batch).updated && k in s.secrets && !HasPair(s.secrets[k], "tls")
  }

  /** A secret that has no file, being absent or without a key pair, is deleted or no longer
      referenced. */
  ghost predicate DropsNoFile(s: State, batch: Batch) {
    exists k :: k in CertDiffsIn(s, batch).deleted && !(k in s.secrets && HasPair(s.secrets[k], "tls"))
  }

  /** A listener without a crt-list, its secrets having been absent, has one to update. */
  ghost predicate RevivesList(s: State, batch: Batch) {
    exists l :: l in ListDiffsIn(s, batch).updated && l !in s.lists
  }

  /** From exact files, the commands of a cycle can all be carried out unless one of these
      three happens; then HAProxy is bound to refuse one, and a reload is requested. */
  lemma AcceptableExactly(s: State, batch: Batch)
    requires Tracks(s) && CertFilesExact(s)
    ensures Acceptable(s.certs, s.lists, CertDiffsIn(s, batch), ListDiffsIn(s, batch))
       <==> !GainsAPair(s, batch) && !DropsNoFile(s, batch) && !RevivesList(s, batch)
  {
    hide Tracks, CertDiffsIn, ListDiffsIn, WriteLists, DeletedUnlisted, Acceptable, CertFilesExact, Coalesced, HasPair;
    RunCoalesces(s.secrets, SecretEvents(batch));
    CycleDeletesUnlisted(s, batch);
    var c, d := CertDiffsIn(s, batch), ListDiffsIn(s, batch);
    forall k
      ensures k in c.created ==> k !in s.certs && k !in c.deleted
      ensures k in c.updated ==> k in s.secrets && (k in s.certs <==> HasPair(s.secrets[k], "tls")) && k !in c.created
      ensures k in c.deleted ==> (k in s.certs <==> k in s.secrets && HasPair(s.secrets[k], "tls"))
    {
      FilesBefore(s, batch, k);
    }
    AcceptableMeans(s.certs, s.lists, c, d);
  }

  lemma AcceptableMeans(certs: map<ObjectKey, bytes>, lists: map<ObjectKey, set<ObjectKey>>, c: CertDiffs, d: ListDiffs)
    requires forall k :: k in c.created ==> k !in certs && k !in c.deleted && k !in c.updated
    requires DeletedUnlisted(c, WriteLists(lists, d))
    ensures Acceptable(certs, lists, c, d) <==>
              (forall k :: k in c.updated ==> k in certs) && (forall k :: k in c.deleted ==> k in certs) && (forall l :: l in d.updated ==> l in lists)
  {
    hide WriteLists, DeletedUnlisted;
    assert c.created.Keys * certs.Keys == {};
    if Acceptable(certs, lists, c, d) {
      forall k | k in c.updated ensures k in certs { assert k in c.updated.Keys; }
      forall k | k in c.deleted ensures k in certs { assert k in certs.Keys + c.created.Keys; }
      forall l | l in d.updated ensures l in lists { assert l in d.updated.Keys; }
    }
  }

  lemma FilesBefore(s: State, batch: Batch, k: ObjectKey)
    requires CertFilesExact(s) && Coalesced(s.secrets, StoredSecrets(s, batch))
    ensures var c := CertDiffsIn(s, batch);
            && (k in c.created ==> k !in s.certs && k !in c.deleted)
            && (k in c.updated ==> k in s.secrets && (k in s.certs <==> HasPair(s.secrets[k], "tls")) && k !in c.created)
            && (k in c.deleted ==> (k in s.certs <==> k in s.secrets && HasPair(s.secrets[k], "tls")))
  {
    hide StoredSecrets, TreeAfter, RefsAfter, HasPair, CertContent;
    var st := StoredSecrets(s, batch);
    if k in st.updates {
      assert st.updates[k].oldObject == Lookup(s.secrets, k);
    }
  }

  /** Every cycle deletes only certificates that no crt-list names afterwards. */
  lemma CycleDeletesUnlisted(s: State, batch: Batch)
    requires Tracks(s)
    ensures DeletedUnlisted(CertDiffsIn(s, batch), WriteLists(s.lists, ListDiffsIn(s, batch)))
  {
    CycleTracks(s, batch);
    RunCoalesces(s.secrets, SecretEvents(batch));
    var s' := Cycle(s, batch);
    forall k, l | k in CertDiffsIn(s, batch).deleted && l in s'.lists ensures k !in s'.lists[l] {
      DeletedUnwanted(s.secrets, StoredSecrets(s, batch), s.refs, RefsAfter(s, batch), TreeAfter(s, batch), k, l);
      assert ListExactAt(s'.lists, s'.secrets, s'.refs, l);
    }
  }

  lemma DeletedUnwanted(before: map<ObjectKey, Secret>, st: StoreState<Secret>, refs: set<Ref>, refs': set<Ref>, tree: Tree, k: ObjectKey, l: ObjectKey)
    requires Coalesced(before, st)
    requires k in CertDiffsOf(Secrets(refs), Secrets(refs'), tree, st.updates).deleted
    ensures k !in Desired(st.objects, refs', l)
  {
    if k in SecretsOf(refs', l) {
      assert k in Secrets(refs');
      assert k in st.updates && st.updates[k].status == Deleted;
    }
  }
}
