/** One cycle of the controller as far as certificates go: apply the batch to the
    stores, then run the builders in their order. */
module Controllers {
  import opened Keys
  import opened GatewayApi
  import opened ObjectStores
  import opened References
  import opened CertificateSpec
  import opened CertificateRun
  import opened CertificateStorages
  import opened CertificateBuilders

  /** Names as Kubernetes allows them, and no certificate bundles. */
  ghost predicate LegalGateway(gw: Gateway) {
    '_' !in gw.key.ns && forall s :: (exists i :: 0 <= i < |gw.listeners| && ListenerRefers(gw, gw.listeners[i], s)) ==> LegalSecretKey(s)
  }

  ghost predicate LegalEvent(e: ResourceEvent) {
    match e
    case SecretEvent(Upsert(k, s)) => LegalSecret(s, k)
    case GatewayEvent(Upsert(k, gw)) => gw.key == k && LegalGateway(gw)
    case _ => true
  }

  ghost predicate LegalBatch(batch: Batch) {
    forall e :: e in batch ==> LegalEvent(e)
  }

  ghost predicate LegalObjects(s: State) {
    && (forall k :: k in s.secrets ==> LegalSecret(s.secrets[k], k))
    && (forall k :: k in s.gateways ==> LegalGateway(s.gateways[k]))
  }

  lemma RefsLegal(gateways: map<ObjectKey, Gateway>)
    requires forall k :: k in gateways ==> LegalGateway(gateways[k])
    ensures LegalRefs(RefsOf(gateways))
  {
    forall p | p in RefsOf(gateways) ensures LegalSecretKey(p.0) && LegalListenerKey(p.1) {
      RefsOfMeaning(gateways, p.0, p.1);
      assert (p.0, p.1) in RefsOf(gateways);
    }
  }

  lemma {:induction false} SecretsStayLegal(s: StoreState<Secret>, events: seq<Event<Secret>>)
    requires forall k :: k in s.objects ==> LegalSecret(s.objects[k], k)
    requires forall e :: e in events && e.Upsert? ==> LegalSecret(e.obj, e.key)
    ensures forall k :: k in Run(s, events).objects ==> LegalSecret(Run(s, events).objects[k], k)
    decreases |events|
  {
    hide LegalSecret;
    if events != [] {
      SecretsStayLegal(s, events[..|events|-1]);
      assert events[|events|-1] in events;
    }
  }

  lemma {:induction false} GatewaysStayLegal(s: StoreState<Gateway>, events: seq<Event<Gateway>>)
    requires forall k :: k in s.objects ==> LegalGateway(s.objects[k])
    requires forall e :: e in events && e.Upsert? ==> LegalGateway(e.obj)
    ensures forall k :: k in Run(s, events).objects ==> LegalGateway(Run(s, events).objects[k])
    decreases |events|
  {
    hide LegalGateway;
    if events != [] {
      GatewaysStayLegal(s, events[..|events|-1]);
      assert events[|events|-1] in events;
    }
  }

  lemma {:induction false} GatewayEventsIn(batch: Batch)
    ensures forall e :: e in GatewayEvents(batch) ==> GatewayEvent(e) in batch
  {
    if batch != [] {
      GatewayEventsIn(batch[..|batch|-1]);
      assert batch == batch[..|batch|-1] + [batch[|batch|-1]];
    }
  }

  lemma CycleStaysLegal(s: State, batch: Batch)
    requires LegalObjects(s) && LegalBatch(batch)
    ensures LegalObjects(Cycle(s, batch))
  {
    hide LegalSecret, LegalGateway;
    SecretEventsIn(batch);
    GatewayEventsIn(batch);
    forall e | e in SecretEvents(batch) && e.Upsert? ensures LegalSecret(e.obj, e.key) {
      assert LegalEvent(SecretEvent(e));
    }
    forall e | e in GatewayEvents(batch) && e.Upsert? ensures LegalGateway(e.obj) {
      assert LegalEvent(GatewayEvent(e));
    }
    SecretsStayLegal(StoreState(s.secrets, map[]), SecretEvents(batch));
    GatewaysStayLegal(StoreState(s.gateways, map[]), GatewayEvents(batch));
  }

  /** Everything the builders need to know about the state in the middle of a cycle. */
  lemma CycleLegality(s: State, batch: Batch)
    requires LegalObjects(s) && LegalBatch(batch) && Tracks(s)
    ensures LegalObjects(Cycle(s, batch)) && Tracks(Cycle(s, batch))
    ensures LegalRefs(s.refs) && LegalRefs(RefsAfter(s, batch))
    ensures LegalUpdates(StoredSecrets(s, batch).updates) && LegalTree(TreeAfter(s, batch))
    ensures LegalDiffs(CertDiffsIn(s, batch), ListDiffsIn(s, batch))
  {
    CycleStaysLegal(s, batch);
    CycleTracks(s, batch);
    RefsLegal(s.gateways);
    RefsLegal(Cycle(s, batch).gateways);
    UpdatesLegal(s, batch);
    assert forall k :: Live(TreeAfter(s, batch), k) ==> k in Cycle(s, batch).secrets;
    DiffsLegal(s.refs, RefsAfter(s, batch), TreeAfter(s, batch), StoredSecrets(s, batch).updates);
  }

  lemma UpdatesLegal(s: State, batch: Batch)
    requires LegalObjects(Cycle(s, batch))
    ensures LegalUpdates(StoredSecrets(s, batch).updates)
  {
    hide LegalSecret, LegalGateway;
    RunCoalesces(s.secrets, SecretEvents(batch));
    var st := StoredSecrets(s, batch);
    forall k | k in st.updates
      ensures st.updates[k].status != Unchanged
      ensures st.updates[k].status == Upserted <==> st.updates[k].newObject.Some?
      ensures st.updates[k].newObject.Some? ==> LegalSecret(st.updates[k].newObject.value, k)
    {
      assert st.updates[k].newObject == Lookup(st.objects, k);
      assert st.objects == Cycle(s, batch).secrets;
    }
  }

  ghost predicate LegalDiffs(c: CertDiffs, d: ListDiffs) {
    && LegalSecretKeys(c.created.Keys + c.updated.Keys + c.deleted)
    && LegalListeners(d.created) && LegalListeners(d.updated)
    && forall l :: l in d.deleted ==> LegalListenerKey(l)
  }

  lemma DiffsLegal(refs: set<Ref>, refs': set<Ref>, tree: Tree, updates: SecretUpdates)
    requires LegalRefs(refs) && LegalRefs(refs')
    ensures LegalDiffs(CertDiffsOf(Secrets(refs), Secrets(refs'), tree, updates), ListDiffsOf(refs, refs', tree))
  {
    hide LegalSecretKey, LegalListenerKey, Flagged, TlsContent;
  }

  lemma InitialIsLegal()
    ensures LegalObjects(INITIAL) && Tracks(INITIAL)
  {
    RunListsExact([]);
  }

  class Controller {
    const secretStore: ObjectStore<Secret>
    const gatewayStore: ObjectStore<Gateway>
    const references: ReferenceManager
    const secretBuilder: SecretBuilder
    const certificateBuilder: CertificateBuilder
    const storage: CertificateStorage

    ghost function Footprint(): set<object>
      reads references
    {
      {secretStore, gatewayStore, references.referencedSecrets, references.previousReferencedSecrets, secretBuilder, certificateBuilder, storage}
    }

    ghost function Abs(): State
      reads references, Footprint()
    {
      State(secretStore.objects, gatewayStore.objects, references.referencedSecrets.Pairs(GATEWAY_GVK), secretBuilder.secrets,
            storage.certs, storage.lists)
    }

    ghost predicate Valid()
      reads references, Footprint()
    {
      && certificateBuilder.storage == storage
      && (secretStore as object) != gatewayStore
      && references.Valid() && storage.Valid()
      && LegalObjects(Abs()) && Tracks(Abs())
    }

    constructor (certsBaseDir: string, certFilesBaseDir: string)
      ensures Valid() && fresh(Footprint()) && fresh(references)
      ensures Abs() == INITIAL
    {
      hide Tracks, LegalObjects, RefsOf, CertFilesAre, ListFilesAre, NoEmptyEntry, PairsIn;
      InitialIsLegal();
      secretStore := new ObjectStore<Secret>();
      gatewayStore := new ObjectStore<Gateway>();
      references := new ReferenceManager();
      secretBuilder := new SecretBuilder();
      var disk := new CertificateStorage(certsBaseDir, certFilesBaseDir);
      storage := disk;
      certificateBuilder := new CertificateBuilder(disk);
      new;
      assert Abs() == INITIAL;
    }

    method HandleEventBatch(batch: Batch)
      requires Valid() && LegalBatch(batch)
      modifies Footprint()
      ensures Valid() && Abs() == Cycle(old(Abs()), batch)
    {
      hide LegalObjects, LegalRefs, LegalUpdates, LegalTree, LegalDiffs, LegalBatch, Tracks, Run, CertFilesAre, ListFilesAre;
      hide NoEmptyEntry, PairsIn, TreeAfter, RefsAfter, CertDiffsIn, ListDiffsIn, WriteCerts, WriteLists;
      ghost var before := Abs();
      CycleLegality(before, batch);
      ProcessBatch(batch);
      BuildGateTree(before, batch);
    }

    method ProcessBatch(batch: Batch)
      requires (secretStore as object) != gatewayStore
      modifies secretStore, gatewayStore
      ensures secretStore.State() == Run(StoreState(old(secretStore.objects), map[]), SecretEvents(batch))
      ensures gatewayStore.State() == Run(StoreState(old(gatewayStore.objects), map[]), GatewayEvents(batch))
    {
      secretStore.ResetUpdates();
      gatewayStore.ResetUpdates();
      for i := 0 to |batch|
        invariant secretStore.State() == Run(StoreState(old(secretStore.objects), map[]), SecretEvents(batch[..i]))
        invariant gatewayStore.State() == Run(StoreState(old(gatewayStore.objects), map[]), GatewayEvents(batch[..i]))
      {
        assert batch[..i+1][..i] == batch[..i];
        ghost var es, gs := SecretEvents(batch[..i]), GatewayEvents(batch[..i]);
        match batch[i] {
          case SecretEvent(e) =>
            RunSnoc(StoreState(old(secretStore.objects), map[]), es, e);
            assert SecretEvents(batch[..i+1]) == es + [e] && GatewayEvents(batch[..i+1]) == gs;
            match e {
              case Upsert(k, obj) => secretStore.Upsert(k, obj);
              case Delete(k) => secretStore.Delete(k);
            }
          case GatewayEvent(e) =>
            RunSnoc(StoreState(old(gatewayStore.objects), map[]), gs, e);
            assert GatewayEvents(batch[..i+1]) == gs + [e] && SecretEvents(batch[..i+1]) == es;
            match e {
              case Upsert(k, obj) => gatewayStore.Upsert(k, obj);
              case Delete(k) => gatewayStore.Delete(k);
            }
        }
      }
      assert batch[..|batch|] == batch;
    }

    method BuildGateTree(ghost before: State, ghost batch: Batch)
      requires certificateBuilder.storage == storage && references.Valid() && storage.Valid()
      requires secretStore.State() == StoredSecrets(before, batch) && gatewayStore.State() == StoredGateways(before, batch)
      requires references.referencedSecrets.Pairs(GATEWAY_GVK) == before.refs && secretBuilder.secrets == before.tree
      requires storage.certs == before.certs && storage.lists == before.lists
      requires LegalRefs(before.refs) && LegalRefs(RefsAfter(before, batch))
      requires LegalUpdates(StoredSecrets(before, batch).updates) && LegalTree(TreeAfter(before, batch))
      requires LegalDiffs(CertDiffsIn(before, batch), ListDiffsIn(before, batch))
      modifies references.referencedSecrets, references.previousReferencedSecrets, secretBuilder, certificateBuilder, storage
      ensures references.Valid() && storage.Valid()
      ensures references.referencedSecrets.Pairs(GATEWAY_GVK) == RefsAfter(before, batch)
      ensures secretBuilder.secrets == TreeAfter(before, batch)
      ensures storage.certs == WriteCerts(before.certs, CertDiffsIn(before, batch))
      ensures storage.lists == WriteLists(before.lists, ListDiffsIn(before, batch))
    {
      hide LegalRefs, LegalUpdates, LegalTree, LegalDiffs, StoredSecrets, StoredGateways, UpdateTree, CleanTree, CertDiffsOf, ListDiffsOf;
      hide CertFilesAre, ListFilesAre, WriteCerts, WriteLists;
      secretBuilder.CleanTreeUpdates();
      certificateBuilder.ResetUpdates();
      references.UpdateReferences(gatewayStore.objects, gatewayStore.updates != map[]);
      secretBuilder.ComputeTreeUpdates(secretStore.updates);
      certificateBuilder.ComputeCertificateDiffs(references, secretBuilder.secrets, secretStore.updates);
      DiffsNeeded(CertDiffsIn(before, batch), ListDiffsIn(before, batch));
      certificateBuilder.EnsureCertificatesStorage(CertDiffsIn(before, batch), ListDiffsIn(before, batch));
    }

    static lemma DiffsNeeded(c: CertDiffs, d: ListDiffs)
      requires LegalDiffs(c, d)
      ensures LegalSecretKeys(c.created.Keys + c.updated.Keys + c.deleted)
      ensures LegalListeners(d.created) && LegalListeners(d.updated) && forall l :: l in d.deleted ==> LegalListenerKey(l)
    {}

    /** A whole run. What is on disk at its end is what the stored objects call for. */
    method HandleRun(batches: seq<Batch>)
      requires Valid() && Abs() == INITIAL && forall i :: 0 <= i < |batches| ==> LegalBatch(batches[i])
      modifies Footprint()
      ensures Valid() && Abs() == Cycles(INITIAL, batches)
      ensures ListsExact(storage.lists, secretStore.objects, RefsOf(gatewayStore.objects))
      ensures NeverLosesAPair(batches) ==> storage.certs == WantedCerts(secretStore.objects, RefsOf(gatewayStore.objects))
      ensures ListFilesOnDisk(storage.listFiles, storage.certsBaseDir, storage.certFilesBaseDir, secretStore.objects, RefsOf(gatewayStore.objects))
      ensures NeverLosesAPair(batches) ==>
                CertFilesOnDisk(storage.certFiles, storage.certsBaseDir, WantedCerts(secretStore.objects, RefsOf(gatewayStore.objects)))
      ensures forall k :: LegalSecretKey(k) && NeverLosesPairOf(batches, k) ==>
                KeyFileOnDisk(storage.certFiles, storage.certsBaseDir, secretStore.objects, RefsOf(gatewayStore.objects), k)
    {
      hide Tracks, LegalObjects, LegalBatch, ListsExact, WantedCerts, NeverLosesAPair, RefsOf, Cycle, CertFilesAre, ListFilesAre, NoEmptyEntry, PairsIn;
      for i := 0 to |batches|
        invariant Valid() && Abs() == Cycles(INITIAL, batches[..i])
      {
        assert batches[..i+1][..i] == batches[..i];
        HandleEventBatch(batches[i]);
      }
      assert batches[..|batches|] == batches;
      RunOutcome(batches);
      hide CertFilesOnDisk, ListFilesOnDisk;
      CertFilesRead(storage.certFiles, storage.certsBaseDir, storage.certs);
      ListFilesRead(storage.listFiles, storage.certsBaseDir, storage.certFilesBaseDir, storage.lists,
                    secretStore.objects, RefsOf(gatewayStore.objects));
      hide LegalSecretKey, NeverLosesPairOf, KeyFileOnDisk;
      forall k | LegalSecretKey(k) && NeverLosesPairOf(batches, k)
        ensures KeyFileOnDisk(storage.certFiles, storage.certsBaseDir, secretStore.objects, RefsOf(gatewayStore.objects), k)
      {
        RunOutcomeOf(batches, k);
        KeyFileRead(storage.certFiles, storage.certsBaseDir, storage.certs, secretStore.objects, RefsOf(gatewayStore.objects), k);
      }
    }

    static lemma RunOutcomeOf(batches: seq<Batch>, k: ObjectKey)
      requires NeverLosesPairOf(batches, k)
      ensures var s := Cycles(INITIAL, batches); Lookup(s.certs, k) == Lookup(WantedCerts(s.secrets, RefsOf(s.gateways)), k)
    {
      hide WantedCerts, RefsOf;
      RunListsExact(batches);
      RunCertExact(batches, k);
      assert batches[..|batches|] == batches;
      assert FileExact(Cycles(INITIAL, batches), k);
    }

    static lemma RunOutcome(batches: seq<Batch>)
      ensures var s := Cycles(INITIAL, batches);
              && ListsExact(s.lists, s.secrets, RefsOf(s.gateways))
              && (NeverLosesAPair(batches) ==> s.certs == WantedCerts(s.secrets, RefsOf(s.gateways)))
    {
      hide ListsExact, WantedCerts, RefsOf;
      RunListsExact(batches);
      RunCertsExact(batches);
      assert batches[..|batches|] == batches;
    }
  }
}
