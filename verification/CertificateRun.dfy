/** Whole runs of cycles: whatever batches arrive, the certificate files and
    crt-lists computed incrementally are those computed from scratch. */
module CertificateRun {
  import opened Wrappers
  import opened Keys
  import opened GatewayApi
  import opened ObjectStores
  import opened References
  import opened CertificateSpec

  datatype ResourceEvent = SecretEvent(secret: Event<Secret>) | GatewayEvent(gateway: Event<Gateway>)

  type Batch = seq<ResourceEvent>

  function SecretEvents(batch: Batch): seq<Event<Secret>> {
    if batch == [] then []
    else
      var last := batch[|batch|-1];
      SecretEvents(batch[..|batch|-1]) + (if last.SecretEvent? then [last.secret] else [])
  }

  function GatewayEvents(batch: Batch): seq<Event<Gateway>> {
    if batch == [] then []
    else
      var last := batch[|batch|-1];
      GatewayEvents(batch[..|batch|-1]) + (if last.GatewayEvent? then [last.gateway] else [])
  }

  /** Stored objects, reference index, secret tree, and the files on disk. */
  datatype State = State(secrets: map<ObjectKey, Secret>, gateways: map<ObjectKey, Gateway>, refs: set<Ref>, tree: Tree,
                         certs: map<ObjectKey, bytes>, lists: map<ObjectKey, set<ObjectKey>>)

  ghost const INITIAL := State(map[], map[], {}, map[], map[], map[])

  ghost function StoredSecrets(s: State, batch: Batch): StoreState<Secret> {
    Run(StoreState(s.secrets, map[]), SecretEvents(batch))
  }

  ghost function StoredGateways(s: State, batch: Batch): StoreState<Gateway> {
    Run(StoreState(s.gateways, map[]), GatewayEvents(batch))
  }

  ghost function RefsAfter(s: State, batch: Batch): set<Ref> {
    if StoredGateways(s, batch).updates == map[] then s.refs else RefsOf(StoredGateways(s, batch).objects)
  }

  ghost function TreeAfter(s: State, batch: Batch): Tree {
    UpdateTree(CleanTree(s.tree), StoredSecrets(s, batch).updates)
  }

  ghost function CertDiffsIn(s: State, batch: Batch): CertDiffs {
    CertDiffsOf(Secrets(s.refs), Secrets(RefsAfter(s, batch)), TreeAfter(s, batch), StoredSecrets(s, batch).updates)
  }

  ghost function ListDiffsIn(s: State, batch: Batch): ListDiffs {
    ListDiffsOf(s.refs, RefsAfter(s, batch), TreeAfter(s, batch))
  }

  ghost function Cycle(s: State, batch: Batch): State {
    State(StoredSecrets(s, batch).objects, StoredGateways(s, batch).objects, RefsAfter(s, batch), TreeAfter(s, batch),
          WriteCerts(s.certs, CertDiffsIn(s, batch)), WriteLists(s.lists, ListDiffsIn(s, batch)))
  }

  ghost function Cycles(s: State, batches: seq<Batch>): State
    decreases |batches|
  {
    if batches == [] then s else Cycle(Cycles(s, batches[..|batches|-1]), batches[|batches|-1])
  }

  lemma CyclesSnoc(s: State, batches: seq<Batch>, i: nat)
    requires i < |batches|
    ensures Cycles(s, batches[..i + 1]) == Cycle(Cycles(s, batches[..i]), batches[i])
  {
    hide Cycle;
    assert batches[..i + 1][..i] == batches[..i];
  }

  /** The index, the tree and the crt-lists agree with the stored objects. */
  ghost predicate Tracks(s: State) {
    s.refs == RefsOf(s.gateways) && Mirrors(s.tree, s.secrets) && ListsExact(s.lists, s.secrets, s.refs)
  }

  ghost predicate CertFilesExact(s: State) {
    s.certs == WantedCerts(s.secrets, s.refs)
  }

  /** Some secret referenced before and after the batch loses its key pair in it. */
  ghost predicate LosesAPair(s: State, batch: Batch) {
    exists k :: k in Secrets(s.refs) * Secrets(RefsAfter(s, batch)) && LosesPair(StoredSecrets(s, batch).updates, k)
  }

  lemma CycleTracks(s: State, batch: Batch)
    requires Tracks(s)
    ensures Tracks(Cycle(s, batch))
    ensures Records(TreeAfter(s, batch), s.secrets, StoredSecrets(s, batch).updates)
  {
    RunCoalesces(s.secrets, SecretEvents(batch));
    RunCoalesces(s.gateways, GatewayEvents(batch));
    var gs := StoredGateways(s, batch);
    if gs.updates == map[] {
      CoalescedReplay(s.gateways, gs);
      assert ApplyUpdates(s.gateways, map[]) == s.gateways;
    }
    TreeFollowsStore(s.tree, s.secrets, StoredSecrets(s, batch));
    ListsStayExact(s.secrets, StoredSecrets(s, batch), s.refs, RefsAfter(s, batch), TreeAfter(s, batch), s.lists);
  }

  lemma CycleCertsExact(s: State, batch: Batch)
    requires Tracks(s) && CertFilesExact(s)
    ensures CertFilesExact(Cycle(s, batch)) <==> !LosesAPair(s, batch)
  {
    CycleTracks(s, batch);
    RunCoalesces(s.secrets, SecretEvents(batch));
    CertsExact(s.secrets, StoredSecrets(s, batch), s.refs, RefsAfter(s, batch), TreeAfter(s, batch));
  }

  /** After every run the crt-list of each listener lists exactly the stored secrets the
      listener references, or is absent because there are none. */
  lemma {:induction false} RunListsExact(batches: seq<Batch>)
    ensures Tracks(Cycles(INITIAL, batches))
    decreases |batches|
  {
    if batches == [] {
      assert RefsOf(map[]) == {};
    } else {
      hide Cycle, Tracks;
      RunListsExact(batches[..|batches|-1]);
      CycleTracks(Cycles(INITIAL, batches[..|batches|-1]), batches[|batches|-1]);
    }
  }

  ghost predicate NeverLosesAPair(batches: seq<Batch>) {
    forall i :: 0 <= i < |batches| ==> !LosesAPair(Cycles(INITIAL, batches[..i]), batches[i])
  }

  /** The certificate files are exact after every cycle of a run, if and only if no
      cycle of it makes a still-referenced secret lose its key pair. */
  lemma RunCertsExact(batches: seq<Batch>)
    ensures (forall n :: 0 <= n <= |batches| ==> CertFilesExact(Cycles(INITIAL, batches[..n])))
       <==> NeverLosesAPair(batches)
  {
    hide Cycles, Cycle, CertFilesExact, LosesAPair, Tracks;
    if NeverLosesAPair(batches) {
      forall n | 0 <= n <= |batches| ensures CertFilesExact(Cycles(INITIAL, batches[..n])) {
        CertsExactUpTo(batches, n);
      }
    }
    if forall n :: 0 <= n <= |batches| ==> CertFilesExact(Cycles(INITIAL, batches[..n])) {
      forall i | 0 <= i < |batches| ensures !LosesAPair(Cycles(INITIAL, batches[..i]), batches[i]) {
        CyclesSnoc(INITIAL, batches, i);
        RunListsExact(batches[..i]);
        assert CertFilesExact(Cycles(INITIAL, batches[..i])) && CertFilesExact(Cycles(INITIAL, batches[..i + 1]));
        CycleCertsExact(Cycles(INITIAL, batches[..i]), batches[i]);
      }
    }
  }

  lemma {:induction false} CertsExactUpTo(batches: seq<Batch>, n: nat)
    requires n <= |batches| && NeverLosesAPair(batches)
    ensures CertFilesExact(Cycles(INITIAL, batches[..n]))
  {
    hide Cycles, Cycle, CertFilesExact, LosesAPair, Tracks;
    if n == 0 {
      InitialExact(batches);
    } else {
      CertsExactUpTo(batches, n - 1);
      CyclesSnoc(INITIAL, batches, n - 1);
      RunListsExact(batches[..n-1]);
      CycleCertsExact(Cycles(INITIAL, batches[..n-1]), batches[n-1]);
    }
  }

  /** The certificate file of one secret is what it should be. */
  ghost predicate FileExact(s: State, k: ObjectKey) {
    Lookup(s.certs, k) == Lookup(WantedCerts(s.secrets, s.refs), k)
  }

  ghost predicate LosesPairOf(s: State, batch: Batch, k: ObjectKey) {
    k in Secrets(s.refs) * Secrets(RefsAfter(s, batch)) && LosesPair(StoredSecrets(s, batch).updates, k)
  }

  ghost predicate NeverLosesPairOf(batches: seq<Batch>, k: ObjectKey) {
    forall i :: 0 <= i < |batches| ==> !LosesPairOf(Cycles(INITIAL, batches[..i]), batches[i], k)
  }

  /** Secret by secret, whatever happens to the others: its file is right after every cycle
      of a run if and only if no cycle makes it lose its key pair while referenced. */
  lemma RunCertExact(batches: seq<Batch>, k: ObjectKey)
    ensures (forall n :: 0 <= n <= |batches| ==> FileExact(Cycles(INITIAL, batches[..n]), k))
       <==> NeverLosesPairOf(batches, k)
  {
    hide Cycles, Cycle, FileExact, LosesPairOf, Tracks;
    if NeverLosesPairOf(batches, k) {
      forall n | 0 <= n <= |batches| ensures FileExact(Cycles(INITIAL, batches[..n]), k) {
        CertExactUpTo(batches, k, n);
      }
    }
    if forall n :: 0 <= n <= |batches| ==> FileExact(Cycles(INITIAL, batches[..n]), k) {
      forall i | 0 <= i < |batches| ensures !LosesPairOf(Cycles(INITIAL, batches[..i]), batches[i], k) {
        CyclesSnoc(INITIAL, batches, i);
        RunListsExact(batches[..i]);
        assert FileExact(Cycles(INITIAL, batches[..i]), k) && FileExact(Cycles(INITIAL, batches[..i + 1]), k);
        CycleCertExact(Cycles(INITIAL, batches[..i]), batches[i], k);
      }
    }
  }

  lemma {:induction false} CertExactUpTo(batches: seq<Batch>, k: ObjectKey, n: nat)
    requires n <= |batches| && NeverLosesPairOf(batches, k)
    ensures FileExact(Cycles(INITIAL, batches[..n]), k)
  {
    hide Cycles, Cycle, LosesPairOf, Tracks;
    if n == 0 {
      InitialExact(batches);
    } else {
      hide FileExact;
      CertExactUpTo(batches, k, n - 1);
      CyclesSnoc(INITIAL, batches, n - 1);
      RunListsExact(batches[..n-1]);
      CycleCertExact(Cycles(INITIAL, batches[..n-1]), batches[n-1], k);
    }
  }

  lemma CycleCertExact(s: State, batch: Batch, k: ObjectKey)
    requires Tracks(s) && FileExact(s, k)
    ensures FileExact(Cycle(s, batch), k) <==> !LosesPairOf(s, batch, k)
  {
    CycleTracks(s, batch);
    RunCoalesces(s.secrets, SecretEvents(batch));
    hide WriteCerts, CertDiffsOf, WantedCerts, LosesPair, StoredSecrets, RefsAfter, TreeAfter;
    CertExactAt(s.certs, s.secrets, StoredSecrets(s, batch), s.refs, RefsAfter(s, batch), TreeAfter(s, batch), k);
  }

  lemma InitialExact(batches: seq<Batch>)
    ensures Cycles(INITIAL, batches[..0]) == INITIAL && CertFilesExact(INITIAL) && Secrets(INITIAL.refs) == {}
  {}

  /** Every secret that arrives has a key pair. */
  ghost predicate AllPaired(batches: seq<Batch>) {
    forall i, e :: 0 <= i < |batches| && e in batches[i] && e.SecretEvent? && e.secret.Upsert? ==> HasPair(e.secret.obj, "tls")
  }

  lemma PairedSecretsNeverLost(batches: seq<Batch>)
    requires AllPaired(batches)
    ensures NeverLosesAPair(batches)
  {
    forall i | 0 <= i < |batches| ensures !LosesAPair(Cycles(INITIAL, batches[..i]), batches[i]) {
      var s := Cycles(INITIAL, batches[..i]);
      forall k ensures !LosesPair(StoredSecrets(s, batches[i]).updates, k) {
        RunCoalesces(s.secrets, SecretEvents(batches[i]));
        UpsertedObject(s.secrets, SecretEvents(batches[i]), k);
        SecretEventsIn(batches[i]);
      }
    }
  }

  lemma {:induction false} UpsertedObject<T>(base: map<ObjectKey, T>, events: seq<Event<T>>, k: ObjectKey)
    ensures k in Touched(events) && Net(base, events, k).Some? ==>
              exists e :: e in events && e.Upsert? && e.obj == Net(base, events, k).value
    decreases |events|
  {
    if events != [] {
      var last := events[|events|-1];
      if last.key != k {
        UpsertedObject(base, events[..|events|-1], k);
        assert events == events[..|events|-1] + [last];
      }
    }
  }

  lemma {:induction false} SecretEventsIn(batch: Batch)
    ensures forall e :: e in SecretEvents(batch) ==> SecretEvent(e) in batch
  {
    if batch != [] {
      SecretEventsIn(batch[..|batch|-1]);
      assert batch == batch[..|batch|-1] + [batch[|batch|-1]];
    }
  }

  /** The failing family is not empty: whatever gateway references the secret, an update
      that drops its key pair leaves the previous file on disk. */
  lemma StaleCertificate(k: ObjectKey, gk: ObjectKey, gw: Gateway, i: nat, good: Secret, bad: Secret)
    requires gk == gw.key && i < |gw.listeners| && ListenerRefers(gw, gw.listeners[i], k)
    requires HasPair(good, "tls") && !HasPair(bad, "tls")
    ensures exists n :: 0 <= n <= 2 && !CertFilesExact(Cycles(INITIAL,
              [[GatewayEvent(Upsert(gk, gw)), SecretEvent(Upsert(k, good))], [SecretEvent(Upsert(k, bad))]][..n]))
  {
    var first: Batch := [GatewayEvent(Upsert(gk, gw)), SecretEvent(Upsert(k, good))];
    var batches := [first, [SecretEvent(Upsert(k, bad))]];
    FirstCycle(k, gk, gw, i, good);
    assert batches[..1] == [first];
    SecondCycleLoses(Cycles(INITIAL, [first]), k, good, bad);
    assert LosesAPair(Cycles(INITIAL, batches[..1]), batches[1]);
    RunCertsExact(batches);
  }

  /** One such run: `tls.crt` is renamed in the second batch. */
  lemma StaleCertificateExample()
    ensures var k := ObjectKey("default", "site");
            var gw := Gateway(ObjectKey("default", "gw"), "haproxy", [Listener("https", 443, "HTTPS", Some([CertRef(None, None, None, "site")]))]);
            var good := Secret(k, map["tls.key" := [1], "tls.crt" := [2]]);
            var bad := Secret(k, map["tls.key" := [1], "tls.cert" := [2]]);
            exists n :: 0 <= n <= 2 && !CertFilesExact(Cycles(INITIAL,
              [[GatewayEvent(Upsert(gw.key, gw)), SecretEvent(Upsert(k, good))], [SecretEvent(Upsert(k, bad))]][..n]))
  {
    var k := ObjectKey("default", "site");
    var gw := Gateway(ObjectKey("default", "gw"), "haproxy", [Listener("https", 443, "HTTPS", Some([CertRef(None, None, None, "site")]))]);
    var good := Secret(k, map["tls.key" := [1], "tls.crt" := [2]]);
    var bad := Secret(k, map["tls.key" := [1], "tls.cert" := [2]]);
    assert "tls" + ".key" == "tls.key" && "tls" + ".crt" == "tls.crt";
    assert |"tls.crt"| != |"tls.cert"| && "tls.crt"[4] != "tls.key"[4];
    assert CertRefKey(gw.listeners[0].tls.value[0], gw) == k;
    StaleCertificate(k, gw.key, gw, 0, good, bad);
  }

  lemma SecondCycleLoses(s: State, k: ObjectKey, good: Secret, bad: Secret)
    requires s.secrets == map[k := good] && k in Secrets(s.refs)
    requires HasPair(good, "tls") && !HasPair(bad, "tls")
    ensures LosesAPair(s, [SecretEvent(Upsert(k, bad))])
  {
    var second: Batch := [SecretEvent(Upsert(k, bad))];
    assert second[..0] == [] && second[|second|-1].SecretEvent?;
    assert GatewayEvents(second) == GatewayEvents(second[..0]);
    assert SecretEvents(second) == [Upsert(k, bad)] && GatewayEvents(second) == [];
    RunSnoc(StoreState(s.secrets, map[]), [], Upsert(k, bad));
    assert [] + [Upsert(k, bad)] == [Upsert(k, bad)];
    assert LosesPair(StoredSecrets(s, second).updates, k);
  }

  lemma FirstEvents(k: ObjectKey, gk: ObjectKey, gw: Gateway, good: Secret)
    ensures var first: Batch := [GatewayEvent(Upsert(gk, gw)), SecretEvent(Upsert(k, good))];
            SecretEvents(first) == [Upsert(k, good)] && GatewayEvents(first) == [Upsert(gk, gw)]
  {
    var first: Batch := [GatewayEvent(Upsert(gk, gw)), SecretEvent(Upsert(k, good))];
    var one := first[..1];
    assert first[..|first|-1] == one && one[..0] == [] && one[|one|-1].GatewayEvent?;
    assert SecretEvents(one) == SecretEvents(one[..0]) == [];
    assert SecretEvents(first) == SecretEvents(one) + [Upsert(k, good)];
    assert GatewayEvents(one) == GatewayEvents(one[..0]) + [Upsert(gk, gw)];
    assert GatewayEvents(first) == GatewayEvents(one);
  }

  lemma OneUpsert<T>(k: ObjectKey, obj: T)
    ensures Run(StoreState(map[], map[]), [Upsert(k, obj)]) == StoreState(map[k := obj], map[k := Update(None, Some(obj), Upserted)])
  {
    RunSnoc(StoreState(map[], map[]), [], Upsert(k, obj));
    assert [] + [Upsert(k, obj)] == [Upsert(k, obj)];
  }

  lemma FirstCycle(k: ObjectKey, gk: ObjectKey, gw: Gateway, i: nat, good: Secret)
    requires gk == gw.key && i < |gw.listeners| && ListenerRefers(gw, gw.listeners[i], k)
    ensures var s := Cycles(INITIAL, [[GatewayEvent(Upsert(gk, gw)), SecretEvent(Upsert(k, good))]]);
            s.secrets == map[k := good] && k in Secrets(s.refs)
  {
    hide CertDiffsOf, ListDiffsOf, WriteCerts, WriteLists, UpdateTree, CleanTree, RefsOf, SecretEvents, GatewayEvents, Run;
    var first: Batch := [GatewayEvent(Upsert(gk, gw)), SecretEvent(Upsert(k, good))];
    var none: seq<Batch> := [];
    assert [first][..0] == none;
    FirstEvents(k, gk, gw, good);
    OneUpsert(k, good);
    OneUpsert(gk, gw);
    var s := Cycle(INITIAL, first);
    assert s == Cycles(INITIAL, [first]);
    var l := gw.listeners[i];
    RefsOfMeaning(s.gateways, k, ListenerKey(gk, l.name));
    assert (k, ListenerKey(gk, l.name)) in s.refs;
  }

  // ---- what the crt-lists name

  ghost predicate ListedHaveFiles(s: State) {
    forall l, k :: l in s.lists && k in s.lists[l] ==> k in s.certs
  }

  ghost predicate ReferencedHavePairs(s: State) {
    forall k :: k in Secrets(s.refs) && k in s.secrets ==> HasPair(s.secrets[k], "tls")
  }

  /** The crt-lists name every referenced stored secret, with or without a key pair. So on
      runs that never lose a pair, all listed certificate files exist if and only if every
      referenced stored secret has a pair. */
  lemma ListedFilesExist(batches: seq<Batch>)
    requires NeverLosesAPair(batches)
    ensures ListedHaveFiles(Cycles(INITIAL, batches)) <==> ReferencedHavePairs(Cycles(INITIAL, batches))
  {
    hide Cycles, NeverLosesAPair;
    var s := Cycles(INITIAL, batches);
    RunListsExact(batches);
    RunCertsExact(batches);
    assert batches[..|batches|] == batches;
    assert CertFilesExact(s);
    if ListedHaveFiles(s) {
      forall k | k in Secrets(s.refs) && k in s.secrets ensures HasPair(s.secrets[k], "tls") {
        var l := ListNaming(s, k);
        assert k in WantedCerts(s.secrets, s.refs);
      }
    }
    if ReferencedHavePairs(s) {
      forall l, k | l in s.lists && k in s.lists[l] ensures k in s.certs {
        assert ListExactAt(s.lists, s.secrets, s.refs, l);
        assert k in Desired(s.secrets, s.refs, l);
        assert k in WantedCerts(s.secrets, s.refs);
      }
    }
  }

  lemma ListNaming(s: State, k: ObjectKey) returns (l: ObjectKey)
    requires Tracks(s) && k in Secrets(s.refs) && k in s.secrets
    ensures l in s.lists && k in s.lists[l]
  {
    var p :| p in s.refs && p.0 == k;
    l := p.1;
    assert k in Desired(s.secrets, s.refs, l);
    assert ListExactAt(s.lists, s.secrets, s.refs, l);
  }

  /** A secret without a pair is listed as soon as a gateway references it. */
  lemma PairlessIsListed(k: ObjectKey, gk: ObjectKey, gw: Gateway, i: nat, bad: Secret)
    requires gk == gw.key && i < |gw.listeners| && ListenerRefers(gw, gw.listeners[i], k) && !HasPair(bad, "tls")
    ensures !ListedHaveFiles(Cycles(INITIAL, [[GatewayEvent(Upsert(gk, gw)), SecretEvent(Upsert(k, bad))]]))
  {
    var first: Batch := [GatewayEvent(Upsert(gk, gw)), SecretEvent(Upsert(k, bad))];
    FirstCycle(k, gk, gw, i, bad);
    FirstLosesNothing(first);
    ListedFilesExist([first]);
  }

  lemma FirstLosesNothing(first: Batch)
    ensures NeverLosesAPair([first])
  {
    var none: seq<Batch> := [];
    assert [first][..0] == none && Cycles(INITIAL, none) == INITIAL;
    assert Secrets(INITIAL.refs) == {};
  }

  // ---- secret names too short for a path

  /** The directory of a certificate is named by the first two characters of its secret. */
  predicate TooShort(k: ObjectKey) {
    |k.name| < 2
  }

  /** The secrets whose paths are computed in a cycle. */
  ghost function PathsOf(s: State, batch: Batch): set<ObjectKey> {
    var c, d := CertDiffsIn(s, batch), ListDiffsIn(s, batch);
    c.created.Keys + c.updated.Keys + c.deleted
    + (set l, k | l in d.created && k in d.created[l] :: k) + (set l, k | l in d.updated && k in d.updated[l] :: k)
  }

  ghost predicate Panics(s: State, batch: Batch) {
    exists k :: k in PathsOf(s, batch) && |k.name| < 2
  }

  /** Some too short secret is referenced and stored after the batch, or referenced no more,
      or deleted while referenced. */
  ghost predicate NeedsShortPath(s: State, batch: Batch) {
    exists k :: TooShort(k) && NeedsPath(s, batch, k)
  }

  ghost predicate NeedsPath(s: State, batch: Batch, k: ObjectKey) {
    var s' := Cycle(s, batch);
    var updates := StoredSecrets(s, batch).updates;
    || (k in Secrets(s'.refs) && k in s'.secrets)
    || (k in Secrets(s.refs) && k !in Secrets(s'.refs))
    || (k in Secrets(s.refs) && k in Secrets(s'.refs) && k in updates && updates[k].status == Deleted)
  }

  /** A run computes a path for a too short name, and panics, if and only if some cycle of it
      needs the path of such a secret. */
  lemma RunPanicsExactly(batches: seq<Batch>)
    ensures (exists i :: 0 <= i < |batches| && Panics(Cycles(INITIAL, batches[..i]), batches[i]))
       <==> (exists i :: 0 <= i < |batches| && NeedsShortPath(Cycles(INITIAL, batches[..i]), batches[i]))
  {
    hide Cycles, Panics, NeedsShortPath, Tracks;
    if i :| 0 <= i < |batches| && Panics(Cycles(INITIAL, batches[..i]), batches[i]) {
      RunListsExact(batches[..i]);
      PanicNeedsPath(Cycles(INITIAL, batches[..i]), batches[i]);
    }
    if i :| 0 <= i < |batches| && NeedsShortPath(Cycles(INITIAL, batches[..i]), batches[i]) {
      NeedPanics(batches, i);
    }
  }

  lemma PanicNeedsPath(s: State, batch: Batch)
    requires Tracks(s) && Panics(s, batch)
    ensures NeedsShortPath(s, batch)
  {
    var k :| k in PathsOf(s, batch) && TooShort(k);
    CycleTracks(s, batch);
    RunCoalesces(s.secrets, SecretEvents(batch));
    PathIsNeeded(s, batch, k);
  }

  lemma PathIsNeeded(s: State, batch: Batch, k: ObjectKey)
    requires k in PathsOf(s, batch) && Mirrors(TreeAfter(s, batch), Cycle(s, batch).secrets)
    requires Coalesced(s.secrets, StoredSecrets(s, batch))
    ensures NeedsPath(s, batch, k)
  {
    hide TlsContent, Flagged, TreeAfter, StoredSecrets, RefsAfter, WriteCerts, WriteLists, Coalesced, Mirrors;
    var c, d := CertDiffsIn(s, batch), ListDiffsIn(s, batch);
    if k in c.created.Keys + c.updated.Keys + c.deleted {
      CertPathIsNeeded(s, batch, k);
    } else {
      var l :| (l in d.created && k in d.created[l]) || (l in d.updated && k in d.updated[l]);
      assert k in Existing(TreeAfter(s, batch), SecretsOf(RefsAfter(s, batch), l));
      LiveIsStored(s, batch, k);
    }
  }

  lemma LiveIsStored(s: State, batch: Batch, k: ObjectKey)
    requires Mirrors(TreeAfter(s, batch), Cycle(s, batch).secrets) && Live(TreeAfter(s, batch), k)
    ensures k in Cycle(s, batch).secrets
  {
    hide TreeAfter, StoredSecrets, RefsAfter, WriteCerts, WriteLists;
  }

  lemma CertPathIsNeeded(s: State, batch: Batch, k: ObjectKey)
    requires var c := CertDiffsIn(s, batch); k in c.created.Keys + c.updated.Keys + c.deleted
    requires Mirrors(TreeAfter(s, batch), Cycle(s, batch).secrets)
    requires Coalesced(s.secrets, StoredSecrets(s, batch))
    ensures NeedsPath(s, batch, k)
  {
    hide TlsContent, TreeAfter, StoredSecrets, RefsAfter, WriteCerts, WriteLists, Mirrors;
    var c := CertDiffsIn(s, batch);
    var st := StoredSecrets(s, batch);
    if k in st.updates && st.updates[k].status == Upserted {
      assert st.updates[k].newObject == Lookup(st.objects, k);
    }
    if Live(TreeAfter(s, batch), k) {
      LiveIsStored(s, batch, k);
    }
  }

  lemma NeedPanics(batches: seq<Batch>, i: nat)
    requires i < |batches| && NeedsShortPath(Cycles(INITIAL, batches[..i]), batches[i])
    ensures exists j :: 0 <= j < |batches| && Panics(Cycles(INITIAL, batches[..j]), batches[j])
  {
    hide Cycles;
    var s := Cycles(INITIAL, batches[..i]);
    var k :| TooShort(k) && NeedsPath(s, batches[i], k);
    CyclesSnoc(INITIAL, batches, i);
    var s' := Cycle(s, batches[i]);
    if k in Secrets(s'.refs) && k in s'.secrets {
      ListedPanics(batches, i + 1, k);
    } else {
      DroppedPanics(s, batches[i], k);
    }
  }

  lemma DroppedPanics(s: State, batch: Batch, k: ObjectKey)
    requires TooShort(k) && NeedsPath(s, batch, k)
    requires !(k in Secrets(Cycle(s, batch).refs) && k in Cycle(s, batch).secrets)
    ensures Panics(s, batch)
  {
    assert k in CertDiffsIn(s, batch).deleted;
    assert k in PathsOf(s, batch);
  }

  /** A too short secret that is referenced and stored was put into some crt-list. */
  lemma {:induction false} ListedPanics(batches: seq<Batch>, n: nat, k: ObjectKey)
    requires n <= |batches| && TooShort(k)
    requires var s := Cycles(INITIAL, batches[..n]); k in Secrets(s.refs) && k in s.secrets
    ensures exists j :: 0 <= j < n && Panics(Cycles(INITIAL, batches[..j]), batches[j])
  {
    hide Cycles, Cycle, Tracks, CertFilesExact, Panics;
    if n == 0 {
      InitialExact(batches);
      assert false;
    } else {
      RunListsExact(batches[..n]);
      RunListsExact(batches[..n - 1]);
      CyclesSnoc(INITIAL, batches, n - 1);
      var before := Cycles(INITIAL, batches[..n - 1]);
      var l := ListNaming(Cycles(INITIAL, batches[..n]), k);
      if l in before.lists && k in before.lists[l] {
        ListedIsStored(before, l, k);
        ListedPanics(batches, n - 1, k);
      } else {
        NewlyListedPanics(before, batches[n - 1], l, k);
      }
    }
  }

  lemma ListedIsStored(s: State, l: ObjectKey, k: ObjectKey)
    requires Tracks(s) && l in s.lists && k in s.lists[l]
    ensures k in Secrets(s.refs) && k in s.secrets
  {
    assert ListExactAt(s.lists, s.secrets, s.refs, l);
    assert k in Desired(s.secrets, s.refs, l);
  }

  lemma NewlyListedPanics(s: State, batch: Batch, l: ObjectKey, k: ObjectKey)
    requires TooShort(k) && !(l in s.lists && k in s.lists[l])
    requires l in Cycle(s, batch).lists && k in Cycle(s, batch).lists[l]
    ensures Panics(s, batch)
  {
    var d := ListDiffsIn(s, batch);
    assert (l in d.created && k in d.created[l]) || (l in d.updated && k in d.updated[l]);
    assert k in PathsOf(s, batch);
  }

  /** The failing family: a secret `a` that some gateway references, with or without a pair. */
  lemma ShortNamePanics(k: ObjectKey, gk: ObjectKey, gw: Gateway, i: nat, secret: Secret)
    requires gk == gw.key && i < |gw.listeners| && ListenerRefers(gw, gw.listeners[i], k) && TooShort(k)
    ensures Panics(INITIAL, [GatewayEvent(Upsert(gk, gw)), SecretEvent(Upsert(k, secret))])
  {
    hide Cycle, Cycles, Panics, Tracks, ListenerRefers;
    var first: Batch := [GatewayEvent(Upsert(gk, gw)), SecretEvent(Upsert(k, secret))];
    FirstCycle(k, gk, gw, i, secret);
    InitialExact([first]);
    CyclesSnoc(INITIAL, [first], 0);
    assert [first][..1] == [first];
    RunListsExact([first]);
    var l := ListNaming(Cycles(INITIAL, [first]), k);
    NewlyListedPanics(INITIAL, first, l, k);
  }
}
