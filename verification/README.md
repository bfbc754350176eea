# HAProxy Unified Gateway: a verified model of its incremental core

The controller turns Kubernetes Gateway API resources into HAProxy configuration,
certificates and runtime commands. It never starts over: every batch of events changes
stores, indexes, trees, files and diffs a little. This project states what each of those
incremental results must equal when recomputed from scratch, and proves it for every batch
and every run.

One file is one module. Files that the program changes in place are classes whose methods
are proved against functions on values; lemmas over sequences of batches then say what
holds over whole runs. A loop over a Go map takes its keys in an arbitrary order, so every
such loop is proved for all orders.

- **Certificates**: `ObjectStore`, `References`, `CertificateSpec`, `CertificateRun`,
  `CertificateStorage`, `CertificateBuilder`, `Controller`, `RuntimeCertificates`. After every
  cycle of every run the crt-list files are exact, and the certificate files are exact if
  and only if no still-referenced secret lost its key pair, secret by secret too; the
  statements are about the files by path as well, and a certificate file holds the private
  key and then the certificate, line by line. Whichever runtime commands fail, a cycle
  from a mirroring HAProxy requests a reload or leaves it mirroring; over runs it mirrors the
  disk after every cycle when every requested reload is taken, and then reloads are requested
  only where a crt-list is created or deleted, a command cannot be carried out, or HAProxy
  refuses one that could.
- **The event loop**: `EventLoop`. Delivery exactly once and in order, no lost wake-up, at
  most one handler, and two reused backing arrays that never overwrite a running handler's
  batch.
- **Listener ports**: `PortConflicts`. No port is shared by a valid listener of a valid
  managed gateway, including gateways a cycle did not touch; and gateways and listeners are
  valid exactly when they should be.
- **Configuration**: `Configuration`, `Frontends`, `BackendOwners`, `BackendCycle`,
  `HaproxyConfMgr`. Replaying a cycle's diffs gives the controller's configuration if and
  only if nothing they delete remains, which holds for every cycle the program can compute.
  Frontends and backends of a cycle go into one transaction. From equal sides it is refused
  only when the transaction itself fails; so over every run without such failures the
  receiver has the controller's frontends and backends after every cycle, and in general it
  does if and only if every cycle that failed was to change nothing. The configured frontends are exactly
  the ones owned by gateways, set up as their listeners ask; backend ownership is exactly what
  the routes call for, every configured backend holds what was last built for it, and there is
  the exact condition under which the configured backends are the owned ones.
- **Route status**: `HTTPRoute`, `RouteStatus`, `ParentRefs`. From the check of the parent
  references to the written status: what is written is recognised by the next
  reconciliation, for every route and every prior status; the references it names are the
  managed ones of the route if and only if all of these survive their keys, and each parent is
  reported accepted exactly when the route attaches to it, and else refused for a reason that
  holds.
- **Algorithms**: `Hostnames`, `ServerCommands`, `InstalledVersions`, `MapFile`, with `Keys`,
  `Text` and `Sets` underneath.

## Where the code does less than it promises

Each of these is a lemma that gives the exact condition, with a failing input beside it.

- A referenced secret whose update drops its key pair keeps its old file on disk
  (`CertificateRun.RunCertsExact`, `CertificateRun.StaleCertificateExample`).
- A crt-list names every referenced stored secret, also one without a key pair, for which
  there is no file (`CertificateRun.ListedFilesExist`, `CertificateRun.PairlessIsListed`).
- A secret name of one character, which Kubernetes allows, has no certificate path: taking
  its first two characters panics (`CertificateRun.RunPanicsExactly`,
  `CertificateRun.ShortNamePanics`).
- A backend that a route gives up is deleted even while another route owns it, untouched or
  calling for it in the same batch: the queues are worked off after the HTTP routes and again
  after the TLS routes (k8s/gate/haproxy/backends.go:94-127), each time upserts before
  deletes, and so it ends unconfigured (`HaproxyConfMgrs.ConfiguredAreOwned`,
  `HaproxyConfMgrs.SharedIsDropped`, `HaproxyConfMgrs.ContestedIsDropped`).
- Diffs that create what they also delete drop it at the receiver, whether the receiver had
  it or not (`Configurations.ReplayExact`, `Configurations.RecreateExisting`,
  `Configurations.RecreateNew`). This is about the operations alone: no cycle of the program
  ends with a deleted name configured (`HaproxyConfMgrs.HaproxyConfMgr.ComputeDiffs`).
- A cycle whose transaction cannot be started or committed (hug/haproxy/main.go:121-152) is
  not sent again. What it was to create stays missing at the receiver, and a later cycle that
  drops or changes that, without creating it anew, is refused as a whole
  (`HaproxyConfMgrs.RunCycles`, `HaproxyConfMgrs.LostBackend`,
  `Configurations.LostNameRefuses`).
- A reload that such a cycle requested is forgotten too: the next cycle resets the request
  (k8s/gate/handler/tree.go:120-122), and with a batch without secret and gateway events
  HAProxy goes on without the new crt-list and without a request for it, unless the
  configuration of that cycle asks for a reload itself (`RuntimeCertificates.Run`,
  `RuntimeCertificates.LostReload`, `RuntimeCertificates.FirstCreatesList`).
- A cycle can send commands HAProxy is bound to refuse, and then requests a reload it would
  not need: deleting the certificate of a secret that has no file, updating that of a secret
  that only now gets its key pair, or updating a crt-list that was removed while its secrets
  were absent (`RuntimeCertificates.AcceptableExactly`, `RuntimeCertificates.Run`).
- An oversized runtime command is sent whole, and may be preceded by an empty payload. The
  names of a backend and its server must have 7970 characters together; the default name
  templates are far from it, so that only a custom template or link reaches it
  (`ServerCommands.MaintenanceWithinBound`, `ServerCommands.DefaultNamesFit`).
- A route without hostnames on a listener without one attaches, and gets an empty hostname
  list although every host is allowed (`Hostnames.AnswerExact`,
  `Hostnames.ValidAttachedIffServed`). On hostnames that API validation lets through (at
  least one character) this is the only input on which the attachment test and the hostname
  list disagree. On an empty hostname they disagree too (`Hostnames.AttachedIffServed`,
  `Hostnames.EmptyHostnameDisagrees`); that is about the two functions alone, as neither the
  API server sends such a route nor is this list the only source of map entries
  (k8s/gate/haproxy/routes.go:309-330).
- The doc comment of `KeyToParentRef` calls it the inverse of `ParentRefToKey`; it is,
  exactly on plain references (`ParentRefs.RefRoundTrip`). A parent reference with a port is
  managed, and reported as the reference without it, so that two which differ only in the
  port become one entry; a reference whose key does not read back is not reported
  (`HTTPRoutes.ReportRoute`, `HTTPRoutes.PortIsLost`, `HTTPRoutes.PortExample`).
- The generation of a route is set on its conditions while there are none, so all reported
  conditions are of generation 0 (`HTTPRoutes.TreeRoute.BuildConditions`,
  `HTTPRoutes.TreeRoute.WriteStatus`).
- A CRD that comes and goes within one batch makes the version builder dereference nil
  (`InstalledVersions.RunBatches`, `InstalledVersions.FleetingExample`).
- A map with unclean keys or values, or with a line beyond the scanner's buffer, does not
  survive its file (`MapFiles.WriteThenRead`, `MapFiles.SpacedKeyIsLost`).

## Model

| member | source | states |
|---|---|---|
| `ObjectStores.ObjectStore.Upsert` | k8s/gate/store/object-store.go:56-79 | the new store state is one `Step` of the coalescing store: object replaced, the oldest version since the reset kept |
| `ObjectStores.ObjectStore.Delete` | k8s/gate/store/object-store.go:81-94 | the same for a deletion, also of an object that is not there |
| `ObjectStores.ObjectStore.ResetUpdates` | k8s/gate/store/object-store.go:96-100 | only the updates are forgotten |
| `ObjectStores.RunCoalesces` | k8s/gate/store/object-store.go:56-94 | after any events since a reset, updates holds exactly the touched keys, each with the object at the reset, the object now and the status of the net result; the objects are the net effect of the events |
| `ObjectStores.UpdatesReplay` | k8s/gate/store/object-store.go:56-94 | applying the updates to the objects of the last reset gives the current objects |
| `References.ReferencedBy.AddReferencedBy` | k8s/gate/references/references.go:41-61 | exactly one (owned, owner) pair is added, for one kind of owner; no empty inner map |
| `References.ReferencedBy.RemoveReferencedBy` | k8s/gate/references/references.go:63-89 | exactly that pair is removed and emptied inner maps go with it |
| `References.ReferencedBy.ReferencedByUsingKeys` | k8s/gate/references/references.go:96-103 | the owners of one object are those paired with it |
| `References.ReferencedBy.AllReferenced` | k8s/gate/references/references.go:106-115 | the pairs of one kind of owner grouped by owned object, in any iteration order |
| `References.ReferencedBy.DeepCopy` | k8s/gate/references/references.go:117-137 | the three nested loops, in any order of the keys at each depth, rebuild an equal copy |
| `References.RefsOfMeaning` | k8s/gate/tree/references_manager.go:47-68 | a listener references a secret in the index if and only if some gateway has a listener with that key naming that secret in a supported certificate reference |
| `GatewayApi.IsSecretGroupKindSupported` | k8s/gate/utils-k8s/supported.go:84-94 | exactly references to core Secrets, by name or by default |
| `GatewayApi.CertRefKey` | k8s/gate/tree/references_manager.go:47-68 | the namespace of the gateway for a missing one, else that of the reference |
| `References.ReferenceManager.BuildSecretReferences` | k8s/gate/tree/references_manager.go:47-68 | from the emptied index, the loops over gateways, listeners and references give exactly the references of the stored gateways |
| `References.ReferenceManager.UpdateReferences` | k8s/gate/tree/references_manager.go:31-75 | the previous index is kept as a snapshot; the current one is that of the stored gateways when a gateway was touched, else unchanged |
| `CertificateSpec.TreeFollowsStore` | k8s/gate/tree/secret_builder.go:42-74 | cleaning and updating the secret tree from the store's updates makes its live entries the stored secrets and its statuses a record of what the cycle changed |
| `CertificateBuilders.SecretBuilder.CleanTreeUpdates` | k8s/gate/tree/tree.go:151-161 | deleted entries are dropped and the others reset, in any order |
| `CertificateBuilders.SecretBuilder.ComputeTreeUpdates` | k8s/gate/tree/secret_builder.go:38-46 | the tree after the loop is the update of the tree by all store updates at once |
| `CertificateBuilders.SecretBuilder.ComputeTreeSecretUpdate` | k8s/gate/tree/secret_builder.go:48-68 | one update changes one entry, as upserted with its previous version or as deleted |
| `CertificateBuilders.CertificateBuilder.HandleNewReferencedSecretsStorage` | k8s/gate/tree/certificate_builder.go:130-154 | creates the certificate of every newly referenced live secret with a key pair, and nothing else |
| `CertificateBuilders.CertificateBuilder.HandleDeReferencedSecretsStorage` | k8s/gate/tree/certificate_builder.go:156-164 | deletes exactly the no longer referenced |
| `CertificateBuilders.CertificateBuilder.HandleUpdatedSecretsStorage` | k8s/gate/tree/certificate_builder.go:166-200 | among the secrets referenced before and after, created, updated and deleted by the store's update of each |
| `CertificateBuilders.CertificateBuilder.SecretsPerGatewayListener` | k8s/gate/tree/certificate_builder.go:215-226 | the inverse index: the same pairs grouped by listener |
| `CertificateBuilders.CertificateBuilder.KeepOnlyExistingSecrets` | k8s/gate/tree/certificate_builder.go:254-276 | what stays, in the result and in the map changed in place, are the live secrets |
| `CertificateBuilders.CertificateBuilder.HandleNewReferencedCrtList` | k8s/gate/tree/certificate_builder.go:228-243 | one crt-list for each listener that references secrets for the first time, with those that exist, possibly none |
| `CertificateBuilders.CertificateBuilder.HandleDeReferencedCrtList` | k8s/gate/tree/certificate_builder.go:245-252 | deletes the crt-lists of listeners that reference nothing any more |
| `CertificateBuilders.CertificateBuilder.UpdatedContent` | k8s/gate/tree/certificate_builder.go:278-359 | a listener's list is rewritten if and only if it is flagged, with its existing secrets |
| `CertificateBuilders.CertificateBuilder.HandleCrtList` | k8s/gate/tree/certificate_builder.go:205-212 | the crt-list diffs of the two reference indexes and the tree |
| `CertificateBuilders.CertificateBuilder.ComputeCertificateDiffs` | k8s/gate/tree/certificate_builder.go:75-92 | the certificate and crt-list diffs of the cycle, as functions of the two indexes, the tree and the updates |
| `CertificateBuilders.CertificateBuilder.EnsureCertificatesStorage` | k8s/gate/tree/certificate_builder.go:94-122 | the disk after writing and deleting is the old disk changed by exactly the diffs |
| `CertificateSpec.CertsExact` | k8s/gate/tree/certificate_builder.go:130-200 | writing one cycle's diffs over exact files gives exactly the wanted files if and only if no secret referenced before and after loses its key pair in the batch |
| `CertificateSpec.CertExactAt` | k8s/gate/tree/certificate_builder.go:130-200 | the same for the file of one secret, whatever the other files are |
| `CertificateSpec.DiffsFromScratch` | k8s/gate/tree/certificate_builder.go:130-200 | when all secrets have pairs, created and deleted are the differences of the two sets computed from scratch, and updated covers every changed content |
| `CertificateSpec.UnflaggedUnchanged` | k8s/gate/tree/certificate_builder.go:278-359 | a listener that the update test does not flag has the same desired secrets as before |
| `CertificateSpec.FlaggedMeans` | k8s/gate/tree/certificate_builder.go:278-359 | a listener is flagged if and only if a newly named secret is stored, one named before and after arrived or went in the batch, or one is named no more |
| `CertificateSpec.ListsStayExact` | k8s/gate/tree/certificate_builder.go:205-359 | one cycle keeps every crt-list exact, or absent because nothing is desired |
| `CertificateRun.CycleCertsExact` | k8s/gate/handler/tree.go:97-132 | one whole cycle keeps the certificate files exact if and only if it loses no pair |
| `CertificateRun.RunListsExact` | k8s/gate/tree/certificate_builder.go:205-359 | after every run of batches each crt-list names exactly the stored secrets its listener references, or is absent because there are none; store, index, tree and disk agree |
| `CertificateRun.RunCertsExact` | k8s/gate/tree/certificate_builder.go:75-200 | the certificate files are exactly those of the referenced stored secrets after every cycle of a run, if and only if no cycle makes a still-referenced secret lose its pair |
| `CertificateRun.RunCertExact` | k8s/gate/tree/certificate_builder.go:75-200 | secret by secret: its file is right after every cycle of a run if and only if no cycle makes that secret lose its pair while referenced |
| `CertificateRun.PairedSecretsNeverLost` | k8s/gate/tree/certificate_builder.go:166-200 | runs in which every arriving secret has a pair never lose one |
| `CertificateRun.StaleCertificate` | k8s/gate/tree/certificate_builder.go:166-200 | for any gateway with a listener that references the secret, an update that drops the pair leaves a stale file |
| `CertificateRun.ListedFilesExist` | k8s/gate/tree/certificate_builder.go:228-276 | on runs that never lose a pair, every secret a crt-list names has its certificate file if and only if every referenced stored secret has a pair |
| `CertificateRun.PairlessIsListed` | k8s/gate/tree/certificate_builder.go:228-276 | a secret without a pair is listed, without a file, as soon as any gateway references it |
| `CertificateRun.RunPanicsExactly` | k8s/gate/haproxy/storage/cert.go:91-96 | a run computes a path for a secret name of fewer than two characters if and only if in some cycle such a secret is referenced and stored, or no longer referenced, or deleted while referenced |
| `CertificateRun.ShortNamePanics` | k8s/gate/haproxy/storage/cert.go:91-96 | any gateway that references such a stored secret is enough, in the first cycle |
| `CertificateRun.StaleCertificateExample` | k8s/gate/tree/certificate_builder.go:166-200 | one such run, spelled out |
| `CertificateStorages.CertificateStorage.NewCertificateData` | k8s/gate/haproxy/storage/cert.go:98-127 | the certificate is that of the last kind of key pair present, under the path of that kind, and holds the key and then the certificate; an error without a pair, whatever the name |
| `CertificateSpec.ContentIsKeyThenCert` | k8s/gate/haproxy/storage/cert.go:240-248 | the content starts with the whole key and ends with the whole certificate, and its lines are those of the key followed by those of the certificate, for every key, closed by a line break or not |
| `CertificateStorages.CertPathIsSpelled` | k8s/gate/haproxy/storage/cert.go:78-96 | the path is the base, the namespace, two characters of the name, and namespace and name |
| `CertificateStorages.CrtListPathIsSpelled` | k8s/gate/haproxy/storage/crt-list.go:47-52 | the path is the base and the namespace and name of the listener |
| `CertificateStorages.CertificateStorage.NewTlsCertificateData` | k8s/gate/haproxy/storage/cert.go:98-127 | without bundles, the `tls` content under the secret's own path |
| `CertificateStorages.CertificateStorage.NewCrtListContent` | k8s/gate/haproxy/storage/crt-list.go:54-62 | the sorted duplicate-free list of the certificate paths, in any iteration order |
| `CertificateStorages.CertFilesRead` | k8s/gate/haproxy/storage/cert.go:91-169 | the file at the path of a legal secret key is there if and only if the key is wanted, with that content: no two keys share a path |
| `CertificateStorages.ListFilesRead` | k8s/gate/haproxy/storage/crt-list.go:47-120 | the file at the path of a legal listener key, spelled out, lists exactly the paths of its desired secrets, sorted, or is absent because there are none |
| `CertificateStorages.KeyFileRead` | k8s/gate/haproxy/storage/cert.go:91-169 | the file of a secret is there if and only if the secret is referenced, stored and has `tls.key` and `tls.crt`, and holds the key and then the certificate |
| `CertificateStorages.CertificateStorage.WriteOnDisk` | k8s/gate/haproxy/storage/cert.go:129-144 | one certificate file is replaced and no other file is touched |
| `CertificateStorages.CertificateStorage.DeleteFromDisk` | k8s/gate/haproxy/storage/cert.go:146-169 | one certificate file is gone and no other file is touched |
| `CertificateStorages.CertificateStorage.WriteCrtListOnDisk` | k8s/gate/haproxy/storage/crt-list.go:64-100 | one crt-list is replaced and no other file is touched |
| `CertificateStorages.CertificateStorage.DeleteCrtListFromDisk` | k8s/gate/haproxy/storage/crt-list.go:102-120 | one crt-list is gone and no other file is touched |
| `Controllers.CycleLegality` | k8s/gate/tree/certificate_builder.go:75-122 | legal names stay legal through a cycle, in stores, index, tree and diffs |
| `Controllers.Controller.ProcessBatch` | k8s/gate/handler/batch.go:193-225 | the secret and gateway stores after a batch are the runs of its secret and gateway events |
| `Controllers.Controller.BuildGateTree` | k8s/gate/handler/tree.go:97-132 | the reference, secret and certificate builders, in their order, leave index, tree and disk as the cycle function says |
| `Controllers.Controller.HandleEventBatch` | k8s/gate/handler/batch.go:138-225 | up to the certificate step, the whole mutable controller takes one step of the cycle on values |
| `Controllers.Controller.HandleRun` | k8s/gate/handler/batch.go:138-225 | over any run the crt-list files on disk, by path and content, are those recomputed from the stored objects, and so are the certificate files when no pair is lost; secret by secret, unless that secret lost its pair, its file is there exactly when it is referenced, stored and has both parts, and holds the key and then the certificate |
| `RuntimeCertificates.CertificateUpdater.ProcessCertificates` | k8s/gate/haproxy/certificates.go:28-101 | from whatever the runtime holds: afterwards the reload flag is set, or every command succeeded and certificates and crt-lists are changed by exactly the diffs; an error always sets the flag; without diffs, or with runtime updates off, nothing changes; no certificate in use is asked to be deleted when none is named after the cycle; with the flag down it is up afterwards if and only if updates are on and a crt-list is created or deleted or a command was refused, that is, without an open transaction, one could not be carried out or HAProxy refused one that could |
| `RuntimeCertificates.CertificateUpdater.RuntimeCertificatesPrechecks` | k8s/gate/haproxy/certificates.go:40-61 | a reload is requested exactly when a crt-list is created or deleted |
| `RuntimeCertificates.CertificateUpdater.ExecuteRuntimeCertCommands` | k8s/gate/haproxy/certificates.go:63-101 | either every command succeeded and certificates and crt-lists are changed by exactly the diffs, or the reload flag is set, as it is on any error; with the flag set beforehand nothing is sent; deletes come after the crt-lists, so that none concerns a certificate in use; an error if and only if some command cannot be carried out, unless HAProxy refuses one that can |
| `RuntimeCertificates.CertificateUpdater.RuntimeCreateCert` | k8s/gate/haproxy/certificates.go:103-141 | without error the runtime holds the new certificate and no open transaction; with one, a transaction stays open only if it could not be aborted; an error only when a command is refused, which, unless HAProxy refuses what it could do, is exactly when the certificate is there already |
| `RuntimeCertificates.CertificateUpdater.RuntimeUpdateCert` | k8s/gate/haproxy/certificates.go:143-174 | without error the certificate is replaced and no transaction is open; with one, the certificates are unchanged and a transaction stays open only if it could not be aborted; an error only when a command is refused, which, unless HAProxy refuses what it could do, is exactly when the certificate is missing |
| `RuntimeCertificates.CertificateUpdater.RuntimeUpdateCrtList` | k8s/gate/haproxy/certificates.go:196-241 | adding and removing differences turns the runtime crt-list into the wanted one and leaves the others alone; an error only when a command is refused, which, unless HAProxy refuses what it could do, is exactly when the crt-list is missing |
| `RuntimeCertificates.CertificateUpdater.DeleteCerts` | k8s/gate/haproxy/certificates.go:63-101 | without error exactly those certificates are gone and no crt-list names them; when none is named, HAProxy is not asked to delete one in use; an error only when a command is refused, which, unless HAProxy refuses what it could do, is exactly when one of them is missing or still named |
| `RuntimeCertificates.CycleDeletesUnlisted` | k8s/gate/haproxy/certificates.go:63-101 | in every reachable cycle the certificates to delete are named by no crt-list after the cycle |
| `RuntimeCertificates.CertificateUpdater.ProcessThenReload` | hug/haproxy/main.go:107-172 | one cycle from any runtime: a reload that is asked for and taken makes it mirror the disk, whether the certificates or the configuration ask for it; without a request a mirroring runtime mirrors the disk again; one is requested if and only if crt-lists are created or deleted or a command is refused, and from a mirroring runtime if and only if the commands cannot all be carried out or HAProxy refuses one that can; when crt-lists are and it is not taken the runtime stays as it was |
| `RuntimeCertificates.Run` | k8s/gate/haproxy/certificates.go:28-101 | over every run with refused configurations: mirrored after every cycle when every requested reload was taken; and when only cycles that create or delete crt-lists missed theirs, if and only if each of these left the disk unchanged; every outcome on record is that of its cycle, and the last one that of the runtime; as long as it mirrors, no certificate in use is asked to be deleted; where it mirrors throughout, the cycles that request a reload are exactly those that create or delete crt-lists, cannot be carried out, or are refused what could be |
| `RuntimeCertificates.AcceptableExactly` | k8s/gate/haproxy/certificates.go:63-101 | from exact files all commands of a cycle can be carried out if and only if no still-referenced secret gains the key pair it lacked, none without a file is deleted or dropped, and no listener without a crt-list has one to update |
| `RuntimeCertificates.MirroredThroughout` | k8s/gate/handler/tree.go:120-122 | the three statements on the outcomes of the cycles alone |
| `RuntimeCertificates.LostReload` | k8s/gate/handler/tree.go:120-122 | after a refused cycle that creates a crt-list and a batch without secret and gateway events, no reload is requested for it, and the runtime mirrors the disk if and only if the second configuration is applied with a reload of its own |
| `RuntimeCertificates.FirstCreatesList` | k8s/gate/tree/certificate_builder.go:228-243 | the first batch with any gateway that references a secret is such a cycle |
| `RuntimeCertificates.IdleCycle` | k8s/gate/tree/certificate_builder.go:75-122 | a batch without secret and gateway events has no certificate or crt-list diffs and leaves the disk as it was |
| `EventLoops.ExactlyOnce` | k8s/gate/handler/monitor.go:98-157 | delivered batches followed by the pending one are the arrivals in order; batches are numbered 1, 2, 3 and never empty |
| `EventLoops.TimerOrHandler` | k8s/gate/handler/monitor.go:98-190 | from the first event to cancellation exactly one of timer armed and handler running holds; a stopped loop has no handler in flight |
| `EventLoops.NoLostWakeUp` | k8s/gate/handler/monitor.go:98-190 | from every reachable state, finishing the handler and letting the timer fire delivers everything pending |
| `EventLoops.EventLoop.Append` | k8s/gate/handler/monitor.go:126-128 | Go's append: in place while there is capacity, else into a new array that leaves the old one as it was |
| `EventLoops.EventLoop.OnEvent` | k8s/gate/handler/monitor.go:126-133 | one step of the machine; what a running handler reads does not change |
| `EventLoops.EventLoop.OnTimer` | k8s/gate/handler/monitor.go:135-144 | one step of the machine, over the same two arrays |
| `EventLoops.EventLoop.OnHandlingDone` | k8s/gate/handler/monitor.go:145-147 | one step of the machine |
| `EventLoops.EventLoop.OnCancel` | k8s/gate/handler/monitor.go:119-125 | the loop stops only after the running handler is done |
| `EventLoops.EventLoop.SwapBatches` | k8s/gate/handler/monitor.go:153-157 | the pending batch becomes current and the other array is reused, emptied and numbered next |
| `EventLoops.EventLoop.Receive` | k8s/gate/handler/monitor.go:98-150 | whatever arrives, the class takes the machine's step and a handler that keeps running still sees its batch |
| `EventLoops.EventLoop.Start` | k8s/gate/handler/monitor.go:98-150 | over every feasible sequence of inputs the loop with its two reused arrays refines the machine |
| `PortConflicts.GatewayBuilder.RunCycle` | k8s/gate/tree/gateway_builder.go:55-95 | after every cycle no valid listener of a valid managed gateway shares its port, and every gateway is where its update or its class check puts it; conflicts are marked exactly for the managed gateways when none without an update lost its class, and otherwise for these together with the ones that left that way; a managed gateway is valid if and only if its class and parameters are and none of its listeners shares its port or one of its ports has a single listener; a listener of a gateway built in the cycle is valid if and only if its protocol is supported, its route kinds and certificates pass where they are checked, and it is not conflicted; a gateway left alone is what it was |
| `PortConflicts.TabledIsExact` | k8s/gate/tree/gateway.go:225-261 | the two statements on validity, from the port tables to the listeners of the tree |
| `PortConflicts.NoneLostIsExact` | k8s/gate/tree/gateway_builder.go:200-248 | when no gateway without an update lost its class, the port tables count exactly the listeners of the managed gateways |
| `PortConflicts.SettledIsExclusive` | k8s/gate/tree/gateway_listener.go:255-326 | settled entries of a tree that only lost gateways since the tables were made keep ports exclusive and conflicts exact |
| `PortConflicts.UntouchedStaysSettled` | k8s/gate/tree/gateway_builder.go:200-248 | a gateway in neither the previous nor the new conflicts needs no rebuild |
| `PortConflicts.GatewayBuilder.ComputeGateTreeUpdates` | k8s/gate/tree/gateway_builder.go:65-95 | updates, tables, re-validation and building leave every entry settled for the new tables |
| `PortConflicts.GatewayBuilder.ComputeTreeGatewayUpdate` | k8s/gate/tree/gateway_builder.go:97-126 | one update changes one entry and files it as managed, unmanaged or deleted |
| `PortConflicts.GatewayBuilder.ProcessManagementChecks` | k8s/gate/tree/gateway_builder.go:128-145 | the class check decides between the two trees and validity |
| `PortConflicts.GatewayBuilder.ListenersByPort` | k8s/gate/tree/gateway_builder.go:200-220 | each port maps to as many entries as listeners on it, naming their gateways |
| `PortConflicts.GatewayBuilder.MakeTables` | k8s/gate/tree/gateway_builder.go:200-228 | ports with one and with several listeners, exactly |
| `PortConflicts.GatewayBuilder.GatewaysWithPortConflicts` | k8s/gate/tree/gateway_builder.go:251-268 | the gateways named by the conflict table |
| `PortConflicts.GatewayBuilder.CheckListenerConflicts` | k8s/gate/tree/gateway_builder.go:200-248 | afterwards every entry left alone is settled for the new tables as well |
| `PortConflicts.GatewayBuilder.ResetListenerConflicts` | k8s/gate/tree/gateway_builder.go:189-196 | the last conflict table is kept as the previous one |
| `PortConflicts.GatewayBuilder.CleanTreeUpdates` | k8s/gate/tree/tree.go:151-161 | deleted gateways are dropped, the others unchanged, and still settled |
| `PortConflicts.GatewayBuilder.BuildGateway` | k8s/gate/tree/gateway_builder.go:65-95 | a pending gateway becomes settled; it is valid if and only if its checks passed and no listener conflicts or some port is free, and its listeners exactly when they pass theirs |
| `PortConflicts.GatewayBuilder.CheckGatewayConflicts` | k8s/gate/tree/gateway.go:225-261 | fails exactly when some listener is conflicted and no port of the gateway is free |
| `PortConflicts.GatewayBuilder.BuildListeners` | k8s/gate/tree/gateway_builder.go:152-187 | one checked listener per name of the spec, valid exactly when it passes what its protocol calls for |
| `PortConflicts.GatewayBuilder.CheckListener` | k8s/gate/tree/gateway_listener.go:139-279 | the checks the protocol calls for; the conflict check says conflicted exactly when the gateway passed and the port has several listeners |
| `PortConflicts.GatewayBuilder.BuildConditions` | k8s/gate/tree/gateway_listener.go:287-326 | a listener is valid exactly when no check contributed a condition, and conflicted in its conditions exactly when the conflict check said so; every reason, contributed or default, is fixed |
| `Configurations.OpsConsistent` | k8s/gate/haproxy/configuration.go:47-257 | after any operations of a cycle the three diffs and the configuration are consistent, name by name |
| `Configurations.ReplayExact` | k8s/gate/haproxy/configuration.go:47-257 | replaying created, updated, deleted on the cycle's start gives the final configuration if and only if no deleted name is present; every edit and delete hits |
| `Configurations.ExistingIsDropped` | k8s/gate/haproxy/configuration.go:47-257 | an existing name deleted and put again is created and deleted by the diffs: everything hits, and the replay is without it |
| `Configurations.RecreatedIsDropped` | k8s/gate/haproxy/configuration.go:47-257 | a new name put, deleted and put again is created and deleted by the diffs: everything hits, and the replay is without it |
| `Configurations.RecreateExisting` | hug/haproxy/api/backend.go:29-45 | with a backend the receiver has, deleted and upserted in one cycle: accepted unless the transaction fails, and then absent at the receiver but not at the controller |
| `Configurations.RecreateNew` | hug/haproxy/main.go:107-213 | with a backend the receiver does not have, upserted, deleted and upserted again: accepted unless the transaction fails, and absent at the receiver but not at the controller |
| `Configurations.TwoPassesReplayable` | k8s/gate/haproxy/backends.go:94-127 | two passes of upserts before deletes, the second repeating the deletes of the first, leave nothing configured that they deleted; and the names in the end |
| `Configurations.StepFollowed` | k8s/gate/haproxy/configuration.go:47-257 | any operation but creating a name already deleted in the cycle keeps the diffs replayable |
| `Configurations.FollowedIsReceived` | hug/haproxy/main.go:107-172 | then every edit and delete hits and the replay is the controller's configuration |
| `Configurations.LostNameRefuses` | hug/haproxy/main.go:107-152 | when the receiver lacks a name the controller has, a cycle that drops or changes it without creating it anew misses |
| `Configurations.NoResurrectionReplayable` | k8s/gate/haproxy/configuration.go:47-257 | cycles that never create a name they deleted are replayable |
| `Configurations.ReceiverTracks` | hug/haproxy/main.go:133-141 | the receiver has the controller's configuration after every cycle of a run if and only if every cycle is replayable |
| `Configurations.Configuration.UpsertFrontend` | k8s/gate/haproxy/configuration.go:47-93 | created, updated or untouched, as the operation on values says; backends untouched |
| `Configurations.Configuration.DeleteFrontend` | k8s/gate/haproxy/configuration.go:95-115 | deleted if present, else nothing |
| `Configurations.Configuration.UpsertBackend` | k8s/gate/haproxy/configuration.go:117-166 | servers do not count in the comparison and are kept on update |
| `Configurations.Configuration.UpsertBackendWithServers` | k8s/gate/haproxy/configuration.go:168-216 | the servers are replaced; those that disappear are exactly the ones put in maintenance; an unknown backend is an error |
| `Configurations.Configuration.UpsertBackendMetadata` | k8s/gate/haproxy/configuration.go:218-238 | only the metadata of an existing backend is replaced |
| `Configurations.Configuration.DeleteBackend` | k8s/gate/haproxy/configuration.go:240-257 | deleted if present, else nothing; frontends untouched |
| `Configurations.Configuration.ResetAllDiffs` | k8s/gate/haproxy/configuration.go:39-45 | a cycle starts with empty diffs and the same configuration |
| `Configurations.Receiver.ApplyCfgUpdates` | hug/haproxy/main.go:107-172 | all or nothing: an error exactly when the transaction fails or some edit or delete misses, else the replay of the diffs |
| `Configurations.Receiver.CreateAll` | hug/haproxy/main.go:174-213 | no error: what exists is edited |
| `Configurations.Receiver.Create` | hug/haproxy/api/backend.go:29-45 | a create that fails because the name exists is made up for by an edit, without error; frontends likewise |
| `Configurations.Receiver.EditAll` | hug/haproxy/main.go:245-288 | an error exactly when an edited name is missing |
| `Configurations.Receiver.DeleteAll` | hug/haproxy/main.go:215-243 | an error exactly when a deleted name is missing |
| `Configurations.SendCycle` | hug/haproxy/main.go:107-172 | after arbitrary calls in a cycle, sending is refused only when the transaction fails, the receiver then being unchanged; otherwise both sides are equal if and only if the cycle is replayable |
| `FrontendOwnership.FrontendManager.RunCycle` | k8s/gate/haproxy/frontends.go:63-96 | after the first sync and every later cycle the configured names are exactly the union of the owned sets; a processed gateway that names a listener owns exactly its valid listeners' names, others what they did; the frontends of every valid listener processed have that listener's settings; the diffs of the cycle are replayable and the backends untouched; frontends no processed gateway looked at stay as they were, or go |
| `HaproxyConfMgrs.RunCycles` | k8s/gate/haproxy/haproxyconf_mgr.go:104-168 | over every run from the first sync, with equal sides at its start: frontends and backends are equal after every cycle when no transaction fails, and if and only if every cycle with a failed transaction was to change nothing; the configured backends are the owned ones after every cycle if and only if each cycle keeps what is owned |
| `HaproxyConfMgrs.HaproxyConfMgr.RunCycle` | hug/haproxy/main.go:107-172 | frontends and backends in one transaction: from equal sides it is refused only when the transaction fails, whatever the cycle does, and otherwise the sides are equal again; from any sides also when an edit or delete misses; refused, the receiver keeps both; with frontends and backends as their cycles leave them |
| `HaproxyConfMgrs.HaproxyConfMgr.ComputeDiffs` | k8s/gate/haproxy/haproxyconf_mgr.go:104-168 | from one reset, the diffs of both sections are ones the receiver follows, with nothing configured that was deleted; the frontends are owned and set up as in their cycle; the configured backends, and what each holds |
| `HaproxyConfMgrs.LostBackend` | hug/haproxy/main.go:107-152 | after a cycle that configured a backend and whose transaction failed, a cycle that drops or changes the backend without creating it anew is refused, however its own transaction goes |
| `HaproxyConfMgrs.ContestedIsDropped` | k8s/gate/haproxy/backends.go:94-160 | a backend that one HTTP route gives up and another calls for in the same batch is deleted and still owned, whatever TLS routes there are |
| `HaproxyConfMgrs.ConfiguredAreOwned` | k8s/gate/haproxy/backends.go:94-160 | a cycle that starts with exactly the owned backends configured ends so if and only if it deletes none that is owned and upserts all that are newly owned |
| `HaproxyConfMgrs.SharedIsDropped` | k8s/gate/haproxy/backends.go:142-172 | a backend that one HTTP route gives up and an untouched one owns is deleted and still owned |
| `HaproxyConfMgrs.RunsStay` | hug/haproxy/main.go:107-172 | the equivalences over runs, on the records of the cycles alone |
| `FrontendOwnership.CycleSetUp` | k8s/gate/haproxy/frontends.go:138-205 | the frontends set up for upserted gateways survive the cleanups of the cycle, with the settings their listeners asked for |
| `FrontendOwnership.OwnedAfterCycle` | k8s/gate/haproxy/frontends.go:63-205 | deleting and adding what a cycle touched, then dropping what processed gateways lost, leaves exactly the renewed owned names |
| `FrontendOwnership.FrontendManager.ProcessManaged` | k8s/gate/haproxy/frontends.go:66-77 | any order over the managed gateways gives the same names, owned sets and first-sync set |
| `FrontendOwnership.FrontendManager.ProcessUnmanaged` | k8s/gate/haproxy/frontends.go:80-84 | likewise over the unmanaged ones, every cycle |
| `FrontendOwnership.FrontendManager.UpsertFrontends` | k8s/gate/haproxy/frontends.go:138-177 | a valid gateway's valid listeners are configured and collected, the others removed |
| `FrontendOwnership.FrontendManager.DeleteFrontendForAllListeners` | k8s/gate/haproxy/frontends.go:487-500 | the frontends of all listeners of the spec are removed; without a spec nothing happens |
| `FrontendOwnership.FrontendManager.DeleteFrontendForListener` | k8s/gate/haproxy/frontends.go:502-529 | one name leaves the configuration, the collected set and, in the first sync, the names to keep |
| `FrontendOwnership.FrontendManager.AddToUpdated` | k8s/gate/haproxy/frontends.go:557-562 | one name is added to the collected set, created when missing |
| `FrontendOwnership.FrontendManager.RemoveFromUpdated` | k8s/gate/haproxy/frontends.go:564-571 | one name is removed from the collected set, created when missing |
| `FrontendOwnership.FrontendManager.CleanupFrontendsForGateways` | k8s/gate/haproxy/frontends.go:179-197 | exactly the names that processed gateways had and have no more are deleted |
| `FrontendOwnership.FrontendManager.FinalizeFrontendsByGateway` | k8s/gate/haproxy/frontends.go:199-205 | the collected sets replace the current ones, while the map iterated over shrinks |
| `FrontendOwnership.FrontendManager.CleanupAfterFirstSync` | k8s/gate/haproxy/haproxyconf_mgr.go:173-215 | only the first time, every frontend not seen in the first sync is deleted |
| `BackendOwnership.BackendManager.Add` | k8s/gate/haproxy/backends.go:414-422 | the nested index gains one owner, creating missing inner maps |
| `BackendOwnership.BackendManager.Remove` | k8s/gate/haproxy/backends.go:432-442 | the nested index loses one owner, if it is there |
| `BackendOwnership.BackendManager.GetBackendsReferencedBy` | k8s/gate/haproxy/backends.go:452-464 | exactly the backends the route owns |
| `BackendOwnership.Gain` | k8s/gate/haproxy/backends.go:414-422 | adding changes the ownership of one backend by one route and of nothing else |
| `BackendOwnership.Lose` | k8s/gate/haproxy/backends.go:432-442 | removing changes the ownership of one backend by one route and of nothing else |
| `BackendOwnership.BackendManager.UpsertRule` | k8s/gate/haproxy/backends.go:187-223 | a valid rule's valid references, and only those, are added and queued |
| `BackendOwnership.BackendManager.UpsertRouteBackends` | k8s/gate/haproxy/backends.go:184-239 | the route owns exactly the backends named by valid references of valid rules, at its generation; other routes and types keep theirs; what it no longer names is recorded as unreferenced |
| `BackendOwnership.BackendManager.OnRemovedRoute` | k8s/gate/haproxy/backends.go:142-160 | an invalid or deleted route owns nothing and all it owned is queued for deletion, whoever else owns it |
| `BackendOwnership.BackendManager.ProcessRoutes` | k8s/gate/haproxy/backends.go:94-127 | after a pass in any order each touched route owns what is due to it and the rest own what they did; nothing empty is left at any depth; the deletion queue gains exactly the given-up and the orphaned backends, the upsert queue exactly the backends called for, the unreferenced queue exactly those that upserted valid routes owned and call for no more |
| `BackendCycles.BackendCycle.RunCycle` | k8s/gate/haproxy/backends.go:94-127 | after both passes over the routes and both over the queues, ownership is renewed by HTTP and then by TLS routes; the diffs are ones the receiver follows, even when the first pass deletes what the second upserts; exactly the backends of before and the upserted ones without the deleted ones are configured, those of before only after the first sync; each of them has the settings last built for it, or the ones it had, the servers it had, and the metadata of the last pass that refreshed or built it |
| `BackendCycles.PassesContents` | k8s/gate/haproxy/backends.go:638-765 | what two passes of merging, refreshing and deleting leave in each backend |
| `BackendCycles.BackendCycle.CleanupAfterFirstSync` | k8s/gate/haproxy/haproxyconf_mgr.go:173-215 | only the first time, exactly the configured backends not seen in the first sync are deleted |
| `BackendCycles.BackendCycle.ProcessBackendsUpserted` | k8s/gate/haproxy/backends.go:638-699 | exactly the queued backends that have a kind of owner and can be built are put, in any order, and noted in the first sync; each gets what was built for it and keeps its servers |
| `BackendCycles.BackendCycle.ProcessBackendsUnreferenced` | k8s/gate/haproxy/backends.go:701-750 | nothing is created; the backends without a kind of owner are deleted and the others get exactly the metadata built for them, nothing else changing |
| `BackendCycles.BackendCycle.ProcessBackendsDeleted` | k8s/gate/haproxy/backends.go:752-765 | exactly the queued names are deleted |
| `BackendOwnership.BackendManager.CleanupUnreferencedBackends` | k8s/gate/haproxy/backends.go:466-488 | ownership is preserved, no empty inner map is left, and exactly the backends without owners are removed and queued |
| `BackendOwnership.CleanedTwice` | k8s/gate/haproxy/backends.go:466-488 | pruning HTTP then TLS owners leaves the index pruned with the same ownership |
| `BackendOwnership.PrunedIsOwned` | k8s/gate/haproxy/backends.go:473-488 | in a pruned index a backend is present if and only if some route owns it |
| `BackendOwnership.CheckKeyShared` | k8s/gate/utils/keymap.go:151-163 | two plain backend references share their check if and only if they differ at most in port and filters |
| `BackendOwnership.RefNameMeans` | k8s/gate/haproxy/backends.go:187-205 | a backend is named after service, port, 0 when missing, and for HTTP routes the filters |
| `BackendOwnership.ServiceKey` | k8s/gate/tree/route-rule.go:71-82 | the namespace of the route for a missing or empty one, else that of the reference |
| `Hostnames.GetHostnamesForRouteWithListener` | k8s/gate/utils/utils.go:189-219 | for a listener with a hostname the list is sorted and duplicate-free; it stands for exactly the hosts both sides allow, unless neither restricts anything |
| `Hostnames.AnswerExact` | k8s/gate/utils/utils.go:184-219 | the list stands for exactly the shared hosts if and only if the listener has a hostname or the route names one |
| `Hostnames.SharedHosts` | k8s/gate/utils/utils.go:221-229 | two hostnames share exactly the hosts of the narrower one, if they overlap, wildcards on either or both sides |
| `Hostnames.MatchingDenotes` | k8s/gate/utils/utils.go:221-229 | the suffix test holds exactly for the hosts a hostname stands for |
| `Hostnames.WildcardDenotes` | k8s/gate/utils/utils.go:221-229 | a star, a dot and a domain stand for exactly the hosts that end in the dot and the domain |
| `Hostnames.WildcardForm` | k8s/gate/utils/utils.go:221-229 | exactly these hostnames are wildcards |
| `Hostnames.NameDenotes` | k8s/gate/utils/utils.go:221-229 | any other hostname stands for itself alone |
| `Hostnames.MatchHostname` | k8s/gate/tree/HTTPRoute.go:328-343 | the loop's answer, for all lists |
| `Hostnames.MatchIsOverlap` | k8s/gate/tree/HTTPRoute.go:345-369 | the attachment test and the acceptance test, written differently, agree on every pair |
| `Hostnames.AttachedIffServed` | k8s/gate/tree/HTTPRoute.go:328-343 | a route attaches exactly when it gets hostnames, if and only if empty hostnames do no harm, or for a listener without hostname the route has some |
| `Hostnames.AttachedIffSharesHost` | k8s/gate/tree/HTTPRoute.go:326-343 | a route attaches exactly when some host is allowed by both, if and only if empty hostnames do no harm |
| `Hostnames.ValidAttachedIffServed` | k8s/gate/tree/HTTPRoute.go:328-343 | on non-empty hostnames a route attaches exactly when it gets hostnames, except on an unrestricted listener with an unrestricted route |
| `Hostnames.EmptyHostnameDisagrees` | k8s/gate/tree/HTTPRoute.go:328-343 | for an empty route hostname, which API validation forbids, the attachment test accepts any listener hostname and the hostname list is empty |
| `ServerCommands.RuntimeSetServerAddrAndState` | k8s/gate/haproxy/runtime.go:38-94 | the payloads sent are the greedy packing of all commands, all accepted, or up to and including the first that is not |
| `ServerCommands.RawSocket.RunRaw` | k8s/gate/haproxy/runtime.go:96-111 | one payload is sent; fails exactly when the socket fails or the answer carries a severity |
| `ServerCommands.RefusedForm` | k8s/gate/haproxy/runtime.go:99-108 | an answer refuses exactly when it is a severity of 0 to 3 in brackets, a colon, and at least two characters |
| `ServerCommands.CommandReads` | k8s/gate/haproxy/runtime.go:54-74 | split at semicolons and then at spaces, the text of a server reads back as the two commands with their words if and only if no field holds either; the port reads as its number |
| `ServerCommands.GroupsKeepAll` | k8s/gate/haproxy/runtime.go:54-93 | the payloads concatenate to all commands in order and cut none |
| `ServerCommands.PayloadsWithinBound` | k8s/gate/haproxy/runtime.go:54-93 | every payload is non-empty and shorter than the buffer if and only if every command is shorter |
| `ServerCommands.OversizedSendsEmpty` | k8s/gate/haproxy/runtime.go:75-82 | an oversized first command makes the first payload empty |
| `ServerCommands.CommandLength` | k8s/gate/haproxy/runtime.go:54-74 | the length of the two commands of a server, from the lengths of its fields |
| `ServerCommands.MaintenanceWithinBound` | k8s/gate/haproxy/runtime.go:54-93 | for the servers the program sends, all payloads are non-empty and within the bound if and only if no backend and server name have 7970 characters together; if the first do, the first payload is empty |
| `ServerCommands.DefaultNamesFit` | k8s/gate/config/defaults.go:28-30 | with the default name templates, Kubernetes names and a link below 7500 characters every command is within the bound |
| `ServerCommands.GreedyStaysAhead` | k8s/gate/haproxy/runtime.go:54-93 | against any order-preserving split within the bound the packing has no more groups, and with as many no longer last one |
| `ServerCommands.FewestPayloads` | k8s/gate/haproxy/runtime.go:54-93 | no order-preserving split within the bound uses fewer payloads |
| `ServerCommands.TriedIsPrefix` | k8s/gate/haproxy/runtime.go:75-93 | whatever fails, the commands in the payloads tried are a prefix of all commands |
| `ParentRefs.KeyRoundTrip` | k8s/gate/utils/keymap.go:93-149 | exactly the keys of five parts stand for a reference, and each is the key of that reference |
| `ParentRefs.RefRoundTrip` | k8s/gate/utils/keymap.go:93-149 | a reference survives its key if and only if it has no port, no colon and no field equal to the placeholder |
| `ParentRefs.KeyReadable` | k8s/gate/utils/keymap.go:93-149 | the key of a reference reads back at all if and only if no field holds a colon |
| `ParentRefs.KeyInjective` | k8s/gate/utils/keymap.go:91-104 | plain references with the same key differ at most in the port |
| `ParentRefs.RefLessStrictTotal` | k8s/gate/status/status_patcher.go:219-247 | the comparator is asymmetric, and two references are unordered only when equal |
| `ParentRefs.RefLessTransitive` | k8s/gate/status/status_patcher.go:219-247 | the comparator and its complement are transitive |
| `ParentRefs.PointersCompose` | k8s/gate/utils/utils.go:146-159 | a total order on optional strings |
| `ParentRefs.NilComesFirst` | k8s/gate/utils/utils.go:146-159 | nil before non-nil, and otherwise by value, upwards |
| `Text.LessMeans` | k8s/gate/utils/utils.go:146-159 | a string is before another if and only if it is a proper prefix or has the smaller character at the first difference |
| `RouteStatuses.StatusPatcher.SetStatus` | k8s/gate/status/status_patcher.go:198-217 | the new list is sorted, keeps the entries of other controllers as a multiset, and is recognised from then on if and only if the conditions settle |
| `RouteStatuses.StatusPatcher.StatusEqual` | k8s/gate/status/status_patcher.go:183-196 | equal exactly when the cluster's own entries read back as the conditions |
| `RouteStatuses.StatusPatcher.FilterStatusByControllerName` | k8s/gate/status/status_patcher.go:249-259 | filtering first does not change what is read back |
| `RouteStatuses.NewStatusSettles` | k8s/gate/status/status_patcher.go:183-217 | for every prior status and every iteration order, writing then comparing gives equal if and only if the name is ours, every key stands for a reference and conditions are filed under their own type |
| `RouteStatuses.OthersKept` | k8s/gate/status/status_patcher.go:204-215 | other controllers' entries are kept as a multiset |
| `RouteStatuses.WrittenRefs` | k8s/gate/status/status_patcher.go:198-217 | the new list names, for the controller, exactly the references the reported keys stand for |
| `RouteStatuses.WrittenEntries` | k8s/gate/status/status_patcher.go:198-217 | every entry written lists exactly the conditions under its key |
| `RouteStatuses.RecognisedEntries` | k8s/gate/status/status_patcher.go:183-196 | so does every entry of a list that compares equal, if it has one entry for each reference and one condition of each type, as written ones have |
| `RouteStatuses.RecognisedRefs` | k8s/gate/status/status_patcher.go:183-196 | so does a list that compares equal, if its own entries name plain references, as written ones do |
| `RouteStatuses.SortByParentRef` | k8s/gate/status/status_patcher.go:219-247 | a permutation in the comparator's order |
| `RouteStatuses.RefiledSame` | k8s/gate/conditions/generic/conditions.go:38-89 | conditions listed in any order and read back compare equal if and only if they were filed under their own type, up to one blank entry |
| `RouteStatuses.ConditionsEqual` | k8s/gate/conditions/generic/conditions.go:38-48 | same size and every entry read as the same, a missing one reading as blank |
| `RouteStatuses.ToMetav1Conditions` | k8s/gate/conditions/generic/conditions.go:75-89 | each condition once, in any order |
| `RouteStatuses.NewRouteConditions` | k8s/gate/conditions/routes/conditions-route.go:68-90 | the entries of one controller merged by key |
| `RouteStatuses.RouteConditionsEqual` | k8s/gate/conditions/routes/conditions-route.go:36-59 | equal exactly when every key stands for a reference whose conditions on the other side are the same |
| `RouteStatuses.ToV1RouteConditions` | k8s/gate/conditions/routes/conditions-route.go:92-111 | one entry per key that stands for a reference; other keys are skipped |
| `RouteStatuses.MergeOverrideConditionsForParentRef` | k8s/gate/conditions/routes/conditions-route.go:27-34 | conditions override by type, and stay tidy exactly for references without colons |
| `RouteStatuses.SetGeneration` | k8s/gate/conditions/generic/conditions.go:50-55 | every condition filed under its own type gets the generation and stays there |
| `RouteStatuses.SetRouteGeneration` | k8s/gate/conditions/routes/conditions-route.go:61-66 | the generation of every condition filed under its own type, for every parent there is |
| `RouteStatuses.TidySettles` | k8s/gate/conditions/routes/conditions-route.go:27-59 | readable keys and own-type conditions settle: what is written from them is recognised |
| `HTTPRoutes.TreeRoute.WriteStatus` | k8s/gate/status/status.go:229-280 | for the conditions of any managed route, any prior status and any parent references: nothing is written if and only if they are there already; afterwards they are, so the next reconciliation writes nothing; our entries name the references reported and their conditions are of generation 0; other controllers' entries are kept; our entries list exactly the conditions reported |
| `HTTPRoutes.TreeRoute.Upsert` | k8s/gate/tree/HTTPRoute.go:142-203 | a route is managed if and only if some parent reference attaches to a listener; then exactly the managed references whose key reads back are reported, by their keys; the references reported are the managed ones if and only if all of these are plain, without port; under the key of a managed reference that reads back stands Accepted if and only if the reference attaches, and otherwise a refusal for a reason that some listener looked at gives or that there is no such parent, if there is one (for references that agree on all their key keeps); and whether the backends are resolved |
| `HTTPRoutes.ReportRoute` | k8s/gate/tree/HTTPRoute.go:142-203 | from spec to status: our entries name exactly the managed references of the spec if and only if all of these are plain; every managed reference whose key reads back has an entry, and it says what the check of the reference says |
| `HTTPRoutes.PortIsLost` | k8s/gate/utils/keymap.go:93-149 | a managed reference to port 80 is reported as the one without port |
| `HTTPRoutes.PortExample` | k8s/gate/utils/keymap.go:93-149 | a route with two references to ports of one gateway, whose status has neither |
| `HTTPRoutes.TreeRoute.CheckParentRefs` | k8s/gate/tree/HTTPRoute.go:150-203 | conditions are kept for exactly the references to managed gateways; valid if and only if one of them attaches; the conditions kept say of each reference what its check says |
| `HTTPRoutes.CheckParentRef` | k8s/gate/tree/HTTPRoute.go:214-309 | managed if and only if the kind is supported and the gateway is in the managed tree; valid, with Accepted, if and only if the named listener, or without a name any, is valid, shares a hostname and allows the kind; otherwise refused for a reason that holds |
| `HTTPRoutes.CheckListeners` | k8s/gate/tree/HTTPRoute.go:262-292 | in any order exactly the attachable listeners are collected, and a refusal is contributed if and only if some listener refuses, with the reason of one that does |
| `HTTPRoutes.IsAllowedRouteKind` | k8s/gate/tree/HTTPRoute.go:311-324 | some allowed kind is this one, in this group or in none |
| `HTTPRoutes.IsParentRefGroupKindSupported` | k8s/gate/utils-k8s/supported.go:70-82 | exactly references to Gateways of the Gateway API, by name or by default |
| `HTTPRoutes.GatewayKeyOf` | k8s/gate/tree/HTTPRoute.go:393-416 | the namespace of the route for a missing one, else that of the reference |
| `HTTPRoutes.TreeRoute.BuildConditions` | k8s/gate/tree/HTTPRoute.go:371-391 | only a managed route reports; exactly the keys that read back are kept, so what is reported is tidy; all of it is of generation 0, whatever the generation of the route; each key keeps the conditions it had |
| `HTTPRoutes.TreeRoute.MergeBackendConditions` | k8s/gate/tree/HTTPRoute.go:432-472 | every reported parent gets the outcome of the backend references, resolved if and only if all of all rules are, and else the condition of one that is not; what it reports on acceptance stays |
| `HTTPRoutes.ResolvedConditions` | k8s/gate/tree/HTTPRoute.go:432-460 | the condition of some failing reference, in any order, or resolved if and only if there is none |
| `InstalledVersions.InstalledVersionsBuilder.Build` | k8s/gate/tree/installed_versions.go:60-76 | in any order of the updates every counter ends as the number of stored CRDs with that version and none is zero; it crashes exactly when a deletion has no old object; the verdict is that of the stored CRDs |
| `InstalledVersions.InstalledVersionsBuilder.BuildUpserted` | k8s/gate/tree/installed_versions.go:78-102 | counters follow one CRD from its old version to its new one |
| `InstalledVersions.InstalledVersionsBuilder.BuildDeleted` | k8s/gate/tree/installed_versions.go:104-110 | counters follow one CRD away, dropping a zero entry |
| `InstalledVersions.InstalledVersionsBuilder.OnUpdateInstalledVersion` | k8s/gate/tree/installed_versions.go:113-131 | the flag is raised the first time and whenever the verdict changed |
| `InstalledVersions.InstalledVersionsBuilder.CheckSupportedVersion` | k8s/gate/tree/installed_versions.go:138-150 | valid exactly when every stored CRD has a supported version |
| `InstalledVersions.InstalledVersionsBuilder.CleanUpdated` | k8s/gate/tree/controller_store.go:46-50 | the flag is lowered unless it was never set |
| `InstalledVersions.RunBatches` | k8s/gate/tree/installed_versions.go:60-110 | over every run the counters stay exact, and it stops exactly at the first batch in which a CRD came and went; the flag is raised exactly by the first batch that touches a CRD and by those that change the verdict on all of them, and lowered in between |
| `InstalledVersions.FleetingExample` | k8s/gate/tree/installed_versions.go:104-110 | a CRD installed and removed in one batch is one that came and went |
| `MapFiles.WriteOnDisk` | k8s/gate/haproxy/storage/maps.go:138-160 | one line per entry in some order of the keys |
| `MapFiles.ReadKeyValueFile` | k8s/gate/fileutils/fileutils.go:11-40 | the entries of the lines, later ones winning, or an error if a line exceeds the scanner's buffer; a missing file is empty |
| `MapFiles.ParsedMeans` | k8s/gate/fileutils/fileutils.go:11-40 | a key has the value of the last line that gives one, and none if no line does |
| `MapFiles.ParseLineMeans` | k8s/gate/fileutils/fileutils.go:25-32 | only the first separator counts; both sides are trimmed, and a blank key is none |
| `MapFiles.LinesMean` | k8s/gate/fileutils/fileutils.go:19-25 | the lines hold no line break and, joined, give the file back up to a last one |
| `MapFiles.ReadIsClean` | k8s/gate/fileutils/fileutils.go:11-40 | whatever a file holds, what is read is clean |
| `MapFiles.WriteThenRead` | k8s/gate/haproxy/storage/maps.go:138-160 | for every write order, reading gives the same map back if and only if it is clean and its lines fit |
| `MapFiles.RoundTrip` | k8s/gate/haproxy/storage/maps.go:122-160 | the two methods one after the other return the map if and only if it is clean and its lines fit |
| `MapFiles.SpacedKeyIsLost` | k8s/gate/fileutils/fileutils.go:25-32 | a key with a space does not come back |
| `MapFiles.TrimSpaceTrims` | k8s/gate/fileutils/fileutils.go:27-28 | trimming cuts off spaces at both ends and nothing else, gives trimmed text and is the identity exactly on trimmed text |
| `MapFiles.SpacesAre` | k8s/gate/fileutils/fileutils.go:27-28 | the characters that count as spaces |
| `Keys.ListenerKeyRoundTrip` | k8s/gate/tree/gateway_listener.go:339-380 | decoding a listener key gives gateway and listener name back if and only if neither holds the separator |
| `Keys.ListenerKeyDecoded` | k8s/gate/tree/gateway_listener.go:370-380 | whatever decodes is the key of what it decodes to |
| `Keys.ListenerKeyInjective` | k8s/gate/tree/gateway_listener.go:339-348 | different listeners have different keys |
| `Keys.CertPathRoundTrip` | k8s/gate/haproxy/storage/crt-list.go:166-183 | a certificate path decodes to its secret if and only if the names hold no separators |
| `Keys.CertPathInjective` | k8s/gate/haproxy/storage/cert.go:91-96 | different secrets have different certificate paths |
| `Keys.CrtListPathInjective` | k8s/gate/haproxy/storage/crt-list.go:47-52 | different listeners have different crt-list paths |
| `Sets.SetDifference` | k8s/gate/utils/utils.go:119-127 | exactly the keys of the first that are not in the second, in any order |
| `Sets.SetIntersection` | k8s/gate/utils/utils.go:129-137 | exactly the common keys, in any order |
| `Text.SortedListUnique` | k8s/gate/haproxy/storage/crt-list.go:54-62 | a set has one sorted duplicate-free list, so the order of collection does not matter |

## Left out

- The certificate and crt-list diffs are keyed here by the secret or listener they belong to and in the program by file name; `Keys.CertPathInjective` and `Keys.CrtListPathInjective` show the two agree on legal names. Names are assumed legal: no `_` in namespaces, gateway, listener or secret names, no `/`, secret names of two characters or more (the path takes the first two).
- Certificate bundles (`rsa`, `ecdsa`, `dsa` pairs) appear in `NewCertificateData` only; the runs are about secrets without them.
- HandleNewReferencedSecretsStorage: requires that live secrets hold no bundle and have names of two characters or more; which runs meet a shorter name is `CertificateRun.RunPanicsExactly`.
- HandleUpdatedSecretsStorage: the same for the updated secrets.
- ComputeCertificateDiffs: the same for both.
- NewTlsCertificateData: excludes bundles, which `NewCertificateData` has.
- EnsureCertificatesStorage: does not model failing writes and deletes, which the program logs and ignores.
- WriteOnDisk: does not model the error of a failed write.
- WriteCrtListOnDisk: does not model the error of a failed write.
- DeleteFromDisk: does not model the error of a failed removal.
- DeleteCrtListFromDisk: does not model the error of a failed removal.
- ProcessBatch: applies secret and gateway events only; the other kinds have stores of their own.
- BuildGateTree: runs the reference, secret and certificate steps only; gateways and routes have models of their own (`PortConflicts`, `HTTPRoute`), over their own state.
- HandleEventBatch: ends after the certificate step; configuration diffs and status are modelled apart from it.
- ExecuteRuntimeCertCommands: the contract orders deletes after crt-lists only; that creates come before updates is in the body.
- ApplyCfgUpdates: a transaction fails for no stated reason, at its start or at its end; any other error of the client library between has the same effect.
- BuildGateway: leaves out the gateway-level conditions.
- CheckListener: the outcomes of the route-kind and certificate checks are inputs.
- BuildConditions: leaves out the messages and the generation of listener conditions; the reasons of failed checks are those of the checks.
- UpsertFrontends: leaves out the early return when a frontend cannot be built; frontends can always be built here.
- CleanupAfterFirstSync: the two halves, frontends and backends, are methods of their two classes and each ends the share of its class; they touch different sections.
- ProcessRoutes: fills the queues of one pass; applying them to the configuration is `BackendCycles.BackendCycle.RunCycle`.
- SetGeneration: says nothing of conditions filed under another type, which the program never builds.
- SetRouteGeneration: says nothing of conditions filed under another type, which the program never builds.
- CheckSupportedVersion: whether one version is supported is a parameter.
- DeepCopy: copies values; that the copy shares no memory with the original is not expressed, as maps are values here.
- Disk writes and deletes succeed; a reload of HAProxy that is reached succeeds before the next cycle, although the program reloads asynchronously.
- Trees of gateways, listeners, routes and secrets hold values, so aliasing between tree nodes, their deep copies and `OldTreeResource` is not modelled; nor is the sharing of backend pointers between the stored configuration and emitted diffs, so nothing is claimed about diffs after they were sent.
- The gateway builder's messages, gateway-level conditions, attached routes and the checks behind route kinds, certificates, parameters and classes are inputs of the model; only their outcome matters to conflicts.
- Route builders with their moves between managed and unmanaged trees, and how a route's listeners and attached routes are recorded; `HTTPRoute` covers one route from its checks to its status, with the outcomes of its backend references as inputs. The port claims are about gateway-builder cycles.
- Frontend contents, naming templates (an injective function for frontends, any partial function for backends), metadata merging and backend building; frontends and backends are records of opaque settings that the model carries from the listener to the configuration.
- Building a backend and its metadata may fail; what can be built in each of the two passes is an input. Servers are assigned after a cycle, to backends that exist (`Configurations.Configuration.UpsertBackendWithServers`), and are not part of the combined cycle; nor is the test that spares sending empty diffs, which change nothing.
- `upsertTLSRouteBackends` and `upsertHTTPRouteBackends` are one method here, parameterised by the owner type; the queue of upserted backends keeps the last reference per backend and route.
- Filling of route map files (marked TODO in the program), dynamic map updates and servers' endpoint slices.
- Semantic versions: whether a version is supported is a parameter.
- The event loop's sleep time, logging and metrics; the goroutine of the handler is its start and its completion, and reads nothing but its batch.
- Strings are sequences of Unicode characters; text that is not valid UTF-8 is not modelled. `ServerCommands` counts characters as bytes, which they are for the names and addresses in commands.
- `sort.Slice` is any arrangement the comparator accepts; `sort.Strings` is a function.
- The gateway, gateway class and TLS route status patchers, which repeat the HTTP route one or compare flat lists.
