# Verified model of an island's state-changing tools

A network island keeps its subscribers in an encrypted local store, mirrors them into the document collection of
its mobile core, lends policy-only records to other islands, edits and signs its own configuration document, and
keeps its default route on the best uplink. This project models those tools in Dafny and proves what each step
keeps, what whole runs guarantee, and where a guarantee stops.

| module | what it models |
|---|---|
| `Results`, `Json` | options and results; JSON trees, their sorted compact text in JavaScript and Python, dictionary operations |
| `Canonical`, `Subscribers`, `Collections` | the comparison text of a document, the documents a store asks for, the collection |
| `Sync`, `SyncLaws`, `LiveSessions` | `db sync`, and what it guarantees beside a core that writes into the same documents |
| `Provisioned` | what the core finds in a document after a sync or an import, field by field |
| `Store` | the encrypted subscriber store |
| `Roaming`, `RoamingLaws` | exporting, importing and removing roamers |
| `Islands`, `Rigs` | many islands under any interleaving; test rigs that share one store |
| `Compose`, `ComposeLaws`, `ComposeGuard` | the stack parser of the unplug guard, a printer for compose trees, the verdict |
| `Wand`, `WandLaws` | the WAN failover daemon and the kernel state it manages |
| `Sites`, `Addressing`, `Prefixes`, `Plans` | the PCI check, prefixes, the overlap check and the address plan, and both checks on a document |
| `Signing`, `Drafts`, `Applying`, `ApplyingLaws` | the signed payload, locked identity and validation, staging and applying a draft |
| `Peering`, `Numbering` | peered islands, SUPI ranges and test IMSIs |

Each operation that changes state is a method on a class and ends in the state a specification function computes;
the theorems are about those functions. `dafny verify dfyconfig.toml` checks everything.

## Where the code and its promise differ

- `TrailingNewlineBlocksSync`: the field rules accept a final line break, which then makes the sync script a syntax
  error. `RunnableIff` gives the exact condition.
- A local subscriber whose IMSI a roamer's document holds is skipped and counted nowhere; `SyncAccounts` says so.
- An import that reports a conflict has written the other records (`RunImport`, `ImportPlaces`).
- `UnseenReplugStrands`: the active uplink is unplugged and replugged between two passes and gets its interface name
  back. Its table and the default route are gone and nothing restores them while its ping answers: with link and path
  alive it fails every pass, and if no other uplink passes there is no active uplink at all. `WorkingFailsIff` gives
  the exact condition of one pass, `StrandedUntil` that of any number.
- `StaleRouteStays`: until the first pass in which some uplink passes, a default route that was there stays.
- `StaleListingLosesRig`: `db sync` lists the store and then runs its script; a rig that adds and syncs in between is
  deleted from the core again. `RigLostIff` gives the exact condition for a whole run, `RigsSettleIff` for its end.
- `WordReadRightIff`: the compose parser splits a list item with a colon after key characters; the items for which
  that makes a difference are exactly those `Misread` describes, such as a listed network whose name has a colon.
- `UnsignedProductionRefused`: drafts are validated after their signature is dropped, and a production document
  needs one, so no run of apply ever writes a production document.
- `RetryRestartsNothing`: a retry after a failed restart finds no changed file.
- `CheckMissesNodeBase`: the header of the checks speaks of declared prefixes in general; only two are compared.
- `RatesFitIff`: below 3 kbit the floor of 1 kbit a class promises more than the link has.

## Model

| member | source | states |
|---|---|---|
| `Canonical.CanonEqualIffAgrees` | `sim-tools/resccom_sim/sync.py:95-123` | Two documents have the same comparison text exactly when they agree: same value at every depth after dropping the ignored keys, unwrapping number wrappers and reading undefined and unrepresentable numbers as null, in any key order. `Agrees` is defined by recursion on the two documents and never mentions the text. |
| `Canonical.NormalizeIdempotent` | `sim-tools/resccom_sim/sync.py:97-113` | Normalizing twice is normalizing once, so `canon` normalizing again at every level does no harm. |
| `Canonical.CanonIsSerialize` | `sim-tools/resccom_sim/sync.py:114-122` | The text `canon` builds piece by piece is the compact sorted-key JSON of the document with its ignored keys erased. |
| `Canonical.AgreesTransitive` | `sim-tools/resccom_sim/sync.py:114-122` | Agreement is an equivalence: it may be chained and turned around, as the arguments over many syncs do. |
| `Json.SerializeEqualIffSame` | `island-init/island_init/crypto.py:92-97` | Compact sorted-key JSON text is injective up to key order, for both JavaScript's and Python's string escapes and key order. |
| `Subscribers.DocsAgreeIff` | `sim-tools/resccom_sim/sync.py:164-184` | The documents of two subscribers agree exactly when IMSI, roaming flag, and key, OPc and AMF in upper case do; generated identifiers, label, notes and creation time are never seen. |
| `Subscribers.SlicesAgree` | `sim-tools/resccom_sim/sync.py:126-161` | The `slice` two documents carry agrees exactly when their Local Breakout flags do, whatever identifiers were generated. |
| `Collections.Collection.ReplaceOne` | `sim-tools/resccom_sim/sync.py:219-219` | Replaces the first document with the IMSI, keeping its identifier, and no other. |
| `Collections.Collection.DeleteStrays` | `sim-tools/resccom_sim/sync.py:227-230` | Deletes exactly the unmarked documents whose IMSI is not listed and counts them. |
| `Collections.Collection.DeleteRoamer` | `sim-tools/resccom_sim/roaming.py:250-254` | Deletes the first marked document with the IMSI and nothing else; says whether there was one. |
| `Sync.RunScript` | `sim-tools/resccom_sim/sync.py:203-231` | The reconcile loop in place on a collection ends in the collection and the four counts the specification computes. |
| `Sync.RunSync` | `sim-tools/resccom_sim/sync.py:235-261` | A whole `db sync`: the script over the listed store, or a failed run that writes nothing when a field carries a line break into a string literal. |
| `SyncLaws.CoreWriteAgrees` | `sim-tools/resccom_sim/sync.py:27-41` | What the core writes back (`imeisv`, `mme_host`, `mm_realm`, `purge_flag`, `security.sqn`) leaves a document agreeing with what it was. |
| `SyncLaws.SyncAccounts` | `sim-tools/resccom_sim/sync.py:203-231` | added + updated + unchanged is the store size minus the entries a roamer's document holds; final size is initial size + added - removed; every marked document is untouched and in order; no unmarked document is left that the store does not list; one document per IMSI is kept. |
| `SyncLaws.SyncSettles` | `sim-tools/resccom_sim/sync.py:203-222` | After one sync of any collection every stored IMSI has a document that agrees with the store, or a roamer's marked document, and every other unmarked document is gone. |
| `SyncLaws.MirrorsStore` | `sim-tools/resccom_sim/sync.py:203-230` | In a synced collection with one document per IMSI every unmarked document is a stored subscriber no roamer holds, and agrees with the store. |
| `SyncLaws.QuietSync` | `sim-tools/resccom_sim/sync.py:203-231` | A sync of a synced collection leaves it identical and reports added = updated = removed = 0. |
| `SyncLaws.TouchedInSync` | `sim-tools/resccom_sim/sync.py:17-41` | A core write to any document leaves the collection in sync. |
| `LiveSessions.SyncMirrors` | `sim-tools/resccom_sim/sync.py:187-231` | One completed sync of any collection makes it mirror the store, whatever identifiers a later sync generates. |
| `LiveSessions.SyncReports` | `sim-tools/resccom_sim/sync.py:203-231` | A completed sync writes a missing subscriber's document under a new identifier, replaces one that differs under its own identifier, and leaves one that agrees, or a roamer's, the very same; added, updated and unchanged are exactly how many there are of each. |
| `LiveSessions.LiveSessionsUndisturbed` | `sim-tools/resccom_sim/sync.py:17-41` | Once a sync of any collection has completed, no interleaving of core writes with further syncs of the unchanged store inserts, replaces or deletes a document, and each such sync reports added = updated = removed = 0. |
| `LiveSessions.RewrittenIffServiceChanged` | `sim-tools/resccom_sim/sync.py:216-221` | After an edit of the store the comparison calls for a rewrite exactly when key, OPc, AMF or roaming flag changed. |
| `LiveSessions.RunnableIff` | `sim-tools/resccom_sim/sync.py:196-202` | Over a store the field rules accept, the script is a valid program exactly when every field has its nominal length. |
| `LiveSessions.TrailingNewlineBlocksSync` | `sim-tools/resccom_sim/model.py:8-10` | The field rules accept an IMSI with one final line break, and no store holding that subscriber can ever be synced. |
| `Provisioned.SyncProvisions` | `sim-tools/resccom_sim/sync.py:126-231` | After a completed sync of any collection, the document found for every stored IMSI no roamer holds has that row's own key under `k`, OPc under `opc` and AMF under `amf`, in upper case character by character, that row's Local Breakout flag in its one session of its one slice, and the fixed values of every subscriber: slice and session type, QoS, both AMBRs, empty lists and trailing numbers. |
| `Provisioned.DocProvisions` | `sim-tools/resccom_sim/sync.py:126-184` | The document built for a subscriber provisions that subscriber, field by field. |
| `Provisioned.SlicesHold` | `sim-tools/resccom_sim/sync.py:126-161` | The slice list is one slice with one session, with the flag it was built for and the default QoS and rates. |
| `Provisioned.DocStartsEmpty` | `sim-tools/resccom_sim/sync.py:164-184` | The fields the core fills in by itself start out as empty lists. |
| `Provisioned.ImportProvisions` | `sim-tools/resccom_sim/roaming.py:133-186` | After an import, every record without a local conflict has a marked document with its IMSI, exactly its policy and fixed values, the home PLMN, and no `security`. |
| `Store.DecryptEncrypt` | `sim-tools/resccom_sim/crypto.py:33-54` | Decrypting what was encrypted under the same passphrase gives the bytes back; under one that derives another key it is the wrong-passphrase error. |
| `Store.EncryptLayout` | `sim-tools/resccom_sim/crypto.py:33-38` | An encrypted file is the eight bytes of "RESCSIM1", sixteen of salt, twelve of nonce, and what was sealed under the derived key. |
| `Store.DecryptIff` | `sim-tools/resccom_sim/crypto.py:41-54` | A file is refused as no store exactly when it does not begin with those eight bytes; it decrypts to a text exactly when the parts after them open to it; any other is the wrong-passphrase error. |
| `Store.ApplyKeeps` | `sim-tools/resccom_sim/store.py:101-198` | Every operation keeps one row per IMSI and every row acceptable to the field rules. |
| `Store.AddIfMissingMeans` | `sim-tools/resccom_sim/store.py:118-153` | Adding if missing inserts a new IMSI, tolerates a row equal in every field but the creation time, and refuses one that differs in any. |
| `Store.TableRefinesMap` | `sim-tools/resccom_sim/store.py:101-198` | Each operation does to the table, and answers, what the IMSI-keyed map does and answers, errors included. |
| `Store.FileRefinesMap` | `sim-tools/resccom_sim/store.py:67-99` | Any sequence of operations on the encrypted file, reopened with the same passphrase, reads back the map the sequence computes. |
| `Store.ListingNeverRaises` | `sim-tools/resccom_sim/store.py:67-198` | After any sequence of operations on a store that began empty, it opens with its passphrase, holds the map the sequence computes, and every row passes the field rules, which is exactly when listing does not raise. |
| `Store.OperationOnFile` | `sim-tools/resccom_sim/store.py:67-99` | A refused operation leaves the same bytes; a successful one leaves a file that reads back as its result and answers what the map answers. |
| `Store.WrongPassphraseKeepsBytes` | `sim-tools/resccom_sim/store.py:57-68` | Under another passphrase every operation is refused and the bytes stay. |
| `Store.OtherFileKept` | `sim-tools/resccom_sim/store.py:67-99` | A file that is no store answers every operation under every passphrase with that error, and its bytes stay. |
| `Store.LegacyFileLoads` | `sim-tools/resccom_sim/store.py:78-88` | A file of the older schema opens with all fields kept and every row on Local Breakout. |
| `Store.SubscriberStore.WithDb` | `sim-tools/resccom_sim/store.py:67-99` | Decrypts, migrates, applies, and writes the whole file again only if the operation did not raise. |
| `Store.SubscriberStore.List` | `sim-tools/resccom_sim/store.py:155-170` | Lists every row exactly once in order of creation if all rows pass the field rules, and raises for a row that does not otherwise. |
| `Store.ListAllRows` | `sim-tools/resccom_sim/store.py:155-170` | Listing by creation time has every row once and no other. |
| `Store.ListAllInOrder` | `sim-tools/resccom_sim/store.py:157-160` | The listing is in order of creation time. |
| `Roaming.RunImportScript` | `sim-tools/resccom_sim/roaming.py:170-185` | The import loop in place on a collection ends in the collection, the count and the conflicts the specification computes. |
| `Roaming.RunImport` | `sim-tools/resccom_sim/roaming.py:189-223` | A whole import: an invalid PLMN writes nothing; a conflict is raised after the other records are written. |
| `RoamingLaws.ExportIsExact` | `sim-tools/resccom_sim/roaming.py:82-106` | An export holds the policies of exactly the chosen Local-Breakout subscribers, and speaks with one voice for each IMSI. |
| `RoamingLaws.ExportSucceedsIff` | `sim-tools/resccom_sim/roaming.py:82-106` | A full export always succeeds; a named one exactly when every named subscriber is stored and on Local Breakout. |
| `RoamingLaws.SelectedIff` | `sim-tools/resccom_sim/roaming.py:98-106` | A named export has one record per name, in order, or is refused for the first name that is unknown or home-routed, saying which of both. |
| `RoamingLaws.RecordAccepted` | `sim-tools/resccom_sim/roaming.py:114-124` | A record is accepted exactly when it is a dictionary without a credential-like key and with a 15-digit IMSI; a missing flag means yes. |
| `RoamingLaws.CredentialKeys` | `sim-tools/resccom_sim/roaming.py:114-120` | The keys that refuse a record are exactly the spellings of the five names in any case of letters, a Kelvin sign being a capital k. |
| `RoamingLaws.FileAccepted` | `sim-tools/resccom_sim/roaming.py:127-130` | A file is accepted exactly when it lists records that all are, and gives them in order. |
| `RoamingLaws.OtherPlmnRefused` | `sim-tools/resccom_sim/roaming.py:196-197` | An import is refused for its PLMN exactly when that is not a three-digit and a two- or three-digit code, and then writes nothing. |
| `RoamingLaws.ExportReadsBack` | `sim-tools/resccom_sim/roaming.py:109-130` | The record list an export writes is read back, as JSON data, as the very records it was written from. |
| `RoamingLaws.ImportTouchesRoamersOnly` | `sim-tools/resccom_sim/roaming.py:172-184` | Whatever the file holds, an import leaves every unmarked document as it is and in order, adds no second document for an IMSI, and puts no `security` under a roamer's mark. |
| `RoamingLaws.ImportCounts` | `sim-tools/resccom_sim/roaming.py:170-185` | The conflicts are exactly the records whose IMSI an unmarked document has; the rest are imported. |
| `RoamingLaws.ImportPlaces` | `sim-tools/resccom_sim/roaming.py:172-184` | Every record without a local conflict ends in place, from the last record with its IMSI. |
| `RoamingLaws.ImportReports` | `sim-tools/resccom_sim/roaming.py:213-223` | The import succeeds exactly when there is no conflict, and otherwise names them all. |
| `RoamingLaws.RoamingRoundTrip` | `sim-tools/resccom_sim/roaming.py:82-186` | Export, write, read, import: the visited island holds exactly the chosen subscribers, marked, under the home PLMN, with the slice of their home document, except where a local subscriber stands; every other document is as it was. |
| `RoamingLaws.CredentialsDoNotTravel` | `sim-tools/resccom_sim/roaming.py:66-106` | Two stores that differ only in keys, OPc, AMF, labels, notes and times export the same file, or the same refusal. |
| `RoamingLaws.OneCredentialRefusesAll` | `sim-tools/resccom_sim/roaming.py:114-130` | One record with a credential-like key, in any case of letters, refuses the whole file. |
| `RoamingLaws.DropRoamerKeeps` | `sim-tools/resccom_sim/roaming.py:250-254` | Removing a roamer leaves every unmarked document as it is and brings in nothing. |
| `Islands.ActHealthy` | `sim-tools/resccom_sim/sync.py:203-231` | Every action of an operator or of the core keeps an island healthy and touches only what is its own: a sync script over any earlier listing no marked document, an import or removal no unmarked one, a store operation no document. |
| `Islands.RunsStayHealthy` | `sim-tools/resccom_sim/sync.py:203-231` | In every state any interleaving of adds, edits, removals, sync scripts over any listing, imports, roaming removals and core writes over any number of islands can reach: one document per IMSI, no `security` in a marked document, a store keyed by IMSI; and no step ever touched what was not its own. |
| `Islands.ReachableSyncMirrors` | `sim-tools/resccom_sim/sync.py:187-231` | From every reachable state a sync over the store as it is ends with the collection mirroring the store. |
| `Rigs.ScriptFinds` | `sim-tools/resccom_sim/sync.py:203-230` | After a script over any listing, however old, the collection has a document for an IMSI exactly when a roamer's document holds it or the listing has it. |
| `Rigs.RigLostIff` | `sim-tools/resccom_sim/cli.py:272-276` | Over any interleaving of adding, listing and running the script, no rig ever deletes what another has synced exactly when every script's listing has each rig that synced before it, or a roamer's document holds that rig's IMSI. |
| `Rigs.NoRigIsLost` | `sim-tools/resccom_sim/cli.py:272-276` | At every point of any interleaving of rigs in which nothing comes between a sync's listing and its script, every rig that has synced finds its subscriber in the core. |
| `Rigs.StaleListingLosesRig` | `sim-tools/resccom_sim/cli.py:272-276` | The failing interleaving: one rig lists, another adds and syncs, the first runs its script; the second is in the store and gone from the core. |
| `Rigs.RigsSettleIff` | `sim-tools/resccom_sim/cli.py:272-276` | Read off the order of the moves, the first store and the first collection alone: after any complete interleaving the store is the old one plus every rig's subscriber, the collection mirrors it and marked documents are as they were, exactly when the last script is over a listing that covers every rig, that is, each rig's IMSI was in the store when it was listed or is held by a roamer's document. |
| `Rigs.RigsConverge` | `sim-tools/resccom_sim/store.py:118-153` | Two complete interleavings of the same rigs whose last script covers every rig end in the same store up to creation times and the same collection up to ignored fields. |
| `Rigs.UndividedIsOrderly` | `sim-tools/resccom_sim/cli.py:272-276` | In a complete interleaving in which nothing comes between a sync's listing and its script, the last script covers every rig. |
| `Rigs.UndividedConverge` | `sim-tools/resccom_sim/store.py:118-153` | Any two complete interleavings of such syncs end in the same store and the same collection. |
| `Compose.Parse` | `stack/backhaul/unplug-test.sh:104-150` | The line loop with its stack collects what the step-by-step specification collects. |
| `Compose.Check` | `stack/backhaul/unplug-test.sh:152-168` | The guard reports, over the facts it collected, every address outside internal networks that is not declared and every membership there without an address, both kinds together. |
| `ComposeLaws.RunBlock` | `stack/backhaul/unplug-test.sh:134-149` | Over a printed block the stack always names the true ancestors of each key, whatever is left open from deeper blocks. |
| `ComposeLaws.ParserReadsTree` | `stack/backhaul/unplug-test.sh:104-150` | For every compose tree, printed with any positive indent that may change from block to block, with scalars, `{}`, nested mappings, and lists of scalars or of mappings that start behind the dash, the parser collects exactly what the tree says, taking a scalar item with a colon after key characters as a key with a value. |
| `ComposeLaws.WordReadRightIff` | `stack/backhaul/unplug-test.sh:119-145` | A scalar item is taken as it is written exactly when it is not one whose splitting makes a difference: a listed network with a colon, or an address or `internal:true` where these mean something. |
| `ComposeLaws.BlockReadRight` | `stack/backhaul/unplug-test.sh:119-145` | In a tree without such items splitting goes unnoticed. |
| `ComposeGuard.NoteAllMeans` | `stack/backhaul/unplug-test.sh:136-145` | The collected sets mean: networks marked internal, the last fixed address of each service on each network, and every membership. |
| `ComposeGuard.AddressImpliesJoin` | `stack/backhaul/unplug-test.sh:138-145` | A service with a fixed address on a network is a member of it, in a tree as the parser takes it and as it is written. |
| `ComposeGuard.FactsOfOne` | `stack/backhaul/unplug-test.sh:152-157` | The facts accumulated over all files, read at one file, are that file's own. |
| `ComposeGuard.FactsCollected` | `stack/backhaul/unplug-test.sh:152-157` | The facts the guard accumulates over printed files are those collected from their trees. |
| `ComposeGuard.GuardPassesIff` | `stack/backhaul/unplug-test.sh:152-169` | The guard passes exactly when every service that joins a network no file makes internal has a fixed address there that is in the declared list: for any files in that grammar over their trees as the parser takes list items, and for files without a misread item over their trees as written. |
| `ComposeGuard.GuardReports` | `stack/backhaul/unplug-test.sh:159-168` | Over printed files, an address is reported missing exactly when it is the last fixed one of that service on that network, is not declared, and no file makes the network internal; a membership is reported dynamic exactly when the service joins such a network without a fixed address; nothing is reported about other files. |
| `ComposeGuard.NoiseIgnored` | `stack/backhaul/unplug-test.sh:116-118` | Blank and comment lines anywhere change nothing. |
| `ComposeGuard.DefaultReads` | `stack/backhaul/unplug-test.sh:99-102` | `${VAR:-address}` reads as its address and a plain value as itself. |
| `Wand.Daemon.SetupPolicyRouting` | `stack/backhaul/config/wand.py:139-148` | Points the uplink's own table at its gateway and interface, and re-adds its source rule last. |
| `Wand.Daemon.CheckUplink` | `stack/backhaul/config/wand.py:164-177` | Discovery, policy routing, the gateway ping that forgets the interface, and the DNS probe, which needs a route from the uplink's own address, with the kernel and cache they leave. |
| `Wand.Daemon.SetupQos` | `stack/backhaul/config/wand.py:180-217` | Classes, classify chain and hook after shaping an interface, for any state before. |
| `Wand.Daemon.SetActive` | `stack/backhaul/config/wand.py:220-228` | Deletes the default route and, for an uplink, replaces it and shapes its interface. |
| `Wand.Daemon.MonitorPass` | `stack/backhaul/config/wand.py:231-252` | One pass over all uplinks in place: the system state the specification computes. |
| `WandLaws.ActiveIsBest` | `stack/backhaul/config/wand.py:247-252` | After every pass `active` is the first uplink in priority order that passed its check in this pass, or none when none did. |
| `WandLaws.PassesIff` | `stack/backhaul/config/wand.py:164-177` | Read off the state a pass begins in: an uplink passes exactly when it is attached where the daemon has it, its link and path work, and its own table or else the default route leads the probe out. |
| `WandLaws.PassStatus` | `stack/backhaul/config/wand.py:238-243` | A pass publishes an uplink healthy exactly when it passed, and attached exactly when it keeps its interface, which is when its ping answers at the interface that holds its address. |
| `WandLaws.RunsPublish` | `stack/backhaul/config/wand.py:231-252` | From start, after any rounds: healthy and attached are read off the last round in that way, the active uplink is the first healthy one, and none is active exactly when none is healthy. |
| `WandLaws.NoChangeNoRewrite` | `stack/backhaul/config/wand.py:248-252` | While the active uplink stays the same, default route, shaping, classify chain and hook are not touched. |
| `WandLaws.PassAgrees` | `stack/backhaul/config/wand.py:164-252` | From a consistent state one pass ends with kernel and daemon agreeing. |
| `WandLaws.EventsKeepConsistent` | `stack/backhaul/config/wand.py:123-136` | Whatever interfaces come and go between two passes, the active uplink still carries the default route, or has lost it together with the route in its own table. |
| `WandLaws.RunsAgree` | `stack/backhaul/config/wand.py:231-252` | From start, through any events and probe results whatever, after every pass: the default route leads via the active uplink's gateway and current interface, or is gone when none is active; that interface has its classes, exactly the two classify rules and one hook; every attached uplink has exactly one source rule, to its own table, which leads nowhere but out of its interface. |
| `WandLaws.RunsTableIff` | `stack/backhaul/config/wand.py:139-148` | From start, over any rounds, an attached uplink's own table has its route exactly when its interface did not go away and come back between two passes since the daemon found it. |
| `WandLaws.WorkingFailsIff` | `stack/backhaul/config/wand.py:164-177` | An attached uplink whose link and path work fails its check exactly when its table is lost and nothing carries the default route. |
| `WandLaws.UnseenReplugStrands` | `stack/backhaul/config/wand.py:164-177` | The failing trace: unplug and replug of the only working uplink under the same name between two passes ends with it attached, working, and nothing active. |
| `WandLaws.StrandedUntil` | `stack/backhaul/config/wand.py:164-177` | From there, for as long as its ping keeps answering, its table stays lost, and nothing becomes active exactly while no other uplink passes. |
| `WandLaws.StaleRouteStays` | `stack/backhaul/config/wand.py:248-252` | From start, over any rounds, the daemon touches the default route only once some uplink has passed; until then the route is what the coming and going of interfaces alone makes of it. |
| `WandLaws.RatesFitIff` | `stack/backhaul/config/wand.py:84-89` | The guaranteed class rates fit the link exactly from 3 kbit up and then fall short by at most 2 kbit. |
| `WandLaws.ShapedMeans` | `stack/backhaul/config/wand.py:84-89` | A shaped interface guarantees a fifth, three tenths and half of the link, each at least 1 kbit, may use the whole link, and serves in that order. |
| `Signing.PayloadEqualIffSame` | `island-init/island_init/crypto.py:92-97` | Two documents have the same payload exactly when they are the same JSON value outside their signature blocks, in any key order. |
| `Signing.SigningKeepsPayload` | `island-init/island_init/crypto.py:92-108` | Attaching a signature does not change the bytes it covers. |
| `Signing.SignThenVerify` | `island-init/island_init/crypto.py:100-139` | Sign with the key whose public half the document declares, attach, verify: it succeeds. |
| `Signing.TamperingShows` | `island-init/island_init/crypto.py:115-139` | A document that carries a signature and declares the same key verifies exactly when it is the signed value outside the block. |
| `Signing.VerdictMeans` | `island-init/island_init/crypto.py:115-139` | A signed document is verified exactly when it names ed25519, declares a key, and its value checks for its payload under that key; each refusal exactly when its own condition is the first to hold. |
| `Drafts.RelockStages` | `island-init/island_init/apply.py:79-89` | Whatever was posted, the candidate is unsigned and has the locked identity of the current file. |
| `Drafts.RelockFixesIffStaged` | `island-init/island_init/apply.py:79-89` | Building leaves a document exactly as it is if and only if it is unsigned and already holds the locked identity. |
| `Drafts.RelockKeepsEdits` | `island-init/island_init/apply.py:79-89` | Every field that is not locked is the posted one. |
| `Drafts.BuildIdempotent` | `island-init/island_init/apply.py:79-89` | Building again from a built candidate, against any file with the same identity, gives it back. |
| `Drafts.IdentityKept` | `island-init/island_init/apply.py:79-89` | The candidate is unsigned, and its id, signing key, fingerprint and overlay key are those of the current file, field by field. |
| `Drafts.UnsignedProductionRefused` | `island-init/island_init/checks.py:90-182` | An unsigned document with the production profile never validates. |
| `Drafts.ProductionIssuesMean` | `island-init/island_init/checks.py:90-182` | A production document is refused for exactly the lab values and gaps it has, each at its own field, any other document for none. |
| `Drafts.ValidatesIff` | `island-init/island_init/apply.py:92-96` | A document of the wrong shape gets the schema's issues alone; any other passes exactly when its cells have different PCIs, its prefixes are disjoint, it has no production issue, and a signature, if there is one, verifies. |
| `Drafts.ValidateReports` | `island-init/island_init/checks.py:197-204` | What validation lists: every cell whose PCI an earlier one has, the services prefix if it overlaps, the lab values and gaps of a production document, and a signature that does not verify; nothing else. |
| `Drafts.UnsignedPassesIff` | `island-init/island_init/checks.py:38-204` | An unsigned document passes exactly when it is no production document and is sound: right shape, different PCIs, disjoint prefixes. |
| `Applying.Node.WriteAll` | `island-init/island_init/render.py:442-456` | Writes exactly the changed files, in order, and returns them. |
| `Applying.Node.RestartFor` | `island-init/island_init/apply.py:113-134` | The restart loop up to its first failure, as the specification has it. |
| `Applying.Node.CommitSigned` | `island-init/island_init/apply.py:191-199` | From the first write on: the island file, the changed targets, the restarts, and the draft cleared only on success. |
| `Applying.Node.ApplyDraft` | `island-init/island_init/apply.py:156-199` | One run in place on the node's files: the disk and outcome of the specification, with every early return. |
| `Applying.Node.DoSaveDraft` | `stack/services/config/console/server.py:130-153` | Stages the candidate if it validates and renders; writes nothing else ever. |
| `ApplyingLaws.RestartsExact` | `island-init/island_init/apply.py:113-134` | No container is restarted twice, only consumers of changed files are, all of them if none fails, and the run fails exactly when one of them does. |
| `ApplyingLaws.RestartsStop` | `island-init/island_init/apply.py:119-133` | A run that fails has restarted every container due before the one it failed at, and none after. |
| `ApplyingLaws.ContainerNames` | `island-init/island_init/apply.py:45-58` | The container of every rendered file that has one, by its full name, and of no other file. |
| `ApplyingLaws.WriteExact` | `island-init/island_init/render.py:422-456` | After the write every target is as rendered, no other file moved, and the returned paths are exactly the targets that were missing or different. |
| `ApplyingLaws.ChangedInOrder` | `island-init/island_init/render.py:450-456` | Changed files are reported in the order they are rendered in. |
| `ApplyingLaws.VetPassesIff` | `stack/services/config/console/server.py:88-92` | Console and host let a candidate through exactly when it could be built, is no production document, and is sound. |
| `ApplyingLaws.VetReports` | `island-init/island_init/apply.py:92-96` | A candidate of the right shape with a shared PCI or overlapping prefixes is refused with exactly the cells and the prefix at fault; one of the wrong shape with the schema's issues. |
| `ApplyingLaws.UnsoundGoesNowhere` | `island-init/island_init/apply.py:177-181` | A candidate that is not sound, one with a shared PCI or overlapping prefixes for example, is neither staged nor applied; both leave the whole disk alone. |
| `ApplyingLaws.PreparesIff` | `island-init/island_init/apply.py:168-189` | A run gets to its first write exactly when draft and island file exist, the candidate is no production document and sound, its key loads and it renders. |
| `ApplyingLaws.EndsAfterVetting` | `island-init/island_init/apply.py:183-189` | With a candidate that passes, a missing key file says so, and with a key rendering decides how the run goes on. |
| `ApplyingLaws.ApplyIsTransactional` | `island-init/island_init/apply.py:156-199` | A run that ends before its first write leaves the whole disk alone; any other leaves a sound non-production document with the old identity, verifying if the key matches, the vetted draft as its content and every target rendered from it; the draft is gone exactly on success. |
| `ApplyingLaws.ApplyRestarts` | `island-init/island_init/apply.py:189-192` | Restarts are free of repeats, limited to containers whose file changed, and cover them all exactly when the run succeeds, which is exactly when each would restart. |
| `ApplyingLaws.StagedDraftApplies` | `stack/services/config/console/server.py:130-153` | A draft the console staged never fails validation or rendering on the host; apply writes exactly the files the console listed. |
| `ApplyingLaws.ReapplyIsQuiet` | `island-init/island_init/apply.py:156-199` | Staging and applying again what was applied leaves the disk identical, changes and restarts nothing. |
| `ApplyingLaws.RetryRestartsNothing` | `island-init/island_init/apply.py:189-195` | After a failed restart a second run reports success and restarts nothing, so some container whose file changed is restarted by neither run. |
| `ApplyingLaws.RunsKeepIdentity` | `island-init/island_init/apply.py:156-199` | Over any sequence of staging, of anything put in the draft's place, and of applies with any container failing: the island file keeps its identity, and is the original or a sound document, its PCIs different and its prefixes disjoint, in order with all its targets. |
| `Sites.CheckPciUniqueness` | `island-init/island_init/checks.py:38-60` | Reports exactly the cells whose PCI an earlier cell has, in reading order, each with the first such cell. |
| `Sites.SilentIffUnique` | `island-init/island_init/checks.py:38-60` | Nothing is reported exactly when no two cells share a PCI. |
| `Sites.ReportedIff` | `island-init/island_init/checks.py:44-59` | A cell is reported exactly when an earlier one has its PCI. |
| `Plans.PciIssuesMean` | `island-init/island_init/checks.py:38-60` | On a document, the PCI check names exactly the cells whose PCI an earlier cell has, true and 1.0 being 1. |
| `Plans.FieldNamesCell` | `island-init/island_init/checks.py:48-53` | Two cells are never reported under the same name. |
| `Plans.OverlapIssuesMean` | `island-init/island_init/checks.py:63-87` | On a document, the overlap check names the services prefix exactly when both prefixes are there, are IPv4 prefixes and have an address in common. |
| `Plans.PlanCleanIff` | `island-init/island_init/checks.py:38-87` | Neither check raises exactly when the document is readable, and both are silent exactly when, besides, no two cells have the same PCI and the prefixes are disjoint. |
| `Plans.WrittenPrefixes` | `island-init/island_init/checks.py:66-75` | Prefixes written as address and length count as the prefixes of those. |
| `Prefixes.NetReads` | `island-init/island_init/checks.py:71-72` | A prefix written with its length, or an address alone, reads back with its host bits cleared. |
| `Prefixes.NetmaskReads` | `island-init/island_init/checks.py:71-72` | A prefix written with a netmask reads as one of the length it stands for. |
| `Prefixes.HostmaskReads` | `island-init/island_init/checks.py:71-72` | So does one written with a hostmask, except that all zeros and all ones are netmasks. |
| `Addressing.NetOfIsNet` | `island-init/island_init/checks.py:72-73` | Reading a prefix with its host bits set gives a prefix that still contains the address it was written with. |
| `Addressing.NestedOrDisjoint` | `island-init/island_init/checks.py:71-75` | Two prefixes share an address exactly when the longer is contained in the shorter. |
| `Addressing.OverlapsIffShare` | `island-init/island_init/checks.py:75-75` | The four-address overlap test says exactly whether the two prefixes share an address. |
| `Addressing.CoreNetOf` | `island-init/island_init/render.py:266-267` | A base of length at most 24 always has a core network, inside it; a longer base may have one, never inside it. |
| `Addressing.NodeAddressesFit` | `island-init/island_init/render.py:68-91` | All node addresses exist, each at its offset from the base, and lie inside the base exactly when its length is at most 26. |
| `Addressing.ServiceAddressesFit` | `island-init/island_init/render.py:35-55` | All service addresses exist inside their prefix exactly when its length is at most 26. |
| `Addressing.NamesApart` | `island-init/island_init/render.py:68-91` | No two containers, and no two services, share an address. |
| `Prefixes.LabNodesAgree` | `stack/core/compose.yaml:57-476` | Planned from the lab island's base, every core container is at the address the committed compose file has. |
| `Prefixes.LabServicesAgree` | `stack/services/config/coredns/island.zone:10-17` | Planned from its services prefix, every service is at the address the committed zone file and compose files have. |
| `Addressing.IslandsApart` | `island-init/island_init/render.py:266-279` | Two islands render disjoint node addresses exactly when their bases start at different addresses, so always when the bases are disjoint. |
| `Addressing.NodesAndServicesApart` | `island-init/island_init/render.py:275-279` | Service and node addresses collide exactly for the stated distances between the two prefixes (-51 to 32 without -50, -47, -45, -2, 16 and 17), which up to length 26 leave only equal starts. |
| `Addressing.CheckMissesNodeBase` | `island-init/island_init/checks.py:63-87` | The overlap check never looks at the node's base: a services prefix equal to the core network passes it and collides. |
| `Addressing.GatewayApart` | `island-init/island_init/render.py:369-371` | With prefixes the check passes, the UE gateway is inside its prefix unless that is one address, and is no service address. |
| `Peering.RenderPeers` | `island-init/island_init/render.py:321-341` | Renders every peer, or refuses exactly when one has no SEPP identity or address. |
| `Peering.PeeringKeeps` | `stack/federation/two_island_setup.py:94-109` | Building a peered copy changes nothing outside the federation section. |
| `Peering.CopyNamesPeer` | `stack/federation/two_island_setup.py:94-109` | The copy has one peer, whose name, key, base, services prefix and PLMN are the peer's own and whose endpoint is its address and port 51820. |
| `Peering.SeppMeans` | `island-init/island_init/render.py:321-341` | An island has a SEPP exactly when its base is a prefix with a core network and its PLMN is 999/70 or 001/01: at the sixteenth address, as `sepp1.localdomain` or `sepp2.localdomain`. |
| `Peering.CopyRenders` | `island-init/island_init/render.py:314-350` | A peered copy renders exactly when both islands have a SEPP address and identity, its own included. |
| `Peering.PeersAgree` | `island-init/island_init/render.py:314-350` | For two islands peered with each other, both copies render their N32 part or neither does, and then the SEPP address and receiver id each renders for the other are the address and sender id the other renders for itself. |
| `Peering.ResignedCopyVerifies` | `stack/federation/two_island_setup.py:112-122` | A peered copy of a signed island with a consistent identity, signed again, verifies, and is otherwise the copy. |
| `Peering.ResignsIff` | `stack/federation/two_island_setup.py:112-122` | An unsigned document comes back as it is; a signed one is signed with its island's key exactly when that key is there and has the declared fingerprint, and a key with another fingerprint is refused. |
| `Peering.StaleSignatureShows` | `stack/federation/two_island_setup.py:94-122` | Under the old signature the copy verifies exactly when peering changed nothing that is signed. |
| `Numbering.InRangeIffPrefix` | `stack/federation/roam_test.py:52-56` | A 15-digit SUPI lies in the range of a block exactly when the block is its prefix. |
| `Numbering.RangesMeetIffNested` | `stack/federation/roam_test.py:52-56` | Two ranges share a SUPI exactly when one block is a prefix of the other. |
| `Numbering.GenerateTestImsi` | `sim-tools/resccom_sim/model.py:52-59` | Ends within one step more than there are IMSIs in use, with the least unused candidate. |
| `Numbering.CandidateIsImsi` | `sim-tools/resccom_sim/model.py:56-56` | A candidate has fifteen digits exactly while its number is below 10^10. |
| `Numbering.GeneratedIsUsable` | `sim-tools/resccom_sim/model.py:52-59` | With fewer than 10^10 - 1 IMSIs in use the generated one is an IMSI of the test block, and adding it is not refused. |

## Left out

- Running docker, mongosh, ip, tc, iptables, ping, dig, HTTP servers, command lines and prompts: only their effect on the collection, the files or the kernel state is modelled.
- Strings are sequences of Unicode scalar values: lone surrogates, and digits outside ASCII that Python's `\d` accepts, are not modelled.
- Numbers that are not integers are their shortest literals, which determine them; two literals of one number do not occur.
- JavaScript objects are modelled without accessors, symbols and integer-like key order, which sorting makes irrelevant; an object whose `valueOf` gives a primitive is held as that primitive, boxed.
- MongoDB's matching of a query value against array elements is not modelled: the `imsi` of a document is a string.
- SyncLaws.SyncSettles: for a collection that already has two documents for one IMSI only the first is settled, as `findOne` and `replaceOne` see it; every reachable collection has one.
- RoamingLaws.ExportReadsBack: the export file is JSON data; writing its text and parsing it again are left out.
- LiveSessions.LiveSessionsUndisturbed: core writes are to the ignored fields only; a core write to any other field is a difference the sync must see.
- AES-GCM, scrypt, Ed25519 and SHA-256 are functions with the laws in `Lawful` and `Distinguishes`: round trip, another key opens nothing, a signature checks for its own payload only, fingerprints tell keys apart.
- SQLite is a sequence of rows and a serialization with a decoder; label and notes are texts without embedded terminators.
- The subscriber store has no lock between processes; each operation on it is one atomic step, and so is a script on the collection. The two halves of a `db sync` are two steps.
- Roaming's command-line list of roamers only reads.
- Compose trees are printed without trailing comments, block scalars, quoted keys and anchors.
- ComposeLaws.ParserReadsTree: keys are ASCII key characters; values and items are texts as written, quotes and flow-style brackets included, without blanks at their ends; a dash is followed by one blank, and a mapping behind it is not empty.
- Compose.Check: the problems are a set; the order the guard prints them in is left out.
- ComposeGuard.GuardPassesIff: the compose files have different names, and networks are not listed in flow style or in quotes; reading them from disk is left out.
- The kernel is modelled with one default route in the main table, tables that lead out of one interface, and no rule or route added by anyone else.
- WandLaws.RunsAgree: the environment stands still during a pass, and uplink names and addresses are distinct.
- Wand.Daemon.CheckUplink: whether the path answers over the route there is comes from outside, also when that route is another uplink's.
- Wand.Daemon.MonitorPass: the three-second wait, the clock in the status and the status server's lock are left out.
- Jinja templates, the JSON Schema and YAML are not modelled: rendering is a function of the document without its signature and of the target, schema validation a function of the document, and a file loads as the document that was dumped.
- Drafts.ValidatesIff: issues are their field names; their messages and line numbers are left out.
- Plans.PciIssuesMean: a float PCI counts as the integer it equals when it is written with a final `.0`, not when it is written with an exponent.
- Plans.OverlapIssuesMean: IPv6 prefixes are left out, also as integers beyond 32 bits; two of them that overlap are not reported here.
- ApplyingLaws.ApplyIsTransactional: apply does not compare the private key with the declared public key, so that the result verifies is stated under `MatchingKey`.
- The apply log, file errors while writing, and the difference between docker being absent and a restart failing.
- Applying.Node.DoSaveDraft: the staging time, the draft log and the text of the diff are left out; the list of changed files stands for the diff.
- Storing measured coverage goes through the same staging; its edit of one cell would add an easy member.
- Addressing.OverlapsIffShare: prefixes are IPv4 address and length.
- Signing.VerdictMeans: a signature value that is no text raises also behind a public key that cannot be decoded, where the code reports a malformed key.
- Peering.PeersAgree: reading a prefix is a function of the field; only the parts of rendering that N32 needs are modelled, and every failure there is one refusal.
- Peering.ResignedCopyVerifies: the optional override of the log level is left out; it changes the copy before it is signed.
- Numbering.InRangeIffPrefix: blocks are digit strings of at most fifteen digits, as the schema's pattern means them.
- Migration of old documents, the wizard, coverage prediction, the portal, the console's pages and the probes: plumbing, floating point, or easy claims.
