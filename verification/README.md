# The frontend of the NVIDIA storage bridge, modelled and proved

The bridge answers gRPC calls that create, delete and list NVMe subsystems, controllers, namespaces
and virtio-blk devices. It keeps four pieces of state in step without any transaction: a persistent
key/value store, an in-memory index of NQNs, an in-memory map of virtio-blk devices, and the objects
of a remote SPDK/SNAP target. This project models each handler as the sequence of store, index and
remote accesses it makes, lets every one of them fail, and proves what survives whole runs.

`dafny verify dfyconfig.toml` checks everything.

| file | contents |
|---|---|
| `Common.dfy` | options, replies, errors, page tokens, Go's `int32(x)`, one-to-one maps |
| `Names.dfy` | resource names, their four forms, the recovery of a child's subsystem from its name |
| `Nqn.dfy` | the NQN regular expression, its parser and its single-pass scanner |
| `Target.dfy` | the remote target as an automaton; how one remote call can end |
| `Records.dfy` | records, requests and the state that every handler reads and writes |
| `Sorting.dfy`, `Paging.dfy` | in-place sorting with nil slots, pages, page walks, string order |
| `Arrangement.dfy`, `Listing.dfy` | what a list shows of its rows; the four listings |
| `Queries.dfy` | Get, List, Stats and Update as functions on the state |
| `Protocol.dfy` | the eight creates and deletes as functions on the state, runs |
| `Lifecycle.dfy` | the life of one record over whole runs |
| `Requests.dfy`, `Answers.dfy` | every reply of every handler, told by the fields of its request |
| `ReadOnly.dfy` | runs with and without their queries; how long a page token lasts |
| `Provenance.dfy` | stored records against the log of calls sent and answered |
| `Uniqueness.dfy` | NQN uniqueness, the index, orphans; why each exclusion is needed |
| `Children.dfy` | namespaces and controllers on the target: backed, leaked, stranded, pinning their subsystem |
| `Refinement.dfy`, `Agreement.dfy` | deleting what is stored; one-to-one correspondence; reading back |
| `Interleaving.dfy` | calls in flight at the same time, one atomic access a tick |
| `Races.dfy`, `Serialized.dfy`, `IndexRaces.dfy` | creates against creates; against deletes; the index beside both |
| `Frontend.dfy` | the `Server` class; each handler proved against the functions above |
| `Walks.dfy` | clients that call the List handlers page after page |

## How the environment is modelled

- `Env` carries what happens during one handler call. A store access succeeds or fails without
  effect. A remote call is `Served` (the target decides and answers), `Refused`, `Failed` (error, no
  effect) or `ReplyLost` (the target acts, the caller sees an error).
- The target is not part of the repository. `Target` says what it does when it decides: two flags
  say whether it refuses duplicate NQNs, (NQN, nsid) pairs and controller ids, and whether it refuses
  to delete a subsystem that has children. Theorems name the flag they need. Deleting something the
  target does not have is answered with success when `Served`; `Refused` covers the other answer.
- A restart keeps the store and the target and empties the in-memory maps.
- The library that builds names is known by its uses (README.md:123, README.md:126, README.md:129):
  names are segments joined by `/`, IDs hold no `/`, and the subsystem ID is a name's second segment.
  The form `volumes/ID` of a virtio device's name is not shown there and is assumed.
- The pagination helpers are modelled from pkg/frontend/nvme_subsystem_test.go:485-580; the default
  page size is an arbitrary positive constant of the server. What they do with an offset behind the
  end of a list that has shrunk is not in the repository: all four List contracts assume an empty
  page there (see "Left out").
- A query carries the rows the target answers with. Remote calls that only read are left out of the
  log, which holds the calls that change the target and the version query of a create.
- Required-field checks and name syntax checks are the request field `checked`.
- A nil dereference is an outcome of the call, `NilDereference`. Whether the process survives it is
  up to the gRPC server; where it does not, a restart follows.
- The store is one typed map per resource kind. `Lifecycle.KeysStayApart` shows that in every run the
  keys of different kinds stay apart, so the program's single keyed store holds the same records.

## Findings

- For calls made one after another, the in-memory index alone protects NQN uniqueness between
  restarts, the target alone protects it across restarts. Each has exclusions, and for each exclusion
  there is a family of runs that breaks uniqueness: `RestartDefeatsIndex`
  (pkg/frontend/frontend.go:37-43), `FailedStoreDeleteDefeatsBoth`
  (pkg/frontend/nvme_subsystem.go:133-137), `LostDeleteReplyDefeatsTarget`
  (pkg/frontend/nvme_subsystem.go:122-126).
- For overlapping calls the index alone protects nothing: two creates that both search it before
  either is in it store one NQN twice on a target that tolerates duplicates, with no fault, restart or
  delete (`TwoCreatesBreakUniqueness`, pkg/frontend/nvme_subsystem.go:61-92).
- With calls in flight together, uniqueness breaks exactly at a store `Set` of an NQN that another
  name holds (`AlwaysUniqueIff`, pkg/frontend/nvme_subsystem.go:92-96). On a target that refuses
  duplicates creates alone never do it (`RacingCreatesStayUnique`), and neither do deletes of
  different records, however many, as long as no delete reply is lost, no store `Delete` fails and the
  server does not die between a delete's call to the target and its store `Delete`; a record that is
  being deleted may then share its NQN with a new one until it is gone (`SerialDeletesStayUnique`,
  `DeleteInFlightBreaksUniqueness`, pkg/frontend/nvme_subsystem.go:119-137). Two deletes of one
  record damage the state for good, with no fault at all (`TwoDeletesBreakUniqueness`,
  pkg/frontend/nvme_subsystem.go:106-138).
- The index is not safe beside even one delete: it takes out the NQN after it has freed it on the
  target, and with it the entry of a create that has taken the NQN in between. That create ends
  stored and not indexed, with no fault (`DeleteUnindexesRacingCreate`,
  pkg/frontend/nvme_subsystem.go:133). `AlwaysIndexedIff` says exactly when the index loses an entry.
- Two overlapping creates of one name may both succeed; the later replaces the record that the
  earlier has returned, and the replaced NQN stays on the target and in the index
  (`TwoCreatesOverwrite`, pkg/frontend/nvme_subsystem.go:50-96). `RacingCreatesAccount` gives all
  NQNs that creates in flight leave behind.
- A lost create reply, a failed version query or a failed store `Set`
  (pkg/frontend/nvme_subsystem.go:74-96) leaves an NQN on the target. Where the target refuses
  duplicates, no sequence of handler calls made one after another, with or without faults and
  restarts, can store it or remove it again (`OrphanForever`).
- A lost attach reply or a failed store `Set` (pkg/frontend/nvme_namespace.go:82-96, and
  pkg/frontend/nvme_controller.go:81-97 for controllers) leaves a child on the target that no record
  stands for. Where the target refuses duplicates and guards children (and controller ids stay below
  2^31), it stays there for good, and every delete of its subsystem fails
  (`LeakedChildPinsSubsystem`).
- A lost detach reply or a failed store `Delete` (pkg/frontend/nvme_namespace.go:137-156) leaves a
  record without a child. If it was the only one, its subsystem can then be deleted, and the record
  cannot be deleted itself while no subsystem of that name is stored (`LostDeleteStrandsChild`).
- GetNvmeController compares controller ids and not NQNs: it reports a controller that the target no
  longer has when another subsystem has one of the same id (`GetFindsControllerIff`,
  pkg/frontend/nvme_controller.go:249).
- Listing controllers panics on every page of two or more rows that holds a row of another subsystem
  or type (`RenderControllers`, pkg/frontend/nvme_controller.go:214-221).
- A controller id of 2^31 or more is narrowed when stored, and its delete then names another id
  (`ControllerDeleteMatchesCreate`, pkg/frontend/nvme_controller.go:91).
- Creating a virtio device whose physical function is absent from its PCIe endpoint dereferences nil
  after the idempotency lookup (`Server.CreateVirtioBlk`, pkg/frontend/virtio.go:58).
- Every List handler records the start of the next page under a token and then leaves the token out
  of its reply (pkg/frontend/nvme_subsystem.go:199, pkg/frontend/nvme_namespace.go:232,
  pkg/frontend/nvme_controller.go:222, pkg/frontend/virtio.go:174). The walks of this project are
  therefore not open to a client of the program: it gets the first page, which shows the whole list
  exactly when no row behind it would be listed (`FirstPageShowsAll`).

## Model

The last rows, marked "supporting", each follow from one definition.

| member | source | states |
|---|---|---|
| Common.NarrowingIsCongruent | pkg/frontend/nvme_namespace.go:318-321 | an I/O counter is reported exactly iff it fits 32 signed bits, else as the one 32-bit number congruent to it modulo 2^32 |
| Names.NameRoundTrip | pkg/frontend/nvme_controller.go:118-120 | the key recovered from a child's name, and from a subsystem's own name, is the key of the subsystem the name was built from, for every child ID; the last segment of a volume name is its ID |
| Names.NamesAreInjective | pkg/frontend/nvme_namespace.go:48-50 | names of the four kinds never coincide, and a name determines the IDs it was built from |
| Names.NamesSpelled | pkg/frontend/nvme_namespace.go:48-50 | the four forms as strings: nvmeSubsystems/S, volumes/V, nvmeSubsystems/S/nvmeControllers/C and nvmeSubsystems/S/nvmeNamespaces/N |
| Names.FormsAreBuilt | pkg/frontend/nvme_namespace.go:48-50 | a string has the form of a subsystem, volume, controller or namespace name iff some IDs build it |
| Names.BaseIsLastSegment | pkg/frontend/virtio.go:195 | the base of a path is its last non-empty segment, whatever slashes follow |
| Nqn.ParsePrint | pkg/frontend/nvme_subsystem_validate.go:48 | printing a syntax tree and parsing it gives the tree back |
| Nqn.PrintParse | pkg/frontend/nvme_subsystem_validate.go:48 | parsing an accepted string and printing it gives the string back |
| Nqn.Unambiguous | pkg/frontend/nvme_subsystem_validate.go:48 | no string has two splits into year, month, dot labels and colon parts |
| Nqn.ScanAgreesWithParse | pkg/frontend/nvme_subsystem_validate.go:48-49 | a one-pass scan in constant space accepts exactly the strings that parse |
| Nqn.ScanDecidesRegex | pkg/frontend/nvme_subsystem_validate.go:48-49 | the scan accepts exactly the language of the regular expression, given by its denotation |
| Nqn.NqnBounds | pkg/frontend/nvme_subsystem_validate.go:33-52 | an accepted NQN has at least 15 characters, and one of at most 223 has at most 106 groups |
| Lifecycle.SelfKeyedRun | pkg/frontend/nvme_subsystem.go:49-97 | in every run, under all faults, each record is held under its own name and subsystem keys have the subsystem form |
| Lifecycle.KeysStayApart | pkg/frontend/nvme_controller.go:48-50 | in every run each key has the form of its kind's names, and no key is held by two kinds |
| Lifecycle.RecordStep | pkg/frontend/virtio.go:47-108 | for every kind of record: an event either leaves a held record unchanged or, if it is that record's successful delete (or a restart, for virtio), removes it; a key gains a record only from a successful create of that name, and then the create's reply |
| Lifecycle.WriteOnce | pkg/frontend/nvme_subsystem.go:50-59 | in a run of calls made one after another, a record never changes until a successful delete of its name |
| Lifecycle.CreateIsIdempotent | pkg/frontend/nvme_controller.go:51-60 | after a successful create and any run that does not end the record, each later create of that name returns the same record, changes no state and sends no command |
| Lifecycle.DeleteIsExact | pkg/frontend/nvme_subsystem.go:134 | a successful delete removes the requested key of its kind and leaves every other key of every kind alone |
| Requests.SameIdSameRecord | pkg/frontend/nvme_subsystem.go:41-59 | two creates with one non-empty client ID (and parent), whatever IDs were generated: until the record is ended, the second gets the record of the first and changes and sends nothing |
| Requests.CreateSubsystemReplies | pkg/frontend/nvme_subsystem.go:38-97 | for each possible reply, exactly when it is given, on the request's fields: among others Invalid iff a required field or the ID is bad, NQN, serial or model is longer than 223, 20 or 40, or the NQN is outside the regular expression |
| Requests.CreateSubsystemSends | pkg/frontend/nvme_subsystem.go:68-88 | the call carries the request's NQN, serial and model in their own fields; the version query follows iff it is granted |
| Requests.CreateSubsystemIndexes | pkg/frontend/nvme_subsystem.go:91-92 | the NQN is indexed iff call and version query succeed; a request that does not get to the call changes nothing |
| Requests.CreateSubsystemStores | pkg/frontend/nvme_subsystem.go:41-97 | a new record is named by the client's ID, or by the generated one if there is none, and has the request's fields and the target's version |
| Requests.DeleteSubsystemReplies | pkg/frontend/nvme_subsystem.go:101-138 | for each possible reply, exactly when it is given |
| Requests.DeleteSubsystemDoes | pkg/frontend/nvme_subsystem.go:119-137 | a delete of a stored name sends one call with the record's NQN, and unindexes and erases exactly that record |
| Requests.CreateControllerReplies | pkg/frontend/nvme_controller.go:37-97 | for each possible reply, exactly when it is given: Invalid iff a required field or the ID is bad, the transport is not PCIe or the endpoint is absent |
| Requests.CreateControllerDoes | pkg/frontend/nvme_controller.go:44-97 | one call with the stored parent's NQN and the requested function; a new record is named by the client's ID or the generated one and holds the target's id, narrowed |
| Requests.DeleteControllerReplies | pkg/frontend/nvme_controller.go:101-150 | for each possible reply, exactly when it is given |
| Requests.DeleteControllerDoes | pkg/frontend/nvme_controller.go:118-149 | one call with the parent's NQN and the record's id; the record goes iff the reply is success |
| Requests.CreateNamespaceReplies | pkg/frontend/nvme_namespace.go:37-101 | for each possible reply, exactly when it is given |
| Requests.CreateNamespaceDoes | pkg/frontend/nvme_namespace.go:44-101 | one attach with every field of the request in its own place; a new record is named by the client's ID or the generated one and holds the same fields |
| Requests.DeleteNamespaceReplies | pkg/frontend/nvme_namespace.go:105-157 | for each possible reply, exactly when it is given |
| Requests.DeleteNamespaceDoes | pkg/frontend/nvme_namespace.go:123-156 | one detach with the record's nsid, the parent's NQN and controller 0; the record goes iff the reply is success |
| Requests.CreateVirtioReplies | pkg/frontend/virtio.go:36-77 | for each possible reply, exactly when it is given |
| Requests.CreateVirtioDoes | pkg/frontend/virtio.go:41-77 | one call with the ID as serial and the request's volume, function and queue count; the record holds the same |
| Requests.DeleteVirtioReplies | pkg/frontend/virtio.go:81-108 | for each possible reply, exactly when it is given: a held device's delete succeeds iff its call is answered |
| Requests.DeleteVirtioDoes | pkg/frontend/virtio.go:94-107 | a held device's delete sends exactly one call, for its name and with force, and drops the record iff that call is answered |
| Requests.RestartEmptiesMemory | pkg/frontend/frontend.go:37-43 | a restart empties index, virtio map and page tokens and touches nothing else |
| Answers.TurnAnswers | pkg/frontend/nvme_subsystem.go:176-192 | the page holds the rows from the token's offset on, as many as asked for; a token is recorded iff rows follow; errors leave the tokens alone |
| Answers.ListSubsystemsAnswers | pkg/frontend/nvme_subsystem.go:170-184 | succeeds iff the page is well asked for and the target answers |
| Answers.ListNamespacesAnswers | pkg/frontend/nvme_namespace.go:189-218 | succeeds iff moreover the parent is stored; the rows are those listed under its NQN |
| Answers.ListControllersAnswers | pkg/frontend/nvme_controller.go:182-222 | panics iff the page has two rows or more and one of another subsystem or type; the token is recorded either way |
| Answers.ListVirtioBlksAnswers | pkg/frontend/virtio.go:136-150 | succeeds iff the page is well asked for and the target answers |
| Answers.GetSubsystemAnswers | pkg/frontend/nvme_subsystem.go:203-231 | success and each error iff; success iff the record is stored and some row has its NQN |
| Answers.GetControllerAnswers | pkg/frontend/nvme_controller.go:226-258 | likewise; some row of type nvme has the stored id |
| Answers.GetNamespaceAnswers | pkg/frontend/nvme_namespace.go:236-290 | likewise; the subsystem named in the namespace's name is stored and its NQN lists the stored nsid |
| Answers.GetVirtioBlkAnswers | pkg/frontend/virtio.go:178-210 | likewise; some virtio row has the last segment of the name |
| Answers.NamespaceStatsAnswers | pkg/frontend/nvme_namespace.go:294-326 | likewise; some controller has a row of the stored volume |
| Answers.VirtioStatsAnswers | pkg/frontend/virtio.go:214-237 | likewise; some controller has a row of the requested name, held or not |
| Answers.UpdateAnswers | pkg/frontend/nvme_subsystem.go:142-166 | no update succeeds; each error iff, for all four kinds |
| ReadOnly.QueriesErase | pkg/frontend/nvme_subsystem.go:142-242 | the run with its Get, List, Stats and Update calls and the run without them end in the same store, index, virtio map, target and log, and give every create and delete the same reply, although their page tokens differ |
| ReadOnly.TokenLasts | pkg/frontend/nvme_subsystem.go:189-192 | a page token stands for the same offset through every run of calls of any kind, until a restart or until the same token is drawn again |
| Lifecycle.DetachMatchesAttach | pkg/frontend/nvme_namespace.go:123-141 | whatever run lies between, unless it ends the namespace or its subsystem, create and delete each send one call, and the detach carries the NQN, controller 0 and nsid of the attach |
| Lifecycle.ControllerDeleteMatchesCreate | pkg/frontend/nvme_controller.go:118-134 | likewise the controller delete carries the NQN sent at create, and the target's id iff that is below 2^31 |
| Provenance.RecordsAreExplained | pkg/frontend/nvme_namespace.go:72-97 | in every run, each record's fields are those of a call the target granted: a subsystem's NQN, serial, model and, from the version query right behind it, firmware; a controller's function and the narrowed id of the answer; a namespace's volume, nsid and ids; a virtio device's volume, function and queues under its own serial. Children were requested under an NQN granted before |
| Uniqueness.CreateBreaksUniquenessIff | pkg/frontend/nvme_subsystem.go:60-97 | a create breaks uniqueness iff it reaches the store with an NQN that is stored already |
| Uniqueness.UniqueByIndex | pkg/frontend/nvme_subsystem.go:60-97 | for calls made one after another, without restarts and failing store Deletes, under all remote and Set faults and any target, stored NQNs are distinct and indexed, and the index exceeds them by exactly the NQNs whose Set failed |
| Uniqueness.IndexAgreement | pkg/frontend/nvme_subsystem.go:92-95 | from an empty store without store faults and restarts, the index holds exactly the stored NQNs, whatever the remote calls do |
| Uniqueness.ReservedUntilRestart | pkg/frontend/nvme_subsystem.go:61-66 | an NQN that is indexed but not stored stays so under every fault, every create of it is turned away, and only a restart frees it |
| Uniqueness.UniqueByTarget | pkg/frontend/nvme_subsystem.go:119-137 | across restarts, without lost delete replies and failing store Deletes, a target that refuses duplicates keeps stored NQNs distinct, and its NQNs are the stored ones plus exactly the orphans made by lost create replies, failed version queries and failed Sets |
| Uniqueness.OrphanForever | pkg/frontend/nvme_subsystem.go:74-96 | on a target that refuses duplicates, an orphan is still one after every run, under all faults and restarts, and every create of its NQN fails |
| Uniqueness.ValidatedForever | pkg/frontend/nvme_subsystem_validate.go:33-52 | under all faults and restarts, each stored or indexed NQN is in the grammar, 15 to 223 long, with at most 106 groups, and serial and model numbers keep their bounds |
| Uniqueness.RestartDefeatsIndex | pkg/frontend/frontend.go:37-43 | on a target that tolerates duplicates, create, restart, create of the same NQN always stores it twice |
| Uniqueness.FailedStoreDeleteDefeatsBoth | pkg/frontend/nvme_subsystem.go:133-137 | create, delete with failing store Delete, create of the same NQN always stores it twice |
| Uniqueness.LostDeleteReplyDefeatsTarget | pkg/frontend/nvme_subsystem.go:122-126 | after a create, a delete whose reply is lost, a restart and a create of the same NQN always store it twice |
| Children.ChildrenStayBacked | pkg/frontend/nvme_namespace.go:62-97 | over every run in which no delete of that kind of child loses its reply or its store Delete (and controller ids fit 31 bits), all else failing at will: every stored child has a stored parent and a child of its own on the target, which has beyond these exactly those whose create was lost or whose Set failed |
| Children.LostCreatePinsSubsystem | pkg/frontend/nvme_namespace.go:82-96 | a create whose reply or store Set is lost after the target has acted leaves such a child |
| Children.LeakedChildPinsSubsystem | pkg/frontend/nvme_namespace.go:82-96 | a child without a record stays on the target through every run, under all faults and restarts (controllers: with ids below 2^31), and every delete of its subsystem fails |
| Children.LostDeleteStrandsChild | pkg/frontend/nvme_namespace.go:123-156 | when the delete of an only child loses its reply or its store Delete, a delete of the subsystem goes through, and a delete of the child then fails |
| Refinement.RefinesIffNothingIsLost | pkg/frontend/nvme_namespace.go:62-97 | store and target correspond one to one iff both barriers hold and nothing is orphaned or leaked |
| Refinement.StoreRefinesTarget | pkg/frontend/nvme_namespace.go:62-97 | in every run without losses, restarts and virtio calls of any outcome included, stored subsystems, namespaces and controllers correspond one to one to the target's NQNs, (NQN, nsid) and (NQN, cntlid) pairs, and every stored child has a stored parent |
| Refinement.StoredNamespaceIsDeletable | pkg/frontend/nvme_namespace.go:123-156 | after every run in which no namespace delete was lost, deleting a stored namespace never meets the missing-subsystem error, and if all answer it succeeds and removes exactly that record and pair |
| Refinement.StoredControllerIsDeletable | pkg/frontend/nvme_controller.go:118-150 | likewise for controllers, with ids below 2^31 |
| Agreement.StoredSubsystemIsFound | pkg/frontend/nvme_subsystem.go:203-232 | after every run without lost subsystem deletes, Get finds every stored subsystem in a complete subsystem list |
| Agreement.StoredControllerIsFound | pkg/frontend/nvme_controller.go:229-258 | after every run without lost controller deletes and with ids below 2^31, Get finds every stored controller in a complete controller list |
| Agreement.StoredNamespaceIsFound | pkg/frontend/nvme_namespace.go:251-290 | after every run without lost namespace deletes, Get finds every stored namespace through the parent recovered from its name |
| Agreement.GetFindsControllerIff | pkg/frontend/nvme_controller.go:247-258 | asked for a stored controller, with a list of exactly the target's controllers, Get succeeds iff the target has it or has one of the same id under another NQN |
| Agreement.ListedDeviceIsFound | pkg/frontend/virtio.go:195-206 | a device that is held and listed under a name is found by Get under that name, through the name's last segment |
| Interleaving.UninterruptedCreate | pkg/frontend/nvme_subsystem.go:51-97 | the atomic steps of a create, run without interruption, are the create handler |
| Interleaving.UninterruptedDelete | pkg/frontend/nvme_subsystem.go:106-138 | the atomic steps of a delete, run without interruption, are the delete handler |
| Interleaving.TickBreaksUniquenessIff | pkg/frontend/nvme_subsystem.go:92-96 | whatever is in flight, one atomic access breaks uniqueness iff it is a store Set of an NQN that another name holds; no access of a delete ever does |
| Interleaving.AlwaysUniqueIff | pkg/frontend/nvme_subsystem.go:51-138 | at every moment of a schedule of creates, deletes and crashes the stored NQNs are distinct iff they were at the start and no tick is such a Set |
| Interleaving.RacingCreatesStayUnique | pkg/frontend/nvme_subsystem.go:51-97 | any number of creates in flight, any interleaving, any faults and crashes: a target that refuses duplicates keeps stored NQNs distinct, even when two calls race on one name |
| Interleaving.RacingCreatesStayIndexed | pkg/frontend/nvme_subsystem.go:91-95 | without crashes, every stored NQN is in the index after every tick |
| Races.TwoCreatesBreakUniqueness | pkg/frontend/nvme_subsystem.go:61-92 | on a tolerant target, with no fault, restart or delete: from every state in which both may pass, two overlapping creates of one NQN both succeed and store it twice |
| Races.TwoCreatesOverwrite | pkg/frontend/nvme_subsystem.go:50-96 | with no fault, two overlapping creates of one name both succeed, the later replaces the record returned by the earlier, and the replaced NQN stays on the target and in the index |
| Races.RecordTick | pkg/frontend/nvme_subsystem.go:93-134 | with calls in flight, a record changes exactly by a store Set under its name and goes exactly by a store Delete of its name |
| Races.RacingCreatesAccount | pkg/frontend/nvme_subsystem.go:74-96 | any creates in flight, any faults and crashes, a refusing target: its NQNs are the stored ones, those on their way to the store, and exactly those lost to a reply, a version query, a Set, a later create of the same name or a crash |
| Interleaving.DeleteInFlightBreaksUniqueness | pkg/frontend/nvme_subsystem.go:119-137 | with no fault, any stored subsystem without guarded children can be duplicated while one delete of it is between index and store |
| Serialized.SerialDeletesStayUnique | pkg/frontend/nvme_subsystem.go:106-138 | creates in flight beside any number of deletes, no two of them active for one record, without lost delete replies, failing store Deletes or a crash between target and store: stored NQNs are distinct except for records on their way out, and all are once no delete is between target and store |
| Serialized.TwoDeletesBreakUniqueness | pkg/frontend/nvme_subsystem.go:106-138 | with no fault, from every state with a stored, childless subsystem: two deletes that have both read its record lead to an NQN stored twice after every call has finished |
| IndexRaces.TickLosesEntryIff | pkg/frontend/nvme_subsystem.go:92-134 | while stored NQNs (and those about to be stored) are indexed, one atomic access breaks that iff it restarts with something stored, unindexes an NQN that another record or a storing call has, or fails to erase a record whose NQN is out already |
| IndexRaces.AlwaysIndexedIff | pkg/frontend/nvme_subsystem.go:51-138 | at every moment of a schedule stored NQNs are indexed, records about to be erased apart, iff they were at the start and no tick is of these |
| IndexRaces.DeleteUnindexesRacingCreate | pkg/frontend/nvme_subsystem.go:119-137 | with no fault, a delete removes the index entry of a create that took the NQN after the delete had freed it; when every call has finished the NQN is stored and not indexed |
| Sorting.SortSlice | pkg/frontend/nvme_controller.go:30-34 | sorts the slots in place, and panics iff there are at least two and one of them is nil |
| Paging.WalkCompletes | pkg/frontend/nvme_subsystem.go:189-192 | for every choice of rows and every order, following the recorded tokens reaches the last page from any token map |
| Paging.WalkEnds | pkg/frontend/nvme_subsystem.go:186-192 | a walk makes at most one call per row |
| Paging.WalkIsComplete | pkg/frontend/nvme_subsystem.go:186-199 | the pages of a finished walk hold exactly the picked rows of the unchanged list, with their multiplicity, although other calls may add tokens in between |
| Paging.WalkIsSorted | pkg/frontend/nvme_namespace.go:226-232 | every page of a walk, finished or not, is sorted |
| Paging.FirstPageShowsAll | pkg/frontend/nvme_subsystem.go:186-199 | the first page shows the whole list iff no row behind it is picked |
| Paging.StringLessIsComesBefore | pkg/frontend/nvme_subsystem.go:32-34 | the order of the string listings is by first difference, a proper prefix first |
| Listing.SubsystemWalk | pkg/frontend/nvme_subsystem.go:186-199 | a finished walk over subsystems shows each row of the whole list as often as it occurs, with its own NQN, serial and model |
| Listing.NamespaceWalk | pkg/frontend/nvme_namespace.go:219-232 | likewise over namespaces, with the narrowed nsid of each row |
| Listing.VirtioWalk | pkg/frontend/virtio.go:151-174 | a finished walk over virtio devices shows exactly the virtio rows of the whole list, with their names and functions, although pages are cut before filtering |
| Listing.RenderSubsystems | pkg/frontend/nvme_subsystem.go:193-198 | the reply holds each row of the page as often as it is there, NQN, serial and model each in its own field, in ascending order of NQN |
| Listing.RenderNamespaces | pkg/frontend/nvme_namespace.go:226-231 | the reply holds the narrowed nsid of each row of the page as often as it is there, ascending |
| Listing.RenderVirtioBlks | pkg/frontend/virtio.go:158-173 | the reply holds exactly the virtio rows of the page, with their own name and function, in ascending order of name |
| Listing.RenderControllers | pkg/frontend/nvme_controller.go:214-221 | the listing is well defined iff every row is an nvme controller of the subsystem or the page has at most one row; if all match it holds each row's narrowed id as often as it is there, ascending |
| Frontend.Server.constructor | pkg/frontend/frontend.go:30-44 | a new server starts with empty index, virtio map and page tokens over the given store and target |
| Frontend.Server.IsIndexed | pkg/frontend/nvme_subsystem.go:61-66 | the key-by-key search decides membership in the index |
| Frontend.Server.CreateNvmeSubsystem | pkg/frontend/nvme_subsystem.go:38-98 | reply and new state are those of the protocol function, under every environment; `Requests` says of it, reply by reply, what it does |
| Frontend.Server.DeleteNvmeSubsystem | pkg/frontend/nvme_subsystem.go:101-139 | likewise for the delete |
| Frontend.Server.CreateNvmeController | pkg/frontend/nvme_controller.go:37-98 | likewise; only the controller records and the target change |
| Frontend.Server.DeleteNvmeController | pkg/frontend/nvme_controller.go:101-151 | likewise for the delete |
| Frontend.Server.CreateNvmeNamespace | pkg/frontend/nvme_namespace.go:37-102 | likewise; only the namespace records and the target change |
| Frontend.Server.DeleteNvmeNamespace | pkg/frontend/nvme_namespace.go:105-158 | likewise for the delete |
| Frontend.Server.CreateVirtioBlk | pkg/frontend/virtio.go:36-78 | likewise; only the in-memory virtio map and the target change, and an absent physical function is a nil dereference after the lookup |
| Frontend.Server.DeleteVirtioBlk | pkg/frontend/virtio.go:81-109 | likewise for the delete |
| Frontend.Server.ListNvmeSubsystems | pkg/frontend/nvme_subsystem.go:170-200 | state and outcome are those of the query, with the next offset recorded under the fresh token iff more rows follow; the reply holds each row of the page as often as it is there, NQN, serial and model in their own fields, in ascending order of NQN |
| Frontend.Server.ListNvmeNamespaces | pkg/frontend/nvme_namespace.go:189-233 | likewise, for the rows the target lists under the parent's NQN |
| Frontend.Server.ListNvmeControllers | pkg/frontend/nvme_controller.go:182-223 | likewise, or a panic exactly as RenderControllers says, the token being recorded first |
| Frontend.Server.ListVirtioBlks | pkg/frontend/virtio.go:136-175 | likewise, for the virtio rows of the page |
| Frontend.Server.GetNvmeSubsystem | pkg/frontend/nvme_subsystem.go:203-232 | succeeds iff the record is stored and its NQN is listed, else fails for the first reason met; returns the first such row |
| Frontend.Server.GetNvmeController | pkg/frontend/nvme_controller.go:226-259 | succeeds iff the record is stored and some nvme row, of any subsystem, has its id; returns that id |
| Frontend.Server.GetNvmeNamespace | pkg/frontend/nvme_namespace.go:236-291 | succeeds iff record and recovered parent are stored and the target lists the nsid under the parent's NQN |
| Frontend.Server.GetVirtioBlk | pkg/frontend/virtio.go:178-211 | succeeds iff the device is held and a virtio row is named by the last segment of its name; returns the first such row |
| Frontend.FindBdev | pkg/frontend/nvme_namespace.go:315-326 | finds a row iff one has the name, and then the first in controller-then-bdev order, with its narrowed counters |
| Frontend.Server.StatsNvmeSubsystem | pkg/frontend/nvme_subsystem.go:235-242 | never succeeds |
| Frontend.Server.StatsNvmeController | pkg/frontend/nvme_controller.go:262-269 | never succeeds |
| Frontend.Server.StatsNvmeNamespace | pkg/frontend/nvme_namespace.go:294-327 | reports the first row of the stored namespace's volume, and fails iff there is none or an access fails |
| Frontend.Server.StatsVirtioBlk | pkg/frontend/virtio.go:214-238 | reports the first row of the requested name, and fails iff there is none or the call fails |
| Frontend.Server.UpdateNvmeSubsystem | pkg/frontend/nvme_subsystem.go:142-167 | changes nothing and never succeeds; a missing record is an error even where missing is allowed |
| Frontend.Server.UpdateNvmeController | pkg/frontend/nvme_controller.go:154-179 | likewise |
| Frontend.Server.UpdateNvmeNamespace | pkg/frontend/nvme_namespace.go:161-186 | likewise |
| Frontend.Server.UpdateVirtioBlk | pkg/frontend/virtio.go:112-133 | likewise |
| Walks.WalkSubsystems | pkg/frontend/nvme_subsystem.go:170-200 | calling the handler, and calling it again with the token it recorded, ends and is a finished walk |
| Walks.WalkNamespaces | pkg/frontend/nvme_namespace.go:189-233 | likewise |
| Walks.WalkVirtioBlks | pkg/frontend/virtio.go:136-175 | likewise |
| Walks.ShowSubsystems | pkg/frontend/nvme_subsystem.go:170-200 | from any state of the server, such calls show each row of the list as often as it occurs, with its own fields, each page sorted, in at most one call a row |
| Walks.ShowVirtioBlks | pkg/frontend/virtio.go:136-175 | likewise for exactly the virtio rows |
| Lifecycle.RefusedVirtioDeleteForgets | pkg/frontend/virtio.go:94-108 | supporting: a virtio delete that the target refuses still succeeds and drops the record, with the target unchanged |
| Lifecycle.DeleteOfMissing | pkg/frontend/nvme_controller.go:112-117 | supporting: for every kind, deleting a name that is not held changes nothing, sends nothing, and succeeds iff missing is allowed |
| Lifecycle.TurnedAwayLeavesNoTrace | pkg/frontend/nvme_namespace.go:39-70 | supporting: a call that ends in an invalid request, a missing record or parent, or a duplicate NQN has changed no state and sent no command |
| Uniqueness.InitiallyAllHolds | pkg/frontend/frontend.go:37-43 | supporting: the empty start satisfies the invariants of the theorems above |
| Refinement.InitiallyRefines | pkg/frontend/frontend.go:37-43 | supporting: the empty start is in one-to-one correspondence with an empty target |
| Children.UnguardedDeleteStrandsChild | pkg/frontend/nvme_subsystem.go:119-138 | supporting: on a target that does not guard children, deleting a subsystem leaves its stored children without a parent |
| Answers.OtherStatsAnswer | pkg/frontend/nvme_controller.go:262-269 | supporting: statistics of subsystems and controllers are always an error |
| Interleaving.CrashIsRestart | pkg/frontend/frontend.go:37-43 | supporting: a crash is a restart that no call in flight survives |
| Target.DeletedIsGone | pkg/frontend/nvme_subsystem.go:119-122 | supporting: once the assumed target has deleted a subsystem, its children there are gone and all others remain |
| Uniqueness.RivalsExist | pkg/frontend/nvme_subsystem_validate.go:48 | supporting: two valid requests for one NQN under different names exist |
| Interleaving.IdleIsRaceFree | pkg/frontend/frontend.go:37-43 | supporting: an idle server whose stored NQNs are distinct, known to the target and indexed meets the hypotheses of the racing creates |
| IndexRaces.IndexedWhenNothingErases | pkg/frontend/nvme_subsystem.go:133-134 | supporting: while no delete is between index and store, the invariant of the index is that every stored NQN is indexed |

## Left out

- Calls in flight together on controllers, namespaces and virtio devices: only subsystem calls are split into atomic accesses.
- gRPC status codes and messages: errors are told apart by cause, not by code.
- Frontend.Server.ListNvmeSubsystems: a token whose offset lies behind the end of a list that has shrunk is assumed to get an empty page; the pagination helper is not part of this model.
- Frontend.Server.ListNvmeNamespaces: the same assumption.
- Frontend.Server.ListNvmeControllers: the same assumption.
- Frontend.Server.ListVirtioBlks: the same assumption.
- Sorting.SortSlice: an insertion sort stands for Go's sort.Slice; the theorems use only its contract (sorted, permutation, panic on nil), which any comparison sort has.
- Reading a record of one kind under the name of another: what the encoding then yields is not in the repository, so the store is one typed map per kind.
- The further rules of the library for user-settable IDs (lower case, length): accepting more IDs only adds runs.
- JSON-RPC transport, encoding, tracing, TLS, gateway and flags.
- Go-level data races on the maps: each map access is one atomic step.
- What the target does with a virtio-blk device beyond answering: create sends a serial and delete sends a name, and how the two relate is the target's affair.
