# NVMe front-end bridge: a verified model

The bridge turns NVMe front-end requests (create, update, delete, get and list subsystems, controllers and namespaces)
into commands for a remote Marvell device, and keeps what it created in a persistent key/value store. Three parties
share the truth: the bridge's own key index (`ListHelper`) and table of page positions (`Pagination`), which a restart
empties; the store, which survives; and the device, which changes only by commands. Any read, write or command can
fail, a lost command may have run all the same, and the loops over the index run in no particular order.

The model follows the handlers branch by branch and step by step. `Handlers.dfy` has each handler as a function of the
session it is served in; `Server.dfy` has the server as the program does, with mutable maps, a store object, a
connection object, loops over the index and an array sorted in place, and proves that each handler method does what its
function says. Everything else is proved about the functions and about runs of them.

## Files

| file | contents |
|---|---|
| `Text.dfy`, `Names.dfy` | splitting and joining at a character; resource names, and which keys a loop selects |
| `Nqn.dfy` | the NQN pattern: a one-pass matcher, the grammar, the length limits |
| `Device.dfy` | the device: what each command does, what is assumed of it, how a call can go |
| `Bridge.dfy`, `Handlers.dfy`, `Runs.dfy` | state, store and wire; the handlers; runs with faults and restarts |
| `Sorting.dfy`, `Pages.dfy` | sorting as a function and in place; page walks and positions |
| `Requests.dfy`, `Answers.dfy` | which requests are turned away unseen, how what they create is named; what each is answered and sends, whatever goes wrong |
| `Shape.dfy`, `Codecs.dfy` | what every reachable state satisfies; records read as another kind |
| `Effects.dfy`, `Agreement.dfy` | what a request does to index and store; index against store; repeated creates |
| `Scan.dfy`, `Wire.dfy` | the duplicate-NQN scan; what commands and records carry; controller ids |
| `Backing.dfy`, `Orphans.dfy`, `Counts.dfy` | the store within the device over every run; no orphans, by counting |
| `Limits.dfy`, `Leaks.dfy` | exactly when a step breaks that; what creates and deletes that half succeed leave for good |
| `Sweep.dfy`, `Namespaces.dfy`, `Convergence.dfy` | the attach and detach loops; success in any order, exact partial failure, exact conditions of success, retries |
| `Locality.dfy` | requests under different subsystems do not interfere |
| `History.dfy` | attachments on the device as a history of creations |
| `Server.dfy` | the server with mutable state (module `Frontend`) |

## What is assumed

- Of the device nothing beyond `Device.dfy`: what each command does, and eight flags (`Device.Contract`) for what it may
  do otherwise. It may or may not delete a subsystem that is not empty; take an NQN twice, and then start the unit anew
  or keep it; unallocate an attached namespace; attach what is attached and detach what is not; let the attachments of a
  controller or namespace go with it; give a controller the id it was asked for; answer an update with the id it was
  sent. A theorem that needs a flag says so, and for each there is one that says exactly what changes without it:
  `Limits.ForcedDeleteOrphansExactly` and `Limits.DuplicateNqnOrphansExactly` for the first three,
  `Convergence.DeleteSucceedsExactly`, `Convergence.CreateSucceedsExactly` and `Convergence.RetriedDeleteConverges` for
  attached namespaces and for links made twice, `History.DeleteKeepsHistoryExactly` and
  `History.NamespaceDeleteKeepsHistoryExactly` for the attachments that a controller or namespace leaves behind,
  `Convergence.CreateControllerSucceedsExactly`, `Limits.UpdateBackedExactly` and `History.UpdateKeepsHistoryExactly` for
  the ids.
- Allocation answers an instance id, but attach, detach and unallocation carry the client's `HostNsid`. That no stored
  child is ever without its parent needs nothing of the ids (`Counts.NoOrphansEver`); that subsystems and controllers
  exist on the device needs nothing of the namespaces' ids. Only for the namespaces themselves, and for the history of
  attachments, is it assumed that the device allocates under `HostNsid`; `Limits.CreateNamespaceBackedExactly` and
  `Convergence.CreateSucceedsExactly` say exactly what happens when it does not.
- The store's encoding carries no kind. The theorems are about a codec that never decodes a record as another kind (a
  parameter, `Bridge.Codec`, with this as its default); `Codecs.CodecImmaterial` and `Codecs.RunsAlike` carry them over
  to every codec for requests that name their own kind. Whatever a record decodes to is complete but for a controller's
  id, which may be absent.
- A delete is told when its store writes succeed and a call of it that fails had no effect on the device. Theorems over
  runs that need this say of which deletes.
- Generated ids are well formed (no `/`); generated page tokens are new. Other services use other keys of the store.

## What the proofs turned up

- The duplicate-NQN scan filters on `//storage.opiproject.org/subsystems`, which is a prefix of no name the bridge
  builds: the scan never reads anything. Uniqueness of NQNs then rests on the device alone. A filter that does
  recognise subsystem names keeps NQNs unique, until a restart empties the index it walks over.
- With a controller present a namespace create succeeds only if the client's `HostNsid` happens to be an instance id
  the device has already allocated or picks for this very call.
- A subsystem create leaks its NQN when the creating command runs and the subsystem is not recorded all the same,
  because an answer is lost or the store write fails. On a device that refuses an NQN in use no later request can free
  a leaked NQN or give it to a subsystem.
- A namespace create that fails after its allocation, and a controller create that runs without being recorded, leave
  a child on the device that no stored object accounts for. Its subsystem can then never be deleted from a device that
  refuses to delete what is not empty; and on a device that allocates under `HostNsid` no namespace can ever be created
  under that `HostNsid` again.
- A delete or get of a controller that names a subsystem or namespace dereferences a missing id if that record happens
  to decode as a controller without one, and an update puts a controller in its place. The checks of the request let
  such names through.
- A delete that the device carries out but the bridge does not record, because the answer is lost or the store erase
  fails, leaves a stored object the device no longer has. A namespace in that state can not be deleted until the device
  happens to pick its id for another one.
- A controller create whose store write fails blocks its subsystem: no namespace can be created or deleted under it
  until the controller is created again or the bridge restarts.
- After a restart the index is empty. New namespaces are attached to no older controller, and a namespace that is
  attached can not be deleted from a device that insists on detaching first. On a device that neither insists nor drops
  the attachments itself they outlive the namespace, and the next one with its id has them.
- The delete loop detaches from every controller in the index, also from those created after the namespace and never
  attached to it. On a device that refuses to detach what is not attached such a namespace can not be deleted, and a
  delete that failed part-way can not be completed by repeating it.
- A continued list request on a list that has shrunk below the kept position is a slice error. The token of the next
  page is kept but never put into the response, so theorems about page walks speak of the kept positions.
- The length messages say "between 1 and" the limit, but an empty serial number or model number passes; an empty NQN
  is refused by the pattern. The well-known discovery NQN has no `:` and is refused.

## Model

| member | source | states |
|---|---|---|
| Names.ControllerNameParses | pkg/frontend/nvme_controller.go:50-52 | the subsystem id and resource id parsed from a built controller name are the ids it was built from |
| Names.NamespaceNameParses | pkg/frontend/nvme_namespace.go:49-51 | likewise for namespace names |
| Names.NameIsRebuilt | README.md:85-91 | a key of one of the three shapes is rebuilt from the ids it parses to, so parsing and building are inverse |
| Names.NamesAreInjective | pkg/frontend/nvme_subsystem.go:48-49 | building is injective in its ids and the three kinds of name are disjoint: distinct resources never share a store key |
| Names.SubsystemSpelledOut | README.md:85-91 | the name built for a subsystem is `nvmeSubsystems/` and its id |
| Names.ControllerSpelledOut | README.md:85-91 | that of a controller is its subsystem's, `/nvmeControllers/` and its id |
| Names.NamespaceSpelledOut | README.md:85-91 | that of a namespace is its subsystem's, `/nvmeNamespaces/` and its id |
| Names.PrefixTestIsExact | pkg/frontend/nvme_namespace.go:93-107 | over all keys of the three shapes the prefix test of the loops selects exactly the controllers of the subsystem, for ids of any length |
| Nqn.MatcherIsTheGrammar | pkg/frontend/nvme_subsystem_validate.go:48-52 | a one-pass matcher accepts a string if and only if it has a decomposition in the grammar of the regular expression, and then only one |
| Nqn.DecomposeRender | pkg/frontend/nvme_subsystem_validate.go:48-49 | reading a decomposition off the marks undoes putting it together |
| Nqn.CheckIsExact | pkg/frontend/nvme_subsystem_validate.go:32-52 | a request passes the program's own checks if and only if NQN, serial and model fit 223, 20 and 40 and the NQN is in the grammar |
| Nqn.UuidNqnAccepted | pkg/frontend/nvme_subsystem_validate.go:48-52 | every UUID-based NQN (section 7.9 of NVM Express Base Specification 1.4) passes |
| Nqn.NoSuffixRefused | pkg/frontend/nvme_subsystem_validate.go:48-52 | an NQN without a colon is refused, the well-known discovery NQN among them |
| Sorting.SortInPlace | pkg/frontend/nvme_subsystem.go:31-35 | the array ends as the sort of what it held |
| Sorting.SortIsSortedPermutation | pkg/frontend/nvme_controller.go:32-36 | the sort of a sequence is a permutation of it and in order |
| Sorting.SortedPermutationIsUnique | pkg/frontend/nvme_namespace.go:31-35 | two ordered permutations of one another are equal, so any sorting algorithm gives this result |
| Sorting.SortedAscend | pkg/frontend/nvme_controller.go:32-36 | sorted ids ascend and are those that were given |
| Sorting.SortedTextsAscend | pkg/frontend/nvme_subsystem.go:31-35 | sorted NQNs ascend, a prefix first and else by the first byte that differs, and are those that were given |
| Frontend.Server.constructor | pkg/frontend/frontend.go:28-41 | a new server has no key and no position and leaves store and device as they are |
| Frontend.Server.ScanForDuplicate | pkg/frontend/nvme_subsystem.go:60-78 | the loop over the index, in the order it takes, does what the scan function says, early exits included |
| Frontend.Server.CreateNvmeSubsystem | pkg/frontend/nvme_subsystem.go:38-115 | session and answer are those of the handler function, for the order of the keys the loop took |
| Frontend.Server.DeleteNvmeSubsystem | pkg/frontend/nvme_subsystem.go:118-156 | likewise |
| Frontend.Server.ListNvmeSubsystems | pkg/frontend/nvme_subsystem.go:187-221 | likewise, with the page filled into an array and sorted in place |
| Frontend.Server.GetNvmeSubsystem | pkg/frontend/nvme_subsystem.go:224-258 | session and answer are those of the handler function, with the loop over the device's list |
| Frontend.Server.CreateNvmeController | pkg/frontend/nvme_controller.go:39-108 | session and answer are those of the handler function |
| Frontend.Server.DeleteNvmeController | pkg/frontend/nvme_controller.go:111-164 | likewise |
| Frontend.Server.UpdateNvmeController | pkg/frontend/nvme_controller.go:167-237 | likewise |
| Frontend.Server.GetNvmeController | pkg/frontend/nvme_controller.go:289-333 | likewise |
| Frontend.Server.ListNvmeChildren | pkg/frontend/nvme_controller.go:240-286 | likewise, for controllers and for namespaces (pkg/frontend/nvme_namespace.go:254-301) |
| Frontend.Server.LinkEachController | pkg/frontend/nvme_namespace.go:92-122 | the attach loop, and the detach loop of lines 170-201, over the index in the order it takes: device, log and early exit are those of the loop function |
| Frontend.Server.CreateNvmeNamespace | pkg/frontend/nvme_namespace.go:38-135 | session and answer are those of the handler function, for the order of the keys the loop took |
| Frontend.Server.DeleteNvmeNamespace | pkg/frontend/nvme_namespace.go:138-223 | likewise |
| Frontend.Server.GetNvmeNamespace | pkg/frontend/nvme_namespace.go:304-357 | likewise |
| Frontend.SortedIds | pkg/frontend/nvme_controller.go:279-284 | the ids of a page, converted to int32 into a new array and sorted in place: each is no greater than the next |
| Frontend.SortedNqns | pkg/frontend/nvme_subsystem.go:214-219 | the NQNs of a page, filled into a new array and sorted in place: each comes before the next byte by byte |
| Frontend.Server.Serve | pkg/frontend/frontend.go:19-25 | serving any request is a step of the run, with the loop in the order it happened to take; with any codec it keeps the state well shaped unless it updates a name of another kind, and for a request that names its own kind it keeps what is stored on the device, and accounted for, where the step can be trusted |
| Requests.InvalidExactly | pkg/frontend/nvme_subsystem_validate.go:21-54 | every request is answered as invalid, with nothing sent or changed, if and only if a library check failed, a chosen id has a `/`, NQN, serial or model exceed 223, 20 and 40 or the NQN is not in the grammar, a controller is not PCIe with an endpoint, a page size is negative, or an update's mask is refused after its read |
| Requests.CreatedIsNamedAsAsked | pkg/frontend/nvme_namespace.go:44-51 | a successful create answers an object of its kind, stored under the name that carries the id the client chose, or the generated one if it chose none, under the parent's subsystem |
| Requests.AskingAgainIsIdempotent | pkg/frontend/nvme_namespace.go:44-61 | a create repeated with the same chosen id and parent, whatever id is generated, returns the first answer, sends nothing and changes nothing, after any run in which no delete or update of the resource succeeds |
| Answers.CreateSubsystemAnswers | pkg/frontend/nvme_subsystem.go:50-115 | an acceptable create answers, in this order: the failed read or the stored subsystem, what the scan has against the first key it objects to, what went wrong with the creating command or the version query, the failed write, or the subsystem with the version as firmware |
| Answers.CreateSubsystemSucceedsExactly | pkg/frontend/nvme_subsystem.go:38-115 | a create succeeds if and only if it is acceptable and either its subsystem is stored and read, or the read, the scan, the calls and the write go well and the device takes the NQN |
| Answers.CreateControllerAnswers | pkg/frontend/nvme_controller.go:53-107 | likewise: stored controller, parent lookup, one command with the request's fields, and the active record with the request's fields and the answered id |
| Answers.UpdateControllerAnswers | pkg/frontend/nvme_controller.go:173-236 | an acceptable update answers the first lookup that fails, what went wrong with its one command or the write, or the record it kept |
| Answers.CreateNamespaceAnswers | pkg/frontend/nvme_namespace.go:52-134 | a create answers the stored namespace, the lookup that fails or what went wrong with the allocation; a success answers and stores the namespace as requested, under its name and online |
| Answers.MissingDeleteAnswers | pkg/frontend/nvme_namespace.go:149-155 | a delete of what is not stored sends nothing, changes nothing, and is acknowledged if and only if that was allowed; otherwise it is not found |
| Answers.OkDeleteFoundSomething | pkg/frontend/nvme_namespace.go:144-222 | a delete that was not allowed to find nothing and succeeds has erased what was stored under its name from store and index |
| Answers.DeleteSubsystemAnswers | pkg/frontend/nvme_subsystem.go:124-155 | a delete of a stored subsystem sends one command and answers what went wrong with it or with the erase, or is acknowledged and erased |
| Answers.DeleteControllerAnswers | pkg/frontend/nvme_controller.go:117-163 | likewise for a controller, whose removal is forced and carries its recorded id |
| Answers.DeleteNamespaceAnswers | pkg/frontend/nvme_namespace.go:144-168 | a delete of a stored namespace answers the lookup that fails, with nothing sent or changed |
| Answers.GetSubsystemAnswers | pkg/frontend/nvme_subsystem.go:224-258 | a get of a stored subsystem asks for the device's list and succeeds if and only if its NQN is there, answering that NQN and `TBD`; otherwise it answers the lookup or call that failed |
| Answers.GetControllerAnswers | pkg/frontend/nvme_controller.go:289-333 | a get of a stored controller asks for its recorded id under its subsystem's NQN and answers its name and that id |
| Answers.GetNamespaceAnswers | pkg/frontend/nvme_namespace.go:304-357 | a get of a stored namespace asks for its HostNsid and answers its name and the text the device gave |
| Answers.ListSubsystemsAnswers | pkg/frontend/nvme_subsystem.go:187-221 | a list answers an unknown token, what went wrong with its one question, a position beyond the list, or the elements from its position on, 50 of them by default and 250 at most, in order, and keeps where they end unless that is the end |
| Answers.ListChildrenAnswers | pkg/frontend/nvme_controller.go:240-286 | likewise for controllers and for namespaces (pkg/frontend/nvme_namespace.go:254-301), each with its own question under the parent's NQN |
| Shape.ReachableStatesAreShaped | pkg/frontend/nvme_controller.go:128-145 | in every run with any faults and restarts, and with any codec as long as no update names a resource of another kind, each object is stored under its own name and each controller record is PCIe with endpoint and an id in 0..256; with a codec that never decodes another kind the next request never dereferences a missing id |
| Shape.RunsStayShaped | pkg/frontend/nvme_controller_validate.go:30-36 | no such run leaves the well-shaped states, whatever records decode to |
| Shape.IdSurvivesInt32 | pkg/frontend/nvme_controller.go:99 | an id in the device's range survives the conversion to int32 and back |
| Bridge.Int32Wraps | pkg/frontend/nvme_controller.go:281 | the conversion gives the one number in the range of int32 that agrees with the given one modulo two to the 32 |
| Codecs.CodecImmaterial | cmd/main.go:63-66 | in a well-shaped state a request that names its own kind gives the same state, answer and commands with every codec |
| Codecs.RunsAlike | cmd/main.go:63-66 | and so does every run of such requests, with the program's filter or one that selects no controller or namespace: all theorems about runs hold with every codec |
| Codecs.OwnKindNeverDereferences | pkg/frontend/nvme_controller.go:116-145 | in every run with any codec a request that names its own kind never dereferences a missing id, whatever kinds the requests before it named, updates apart |
| Codecs.DeleteDereferencesExactly | pkg/frontend/nvme_controller.go:116-145 | a delete of a controller dereferences a missing id if and only if it names a record of another kind that decodes as a controller without id, its parent is stored and both reads work |
| Codecs.GetDereferencesExactly | pkg/frontend/nvme_controller.go:294-319 | likewise a get |
| Codecs.UpdateBreaksShapeExactly | pkg/frontend/nvme_controller.go:173-236 | an update leaves the well-shaped states if and only if it names such a record, passes the checks and is answered and recorded; then a controller is in the record's place and nothing else has changed |
| Effects.CreateEffects | pkg/frontend/nvme_controller.go:101-107 | a create records nothing, or marks the index only (exactly when the store write failed), or index and store; it answers the stored object |
| Effects.DeleteEffects | pkg/frontend/nvme_namespace.go:216-222 | a delete erases the fetched object's name, which by self-naming is the requested key and no other, in the order index, store |
| Effects.UpdateEffects | pkg/frontend/nvme_controller.go:229-236 | an update replaces the record under the requested name by the one answered, or nothing, and never touches the index |
| Agreement.IndexExcessIsFailedWrites | pkg/frontend/nvme_controller.go:101-106 | in every run the keys in the index and not in the store are exactly those whose write failed at creation and that were not created since, restarts included |
| Agreement.IndexWithinStore | pkg/frontend/nvme_subsystem.go:108-113 | when no such write fails the index is within the store, restarts included |
| Agreement.IndexEqualsStore | pkg/frontend/nvme_namespace.go:128-133 | without restart and failed writes index and store have the same keys |
| Agreement.StoredStays | pkg/frontend/nvme_namespace.go:52-61 | a stored object is unchanged by any run in which no delete or update of it succeeds |
| Agreement.RepeatedCreateIsIdempotent | pkg/frontend/nvme_controller.go:53-62 | repeating a create of the same key after any such run returns the original response, sends no command and changes nothing |
| Scan.ScanKeepsNqnsUnique | pkg/frontend/nvme_subsystem.go:60-78 | with a filter that recognises exactly the subsystem names, and no restart or failed erase of a subsystem, no two stored subsystems ever share an NQN, whatever the device does |
| Scan.LiteralScanSeesNothing | pkg/frontend/nvme_subsystem.go:61-64 | with the program's filter the scan reads nothing and never objects |
| Scan.ScanObjectsExactly | pkg/frontend/nvme_subsystem.go:65-77 | the scan objects if and only if a selected key is not a stored subsystem or holds the requested NQN |
| Scan.ScanStopsExactly | pkg/frontend/nvme_subsystem.go:60-78 | whatever reads fail, the scan stops at the first selected key that is not a readable subsystem with another NQN, with the error for what is wrong with it |
| Scan.SelectedExactly | pkg/frontend/nvme_subsystem.go:62 | a key is selected if and only if it begins with the filter's text, or for a filter by shape is a subsystem's name |
| Scan.CreatedExactlyWhenScanAllows | pkg/frontend/nvme_subsystem.go:60-115 | when nothing fails a new subsystem is created if and only if the scan has no objection |
| Scan.UnseenDuplicateGoesThrough | pkg/frontend/nvme_subsystem.go:60-78 | with the program's filter, or after a restart with any, a duplicate NQN the device takes is stored twice |
| Wire.SubsystemGoesOut | pkg/frontend/nvme_subsystem.go:82-115 | a create sends at most its command, with the request's fields and ids 0 to 256, and the version query, and records the request unchanged with the version as firmware |
| Wire.ControllerGoesOut | pkg/frontend/nvme_controller.go:75-101 | a create or update sends one command under the parent's NQN, each field from the request's field and -1 for an absent id, and records the request with only the id replaced |
| Wire.NamespaceGoesOut | pkg/frontend/nvme_namespace.go:73-82 | a create first sends the allocation, shared, under the parent's NQN with the request's ids, HostNsid not among them |
| Wire.AnsweredIdIsCarried | pkg/frontend/nvme_controller.go:98-100 | the id the device answered to the last successful create or update is in range, recorded unchanged, and carried by every later removal, query, attach and detach of the controller, failed updates and deletes in between included |
| Orphans.BackedStep | pkg/frontend/nvme_controller.go:88-106 | every handler and a restart keep every stored subsystem on the device under its NQN and, for controllers and for namespaces separately, every stored child there under its parent's with ids unique among siblings; what is assumed concerns the requests of that kind only |
| Orphans.StoreWithinDevice | pkg/frontend/nvme_namespace.go:81-133 | in every run with faults anywhere every stored subsystem exists on the device; so does every stored controller if deletes of controllers are told and no answered update gives one a sibling's id, and every stored namespace if deletes of namespaces are told and the device allocates under HostNsid: each kind without what the other needs |
| Counts.RoomStep | pkg/frontend/nvme_namespace.go:81-133 | no request and no restart lowers the number of controllers, or of namespaces, that a subsystem's unit has over and above those stored under it, as long as deletes under it are told |
| Counts.NoOrphansEver | pkg/frontend/nvme_subsystem.go:136-154 | from the start, in every run with faults anywhere, restarts and the program's own filter, every stored child has its parent stored and NQNs are unique: assuming only a device that refuses non-empty deletes and NQNs in use, and deletes that are told; the device may pick any ids |
| Limits.ControllerDeleteBackedExactly | pkg/frontend/nvme_controller.go:147-163 | a delete of a stored controller keeps the store backed, with namespaces or without, if and only if it is not the case that the removal runs and its answer is lost or the erase fails |
| Limits.SubsystemDeleteBackedExactly | pkg/frontend/nvme_subsystem.go:136-155 | likewise for a subsystem, where a willing device and a stored child break it too |
| Limits.NamespaceDeleteBackedExactly | pkg/frontend/nvme_namespace.go:169-222 | likewise for a namespace, whatever the detach loop has done: it breaks if and only if the unallocation runs and its answer is lost or the erase fails |
| Limits.ForcedDeleteOrphansExactly | pkg/frontend/nvme_subsystem.go:136-154 | for every device, a delete in which nothing fails leaves orphans if and only if the device goes along and the subsystem has a stored child |
| Limits.DuplicateNqnOrphansExactly | pkg/frontend/nvme_subsystem.go:60-154 | for every device, creating a second subsystem under an NQN and deleting the first leaves orphans if and only if the first has a stored child and the device deletes what is not empty, or takes the NQN twice and starts its unit anew |
| Limits.UpdateBackedExactly | pkg/frontend/nvme_controller.go:203-235 | an update of a stored controller keeps the store backed if and only if it is not recorded, or the id sent (the one picked, on a device that does not echo) is on the device and no other stored controller of the subsystem has it |
| Limits.CreateNamespaceBackedExactly | pkg/frontend/nvme_namespace.go:71-133 | a successful namespace create keeps the store backed if and only if HostNsid is the picked instance id or one already there, and no stored sibling uses it |
| Limits.HiddenRemovalUnbacks | pkg/frontend/nvme_controller.go:147-162 | so a removal that runs although its answer is lost leaves a stored controller the device no longer has |
| Limits.CreateLeaksExactly | pkg/frontend/nvme_subsystem.go:90-113 | a create under a free NQN leaves it on the device without a stored subsystem if and only if the creating command runs and its answer or that of the version call is lost or the store write fails |
| Limits.LeakIsPermanent | pkg/frontend/nvme_subsystem.go:136-148 | on a device that refuses an NQN in use no run of requests and restarts ever frees such an NQN or gives it to a subsystem |
| Limits.DeleteVanishesExactly | pkg/frontend/nvme_namespace.go:203-221 | a delete of a namespace the device has leaves it stored and lost from the device if and only if the unallocation runs and its answer is lost or the erase fails, whatever other namespaces are like |
| Limits.VanishedIsPermanent | pkg/frontend/nvme_namespace.go:169-215 | such a namespace stays so, every delete of it failing, in every run that keeps its subsystem until the device picks its id for another |
| Leaks.ControllerCreateLeaksExactly | pkg/frontend/nvme_controller.go:88-106 | a controller create leaves its unit with one controller more over the store than before if and only if the creating command runs and its answer is lost or the store write fails; otherwise the surplus is unchanged |
| Leaks.NamespaceCreateLeaksExactly | pkg/frontend/nvme_namespace.go:81-134 | a namespace create leaves its unit with one namespace more over the store if and only if the allocation runs and the create fails all the same |
| Leaks.LeakedChildIsPermanent | pkg/frontend/nvme_subsystem.go:136-148 | once a unit has a surplus it keeps it in every run in which deletes of its stored children are told, and every delete of its subsystem fails on a device that refuses what is not empty |
| Leaks.FailedCreateSticks | pkg/frontend/nvme_namespace.go:81-122 | a create that allocates under HostNsid and fails leaves an allocated id that no stored namespace of the subsystem has |
| Leaks.StuckIsPermanent | pkg/frontend/nvme_namespace.go:81-90 | such an id stays allocated in every run, and every create of a new namespace under it fails, as long as the device allocates under HostNsid when asked for it |
| Sweep.LoopReachesExactly | pkg/frontend/nvme_namespace.go:92-107 | in every order the loop acts once on each controller of the subsystem in the index and on nothing else |
| Sweep.VisitProgress | pkg/frontend/nvme_namespace.go:92-122 | the loop stops at the first key that can not be read, is not stored, is not taken by the device as it then is, or is not answered with a zero status, and says which; device, log and remaining answers are given exactly, a command that ran with its answer lost included |
| Namespaces.CreateInAnyOrder | pkg/frontend/nvme_namespace.go:81-133 | every successful create ends in the same state and answer whatever the order, having sent the allocation and then one attach for each indexed controller of the subsystem |
| Namespaces.DeleteInAnyOrder | pkg/frontend/nvme_namespace.go:169-221 | every successful delete ends in the same state whatever the order, having sent one detach for each such controller and then the unallocation |
| Namespaces.AllocDecides | pkg/frontend/nvme_namespace.go:81-90 | a create whose allocation is not answered with a zero status sends nothing more and leaves store and index alone |
| Namespaces.FailedCreateLeavesExactly | pkg/frontend/nvme_namespace.go:81-134 | an allocated create leaves store and index alone and on the device the allocation and the attachments before the first key that did not go well, with the log and the answer to match; if every key goes well it is recorded, or fails at the store write |
| Namespaces.FailedDeleteLeavesExactly | pkg/frontend/nvme_namespace.go:169-222 | a delete has undone exactly the attachments before the first key that did not go well; if every key goes well, the unallocation decides, then the store erase, with state, log and answer given for each |
| Convergence.VisitSucceedsExactly | pkg/frontend/nvme_namespace.go:92-122 | with distinct ids the loop gets through if and only if each key is read and answered and the device has the namespace and each controller, not linked already unless it does not mind |
| Convergence.CreateSucceedsExactly | pkg/frontend/nvme_namespace.go:52-134 | whatever the surroundings do and whatever other namespaces are like, a create succeeds if and only if the device has the subsystem, reads, calls and the write work, the picked id is free, each controller of the subsystem in the index is stored, and if there is any, HostNsid is allocated or picked and none is linked to it, unless the device does not mind |
| Convergence.DeleteSucceedsExactly | pkg/frontend/nvme_namespace.go:144-222 | whatever the surroundings do and whatever other namespaces are like, a delete succeeds if and only if reads, calls and the erase work, each controller of the subsystem in the index is stored, the device has the namespace, all of them hold it unless the device does not mind, and no other does unless the device lets go all the same |
| Convergence.MarkedControllerBlocksNamespaces | pkg/frontend/nvme_namespace.go:92-104 | a controller key in the index that is not stored makes every namespace create and delete of its subsystem fail, in any order and whatever the device answers |
| Convergence.DeleteSubsystemSucceedsExactly | pkg/frontend/nvme_subsystem.go:124-155 | a stored subsystem is deleted if and only if nothing fails, the device has it, and its unit is empty or the device does not mind; never, by a device that does, under stored children, where no unit has fewer children than the store |
| Convergence.CreateControllerSucceedsExactly | pkg/frontend/nvme_controller.go:53-107 | a new controller is created if and only if nothing fails, the device has the subsystem, and the id is free and in 0..256: the one asked for on a device that honours it, the one picked otherwise |
| Convergence.RetriedDeleteConverges | pkg/frontend/nvme_namespace.go:169-221 | any number of delete attempts failing at any point, then a success, end in the state of a single success; and an attempt in which nothing fails succeeds if and only if it would have at first and, on a device that does not detach what is not attached, nothing has been detached since |
| Locality.RequestsAreLocal | pkg/frontend/nvme_namespace.go:63-122 | a request under a subsystem gives the same answer and commands in states that agree on that subsystem's keys and NQN |
| Locality.RequestsAreContained | pkg/frontend/nvme_controller.go:64-106 | it changes no other part of the device and sends no command with another NQN |
| Locality.OthersSeeNoChange | pkg/frontend/nvme_controller.go:146-162 | what another subsystem with another NQN can see is unchanged |
| Locality.RequestsCommute | pkg/frontend/nvme_namespace.go:63-133 | requests under two subsystems commute: same answers, same commands, same index, store and device |
| History.TrackedStep | pkg/frontend/nvme_namespace.go:91-133 | every completed request and every restart keep the attachments on the device equal to the history of creations, and the index equal to what was created since the last restart |
| History.AttachmentHistory | pkg/frontend/nvme_namespace.go:169-221 | in every run in which each request completes, restarts included, the attachments are exactly the pairs of a stored controller and a stored namespace of one subsystem whose controller was created first with no restart in between, and the index is exactly what is stored and was created since the last restart |
| History.DeleteKeepsHistoryExactly | pkg/frontend/nvme_controller.go:141-162 | a successful controller delete keeps them equal to the history if and only if the device drops the controller's attachments or there are none |
| History.NamespaceDeleteKeepsHistoryExactly | pkg/frontend/nvme_namespace.go:169-222 | a successful namespace delete does if and only if the device drops the namespace's attachments or they are all to controllers the index knows |
| History.UpdateKeepsHistoryExactly | pkg/frontend/nvme_controller.go:203-236 | a successful update does if and only if it records the id the controller had or the controller has no attachments |
| History.CreateKeepsHistoryExactly | pkg/frontend/nvme_namespace.go:91-122 | a namespace create keeps them equal to the history if and only if, of the subsystem's stored controllers, the index knows those created since the last restart and no others |
| Pages.ServedExactly | pkg/frontend/nvme_subsystem.go:193-213 | when nothing fails a list request is served if and only if its position is within the list as it is now |
| Pages.OnePage | pkg/frontend/nvme_controller.go:273-285 | a served request shows the stretch at its position, each element no greater than the next, and keeps where it ends unless that is the end of the list |
| Pages.WalkVisitsEachElementOnce | pkg/frontend/nvme_controller.go:246-285 | for a list of any length and any page size, following the kept positions from the first page ends after the rounded-up number of pages, and the pages' multisets add up to the list's |
| Pages.WalkIsSorted | pkg/frontend/nvme_namespace.go:294-300 | on each page of the walk each id or NQN is no greater than the next |
| Pages.PositionSurvives | pkg/frontend/nvme_namespace.go:290-293 | a kept position is neither lost nor changed by any run of requests that draw other tokens |
| Pages.RestartForgetsPositions | pkg/frontend/frontend.go:35-40 | after a restart a continued request is turned away with no command sent |

## Left out

- UpdateNvmeSubsystem and UpdateNvmeNamespace: they read, check and answer Unimplemented without changing any state.
- The three Stats handlers: straight copies of device counters.
- Start-up, gRPC and HTTP serving, TLS, Redis, tracing, JSON encoding, log lines and status texts. A stored record that does not decode is a read error.
- The wording of errors: an error is one of a few kinds, and the device's refusal is one kind whatever its text.
- Library checks of required fields, resource names and field masks: a verdict in the request; which names they let through is not modelled.
- The helper package for names and paging is not part of the repository; names are split at `/`, with the subsystem id as second segment, and paging has a default of 50 and a maximum of 250.
- Go strings are byte strings: a character of the model is one byte.
- The eui64 number is sent as a decimal text by the program and as a number here.
- Goroutines: a request is one step with failure points inside; the program's maps have no lock.
- Freshness of generated ids and tokens is a hypothesis where it matters.
- Frontend.Server.LinkEachController: one method for the program's two loops, which differ in the command only.
- Frontend.Server.ListNvmeChildren: one method for the program's two list handlers, which differ in the command only.
- Frontend.Server.Dispatch: the dispatch to handlers belongs to the gRPC library and is modelled by a match on the request.
- Orphans.StoreWithinDevice: assumes that failed calls of deletes had no effect and their store writes succeed; the exact conditions for one step are in `Limits.dfy`.
- Counts.NoOrphansEver: likewise.
- Codecs.DeleteDereferencesExactly: for deletes and gets of controllers. A namespace request whose parent is not a subsystem's name is covered only in that it keeps the state well shaped.
- Limits.CreateLeaksExactly: for an NQN that is free on the device and lookups that can be read.
- History.AttachmentHistory: assumes that attachments follow a controller that goes or gets another id and a namespace that goes after a restart, which `History.DeleteKeepsHistoryExactly`, `History.UpdateKeepsHistoryExactly` and `History.NamespaceDeleteKeepsHistoryExactly` make exact; requests that fail half-way leave the attachments described by `Namespaces.FailedCreateLeavesExactly` and `Namespaces.FailedDeleteLeavesExactly` instead.
