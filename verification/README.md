# Verified model of the platform's safety-critical scripts

This project models ten Python components of the repository and proves what they promise.
It stands beside them: every module names the file it models, and nothing here executes it.

* **Images.** `collect_oci` replays image layers onto a flat path map and three companion
  structures (`Paths`, `Overlay`, `OverlaySafety`, `OverlaySpec`, `OverlayCells`, `ImageFiles`); `resolve_file`
  follows symlinks in it (`Redirects`, `Resolver`). The layer rules are those of the OCI Image Format Specification, section "Image
  Layer Filesystem Changeset" ("Whiteouts", "Opaque Whiteout"). `map_findings` links a scanner's
  findings with its SARIF report and `derive` applies reviewed decisions to it (`Findings`,
  `FindingsLoops`, `FindingsMeaning`, `Disposition`, `DispositionSafety`, `DecisionMeaning`, `LinkedInventory`).
* **Permissions.** `verify_ceiling` bounds what a workload's policy can reach (`Ceiling`, `CeilingExact`), and
  `check_iam` compares policies up to the order of lists (`JsonText`, `Sorting`, `Canonical`,
  `CanonicalForm`, `PythonValues`, `IamGuard`, `IamMeaning`).
* **Protocols.** The deployment journal (`Journal`, `JournalSafety`, `JournalOrder`, `JournalSteps`) and the capacity lock
  (`CapacityLock`, `CapacityLockSafety`, `CapacityLockOutcomes`) are state machines over their conditional stores: any
  number of processes interleave, crash at any step, and lose replies before or after a write.
* **Projection.** Versioned links, per-fact contexts and cost allocation (`Versions`,
  `Relationships`, `WorkCost`, `Projection`, `ProjectionLoops`, `ContextMeaning`, `QueryRefusals`, `Conservation`,
  `LedgerMeaning`, `Locality`, `AnyPart`).
* **Configuration.** Apply and rollback of one routing file (`EmfAddon`, `EmfRequests`), the order of migrations
  (`Layers`, `Migrations`), and the merge of capacity subnets (`Subnets`, `SubnetPlans`).

Loops that change state are methods or classes proved against functions; the promises are lemmas
about those functions. `Sequences`, `Keyed`, `Rearrangement`, `Options` and `Lettercase` are shared.

Some statements in the code's comments or names turn out narrower than they read; the code is kept
and the exact condition is proved:

* Whether the whiteouts of a layer are accepted can depend on their order: a whiteout below a stored
  path that is no directory is refused unless another whiteout has hidden that path before
  (`OverlaySpec.WhiteoutsAcceptedExactly`, `EveryOrderAcceptedExactly`, with the example
  `WhiteoutOrderDecidesAcceptance`); orders that are accepted agree.
* A selection that fails after its write keeps the lock, except in two cases: its own last delete
  lands and the answer is lost, or the answer comes and the process ends before it has removed its
  owner file (`CapacityLockSafety.FailedSelectionKeepsLock`, `FailedSelectionMayHaveReleased`).
* Comparing normalised policies uses Python's equality, in which `1`, `1.0` and `true` are one value.
  A statement in which one becomes another is accepted as unchanged
  (`IamMeaning.OneValueIsAccepted`); without such values in the documents the comparison is exact
  (`IamMeaning.AcceptedExactlyApart`, `PythonValues.CompleteExactlyApart`).
* A tie of versions below the latest one raises in one input order only
  (`Versions.EarlierTieDependsOnOrder`).
* `derive` by itself does not make the active native severities add up: it needs decisions that
  name members of the inventory (`DispositionSafety.NativeBalance`, with a witness in
  `NativeSumMayDiffer`), which `map_findings` guarantees.

`dafny verify dfyconfig.toml` checks the whole project.

## Model

| member | source | states |
|---|---|---|
| `Paths.NormalPathIsNormal` | `codebuild/exact_image_disposition.py:106-110` | what `normal_path` accepts has no empty, `.` or `..` component, except that the root is the single component `.` |
| `Paths.NormalPathRender` | `codebuild/exact_image_disposition.py:106-110` | a normalised path is its own normal form, so normalising twice changes nothing |
| `Redirects.SplitExactly` | `codebuild/exact_image_disposition.py:106-110` | the components of a string are the only slash-free ones that join to it |
| `Redirects.NameLeads` | `codebuild/exact_image_disposition.py:106-110` | a name is refused exactly if it has a NUL or a `..` component, and otherwise it is the path its components lead to one by one |
| `Paths.BelowIsProperPrefix` | `codebuild/exact_image_disposition.py:263-273` | the string test `key.startswith(name + "/")` holds exactly for the paths below `name`, component by component |
| `Paths.RenderInjective` | `codebuild/exact_image_disposition.py:106-110` | two component sequences never share one path string, so the flat map can be keyed by components |
| `OverlaySafety.LayerSound` | `codebuild/exact_image_disposition.py:246-324` | after a whole accepted layer every stored ancestor is a directory, the three maps agree, and every retained path is a regular file whose recorded hash and size are those of its bytes |
| `OverlaySafety.ReplaySound` | `codebuild/exact_image_disposition.py:180-324` | the same for every accepted sequence of layers, from the empty image |
| `OverlaySafety.AddSound` | `codebuild/exact_image_disposition.py:276-324` | one addition keeps the tree and the agreement of the maps: through overwrites, a subtree removal, and hardlinks, also one to its own path |
| `OverlaySafety.PruneSound` | `codebuild/exact_image_disposition.py:263-274` | removing a covered subtree from all three maps keeps them a tree and in agreement |
| `OverlaySpec.WhiteoutsPointwise` | `codebuild/exact_image_disposition.py:249-275` | after the whiteouts of a layer a path keeps its lower cell exactly when no whiteout names it or an ancestor and no opaque whiteout stands above it |
| `OverlaySpec.WhiteoutOrderIrrelevant` | `codebuild/exact_image_disposition.py:249-275` | two orders of the same whiteouts that are both accepted leave the same image |
| `OverlaySpec.WhiteoutsAcceptedExactly` | `codebuild/exact_image_disposition.py:249-275` | the whiteouts of a layer are accepted if and only if each of them is well formed and every stored ancestor of it that is no directory was whited out before its turn |
| `OverlaySpec.EveryOrderAcceptedExactly` | `codebuild/exact_image_disposition.py:249-275` | every order of the same members is accepted if and only if every whiteout among them is well formed and none has a stored ancestor that is no directory |
| `OverlaySpec.WhiteoutOrderDecidesAcceptance` | `codebuild/exact_image_disposition.py:251-258` | two whiteouts, one inside what the other one hides, of which one order is accepted and the other one refused |
| `OverlaySpec.AdditionsUnnamed` | `codebuild/exact_image_disposition.py:276-324` | a path no addition names keeps its cell unless an addition replaced an ancestor by something that is no directory |
| `OverlaySpec.AdditionsNamed` | `codebuild/exact_image_disposition.py:276-324` | a named path holds what its member put there unless a later member replaced an ancestor |
| `OverlaySpec.LayerPointwise` | `codebuild/exact_image_disposition.py:249-324` | one layer refines its pointwise reading: what the member that names a path puts there (LayerRecords says what that is), else the lower cell unless a whiteout, an opaque whiteout or a replaced ancestor hides it; whiteouts never hide additions of their own layer |
| `OverlaySpec.LayerIgnoresWhiteoutPositions` | `codebuild/exact_image_disposition.py:249-324` | where the whiteouts stand among the members of an accepted layer does not matter |
| `OverlayCells.KeepsWhatIsAsked` | `codebuild/exact_image_disposition.py:302-311` | bytes are kept exactly if the path string is asked for, is `/var/lib/dpkg/status`, or starts with `/var/lib/dpkg/info/` and ends in `.list` |
| `OverlayCells.LayerRecords` | `codebuild/exact_image_disposition.py:276-324` | for a member whose path no later member hides: a regular file is recorded with the digest, mode and size of its bytes, and the bytes exactly if they are asked for; a directory or symlink with its own entry and no bytes; a hardlink with the entry and bytes of its normalised target at that moment; and all with the layer's id |
| `OverlayCells.LayerAcceptedExactly` | `codebuild/exact_image_disposition.py:246-324` | a layer is accepted if and only if its names are proper and distinct, its whiteouts well formed and unblocked in turn, and each other member stands under directories, is no special file and, as a hardlink, names a stored regular file |
| `OverlaySpec.StoredByLastNaming` | `codebuild/exact_image_disposition.py:286-288` | every stored path was put by the last layer that names it, and `file_layers` says so |
| `ImageFiles.IndexKept` | `codebuild/exact_image_disposition.py:289-291` | entering a stored path keeps every proper prefix of every stored path in `populated_prefixes` |
| `ImageFiles.NothingBelow` | `codebuild/exact_image_disposition.py:280-285` | when a name is not in `populated_prefixes` the skipped scan would have removed nothing |
| `ImageFiles.ImageFiles.ValidateParents` | `codebuild/exact_image_disposition.py:113-121` | the loop accepts exactly the paths whose stored ancestors are directories |
| `ImageFiles.ImageFiles.DirectHardlink` | `codebuild/exact_image_disposition.py:124-132` | it returns the normalised target exactly when that is a stored regular file under directories |
| `ImageFiles.ImageFiles.RemoveCovered` | `codebuild/exact_image_disposition.py:263-274` | the scan over all keys removes exactly the covered paths, from the three maps at once |
| `ImageFiles.ImageFiles.ApplyWhiteout` | `codebuild/exact_image_disposition.py:251-275` | one whiteout changes the state as the plain form says, or is refused where that refuses |
| `ImageFiles.ImageFiles.Write` | `codebuild/exact_image_disposition.py:286-324` | one write of a file, directory, symlink or hardlink changes the maps as the plain form says |
| `ImageFiles.ImageFiles.ApplyAddition` | `codebuild/exact_image_disposition.py:276-324` | the guarded subtree removal and the write give what the unguarded plain form gives, for every member |
| `ImageFiles.ImageFiles.WhiteoutPass` | `codebuild/exact_image_disposition.py:249-275` | the loop over the whiteouts equals the plain form and keeps the class invariant |
| `ImageFiles.ImageFiles.AdditionPass` | `codebuild/exact_image_disposition.py:276-324` | the loop over the additions equals the plain form and keeps the class invariant |
| `ImageFiles.ImageFiles.ApplyLayer` | `codebuild/exact_image_disposition.py:246-324` | one layer in place equals the plain form, with acceptance decided alike |
| `ImageFiles.ImageFiles.ApplyLayers` | `codebuild/exact_image_disposition.py:231-324` | all layers in place equal the plain replay: the fast form with its index refines the simple one |
| `Resolver.ResolveFileLoop` | `codebuild/exact_image_disposition.py:135-163` | the loop of 40 rounds computes the recursive walk, with the same three refusals |
| `Resolver.ScanMeaning` | `codebuild/exact_image_disposition.py:139-158` | one round finds the shortest symlink prefix, or a stored obstacle, or a symlink-free path |
| `Resolver.RewritesDeterministic` | `codebuild/exact_image_disposition.py:143-153` | a path has at most one rewriting |
| `Redirects.RedirectLeads` | `codebuild/exact_image_disposition.py:143-152` | a rewrite leads where the components lead: from the link's directory, or the root for an absolute target, through the target's components and then the rest of the path; empty and `.` change nothing, `..` drops one, and NUL is refused |
| `Redirects.PlainTargets` | `codebuild/exact_image_disposition.py:143-152` | a target of plain components takes the place of the link, after its directory if it is relative and at the root if it is absolute |
| `Resolver.ReturnsExactlyAlongTrail` | `codebuild/exact_image_disposition.py:135-163` | `resolve_file` returns a path and entry if and only if at most 39 rewrites of the shortest symlink prefix lead there, to a stored symlink-free path whose stored ancestors are directories |
| `Resolver.ResultIsFixed` | `codebuild/exact_image_disposition.py:159-162` | a result is never a symlink and resolves to itself |
| `Resolver.StoredResolvesToItself` | `codebuild/exact_image_disposition.py:135-163` | in every image the layers can produce a stored regular file or directory resolves to itself |
| `Keyed.IndexAt` | `codebuild/exact_image_disposition.py:631-634` | in a dictionary filled from distinct keys every item is found under its own key |
| `Findings.PositionsAscend` | `codebuild/exact_image_disposition.py:668-675` | the results of a rule are grouped in the order of the report |
| `FindingsLoops.IndexLoop` | `codebuild/exact_image_disposition.py:631-634` | the dictionary loop succeeds exactly when no key comes twice |
| `FindingsLoops.GroupMatches` | `codebuild/exact_image_disposition.py:635-658` | the match loop succeeds exactly when every match is bound to its SBOM artifact and no match comes twice, and groups the matches by rule |
| `FindingsLoops.GroupResults` | `codebuild/exact_image_disposition.py:664-676` | the result loop succeeds exactly when no result is suppressed and every rule is known, and groups the positions by rule |
| `FindingsLoops.LinkRule` | `codebuild/exact_image_disposition.py:687-791` | the checks and the inner loop of one rule succeed exactly when the rule is linkable, and record each of its results |
| `FindingsLoops.MapFindings` | `codebuild/exact_image_disposition.py:619-793` | `map_findings` succeeds exactly for linkable reports, and its sorted output links result i at position i, each result once |
| `FindingsMeaning.LinksExactly` | `codebuild/exact_image_disposition.py:619-790` | a report is linked if and only if it is a pinned scan without repeated identities, every match is of a listed artifact and has a rule, every result is unsuppressed and has a match, and every rule has as many results as matches, describes one of them, has the same places where it is shared or embedded, and severities no lower than its matches' |
| `FindingsMeaning.RecordedExactly` | `codebuild/exact_image_disposition.py:747-792` | result by result, what the output records: digest, rule, gate severity, the rule's matches in order, the sole match, and eligibility exactly for a sole match of an installed package with a severity from low to critical |
| `Disposition.MembersLoop` | `codebuild/exact_image_disposition.py:917-925` | the inventory of native members is built exactly when no digest stands for two members |
| `Disposition.DecideLoop` | `codebuild/exact_image_disposition.py:927-1022` | the loop over decisions changes the array of results as the fold over decisions says, or fails where that fails |
| `Disposition.CountSeverities` | `codebuild/exact_image_disposition.py:1028-1039` | a counter of severities counts each severity, and its total is the number of members counted |
| `Disposition.Derive` | `codebuild/exact_image_disposition.py:897-1052` | `derive` succeeds exactly on a clean report with a sound inventory and acceptable decisions, and then changes the results and gives the accounts of the outcome |
| `DispositionSafety.InventoryDistinct` | `codebuild/exact_image_disposition.py:902-914` | the inventory checks imply that positions and the digests of eligible results are distinct and in range |
| `DispositionSafety.OneResultEach` | `codebuild/exact_image_disposition.py:902-914` | two different decision keys never name the same result |
| `DispositionSafety.DecidedExactly` | `codebuild/exact_image_disposition.py:927-1022` | all decisions are accepted if and only if they are distinct and each fits the raw results; then each suppresses its own result and nothing else changes |
| `DecisionMeaning.DerivesExactly` | `codebuild/exact_image_disposition.py:896-1006` | `derive` succeeds if and only if no result is suppressed, the inventory is sound, no two decisions name one digest, and each is complete, about the package of an eligible occurrence and finds its recorded result |
| `DecisionMeaning.DerivedResults` | `codebuild/exact_image_disposition.py:1003-1021` | each result a decision is about gets its accepted external suppression, with status, reason and receipt, and every other result is unchanged |
| `DispositionSafety.CountsBalance` | `codebuild/exact_image_disposition.py:1023-1046` | raw = active + fixed + not affected, the active results are exactly the unsuppressed ones, and there is one decision per suppressed result |
| `DispositionSafety.NativeSumMayDiffer` | `codebuild/exact_image_disposition.py:1027-1039` | an input that `derive` accepts and whose active native severities do not add up |
| `DispositionSafety.NativeBalance` | `codebuild/exact_image_disposition.py:1027-1039` | the severities of the active native members add up to the active native count if and only if every decision names a member of the inventory, which `derive` alone does not check |
| `LinkedInventory.LinkableOnePerMatch` | `codebuild/exact_image_disposition.py:685-692` | a report that is linked has, rule by rule, one result for each native match, and no native match twice |
| `LinkedInventory.AsManyMatches` | `codebuild/exact_image_disposition.py:687-692` | such a report has as many native matches as results |
| `LinkedInventory.LinkedInventoried` | `codebuild/exact_image_disposition.py:897-925` | every output of `map_findings` passes all inventory checks of `derive`, for any such report |
| `LinkedInventory.LinkedNamesMembers` | `codebuild/exact_image_disposition.py:897-925` | a decidable result of such an output names a native member and finds its result unchanged |
| `LinkedInventory.LinkedThenDerived` | `codebuild/exact_image_disposition.py:619-1052` | on an output of `map_findings` exactly the distinct, documented and bound decisions are accepted, and they name native members, so all counts balance |
| `Ceiling.GlobExactly` | `platform/automation-infra/verify-workload-inventory.py:25` | what a pattern matches, part by part: a concatenation matches what splits so, `*` everything, `?` one character, and any other character itself |
| `Ceiling.LiteralMatchesItself` | `platform/automation-infra/verify-workload-inventory.py:23-26` | a pattern without wildcards matches only itself |
| `Ceiling.MaximumResourcesSound` | `platform/automation-infra/verify-workload-inventory.py:29-59` | every resource that a matching Allow covers and no unconditional matching Deny covers is matched by a returned pattern, through any number of NotResource narrowings |
| `Ceiling.DeniedCeilingSound` | `platform/automation-infra/verify-workload-inventory.py:62-74` | every resource that no unconditional Deny refuses is matched by the denied-resource ceiling |
| `Ceiling.DeniedCeilingExact` | `platform/automation-infra/verify-workload-inventory.py:62-74` | when the exceptions of the denies are sharp the ceiling matches exactly what is not refused |
| `Ceiling.NarrowLoop` | `platform/automation-infra/verify-workload-inventory.py:45-58` | the two nested loops narrow the set of patterns as the specification does |
| `Ceiling.MaximumResourcesLoop` | `platform/automation-infra/verify-workload-inventory.py:29-59` | the two loops over statements compute the upper bound, with the early return for a Deny on everything |
| `Ceiling.DeniedCeilingLoop` | `platform/automation-infra/verify-workload-inventory.py:62-74` | the policy of one Allow and the denies gives the denied-resource ceiling |
| `Ceiling.PossibleLoop` | `platform/automation-infra/verify-workload-inventory.py:124-135` | the intersection of the finite ceilings, lower-cased, or the refusal when there is none |
| `Ceiling.EmptyCeilingRefuses` | `platform/automation-infra/verify-workload-inventory.py:113-116` | an empty ceiling means that every resource is refused, in any spelling of the action |
| `Ceiling.FiniteCeilingRefuses` | `platform/automation-infra/verify-workload-inventory.py:83-90` | a finite NotAction ceiling refuses every action it does not name |
| `Ceiling.UnrefusedIsPossible` | `platform/automation-infra/verify-workload-inventory.py:124-138` | an action outside the registries that is not refused is among the actions checked |
| `Ceiling.VerifyCeiling` | `platform/automation-infra/verify-workload-inventory.py:77-145` | the whole check accepts exactly the policies that the acceptance predicate describes |
| `Ceiling.AcceptedCeilingBounds` | `platform/automation-infra/verify-workload-inventory.py:77-145` | for every action and resource an accepted policy does not unconditionally refuse: the action is supported in any spelling, is no IAM write but PassRole and no AssumeRole variant, and an execution or PassRole resource matches an admitted target or role |
| `CeilingExact.AcceptedIsClosed` | `platform/automation-infra/verify-workload-inventory.py:83-97` | an accepted policy has no Allow with NotAction, and has an unconditional deny on every resource that spares only named actions |
| `CeilingExact.AcceptsExactly` | `platform/automation-infra/verify-workload-inventory.py:77-145` | a policy whose unconditional denies are of everything or name exact exceptions is accepted if and only if it has no open-ended Allow, has a finite deny, and whatever it does not refuse is an inventoried action and, where that executes code or passes a role, a named resource; the names are taken without `*` |
| `Ceiling.PlainNamesAreExact` | `platform/automation-infra/verify-workload-inventory.py:139-145` | where the admitted names have no wildcard the resource is one of them |
| `Journal.Receipt.Save` | `platform/automation-infra/deploy-webhook-code.py:29-64` | a save succeeds exactly when the condition held and the reply came; otherwise the receipt is poisoned, and a poisoned receipt writes nothing |
| `Journal.SettleLoop` | `platform/automation-infra/deploy-webhook-code.py:211-239` | the loop returns a revision if and only if, within 60 readings, two successive Successful clean readings with that revision follow only clean InProgress ones |
| `JournalSteps.SavesExactly` | `platform/automation-infra/deploy-webhook-code.py:29-51` | a run gets past a save exactly by its own acknowledged write while the remote journal is what it wrote last, or not there yet; any other outcome kills it |
| `JournalSteps.WritesExactly` | `platform/automation-infra/deploy-webhook-code.py:149-245` | what each save adds to the journal, field by field |
| `JournalSteps.LeadsExactly` | `platform/automation-infra/deploy-webhook-code.py:156-245` | which request follows an acknowledged save, up to the next target and the completion |
| `JournalSteps.UploadsExactly` | `platform/automation-infra/deploy-webhook-code.py:162-174` | an upload goes on exactly when it landed and its reply has a version, which is what is recorded |
| `JournalSteps.InspectsExactly` | `platform/automation-infra/deploy-webhook-code.py:175-190` | the reading before the update goes on exactly with the expected role, a revision and no update in progress |
| `JournalSteps.UpdatesExactly` | `platform/automation-infra/deploy-webhook-code.py:192-206` | an update goes on exactly when it landed and its reply has the expected role, the built code and a revision |
| `JournalSteps.SettlesExactly` | `platform/automation-infra/deploy-webhook-code.py:211-239` | settling is verified exactly by a second success in a row at one revision, waits on after clean progress or a first success within 60 readings, and dies otherwise |
| `JournalSteps.UndisturbedCompletes` | `platform/automation-infra/deploy-webhook-code.py:133-245` | from any state without a journal a run whose requests are answered well ends with a complete journal of its manifest |
| `JournalSafety.Always` | `platform/automation-infra/deploy-webhook-code.py:133-245` | the invariant holds after every interleaving of any number of runs, with crashes and lost replies |
| `JournalSafety.OneRunPasses` | `platform/automation-infra/deploy-webhook-code.py:143-156` | at most one run ever passes the first journal write |
| `JournalSafety.EffectsWereIntended` | `platform/automation-infra/deploy-webhook-code.py:157-199` | whenever an upload or update has landed the remote journal already holds its operation, and for an update its committed intent |
| `JournalSafety.UpdatedAtMostOnce` | `platform/automation-infra/deploy-webhook-code.py:189-199` | no target's code is updated twice, by any runs |
| `JournalSafety.CompleteMeansVerified` | `platform/automation-infra/deploy-webhook-code.py:211-245` | a journal marked complete means that every target was read Successful twice in a row at one revision, with the expected digest and role and the configuration of an earlier Successful reading |
| `JournalOrder.VerifiedAfterItsUpdate` | `platform/automation-infra/deploy-webhook-code.py:170-245` | in a complete journal every target's configuration was read before its update, its code was updated exactly once, and two successive Successful readings after that update show the expected digest and role and the configuration unchanged |
| `JournalSafety.EndedForever` | `platform/automation-infra/deploy-webhook-code.py:29-51` | a run that has ended, finished or dead, never changes anything again: its effects stay the same sequence, and its state but for dying after it finished, whatever the others do |
| `JournalSafety.UncertainWriteIsFinal` | `platform/automation-infra/deploy-webhook-code.py:29-51` | after a save that is not acknowledged, because its condition failed or its reply was lost, the run is dead, and over every later interleaving it writes nothing and has no further effect |
| `CapacityLockSafety.Always` | `platform/scripts/gateway-capacity-lock.py:37-139` | the invariant holds after every interleaving of the commands, with lost replies and crashes |
| `CapacityLockOutcomes.BeginsExactly` | `platform/scripts/gateway-capacity-lock.py:170-178` | `verify` and `release` take their record from the owner file, exactly if it names the asked target |
| `CapacityLockOutcomes.AsksExactly` | `platform/scripts/gateway-capacity-lock.py:93-96` | `acquire` asks for the lock at once, and `select` exactly for one of the two supported profiles |
| `CapacityLockOutcomes.GrantsExactly` | `platform/scripts/gateway-capacity-lock.py:37-46` | the lock is granted exactly by an answered request with a fresh owner, while no owner file is in the way and the table has no item of the target; then the item is the record |
| `CapacityLockOutcomes.FilesExactly` | `platform/scripts/gateway-capacity-lock.py:47-53` | the owner file is written exactly when its name is still free, and otherwise the lock is given back |
| `CapacityLockOutcomes.ChecksExactly` | `platform/scripts/gateway-capacity-lock.py:67-69` | a check ends well exactly by its own answered read while the table holds exactly its record: then `verify` is done and a recovery may delete; any other answer is a failure |
| `CapacityLockOutcomes.OnlyChecksPass` | `platform/scripts/gateway-capacity-lock.py:67-69` | nothing else finishes a `verify` or lets a recovery delete |
| `CapacityLockOutcomes.DeletesExactly` | `platform/scripts/gateway-capacity-lock.py:72-78` | a delete is confirmed exactly by its own answered request while the table holds exactly the record, and then the table has no item of the target |
| `CapacityLockOutcomes.UnlinksExactly` | `platform/scripts/gateway-capacity-lock.py:113-114` | removing the owner file ends the command, as done unless a selection was not confirmed |
| `CapacityLockOutcomes.VersionChecked` | `platform/scripts/gateway-capacity-lock.py:99-101` | a selection goes on to write exactly when the answered read shows the expected version |
| `CapacityLockOutcomes.ReadbackChecked` | `platform/scripts/gateway-capacity-lock.py:105-107` | it is confirmed exactly when the answered readback shows its profile at the next version |
| `CapacityLockOutcomes.TableChangesExactly` | `platform/scripts/gateway-capacity-lock.py:37-78` | the lock table changes only by a landed acquisition of a free target or a landed delete of exactly the record |
| `CapacityLockSafety.OneLiveOwner` | `platform/scripts/gateway-capacity-lock.py:37-53` | at most one live owner exists for a target, and its record is the one in the table |
| `CapacityLockSafety.OnlyItsOwnerRemoves` | `platform/scripts/gateway-capacity-lock.py:72-78` | a live owner's record leaves the table only by a delete under that very record, and never by a recovery |
| `CapacityLockSafety.SelectionMovedTheVersion` | `platform/scripts/gateway-capacity-lock.py:93-114` | a selection that returns made the write from the expected version to the next one, with its profile |
| `CapacityLockSafety.OneSelectionInside` | `platform/scripts/gateway-capacity-lock.py:93-114` | two selections of one target that both stand between taking the lock and giving it back, with neither record removed, are the same selection |
| `CapacityLockSafety.FailedSelectionKeepsLock` | `platform/scripts/gateway-capacity-lock.py:93-114` | a selection that a step makes fail after its write holds the lock, ever after, if and only if that step was neither its own last delete landing with a lost answer nor a crash after that delete's answer, and no other process removed its record |
| `CapacityLockSafety.FailedSelectionMayHaveReleased` | `platform/scripts/gateway-capacity-lock.py:108-114` | both ways to fail with the lock given back happen in executions from the empty world |
| `Relationships.SelectDatedLoop` | `modules/insights/projection.py:88-118` | the loop over versions computes the selection, and refuses where it is refused |
| `Relationships.SelectDatedMeaning` | `modules/insights/projection.py:88-118` | a link is selected if and only if it is the strictly latest version of its key known at the time and in force in its half-open interval |
| `Relationships.SelectDatedRefuses` | `modules/insights/projection.py:113-116` | the selection raises exactly on an invalid link or on a tie of differing versions that no later version came before |
| `Relationships.SelectDatedOrderIrrelevant` | `modules/insights/projection.py:88-118` | two orders of the same links that both return select the same links |
| `Relationships.SelectDatedLatestTie` | `modules/insights/projection.py:113-114` | differing versions tied at the latest known time raise in every order |
| `Versions.RefusesExactlyClashes` | `modules/insights/projection.py:112-116` | the pass refuses if and only if two differing versions of a key share a time and no later version stands before the second |
| `Versions.EarlierTieDependsOnOrder` | `modules/insights/projection.py:112-116` | a tie below the latest time raises in one order and not in the other |
| `Versions.OrderIrrelevant` | `modules/insights/projection.py:88-118` | two orders of the same versions that are both accepted keep the same versions |
| `Versions.SelectedExactly` | `modules/insights/projection.py:112-118` | what the pass keeps is exactly the strictly latest known version of each key |
| `LedgerMeaning.AggregatesExactly` | `modules/insights/projection.py:23-59` | rows are summarised if and only if every reference is exact and every Portfolio named, every counted fact is work or a finite cost in a currency, and no two counted rows give one fact different numbers |
| `WorkCost.TallyLoop` | `modules/insights/projection.py:30-59` | the loop over rows fills the dictionaries as the fold does, refusing conflicting versions |
| `WorkCost.AggregateLoop` | `modules/insights/projection.py:61-73` | the totals and the work count computed from the dictionary |
| `WorkCost.TallyMeaning` | `modules/insights/projection.py:30-59` | each counted fact has one value, and the union of the Portfolios of its counted rows |
| `WorkCost.EveryFactOnce` | `modules/insights/projection.py:23-73` | the total depends only on which facts are counted: not on their rows, their order or the number of Portfolios |
| `WorkCost.AggregateIs` | `modules/insights/projection.py:61-73` | the summary's cost in a currency is the total over the distinct counted facts |
| `ProjectionLoops.FactsLoop` | `modules/insights/projection.py:175-189` | the fact loop hides what is not permitted, keeps one of equal facts, and refuses two facts under one identity |
| `ProjectionLoops.ItemsLoop` | `modules/insights/projection.py:191-210` | the loops over links and contributions keep what is permitted and note what is not |
| `ProjectionLoops.ContextsLoop` | `modules/insights/projection.py:212-270` | the context loop collects the contexts and rows let through by the Portfolio filter, and notes a fact without product |
| `ProjectionLoops.AllocationsLoop` | `modules/insights/projection.py:286-324` | the allocation loop updates its five accumulators as the ledger does, and refuses where it refuses |
| `ProjectionLoops.QueryLoops` | `modules/insights/projection.py:158-334` | the whole query in its loops computes the query function |
| `QueryRefusals.FactsGranted` | `modules/insights/projection.py:165-190` | the fact loop raises exactly on a reference that is not exact or on two different visible facts under one identity |
| `QueryRefusals.ContextGranted` | `modules/insights/projection.py:121-153` | a fact has a context whenever its reference is exact, every offered link is proper, and no two known contributions of a record or links of a relationship are tied |
| `QueryRefusals.ContextRefused` | `modules/insights/projection.py:121-153` | it has none when its reference is not exact, an offered link is malformed, or the latest known contribution of a record is not alone at its time |
| `ContextMeaning.QueryAnswers` | `modules/insights/projection.py:175-270` | exactly the visible facts of the asked Portfolios have a context; a context has a product if and only if a link leads there from the fact that is the strictly latest known one of its relationship and in force, among the visible links and those the strictly latest contributions give the fact; and likewise its Portfolios through memberships of the same products, its initiatives, contributions and links |
| `ContextMeaning.CompleteExactly` | `modules/insights/projection.py:165-270` | coverage is complete if and only if every asked Project may be read, every fact, link, contribution and allocation may be seen, and every fact has a product |
| `Conservation.SummaryAddsRows` | `modules/insights/projection.py:61-73` | over distinct facts the summary's cost in a currency is the sum over the rows |
| `LedgerMeaning.QueryLedger` | `modules/insights/projection.py:286-324` | in an answered query every allocation was affordable in turn (a business scope, identified, once, in its fact's currency, of an amount that is left), those in effect are the accepted ones in order, and the amounts by fact and currency are their sums |
| `LedgerMeaning.LedgerExactly` | `modules/insights/projection.py:286-324` | a list of allocations is accepted if and only if each of them is well referenced and, in effect, affordable after those before it |
| `Conservation.LedgerBalanced` | `modules/insights/projection.py:286-324` | at every point of the allocation loop no fact is over-allocated and the granted amounts are those posted to facts |
| `Conservation.UnknownExactly` | `modules/insights/projection.py:290-298` | a currency is unknown if and only if some allocation that may not be read has a charged fact in that currency as its source |
| `Conservation.CostIsConserved` | `modules/insights/projection.py:273-334` | in exact arithmetic cost = allocated + unallocated in every currency in which no allocation that may not be read has a charged source; any other currency has no unallocated entry |
| `Conservation.AllocatedWithinAmount` | `modules/insights/projection.py:315-318` | what is allocated from a fact is at least zero and at most its amount |
| `Locality.QueryLocal` | `modules/insights/projection.py:158-334` | if the full query succeeds so does the query over any of the facts and any Portfolio filter; its contexts are the full ones restricted, in order, and complete coverage stays complete |
| `AnyPart.QueryAnyPart` | `modules/insights/projection.py:158-334` | if the full query succeeds so does the query over any selection of the facts, in any order and with repetitions, under any Portfolio filter: its contexts are, up to order, the full ones of its visible facts and Portfolios, and complete coverage stays complete |
| `Locality.SecondPassCannotFail` | `modules/insights/results.py:223-235` | after a complete first pass the second pass of a reader neither raises nor reports missing coverage, and gives the first pass's contexts of the product and Portfolios |
| `AnyPart.ReaderContexts` | `modules/insights/results.py:223-235` | what a reader of one product gets: exactly the contexts of the first pass that have the product and belong to a Portfolio asked for |
| `JsonText.DumpsInjective` | `platform/scripts/shared_runtime_plan_guard.py:81` | the sorting key, `json.dumps` with sorted keys and ASCII escapes, determines the value |
| `JsonText.EscapeDetermines` | `platform/scripts/shared_runtime_plan_guard.py:81` | no escape is the beginning of another one, surrogate pairs included |
| `JsonText.SortedKeysAscend` | `platform/scripts/shared_runtime_plan_guard.py:79` | the keys of an object are written in order, each of them once |
| `Sorting.SortCanonical` | `platform/scripts/shared_runtime_plan_guard.py:80-81` | under an order that tells items apart sorting forgets exactly the arrangement |
| `CanonicalForm.NormalFormComplete` | `platform/scripts/shared_runtime_plan_guard.py:77-82` | two values have the same normal form, with numbers by their text, if and only if they are equal up to the order of lists at every depth |
| `CanonicalForm.NormalizeIdempotent` | `platform/scripts/shared_runtime_plan_guard.py:77-82` | a normal form is its own normal form and only reorders the value |
| `CanonicalForm.EquivIsEquivalence` | `platform/scripts/shared_runtime_plan_guard.py:77-82` | being equal up to the order of lists is an equivalence |
| `PythonValues.SameNormalIsAlike` | `platform/scripts/shared_runtime_plan_guard.py:77-82` | when Python finds two normal forms equal, the values are equal up to the order of lists and the value of booleans and numbers, at every depth |
| `PythonValues.CompleteExactlyApart` | `platform/scripts/shared_runtime_plan_guard.py:77-82` | over values with given booleans and numbers, comparing normal forms with Python's equality decides equality up to the order of lists if and only if no two different ones of them have one value |
| `PythonValues.OneIsTrue` | `platform/scripts/shared_runtime_plan_guard.py:77-82` | the failing input: `1` and `true` compare equal |
| `Keyed.KeysCount` | `platform/scripts/shared_runtime_plan_guard.py:112-114` | the dictionary by Sid is as long as the list exactly when no two statements share a Sid |
| `Keyed.ReadSameByKey` | `platform/scripts/shared_runtime_plan_guard.py:112-115` | comparing two dictionaries entry by entry compares the two lists up to their order, when keys are distinct and equal entries have equal keys |
| `IamGuard.AcceptedExactly` | `platform/scripts/shared_runtime_plan_guard.py:85-118` | the check accepts if and only if, in Python's equality, the resource but its policy, and the policy but its statements, are unchanged, Sids are distinct, and the normal forms of the new statements are those of the old ones plus exactly the signing-key statement, in some order |
| `IamMeaning.AcceptedAlike` | `platform/scripts/shared_runtime_plan_guard.py:107-118` | in every accepted policy the statements are the permitted ones up to the order of lists and the value of booleans and numbers, at every depth |
| `IamMeaning.AcceptedSigns` | `platform/scripts/shared_runtime_plan_guard.py:116-118` | every accepted policy has exactly the statement that allows `ssm:GetParameter` on the one signing key parameter |
| `IamMeaning.AcceptedExactlyApart` | `platform/scripts/shared_runtime_plan_guard.py:85-118` | when no two different booleans or numbers of the documents have one value, the check accepts if and only if everything else is unchanged, Sids are distinct, and the new statements are the old ones plus exactly the signing-key statement, up to the order of lists at every depth |
| `IamMeaning.OneValueIsAccepted` | `platform/scripts/shared_runtime_plan_guard.py:115` | whenever two different booleans or numbers have one value, a plan that turns one into the other inside a statement is accepted |
| `IamMeaning.OneTurnedTrueIsAccepted` | `platform/scripts/shared_runtime_plan_guard.py:115` | a failing input: `1` becomes `true` in a statement and the plan is accepted |
| `IamMeaning.AlikeMayDiffer` | `platform/scripts/shared_runtime_plan_guard.py:80-81` | being alike is not enough: the sorting by text keeps [2, true] and [2, 1] apart |
| `EmfAddon.ExtraFiles` | `platform/scripts/gateway_emf_addon.py:41-51` | the walk refuses exactly where the path meets something that is no object, and creates exactly the missing objects |
| `EmfAddon.PruneLoop` | `platform/scripts/gateway_emf_addon.py:76-85` | the backward loop with its break computes the recursive pruning of emptied objects absent from the baseline |
| `EmfAddon.Prepare` | `platform/scripts/gateway_emf_addon.py:54-91` | the identity, snapshot and configuration checks and the edit, with every refusal |
| `EmfRequests.PreparedExactly` | `platform/scripts/gateway_emf_addon.py:25-91` | a request gives a configuration if and only if both snapshots are of the one addon with four equal nonempty identity fields, both configurations decode, an apply finds the time and configuration of the baseline, and the edit goes through |
| `EmfRequests.ApplyExactly` | `platform/scripts/gateway_emf_addon.py:69-91` | an apply goes through exactly when the way to the file meets only objects and the file is absent or already the routing text |
| `EmfRequests.RollbackExactly` | `platform/scripts/gateway_emf_addon.py:70-75` | a rollback goes through exactly when both ways meet only objects, the baseline has no such file, and the file is the routing text |
| `EmfAddon.ApplyAddsOnly` | `platform/scripts/gateway_emf_addon.py:69-91` | apply stores the file and makes objects on the way to it; every other path keeps its value |
| `EmfAddon.RollbackUndoesApply` | `platform/scripts/gateway_emf_addon.py:69-91` | for every baseline whose path meets only objects, rollback after apply gives the baseline exactly if it does not own the file, and refuses otherwise |
| `EmfAddon.PreparedRollback` | `platform/scripts/gateway_emf_addon.py:54-91` | through `prepare` and its snapshots, whose comparisons are Python's: rollback gives back the very configuration that apply started from, which compares equal to the baseline's |
| `EmfAddon.RollbackRemovesOnly` | `platform/scripts/gateway_emf_addon.py:70-85` | rollback of any configuration removes the file and, on the way to it, exactly the objects that neither the baseline nor other content needs; every other path keeps its value |
| `Layers.RoundIsDepth` | `docs/l5-services/audit_inventory.py:174-189` | the round in which a revision is placed is the length of its longest chain of dependencies |
| `Layers.StuckUnresolved` | `docs/l5-services/audit_inventory.py:182-183` | when nothing is ready some pending revision reaches an unknown revision or a cycle |
| `Layers.PlacedResolved` | `docs/l5-services/audit_inventory.py:174-183` | when everything is placed no revision reaches an unknown revision or a cycle |
| `Layers.OrderIsSorted` | `docs/l5-services/audit_inventory.py:184-189` | the order is by longest dependency chain, then by name |
| `Layers.OrderDependenciesFirst` | `docs/l5-services/audit_inventory.py:175-189` | every revision comes after all its dependencies |
| `Migrations.NeedsExactly` | `docs/l5-services/audit_inventory.py:177-181` | a revision depends on exactly what it names as parent or as dependency, alone or in a tuple |
| `Migrations.HeadsExactly` | `docs/l5-services/audit_inventory.py:187-192` | the heads are exactly the revisions that none names as parent |
| `Migrations.Arrange` | `docs/l5-services/audit_inventory.py:172-192` | the loop ends; it raises if and only if some revision reaches an unknown revision or a cycle, else it lists every migration once, sorted and after its dependencies, and the heads are the revisions that are nobody's parent |
| `Subnets.ZoneListsLoop` | `platform/scripts/capacity_subnets.py:112-129` | the loop accepts exactly the zone maps with usable entries and no subnet under two zones, and sorts each list |
| `Subnets.ZoneMapLoop` | `platform/scripts/capacity_subnets.py:97-109` | the loop groups every live subnet under its zone, or refuses an unknown zone |
| `SubnetPlans.AdditionsExactly` | `platform/scripts/capacity_subnets.py:73-94` | the additions are the live subnets outside the baseline, refused exactly when the baseline is unknown or one of them is managed elsewhere |
| `SubnetPlans.PlansExactly` | `platform/scripts/capacity_subnets.py:112-167` | a plan is made if and only if both maps have proper, disjoint entries and, if anything is configured, it omits no retained subnet unless removal is authorised and moves none |
| `SubnetPlans.PlannedExactly` | `platform/scripts/capacity_subnets.py:137-167` | what is planned is the configuration if there is one, and otherwise what is retained unless removal is authorised |
| `Subnets.CompactRoundTrip` | `platform/scripts/capacity_subnets.py:132-134` | what is planned can be read back and says the same |
| `Subnets.PlanIsStable` | `platform/scripts/capacity_subnets.py:112-167` | every plan can be read back as configuration, and planning with it gives the same plan |
| `Subnets.EffectiveKeeps` | `platform/scripts/capacity_subnets.py:137-167` | without authorised removal every retained subnet stays in its zone, even with it none is moved, and configuration that is there is what is planned |
| `Subnets.NeverNarrows` | `platform/scripts/capacity_subnets.py:73-167` | over any number of deployments without authorised removal no live subnet is ever lost, however configuration comes and goes |

## Left out

- Ceiling.AcceptedCeilingBounds: patterns have `*` and `?` only and Python's `[` sets are excluded; `str.lower` is the ASCII one; a statement has one of Action and NotAction and at most one of Resource and NotResource; the two registry files are parameters.
- CanonicalForm.NormalFormComplete: numbers are compared by the text written for them; PythonValues adds Python's equality on top of it. Strings have no lone surrogates.
- PythonValues.SameNormalIsAlike: the value of a number's text is a parameter, so the rounding of binary floats is part of it and not computed; `NaN` and infinities are not modelled.
- IamGuard.AcceptedExactly: decoding the policy text is a parameter; `check_plan` and `check_other_work` around it are single-pass checks.
- FindingsLoops.MapFindings: the regular expressions on help texts, package provenance and the gate's severity of a result are decoded inputs; digests are a parameter and need not be injective, because repeated digests are refused.
- Disposition.Derive: the pins and hashes of whole documents are not modelled, and the inspection of Debian packages and of components (`verify_deb`, `exact_image_components.py`) is a parameter.
- ImageFiles.ImageFiles.ApplyLayers: tar, gzip and digest checks of the archive are left out and members come decoded; the hash of a file is an injective function of its bytes; `file_layers` is always kept, where the program keeps it on request.
- Paths.NormalPathIsNormal: a name is text without NUL; what Python's `str` type check refuses is not an input.
- Journal.Receipt.Save: the etag is represented by the body it stands for, and the private receipt file is not modelled; JSON and archive checks of the manifest are left out except the uniqueness of targets and artifacts.
- JournalSafety.Always: `deploy` is modelled as steps of a state machine rather than as one method, because runs interleave and crash between any two requests; only safety is claimed, since a lost reply can strand a journal or a lock by design.
- CapacityLockSafety.Always: the commands are steps of a state machine for the same reason; the Kubernetes bindings that `recover` compares are not modelled, and `recover` is used for owners that have stopped.
- CeilingExact.AcceptsExactly: a policy with a partial wildcard among the exceptions of a deny is bounded by AcceptedCeilingBounds, and its acceptance is not characterised by what it refuses, because the patterns the check computes are then wider than that.
- Conservation.CostIsConserved: amounts are exact reals, not the 28-digit Decimal context, and times are integers.
- Locality.SecondPassCannotFail: the answers of the access check are the same in both passes; cursors, paging and snapshot policies of the reader are left out.
- EmfAddon.Prepare: configurations are values, so sharing of nested dictionaries is not modelled; decoding and the value of a number are parameters.
- Migrations.Arrange: collecting revisions from Python files, and the rendering of rows as text, are left out.
- Subnets.NeverNarrows: reading the Terraform state is left out; the baseline, the managed subnets and the zones are inputs of each deployment.
- Subnets.ZoneListsLoop: the order in which Python's dictionaries iterate is not modelled where the result does not depend on it; the same holds for the loops of FindingsLoops and Migrations.
- AWS, Kubernetes, GitHub and docker calls, argument parsing, report rendering and the WSGI wrapper of the results reader.
- Maintenance, teardown and rollout scripts, readiness and smoke checks: thin ordering rules or single-pass checks next to provider calls.
