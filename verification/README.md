# Verified model of the namespace quota operator

The operator assigns QuotaProfiles to namespaces and keeps the ResourceQuotas and LimitRanges of each
namespace in line with the assigned profile. Four pieces of code act on the cluster: admission of
QuotaProfiles, admission of Namespaces, the QuotaProfile controller and the Namespace controller. This
project models the four, and their composition as one state machine, and proves what they promise.

Verify everything with `dafny verify dfyconfig.toml`.

## Layout

| file | models |
|---|---|
| Strings.dfy | `strings.Split`, `strconv.Itoa` and `strconv.Atoi` (64-bit range, optional sign) |
| Api.dfy | the API objects, the profile ID `<namespace>.<name>`, the two reserved namespace labels |
| ProfileAdmission.dfy | internal/webhook/v1alpha1/quotaprofile_webhook.go |
| NamespaceAdmission.dfy | internal/webhook/v1/namespace_webhook.go |
| AdmissionBoundaries.dfy | namespace admission outside the regular case: selectors on reserved labels, an empty label selector, dotted names, concrete examples |
| ProfileController.dfy | internal/controller/quotaprofile_controller.go, as methods of a `Cluster` whose writes pass admission |
| NamespaceController.dfy | internal/controller/namespace_controller.go, as methods over the stores of one namespace |
| Protocol.dfy | users, webhooks and any number of interleaved profile reconciles as a transition relation |
| Settling.dfy | what the stored labels are in the course of a run |
| Progress.dfy | the steps open to users, deletions that go through, concrete runs |
| EndToEnd.dfy | the quotas that a reconcile of the namespace leaves once its label has settled |
| Reachability.dfy | finite sequences of steps of a relation |

Code that works by changing things is a method on a class (`Namespace`, `Cluster`, `NamespaceReconciler`) or
on an array (the sort of `Default`), proved against a function of its inputs and old state. Those functions are
`Validate` and `CheckLabelKeys` for profile admission; `Visit`, `Resolved`, `Fold` and `Decision` for
namespace admission; `Preferred`, `Chosen` and `NamespaceWrite` for what the QuotaProfile controller sends;
`FateOf`, `Repair`, `Ensured`, `QuotaPass` and `LimitPass` for the Namespace controller, where `None` is a
panic. The lemmas below say what these amount to in terms that do not mention loops or the order of lists.

## Reading the results

- `Documented` is the rule of README.md:117-120: a live name match wins, else the live label match of highest
  precedence and, among equals, the latest creation time, else no profile.
- `Shadowed` is the only way admission departs from it over regular profiles and resolving labels: nothing
  matches by name, some live profile matches by label, and the label already on the namespace names a stored
  profile that has a precedence strictly above all of these matches. It then keeps the namespace even if it does
  not match any more or is being deleted.
- `Regular` collects what the code takes for granted about stored profiles: keys without a dot and not empty,
  exactly one label key in a label selector, and no selector on the two labels the operator writes itself.
  Without the first, `SelectableAdmission`, `FreshAdmission`, `UnresolvedAdmission` and `DottedReadmission` say
  exactly when admission fails; without the second, `EmptySelectorAdmission`; without the third,
  `SeenReserved` and `ReservedAdmission`.
- `Shadows` is the same condition for any profile `k` instead of the labelled one. `Overreach` is the case of a
  profile that the controller writes on a namespace it does not match.
- Where the documentation and the code differ, the code is modelled: the separator in the profile label is `.`
  (not `:`) and the timestamp label is a decimal number of microseconds, which the model keeps as any string.

Findings that the proofs made precise:

- A profile whose `matchLabels` is present but empty passes `validate` while no other label profile is stored
  (`EmptySelectorAccepted`); its finalizer can then never be written, because the client leaves an empty map
  out (`ProtocolWritesAdmitted`), and while it is live it fails the admission of namespaces
  (`EmptySelectorAdmission`).
- A profile deleted before its finalizer is there leaves its label behind exactly if a namespace carries it
  (`DeletionDisciplineIsExact`, `DanglingRun`).
- A profile name may contain a dot, but the label written for such a profile names nothing
  (`WrittenLabelResolves`). The next write of a namespace that carries it is refused when its first live match is
  a label match (`DottedReadmission`). A namespace without any profile label is refused when such a profile
  leads and a later label match follows (`FreshAdmission`, `DottedCreationExample`), and so is a namespace whose
  label resolves, when such a profile takes it over first (`SelectableAdmission`). The cleanup does not recognise
  the label of such a profile: the profile goes and the label stays (`CleanupStrips`, `DottedDeletionExample`).
- The controller takes a namespace without the label for a match of a selector for the empty value; the webhook
  does not (`ControllerMatchExact`). If the profile has a precedence above that of every match, its write takes
  the namespace away from the documented winner (`ShadowedOrOverreach`, `OverreachExample`).
- A profile that selects on one of the operator's own labels sees what the loop has written so far, and can win a
  namespace whose incoming labels it does not match (`ReservedAdmission`, `ReservedSelectorExample`).
- The repair of limit ranges compares the parsed index with the number of resource quota specs and then reads the
  limit range specs at it. Once `limitRangeSpecs` is shortened below both its old length and the number of quota
  specs, the limit ranges that the controller created itself make its next pass panic, and every later one
  (`ShortenedSpecsPanic`, `PanicStays`, `WellNamedAccess`). With at least as many limit range specs as quota
  specs no access is out of range for names with a hyphen (`IndexAccessSafe`).
- A namespace that stops matching when a selector is edited keeps its label until somebody writes it
  (`UnmatchedIsNotLabelled`, `LabelsSettle`).
- The limit range pass compares indices with the number of resource quota specs and creates only into an empty
  namespace. A profile with more limit ranges than quotas loses the surplus on the second pass, and with no
  quotas at all it alternates between creating and deleting (`CreatedLimitsStay`). Missing members of an
  incomplete set are never created (`LimitsConvergeInTwoPasses`).

## Model

| member | source | states |
|---|---|---|
| Strings.ItoaDigit | internal/controller/namespace_controller.go:176 | the `i`-th character from the right of a generated index is the `i`-th decimal digit of it |
| Strings.ItoaLength | internal/controller/namespace_controller.go:176 | the text has as many digits as the number needs, so no leading zero |
| Strings.ItoaDigitsValue | internal/controller/namespace_controller.go:176 | every digit string without a leading zero is the text of its value |
| Strings.AtoiExact | internal/controller/namespace_controller.go:342-363 | a part parses exactly when it is an optional sign and digits only, of a value that fits the machine integer, and then to that value |
| Api.ProfileIDRoundTrip | internal/controller/quotaprofile_controller.go:220-230 | `splitProfileID` gives back the namespace and name that `setQuotaProfileLabels` wrote exactly when neither contains a dot |
| Api.ProfileIDInjective | internal/controller/namespace_controller.go:365-367 | two different dot-free profiles never share an ID, so comparing labels as strings compares profiles |
| Api.SplitProfileIDExact | internal/controller/quotaprofile_controller.go:220-226 | a label names a profile exactly when it is its ID and the profile has no dot |
| Api.SplitProfileIDInverse | internal/controller/namespace_controller.go:85-86 | a label that splits into two parts is the ID of the profile it names, so the later mismatch test compares with the label itself |
| Api.Namespace.SetQuotaProfileLabels | internal/webhook/v1/namespace_webhook.go:181-185 | sets the two reserved labels and no other |
| Api.Namespace.RemoveLabel | internal/webhook/v1/namespace_webhook.go:138-142 | deletes the two reserved labels and no other |
| ProfileAdmission.ValidateExact | internal/webhook/v1alpha1/quotaprofile_webhook.go:95-153 | `validate` accepts exactly the profiles with one kind of selector and at most one label key that clash with no other stored profile, whatever the order of the list |
| ProfileAdmission.ValidateVerdicts | internal/webhook/v1alpha1/quotaprofile_webhook.go:95-153 | each reason of a refusal, and the panic, with its exact condition on the profile and the stored set: a panic exactly when another label profile is stored and one of the two maps is empty, a duplicate key exactly when another has the same one, a duplicate name likewise |
| ProfileAdmission.AcceptedWritesKeepInvariant | internal/webhook/v1alpha1/quotaprofile_webhook.go:87-153 | a create or update is accepted if and only if the store with it satisfies the selector invariant: names unique, label keys unique |
| ProfileAdmission.ProtocolWritesAdmitted | internal/webhook/v1alpha1/quotaprofile_webhook.go:69-73 | an update that leaves a stored spec unchanged, as the finalizer writes do, is refused exactly for an empty label selector |
| ProfileAdmission.ResubmissionKeepsInvariant | api/v1alpha1/quotaprofile_types.go:45-53 | the same at the level of the store: what the client serializes of a stored profile keeps the invariant unless the empty map is dropped |
| ProfileAdmission.EmptySelectorAccepted | internal/webhook/v1alpha1/quotaprofile_webhook.go:106-110 | a present but empty label map is accepted exactly while no other label profile is stored |
| NamespaceAdmission.SortByCreation | internal/webhook/v1/namespace_webhook.go:77-79 | an in-place permutation in order of creation, and no more than that |
| NamespaceAdmission.ResolveConflict | internal/webhook/v1/namespace_webhook.go:144-170 | fails if the labelled profile is not stored; else sets the labelled profile if its precedence is strictly higher and the new one otherwise |
| NamespaceAdmission.Default | internal/webhook/v1/namespace_webhook.go:63-136 | the labels or the error are those of the fold over some sorted listing of the stored profiles |
| NamespaceAdmission.LeadAfterLeads | internal/webhook/v1/namespace_webhook.go:103-125 | the pairwise rule amounts to: the last of the strongest live matches so far, or an incoming profile strictly above them all |
| NamespaceAdmission.FoldLabels | internal/webhook/v1/namespace_webhook.go:83-128 | without a name match ahead the loop ends on that leader, whatever it started from |
| NamespaceAdmission.FoldName | internal/webhook/v1/namespace_webhook.go:88-93 | a live name match ahead ends the loop on itself, whatever conflicts were settled before |
| NamespaceAdmission.AdmissionOutcome | internal/webhook/v1/namespace_webhook.go:63-136 | with an incoming label that resolves or none: admission succeeds, changes only the reserved labels, sets both or removes both, and ends on the documented winner if and only if the incoming label does not shadow it |
| NamespaceAdmission.SelectableAdmission | internal/webhook/v1/namespace_webhook.go:63-170 | with keys that may contain a dot and an incoming label that resolves or none: admission fails exactly when, before any live name match, a dotted label match leads, over the incoming profile too, and a later live label match follows; otherwise it ends on the documented winner if and only if the incoming label does not shadow it |
| NamespaceAdmission.FreshAdmission | internal/webhook/v1/namespace_webhook.go:77-135 | a namespace without a profile label is refused exactly in the same case, and otherwise always ends on the documented winner or on no label |
| NamespaceAdmission.HolderDocumentedExact | internal/webhook/v1/namespace_webhook.go:94-125 | without a live name match the last leader is as documented exactly when it matches the incoming labels and outranks the matching profiles with a selector on a reserved label |
| NamespaceAdmission.UnresolvedAdmission | internal/webhook/v1/namespace_webhook.go:149-152 | with an incoming label that names no stored profile admission fails exactly when the first live match in the list is a label match, and is as documented otherwise |
| NamespaceAdmission.WrittenLabelResolves | internal/webhook/v1/namespace_webhook.go:172-179 | the label written for a stored profile resolves on the next admission exactly when its key has no dot |
| NamespaceAdmission.DottedReadmission | internal/webhook/v1/namespace_webhook.go:144-179 | a namespace that was given a profile with a dotted key can be written again exactly when the first live match of the list is not a label match |
| NamespaceAdmission.ListOrderIrrelevant | internal/webhook/v1/namespace_webhook.go:71-79 | with distinct creation times every order of the listing gives the same outcome |
| NamespaceAdmission.WinnerAdmitted | internal/webhook/v1/namespace_webhook.go:63-136 | with distinct creation times the documented winner is one, and admission ends on it if and only if the incoming label does not shadow it |
| NamespaceAdmission.NameMatchOrderIrrelevant | internal/webhook/v1/namespace_webhook.go:88-93 | with unique names the name match is chosen in every order, equal creation times included |
| NamespaceAdmission.AdmissionIdempotent | internal/webhook/v1/namespace_webhook.go:63-136 | a second admission over the same sorted list confirms the first and changes only the timestamp |
| AdmissionBoundaries.ShadowedExample | internal/webhook/v1/namespace_webhook.go:160-164 | a concrete state in which the documented winner is not chosen: the labelled profile no longer matches but is stronger |
| AdmissionBoundaries.DottedCreationExample | internal/webhook/v1/namespace_webhook.go:111-117 | a concrete store of two profiles, one with a dot in its name, that refuses a namespace without a profile label |
| AdmissionBoundaries.SeenReserved | internal/webhook/v1/namespace_webhook.go:98-103 | a live profile that selects a value of a reserved label counts as a match exactly when that value is on the namespace when its turn comes: the ID of the leader so far or the current time, and the incoming value while there is no leader |
| AdmissionBoundaries.ReservedPositions | internal/webhook/v1alpha1/quotaprofile_webhook.go:137-148 | the selector invariant leaves at most one profile on each reserved label, so that two positions of the list cover them all |
| AdmissionBoundaries.SeenReservedOnlyAt | internal/webhook/v1/namespace_webhook.go:83-128 | the fold sees the ranks of the incoming labels with the entries at these two positions replaced, one after the other |
| AdmissionBoundaries.ReservedAdmission | internal/webhook/v1/namespace_webhook.go:63-170 | with selectors on one or both reserved labels and any keys: decided on the replaced ranks, admission fails exactly for a dotted leader followed by a match, and otherwise ends on a live name match or on the leader, which is as documented exactly when it matches the incoming labels and outranks the reserved selectors wherever those match them |
| AdmissionBoundaries.ReservedSelectorExample | internal/webhook/v1/namespace_webhook.go:94-125 | a concrete profile with a selector on the reserved label wins although it does not match the incoming labels |
| AdmissionBoundaries.EmptySelectorAdmission | internal/webhook/v1/namespace_webhook.go:94-97 | while a live profile with an empty label selector is stored admission fails except for namespaces that an older live profile names |
| ProfileController.WriteExact | internal/controller/quotaprofile_controller.go:115-146 | the controller writes exactly the namespace with the selected name, or those whose label, or the empty string without it, is the selected value; it panics exactly on an empty label map |
| ProfileController.ControllerMatchExact | internal/controller/quotaprofile_controller.go:132-138 | the label test of the controller is that of the webhook except that a missing label matches the empty value |
| ProfileController.RulesDisagree | internal/controller/quotaprofile_controller.go:189-217 | exactly when the controller settles a conflict differently from the webhook: it also keeps a profile of no higher precedence that names the namespace or is newer, and it replaces a missing one |
| ProfileController.ControllerThenAdmission | internal/controller/quotaprofile_controller.go:115-217 | any write of the controller followed by admission is admitted, and ends on the documented winner if and only if the profile it sends does not have a precedence strictly above all live label matches with no live name match; if it does, it stays |
| ProfileController.ShadowedOrOverreach | internal/controller/quotaprofile_controller.go:132-217 | for a live profile that happens exactly when the incoming label shadowed the winner already or the profile overreaches: it selects the empty value of a label the namespace does not have, is the one sent, and outranks every match |
| ProfileController.MatchDoesNotOverreach | internal/controller/quotaprofile_controller.go:115-146 | a live profile that matches by the test of the webhook is written and does not overreach |
| ProfileController.OverreachTakesOver | internal/controller/quotaprofile_controller.go:132-138 | a profile that overreaches is admitted and keeps the namespace although it does not match |
| ProfileController.OverreachExample | internal/controller/quotaprofile_controller.go:132-138 | a concrete regular state on the documented winner in which a profile overreaches |
| ProfileController.StrippedAdmission | internal/controller/quotaprofile_controller.go:255-268 | a stripped namespace ends on the winner among the other live profiles or on no label, and never on the profile being deleted |
| ProfileController.CleanedOutcome | internal/controller/quotaprofile_controller.go:250-270 | the same for what a cleanup pass leaves on each namespace; those that do not carry the profile stay as they are |
| ProfileController.CleanupStrips | internal/controller/quotaprofile_controller.go:250-270 | a cleanup pass takes the label of the profile off exactly when its key has no dot; otherwise it leaves the namespace as it is |
| ProfileController.DottedDeletionExample | internal/controller/quotaprofile_controller.go:250-270 | the label of a profile named `a.b` survives its cleanup |
| ProfileController.LabelledOutcome | internal/controller/quotaprofile_controller.go:115-146 | what a labelling pass of a live profile leaves on each namespace it writes: the documented winner if and only if the old label did not shadow it and the profile does not overreach; which profile it is otherwise |
| ProfileController.Cluster.UpdateNamespace | internal/webhook/v1/namespace_webhook.go:49 | a namespace write stores what admission decides, or nothing if it refuses |
| ProfileController.Cluster.UpdateProfile | internal/controller/quotaprofile_controller.go:274-275 | a profile write is stored if and only if the selector invariant survives; the last finalizer of a profile being deleted takes the profile with it |
| ProfileController.Cluster.CleanNamespace | internal/controller/quotaprofile_controller.go:250-270 | one iteration of the cleanup: only the given namespace can change, and it is cleaned, or it carries the profile and admission refused the write, which then changes nothing |
| ProfileController.Cluster.HandleDeletion | internal/controller/quotaprofile_controller.go:234-282 | on success the profile is gone and every namespace is cleaned; on failure the profile stays, each namespace is cleaned or untouched, and one is untouched because admission refused it, or all are cleaned and the selector is the empty map; with regular profiles it succeeds, no namespace names the profile, those that did have the documented fallback, all others and all other labels are kept |
| ProfileController.Cluster.ResolveConflict | internal/controller/quotaprofile_controller.go:176-218 | every branch sends one update, with the labels of the preferred profile |
| ProfileController.Cluster.AddLabelToNamespace | internal/controller/quotaprofile_controller.go:155-169 | sends the profile itself for a namespace without a label, the preferred one otherwise |
| ProfileController.Cluster.LabelNamespace | internal/controller/quotaprofile_controller.go:115-146 | one iteration of either loop of `reconcileNamespace`, with the reason of a failure, which changes nothing |
| ProfileController.Cluster.ReconcileNamespaces | internal/controller/quotaprofile_controller.go:100-148 | with regular profiles every namespace a live profile writes ends on the documented winner if and only if its old label does not shadow it and the profile does not overreach, which it never does on a namespace it matches; namespaces it does not write are kept; on a failure each namespace is labelled or untouched, and one is untouched because its write failed |
| ProfileController.Cluster.Reconcile | internal/controller/quotaprofile_controller.go:57-98 | the finalizer is stored before any namespace is labelled, adding it fails exactly for an empty label selector, deletion cleans up and removes the profile or leaves all profiles alone; with regular profiles it succeeds, with the fallback after a deletion and the documented winner, shadowing and overreach excepted, after a labelling; on a failure the namespaces are as in the two rows above |
| NamespaceController.IndexReadable | internal/controller/namespace_controller.go:342-345 | the access to the last but one part is in range exactly when the name has a hyphen |
| NamespaceController.IndexRoundTrip | internal/controller/namespace_controller.go:342-375 | the index parsed from a generated name is the one it was generated from, hyphens in namespace or name included |
| NamespaceController.FirstNames | internal/controller/namespace_controller.go:369-375 | the first quota and limit range of profile `o/b` are named `o-b-0-rq` and `o-b-0-lr` |
| NamespaceController.TenthName | internal/controller/namespace_controller.go:342-375 | a name with two digits and hyphens in both halves, and the index parsed back |
| NamespaceController.GeneratedNameInjective | internal/controller/namespace_controller.go:369-375 | names generated for one profile are distinct |
| NamespaceController.IndexNonNegative | internal/controller/namespace_controller.go:345-350 | a parsed index is never negative |
| NamespaceController.IndexAccessSafe | internal/controller/namespace_controller.go:147-163 | where the index is compared with no more than the length of the list it is used on, as for quotas always and for limit ranges with at least as many specs as quotas, the pass is free of panics exactly when the parsed names have a hyphen |
| NamespaceController.WellNamedAccess | internal/controller/namespace_controller.go:235-252 | for limit ranges this controller created the pass panics exactly when one of them has an index for which there is a quota spec and no limit range spec |
| NamespaceController.ShortenedSpecsPanic | internal/controller/namespace_controller.go:242-252 | the limit ranges created for a profile make a pass panic exactly when the profile has fewer limit range specs now than then and than quota specs |
| NamespaceController.PanicStays | internal/controller/namespace_controller.go:219-259 | after a panic every later pass for the same specs panics too |
| NamespaceController.IndexTextAt | internal/controller/namespace_controller.go:342-345 | the text that is parsed is the one between the last two hyphens |
| NamespaceController.QuotaPassDecided | internal/controller/namespace_controller.go:132-170 | what becomes of every quota under a name that is not generated, said on the characters of its name: unmanaged ones and those whose index is no number are left alone, foreign and surplus ones go or are terminating if held, the rest get the spec of their index |
| NamespaceController.QuotaPassGenerated | internal/controller/namespace_controller.go:173-204 | what is under each generated name afterwards: what was there with the spec of the index, or a new object with the label of the profile; no other name comes into being |
| NamespaceController.LimitPassDecided | internal/controller/namespace_controller.go:218-259 | the same for every limit range of a namespace that has any |
| NamespaceController.LimitPassCreates | internal/controller/namespace_controller.go:260-273 | limit ranges are created in an empty namespace only, the same objects as quotas |
| NamespaceController.CreatedExample | internal/controller/namespace_controller.go:189-204 | the objects created for one spec, as literals |
| NamespaceController.UnparsedStays | internal/controller/namespace_controller.go:148-152 | an owned object whose index is no decimal number survives both passes unchanged |
| NamespaceController.TeamQuotaStays | internal/controller/namespace_controller.go:148-152 | so does an owned quota with a name of two parts such as `team-quota` |
| NamespaceController.PanicDecided | internal/controller/namespace_controller.go:147-163 | a pass panics exactly for an owned name without a hyphen or with a number below the bound and past the specs |
| NamespaceController.WithoutManagedDecided | internal/controller/namespace_controller.go:277-339 | without a label, unmanaged and terminating objects are left alone, managed ones go or are terminating if held, nothing is created |
| NamespaceController.QuotasConvergeInOnePass | internal/controller/namespace_controller.go:122-207 | one pass succeeds and leaves exactly one well-filled object per spec among the managed ones if and only if survivors are well named, nothing holds what is to be deleted and no unmanaged object has a generated name |
| NamespaceController.WellNamedConverges | internal/controller/namespace_controller.go:122-207 | over objects this controller created a quota pass never panics and converges if and only if no unmanaged object has a generated name and whatever is held belongs to the current set |
| NamespaceController.ConvergedQuotasStay | internal/controller/namespace_controller.go:122-207 | a converged store is a fixed point |
| NamespaceController.NoForeignQuotas | internal/controller/namespace_controller.go:138-146 | after the pass every managed quota that is not terminating carries the profile's label |
| NamespaceController.UnmanagedQuotas | internal/controller/namespace_controller.go:133-136 | an unmanaged quota keeps its labels, and its spec unless its name is generated for another spec |
| NamespaceController.QuotaPassKeepsNames | internal/controller/namespace_controller.go:192-198 | the pass keeps the naming scheme of managed objects |
| NamespaceController.CreatedLimitsStay | internal/controller/namespace_controller.go:242-273 | from an empty namespace the second pass keeps the created limit ranges if and only if there are no more of them than resource quota specs; with no quota specs it deletes them all |
| NamespaceController.LimitsConvergeInTwoPasses | internal/controller/namespace_controller.go:218-273 | from existing limit ranges the first pass succeeds if and only if no access is out of range, and then two passes converge if and only if the first removes them all or keeps a complete set |
| NamespaceController.WellNamedLimitsConverge | internal/controller/namespace_controller.go:218-259 | over limit ranges this controller created a pass succeeds and converges if and only if the set is complete and the held ones, and those with an index below the number of quota specs, have a name generated for a limit range spec |
| NamespaceController.ConvergedLimitsStay | internal/controller/namespace_controller.go:242-257 | a converged set never panics, and is a fixed point if and only if every index from the number of quota specs on is held and terminating already |
| NamespaceController.RepairConverges | internal/controller/namespace_controller.go:218-259 | what one repair pass over existing limit ranges converges to, decided on the store before it |
| NamespaceController.NoForeignLimits | internal/controller/namespace_controller.go:225-233 | after the pass every managed limit range that is not terminating carries the profile's label |
| NamespaceController.LimitPassKeepsNames | internal/controller/namespace_controller.go:260-272 | the pass keeps the naming scheme of managed objects |
| NamespaceController.PanicKeepsNames | internal/controller/namespace_controller.go:219-259 | so does a pass that panics half-way |
| NamespaceController.NamesWithoutManaged | internal/controller/namespace_controller.go:277-339 | so does the deletion of all managed objects |
| NamespaceController.WellNamedPanic | internal/controller/namespace_controller.go:103-120 | over objects this controller created a reconcile can panic in the limit range pass only, and does exactly for an index with a quota spec and without a limit range spec |
| NamespaceController.NamespaceReconciler.RepairQuota | internal/controller/namespace_controller.go:132-170 | one iteration of the repair loop for quotas; it panics exactly on a name without a hyphen |
| NamespaceController.NamespaceReconciler.EnsureQuotas | internal/controller/namespace_controller.go:173-204 | the get-or-create loop |
| NamespaceController.NamespaceReconciler.ReconcileResourceQuotas | internal/controller/namespace_controller.go:122-207 | the store becomes the closed form of a quota pass, independent of the order of the list, or the pass panics and some of the objects it does not panic on are repaired, nothing else |
| NamespaceController.NamespaceReconciler.RepairLimit | internal/controller/namespace_controller.go:219-259 | one iteration of the repair loop for limit ranges; it panics exactly on a name without a hyphen or an index below the bound and past the specs |
| NamespaceController.NamespaceReconciler.CreateLimits | internal/controller/namespace_controller.go:260-273 | the creation loop for an empty namespace |
| NamespaceController.NamespaceReconciler.ReconcileLimitRanges | internal/controller/namespace_controller.go:209-275 | the store becomes the closed form of a limit range pass, or the pass panics and some of the objects it does not panic on are repaired, nothing else |
| NamespaceController.NamespaceReconciler.DeleteManagedResourceQuotas | internal/controller/namespace_controller.go:277-307 | every managed quota is gone, or held and terminating; nothing else changes |
| NamespaceController.NamespaceReconciler.DeleteManagedLimitRanges | internal/controller/namespace_controller.go:309-339 | every managed limit range is gone, or held and terminating; nothing else changes |
| NamespaceController.NamespaceReconciler.Reconcile | internal/controller/namespace_controller.go:55-120 | no leftovers: without a label no managed object stays but terminating ones, with the label of a stored profile all others carry it; a missing profile or namespace changes nothing; the naming scheme survives every outcome; a panic, its exact condition and what it leaves |
| Protocol.FoldAssignment | internal/webhook/v1/namespace_webhook.go:83-135 | admission leaves the label of a live stored profile, the resolving label it was given, or none |
| Protocol.WrittenAssignment | internal/controller/quotaprofile_controller.go:155-217 | the controller sends its own profile or the stored one the label names already |
| Protocol.StepKeepsInvariant | internal/controller/quotaprofile_controller.go:57-282 | every disciplined step keeps: sound selectors, no dangling label, finalizers under every running reconcile, and a cleanup's list covering all carriers of its profile |
| Protocol.InvariantOverRuns | internal/controller/quotaprofile_controller.go:57-282 | hence in every state of every interleaved run each profile label names a stored profile |
| Protocol.FinalizerRemovalIsSafe | internal/controller/quotaprofile_controller.go:272-279 | when a finalizer is removed in a run no namespace carries the profile |
| Protocol.ReadmissionOverRuns | internal/webhook/v1/namespace_webhook.go:63-136 | in every reachable state with regular selectors re-sending a namespace is admitted and ends as documented unless shadowed |
| Protocol.FinalizerWritesOverRuns | internal/controller/quotaprofile_controller.go:81-88 | in every reachable state the finalizer writes are admitted, except for an empty label selector |
| Settling.StoredLabelOverRuns | internal/webhook/v1/namespace_webhook.go:63-136 | in every run, from the last write of a namespace on, its stored label is the documented winner exactly when what was sent to admission was not shadowed, while the profiles are those of the write |
| Settling.LabelsSettle | internal/controller/quotaprofile_controller.go:100-148 | while no profile changes and no user touches the namespace: if the controllers do not write it, it keeps its labels, and if they write it once or more, it ends on the documented winner if and only if its label did not shadow it from the start, or a cleanup removed it, and no profile overreached since the last cleanup, however the reconciles interleave |
| Settling.OverreachesByEmptyValue | internal/controller/quotaprofile_controller.go:132-138 | a labelling write overreaches only for a selector of the empty value of a label the namespace does not have |
| Settling.UnmatchedIsNotLabelled | internal/controller/quotaprofile_controller.go:115-146 | a namespace that no live profile matches is never given a profile: a controller writes it only for a selector of the empty value, and then the label goes; otherwise a label left from an earlier selector stays |
| EndToEnd.QuotasOverRuns | internal/controller/namespace_controller.go:84-120 | in every state of every run a reconcile of the namespace does not panic on quotas this controller created, and leaves exactly those of the labelled profile, or none without a label, if and only if no unmanaged quota has a name it needs and nothing holds one it has to remove |
| EndToEnd.QuotasOfTheWinner | internal/controller/namespace_controller.go:84-120 | once the label has settled these are exactly the quotas of the documented winner |
| Protocol.DeletionDisciplineIsExact | internal/controller/quotaprofile_controller.go:237-241 | from a good state a deletion leaves a dangling label if and only if it hits a profile without finalizer that a namespace carries |
| Protocol.DanglingRun | internal/controller/quotaprofile_controller.go:80-88 | a concrete run in which it does |
| Progress.CreateProfileExact | internal/webhook/v1alpha1/quotaprofile_webhook.go:62-66 | a user can store a new profile exactly when the selectors stay sound with it, and nothing else changes |
| Progress.UpdateSpecExact | internal/webhook/v1alpha1/quotaprofile_webhook.go:69-73 | the same for a new spec of a stored profile, which keeps its finalizer and deletion mark |
| Progress.RequestDeleteExact | internal/controller/quotaprofile_controller.go:74-77 | a deletion is always open: it marks a profile that has the finalizer and removes one that has not, and changes nothing else |
| Progress.NamespaceWritesGoThrough | internal/webhook/v1/namespace_webhook.go:63-136 | in every good state with regular profiles a namespace can be created and sent again, and is stored as documented unless shadowed |
| Progress.DeletionGoesThrough | internal/controller/quotaprofile_controller.go:234-282 | from every good state the deletion of a live profile with its finalizer leads to its removal, with every outcome that the cleanup of the namespaces may have |
| Progress.DeletionCanGoThrough | internal/controller/quotaprofile_controller.go:234-282 | with regular profiles there is such an outcome: no namespace names the profile, and those that did have the documented fallback |
| Progress.CleanupRun | internal/controller/quotaprofile_controller.go:57-282 | a run from the empty cluster in which a profile carried by a namespace is cleaned up and removed |
| EndToEnd.WinnerRun | internal/controller/quotaprofile_controller.go:57-148 | a run that meets all conditions of QuotasOfTheWinner |
| EndToEnd.WinnerRunQuotas | internal/controller/namespace_controller.go:84-120 | and the quota that is created at its end, as a literal |
| Protocol.HandleDeletionIsASchedule | internal/controller/quotaprofile_controller.go:234-282 | the effect of a successful `HandleDeletion` is reachable by the steps of the protocol |
| Protocol.ReconcileIsASchedule | internal/controller/quotaprofile_controller.go:80-148 | so is the effect of a successful `Reconcile` of a live profile |

## Left out

- `cmd/main.go`, manifests, RBAC, TLS and metrics: start-up and deployment.
- The ResourceQuota and LimitRange validators (internal/webhook/v1/resourcequota_webhook.go, internal/webhook/v1/limitrange_webhook.go): two-branch checks.
- The client cache and stale reads, watches, requeues: reads are current and each write is atomic; a write on an outdated listing is a conflict that ends the reconcile.
- Transient API failures inside the Namespace controller, which logs them and goes on: its results are for passes whose calls succeed, up to the first index panic.
- Finalizers on profiles other than the operator's own, and users who remove finalizers or write the reserved labels by hand.
- Namespaces whose label map is nil: the API server labels every namespace with its name before admission, so maps are never nil here.
- Type assertions of the webhooks on the decoded object: the model is typed.
- The wall clock: the timestamp label is a parameter, one value per reconcile, and its value matters only to a selector on it.
- The contents of quota and limit specs, logging and contexts.
- `lo.Keys(m)[0]` for a map with several keys, whose order Go leaves open: `validate` keeps such maps out of the store.
- Settling.LabelsSettle: assumes that running reconciles work with the stored live profile; after a change of a selector the namespaces that matched before keep their label, because nothing writes them.
- Quota and limit range passes as steps of the run: they do not touch labels; EndToEnd puts one reconcile of the namespace after a run.
- NamespaceController.NamespaceReconciler.Reconcile: updates objects in stores that are maps, so the aliasing of listed copies with stored objects is not modelled.
