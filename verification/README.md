# Ephemeral credential broker: a verified model

The broker keeps one Kubernetes Secret per `EphemeralCredential` supplied with a
short-lived credential: it mints one, writes it into the Secret, records a handle
to it in an annotation and its expiry in the status, revokes the credential before
it, rotates in time, and cleans up behind a finalizer. One mint attempt makes up to
five visible effects (Mint, Secret write, handle write, status write, Revoke), and
any of them can fail, land without saying so, or be cut off by a crash.

This project models that reconciler in Dafny and proves what it guarantees over
whole lives of an object. `dafny verify dfyconfig.toml` checks everything.

## How the model is built

* `Api.dfy`, `Schedule.dfy`, `Registry.dfy`: the object, the rotation arithmetic in
  integer nanoseconds, and the provider registry. Status times are persisted with a
  precision `unit`; the API has `unit == SECOND`, and `unit == 1` is the arithmetic
  with nothing lost, so each result about times covers both.
* `Machine.dfy`: the reconciler as a small-step machine, one step per API or provider
  call and per reading of the clock. Between any two steps the clock may advance, the
  spec or the metadata may be edited, the object or its Secret may be deleted, and the
  controller may crash. A call is *done*, *lost* (it took effect and reported failure)
  or *refused*; Update and Status().Update are refused when the resourceVersion is
  stale. Credentials are numbered in mint order; the ledger of grants and the log of
  Revoke calls belong to the providers. A `Life` is any finite run of this machine
  that starts from a new object.
* `Reconciler.dfy`: the program itself, with its in-memory copy changed in place
  between calls, and the handle kept in the copy as the text of its annotation. Every
  call is admitted only as the call that comes next in the machine and with the
  arguments that the machine gives it, so each `Reconcile` is proved to continue a life,
  and what is proved of lives holds throughout it.
* `Invariants.dfy`: what every step keeps, in layers. `Safety.dfy`, `Tally.dfy`,
  `Conservation.dfy`, `MintRate.dfy`, `Coverage.dfy`, `Quiescence.dfy`, `Healing.dfy`,
  `Escalation.dfy`: what follows for whole lives.
* `KeyList.dfy`, `SecretKeys.dfy`, `Provenance.dfy`: the managed keys of the Secret.
  `SecretContents.dfy`: lives of the machine and the keys of the Secret together.
* `Base64.dfy`, `Utf8.dfy`, `Json.dfy`, `HandleCodec.dfy`: the handle annotation.

Premises: reconciles of one object are serial and read the current object and Secret;
the clock does not run backwards; the name of the target Secret is not empty, stays the
same and is used by one object; nobody else edits the handle annotation, the finalizer,
the status or the managed keys, or creates the Secret; the controller's finalizer is the
only one, so the object goes when it is removed; a credential is minted once, and
the handle returned with it names it and the provider that minted it.

Five findings:

* A credential whose first mint attempt is interrupted after the Secret write has no
  expiry on record, and a failing reconcile then leaves it in the Secret past its
  expiry, whatever its lifetime (`Escalation.ExpiredSecretCanStay`). An expiry on
  record that has passed is exactly what it takes for every reconcile with working
  Kubernetes calls to replace or remove what is in the Secret (`ExpiredSecretGoes`,
  `OtherwiseSecretMayStay`).
* A valid credential can be removed: when a rotation is interrupted between the Secret
  write and the status write, the expiry on record is still that of the credential before,
  and a failing reconcile past it removes the new one, up to a whole lifetime early
  (`Escalation.ValidSecretCanGo`), although a credential that has not expired is meant to
  stay (internal/controller/ephemeralcredential_controller.go:444-452). The exact condition
  is on the record: the controller never removes the Secret of a live object while there
  is no expiry on record or it is ahead (`DropsNoEarlierThan`), and can as soon as it has
  passed (`PassedSecretMayGo`). The record is that of what is in the Secret from the next
  recorded mint on (`ValidSecretStays`, `ExpiredIsOnRecord`).
* The order in which the mint's outputs are visited shows in the Secret exactly when
  two outputs with different values map to one key (`WriteIsOverlay`,
  `CollisionsShowOrder`).
* Below ten seconds the floor on requeues can hold a wake-up back by a second or more
  (`Schedule.ShortGrantWakesLate`). The wake-up comes less than one unit after a mint is
  due if and only if the floor ends less than one unit after the window opens
  (`Schedule.WakesPromptlyExactly`); without truncation it is exact if and only if the
  floor does not apply (`Schedule.ScheduleIsExact`).
* A failure-free reconcile always ends with a credential in place that was still valid
  when it began, but one that takes too long can end after its expiry
  (`Healing.TooSlowToHeal`). Reconciles that end by a deadline, with grants that outlast
  it, all end with a usable credential if and only if, when they begin, a mint is due, the
  Secret is missing, or what is in it outlives the deadline (`Healing.HealsExactly`).

## Model

| member | source | states |
|---|---|---|
| `Schedule.RequestedRotateBefore` | internal/controller/ephemeralcredential_controller.go:272-278 | the requested window is positive, whatever the spec says |
| `Schedule.RotatesAsAsked` | internal/controller/ephemeralcredential_controller.go:149-154 | with a lifetime on record of at least twice the `rotateBeforeSeconds` of the spec (ten minutes if not positive), a mint is due exactly from that long before expiry on; with a shorter one, from the middle of the lifetime; and at once without an expiry or after a spec change |
| `Schedule.OnlyTheWindowMatters` | internal/controller/ephemeralcredential_controller.go:272-278 | specs that ask for the same window decide and schedule alike, whatever their `ttlSeconds` |
| `Schedule.ClampRotateBefore` | internal/controller/ephemeralcredential_controller.go:307-320 | the window is at most half of a known lifetime and at most what was asked for; it is reduced exactly when twice the request exceeds the lifetime, and then to half of it |
| `Schedule.NeedsMintFrom` | internal/controller/ephemeralcredential_controller.go:149-154 | with the spec unchanged, a mint is due from one instant on, and not before |
| `Schedule.RequeueAfter` | internal/controller/ephemeralcredential_controller.go:263-266 | a requeue is never sooner than the floor of five seconds |
| `Schedule.WindowsAgree` | internal/controller/ephemeralcredential_controller.go:250-267 | the window recomputed from truncated status opens no later than the one computed at mint time, and less than one unit earlier |
| `Schedule.ScheduleMeetsPredicate` | internal/controller/ephemeralcredential_controller.go:149-154 | at the wake-up scheduled after any mint a mint is due by the truncated status; for grants of at least ten seconds it was not due one unit earlier |
| `Schedule.WakesPromptlyExactly` | internal/controller/ephemeralcredential_controller.go:253-267 | the wake-up comes less than one unit after a mint is due, if and only if the floor of five seconds ends less than one unit after the window opens |
| `Schedule.ScheduleIsExact` | internal/controller/ephemeralcredential_controller.go:253-267 | without truncation the wake-up is the first instant at which a mint is due, if and only if the floor does not apply |
| `Schedule.ShortGrantWakesLate` | internal/controller/ephemeralcredential_controller.go:263-266 | an eight-second grant for which the wake-up comes a second after a mint is due |
| `Schedule.RotationGap` | internal/controller/ephemeralcredential_controller.go:290-320 | a rotation comes at least half the granted lifetime after the mint, less than one unit short of it |
| `Schedule.StableWakeUp` | internal/controller/ephemeralcredential_controller.go:168-173 | reconcile time plus requeue is one fixed instant until fewer than five seconds remain |
| `Schedule.TruncatesToUnits` | internal/controller/ephemeralcredential_controller.go:223-227 | persisted times are whole numbers of units |
| `Registry.LastNamedIsLast` | internal/provider/provider.go:102-114 | a name finds the last provider that bears it, and finds nothing exactly when none does |
| `Registry.Coherent` | internal/provider/provider.go:100-108 | a provider found under a name bears that name |
| `Registry.ProviderRegistry.constructor` | internal/provider/provider.go:102-108 | the map filled in a loop answers every name with the last provider of that name |
| `Registry.ProviderRegistry.Get` | internal/provider/provider.go:111-114 | a lookup returns that provider, which bears the name asked for, or nothing |
| `Invariants.Always` | internal/controller/ephemeralcredential_controller.go:105-268 | in every state of every life: the copy agrees with the object on what the controller owns, tokens are in write order, revocations in mint order, the status describes a minted credential, and its state matches its condition |
| `Safety.OutcomesMean` | internal/controller/ephemeralcredential_controller.go:105-268 | a call that lands and reports failure leaves the cluster and the ledger as one that succeeds, and a refused one leaves them alone |
| `Safety.AnythingMayHappen` | cmd/main.go:87-89 | besides the serial reconcile, nothing in the environment is ruled out at any point: time, crashes, edits, deletions, refused and lost calls |
| `Safety.WriteOrder` | internal/controller/ephemeralcredential_controller.go:204-233 | in every state the token the status describes is not newer than the one in the handle, and that not newer than the one in the Secret |
| `Safety.RevokesOnlySuperseded` | internal/controller/ephemeralcredential_controller.go:237-248 | before deletion only tokens older than the described one are revoked, so a live object's Secret never holds a revoked token |
| `Safety.RevokesOnMintingProvider` | internal/controller/ephemeralcredential_controller.go:243-244 | a handle reaches Revoke only on a registered provider of the name in the handle, which is the provider that minted it |
| `Safety.StatusNeverOverPromises` | api/v1alpha1/ephemeralcredential_types.go:250-253 | if later mints do not expire earlier, the persisted expiry is never later than the true expiry of what is in the Secret |
| `Safety.MintsUnderFinalizer` | internal/controller/ephemeralcredential_controller.go:120-140 | Mint is called, and minted credentials are on record, only while the persisted object carries the finalizer |
| `Safety.RemovalIsClean` | internal/controller/ephemeralcredential_controller.go:325-349 | when the object goes, nothing was minted or the handle on record has been handed to Revoke (provider registered and unchanged); no Secret exists then or later |
| `Safety.RevokesWhenNamed` | internal/controller/ephemeralcredential_controller.go:332-334 | the guard before a Revoke lets pass exactly the handles of the provider that the spec names, if that is registered |
| `Safety.LifecycleMoves` | api/v1alpha1/ephemeralcredential_types.go:14-31 | every step moves the state along an edge of the lifecycle; Active is entered only with the newest credential |
| `Safety.StatesMeanWhatTheySay` | internal/controller/ephemeralcredential_controller.go:464-483 | Active and Expiring are exactly the states with Ready=True and have an expiry; Pending and Failed are exactly those with Ready=False; a Failed expiry has passed; the condition's generation lies between that of the last mint and the current one, and Active's is that of the mint |
| `Safety.ConditionIsCurrent` | internal/controller/ephemeralcredential_controller.go:506-514 | a status that is written speaks of the object's current generation |
| `Safety.ReasonsAreTrue` | internal/controller/ephemeralcredential_controller.go:142-206 | a recorded failure names what went wrong in the attempt: unregistered provider, unresolved configuration, failed Secret write, or failed mint, and that as a rotation exactly if a credential was on record |
| `Safety.FailuresAreReported` | internal/controller/ephemeralcredential_controller.go:456-497 | a reconcile of an adopted live object that fails on its way to the Secret, and whose last call succeeds, ends in Expiring, or in Failed with the reason |
| `Safety.PendingNeverRecurs` | internal/controller/ephemeralcredential_controller.go:131-138 | once an attempt has succeeded or failed, no later state is blank or Pending |
| `Conservation.Balance` | internal/controller/ephemeralcredential_controller.go:182-248 | in every state, also during deletion, the minted tokens are covered by the revoked ones, the one on record, one that the running attempt owes, and the losses |
| `Conservation.TokenConservation` | internal/controller/ephemeralcredential_controller.go:182-248 | before deletion the minted tokens are the disjoint union of the revoked ones (each once, in mint order), the one in the handle and the orphans, at most one per interruption or change of provider |
| `Conservation.SteadyState` | internal/controller/ephemeralcredential_controller.go:182-248 | with no losses, between reconciles exactly the newest token is outstanding and tokens 0, 1, 2, ... were revoked in that order |
| `Conservation.NothingLeftBehind` | internal/controller/ephemeralcredential_controller.go:322-349 | once the object is gone there is no Secret, and all but at most one token per loss have been handed to Revoke |
| `MintRate.DecisionIsPaid` | internal/controller/ephemeralcredential_controller.go:149-180 | each reason to mint (no status, new generation, open window, missing Secret) is accounted for by an edit, a deletion or half a lifetime passed |
| `MintRate.MintRateBound` | internal/controller/ephemeralcredential_controller.go:290-320 | if every grant lasts at least a lifetime, mints are at most 1 + spec edits + third-party Secret deletions + interruptions + elapsed time over half that lifetime (less than one unit short), whatever the spec asks for |
| `Coverage.WindowsHaveRoom` | internal/controller/ephemeralcredential_controller.go:307-320 | what is asked of specs and grants is exactly that both effective windows, at mint time and from truncated status, have the room needed |
| `Coverage.StaleStep` | internal/controller/ephemeralcredential_controller.go:149-154 | as long as the Secret holds a credential that the status does not tell of, a mint stays due |
| `Coverage.ContinuousCoverage` | internal/controller/ephemeralcredential_controller.go:97-99 | if Mint and the calls on the Secret succeed, specs and grants leave room, and reconciles start and finish within given delays, then from the first Secret write on the Secret holds an unexpired, unrevoked credential at every instant, whatever becomes of the writes of the object, of Revoke, and of the controller once the Secret is written |
| `Quiescence.RestAfterMint` | internal/controller/ephemeralcredential_controller.go:223-248 | a completed mint leaves the object at rest, if the Secret was not deleted meanwhile, with at most the Revoke of the previous credential to do |
| `Quiescence.MintSchedulesRotation` | internal/controller/ephemeralcredential_controller.go:250-267 | in every life, the reconcile that ends a mint asks to be called again at least five seconds later; counted from its reading of the clock a mint is due then by the recorded object, and less than one unit earlier none is, for grants of at least ten seconds and exactly if the floor ends by then |
| `Quiescence.QuietAfterMint` | internal/controller/ephemeralcredential_controller.go:149-174 | from a completed mint on until the window opens, object, Secret and ledger stay as the mint left them, and nothing but the previous credential is handed to Revoke |
| `Quiescence.NothingHappens` | internal/controller/ephemeralcredential_controller.go:156-174 | until the window opens, any number of reconciles, failing calls and crashes included, mint and write nothing, and revoke nothing but what was pending |
| `Quiescence.WakeUpIsStable` | internal/controller/ephemeralcredential_controller.go:168-173 | each of them asks to be woken when the window opens, the same instant for all, until fewer than five seconds remain, and never sooner than five seconds |
| `Healing.CanFinish` | internal/controller/ephemeralcredential_controller.go:105-268 | from any point, a failure-free reconcile whose object nobody changed can be carried through, with any grant |
| `Healing.OneReconcileHeals` | internal/controller/ephemeralcredential_controller.go:152-233 | from every reachable live state with the finalizer, every failure-free reconcile, however long it takes, ends with the Secret present and its token unrevoked: the one that was there, with more than the rotation window left when the reconcile began, or the one just minted |
| `Healing.HealsExactly` | internal/controller/ephemeralcredential_controller.go:149-180 | all failure-free reconciles that end by a deadline, with grants that outlast it, end with an unexpired, unrevoked token in the Secret, if and only if at the start a mint is due, the Secret is missing, or its token outlives the deadline |
| `Healing.SafeHeals` | internal/controller/ephemeralcredential_controller.go:152-233 | each such reconcile does, whatever the order of expiries |
| `Healing.UnsafeMayExpire` | internal/controller/ephemeralcredential_controller.go:156-174 | otherwise one finds nothing to do and ends at the deadline with an expired token |
| `Healing.SwiftHeals` | internal/controller/ephemeralcredential_controller.go:149-180 | by what the status alone tells: the token is unexpired at the end of a reconcile that took no longer than the rotation window and its own grant |
| `Healing.TooSlowToHeal` | internal/controller/ephemeralcredential_controller.go:105-268 | without such a limit, every such state has a failure-free reconcile that ends with an expired token |
| `Healing.AdoptionIsReported` | internal/controller/ephemeralcredential_controller.go:122-140 | the first failure-free reconcile ends with the finalizer and Pending, and mints nothing |
| `Healing.TwoReconcilesHeal` | internal/controller/ephemeralcredential_controller.go:120-140 | without the finalizer two failure-free reconciles do, with anything happening between them that leaves the object live and its provider registered |
| `Healing.OneReconcileDeletes` | internal/controller/ephemeralcredential_controller.go:325-349 | every failure-free reconcile of a deleted object lets it go, with its Secret removed and its handle revoked |
| `Escalation.DropsOnlyExpired` | internal/controller/ephemeralcredential_controller.go:472-480 | the controller removes the Secret of a live object only in a failed attempt that found the expiry on record passed |
| `Escalation.DropsNoEarlierThan` | internal/controller/ephemeralcredential_controller.go:464-480 | in every life, when the controller removes a live object's Secret, the expiry on record has passed, and the credential that the status tells of has expired or will in less than one unit; what is removed is that one or a newer one |
| `Escalation.ValidSecretStays` | internal/controller/ephemeralcredential_controller.go:444-452 | if no attempt was interrupted since the Secret was last missing or a mint was last recorded, what is removed has expired or will in less than one unit, and has if status can hold expiries exactly |
| `Escalation.NeverInterrupted` | internal/controller/ephemeralcredential_controller.go:204-233 | lives without interruptions are of that kind |
| `Escalation.PassedSecretMayGo` | internal/controller/ephemeralcredential_controller.go:464-483 | in every live state between reconciles with a Secret and a passed expiry on record, a reconcile with working Kubernetes calls removes the Secret at once, whatever it holds |
| `Escalation.ValidSecretCanGo` | internal/controller/ephemeralcredential_controller.go:204-220 | for every provider and lifetime, a life in which a rotation cannot write its handle, and a reconcile with working Kubernetes calls then removes the new credential a whole lifetime before its expiry |
| `Escalation.ExpiredSecretGoes` | internal/controller/ephemeralcredential_controller.go:472-483 | a reconcile begun after the expiry on record, whose Kubernetes calls succeed, replaces or removes what was in the Secret, whether or not Mint and Revoke succeed |
| `Escalation.OtherwiseSecretMayStay` | internal/controller/ephemeralcredential_controller.go:464-483 | in every other case there is such a reconcile that leaves the Secret as it was; with no expiry on record it ends as Failed |
| `Escalation.ExpiredSecretCanStay` | internal/controller/ephemeralcredential_controller.go:476-480 | for every provider and lifetime, a life in which a failing reconcile with working Kubernetes calls leaves an expired credential in the Secret |
| `Escalation.ExpiredIsOnRecord` | internal/controller/ephemeralcredential_controller.go:223-233 | if no attempt was interrupted since the Secret was last missing or a mint was last recorded, the expiry on record is that of what is in the Secret |
| `KeyList.ListRoundTrip` | internal/controller/ephemeralcredential_controller.go:433-439 | the printed list of keys is read back exactly when no key has a comma and it is not the list of just the empty key |
| `KeyList.JoinSplit` | internal/controller/ephemeralcredential_controller.go:433-439 | any text is taken apart at all of its commas, and nothing else is lost |
| `KeyList.LeqMeans` | internal/controller/ephemeralcredential_controller.go:412-412 | keys are ordered upwards by their first difference, a key before those that continue it |
| `KeyList.SortedUnique` | internal/controller/ephemeralcredential_controller.go:412-412 | a collection of keys has one sorted order |
| `SecretKeys.TargetSecret.WriteValues` | internal/controller/ephemeralcredential_controller.go:403-411 | the first loop writes every value under its Secret key and collects those keys, for any order of visiting |
| `SecretKeys.TargetSecret.DropStale` | internal/controller/ephemeralcredential_controller.go:414-418 | the second loop removes exactly the managed keys that were not written |
| `SecretKeys.TargetSecret.Write` | internal/controller/ephemeralcredential_controller.go:393-431 | the whole mutation: new data, and the sorted list of written keys in the annotation |
| `SecretKeys.WriteMeans` | internal/controller/ephemeralcredential_controller.go:384-392 | each target key holds a value of the mint that maps to it, other managed keys are gone, and all other keys keep their values |
| `SecretKeys.OutputsGoWhereNamed` | internal/controller/ephemeralcredential_controller.go:404-411 | each output is under the name that the spec gives it, or under its own if it gives none or an empty one; every other key is as before, unless it was managed and goes |
| `SecretKeys.WriteIsOverlay` | internal/controller/ephemeralcredential_controller.go:398-418 | if outputs under one key agree, the data is the old data without the managed keys, overlaid with the mapped mint, in any order of visiting |
| `SecretKeys.ListIsOrderFree` | internal/controller/ephemeralcredential_controller.go:403-422 | the annotation does not depend on the order of visiting |
| `SecretKeys.CollisionsShowOrder` | internal/controller/ephemeralcredential_controller.go:404-411 | if two outputs under one key differ, two orders of visiting give different data |
| `Provenance.ManagedKeyProvenance` | internal/controller/ephemeralcredential_controller.go:47-53 | over any history of mints, mapping changes and others' edits, the broker's values are exactly those under the listed keys, all from the latest mint; everything else is what others put there |
| `Provenance.ListsDestinations` | internal/controller/ephemeralcredential_controller.go:412-422 | the annotation that is written lists exactly the names under which outputs went |
| `SecretContents.SecretHoldsItsToken` | internal/controller/ephemeralcredential_controller.go:204-206 | in every life, with any mappings, visiting orders and edits by others: tokens are written in mint order and at most once, and all broker values in the Secret are outputs of the one token that the protocol takes to be there, all of them present, under exactly the listed keys |
| `SecretContents.NoKeyHoldsRevoked` | internal/controller/ephemeralcredential_controller.go:237-248 | no key of a live object's Secret holds a value of a credential handed to Revoke, and none holds anything once the object is gone |
| `Base64.RoundTrip` | internal/controller/ephemeralcredential_controller.go:529-536 | every byte string is recovered from its encoding, which is empty only for no bytes |
| `Base64.StandardAlphabet` | internal/controller/ephemeralcredential_controller.go:524-529 | digits are written in the standard alphabet |
| `Base64.SameBits` | internal/controller/ephemeralcredential_controller.go:524-529 | three bytes and their four digits are the same 24 bits |
| `Base64.GroupsInOrder` | internal/controller/ephemeralcredential_controller.go:524-529 | bytes are written in groups of three, with padding in the last |
| `Base64.DecodesExactly` | internal/controller/ephemeralcredential_controller.go:529-541 | exactly digits in groups of four, with at most two characters of padding at the end, are accepted, and how many bytes they spell |
| `Utf8.RoundTrip` | internal/controller/ephemeralcredential_controller.go:525-541 | every Unicode text is recovered from its UTF-8 bytes |
| `Json.QuoteRoundTrip` | internal/controller/ephemeralcredential_controller.go:516-521 | every string is recovered from its quoted and escaped form |
| `Json.RoundTrip` | internal/controller/ephemeralcredential_controller.go:524-543 | the stored handle is recovered from its JSON text |
| `Json.EscapeIsSafe` | internal/controller/ephemeralcredential_controller.go:516-525 | a character is written as itself exactly if it is plain; no control character, HTML character or line separator is written |
| `Json.PlainText` | internal/controller/ephemeralcredential_controller.go:516-525 | the text of a stored handle with plain fields |
| `Json.ReadsOnlyObjects` | internal/controller/ephemeralcredential_controller.go:538-541 | only a text in braces, with nothing but space around them, is read |
| `HandleCodec.HandleRoundTrip` | internal/controller/ephemeralcredential_controller.go:523-549 | for every provider name and all opaque bytes, decoding the encoded handle returns it, and the encoding is never empty |
| `HandleCodec.DecodesExactly` | internal/controller/ephemeralcredential_controller.go:532-549 | a text holds a handle exactly if it is not empty and its three layers read to that handle |
| `HandleCodec.NoHandleIn` | internal/controller/ephemeralcredential_controller.go:532-547 | a missing annotation, a text that is not base64 or not of a JSON object, and one whose opaque member is not base64 hold no handle |
| `HandleCodec.StandardIsFaithful` | internal/controller/ephemeralcredential_controller.go:523-549 | the codec reads no handle from an empty annotation and every handle back from its own, which is all that the program relies on |
| `HandleCodec.Codec.AnnotationIsRead` | internal/controller/ephemeralcredential_controller.go:182-183 | reading the annotation yields what is on record, and nothing if nothing is |
| `HandleCodec.HandlesStayApart` | internal/controller/ephemeralcredential_controller.go:523-549 | different handles are stored differently |
| `Reconciler.Object.SetReadyCondition` | internal/controller/ephemeralcredential_controller.go:506-514 | sets the Ready condition of the copy, for the copy's generation, and nothing else |
| `Reconciler.Object.SetActive` | internal/controller/ephemeralcredential_controller.go:223-229 | the copy gets the status of a mint, for its generation, and keeps the rest |
| `Reconciler.Cluster.GetObject` | internal/controller/ephemeralcredential_controller.go:108-114 | a reconcile begins with a copy of the current object, or finds it gone, or fails |
| `Reconciler.Cluster.Now` | internal/controller/ephemeralcredential_controller.go:79-84 | the clock is read, after whatever time has passed |
| `Reconciler.Cluster.Update` | internal/controller/ephemeralcredential_controller.go:218-220 | the object is persisted from a current copy, which is refreshed, or the attempt ends |
| `Reconciler.Cluster.UpdateStatus` | internal/controller/ephemeralcredential_controller.go:231-233 | the status is persisted with truncated times, and the next step follows |
| `Reconciler.Cluster.TargetSecretExists` | internal/controller/ephemeralcredential_controller.go:351-364 | the Secret is found, missing, or the check fails |
| `Reconciler.Cluster.WriteTargetSecret` | internal/controller/ephemeralcredential_controller.go:204-206 | the Secret holds the credential, or the attempt has failed |
| `Reconciler.Cluster.DeleteTargetSecret` | internal/controller/ephemeralcredential_controller.go:366-382 | deletion, and what follows in the failure path and in the delete path |
| `Reconciler.Cluster.ResolveScope` | internal/controller/ephemeralcredential_controller.go:185-188 | the configuration resolves, or the attempt fails as InvalidConfig |
| `Reconciler.Cluster.MintWith` | internal/controller/ephemeralcredential_controller.go:190-202 | a new token of this provider, or a failure with the reason for a first mint or a rotation |
| `Reconciler.Cluster.RevokeWith` | internal/controller/ephemeralcredential_controller.go:243-248 | the call is on record, and the reconcile goes on however it ended |
| `Reconciler.PersistsExactly` | internal/controller/ephemeralcredential_controller.go:223-231 | truncation applies to the times of a mint and leaves times read back unchanged |
| `Reconciler.EphemeralCredentialReconciler.Reconcile` | internal/controller/ephemeralcredential_controller.go:105-147 | each call reads the object once; if it finds it, the object's life continues by one attempt, run to its end in the machine's order, and the result is the wake-up that belongs to it; only an unanswered read leads to a retry with no attempt; no further call is asked for exactly if the object is gone, the last write of a delete succeeded, or the failure of an unregistered provider was recorded |
| `Reconciler.EphemeralCredentialReconciler.AdoptObject` | internal/controller/ephemeralcredential_controller.go:122-140 | finalizer first, then Pending for a blank status |
| `Reconciler.EphemeralCredentialReconciler.KeepFresh` | internal/controller/ephemeralcredential_controller.go:149-180 | decides as the machine does and requeues for the window, or mints |
| `Reconciler.EphemeralCredentialReconciler.MintAndRecord` | internal/controller/ephemeralcredential_controller.go:182-206 | scope, Mint and Secret write in this order, each failure with its reason |
| `Reconciler.EphemeralCredentialReconciler.Record` | internal/controller/ephemeralcredential_controller.go:208-221 | the handle is written first, then the status |
| `Reconciler.EphemeralCredentialReconciler.RecordStatus` | internal/controller/ephemeralcredential_controller.go:223-268 | status and only then Revoke of the previous credential; the requeue follows from the granted lifetime |
| `Reconciler.EphemeralCredentialReconciler.RevokePrevious` | internal/controller/ephemeralcredential_controller.go:243-248 | the credential read from the previous annotation is handed to Revoke exactly if this provider minted it |
| `Reconciler.AfterStatus` | internal/controller/ephemeralcredential_controller.go:231-248 | after the status of a mint is persisted, Revoke follows exactly if the previous handle is of the same provider, or else the scheduled end |
| `Reconciler.EphemeralCredentialReconciler.ReconcileDelete` | internal/controller/ephemeralcredential_controller.go:325-349 | Revoke, Secret deletion and finalizer removal in this order |
| `Reconciler.EphemeralCredentialReconciler.FailStatus` | internal/controller/ephemeralcredential_controller.go:456-497 | Expiring while the expiry on record is ahead, otherwise Secret removal and Failed; no further call is asked for exactly if the failure is not retryable and the status was written, and otherwise a retry |

## Left out

- Informer caches: reads of the object and of the Secret return what is stored; a stale resourceVersion arises only from changes after the read.
- `CreateOrUpdate` and the get-then-delete of the Secret are one step each, which a concurrent change makes fail; the Secret's type and owner reference are not modelled.
- `Machine` keeps of the Secret which credential it holds; its data keys are added in `SecretContents`, with an arbitrary mapping per write in place of `spec.targetSecret.keys`.
- Finalizers of other controllers: an object that stays after the controller removed its own, and the early return of the delete path that it meets, do not occur in lives of the machine.
- Renames of the target Secret, several objects sharing one, and others editing managed keys or the handle annotation.
- Go's 64-bit durations: times are unbounded integers, so saturation of differences beyond 292 years is not modelled.
- `Json.RoundTrip` reads objects whose members are strings with exact names; members of other types and case-insensitive names, which encoding/json also accepts, are rejected here, and the annotation written by the controller has neither.
- Provider names that are not valid Unicode.
- Texts that the controller did not write: which of them hold a handle is stated layer by layer (`HandleCodec.DecodesExactly`), but not how ill-formed UTF-8 or odd JSON escapes in them are read.
- Condition messages, transition times, events and logs.
- The admission rules of the CRD: results hold for every value of `ttlSeconds` and `rotateBeforeSeconds`.
- `buildScope` in detail, and the GitHub provider (HTTP, PEM, JWT): a step that succeeds or fails, and a Mint whose handle names the credential.
- Work queue back-off, owner garbage collection, manager start-up, RBAC and manifests.
