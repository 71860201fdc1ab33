# netSoldier: verified models of the path from signal to cut-off

netSoldier watches a home network. Sensors and feeds raise alerts, a correlator combines alerts about
one device into composites, a policy decides what to do about them, and a killswitch controller blocks
domains in AdGuard, with an audit trail and a time to live. These Dafny modules model that path and the
self-contained engines around it, and prove what each of them is for. `dafny verify dfyconfig.toml`
checks everything.

Objects that the program updates in place are classes whose methods are proved equal to functions on
values (`Composite.Correlator`, `Actions.Store`, `Killswitch.Controller`, `Poller.Poller`, ...); runs are
sequences of those functions' steps, and the theorems quantify over all runs.

| modules | what they are about | main results |
|---|---|---|
| `NoisyOr`, `Composite`, `CompositeHistory`, `Pipeline` | alerts to composites to forwarded events | heuristics alone never auto-block; bounds on composites; when superseding weakens the response |
| `CompositeExact`, `CompositeShadow` | what the correlator remembers | exactly when a composite is emitted, and with which confidence; when the window's maxima are used |
| `Devices` | which alerts belong together | keys are equal exactly for the same device |
| `Events`, `Policy` | the event contract and the decision | when each verb is given; monotone in evidence and in strictness |
| `Actions`, `AuditTrail` | the action store | bounded eviction; audit replay |
| `Sinkhole`, `Killswitch`, `KillswitchRuns`, `Enforcement`, `Release` | handlers, TTL loop, AdGuard rules | active means enforced; reverted means lifted; other rules untouched |
| `Hostnames` | the names the sinkhole driver accepts | exactly which spellings, and the rule each leads to |
| `SharedRules` | several actions on one domain | exactly when each call, and a whole run, keeps active actions enforced |
| `ResponsePath` | all of the above together | a cut-off without an operator is attested from outside, and hits the right device and domain |
| `Feedback`, `FeedbackMeaning`, `FeedbackRestart` | false-positive suppression | refines a verdict log; what silences an alert; restart transparency |
| `Poller`, `PollerRuns` | sensor ingest | exactly once; the exact condition for progress |
| `Checksum`, `PacketFields` | Internet checksum (section 1 of RFC 1071) and packet layout | produced packets check to zero and carry their fields |
| `Flow`, `FlowConservation`, `FlowTiming` | flow aggregation | nothing seen is lost or counted twice; what entries and records tell of their packets |
| `ModelStore`, `ModelTraining` | model versions on disk | crash safety; `latest` is the last healthy model |
| `IocStore`, `IocIdentity`, `Matcher`, `MatcherNames` | indicators and matching | re-sync absorption; order independence; one item per indicator; longest safe suffix; what the gate accepts |
| `Subnet` | ARP sweep addresses | exactly the hosts, in order, without wrapping |

`Basics`, `Bytes` and `Folds` hold strings, sorting, addresses and laws of folds used throughout; `Text` says what
lower-casing, trimming and string order mean character by character, independently of how they are computed.

## Where the code falls short of its promises

The model follows the code. Where a property one would expect does not hold, the exact condition is proved, and
a lemma exhibits a case:

- All actions on one domain share one AdGuard rule. A manual revert or a TTL tick that releases one of two
  active actions on a domain unblocks the other, which stays `active`. `SharedRules.StepKeepsEnforcementIff`
  says exactly which calls are harmless, `SharedRules.EnforcedThroughoutIff` which runs, and
  `SharedRules.SecondBlockIsLost` gives a run that loses a block. Two actions on one domain that expire in one
  tick are harmless if each call from the lifting one on can read the rules.
- A weaker repeat of a class is rejected while a stronger alert is kept, and stays rejected when that one leaves
  the window. So the window's maximum may go unused, and a composite that the window justifies may not be
  emitted at all (`CompositeShadow.ShadowedClassIsLost`). What is used instead, and hence exactly when a
  composite is emitted, is `CompositeExact.CompositeExactly`; a class uses the window's maximum exactly when
  some alert of that maximum was not shadowed on arrival (`CompositeExact.BestIsWindowMaxIff`).
- A revert whose driver call fails marks the action `failed`. The TTL loop looks at active actions only,
  so it is never retried; a second manual revert skips the driver and answers OK with the rule still in
  place (`Release.FailedRevertStrandsRule`, `Release.ManualRevertLiftsIff`); and the action may be evicted.
- A composite may be answered more weakly than the alert it replaces once AutoMinSignals is 3 or more
  (`Pipeline.SupersedingWeakensIff`, `Pipeline.SupersedingCanWeaken`).
- The poller may make no progress when `limit` or more rows that are malformed or already emitted stand before
  the oldest undelivered row or in its second: it depends on the order in which the database returns the rows
  of that second (`PollerRuns.ProgressIff`). A run that never delivers is `PollerRuns.NeverDelivered`.
- For the prefix `0.0.0.0/0` the loop of `subnetIPs` does not end (`Subnet.WalkEndsIff`).
- Storing an unhealthy model moves `latest` to it before moving it back, and the way back is a plain write:
  at one crash point the unhealthy model is served, at another none is (`ModelTraining.UnhealthyCrashPoints`).

Two comments disagree with the code, and the model follows the code: the one on `Approve` promises success for
an action already active, where the code answers conflict; the one on `applyAction` says that a failed driver
leaves the action `approved`, where the code marks it `failed`.

## Model

| member | source | states |
|---|---|---|
| `ResponsePath.CutOffIsAttested` | apps/killswitch-controller/cmd/killswitch-controller/main.go:397-456 | end to end: what the engine forwards for any alert of any run changes AdGuard or puts an action in force only if auto-block is enabled, the device is not allowlisted, and a feed match or IDS signature about the same device (same MAC up to case, or no MAC and the same IP) was observed within the last window |
| `ResponsePath.ActionTargetsTrigger` | apps/detection-engine/internal/composite/composite.go:188-198 | the right device and the right domain: over every run, whatever action a forwarded event creates is aimed at the MAC of the triggering alert's own device, and its IP if it had one, and is on that alert's domain or, where a composite superseded it, on the domain of the most confident current signal of that device |
| `ResponsePath.NameIsBlocked` | apps/killswitch-controller/cmd/killswitch-controller/main.go:397-456 | an event that passes thresholds and gates, about any spelling of a plain name, with AdGuard answering: the new action is active and the rule list gains `||name^`, if it lacked it, and nothing else |
| `ResponsePath.ResponseIff` | apps/killswitch-controller/cmd/killswitch-controller/main.go:397-431 | what the handler does with an event: when it blocks, and when it ignores, in terms of allowlist, thresholds and gates |
| `ResponsePath.NewActionTarget` | apps/killswitch-controller/cmd/killswitch-controller/main.go:397-431 | an event adds at most one action: about the event's device and domain, naming the event, of the kind and duration the policy says |
| `Pipeline.HeuristicsNeverAutoBlock` | apps/detection-engine/cmd/detection-engine/main.go:118-138 | over every run with the known-bad gate on: whatever is forwarded (composite or single) and decided auto_block is backed by an `ioc` or `ids-signature` alert about the same device inside the window |
| `Pipeline.AutoBlockIsAttested` | apps/detection-engine/internal/composite/composite.go:123-219 | the one-step form: the attesting class and the observation that carried it are exhibited |
| `Pipeline.SupersedingWeakensIff` | apps/detection-engine/internal/composite/composite.go:167-219 | for every policy, exactly when the composite is answered more weakly than the alert it supersedes: it names an allowlisted address the alert lacked, or the alert auto-blocks alone and the composite lists fewer classes than AutoMinSignals |
| `Pipeline.SupersedingNeverWeakens` | apps/killswitch-controller/internal/policy/policy.go:192-270 | with AutoMinSignals at most 2 and a client IP the composite is answered at least as strongly, for every threshold and allowlist |
| `Pipeline.SupersedingCanWeaken` | apps/killswitch-controller/internal/policy/policy.go:253-270 | the counterexample: with AutoMinSignals 3 a TLS oddity seen first turns the auto-block of a 95% feed match into a pending action |
| `Pipeline.CompositeBounds` | apps/detection-engine/internal/composite/composite.go:133-173 | over every run, a composite is at least as confident as its trigger and at most the noisy-OR of the per-class maxima of the device's alerts inside the window |
| `Pipeline.RunKeepsInv` | apps/detection-engine/internal/composite/composite.go:123-163 | after every run: at most 4096 clients, one signal per class, each traceable to an observed alert that strictly dominates every later alert of its class and device |
| `Pipeline.Engine.OnAlert` | apps/detection-engine/cmd/detection-engine/main.go:113-138 | suppressed alerts stop; otherwise the composite, if there is one, replaces the alert, and is dropped iff it is itself suppressed |
| `Devices.KeyIff` | apps/detection-engine/internal/composite/composite.go:102-117 | two alerts share a key exactly when both have a MAC and these agree up to case, or neither has one and their IPs are equal; there is no key exactly when there is neither |
| `Composite.Correlator.constructor` | apps/detection-engine/internal/composite/composite.go:90-100 | a non-positive window becomes 15 minutes; nothing is tracked |
| `Composite.Correlator.Observe` | apps/detection-engine/internal/composite/composite.go:123-163 | one alert: which list changes and how, which clients survive eviction, and the composite that results |
| `Composite.Correlator.Evict` | apps/detection-engine/internal/composite/composite.go:260-284 | at most 4096 clients stay, none older than a dropped one, and only as many go as must |
| `Composite.Correlator.Prune` | apps/detection-engine/internal/composite/composite.go:249-258 | the signals no older than the window, in order |
| `Composite.PrunedContents` | apps/detection-engine/internal/composite/composite.go:249-258 | membership after pruning, and that it keeps one signal per class |
| `Composite.UpsertSignal` | apps/detection-engine/internal/composite/composite.go:294-304 | replaces the signal of the class if the new one is at least as confident, appends it if the class is new |
| `Composite.UpsertedContents` | apps/detection-engine/internal/composite/composite.go:286-304 | an upsert keeps one signal per class; whatever of the class survives is stronger than the newcomer |
| `Composite.BestPerClass` | apps/detection-engine/internal/composite/composite.go:306-314 | the loop computes the per-class best |
| `Composite.BestIsStrongest` | apps/detection-engine/internal/composite/composite.go:306-314 | each class is represented by a signal of its own of maximum confidence |
| `Composite.DistinctClasses` | apps/detection-engine/internal/composite/composite.go:316-327 | the sorted list of classes |
| `Composite.KindsDistinct` | apps/detection-engine/internal/composite/composite.go:316-327 | no class is listed twice |
| `Composite.ClassesAscend` | apps/detection-engine/internal/composite/composite.go:316-327 | the classes of a list, each once, in strictly ascending order |
| `Composite.BuildComposite` | apps/detection-engine/internal/composite/composite.go:165-219 | every field of the composite from trigger, anchor and classes |
| `Composite.NewestOf` | apps/detection-engine/internal/composite/composite.go:271-277 | the time of the newest signal, the zero time if there is none |
| `Composite.OldestClient` | apps/detection-engine/internal/composite/composite.go:266-280 | a client whose newest signal is oldest |
| `CompositeHistory.ObserveKeepsInv` | apps/detection-engine/internal/composite/composite.go:133-140 | every step keeps the list invariant: one dominating, traceable signal per class |
| `CompositeHistory.SignalsAreRecent` | apps/detection-engine/internal/composite/composite.go:143-148 | every class a composite lists was observed for that device within the window |
| `CompositeHistory.TriggerTakesPart` | apps/detection-engine/internal/composite/composite.go:165-173 | the triggering class takes part and the composite is at least as confident as the trigger |
| `CompositeHistory.CompositeJustified` | apps/detection-engine/internal/composite/composite.go:165-173 | the composite claims at most the noisy-OR of the window's per-class maxima, over any covering list of classes (when the bound is met: `CompositeExact`) |
| `CompositeHistory.CompositeIdentity` | apps/detection-engine/internal/composite/composite.go:188-198 | the composite has the correlation key and MAC of its trigger, and its IP if it had one |
| `CompositeHistory.CompositeContext` | apps/detection-engine/internal/composite/composite.go:175-181 | threat, indicator, domain and MITRE fields come from the most confident of the device's current signals |
| `CompositeHistory.CompositeFields` | apps/detection-engine/internal/composite/composite.go:183-218 | when and for whom a composite was made, its tags, its classes in ascending order and its severity |
| `CompositeHistory.AnchorIsStrongest` | apps/detection-engine/internal/composite/composite.go:175-181 | no contributor is more confident than the anchor |
| `CompositeExact.CompositeExactly` | apps/detection-engine/internal/composite/composite.go:123-173 | over every run, evictions included: an alert makes a composite exactly when with it at least two classes of its device (same MAC up to case, or no MAC and the same IP) are live and their kept alerts combine to 50 or more; the composite lists those classes and has that confidence |
| `CompositeExact.UnevictedExactly` | apps/detection-engine/internal/composite/composite.go:123-173 | the same over all alerts observed, for a device that was never evicted |
| `CompositeExact.ListsAreExact` | apps/detection-engine/internal/composite/composite.go:133-140 | over every run, what a device's list holds in the window is exactly, for each class, the alert kept by one rule: a new alert takes over unless the kept one is still in the window and strictly stronger |
| `CompositeExact.ObserveKeepsExact` | apps/detection-engine/internal/composite/composite.go:133-140 | one observation keeps that, for every device that survives eviction |
| `CompositeExact.MemoryIsEverything` | apps/detection-engine/internal/composite/composite.go:260-284 | without eviction the rule applied since the device was last untracked is the rule applied to everything observed |
| `CompositeExact.UpsertedExact` | apps/detection-engine/internal/composite/composite.go:286-304 | the exact contents after an upsert |
| `CompositeExact.LiveClassesListed` | apps/detection-engine/internal/composite/composite.go:316-327 | there always is a list of the live classes |
| `CompositeExact.BestIsWindowMaxIff` | apps/detection-engine/internal/composite/composite.go:286-314 | over every run, for a device never evicted: a class is represented by the window's maximum exactly when some alert of that maximum was not shadowed on arrival by a stronger kept one |
| `CompositeExact.WindowMaxIff` | apps/detection-engine/internal/composite/composite.go:286-304 | the same for the kept alert of any history in time order |
| `CompositeExact.ShadowHasLeft` | apps/detection-engine/internal/composite/composite.go:286-304 | a maximum of the window is shadowed only by an alert that has left the window since |
| `CompositeExact.MaximaAreUsed` | apps/detection-engine/internal/composite/composite.go:165-173 | if every class of the window has such an alert, emission and confidence are decided by the noisy-OR of the window's maxima |
| `CompositeShadow.ShadowedClassIsLost` | apps/detection-engine/internal/composite/composite.go:286-304 | for every window, a run in which a feed match inside the window and a beacon would make 90 together, and no composite is emitted, because a stronger match since gone shadowed the first on arrival |
| `NoisyOr.Combine` | apps/detection-engine/internal/composite/composite.go:229-237 | the accumulating loop computes the noisy-OR |
| `NoisyOr.NoisyOrPermutation` | apps/detection-engine/internal/composite/composite.go:221-237 | the order of the signals does not matter |
| `NoisyOr.NoisyOrPointwise` | apps/detection-engine/internal/composite/composite.go:221-237 | raising any confidence never lowers the result |
| `NoisyOr.NoisyOrSubset` | apps/detection-engine/internal/composite/composite.go:221-237 | adding signals never lowers the result |
| `NoisyOr.NoisyOrSingle` | apps/detection-engine/internal/composite/composite.go:226-247 | a lone signal keeps its clamped confidence |
| `NoisyOr.NoisyOrAtLeast` | apps/detection-engine/internal/composite/composite.go:229-247 | the result is at least every clamped input |
| `NoisyOr.NoisyOrAtMost` | apps/detection-engine/internal/composite/composite.go:229-247 | the result is at most 100 and at most the sum of the clamped inputs |
| `NoisyOr.DoubtsMultiply` | apps/detection-engine/internal/composite/composite.go:221-237 | the doubt that two lists of signals leave together is the product of the doubts each leaves |
| `NoisyOr.SingleDoubt` | apps/detection-engine/internal/composite/composite.go:239-247 | one signal leaves the complement of its clamped confidence |
| `NoisyOr.RoundedToNearest` | apps/detection-engine/internal/composite/composite.go:235-236 | the result is the complement of the doubt, rounded to the nearest integer, halves up |
| `NoisyOr.DocumentedExamples` | apps/detection-engine/internal/composite/composite.go:225-228 | two signals of 60 make 84, three of 30 make 66 |
| `NoisyOr.NoisyOrCertain` | apps/detection-engine/internal/composite/composite.go:229-237 | 100 is reported exactly when at most half a percent of doubt is left |
| `NoisyOr.CappedAtMost` | apps/detection-engine/internal/composite/composite.go:221-237 | signals each within its cap combine to at most what the caps combine to |
| `NoisyOr.CappedHeuristicsStayBelow` | apps/detection-engine/internal/composite/composite.go:3-24 | the caps 70, 75 and 30 combine to 95 and no capped subset goes beyond |
| `Events.KnownBadSignals` | libs/events/detection.go:95-106 | exactly the known-bad classes of the event, each once; empty iff there is none |
| `Events.Contains` | libs/events/detection.go:114-121 | membership |
| `Policy.VerbIff` | apps/killswitch-controller/internal/policy/policy.go:192-270 | auto_block exactly when the device is not listed, both auto thresholds are met and both gates pass; ignore exactly when it is listed or neither pair of thresholds is met; pending otherwise; a decision to act carries the policy's action and duration |
| `Policy.SeverityTable` | apps/detection-engine/internal/detection/engine.go:40-51 | which confidences derive which severity |
| `Policy.StrongerEvidence` | apps/killswitch-controller/internal/policy/policy.go:192-270 | a stronger event about the same device is answered more weakly exactly when the weaker one auto-blocks and the stronger is not corroborated |
| `Policy.StricterNeverStronger` | apps/killswitch-controller/internal/policy/policy.go:192-251 | tightening any threshold, gate or allowlist never strengthens a response |
| `Policy.SeverityMonotone` | apps/detection-engine/internal/detection/engine.go:40-51 | derived severities rank in the order of the confidences |
| `Events.EventCarries` | apps/detection-engine/internal/eventmap/eventmap.go:29-60 | field by field: what the event takes over from the alert, the types it coerces and the severity it derives |
| `Events.MappingIsLossless` | apps/detection-engine/internal/eventmap/eventmap.go:29-60 | two alerts map to one event iff they agree on everything but an unlisted indicator type (sent as `ip`) or a severity left to be derived |
| `Actions.Store.WriteAudit` | apps/killswitch-controller/internal/actions/store.go:298-327 | one more entry with the action, both states and the actor |
| `Actions.Store.constructor` | apps/killswitch-controller/internal/actions/store.go:61-73 | an empty store; a non-positive limit becomes 10000 |
| `Actions.Store.Create` | apps/killswitch-controller/internal/actions/store.go:84-127 | the new action, the evicted store and the audit entry |
| `Actions.Store.EvictLocked` | apps/killswitch-controller/internal/actions/store.go:197-222 | one pass over `order` computes the evicted book |
| `Actions.EvictionIsBounded` | apps/killswitch-controller/internal/actions/store.go:84-127 | after every creation `order` lists exactly the stored ids, oldest first; no live action was dropped, every dropped one is older than every finished one kept, no more went than needed, and the size is within the limit or nothing finished is left |
| `Actions.OnlyFinishedDropped` | apps/killswitch-controller/internal/actions/store.go:84-127 | a creation drops only reverted, rejected and failed actions, oldest first, and leaves the store over its limit only with pending, approved and active ones |
| `Actions.EvictCorrect` | apps/killswitch-controller/internal/actions/store.go:197-222 | the same for an eviction of any ordered store |
| `Actions.ScanCorrect` | apps/killswitch-controller/internal/actions/store.go:203-221 | what one scan keeps and drops, for ids in creation order and any target |
| `Actions.Store.Transition` | apps/killswitch-controller/internal/actions/store.go:224-259 | state change, idempotence when already there, refusal from other states, and the audit entry |
| `Actions.Store.Approve` | apps/killswitch-controller/internal/actions/store.go:129-134 | pending to approved |
| `Actions.Store.Reject` | apps/killswitch-controller/internal/actions/store.go:136-140 | pending to rejected |
| `Actions.Store.Activate` | apps/killswitch-controller/internal/actions/store.go:142-146 | approved to active |
| `Actions.Store.Revert` | apps/killswitch-controller/internal/actions/store.go:148-173 | active or failed to reverted with its time |
| `Actions.Store.RecordFailure` | apps/killswitch-controller/internal/actions/store.go:175-193 | any stored action to failed with the reason |
| `Actions.Store.ListExpired` | apps/killswitch-controller/internal/actions/store.go:285-296 | exactly the active actions past their deadline, each once |
| `AuditTrail.TrailReplays` | apps/killswitch-controller/internal/actions/store.go:298-316 | the entries about a stored action form a chain from nothing along allowed edges that ends in its stored state, at most four after creation |
| `AuditTrail.MovedAudited` | apps/killswitch-controller/internal/actions/store.go:224-259 | every recorded change keeps the audit log in step |
| `AuditTrail.CreatedAudited` | apps/killswitch-controller/internal/actions/store.go:84-127 | so does every creation, eviction included |
| `Sinkhole.SinkholeDriver.Apply` | apps/killswitch-controller/internal/drivers/sinkhole.go:76-105 | appends the rule once, or fails and changes nothing |
| `Sinkhole.SinkholeDriver.Revert` | apps/killswitch-controller/internal/drivers/sinkhole.go:108-143 | removes every copy of the rule, or fails and changes nothing |
| `Sinkhole.DriverLaws` | apps/killswitch-controller/internal/drivers/sinkhole.go:76-143 | success of apply means present, success of revert means absent; other rules keep membership, content and order |
| `Hostnames.ValidateIff` | apps/killswitch-controller/internal/drivers/sinkhole.go:28-43 | exactly the spellings (case, blanks around, one dot behind) of names of two or more plain labels, 253 characters at most, are accepted, each as the name it spells |
| `Hostnames.AppliedExactly` | apps/killswitch-controller/internal/drivers/sinkhole.go:76-105 | such a name is blocked by one rule `||name^`, added only if missing; anything else is refused |
| `Sinkhole.ValidatedIsPlain` | apps/killswitch-controller/internal/drivers/sinkhole.go:28-43 | a validated domain has no rule syntax in it, and validating it again returns it unchanged |
| `Sinkhole.RuleInjective` | apps/killswitch-controller/internal/drivers/sinkhole.go:76-143 | two domains share a rule only if they are equal |
| `Sinkhole.WithoutContents` | apps/killswitch-controller/internal/drivers/sinkhole.go:123-135 | exactly the other rules remain; the length drops iff the rule was there |
| `Killswitch.Controller.ApplyAction` | apps/killswitch-controller/cmd/killswitch-controller/main.go:433-456 | driver first; activation on success, a recorded failure otherwise |
| `Killswitch.Controller.HandleEvaluate` | apps/killswitch-controller/cmd/killswitch-controller/main.go:397-431 | auto_block, pending and ignore, with the environment switch that downgrades auto_block |
| `Killswitch.Controller.HandleApprove` | apps/killswitch-controller/cmd/killswitch-controller/main.go:484-503 | approval, then enforcement if the action is approved |
| `Killswitch.Controller.HandleReject` | apps/killswitch-controller/cmd/killswitch-controller/main.go:505-521 | rejection of a pending action, conflict otherwise |
| `Killswitch.Controller.HandleRevert` | apps/killswitch-controller/cmd/killswitch-controller/main.go:523-568 | the driver is asked only for active actions; each reply with the state it leaves |
| `Killswitch.Controller.RevertOne` | apps/killswitch-controller/cmd/killswitch-controller/main.go:335-358 | driver first, state second, nothing if the driver fails |
| `Killswitch.Controller.TTLTick` | apps/killswitch-controller/cmd/killswitch-controller/main.go:320-333 | one driver call for each expired action of the snapshot, none for others |
| `KillswitchRuns.RunSound` | apps/killswitch-controller/cmd/killswitch-controller/main.go:397-568 | after every run of handler calls and ticks with arbitrary driver answers: order and audit agree with the store, failures are explained, and no action rests in approved |
| `KillswitchRuns.StepSound` | apps/killswitch-controller/cmd/killswitch-controller/main.go:397-568 | one call of any kind keeps that |
| `KillswitchRuns.EnforcedSound` | apps/killswitch-controller/cmd/killswitch-controller/main.go:437-456 | an approved action ends up active exactly when the driver succeeded, else failed; nothing else changes |
| `KillswitchRuns.ReversionSound` | apps/killswitch-controller/internal/actions/store.go:148-173 | a revert touches one action only and takes it to reverted |
| `Enforcement.ActiveIsEnforced` | apps/killswitch-controller/cmd/killswitch-controller/main.go:320-568 | in every run where no two active actions share a domain when a call begins, every active action's rule is in AdGuard (the exact condition: `SharedRules.EnforcedThroughoutIff`) |
| `Enforcement.RevertKeepsEnforcementIff` | apps/killswitch-controller/cmd/killswitch-controller/main.go:523-568 | reverting an enforced action leaves the others enforced iff not both AdGuard answers and another active action has its domain |
| `Enforcement.StepKeeps` | apps/killswitch-controller/cmd/killswitch-controller/main.go:320-568 | one call of any kind keeps active actions within reach of the driver, and enforced if no domain is shared (the exact condition: `SharedRules.StepKeepsEnforcementIff`) |
| `Enforcement.RunTargeted` | apps/killswitch-controller/cmd/killswitch-controller/main.go:437-456 | in every run an active action is one the sinkhole driver can act on |
| `Enforcement.RemovedInPlace` | apps/killswitch-controller/internal/drivers/sinkhole.go:108-143 | a successful revert takes out the rule of exactly the actions with that domain |
| `Enforcement.AppliedInPlace` | apps/killswitch-controller/internal/drivers/sinkhole.go:76-105 | a successful apply puts the rule in and takes none out |
| `SharedRules.EnforcedThroughoutIff` | apps/killswitch-controller/cmd/killswitch-controller/main.go:320-568 | over every run: active actions are enforced throughout exactly when every call is harmless where it is made, that is, lifts no rule of an active action it does not release |
| `SharedRules.StepKeepsEnforcementIff` | apps/killswitch-controller/cmd/killswitch-controller/main.go:320-568 | one call of any kind leaves every active action enforced exactly when it is harmless |
| `SharedRules.TickKeepsEnforcementIff` | apps/killswitch-controller/cmd/killswitch-controller/main.go:320-358 | a tick does exactly when every active action whose rule it lifts is itself released: its own call reads the rules, at or after the call that lifts them |
| `SharedRules.LoneReleaseUnblocks` | apps/killswitch-controller/cmd/killswitch-controller/main.go:320-358 | a tick that lifts the rule of an active action which is not expired leaves it unenforced |
| `SharedRules.TickRules` | apps/killswitch-controller/cmd/killswitch-controller/main.go:320-358 | the rules gone after the first calls of a tick are those lifted by a call that could read and write |
| `SharedRules.JobReleases` | apps/killswitch-controller/cmd/killswitch-controller/main.go:335-358 | an expired action is reverted by the tick exactly when its call reads the rules and its rule is lifted by then |
| `SharedRules.SecondBlockIsLost` | apps/killswitch-controller/cmd/killswitch-controller/main.go:397-568 | under every configuration, two auto-blocks on one domain and a manual revert of the first are a run that leaves the second active without its rule |
| `Release.RunRevertedMeansLifted` | apps/killswitch-controller/cmd/killswitch-controller/main.go:320-568 | in every run, an action that reaches reverted without a recorded failure has its rule absent at that moment |
| `Release.RevertedMeansLifted` | apps/killswitch-controller/cmd/killswitch-controller/main.go:320-358 | the same for one call in any sound state |
| `Release.ManualRevertLiftsIff` | apps/killswitch-controller/cmd/killswitch-controller/main.go:523-568 | after a manual revert that answers OK the rule is out iff the action was active or the rule was already gone |
| `Release.FailedRevertStrandsRule` | apps/killswitch-controller/cmd/killswitch-controller/main.go:540-568 | after a failed revert the rule stays, no tick retries, and the next revert answers OK with the rule still there |
| `Release.TickReleases` | apps/killswitch-controller/cmd/killswitch-controller/main.go:320-358 | an expired action leaves active on a tick iff its driver call succeeds, and is unchanged otherwise; the call succeeds whenever AdGuard answers |
| `Release.ForeignRulesKept` | apps/killswitch-controller/internal/drivers/sinkhole.go:76-143 | in every run, rules of domains never handled keep content and order |
| `Release.StepKeepsForeign` | apps/killswitch-controller/internal/drivers/sinkhole.go:76-143 | the same for one call of any kind |
| `Release.AutoBlockEffect` | apps/killswitch-controller/cmd/killswitch-controller/main.go:397-456 | an auto-block leaves an action on the event's domain that is active with its rule in place if the driver succeeds, and failed with the rules untouched otherwise |
| `Release.HeldEffect` | apps/killswitch-controller/cmd/killswitch-controller/main.go:412-431 | a pending decision leaves a waiting action and no rule; an ignored event changes nothing |
| `Release.RejectEffect` | apps/killswitch-controller/cmd/killswitch-controller/main.go:505-521 | a pending action goes to rejected, a rejected one stays with OK, any other is a conflict; no rule is touched |
| `Release.RevertEffect` | apps/killswitch-controller/cmd/killswitch-controller/main.go:523-568 | every case of a manual revert, with the reply, the state and the rules it leaves |
| `Release.ApproveEffect` | apps/killswitch-controller/cmd/killswitch-controller/main.go:484-503 | approving puts a pending action in force or fails it; anything else answers conflict and changes nothing |
| `Feedback.Store.constructor` | apps/detection-engine/internal/feedback/feedback.go:121-134 | default lifetime and cap for non-positive options; nothing suppressed |
| `Feedback.Store.Record` | apps/detection-engine/internal/feedback/feedback.go:141-186 | validation, the cap, stamping, and what the map and the sink receive |
| `Feedback.Store.Probe` | apps/detection-engine/internal/feedback/feedback.go:215-236 | the read phase: the answer and the expired keys met |
| `Feedback.Store.Sweep` | apps/detection-engine/internal/feedback/feedback.go:238-250 | the sweep phase: of the given keys only those expired now go |
| `Feedback.Store.Suppressed` | apps/detection-engine/internal/feedback/feedback.go:211-253 | both phases: true iff one of the two keys holds a live suppression |
| `Feedback.Store.ApplyLoaded` | apps/detection-engine/internal/feedback/feedback.go:193-209 | a replayed verdict is skipped when out of date or over the cap |
| `Feedback.Store.LoadInto` | apps/detection-engine/internal/feedback/clickhouse.go:63-100 | replays the rows in the order given and counts them |
| `Feedback.SuppressedRefinesLog` | apps/detection-engine/internal/feedback/feedback.go:211-253 | under every interleaving of records and sweeps: suppressed iff the last accepted verdict for the client-scoped or the indicator-wide key is a false positive no older than the lifetime |
| `FeedbackMeaning.SuppressedMeans` | apps/detection-engine/internal/feedback/feedback.go:211-253 | under every interleaving: suppressed iff the last accepted verdict about the same indicator, for the same client or for none in particular, is a false positive no older than the lifetime; indicators and clients compared up to case and outer blanks |
| `FeedbackMeaning.KeyIff` | apps/detection-engine/internal/feedback/feedback.go:136-139 | two pairs share a key iff indicator and client agree up to case and outer blanks |
| `FeedbackMeaning.RecordedIff` | apps/detection-engine/internal/feedback/feedback.go:144-186 | exactly which verdicts are accepted, and what the log gains |
| `Feedback.RunRefines` | apps/detection-engine/internal/feedback/feedback.go:141-253 | after every interleaving the map agrees with the log and is within its cap |
| `Feedback.NextRefines` | apps/detection-engine/internal/feedback/feedback.go:141-253 | one atomic step keeps that |
| `Feedback.RecordSurvivesSweep` | apps/detection-engine/internal/feedback/feedback.go:238-250 | a verdict recorded between the read and the sweep phase is not lost |
| `FeedbackRestart.RestartTransparent` | apps/detection-engine/internal/feedback/clickhouse.go:63-100 | a store rebuilt from the latest verdict per key, in any row order, and the lost one, whatever either sweeps later, hold the same live suppressions and answer every alert alike at every later time |
| `FeedbackRestart.RestartRefines` | apps/detection-engine/internal/feedback/clickhouse.go:63-100 | the rebuilt map refines the same log |
| `FeedbackRestart.NormalKeysInjective` | apps/detection-engine/internal/feedback/feedback.go:136-139 | two normal verdicts have one key iff indicator and client agree |
| `Poller.Poller.constructor` | apps/detection-engine/internal/ingest/poller.go:55-64 | the cursor starts at the given time, nothing seen |
| `Poller.Poller.Poll` | apps/detection-engine/internal/ingest/poller.go:84-127 | cursor, seen-set and emitted rows after a complete and after a broken answer |
| `Poller.ScanEmits` | apps/detection-engine/internal/ingest/poller.go:95-120 | exactly the valid unseen rows of an answer are emitted, and the new cursor and seen-set describe them |
| `PollerRuns.ExactlyOnce` | apps/detection-engine/internal/ingest/poller.go:84-127 | in every run of successful polls and appends no row is emitted twice and none due is behind the cursor without having been emitted |
| `PollerRuns.AtLeastOnce` | apps/detection-engine/internal/ingest/poller.go:84-127 | polls failing midway may repeat rows but lose none |
| `PollerRuns.PollDelivers` | apps/detection-engine/internal/ingest/poller.go:84-127 | a poll emits, and shrinks what is undelivered, when fewer than `limit` already handled or malformed rows precede the oldest undelivered one |
| `PollerRuns.PollStalls` | apps/detection-engine/internal/ingest/poller.go:84-127 | otherwise there is a legal answer that leaves the poller exactly as it was |
| `PollerRuns.ProgressIff` | apps/detection-engine/internal/ingest/poller.go:84-127 | both: progress under every answer iff fewer than `limit` such rows |
| `PollerRuns.NeverDelivered` | apps/detection-engine/internal/ingest/poller.go:84-127 | for every limit, a legal run from the start in which any number of polls leaves a due row undelivered behind malformed ones |
| `PollerRuns.ManageableNeverBlocks` | apps/detection-engine/internal/ingest/poller.go:84-127 | with only valid rows and fewer than `limit` per second it never stalls |
| `PollerRuns.EverythingArrives` | apps/detection-engine/internal/ingest/poller.go:84-127 | on a quiet table as many polls as rows are undelivered deliver everything, once |
| `PacketFields.UdpCarries` | detections/pcap-corpus/gen_corpus.py:78-82 | a datagram is produced exactly when its fields fit, and carries ports, length and payload at their places |
| `PacketFields.TcpCarries` | detections/pcap-corpus/gen_corpus.py:88-100 | a segment is produced exactly when its fields fit, and carries ports, sequence, acknowledgement, header length, flags, window, urgent field and payload |
| `PacketFields.Ip4Carries` | detections/pcap-corpus/gen_corpus.py:61-68 | a packet is produced exactly when its fields fit, and carries version, length, identification, fragmentation, hops, protocol, addresses and payload |
| `Checksum.Checksum` | detections/pcap-corpus/gen_corpus.py:46-54 | the two loops compute the complement of the folded word sum |
| `Checksum.FoldedLaws` | detections/pcap-corpus/gen_corpus.py:52-53 | folding ends within 16 bits, keeps the sum modulo 65535, and is zero only for zero |
| `Checksum.FilledChecksToZero` | detections/pcap-corpus/gen_corpus.py:46-54 | a packet of any length whose zeroed field is filled with its checksum checks to zero |
| `Checksum.Ip4HeaderChecks` | detections/pcap-corpus/gen_corpus.py:61-68 | the header of every IPv4 packet produced checks to zero and precedes the payload |
| `Checksum.SegmentChecks` | detections/pcap-corpus/gen_corpus.py:71-75 | the same for a segment with its pseudo-header |
| `Checksum.UdpChecks` | detections/pcap-corpus/gen_corpus.py:78-82 | every UDP datagram checks to zero and never carries checksum zero (RFC 768) |
| `Checksum.TcpChecks` | detections/pcap-corpus/gen_corpus.py:88-100 | every TCP segment checks to zero |
| `Flow.FlowTracker.constructor` | apps/detection-engine/internal/capture/flow.go:44-49 | no flows |
| `Flow.FlowTracker.Update` | apps/detection-engine/internal/capture/flow.go:51-85 | opens or counts into the entry of the packet's conversation, in its direction, with counter wrap-around |
| `Flow.FlowTracker.Export` | apps/detection-engine/internal/capture/flow.go:122-143 | hands over one record of the entry |
| `Flow.FlowTracker.Drain` | apps/detection-engine/internal/capture/flow.go:100-120 | each given flow is handed over once and dropped, the rest is untouched |
| `Flow.FlowTracker.Expire` | apps/detection-engine/internal/capture/flow.go:100-111 | exactly the flows idle for longer than the timeout |
| `Flow.FlowTracker.FlushAll` | apps/detection-engine/internal/capture/flow.go:113-120 | all flows |
| `Flow.SharedEntryIff` | apps/detection-engine/internal/capture/flow.go:145-152 | two packets share an entry iff protocol and unordered endpoint pair agree; the orientation tells the directions apart |
| `FlowTiming.EntryTellsItsPackets` | apps/detection-engine/internal/capture/flow.go:51-85 | after every run a conversation has an entry exactly when a packet arrived since its flow was last dropped; it began with the first such packet, was last heard of with the last, has all their flags, and counts what went each way |
| `FlowTiming.ExpiresIff` | apps/detection-engine/internal/capture/flow.go:100-143 | an expiry drops a conversation exactly when its last packet came before the timeout; its record has the time of the first packet and the span to the last |
| `FlowConservation.Conservation` | apps/detection-engine/internal/capture/flow.go:51-143 | after every run, bytes and packets seen per direction are those in the live entry plus those handed over: modulo the counter widths always, exactly while the totals fit |
| `FlowConservation.RunBalances` | apps/detection-engine/internal/capture/flow.go:51-143 | the invariant behind it, for every prefix: entries under their own key in canonical orientation, and all conversations balanced |
| `FlowConservation.DropReports` | apps/detection-engine/internal/capture/flow.go:100-143 | dropped flows add exactly their tallies to the reports of their own conversations |
| `ModelStore.Store.Save` | apps/ml-anomaly/src/ml_anomaly/modelstore.py:73-90 | artifact, metadata with digest, then `latest` by write and rename, through the listed states |
| `ModelStore.Store.Load` | apps/ml-anomaly/src/ml_anomaly/modelstore.py:99-149 | the named or latest version if complete and matching its digest |
| `ModelStore.Store.Versions` | apps/ml-anomaly/src/ml_anomaly/modelstore.py:151-155 | exactly the versions with metadata, ascending |
| `ModelStore.Store.CandidateList` | apps/ml-anomaly/src/ml_anomaly/modelstore.py:157-169 | exactly the versions other than the latest, ascending |
| `ModelStore.Store.Unlink` | apps/ml-anomaly/src/ml_anomaly/modelstore.py:157-169 | removes both files of one version, artifact first |
| `ModelStore.Store.Prune` | apps/ml-anomaly/src/ml_anomaly/modelstore.py:157-169 | drops the oldest candidates beyond the room there is, through interruptible states |
| `ModelTraining.SaveIsCrashSafe` | apps/ml-anomaly/src/ml_anomaly/modelstore.py:73-97 | at every crash point of a save `latest` names the previous or the new version and what it names loads |
| `ModelTraining.PruneIsCrashSafe` | apps/ml-anomaly/src/ml_anomaly/modelstore.py:157-169 | an interrupted prune neither moves `latest` nor touches what it names |
| `ModelTraining.LatestIsMostRecentHealthy` | apps/ml-anomaly/src/ml_anomaly/train.py:70-93 | across any sequence of completed trainings, with pruning, `latest` serves the most recent healthy model |
| `ModelTraining.PruneBounds` | apps/ml-anomaly/src/ml_anomaly/modelstore.py:157-169 | at most `keep` versions stay, the latest among them, and only older ones go |
| `ModelTraining.UnhealthyCrashPoints` | apps/ml-anomaly/src/ml_anomaly/train.py:84-93 | exactly which crash points of an unhealthy training leave `latest` alone, and what is served at the two that do not |
| `ModelTraining.TrainOnce` | apps/ml-anomaly/src/ml_anomaly/train.py:45-109 | the training on the store: promotion and pruning if healthy, `latest` put back otherwise |
| `IocStore.MergeTags` | apps/threat-intel-sync/internal/ioc/indicator.go:64-76 | the old tags followed by the new ones not among them |
| `IocStore.Merge` | apps/threat-intel-sync/internal/ioc/indicator.go:42-62 | every field of the merged indicator |
| `IocStore.Store.constructor` | apps/threat-intel-sync/internal/ioc/store.go:17-19 | an empty store |
| `IocStore.Store.UpsertAll` | apps/threat-intel-sync/internal/ioc/store.go:44-66 | the store after a feed, and how many rows were refused and accepted |
| `IocStore.Store.PruneBefore` | apps/threat-intel-sync/internal/ioc/store.go:75-94 | exactly the dated indicators last seen before the cutoff go, and are counted |
| `IocIdentity.KeyIff` | apps/threat-intel-sync/internal/ioc/indicator.go:35-38 | two indicators share a key iff kind and value agree up to the case of the value |
| `IocIdentity.ItemsAreTheirRows` | apps/threat-intel-sync/internal/ioc/store.go:44-66 | after any feed each accepted row is represented by an item of its own kind and value, made by merging exactly the accepted rows that are the same indicator, and there is no other item |
| `IocIdentity.FeedsConcat` | apps/threat-intel-sync/internal/ioc/store.go:44-66 | feeds one after another are one long feed |
| `IocStore.MergeNoOpIff` | apps/threat-intel-sync/internal/ioc/indicator.go:42-76 | a merge changes nothing iff the other indicator brings nothing new, field by field |
| `IocStore.ResyncIsAbsorbed` | apps/threat-intel-sync/internal/ioc/store.go:44-66 | ingesting any feed twice in a row equals ingesting it once, field by field, repeated keys included |
| `IocStore.OrderIrrelevant` | apps/threat-intel-sync/internal/ioc/indicator.go:42-62 | confidence, first and last sighting and tag set of every key do not depend on the order of ingestion |
| `Matcher.Matcher.constructor` | apps/detection-engine/internal/iocmatch/matcher.go:46-53 | an empty matcher |
| `Matcher.Matcher.Add` | apps/detection-engine/internal/iocmatch/matcher.go:63-143 | the table after a feed, and how many rows were refused and accepted |
| `Matcher.Matcher.Keep` | apps/detection-engine/internal/iocmatch/matcher.go:80-84 | an entry is stored unless a more confident one is there |
| `Matcher.Matcher.MatchDomain` | apps/detection-engine/internal/iocmatch/matcher.go:146-159 | the entry of the first stored suffix in the walk, or none if no suffix is stored |
| `Matcher.Matcher.MatchIP` | apps/detection-engine/internal/iocmatch/matcher.go:162-181 | an exact address wins; otherwise some stored prefix that covers it; none iff neither exists |
| `Matcher.MatchIsLongestSuffix` | apps/detection-engine/internal/iocmatch/matcher.go:146-159 | a match is the longest stored label-suffix, shares at least two labels, and is not a listed public suffix |
| `Matcher.MatchIff` | apps/detection-engine/internal/iocmatch/matcher.go:146-159 | there is a match iff some stored domain is a label-suffix of the name |
| `MatcherNames.FoundIff` | apps/detection-engine/internal/iocmatch/matcher.go:146-159 | a query finds something iff, up to case and one dot at its end, it is or is under some stored name |
| `MatcherNames.FoundIsLongest` | apps/detection-engine/internal/iocmatch/matcher.go:146-159 | what it finds is the longest such name |
| `MatcherNames.GateIff` | apps/detection-engine/internal/iocmatch/validate.go:48-88 | exactly what the gate accepts, and as which name: the spellings (case, blanks, wildcard label, one dot behind) of names of two or more sound labels that are not listed as public suffixes |
| `MatcherNames.DigestIff` | apps/detection-engine/internal/iocmatch/matcher.go:128-137 | a digest is refused exactly when blank, and two share a slot exactly when they agree up to case and outer blanks |
| `MatcherNames.StoredAreSmall` | apps/detection-engine/internal/iocmatch/validate.go:48-88 | whatever is added, stored domains are in small letters |
| `Matcher.AddedIsSafe` | apps/detection-engine/internal/iocmatch/validate.go:50-88 | whatever is added, only domains of two or more labels that are not public suffixes are stored |
| `Matcher.StoredIsStrongest` | apps/detection-engine/internal/iocmatch/matcher.go:63-143 | after any sequence of adds to an empty matcher a key is stored iff something was accepted for it, with the maximum confidence accepted, and every stored domain has two labels or more and is no public suffix |
| `Matcher.AddsAreOneFeed` | apps/detection-engine/internal/iocmatch/matcher.go:63-143 | how indicators are divided into calls of Add does not matter |
| `Matcher.SlotAfter` | apps/detection-engine/internal/iocmatch/matcher.go:80-84 | one key after a feed, from any table: the last strongest entry, unless what was there is stronger |
| `Matcher.ReAddChangesNothing` | apps/detection-engine/internal/iocmatch/matcher.go:55-63 | adding the same feed again right away changes nothing |
| `Subnet.Inc` | apps/device-inventory/internal/arp/scanner.go:146-153 | the carry loop on the byte slice in place |
| `Subnet.IncrementedIsSuccessor` | apps/device-inventory/internal/arp/scanner.go:146-153 | it is plus one modulo 256 to the length, 2^32 for IPv4 |
| `Subnet.CarryStops` | apps/device-inventory/internal/arp/scanner.go:146-153 | which bytes the carry changes |
| `Subnet.SubnetIPs` | apps/device-inventory/internal/arp/scanner.go:130-144 | terminates with consecutive addresses from the one after the network address, also at the end of the address space |
| `Subnet.WalkEndsIff` | apps/device-inventory/internal/arp/scanner.go:135-139 | the loop reaches an address outside the subnet exactly for prefixes of length 1 or more; for `0.0.0.0/0` its guard holds after any number of increments |
| `Subnet.HostsAreExact` | apps/device-inventory/internal/arp/scanner.go:130-144 | for lengths 1 to 30: exactly the 2^(32-n)-2 addresses strictly between network and broadcast |
| `Subnet.ContainsIsInterval` | apps/device-inventory/internal/arp/scanner.go:130-144 | containment in a prefix is lying in its block of addresses |

## Left out

What the model abstracts from:

- NoisyOr.Combine: computes in exact reals; the rounding error of float64 before the final round-half-up is not modelled.
- One clock reading per call: the correlator, the feedback store and the handlers read the clock once per step, and run theorems take it to be non-decreasing where they say so.
- Sensor alerts carry no `Signals` and no `SignalCount` of their own (`SensorAlerts`, `SingleSignal`), and severities agree with confidences where `Derived` says so, as every producer in the engine sets them.
- The webhook is taken to be configured; the sender's queue and retries are not modelled.
- The policy's allowlist is two predicates on spellings of a MAC and of an IP; MAC and IP normalisation is `net`'s.
- Only the DNS sinkhole driver is registered; an action of any other type has no driver. The ARP isolation and switch-port drivers, their sockets and timers are left out.
- A driver call that returns an error has changed nothing in AdGuard; AdGuard's rules are changed by the killswitch alone during a call.
- Each handler call and each tick runs to completion; interleavings of two handlers on one action are not modelled. The two phases of `Feedback.Store.Suppressed` are the exception.
- Killswitch.Controller.TTLTick: how AdGuard answers is an input per action, and the expired actions come in any order; the timeout of a call counts as an error answer.
- Actions.Store.WriteAudit: entries keep action, states and actor; reasons, times and a failing audit writer (which the code only logs and counts) are left out.
- Action identifiers are the values of the process-wide counter.
- Actions.Store.RecordFailure: the reason is an enumeration of the failing steps rather than error text.
- Composite.Correlator.Evict: removes a minimum repeatedly instead of sorting once; ties are broken arbitrarily in both.
- FeedbackMeaning.SuppressedMeans: clients contain no `|`, the separator of keys; addresses have none.
- IocIdentity.ItemsAreTheirRows: kinds contain no `:`; the kinds `Validate` accepts have none.
- Feedback: every accepted verdict is taken to reach ClickHouse; `RestartTransparent` assumes values already in key normal form, clients without the separator, whole-second timestamps increasing per key, and live suppressions within the cap.
- PollerRuns.ExactlyOnce: the table is append-only, new rows are not older than the cursor, and keys are unique within a second; the query's answer is any legal one for `>= cursor ORDER BY timestamp LIMIT n`.
- Checksum: addresses are four bytes; parsing of dotted quads and the Ethernet header are left out, and a field that `struct.pack` refuses is a `None`.
- Flow.FlowTracker.Export: records are handed over to a list, so the silent drop when the channel is full is not modelled.
- Flow.FlowTracker.Update: TCP flags are the set of their bits. Printed addresses are strings without `|`.
- ModelStore.Store.Load: files are whole or truncated blobs, the digest is an arbitrary function, and versions are numbers in order of creation; errors inside `joblib` are left out.
- ModelTraining.TrainOnce: fitting and evaluating the Isolation Forest decide only whether the model is healthy, which is an input.
- IocStore: `Validate` of the threat-intel service is an arbitrary function; dates are numbers with 0 for "never".
- Matcher: address and CIDR parsing, host and port splitting, the public suffix list and the MITRE table are parameters; `MatchHash`, `Size` and the file loader are left out as plain lookups.
- Matcher.Matcher.MatchIP: which of several covering prefixes answers depends on map order in the code and is left open.
- Subnet.SubnetIPs: takes prefixes of length 1 to 32, as a method that returns must; that the loop of the code never ends for `0.0.0.0/0` is `Subnet.WalkEndsIff`.
- Lower-casing covers ASCII and the two other characters whose lower case is ASCII; other letters are left as they are.

What the repository does that is not modelled:

- HTTP servers and clients, authentication, HMAC signatures, sessions, the web UI, metrics, tracing and environment parsing.
- The engine's alert ring buffer and AdGuard query-log polling, packet capture loops, Suricata, Zeek and MISP clients.
- Flow features, Isolation Forest scoring, beacon and TLS heuristics: only their confidence caps appear, as constants.
- Device inventory storage and the mDNS, LLDP, DHCP and SSDP listeners.
