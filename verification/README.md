# Verified model of flo

`flo` compiles authored safety rules, evaluates them every tick against the latest sensor
samples, registers rulesets by owner, and leases robot registrations. This project models that
core in Dafny and proves what it promises.

| file | models |
|---|---|
| `RuleTypes.dfy` | runtime rules and JSON values (`src/rules.rs`) |
| `Strings.dfy`, `Topic.dfy` | split, join and the topic contract (`src/topic.rs`) |
| `Predicates.dfy` | predicate evaluation and its polarity (`src/engine.rs`) |
| `Semantic.dfy`, `Lowering.dfy`, `Compiler.dfy` | the rule compiler (`src/semantic.rs`), its meaning, boundary and conservation |
| `Validation.dfy` | what validation accepts and which fault it reports, read off the authored manifest |
| `Occurrences.dfy` | the same meaning per occurrence of a condition, with the place of each in the compiled guard |
| `Engine.dfy`, `EngineRuns.dfy` | `EvalState` as a class refining a pure state machine, and that machine's runs (`src/engine.rs`) |
| `EdgeHistory.dfy` | the engine as a function of its history alone, and how often Edge triggers fire |
| `EndToEnd.dfy` | compiler and engine together |
| `Registry.dfy`, `RegistryInterleaving.dfy` | canonical form, table and audit log (`src/registry.rs`), serial and with split locks |
| `HotReload.dfy` | `ActiveRules` and the reload loop (`src/config.rs`) |
| `Lease.dfy`, `Registration.dfy` | the registration lease and protocol (`src/registration/`), the retry loop (`src/runtime.rs`) |

## Reading the model

- Floats are reals plus `PosInf`, `NegInf` and `NaN`; rounding is not modelled. `d <= 0.0` is true
  of negative infinity and false of `NaN` and positive infinity, and a non-finite literal makes a
  comparison false.
- An `Arc<Rules>` is an object with constant contents; `Arc::ptr_eq` is reference equality.
- A digest is an injective constructor over the canonical ruleset. Storage writes succeed except
  that a second INSERT of a name violates the primary key. Versions are unbounded.
- Ids are slash-free strings (`Strings.Id`); the Rust builders panic on others.
- Clock readings are parameters. A run of the engine interleaves samples with ticks, each tick
  carrying the ruleset active at that moment; serial swaps and a live watch receiver are assumed.
- TOML and JSON parsers appear as their results: a push is the pair of what the two parsers make
  of it, and the round trip of an accepted ruleset through text is taken to be faithful.
- The loops of `build_when_expr` and `lower` are separate methods per loop.
- Error values keep their code; messages and field paths are dropped.
- In the protocol every published message may be delivered any number of times, in any order, or
  never; an answer whose publish fails is one that is never delivered. Only the handler and the
  monitor publish on response and alert topics. The monitor publishes an alert after it has
  released the lease, and takes no further token before it has done so or failed.
- A server may start on a database left by any earlier publishes.

Where the code and `CONTEXT.md` differ the model follows the code: `CONTEXT.md` says an absent
field makes evaluation return false, but a sample without `zone_id` satisfies `not_in_zone`
(`EndToEnd.ZoneComplement`), and an Edge condition fires when it becomes false as well
(`EndToEnd.ZoneRuleFiresOnCrossing`).

Some expectations are false of the code. Each has a lemma with the input that shows it and one
that says exactly when it holds:

- Reordering rules keeps the canonical form exactly when equally named rules keep their order
  (`Registry.CanonicalIff`); swapping two different ones anywhere changes it
  (`Registry.DuplicateNamesKeepOrder`).
- Concurrent publishers can log one version twice (`RegistryInterleaving.DuplicateVersionIsReachable`).
  The accepted versions of a name are distinct, and then 1..n, exactly when no update overwrote a
  version other than the one it had read (`RegistryInterleaving.VersionsUniqueIff`). Publishers can
  ensure that by not overlapping on a name: they then get a serial run on it, whatever happens on
  other names (`RegistryInterleaving.NonOverlappingIsSerial`).
- A client that has proceeded need not be registered (`Registration.ProceedsWhilePoisoned`); it is
  exactly when since its last accepted registration no deregistration of it was handled and no
  token of it seen to go (`Registration.ProceededRegisteredIff`).
- A client can be stopped as a duplicate of itself (`Registration.RetryRefusedAfterLostAck`); a
  client is stopped as a duplicate exactly when it takes the refusal of a registration that reached
  the server while an accepted one was held (`Registration.StoppedAsDuplicateIff`), and while the
  server has handled no more registrations of its id than it has sent, only after a timeout
  (`Registration.FirstAttemptIsNotRefused`).
- An Edge trigger can fire on the first sample of its topic (`EndToEnd.FirstSampleFiresRule`); it
  does exactly when an earlier tick of the same ruleset has evaluated it
  (`EdgeHistory.FirstSampleFires`, `EndToEnd.ZoneRuleOnFirstSample`).

## Model

| member | source | states |
|---|---|---|
| Semantic.BuildWhenExpr | src/semantic.rs:412-574 | the recursive builder fails with the first fault in document order, which does not depend on the robot id, and otherwise yields the tree whose shape and meaning the lemmas below describe |
| Semantic.CheckLevel | src/semantic.rs:419-455 | the loops over distances and zone references find the level's fault: emptiness, then a non-positive distance, then an undeclared zone |
| Lowering.FlatMembers | src/semantic.rs:457-524 | a level's flat triggers are exactly those of its authored keys |
| Lowering.FlatLength | src/semantic.rs:457-524 | one trigger per authored key |
| Lowering.FlatSlots | src/semantic.rs:457-524 | each key's trigger stands after those of the authored keys before it in the fixed order |
| Lowering.KeysRead | src/semantic.rs:459-524 | the resource each key reads and whether it is a Level or an Edge condition |
| Semantic.BuildChildren | src/semantic.rs:526-548 | the child loops stop at the first faulty child and otherwise build every child in order |
| Semantic.Lower | src/semantic.rs:579-646 | `lower` accepts exactly the expressible trees and returns the triggers outside and under OR nodes; every failure is `UnrepresentableNesting` |
| Semantic.LowerAll | src/semantic.rs:585-607 | the AND loop accepts exactly when every child is accepted and at most one brings an OR list |
| Semantic.LowerAny | src/semantic.rs:608-644 | the OR loop accepts exactly when every child is a lone trigger or only an OR list |
| Semantic.TryFromAction | src/semantic.rs:222-294 | an action is accepted exactly when it has one verb, a primitive payload, a finite speed and a non-empty topic, with the error codes in that precedence |
| Semantic.Validate | src/semantic.rs:358-393 | the first fault in document order is reported: per rule its actions, then its guard |
| Semantic.WhensErrorNone | src/semantic.rs:526-548 | a list of guards is fault-free exactly when each guard is |
| Validation.GuardPassesIff | src/semantic.rs:419-548 | a guard passes exactly when at every depth a level has a key or a child, no distance is negative infinity or a finite number up to 0, and every named zone is declared |
| Validation.GuardReportsFirstFault | src/semantic.rs:419-548 | its error is that of the first faulty level in document order: emptiness, then a distance, then a zone |
| Validation.ActionErrorMeans | src/semantic.rs:222-294 | an action passes exactly with one verb, a flat payload without null, a finite speed and a non-empty topic; which code is reported for each fault |
| Validation.ValidateReportsFirstFault | src/semantic.rs:358-393 | a manifest passes exactly when every action and guard does; otherwise the fault of the first faulty rule, actions before guard |
| Lowering.BuildPreservesMeaning | src/semantic.rs:412-574 | the built tree is true exactly when the authored guard is, under every assignment of truth values to conditions |
| Lowering.LowerPreservesMeaning | src/semantic.rs:579-646 | the two-level guard is true exactly when the tree is, for every accepted built tree and assignment |
| Lowering.BuiltIsNormal | src/semantic.rs:550-573 | built trees have no empty node and no AND of a single part |
| Lowering.ExactAcceptance | src/semantic.rs:579-646 | a built tree lowers if and only if no AND lies under an OR and at most one OR group is maximal |
| Lowering.AuthoredAcceptance | src/semantic.rs:579-646 | the same boundary decided on the authored guard, identically for every robot id |
| Lowering.OrElementTransfer | src/semantic.rs:550-573 | which authored guards build to OR-only trees |
| Lowering.LowerConserves | src/semantic.rs:579-646 | the two lowered lists merge back to the tree's triggers: none dropped, duplicated or reordered within its list |
| Lowering.BuildConserves | src/semantic.rs:457-573 | the tree's triggers, left to right, are the authored conditions in document order |
| Lowering.ShuffleConserves | src/semantic.rs:579-646 | a merge conserves the multiset of triggers |
| Compiler.Compile | src/semantic.rs:653-693 | `compile` fails exactly with the manifest's first error and otherwise yields every rule as authored: name, guard, and each action in order with its topic, quality of service and payload |
| Compiler.CompiledAsAuthored | src/semantic.rs:662-690 | every compiled rule has its authored name, its own guard and one action per authored action, in order, with that action's topic, quality of service and payload |
| Compiler.CompileReportsFirstFault | src/semantic.rs:653-693 | what `compile` reports: validation's first fault, else the missing site id, else the first rule that cannot be lowered or has an invalid raw topic, guard before topics |
| Compiler.CompileRules | src/semantic.rs:661-692 | the rule loop stops at the first failing rule and otherwise keeps every compiled rule in order |
| Compiler.CompileRule | src/semantic.rs:662-690 | the loop body: a validated rule fails on its guard before its actions, and otherwise keeps its name and has every action as authored |
| Compiler.CompileActions | src/semantic.rs:667-684 | the action loop succeeds exactly when all raw topics are valid; otherwise `InvalidTopic` |
| Compiler.CompileOne | src/semantic.rs:672-682 | after validation an action fails only on an invalid raw topic |
| Compiler.CompileAcceptance | src/semantic.rs:653-693 | a manifest compiles if and only if it has a site id and every rule is valid, representable and has valid raw topics, for every robot id alike |
| Compiler.FailuresAfterValidation | src/semantic.rs:653-731 | after validation only a missing site id, an unrepresentable guard or an invalid raw topic can fail, each with its culprit |
| Compiler.CompilePreservesMeaning | src/semantic.rs:412-646 | every compiled guard has the truth value of the authored guard, under every assignment |
| Compiler.CompileConserves | src/semantic.rs:526-646 | every compiled guard is non-empty and holds exactly the authored conditions, each list in document order |
| Compiler.ActionsGoWhereAuthored | src/semantic.rs:695-731 | topic, quality of service and payload of each authored verb; a raw action without payload carries null |
| Compiler.CompiledActionPublishes | src/engine.rs:658-675 | no compiled action is dropped at publication for an invalid topic |
| Compiler.CompiledTopicsSubscribable | src/engine.rs:629-632 | a compiled guard's topics can be subscribed to exactly when the robot id is neither empty nor a wildcard |
| Occurrences.BuildKeepsOccurrences | src/semantic.rs:412-574 | the built tree has as many conditions as the authored guard and is true exactly when it is, with equal conditions free to differ in truth from one occurrence to the next |
| Occurrences.LowerKeepsOccurrences | src/semantic.rs:579-646 | the two-level guard is true exactly when the tree is, occurrence by occurrence |
| Occurrences.PositionsStand | src/semantic.rs:579-646 | each lowered trigger is the one standing at its recorded position |
| Occurrences.PositionsPartition | src/semantic.rs:579-646 | lowering places every position exactly once, each list in document order |
| Predicates.Polarity | src/engine.rs:364-377 | comparisons under an even number of negations are monotone in the visible data, the others antitone |
| Predicates.RobustTruth | src/engine.rs:364-447 | a predicate true with the least favourable data for each comparison is true of all data in between |
| Predicates.FailClosed | src/engine.rs:364-447 | deleting fields or zone memberships never makes a negation-free predicate true, nor its negation false |
| Predicates.EvalSplitDiagonal | src/engine.rs:364-377 | with the same data on both sides, polarised evaluation is ordinary evaluation |
| Predicates.DeletionKeepsOperands | src/engine.rs:427-447 | an operand that resolves on reduced data resolves to the same value on the full data |
| Predicates.OrderingLaws | src/engine.rs:383-399 | the four orderings are consistent on comparable values, swap with their operands, and are all false on mismatched types |
| Predicates.OperandsAreFields | src/engine.rs:427-458 | field operands and named readings are payload fields; a peer's separation only from that peer's sample |
| Predicates.LiteralsStandForThemselves | src/engine.rs:427-433 | literals resolve to themselves, a non-finite float to nothing |
| Predicates.ComparisonsMean | src/engine.rs:383-423 | texts are ordered by their first difference, false before true; off numbers equality is identity; a shared zone is one both are in |
| Predicates.SymmetricComparisons | src/engine.rs:383-423 | `==` and `SameZoneAs` are symmetric and `!=` is the negation of `==` |
| Predicates.EqualityOverlapsOrder | src/engine.rs:412-423 | `==` and `<` overlap exactly on numbers less than the tolerance apart |
| Engine.EvalState.Ingest | src/engine.rs:88-117 | a zone-event topic updates only the zone map, or nothing if malformed; any other sample updates only `latest` and its timestamp |
| Engine.ZoneEventMeans | src/engine.rs:88-113 | zone events are exactly the topics `zone/<id>/../entered` and `zone/<id>/../cleared` with a text `robot_id`, naming that robot, that id and that verb |
| EngineRuns.ZoneSampleMoves | src/engine.rs:88-142 | a sample on a zone's `entered` topic puts the named robot in it, one on `cleared` takes it out, and no other membership changes; without a text `robot_id` nothing changes |
| Engine.EvalState.EnterZone | src/engine.rs:128-133 | the zone is added to the robot's set |
| Engine.EvalState.ClearZone | src/engine.rs:135-142 | the zone is removed, and the robot with its last zone |
| Engine.EvalState.TickWithArc | src/engine.rs:186-196 | a tick starts from an empty baseline exactly when the ruleset pointer changed, and otherwise from the previous one |
| Engine.EvalState.TickInner | src/engine.rs:198-236 | a tick emits the actions of exactly the rules whose guard formula holds of the baseline at its start, each rule's as one block after those of the rules before it, and updates the baseline by formula |
| Engine.BlocksDetermineOutput | src/engine.rs:229-235 | the blocks leave nothing open: there is exactly one such output |
| Engine.EvalState.EvalRules | src/engine.rs:229-235 | the loop over rules emits those blocks and computes that baseline although it mutates the baseline on the way |
| Engine.EvalState.WhenSatisfiedWithPrev | src/engine.rs:521-549 | mutating evaluation equals the pure guard formula and short-circuits: an `all` trigger is recorded only if all before it decide true, an `any` trigger only if all before it decide false, whatever became of `all`; no other entry changes |
| Engine.TickShortCircuits | src/engine.rs:521-549 | the same for every rule of a tick, from the baseline at its start |
| Engine.EvalState.AllMatch | src/engine.rs:534-538 | `all` stops at the first trigger that decides false; the triggers behind it keep their entries |
| Engine.EvalState.AnyMatch | src/engine.rs:539-547 | `any` stops at the first holding trigger, whether or not `all` failed |
| Engine.EvalState.TriggerEdgeMatches | src/engine.rs:495-516 | a Level trigger is its outcome; an Edge trigger whether the recorded outcome differs, recording the new one |
| Engine.NextBaseline | src/engine.rs:495-549 | pointwise: an evaluated Edge trigger holds its outcome, every other entry is untouched |
| Engine.SameBaselineSameRule | src/engine.rs:510-512 | a rule's evaluation reads only its own entries |
| Engine.RuleStep | src/engine.rs:229-235 | evaluating a rule after others decides as at the start of the tick |
| EngineRuns.FirstTickOfRuleset | src/engine.rs:187-194 | on the first tick after a swap, even to equal rules, a guard holds exactly when it does with every Edge trigger false |
| EngineRuns.GuardAsFormula | src/engine.rs:521-549 | guard evaluation is the two-level formula whenever decisions depend on the trigger alone |
| EngineRuns.ZonesAreHistory | src/engine.rs:88-142 | a robot is in a zone exactly when its last event for it was `entered`, events being those of `Engine.ZoneEventMeans`; no robot is stored with an empty set |
| EngineRuns.ShareZoneIsHistory | src/engine.rs:401-409 | sharing a zone is symmetric and means some zone last entered by both |
| EngineRuns.LatestIsHistory | src/engine.rs:115-116 | `latest` and `timestamps` hold the last sensor sample of every topic |
| EngineRuns.NonInterference | src/engine.rs:88-236 | two runs that at every tick look alike on the topics the ruleset names and on zones emit the same actions at every tick, for every staleness timeout |
| EngineRuns.SupersededSampleHasNoEffect | src/engine.rs:115-116 | a sample overtaken before any tick needs it, or on a topic no ruleset names, can be removed from a run without changing any action |
| EngineRuns.StaleFailsClosed | src/engine.rs:207-227 | with a timeout a sample counts up to and including that age; after it every trigger on the topic is false, negated ones included |
| EdgeHistory.InputsAreHistory | src/engine.rs:207-227 | what a tick evaluates against is a function of the samples received |
| EdgeHistory.BaselineIsLastOutcome | src/engine.rs:186-236 | in every reachable state the baseline holds for every trigger its last evaluated outcome since the last swap, nothing if there is none, and the remembered ruleset is that of the last tick |
| EdgeHistory.OutputsAreHistory | src/engine.rs:88-236 | the actions of every tick are those the history of samples, ticks and rulesets determines, without the engine's state |
| EdgeHistory.RunEngine | src/engine.rs:282-304 | the loop that ingests samples and ticks emits exactly those actions |
| EdgeHistory.RecordOfAll | src/engine.rs:534-538 | over a run an `all` Edge trigger gains an outcome at a tick exactly when all before it decide true there |
| EdgeHistory.RecordOfAny | src/engine.rs:539-547 | and an `any` Edge trigger exactly when all before it decide false |
| EdgeHistory.BareTriggerMeans | src/engine.rs:347-359 | a trigger without predicate is true exactly while a sample of its topic is visible |
| EdgeHistory.EdgeDecisionIsFlip | src/engine.rs:507-515 | an Edge trigger fires exactly when its last evaluated outcome since the swap was the opposite, so never at its first evaluation |
| EdgeHistory.FiresAreFlips | src/engine.rs:495-516 | over a whole run an Edge trigger fires once per flip of its evaluated outcomes, counted between swaps |
| EdgeHistory.FireParity | src/engine.rs:495-516 | over a whole run the fire count is odd exactly when first and last outcome differ in an odd number of the stretches between swaps |
| EdgeHistory.FalseWithoutSample | src/engine.rs:495-506 | every evaluation before the first sample of a trigger's topic is false |
| EdgeHistory.FirstSampleFires | src/engine.rs:495-516 | a first sample that makes an Edge trigger true fires it exactly when an earlier tick of the same ruleset evaluated it |
| EndToEnd.CompiledTick | src/engine.rs:198-236 | after any history a tick of any compiled ruleset emits, as blocks in order, the actions of exactly the rules whose authored condition holds, Level conditions read as seen and each occurrence of an Edge condition as the flip of its own last evaluated outcome |
| EndToEnd.TickPublishesAuthored | src/engine.rs:198-236 | each authored action of each such rule stands at its place in the output, counted in authored actions, as authored, and nothing else is emitted |
| EndToEnd.RuleFiresIff | src/engine.rs:521-549 | the same for the guard of one rule |
| EndToEnd.SlotsAreConditions | src/semantic.rs:526-646 | the compiled guard takes every authored condition exactly once, each from its own position |
| EndToEnd.CompileAndRun | src/engine.rs:198-236 | after any history, a tick of a compiled ruleset about distances emits the actions of exactly the rules whose authored condition holds of the visible samples |
| EndToEnd.DistanceRuleFires | src/semantic.rs:481-513 | a compiled distance rule fires exactly when its authored condition is seen to hold, whatever the baseline |
| EndToEnd.NearHumanMeans | src/semantic.rs:481-502 | `near_human` and `not_near_human` in terms of the separation in the visible sample |
| EndToEnd.NearMeans | src/semantic.rs:503-513 | `near` needs the matching peer and a smaller separation |
| EndToEnd.NearHumanExclusive | src/semantic.rs:481-502 | `near_human = d` and `not_near_human = d'` with d at most d' never hold together; with one distance, one holds exactly when the separation is known |
| EndToEnd.ZoneComplement | src/semantic.rs:459-480 | `in_zone` and `not_in_zone` are complements on any present sample and both false without one |
| EndToEnd.RoleMeans | src/semantic.rs:514-524 | `role` holds exactly on a sample with that role |
| EndToEnd.ZoneRuleFiresOnCrossing | src/engine.rs:493-516 | a lone `in_zone` rule fires on entering and on leaving: when membership differs from that at the last tick of the same ruleset, so never at the first tick after a swap |
| EndToEnd.ZoneRuleOnFirstSample | src/engine.rs:493-516 | a first zone sample showing the robot inside fires it exactly when the tick before was one of the same ruleset |
| EndToEnd.FirstSampleFiresRule | src/engine.rs:493-516 | a tick, the first sample inside and a second tick emit nothing and then the rule's actions |
| Registry.CanonicalRuleset | src/registry.rs:41-45 | the in-place sort of a copy yields the canonical form |
| Registry.CanonicalIff | src/registry.rs:41-51 | canonical forms are equal exactly when metadata agree and equally named rules are the same in the same order |
| Registry.ReorderingIsCanonical | src/registry.rs:41-51 | permuting distinctly named rules keeps the canonical form |
| Registry.DuplicateNamesKeepOrder | src/registry.rs:43 | swapping two different rules of one name, anywhere in any ruleset, changes the canonical form |
| Registry.SortKeepsNamed | src/registry.rs:43 | the sort is stable |
| Registry.SortSorted | src/registry.rs:43 | the result is sorted by name |
| Registry.Registry.PublishRuleset | src/registry.rs:99-167 | the effect of `publish` on table, log and outcome, for a bad name, a new name, a foreign owner, an identical and a changed ruleset |
| Registry.Registry.WriteAudit | src/registry.rs:169-187 | one row with the canonical blob is appended |
| Registry.RegistryIsItsLog | src/registry.rs:127-187 | after any serial run the table is the replay of the accepted rows, and each name's accepted rows have one owner, versions 1, 2, 3, ... and no repeated digest |
| Registry.OwnerIsFirstPublisher | src/registry.rs:127-143 | a name belongs for ever to its first well-named publisher |
| Registry.AcceptanceByHistory | src/registry.rs:104-166 | a publish is accepted exactly when well named and by the first owner; if not, the table is unchanged |
| Registry.RowByHistory | src/registry.rs:99-167 | a name's row is its first owner's last publish, at the version that counts how often that owner's publishes changed the canonical form |
| Registry.OutcomeAndLogByHistory | src/registry.rs:99-187 | what a caller is told, and the whole audit log row for row, are determined by the history of publishes alone |
| Registry.RepushIsSilent | src/registry.rs:145-150 | a ruleset with the registered canonical form changes neither version nor log |
| Registry.AuditTellsPublish | src/registry.rs:169-187 | every audit row, of a rejected claim too, names the publisher of one of the publishes and holds its canonical form |
| Registry.NameOkMeans | src/registry.rs:104-112 | good names are built from good characters up to length 64; none is empty, has a slash or is a wildcard |
| RegistryInterleaving.InterleavedPublish | src/registry.rs:115-166 | under every schedule: at most one INSERT per name succeeds, and every accepted audit row carries the table's owner |
| RegistryInterleaving.OwnerNeverChanges | src/registry.rs:115-166 | under every schedule a row, once inserted, keeps its owner and is never removed |
| RegistryInterleaving.UninterruptedIsSerial | src/registry.rs:115-166 | a publisher whose sections are not interrupted behaves as the serial `publish` |
| RegistryInterleaving.VersionsUniqueIff | src/registry.rs:115-166 | under every schedule that leaves no publisher between write and audit: the logged accepted versions of a name are distinct if and only if no update of it overwrote a version other than the one it had read, and are then 1..n |
| RegistryInterleaving.WrittenDistinctIff | src/registry.rs:151-159 | without a stale write the written versions are 1, 2, 3, ...; the first stale write repeats one |
| RegistryInterleaving.VersionsConserved | src/registry.rs:128-164 | every accepted version is written once and logged once, in whatever order |
| RegistryInterleaving.NonOverlappingIsSerial | src/registry.rs:115-166 | publishes of a name that do not overlap are serial on it, however other names interleave: same row, same log rows, same answers, and a proper history |
| RegistryInterleaving.InsertAnswers | src/registry.rs:115-143 | under every schedule a registered name was inserted by exactly one publisher, and a publisher whose INSERT was refused lost it to that one |
| RegistryInterleaving.NoRefusedInsertWithoutOverlap | src/registry.rs:115-143 | publishers that do not overlap on a name are never refused an INSERT |
| RegistryInterleaving.RefusedInsertIsReachable | src/registry.rs:115-143 | two publishers that both find a name free: the second is answered a database error |
| RegistryInterleaving.LostUpdate | src/registry.rs:151-164 | two updates after the same read are both accepted and logged with one version, and the first is lost |
| RegistryInterleaving.DuplicateVersionIsReachable | src/registry.rs:115-166 | from an empty registry a schedule of three publishers logs two accepted rows of version 2 |
| HotReload.ActiveRules.Swap | src/config.rs:71-74 | the stored and the watched ruleset change together |
| HotReload.HotReload.Handle | src/config.rs:125-166 | an accepted push installs a new pointer to its rules; any other push keeps the old pointer |
| HotReload.HotReload.Run | src/config.rs:114-169 | the loop folds the pushes over registry and active rules |
| HotReload.LastGoodIsActive | src/config.rs:124-167 | on any database left by earlier publishes: the active rules are those of the last good push, or the bootstrap, and the registry holds that push's owner and digest; good is read off the publishes and pushes alone |
| HotReload.RegistrySeesPublished | src/config.rs:131-156 | after the earlier publishes the registry sees exactly the parsable pushes, in order |
| HotReload.LastParsedIsActive | src/config.rs:157-167 | without a registry the active rules are those of the last push that parses as rules, or the bootstrap |
| Lease.RegistrationLease.constructor | src/registration/lease.rs:48-63 | the expected clients start as Expected, without config |
| Lease.RegistrationLease.RegisterClient | src/registration/lease.rs:65-109 | refused exactly for poisoned and registered robots, with the matching error |
| Lease.RegistrationLease.DeregisterClient | src/registration/lease.rs:111-134 | removes exactly a registered robot |
| Lease.RegistrationLease.OnLivelinessDelete | src/registration/lease.rs:157-176 | poisons, and says so, exactly a registered robot |
| Lease.RegistrationLease.State | src/registration/lease.rs:178-184 | an absent robot is Unknown |
| Lease.LeaseConservation | src/registration/lease.rs:65-176 | over every order of operations: accepted registrations are accepted deregistrations plus poisonings plus one if registered; one poisoning exactly when poisoned; a config exactly while registered |
| Lease.PoisonIsForever | src/registration/lease.rs:65-176 | nothing takes effect on a poisoned robot ever again |
| Lease.EntryIsHistory | src/registration/lease.rs:48-176 | what is stored for a robot is decided by the last operation that took effect: the registered config, nothing after a deregistration, no config once poisoned |
| Registration.Server.HandleRegistration | src/registration/transport.rs:82-112 | one turn of the registration loop: lease change and published answer |
| Registration.Server.HandleDeregistration | src/registration/transport.rs:127-153 | one turn of the deregistration loop |
| Registration.Server.HandleTokenDeleted | src/registration/transport.rs:176-198 | one turn of the heartbeat monitor on a deleted token: the poisoning, then the publish of the alert, whose failure is ignored |
| Registration.RetryLoop | src/runtime.rs:169-205 | proceeds exactly when the first non-timeout among three attempts is a success; gives up exactly after three timeouts |
| Registration.RegistrationSafety | src/registration/transport.rs:209-275 | in every run over the faulty network a client proceeds only if the server accepted that id earlier; a duplicate refusal implies the same, a poison refusal that it is poisoned; at most three attempts |
| Registration.NoAcceptanceAfterPoison | src/registration/transport.rs:82-112 | after a poisoning no registration of that id is accepted in any continuation |
| Registration.OneAlertPerPoisoning | src/registration/transport.rs:188-197 | in every run the alerts published for a robot, plus the one due, plus those whose publish failed, are one exactly when it is poisoned, and otherwise none |
| Registration.RegisteredIff | src/registration/transport.rs:82-198 | in every run the server holds a robot registered exactly when some accepted registration of it has not been followed by a handled deregistration or a lost token |
| Registration.VerdictIff | src/registration/transport.rs:209-275 | the client proceeds, is refused as a duplicate or refused as poisoned exactly when it takes that answer, while waiting, to an earlier handled registration of its id |
| Registration.ProceededRegisteredIff | src/runtime.rs:172-176 | a client that has proceeded is still registered exactly when nothing ended its last accepted registration |
| Registration.RefusedIffHeld | src/registration/transport.rs:97-104 | a handled registration is refused as a duplicate exactly when an earlier accepted one is still held |
| Registration.DeregistrationAckIff | src/registration/transport.rs:136-148 | a handled deregistration is acknowledged exactly when an accepted registration is held, ignored otherwise, and leaves the robot unregistered |
| Registration.EmptyIdSendsNothing | src/registration/transport.rs:214-216 | a client without an id sends nothing and stops |
| Registration.EmptyIdIsAnswered | src/registration/transport.rs:94-110 | a request without an id touches no lease and is answered as missing its id |
| Registration.StoppedAsDuplicateIff | src/runtime.rs:192-194 | exactly when a client is stopped as already registered |
| Registration.FirstAttemptIsNotRefused | src/runtime.rs:169-194 | while no more registrations of the id are handled than the client has sent, it is stopped as a duplicate only on a retry after a timeout |
| Registration.RetriesFollowTimeOuts | src/runtime.rs:169-191 | at most three attempts, every one after the first after a timeout of the one before, and giving up exactly after three timeouts |
| Registration.ProceedsWhilePoisoned | src/runtime.rs:172-176 | with a late acknowledgement the client proceeds although poisoned |
| Registration.RetryRefusedAfterLostAck | src/runtime.rs:177-194 | with a lost acknowledgement the retry is refused as already registered |
| Topic.CanonicalFixpoint | src/topic.rs:67-84 | canonicalisation is idempotent and `Topic::try_new` fixes its own output |
| Topic.HyphenAndSlashAgree | src/topic.rs:242-256 | both spellings of a robot id validate to the same topic |
| Topic.MatchesSomeRow | src/topic.rs:260-288 | matching is being on some row of the table, whatever the order |
| Topic.JoinedRowIsTopic | src/topic.rs:260-471 | whatever is joined from the segments of a table row splits into them again and validates to itself; every builder is an instance |
| Topic.LivelinessReaderInverts | src/registration/transport.rs:179-183 | the monitor reads back exactly the robot id of a liveliness key |
| Topic.ZoneReaderInverts | src/engine.rs:89-104 | the engine reads back exactly the zone id and the verb of a zone event |
| Topic.ZoneTopicBySegments | src/engine.rs:89-104 | which topics the engine takes for zone events and which segment it reads, on every string |
| Topic.RobotLocalIsNotZoneTopic | src/engine.rs:89-91 | a robot-local sample is never taken for a zone event |
| Topic.ResponseTopicsDistinct | src/topic.rs:416-433 | response and alert topics are per robot and never collide across families |
| Topic.TopicAsPattern | src/topic.rs:131-161 | a valid topic is a valid pattern exactly when no inner segment is empty and it has no wildcard, or a known wildcard shape |
| Topic.PatternsAccepted | src/topic.rs:131-161 | exactly which strings are patterns: no empty inner segment, and canonically a wildcard shape or a topic without wildcards |
| Topic.RobotLocalAsPattern | src/topic.rs:131-161 | a robot-local topic can be subscribed to exactly when the id is neither empty nor a wildcard |
| Strings.SplitJoin | src/topic.rs:75 | splitting a joined path returns its segments |
| Strings.JoinSplit | src/topic.rs:75 | joining the segments of a string returns it, and no segment has a slash |
| Strings.LessMeansBefore | src/registry.rs:43 | string order is by the first difference, a proper prefix first |
| Strings.DoubleSlashIffEmptyInner | src/topic.rs:138 | a path contains `//` exactly when an inner segment is empty |

## Left out

- Zenoh sessions, quality-of-service settings, subscriptions and task handles (`src/transport.rs`, `EvalState::run`): foreign calls; nothing is claimed about old subscriber tasks ending.
- TOML and JSON text, SHA-256 and SQLite themselves, the audit timestamp column, 64-bit version overflow.
- Floating-point rounding, including the conversion of large integers to `f64`.
- `compile_ruleset` and `normalize_ruleset_name`: a renaming around `compile` plus Unicode lowercasing.
- `AclExpr`, the signalling, lidar and ruleset-key builders: they follow the builders proved here.
- Errors' messages and field paths; logging; `ClientConfig::validate`.
- `RegistrationLease::poison`: called by no handler; the monitor uses the atomic check-and-poison modelled here.
- Media, WebRTC, CLI, authentication, health and HTTP modules.
- A client in safe-state (no client config) skips registration, so the protocol concerns clients with a config; deregistration by the client and unparsable messages are skipped.
