# StratAlign, verified

A Dafny model of the parts of StratAlign that carry real invariants, with proofs about every run, every input or every interleaving
of them. Run `dafny verify dfyconfig.toml` to check it.

| file | models |
|---|---|
| `AcceptProtocol.dfy`, `AcceptService.dfy` | accepting AI suggestions exactly once: a transition system over any number of callers, and the program proved to be runs of it |
| `StrategyGraph.dfy` | cycle search, typed edges, cardinality and the default relationship rules |
| `Calendar.dfy`, `TimeZones.dfy`, `Cadence.dfy` | Gregorian day arithmetic, wall-clock readings in a zone, and the cadence engine over both |
| `Json.dfy`, `CanonicalJson.dfy`, `Journal.dfy` | JSON text, key-sorted canonical form, and the hash-chained audit journal |
| `Snapshots.dfy` | bitemporal snapshots and replay |
| `JobIds.dfy`, `EventRegistry.dfy`, `Outbox.dfy`, `OutboxRelay.dfy` | job ids, subscriber routing, the outbox as a transition system over any number of relays, and the relay and the outbox writer as programs |
| `Forecast.dfy` | the least-squares trend forecast |
| `SmartImport.dfy`, `DataCapture.dfy` | preview and apply of imports and captured actuals |
| `DocumentLibrary.dfy`, `Ingestion.dfy` | the document registry and the watched folder |
| `ApprovalWorkflow.dfy`, `ValueLifecycle.dfy` | the approval compiler and the value lifecycle |
| `Oidc.dfy`, `OidcService.dfy`, `LoginRateLimiter.dfy` | reconciling OpenID Connect identities, and fixed-window login limits |
| `Rules.dfy` | rollups, RAG aggregation and threshold bands |

Conventions. A database call, a domain call or a queue call is one atomic step that works, fails, or takes effect with its answer
lost; between two steps of a program any number of steps of other processes happen. Where a protocol is proved, a transition system
states its steps and the theorems speak of all its runs; a class performs the steps as the program does, and its invariant says that
its tables are those of such a run. Unique indexes, transactions, advisory locks, job-id deduplication and atomic scripts are taken
to do what they promise. Digests, case folding, name normalisation, similarity, zone offsets and key comparison are arbitrary
functions, restricted only where a contract says so.

Where the code and what is said of it differ, the model follows the code:

- A second record can be created when a creation takes effect but its answer is lost, since the claim is then released
  (`AcceptProtocol.AtMostOneRecordIff`). The number of records is bounded by those losses, reaches that bound, and is one when creations
  are atomic.
- `fromZonedParts` promises the first occurrence of a repeated reading and the instant after a gap. Its probes reach twelve hours to
  either side, so where a zone is twelve hours or more ahead of UTC on both sides of a change it gets neither
  (`TimeZones.FarEastNeverAsDocumented`): so every spring and autumn in a zone that goes from +12 hours to +13 and back, as New Zealand
  does (`TimeZones.NewZealandSkips`, `TimeZones.NewZealandRepeats`).
- `civilToDays` and `daysToCivil` floor where their formula expects truncation, so dates before year 0 are off
  by a day, one early and the other late (`Calendar.CivilToDaysExactIff`, `Calendar.DaysToCivilExactIff`). The cadence engine asks for no
  such day in the instants the model covers, which start in year 100.
- `canonicalize` sorts keys with localeCompare, which calls some different keys equal; such payloads hash by their stored order and
  can stop verifying (`CanonicalJson.ForgetsOrderIff`, `Journal.TiedPayloadBreaks`).
- An empty `sourceEventId` is not looked up but is indexed: its second append is refused (`Journal.EmptySourceIsRefused`).
- Dispatch jobs are deduplicated for as long as the queue remembers their ids, not for ever (`Outbox.ForgettingLetsTwoThrough`), and the
  id joins its parts with dashes and turns colons into underscores, so two subscriber ids that differ only there share jobs
  (`Outbox.DeliveredIff`). The comments speak of `eventId:subscriberId`.
- The compiled approval machine drops the `ruleId` and `inputSource` of a rule gate (`ApprovalWorkflow.RulesCompileAlike`), and a
  definition may name `approved` as its initial state.
- The login limiter lets almost twice its maximum through within one window's length (`LoginRateLimiter.BoundIsTight`).

## Model

| member | source | states |
|---|---|---|
| AcceptProtocol.InvariantHolds | apps/backend/src/modules/ai/ai-suggestion.service.ts:461-545 | every run of any number of accepts, under any interleaving and any failed, crashed or unacknowledged call, keeps the protocol invariant: a claim row has at most one live holder, and a settled row, its event, its record and the answers given agree |
| AcceptProtocol.InvariantStep | apps/backend/src/modules/ai/ai-suggestion.service.ts:604-676 | any single step of any caller keeps that invariant |
| AcceptProtocol.RecordsPerSuggestion | apps/backend/src/modules/ai/ai-suggestion.service.ts:461-545 | after any run a suggestion has at most one record more than it has creations whose acknowledgement was lost |
| AcceptProtocol.AtMostOneRecord | apps/backend/src/modules/ai/ai-suggestion.service.ts:604-676 | when creating a record is atomic, no run ever leaves two records of one suggestion |
| AcceptProtocol.AtomicCreationsLoseNothing | apps/backend/src/modules/ai/ai-suggestion.service.ts:604-676 | with atomic creations no acknowledgement is ever lost |
| AcceptProtocol.RecordsReachTheirBound | apps/backend/src/modules/ai/ai-suggestion.service.ts:461-545 | for every suggestion and every number n, some run in which n creations take effect but report failure, so that their claims are released, ends with n + 1 records: the bound above is reached |
| AcceptProtocol.AtMostOneRecordIff | apps/backend/src/modules/ai/ai-suggestion.service.ts:461-545 | all runs that lose at most n acknowledgements of a suggestion keep it to one record if and only if n is zero |
| AcceptProtocol.UnclaimedCanBeAccepted | apps/backend/src/modules/ai/ai-suggestion.service.ts:461-676 | from any reachable state an unclaimed suggestion, KPI or OKR, can be accepted: a new caller finishes with one new record, a settled row and its event |
| AcceptProtocol.SuccessesAgree | apps/backend/src/modules/ai/ai-suggestion.service.ts:431-459 | any two successful accepts of a suggestion, in any run, name the same record; at most one of them is not a repeat; the record exists and is of that suggestion |
| AcceptProtocol.SettledIffAnnounced | apps/backend/src/modules/ai/ai-suggestion.service.ts:849-896 | in every reachable state a row is settled exactly when its one dedupe-keyed event is in the outbox, and both name the existing record |
| AcceptProtocol.ClaimDeletedOnlyByHolder | apps/backend/src/modules/ai/ai-suggestion.service.ts:825-837 | a claim row disappears only when its only holder releases it, and then every record of the suggestion is one whose acknowledgement was lost |
| AcceptProtocol.OnlyReleaseDeletes | apps/backend/src/modules/ai/ai-suggestion.service.ts:825-837 | no step but a release deletes a provenance row |
| AcceptProtocol.SettledForEver | apps/backend/src/modules/ai/ai-suggestion.service.ts:849-896 | a settled row stays exactly as it is through every continuation of a run |
| AcceptService.Cluster.FindSettled | apps/backend/src/modules/ai/ai-suggestion.service.ts:708-725 | the read of the provenance row answers with the settled result exactly when the row is settled, with nothing when it is not, or fails; it is one move of the protocol and changes no table |
| AcceptService.Cluster.Claim | apps/backend/src/modules/ai/ai-suggestion.service.ts:742-782 | the claim is won exactly when the key was free and the answer came back, and found taken exactly when it was there; a free key gets its row unless the write fails |
| AcceptService.Cluster.Create | apps/backend/src/modules/ai/ai-suggestion.service.ts:461-545 | the record is known to exist exactly when its creation worked and was acknowledged; one that took effect unacknowledged is in the table all the same, counts as lost and leads to the release of the claim |
| AcceptService.Cluster.AwaitWinner | apps/backend/src/modules/ai/ai-suggestion.service.ts:792-818 | waiting for the winner ends after at most forty polls, each as its plan says, with an answer the protocol allows; undisturbed, with an open claim and polls that work, it polls forty times, changes nothing and answers that the accept is in progress |
| AcceptService.Cluster.SettleClaim | apps/backend/src/modules/ai/ai-suggestion.service.ts:849-896 | settling writes the row and its event together, or neither when the write fails or the row is gone; the answer is the new record, or the failure that the alignment left |
| AcceptService.Cluster.ReleaseClaim | apps/backend/src/modules/ai/ai-suggestion.service.ts:825-837 | releasing deletes the claim unless it is settled or the write fails, and ends the call with the failure that led to it either way |
| AcceptService.Cluster.CreateUnderClaim | apps/backend/src/modules/ai/ai-suggestion.service.ts:604-676 | every step under a won claim carries the answer planned for it; undisturbed, a duplicate releases the claim and leaves no record, a failed creation releases it, and a creation that works is settled, announced and answered with its id |
| AcceptService.Cluster.AcceptOne | apps/backend/src/modules/ai/ai-suggestion.service.ts:431-459 | one accept, with all others moving between its calls, is a run of the protocol in which each of its moves carries the answer planned for it; undisturbed, it comes to the outcome written out for every plan, a settled row answering with its own type, id and edits |
| AcceptService.Cluster.Accept | apps/backend/src/modules/ai/ai-suggestion.service.ts:431-459 | the same for a single accept: the run goes on from the one before by planned moves only, ends with the answer, and leaves the caller where its plan allows it to be |
| AcceptService.KeepingStaysOnPlan | apps/backend/src/modules/ai/ai-suggestion.service.ts:431-545 | in every run, whatever the others do, a call that keeps to its plan creates its record only if its context could be prepared, its claim was won and no duplicate blocked it, and answers a first acceptance, a refused preparation or a blocking duplicate only as planned |
| AcceptService.Cluster.AcceptMany | apps/backend/src/modules/ai/ai-suggestion.service.ts:397-429 | every input of a batch is answered, each by moves of its own plan; the accepted and the failed list are those answers, in order, and together as long as the inputs |
| AcceptService.AnswersAt | apps/backend/src/modules/ai/ai-suggestion.service.ts:397-429 | the answer listed for an input is the one its own call came to |
| AcceptService.PickedPartitions | apps/backend/src/modules/ai/ai-suggestion.service.ts:397-429 | the two lists partition the answers: nothing is lost, repeated or put in the wrong list |
| AcceptService.PickedInOrder | apps/backend/src/modules/ai/ai-suggestion.service.ts:397-429 | each list holds exactly the answers of its kind, in the order of the inputs |
| StrategyGraph.CycleSearch.Visit | packages/domain-strategy/src/index.ts:187-213 | the recursive search terminates (nodes neither visiting nor visited decrease), finds only real cycles, and otherwise adds the node to a successor-closed, cycle-free visited set |
| StrategyGraph.HasDirectedCycle | packages/domain-strategy/src/index.ts:187-213 | the search answers true if and only if some node has a nonempty directed path to itself |
| StrategyGraph.CycleFreeExtends | packages/domain-strategy/src/index.ts:187-213 | a node whose successors all lie in a closed cycle-free set can be added to it |
| StrategyGraph.CyclesStartAmongSources | packages/domain-strategy/src/index.ts:187-213 | starting the search at the edges' sources misses no cycle |
| StrategyGraph.ValidateEdges | packages/domain-strategy/src/index.ts:225-233 | the edge checks pass if and only if every edge joins two listed nodes of its own plan version and some rule has their two types and its type; otherwise the verdict is that of the first bad edge, a cross-plan error exactly when its plan part fails, and else an error that names its types |
| StrategyGraph.CheckCardinality | packages/domain-strategy/src/index.ts:235-243 | a node passes if and only if, for every rule of its type, the number of its edges of the rule's type to nodes of the rule's target type is in range; otherwise the verdict names the first rule that is not kept, and that number |
| StrategyGraph.ValidateGraph | packages/domain-strategy/src/index.ts:219-244 | a graph is accepted if and only if its edges are in plan and typed, it has no cycle and all counts are in range, each in terms of the listed nodes, edges and rules; each error is raised exactly when its own check is the first to fail |
| StrategyGraph.EdgeVerdictMeans | packages/domain-strategy/src/index.ts:225-232 | of one edge, through the map that keeps the last node of an id: accepted when in plan and typed, a cross-plan error when not in plan, and else an error that names the types of its nodes and its own |
| StrategyGraph.CountEdgesCounts | packages/domain-strategy/src/index.ts:238-241 | the count for a rule is the number of edges from the node, of the rule's type, to a node of its target type |
| StrategyGraph.TypedCycleProjects | packages/domain-strategy/src/index.ts:219-244 | a cycle in a graph whose edges pass the checks gives a cycle among the rule types |
| StrategyGraph.EdgeChecksForceAcyclicIff | packages/domain-strategy/src/index.ts:136-165 | for any rule table, the edge checks alone force every graph to be acyclic if and only if the table has no cycle of types |
| StrategyGraph.DefaultRulesForceAcyclic | packages/domain-strategy/src/index.ts:92-98 | under the default rules the edge checks alone imply acyclicity |
| StrategyGraph.RankRisesAlongWalk | packages/domain-strategy/src/index.ts:92-98 | the type rank rises along every walk of the default rules |
| StrategyGraph.CorporateStrategyReachesPlay | packages/domain-strategy/src/index.ts:92-98 | with all counts in range, every corporate strategy has a path of three edges to some strategic play |
| Calendar.CivilToDaysExactIff | apps/backend/src/modules/cadence/timezone.util.ts:148-158 | the program's day count is the calendar's exactly from (shifted) year 0 on and in the last year of an era before it; otherwise it is a day short |
| Calendar.DaysInMonthExact | apps/backend/src/modules/cadence/timezone.util.ts:190-193 | the length of every month from year 0 on is the Gregorian one |
| Calendar.DaysToCivilExact | apps/backend/src/modules/cadence/timezone.util.ts:160-183 | the date computed for a day count from year 0 on is the one with that number |
| Calendar.DaysToCivilExactIff | apps/backend/src/modules/cadence/timezone.util.ts:160-183 | the date computed for a day exists and is that day's exactly from March of year 0 on and, before that, on the last day of each 400-year era; every other day comes out as the day after it |
| Calendar.DaysToCivilEverywhere | apps/backend/src/modules/cadence/timezone.util.ts:160-183 | what the program computes on every day there is: the date of the day or, where it is a day late, the date of the next day, with a first of March written as one more day of February |
| Calendar.CommonYearsGetALeapDay | apps/backend/src/modules/cadence/timezone.util.ts:160-183 | so before year 0 the 28 February of every common year comes out as a 29 February, a date that does not exist |
| Calendar.CivilRoundTripIff | apps/backend/src/modules/cadence/timezone.util.ts:148-183 | converting a date to days and back gives the date again exactly from March of year 0 on and, before that, except on each first of March and in the last year of an era but on its leap day |
| Calendar.DaysRoundTripIff | apps/backend/src/modules/cadence/timezone.util.ts:148-183 | converting days to a date and back gives the days again exactly from March of year 0 on and, before that, on the last day of an era and before its last year |
| Calendar.YearOfEraExact | apps/backend/src/modules/cadence/timezone.util.ts:160-183 | the year-of-era formula recovers the year and the day within it for every day of an era |
| Calendar.WeekdaysGoRound | apps/backend/src/modules/cadence/timezone.util.ts:186-188 | each day's weekday is the successor of the day before's, for negative counts as well |
| TimeZones.ToZonedParts | apps/backend/src/modules/cadence/timezone.util.ts:60-78 | the wall-clock parts are those of a calendar date and time that read as the instant plus the offset |
| TimeZones.ZoneOffsetMsAt | apps/backend/src/modules/cadence/timezone.util.ts:84-98 | the measured offset is the zone's offset in whole seconds |
| TimeZones.FromZonedParts | apps/backend/src/modules/cadence/timezone.util.ts:112-138 | the probes, the filter and the sort come to the resolution that ResolveSound describes |
| TimeZones.ResolveSound | apps/backend/src/modules/cadence/timezone.util.ts:112-138 | the answer is one of the three candidates; it reads back as asked whenever any of them does, and is then the earliest such; otherwise it is the latest candidate |
| TimeZones.ExpectedMeaning | apps/backend/src/modules/cadence/timezone.util.ts:100-111 | what the documentation promises for a reading with a change of offset within a day of it: the first instant of all time that reads so, or, when none does, an instant after the gap |
| TimeZones.ResolveExpectedIff | apps/backend/src/modules/cadence/timezone.util.ts:100-138 | for any zone and a reading with one change of offset within a day of it, the answer is the promised one if and only if the offset it needs is in force within the twelve-hour probes |
| TimeZones.ResolveExpectedWithinTwelveHours | apps/backend/src/modules/cadence/timezone.util.ts:100-138 | so where the offsets stay within twelve hours of UTC every such reading resolves as documented, however often the zone changes |
| TimeZones.FarEastNeverAsDocumented | apps/backend/src/modules/cadence/timezone.util.ts:100-138 | where both offsets are twelve hours or more ahead, every repeated reading resolves to its second occurrence and every skipped one to before the gap |
| TimeZones.NewZealandSkips | apps/backend/src/modules/cadence/timezone.util.ts:100-138 | in a zone at +12 hours in winter and +13 in summer, every year, each reading skipped in spring resolves to before the gap |
| TimeZones.NewZealandRepeats | apps/backend/src/modules/cadence/timezone.util.ts:100-138 | and each reading repeated in autumn resolves to its second occurrence although it reads so an hour earlier |
| Cadence.DayWithinMonthExact | apps/backend/src/modules/cadence/cadence.engine.ts:149-198 | on every month from year 0 on the program asks for the day the calendar has there: the clamped or skipped day of the month, or the nth weekday |
| Cadence.ClampExact | apps/backend/src/modules/cadence/cadence.engine.ts:200-217 | clamping gives the requested day, the last day, or nothing under the skip policy |
| Cadence.NthBetweenExact | apps/backend/src/modules/cadence/cadence.engine.ts:219-237 | the nth-weekday formula gives exactly the nth such weekday of the month, or the last, or nothing when there are fewer |
| Cadence.FireDayMeans | apps/backend/src/modules/cadence/cadence.engine.ts:149-237 | the day a month fires on is the nth or last such weekday counted day by day, or the requested day of the month, or under clamping its last day; it fires exactly when there is such a day |
| Cadence.FiresMeans | apps/backend/src/modules/cadence/cadence.engine.ts:97-165 | a cadence denotes exactly the instants of those days, in the months a whole number of periods from its anchor |
| Cadence.FireDaysApart | apps/backend/src/modules/cadence/cadence.engine.ts:149-237 | fire days of two months that both fire are at least 28 days apart |
| Cadence.MarginSuffices | apps/backend/src/modules/cadence/cadence.engine.ts:97-143 | an instant inside the window belongs to a month no more than one outside the scanned window's own months, in any zone with offsets under a day |
| Cadence.ScanMonths | apps/backend/src/modules/cadence/cadence.engine.ts:97-143 | the month loop collects exactly the instants of its months, in order |
| Cadence.GenerateMonthBased | apps/backend/src/modules/cadence/cadence.engine.ts:97-143 | the window is refused exactly when it spans more than 400 months, and otherwise scanned with one month of margin |
| Cadence.WindowComplete | apps/backend/src/modules/cadence/cadence.engine.ts:97-143 | the scanned, filtered instants are exactly the instants at which the cadence fires in the window, strictly increasing |
| Cadence.ExactlyUnique | apps/backend/src/modules/cadence/cadence.engine.ts:42-57 | there is only one such list |
| Cadence.OccurrencesBetween | apps/backend/src/modules/cadence/cadence.engine.ts:42-57 | for a maximum that is not negative, the answer is increasing, fires in [from, to), is no longer than the maximum, and misses an instant only when it is full of earlier ones; for a negative maximum, which slices from the end, it is all but that many of the last; the window is refused exactly over 400 months |
| Cadence.WindowsConcatenate | apps/backend/src/modules/cadence/cadence.engine.ts:42-57 | the untruncated lists for [a, b) and [b, c) concatenate to the list for [a, c) |
| Cadence.NextOccurrenceAfter | apps/backend/src/modules/cadence/cadence.engine.ts:64-77 | the answer is the first instant at which the cadence fires within the horizon, or null when there is none |
| Cadence.NextWithinDefaultHorizon | apps/backend/src/modules/cadence/cadence.engine.ts:64-77 | a cadence that skips no month is never answered with null in the 400-day horizon, from any instant, in any zone |
| Cadence.FiresAtAllIff | apps/backend/src/modules/cadence/cadence.engine.ts:149-217 | a cadence on a day of the month denotes some instant, in any zone, unless it is yearly, skips short months and its anchor's month never has that day; in that case none at all |
| Cadence.SkippedFebruaryNeverFires | apps/backend/src/modules/cadence/cadence.engine.ts:200-217 | so a yearly 31st with the skip policy anchored in a February never fires |
| Cadence.ParticipatesExactly | apps/backend/src/modules/cadence/cadence.engine.ts:149-165 | the doubled remainder test says exactly that the month's distance from the anchor, negative or not, is a whole number of periods off its phase |
| Cadence.QuarterlyIsThreeMonthly | apps/backend/src/modules/cadence/cadence.engine.ts:149-198 | a quarterly cadence with offset k is a three-monthly one whose anchor is k months later: every scan finds the same instants |
| Json.TextInjective | apps/backend/src/modules/audit/journal.service.ts:56-68 | different JSON values are serialised to different texts |
| Json.TextReadsOneWay | apps/backend/src/modules/audit/journal.service.ts:56-68 | a serialised value followed by a delimiter can be read in one way only |
| CanonicalJson.CanonicalDetermines | apps/backend/src/modules/audit/journal.service.ts:36-54 | values with one canonical form differ at most in the order of object keys |
| CanonicalJson.ForgetsOrderIff | apps/backend/src/modules/audit/journal.service.ts:36-54 | the canonical form is independent of key order if and only if no object has two keys that the comparison calls equal |
| CanonicalJson.TiedKeysKeepTheirOrder | apps/backend/src/modules/audit/journal.service.ts:36-54 | two keys that compare equal keep their given order in the canonical form |
| Journal.HashedTextDetermines | apps/backend/src/modules/audit/journal.service.ts:70-78 | the hashed text gives back the previous hash, the sequence number and the content up to payload key order |
| Journal.DecimalInjective | apps/backend/src/modules/audit/journal.service.ts:56-68 | sequence numbers are written injectively |
| Journal.VerifyChain | apps/backend/src/modules/audit/journal.service.ts:152-219 | verification succeeds if and only if the table is a chain; otherwise it reports exactly the first broken row, with the first of the three reasons that holds and the number of rows before it |
| Journal.Table.Append | apps/backend/src/modules/audit/journal.service.ts:83-150 | an append answers with the existing row of its nonempty event id, or writes the next row, or is refused by a unique index, and in no other case; the unique indexes stay |
| Journal.AppendKeepsChain | apps/backend/src/modules/audit/journal.service.ts:83-150 | an append to a verifying journal leaves a verifying journal with all earlier rows in place |
| Journal.RunKeepsChain | apps/backend/src/modules/audit/journal.service.ts:83-150 | so does any run of appends: sequence numbers 1..n, every hash in order |
| Journal.OncePerEvent | apps/backend/src/modules/audit/journal.service.ts:87-97 | once a nonempty event id is recorded, every later append of it in any run answers with that very row and writes nothing |
| Journal.RefusedOnlyWhen | apps/backend/src/modules/audit/journal.service.ts:138-150 | a verifying journal refuses an append only over an empty event id it already holds or over two different texts with one digest |
| Journal.EmptySourceIsRefused | apps/backend/src/modules/audit/journal.service.ts:87-97 | a second append with the empty event id is refused, since the lookup skips it and the index does not |
| Journal.TamperEvidence | apps/backend/src/modules/audit/journal.service.ts:152-219 | two verifying journals with the same last hash agree row by row on everything hashed, payloads up to key order, or two texts with one digest are at hand |
| Journal.PrefixesVerify | apps/backend/src/modules/audit/journal.service.ts:152-219 | cutting off the newest rows leaves a journal that still verifies: only the last hash tells |
| Journal.ReadBackVerifies | apps/backend/src/modules/audit/journal.service.ts:36-54 | when no payload keys tie, payloads read back with their keys in another order verify exactly when the written ones do |
| Journal.TiedPayloadBreaks | apps/backend/src/modules/audit/journal.service.ts:36-54 | when two payload keys tie, some reordering of that payload breaks a verifying journal, or two texts share a digest |
| Snapshots.Store.WriteSnapshot | apps/backend/src/modules/audit/snapshot.service.ts:56-93 | a write is refused exactly when the version number is taken, changing nothing; otherwise the table is the history of versions with the new one appended, each row ending where the next of its aggregate starts |
| Snapshots.OneOpenRow | apps/backend/src/modules/audit/snapshot.service.ts:60-80 | at most one row of an aggregate is ever open |
| Snapshots.ReconstructAsOf | apps/backend/src/modules/audit/snapshot.service.ts:184-274 | with a version that holds, its payload; otherwise, over the journal itself, each key some qualifying entry writes, with the value of the last such entry, where an entry qualifies when it is of the aggregate and happened by the asked instant; null exactly when other versions exist or no entry qualifies |
| Snapshots.LastWrittenHolds | apps/backend/src/modules/audit/snapshot.service.ts:187-208 | whatever the versions and starts, the last version written with validFrom not after the instant holds, and no later row does |
| Snapshots.AlwaysPicksLastIff | apps/backend/src/modules/audit/snapshot.service.ts:187-208 | the as-of query picks that version at every instant if and only if no write is overshadowed: by an earlier write of no lower number that is not yet superseded at the first instant both have started, while the later one is the last written there |
| Snapshots.OrderedWritesAreFound | apps/backend/src/modules/audit/snapshot.service.ts:187-208 | no write is overshadowed when version numbers rise or starts never go back in the order of writing; either is enough |
| Snapshots.PicksLastWritten | apps/backend/src/modules/audit/snapshot.service.ts:187-208 | so under either condition the query picks the last version written |
| Snapshots.IntervalsDisjoint | apps/backend/src/modules/audit/snapshot.service.ts:56-93 | with starts that never go back, intervals of an aggregate do not overlap |
| Snapshots.BackdatedLowerVersionIsMissed | apps/backend/src/modules/audit/snapshot.service.ts:187-208 | a history with unique versions in which the query picks a version that was written over |
| Snapshots.Replay | apps/backend/src/modules/audit/snapshot.service.ts:249-264 | the merged payload holds exactly the keys some object payload writes, each with the value of its last writer |
| Outbox.InvariantHolds | apps/backend/src/events/outbox-relay.service.ts:28-101 | every run of any number of relays, with partial enqueue failures, lost replies and crashes, keeps the relay invariant |
| Outbox.PublishedMeansAnnounced | apps/backend/src/events/outbox-relay.service.ts:41-92 | a PUBLISHED event has had a job accepted under the id of every subscriber to its type |
| Outbox.DeliveredIff | apps/backend/src/events/outbox-relay.service.ts:56-66 | every published event reaches every subscriber with a job of its own, in every run, if and only if no two subscriber ids of a type differ only in colons |
| Outbox.AcceptancesAreExpiries | apps/backend/src/queue/job-options.ts:9-15 | the jobs ever accepted under an id number one for each time the queue forgot it and one if it still remembers it |
| Outbox.OneJobWhileRemembered | apps/backend/src/events/outbox-relay.service.ts:12-18 | however many relays run, fail and crash, no event and subscriber have a second job unless the queue forgot the first |
| Outbox.ForgettingLetsTwoThrough | apps/backend/src/events/outbox-relay.service.ts:12-18 | a relay with an old batch enqueues a second job once the queue has forgotten the first |
| Outbox.PublishedForEver | apps/backend/src/events/outbox-relay.service.ts:83-92 | a published event is never pending again |
| Outbox.KeysStayUnique | apps/backend/src/events/event-bus.service.ts:31-53 | no two events ever share a dedupe key |
| OutboxRelay.Processes.RelayPendingEvents | apps/backend/src/events/outbox-relay.service.ts:28-101 | a pass, for every list of fates of its calls and whoever else moves: it answers none only when the process died or the final update failed, and else how many events had all their jobs taken, one failed event holding back no other; undisturbed, exactly those become published and every failed one stays pending with one more attempt |
| OutboxRelay.PassShrinks | apps/backend/src/events/outbox-relay.service.ts:28-101 | such a pass shrinks the pending rows by the smaller of the batch size and their number, and leaves no older one behind |
| OutboxRelay.Processes.FindPending | apps/backend/src/events/outbox-relay.service.ts:29-33 | the batch is the oldest pending rows, oldest first |
| OutboxRelay.Processes.EnqueueNext | apps/backend/src/events/outbox-relay.service.ts:56-66 | an enqueue meets its fate: it advances to the next subscriber, or fails the event, or dies with the process |
| OutboxRelay.Processes.RelayEvent | apps/backend/src/events/outbox-relay.service.ts:41-80 | an event joins the published ids exactly when the enqueues for all its subscribers work; at the first that does not it is left pending, one attempt richer, and the pass goes on |
| OutboxRelay.Processes.RelayBatch | apps/backend/src/events/outbox-relay.service.ts:41-80 | the batch is relayed event by event, each as its own calls were fated, whatever became of those before it |
| OutboxRelay.Processes.MarkBatch | apps/backend/src/events/outbox-relay.service.ts:83-92 | the published ids are marked in one update, which takes effect also when its answer is lost |
| OutboxRelay.Processes.PublishWithin | apps/backend/src/events/event-bus.service.ts:31-53 | the outbox gains one pending row for each new dedupe key asked for, with its request's fields, keeps every row it had, and the count is the number of rows added |
| JobIds.SameJobIdIff | apps/backend/src/queue/queue.constants.ts:59-66 | two job ids of one kind, with first segments of equal length, are the same if and only if both segments agree up to colons |
| JobIds.BuiltWithoutColon | apps/backend/src/queue/queue.constants.ts:46-66 | no job id contains a colon |
| JobIds.LengthMatters | apps/backend/src/queue/queue.constants.ts:59-66 | without a fixed length two different pairs can share an id |
| EventRegistry.Registry.Register | apps/backend/src/events/event-subscriber.registry.ts:14-28 | registering an id twice throws and changes nothing; otherwise the index stays that of the grown registration history |
| EventRegistry.Registry.SubscribersFor | apps/backend/src/events/event-subscriber.registry.ts:30-35 | the answer is a scan of the registration history: exact matches in order, then wildcard matches in order |
| EventRegistry.Registry.FindById | apps/backend/src/events/event-subscriber.registry.ts:37-39 | the registered subscriber with the id, or nothing when none was registered |
| EventRegistry.ScanFinds | apps/backend/src/events/event-subscriber.registry.ts:22-27 | a scan finds exactly the registered subscribers that name the type |
| EventRegistry.ScanCounts | apps/backend/src/events/event-subscriber.registry.ts:22-27 | and lists each as often as it names the type |
| EventRegistry.EarlierIsListedEarlier | apps/backend/src/events/event-subscriber.registry.ts:22-27 | of two subscribers to a type the one registered first is listed first |
| Forecast.MakeForecast | services/pixelrag/spm_poc/advanced.py:209-244 | the history is exactly the asked KPI's measurements that hold a number, in order; below three there is no forecast; otherwise it is the value, one period on, of a line no line beats in squared error |
| Forecast.FitIsBest | services/pixelrag/spm_poc/advanced.py:231-237 | the computed line minimises the sum of squared residuals over all lines, and is the only one to do so |
| Forecast.DenominatorPositive | services/pixelrag/spm_poc/advanced.py:234 | with two points or more the division is never by zero |
| Forecast.CollinearIsExact | services/pixelrag/spm_poc/advanced.py:231-237 | points on a line are fitted by that line, so the forecast is its value |
| Forecast.ErrorGap | services/pixelrag/spm_poc/advanced.py:231-237 | how much worse any other line does, as a sum of two squares |
| SmartImport.Propose | services/pixelrag/spm_poc/workflows.py:90-103 | an item is proposed for creation exactly when it has a name that neither the store nor an earlier item has, and otherwise skipped with the reason that applies first |
| SmartImport.PreviewedIsMarked | services/pixelrag/spm_poc/workflows.py:72-103 | in terms of the store itself: an item is marked and selected exactly when it has a name that no stored record and no earlier item has |
| SmartImport.Repository.ApplyTo | services/pixelrag/spm_poc/workflows.py:113-127 | exactly the selected items marked for creation whose name is neither stored nor that of an earlier such item are stored, in order, and created plus skipped make the total |
| SmartImport.Repository.Apply | services/pixelrag/spm_poc/workflows.py:105-129 | the three collections grow by exactly those items, and the counts add up |
| SmartImport.NamesStayUnique | services/pixelrag/spm_poc/workflows.py:113-127 | however stale or edited the proposal, stored names stay unique |
| SmartImport.ApplyTwice | services/pixelrag/spm_poc/workflows.py:105-129 | a second apply of the same proposal changes nothing |
| SmartImport.FreshPreviewCreatesItsItems | services/pixelrag/spm_poc/workflows.py:72-129 | applied to the store it was made from, a preview creates exactly the items it marked for creation |
| DataCapture.BestMatch | services/pixelrag/spm_poc/workflows.py:156-176 | the best-scoring KPI, the first of equals, and whether any other scores within a hundredth of it |
| DataCapture.Judge | services/pixelrag/spm_poc/workflows.py:141-189 | an extracted KPI is matched if and only if one KPI stands out: it scores the minimum or more and every other at least a hundredth less; the other statuses are decided as exactly |
| DataCapture.Repository.Apply | services/pixelrag/spm_poc/workflows.py:196-247 | through as many stores as updates, each update that is selected, matched, still unambiguous and still current is taken, and any other changes nothing; the counters are the updates taken, those skipped, and the growth of measurements and alerts |
| DataCapture.AlertsExactly | services/pixelrag/spm_poc/workflows.py:249-274 | an alert is raised exactly when both texts hold numbers, the first not zero, a tenth of it or more apart, and is critical exactly from a quarter on; it names the KPI and the two texts |
| DataCapture.Repository.ApplyOne | services/pixelrag/spm_poc/workflows.py:216-245 | an applicable update sets its KPI's actual and nothing else of it, records a measurement exactly when it has period, KPI and actual and none like it is there, and raises the alert of its movement |
| DataCapture.MeasurementsStayUnique | services/pixelrag/spm_poc/workflows.py:220-240 | no two measurements ever share name, period, document and actual |
| DataCapture.NamesStay | services/pixelrag/spm_poc/workflows.py:216-218 | applying renames, adds and removes no KPI |
| DataCapture.PreviewIsConsistent | services/pixelrag/spm_poc/workflows.py:181-189 | the updates of one preview that match one KPI were made against one actual |
| DataCapture.ApplyTwice | services/pixelrag/spm_poc/workflows.py:196-247 | applying such updates twice leaves any store as after one apply |
| DataCapture.UndoingUpdatesRepeatIff | services/pixelrag/spm_poc/workflows.py:196-247 | edited updates of which the second undoes the first can be applied twice without effect, on any store they apply to, if and only if neither movement is worth an alert |
| DataCapture.UndoingUpdatesRepeat | services/pixelrag/spm_poc/workflows.py:196-247 | so a rise from 1 to 2 and back in one list raises its alerts on every apply |
| DocumentLibrary.SeedKeepsSound | services/pixelrag/spm_poc/documents.py:86-111 | putting the built-in document in front, unless it is listed, keeps the other documents in order, ids distinct and the selection listed |
| DocumentLibrary.Library.Select | services/pixelrag/spm_poc/documents.py:138-147 | only a listed and ready document is selected; otherwise nothing changes |
| DocumentLibrary.Library.Upload | services/pixelrag/spm_poc/documents.py:177-216 | the checks apply in order; an accepted upload is appended as an uploaded, unselected document |
| DocumentLibrary.Library.SetStatus | services/pixelrag/spm_poc/documents.py:325-333 | one record changes its status in place |
| DocumentLibrary.Library.Index | services/pixelrag/spm_poc/documents.py:298-323 | the document ends ready and selected, or failed with the selection as it was; the built-in one is only marked ready when its index is there; no document is unlisted |
| DocumentLibrary.Library.Delete | services/pixelrag/spm_poc/visual_documents.py:25-57 | the document is cut out, the others keep their order, and a selection that pointed at it moves to the first ready one in the list or, when none is, to none |
| DocumentLibrary.RemoveKeepsSound | services/pixelrag/spm_poc/visual_documents.py:44-50 | after a delete the selection is none or a listed document |
| Ingestion.Runtime.Ingest | services/pixelrag/spm_poc/web.py:257-308 | a content is remembered only after upload and indexing both succeeded; otherwise the history is unchanged and it can be tried again |
| Ingestion.Runtime.ScanFile | services/pixelrag/spm_poc/web.py:233-308 | a file is skipped exactly when its content is remembered, else indexed or failed exactly as uploading and indexing go; it leaves the folder for processed or failed, and the history gains what was indexed |
| Ingestion.Runtime.ScanIngestionFolder | services/pixelrag/spm_poc/web.py:199-313 | one result for each supported file, in order; a content is skipped exactly when remembered or indexed earlier in the scan, so none is indexed twice while its entry stands, and any other is indexed or fails exactly as fated; processed and failed gain just those files, and unsupported ones stay |
| Ingestion.KeepStands | services/pixelrag/spm_poc/web.py:217-225 | the files kept are exactly those to keep, in order |
| Ingestion.Runtime.DeleteDocument | services/pixelrag/spm_poc/document_lifecycle.py:24-44 | a deleted document is unlisted and exactly its history entries go |
| Ingestion.Runtime.Serve | services/pixelrag/spm_poc/documents.py:119-216 | no request of a user unlists a document, so every history entry goes on naming a listed one |
| Ingestion.Runtime.SelectedIsListed | services/pixelrag/spm_poc/documents.py:132-147 | the selected id is always none or a listed document's |
| ApprovalWorkflow.CompileKeepsMeaning | packages/machines/src/approval-workflow.ts:272-616 | for every definition, the compiled machine goes through the same states and performs the same actions in the same order as the definition reads, on every run |
| ApprovalWorkflow.FinalAbsorbs | packages/machines/src/approval-workflow.ts:361-394 | a final state absorbs every event |
| ApprovalWorkflow.RulesCompileAlike | packages/machines/src/approval-workflow.ts:283-293 | which rule gates a transition is not compiled |
| ApprovalWorkflow.ReachableIff | packages/machines/src/approval-workflow.ts:361-570 | the states that runs come to are exactly the closure of the initial state over live transitions: those of states that are not final, leaving out separation of duties on anything but a decision |
| ApprovalWorkflow.NeverSelfApprovedIff | packages/machines/src/approval-workflow.ts:547-570 | no run lets a submitter take their own submission to approved if and only if the initial state is another and every way into approved from that closure carries the separation of duties, a check of the definition alone |
| ApprovalWorkflow.ApprovedBySomebodyElse | packages/machines/src/approval-workflow.ts:547-565 | under such a definition a run in approved came there by an approval or rejection event of somebody other than the submitter |
| ApprovalWorkflow.DefaultIsGuarded | packages/machines/src/approval-workflow.ts:148-216 | the default definition is such a definition |
| ApprovalWorkflow.GrantedOnce | packages/machines/src/approval-workflow.ts:148-216 | under the default definition the grant is emitted exactly once in a run that reaches approved, and otherwise never |
| ValueLifecycle.DefinitionAgrees | packages/machines/src/value-lifecycle.ts:14-52 | the stored definition and the machine lead every event in every state to the same state |
| ValueLifecycle.RankRises | packages/machines/src/value-lifecycle.ts:112-162 | the state's rank never falls and rises with every change of state |
| ValueLifecycle.ClosedWithoutStop | packages/machines/src/value-lifecycle.ts:112-162 | a run closed without a stop was submitted, approved, begun with a baseline existing then, tracked, and closed with realized entries, in this order, and its approval case is the submitted one |
| ValueLifecycle.CaseStays | packages/machines/src/value-lifecycle.ts:95-98 | once attached, the approval case stays |
| ValueLifecycle.ClosureAbsorbs | packages/machines/src/value-lifecycle.ts:160 | closure is final and no fact changes after it |
| Oidc.InvariantHolds | apps/backend/src/modules/auth/oidc-identity.service.ts:95-191 | every run of racing reconciliations and sign-ups keeps user ids unique and every identity with the user of the email it was linked under |
| Oidc.OneUserForEver | apps/backend/src/modules/auth/oidc-identity.service.ts:95-191 | all calls for one issuer and subject that ever succeed answer with the same user |
| Oidc.NoJoiningWithoutLinking | apps/backend/src/modules/auth/oidc-identity.service.ts:129-168 | with linking off an identity's user was created for it: it joins no earlier user and shares none with another identity |
| Oidc.JoinsOnlyByVerifiedEmail | apps/backend/src/modules/auth/oidc-identity.service.ts:123-147 | an identity is only ever recorded for the user of its token's own email, which is verified, folded and not blank |
| Oidc.StepsRunOut | apps/backend/src/modules/auth/oidc-identity.service.ts:99-191 | every step of a call brings it closer to its end; two transactions at most |
| Oidc.FaultlessCallsSucceed | apps/backend/src/modules/auth/oidc-identity.service.ts:95-191 | a call with a verified email whose own steps all work and whose new ids are free ends with a user, or is told that linking is not allowed, which happens only where it is not and the email has a user, whatever the others do: two attempts are enough |
| Oidc.FaultEndsTheCall | apps/backend/src/modules/auth/oidc-identity.service.ts:55-93 | the first fault of its own ends a call, and it answers that the identity cannot be provisioned, also when its last write took effect |
| OidcService.Database.Reconcile | apps/backend/src/modules/auth/oidc-identity.service.ts:55-93 | a call is a run of these steps, one for each fate it meets, that ends with the answer given; an invalid token changes nothing; a fault is answered as such; when none is met, a verified email and free new ids lead to a user, or to the refusal to link an email that has a user |
| OidcService.Database.Transact | apps/backend/src/modules/auth/oidc-identity.service.ts:104-169 | one transaction answers, or loses a race on a unique index and goes on to recover |
| OidcService.Database.LinkIdentity | apps/backend/src/modules/auth/oidc-identity.service.ts:129-147 | a success has recorded the identity for the user that was found |
| OidcService.Database.CreateUser | apps/backend/src/modules/auth/oidc-identity.service.ts:149-168 | a success has created user and identity together, under the verified email |
| OidcService.Database.FindUserByEmail | apps/backend/src/modules/auth/oidc-identity.service.ts:123-132 | an email that is taken leads to linking when allowed and to refusal when not |
| OidcService.Database.ReconcileFirstSeenIdentity | apps/backend/src/modules/auth/oidc-identity.service.ts:95-191 | at most two transactions, each followed by a look for the winner, end with the answer given |
| LoginRateLimiter.Limiter.Consume | apps/backend/src/modules/auth/login-rate-limiter.service.ts:11-60 | an attempt is allowed exactly when it is among the first maximum of its window; the remaining count and the wait agree with it |
| LoginRateLimiter.Limiter.Reset | apps/backend/src/modules/auth/login-rate-limiter.service.ts:62-67 | a reset forgets the key's attempts and no other's |
| LoginRateLimiter.CurrentWindow | apps/backend/src/modules/auth/login-rate-limiter.service.ts:11-60 | the counter holds the attempts since the first one after the previous window was over, and expires one window after that one |
| LoginRateLimiter.AtMostTwice | apps/backend/src/modules/auth/login-rate-limiter.service.ts:11-60 | without resets, any interval as long as the window lets at most twice the maximum less one through |
| LoginRateLimiter.BoundIsTight | apps/backend/src/modules/auth/login-rate-limiter.service.ts:11-60 | and for every maximum and window some attempts reach that bound |
| Rules.Partition | packages/rules/src/evaluators/rollup.ts:11-20 | the ids a rollup reports are those of the children with a value and of the children without, each selection in the order given, and every child is in exactly one |
| Rules.RollupMeans | packages/rules/src/evaluators/rollup.ts:11-100 | the value of a rollup over the children with a value: their sum, the quotient of sum and number, the quotient of weighted sum and weights, refused when a weight is missing or they add up to none, or the worst value by the direction; none when no child has one |
| Rules.SumOfSums | packages/rules/src/evaluators/rollup.ts:30-39 | a sum rollup of sum rollups is the sum rollup of all children, missing values included |
| Rules.AverageBetween | packages/rules/src/evaluators/rollup.ts:41-90 | an average, weighted or not, lies between any bounds of the included values |
| Rules.Extreme | packages/rules/src/evaluators/rollup.ts:92-100 | the worst value is one of the included ones and none is worse |
| Rules.RagBounds | packages/rules/src/evaluators/rag-aggregation.ts:14-59 | scores lie between 0 and 1, and the weighted score never above the worst child's |
| Rules.RagMeans | packages/rules/src/evaluators/rag-aggregation.ts:14-59 | the worst child's status and score, or the weighted mean of the scores with the status its two thresholds give |
| Rules.WorstChildIsWorst | packages/rules/src/evaluators/rag-aggregation.ts:18-32 | the worst-child status is some child's, and no child's is worse |
| Rules.RagPermutes | packages/rules/src/evaluators/rag-aggregation.ts:14-59 | the order of children changes neither score nor status |
| Rules.RagMonotone | packages/rules/src/evaluators/rag-aggregation.ts:14-59 | worsening a child improves neither score nor status |
| Rules.MatchedBand | packages/rules/src/evaluators/threshold-status.ts:8-25 | the matched band is the first that the value satisfies; none matches exactly when the evaluator throws |
| Rules.LargerMatchesNoLater | packages/rules/src/evaluators/threshold-status.ts:8-25 | when all bands are lower bounds, a larger value never matches a later band |

## Left out

- parseTimeOfDay in the cadence engine: text parsing of a validated pattern; the model starts from hours, minutes and seconds.
- The theme and record cascades around `acceptKpi` and `acceptOkr`, and the context cache shared by a batch: each is one call that may fail, modelled as such.
- TimeZones.FromZonedParts: instants before year 100 are outside the contract, since Date.UTC reads the years 0 to 99 as 1900 to 1999, and so is the upper limit of JavaScript dates.
- Cadence.OccurrencesBetween: zones are functions with offsets under a day; IANA data and its lookup through Intl are not modelled.
- Json.TextInjective: numbers are kept as their text, so the formatting of JavaScript numbers is not modelled; characters are Unicode scalar values, so lone surrogates do not occur.
- CanonicalJson.ForgetsOrderIff: localeCompare, with JavaScript's listing of integer-like keys first, is an arbitrary total preorder on keys.
- Journal.TamperEvidence: the digest is an arbitrary function to 64 hexadecimal digits, and the theorem hands over a collision instead of assuming there is none; row ids and createdAt are not hashed by the program either.
- Journal.Table.Append: the advisory lock is modelled as appends that happen one at a time; a clash of generated row ids is not modelled.
- listEntries and its actor search: a filtered listing.
- Outbox.InvariantHolds: all relays are taken to have the same subscribers registered; deploys that change them are not modelled.
- Handling of dispatched jobs, retries, backoff and the dead-letter queue: behind the queue.
- Forecast.MakeForecast: arithmetic is exact, and rounding the forecast to two decimals is left out, because floating-point error is not the point.
- SmartImport.NamesStayUnique: normalisation is arbitrary except that it keeps the empty text empty.
- DataCapture.Judge: the similarity measure is arbitrary; generated ids and times are left out of measurements and alerts.
- Ingestion.Runtime.ScanIngestionFolder: file moves succeed and requests are served one at a time, so a delete during a scan is not modelled; failures before a file is read are not either.
- DocumentLibrary.Library.Upload: normalising to PDF and the indexer are taken as succeeding or failing; stored files and index directories are not modelled.
- Oidc.InvariantHolds: the groups and validation times kept with an identity are not modelled; they take no part in the reconciliation.
- LoginRateLimiter.Limiter.Consume: a window of zero seconds, with which Redis drops the counter at once, is excluded; time on the Redis server does not go back in the theorems.
- Rules: JavaScript numbers are exact reals; NaN and infinities are excluded by the schemas.
- tRPC routers, zod parsing, error-code mapping, LLM and VLM providers, retrieval, the frontend, seeds and infrastructure: no invariant of their own.
- Gate criteria, variance alerts, event classification, authentication callbacks, session parsing and password hashing: single-branch checks that would only add easy members.
