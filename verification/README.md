# Resident: a verified model

Resident keeps an append-only event log; everything else is a state machine that writes to the log or a
view derived from it. This project models the parts of the backend where that design carries hard
promises, and proves them for every log, every run or every input:

- **The log** (`EventLog`, `EventLinks`): append with its link check, the bounded reads, causality and time order.
- **Graph walks over citations** (`Distance`, `Provenance`, `SelfDynamics`, `Reachability`): the
  breadth-first provenance walk with its two caps, the memoised longest chain, the shared-memo closure.
- **Genesis of private projects** (`Genesis`, `GenesisCriterion`, `Projects`, `ProjectLife`, `ProjectExcess`):
  the structural criterion, its permanence, and when a question keeps to one project.
- **The circadian life** (`MentalState`, `ThreadLife`, `Circadian`, `CircadianMachine`, `CircadianEvidence`, `CircadianBeat`,
  `CircadianLife`, `WakeBound`): evidence, decision, beats, what a beat writes, restarts and the number of wakes
  a run can take.
- **Recall** (`Clusters`, `Recall`, `MultiRecall`, `Hygiene`): leader clustering, greedy MMR and its
  legacy twin, the round-robin merge, the incremental hygiene scan.
- **Lifecycles without tombstones** (`Questions`, `QuestionMeetings`, `Bridge`, `BridgeOnce`, `BridgePast`,
  `Continuity`, `UserReturn`): a question dies by silence, a question met again may wake the mind's own threads, and a
  death is reported across an absence.
- **The world window** (`WorldWindow`, `Impressions`, `WorldLife`, `WorldLooks`, `WorldRuns`, `WorldExcess`,
  `WorldHorizon`): guards, daily caps over bounded reads, the rest between two looks, the choice of material,
  the re-observation horizon, the promotion of impressions.
- **Smaller machines** (`SleepSearch`, `Sleep`, `SelfThreads`, `SelfExcess`, `SleepCycle`, `SleepPicks`,
  `SleepRecords`, `SleepNoop`, `SleepLife`, `SleepQuiets`, `SleepNight`, `RoutePolicy`, `RouteSignals`,
  `RoutePromises`, `RouteAudit`, `Scheduler`): a consolidation cycle, the route policy and its audit, the asyncio
  scheduler.
- `Basics` and `Sorting` hold what several of them share.

## How the model reads the source

An event's id is its position in the log (`seq` minus one). Times are reals in seconds, vectors are
sequences of reals, embeddings and similarities are parameters, and the draws of a random generator are
parameters in [0, 1). Read limits (`list(limit, ...)`) are parameters of the functions and theorems. The
store's clock never runs backwards, equals the beat time during a beat, and an observation touches
questions at its own instant, as under the virtual clock. Parts of the source that update objects in place
are classes, loops are loops, and each is proved against a function or predicate that says what it means. What
the functions of an operation come to is then said over the fields of the events: which events are cited, counted,
picked or due, and what every written event holds.

Where a stated promise fails, the code is kept and the exact condition is proved; a concrete input shows that
the failing side occurs, unless the condition is a plain guard on the input. The main cases:

- The closure over recalled ids is exact if and only if no two reached ids recall each other; append
  validates links but not recalled ids. The detector of genesis is exact all the same: what an entry misses
  stands in another root's entry, so a tangled dictionary never costs a candidate.
- Clusters do not "stay stable as the store grows" once a poolable event slides out of the read window, and
  an event joins the most similar cluster, not the first one within tau: the two rules agree if and only if no
  cluster is more similar than the first within tau.
- The legacy recall compares scores with an index, so its first pick is the runner-up.
- A question is reported dormant once as long as the read of earlier messages is exact (at most 200); past
  that it is reported again at every return, as one log for every limit shows. Its two facts in one absence,
  of a question met again that then dies, are not merged, because their keys are spelled differently.
- A question keeps to one project unless a check finds all of its project rows past the read of the oldest
  5000; then it writes another, and for every limit there is a life of two checks that does.
- The silence of a mind that was never messaged reads as a constant thirty days. By day and rested it sleeps
  with up to 478 active threads, by night with up to 598, and it is kept awake for ever if and only if it has
  at least 684.
- The genesis criterion is that of the living detector; the audit script it is said to mirror also counts the
  sources behind revisits, and is not part of this model.
- The daily caps of the world window count the oldest rows first. A day keeps its caps if none of its rows lies
  past the read; once the read is full of earlier days a day can reach the twelve looks the cooldown allows,
  so at the default cooldown every cap from one to eleven can be exceeded and no other.
- No impression is promoted twice, because the read of promotions is as long as the read of impressions; that
  holds for all logs if and only if it is at least as long.
- The re-observation horizon is written in days and compared with seconds. It holds something back if and only
  if it exceeds the cooldown number for number, and the rule in days is broken if and only if the horizon in
  days exceeds the cooldown: under the active profile the same item is looked at twice within 45 minutes.
- The hygienic recent window holds the oldest of the kept events, not the newest, as soon as more are kept
  than asked for.
- The bridge from questions to threads reads the oldest rows. It wakes exactly the dormant threads that resonate
  if and only if the newest lifecycle event inside the read and the newest of all agree on their rest; past the
  read it can activate a thread that is already active, and one observation wakes a thread once for each
  question it meets that resonates.
- The exploration noise the route policy defaults to is large enough to choose continuity with nothing new;
  when rest dominates the history the margin is another one, and exact.
- A sleep cycle whose only act is to drop a near-identical thread is labelled consolidated, not noop: the
  second of two nights with the same pair of memories is one.
- The cap on self threads and the ban on near-identical ones look at the newest thread rows. The cap holds in
  every stretch of one row more than the read holds and can be exceeded with two more, and two like threads lie
  at least a read apart; copies spaced that far all pass, in any number.
- A request is swallowed by the scheduler exactly if the loop wakes into an outside caller's tick while it is
  open and the loop is not being stopped.

## Model

| member | source | states |
|---|---|---|
| `EventLog.EventStore.Validate` | backend/src/resident/event_store.py:128-144 | No dangling link is found exactly when every link of the draft names a stored event or a name; the one reported is a link of the draft and dangles. |
| `EventLog.EventStore.Append` | backend/src/resident/event_store.py:105-126 | A draft is stored whole, at the clock, exactly when its links resolve, and rejected whole otherwise; every reachable log stays causal and ordered in time. |
| `EventLinks.LinksResolveIs` | backend/src/resident/event_store.py:128-144 | A draft resolves exactly if no cause and no relation of it is the id of an event yet to come. |
| `EventLog.CausalAppend` | backend/src/resident/event_store.py:128-144 | The store invariant: accepted events keep every link pointing to a strictly earlier event. |
| `EventLinks.CausalIs` | backend/src/resident/event_store.py:128-144 | A causal log is one whose causes and relations point strictly backwards. |
| `EventLinks.FamilyOf` | backend/src/resident/models.py:82-84 | The family of every type the model lists. |
| `Provenance.MonitorProvenance` | backend/src/resident/monitor.py:114-158 | For any citation graph: each node carries its exact shortest distance; the answer is whole if and only if the events within `depth` hops fit under the node cap, and then every edge ends in a node; when the cap is hit every event one layer nearer than a returned node is returned; the edges are exactly the citations of the expanded nodes, each once. |
| `Provenance.EdgesAreCitations` | backend/src/resident/monitor.py:142-155 | An edge is a citation in the log and the other way round: the cited id stands among the causes, the relations or the recalled ids of the citing event, as the kind of the edge says. |
| `Provenance.CitationsAreFields` | backend/src/resident/monitor.py:142-155 | The graph that is walked joins an event to exactly the existing events that one of its three fields names. |
| `Provenance.Walk` | backend/src/resident/monitor.py:126-156 | The queue loop ends with exact distances and exactly as many nodes as the smaller of the reachable events and the cap. |
| `Provenance.Expand` | backend/src/resident/monitor.py:138-156 | Queues every existing cited event one hop further out and records each (from, to, kind) citation once. |
| `Provenance.Ordered` | backend/src/resident/monitor.py:157 | Sorting by depth, then position, keeps every node and its depth. |
| `Distance.DistanceIsShortestPath` | backend/src/resident/monitor.py:126-156 | The layer number of an event is the length of a shortest citation path to it, both ways. |
| `Distance.SecondArrival` | backend/src/resident/monitor.py:132-134 | A later arrival is never shorter, so the `min` on revisiting a node changes nothing. |
| `Distance.FirstArrivalIsExact` | backend/src/resident/monitor.py:135-137 | The first time an event leaves the queue its depth is its exact distance. |
| `SelfDynamics.SelfThreadGenerationDepth` | backend/src/resident/self_dynamics.py:129-150 | On every log the store can reach, the metric is the length of the longest chain of self-origin thoughts of one thread, each citing an earlier one; zero exactly without thoughts. |
| `SelfDynamics.ChainIs` | backend/src/resident/self_dynamics.py:139-146 | A chain in terms of the events: each thought is earlier than the one before it, which is related to it, and of the same thread. |
| `SelfDynamics.SelfThoughtsAre` | backend/src/resident/self_dynamics.py:129-133 | The thoughts searched are exactly those of the read that are the mind's own and not older than the window. |
| `SelfDynamics.DepthSearch.Depth` | backend/src/resident/self_dynamics.py:136-147 | The memoised search returns the longest chain from its thought and leaves only such entries in the memo, although a hit may come from another root. |
| `SelfDynamics.RootPositionIsIdle` | backend/src/resident/self_dynamics.py:142-145 | On a causal log the test against the root's position accepts the same citations as the test against the citing thought's own position. |
| `SelfDynamics.RootsAgree` | backend/src/resident/self_dynamics.py:134-147 | Why one memo serves all roots: without it, every root of the thread would find the same value at a thought. |
| `SelfDynamics.RootsDisagreeOffStore` | backend/src/resident/self_dynamics.py:134-147 | On a log the store would reject, two roots find different values at one thought: the memo relies on the store invariant. |
| `Reachability.TransitiveSets` | backend/src/resident/private_projects.py:92-112 | The shared-memo closure never over-approximates; whatever some thought reaches stands in some thought's entry, on every graph; and all its entries are the exact reflexive-transitive closure if and only if no two different ids reached from the thoughts lead to each other, whatever the order of the thoughts. |
| `Reachability.ReachesIs` | backend/src/resident/private_projects.py:96-109 | What reaching means: an id leads to itself and, if it is an event of the log, to whatever the ids it recalled lead to. |
| `Reachability.SomeRootHolds` | backend/src/resident/private_projects.py:94-112 | However tangled the recalls, an id that one thought reaches stands in the entry of the thought whose walk filled it. |
| `Reachability.Closure.Reachable` | backend/src/resident/private_projects.py:96-109 | One recursive call, for any graph: it terminates, fills only reachable ids, and returns the memo entry or, for an id still open, nothing. |
| `Reachability.ExactIffUntangled` | backend/src/resident/private_projects.py:94-112 | Exactness of every entry is equivalent to the absence of cycles of two or more ids below the roots. |
| `Reachability.RecallsBackIsUntangled` | backend/src/resident/private_projects.py:96-109 | When recalled ids only name earlier events no such cycle exists. |
| `Reachability.EntwinedPair` | backend/src/resident/event_store.py:128-144 | Append does not forbid mutual recalls (recalled ids are not links): a two-event log with an inexact entry. |
| `Genesis.GenesisCandidates` | backend/src/resident/private_projects.py:69-153 | On every log the reported questions are exactly those of the read that satisfy the structural criterion, in order: a short entry never costs a candidate. |
| `GenesisCriterion.QualifiesIs` | backend/src/resident/private_projects.py:114-153 | The criterion over the events: met twice, at least once a week after it was asked; grown from two sources and from no conversation; recalled, directly or not and itself or what it grew from, by a thought of the mind's own; never met but through what was observed. |
| `Genesis.QuestionTest` | backend/src/resident/private_projects.py:115-152 | The six tests on one question hold together if and only if the declarative criterion does. |
| `Genesis.LinkTest` | backend/src/resident/private_projects.py:139-140 | Some own thought's recalled set meets the question's material if and only if some own thought grew from it. |
| `Genesis.RevisitTest` | backend/src/resident/private_projects.py:127-138 | The revisit counts, the week-long span and the cause test mean what the criterion says. |
| `Genesis.EvidenceTest` | backend/src/resident/private_projects.py:116-126 | Two different sources, no conversation event: judged over the evidence that exists. |
| `Projects.GenesisIsPermanent` | backend/src/resident/private_projects.py:114-153 | A qualifying question goes on qualifying on a longer log if and only if every later revisit of it is caused by observations alone. |
| `Projects.GenesisIsPermanentAsRead` | backend/src/resident/private_projects.py:75-77 | The same through the bounded read: if and only if every later revisit inside the read is caused by observations alone. |
| `Projects.CheckGenesis` | backend/src/resident/private_projects.py:231-281 | One check adds, in order, one project for questions that qualify and have none among the project rows read, each citing its question, the evidence and the newest revisit if that is of the question; all of them unless an append is rejected, which happens only if some evidence dangles; nothing when the flag is off. |
| `Projects.FoundedCites` | backend/src/resident/private_projects.py:252-278 | The project written for a question names it, is related to it and to its evidence, and is caused by the newest revisit of all if that is of this question, by nothing otherwise. |
| `ProjectLife.SecondCheckIsIdle` | backend/src/resident/private_projects.py:239-251 | While the project rows fit the read of projects, a check straight after a complete check adds nothing. |
| `ProjectLife.ExactlyOneProject` | backend/src/resident/private_projects.py:231-281 | Over any life of checks, whole or cut short, and other writes, without a bound on the project rows: a question that qualified at a whole check has a project at the end, and no question has two if and only if no check wrote one for a question whose projects all lay past its read. |
| `ProjectLife.OneProjectEachInLife` | backend/src/resident/private_projects.py:248-281 | While the project rows fit the read of projects no question ever has two, also across checks cut short by a rejected append. |
| `ProjectLife.DuplicatedIff` | backend/src/resident/private_projects.py:248-257 | A complete check writes a further project for a question that has one if and only if the question qualifies and all its project rows lie past the read. |
| `ProjectLife.EmissionKeepsOneEachIff` | backend/src/resident/private_projects.py:248-278 | Any check, whole or cut short, keeps every question at one project if and only if it writes none for a question whose projects lie past the read. |
| `ProjectLife.OneProjectEachIff` | backend/src/resident/private_projects.py:248-281 | The same over whole lives: no question has two projects at the end if and only if no check of the life did so. |
| `ProjectLife.SecondCheckIsIdleIff` | backend/src/resident/private_projects.py:239-251 | On any log, a complete check straight after a complete one writes nothing if and only if no qualifying question has all its projects past the read. |
| `ProjectExcess.TwoProjectsForOneQuestion` | backend/src/resident/private_projects.py:248-251 | Whatever the row limit of the read of projects: a life of two complete checks at the end of which a question has two projects. |
| `ProjectLife.ProjectsAreInert` | backend/src/resident/private_projects.py:260-278 | The projects written bring about no further genesis. |
| `ProjectExcess.GenesisIsPossible` | backend/src/resident/private_projects.py:114-153 | The criterion can be met by any number of questions at once, on logs that the store accepts: exactly the questions of the tales qualify. |
| `MentalState.AllEvents` | backend/src/resident/mental_state.py:58-65 | The paging loop reads exactly the log, for any page size. |
| `MentalState.Mind.Apply` | backend/src/resident/mental_state.py:67-127 | The in-place update of the views is the fold step. |
| `MentalState.StateIsLastLifecycle` | backend/src/resident/mental_state.py:67-116 | A thread's state is decided by the newest of its lifecycle events, whatever touched it since. |
| `ThreadLife.StateIs` | backend/src/resident/mental_state.py:67-116 | Over the events: a thread is known exactly if something began, moved, rested or closed it, and its state is what the newest of those events made it. |
| `ThreadLife.ActiveAre` | backend/src/resident/mental_state.py:67-116 | A thread is active exactly if the newest of those events woke it or met it again. |
| `MentalState.EventsRunForward` | backend/src/resident/mental_state.py:118-127 | A thread's events run forward without repeats, belong to it and end with its last event. |
| `ThreadLife.EventsAre` | backend/src/resident/mental_state.py:67-127 | The events listed under a thread are those that moved it, or visited it once it was known, since it last began. |
| `Circadian.ThresholdsStayOrdered` | backend/src/resident/circadian.py:338-350 | For all evidence: 0 <= quiet <= drowsy <= sleep threshold when the bases are ordered. |
| `Circadian.DescentIsMonotone` | backend/src/resident/circadian.py:325-374 | For an awake machine outside the morning, more silence, more recent wakes, night, or fewer active threads, in any combination, never give a shallower state. |
| `Circadian.SilencePutsToSleep` | backend/src/resident/circadian.py:343-353 | SLEEP is chosen exactly from a finite silence on, for every number of active threads. |
| `Circadian.NeverMessagedMind` | backend/src/resident/circadian.py:325-353 | A never-messaged mind, awake and outside the morning, sleeps if and only if the kept share of the threshold times the stretch of its threads is at most 120. |
| `Circadian.RestedBounds` | backend/src/resident/circadian.py:338-353 | Rested, it sleeps exactly with at most 478 active threads by day and 598 by night. |
| `Circadian.VetoIsPermanentIff` | backend/src/resident/circadian.py:344-353 | Where the promise of no permanent veto ends: no hour outside the morning and no number of recent wakes ever puts it to sleep, if and only if it has at least 684 active threads. |
| `Circadian.VetoedLog` | backend/src/resident/circadian.py:228-291 | For every such number of threads some log reads as that mind. |
| `Circadian.NeverMessagedSilence` | backend/src/resident/circadian.py:228-291 | Without user messages the silence read is the constant thirty days. |
| `CircadianMachine.Machine.MoveTo` | backend/src/resident/circadian.py:419-477 | A change of state writes one event from the old to the new state and keeps memory and log in agreement; none is written for a self-loop. |
| `CircadianMachine.Machine.Assess` | backend/src/resident/circadian.py:408-417 | Decides, records a change exactly when the state differs, and remembers it. |
| `CircadianMachine.Orchestrator.Beat` | backend/src/resident/circadian.py:557-606 | One beat does to memory, log, counters and trace exactly what the beat function says; a beat whose engine raises is counted but not traced. |
| `CircadianEvidence.WakesExactlyWhenDue` | backend/src/resident/circadian.py:579-593 | A WAKE beat always calls the mind, a sleeping one never, and an active, quiet or drowsy one exactly if a user message is later than every wake or every wake lies at least the interval of that state back. |
| `CircadianEvidence.ConsolidatesExactlyWhenDue` | backend/src/resident/circadian.py:571-578 | A beat consolidates exactly if it finds the mind asleep and every completed sleep at least the consolidation interval back, or thirty days if that is shorter. |
| `CircadianBeat.BeatWrites` | backend/src/resident/circadian.py:557-606 | What a beat in which nobody raises leaves in the log, and nothing else: the change of state, if there is one, citing the newest message; then for a mind that is up its wake, if it is called, and what the window adds; for a sleeping one nothing, or the work of the sleep engine between two changes of state. |
| `CircadianBeat.BrokenBeatWrites` | backend/src/resident/circadian.py:557-606 | A beat in which an engine raises leaves the beginning of what it would have written; a mind whose sleep engine raised stays consolidating. |
| `CircadianBeat.BeatReports` | backend/src/resident/circadian.py:557-606 | When a beat raises, said of the drafts of its engines, what it reports when it does not, and which wakes count. |
| `CircadianEvidence.SilencesRead` | backend/src/resident/circadian.py:252-266 | The silences of the user, of the outside and of the sleep engine are the times since the newest such event, thirty days without one; the row limits of the reads do not matter. |
| `CircadianEvidence.ActivityRead` | backend/src/resident/circadian.py:483-500 | The silence of the mind is the time since the newest of the last 300 events that is neither hidden nor a bracket of the runtime. |
| `CircadianEvidence.WakesRead` | backend/src/resident/circadian.py:268-278 | The recent wakes are those of the last six hours, at most five hundred. |
| `CircadianEvidence.AwakeDecision` | backend/src/resident/circadian.py:325-362 | For a mind that is up, each of the four states with all that must hold for it. |
| `CircadianEvidence.AsleepDecision` | backend/src/resident/circadian.py:313-323 | A sleeping mind is woken exactly by the user, by the outside or by the morning; a waking one is active next. |
| `CircadianEvidence.InWindowIs` | backend/src/resident/circadian.py:106-111 | An hour lies in a window, across midnight or not, exactly if it comes before the window's end going on from its start. |
| `CircadianLife.RunKeeps` | backend/src/resident/circadian.py:202-218 | Over every run of beats, other writes and restarts the memory equals the state rebuilt from the log, and the recorded changes form one chain of legal transitions starting in ACTIVE, none a self-loop. |
| `CircadianLife.SuccessiveChangesMeet` | backend/src/resident/circadian.py:419-456 | Each recorded `from` is the previous recorded `to`. |
| `CircadianLife.RestartsAreInvisible` | backend/src/resident/circadian.py:202-218 | Inserting restarts anywhere, also after a consolidation that raised, changes no decision, no action and no event. |
| `CircadianLife.DecisionIsLegal` | backend/src/resident/circadian.py:295-362 | WAKE is chosen exactly from an asleep state with a wake trigger, and is followed by ACTIVE. |
| `CircadianLife.WakingThenActive` | backend/src/resident/circadian.py:320-323 | In every run the beat after a WAKE beat is ACTIVE, whatever happens between. |
| `CircadianLife.NightIsStable` | backend/src/resident/circadian.py:386-404 | Once asleep with no message or experience in reach, every beat outside the wake window stays asleep and takes no wake, as long as the sleep engine writes neither. |
| `SleepNight.CycleIsInternal` | backend/src/resident/sleep.py:119-349 | A sleep cycle writes no user message and no experience. |
| `SleepNight.CycledWritesCycle` | backend/src/resident/sleep.py:119-349 | What a cycle leaves in the log is such a run of events, brackets included. |
| `SleepNight.RealNightIsStable` | backend/src/resident/circadian.py:386-404 | The same stability for nights of real sleep cycles, whole or cut short by an error, with nothing assumed of what they write. |
| `WakeBound.WakesAreBounded` | backend/src/resident/circadian.py:557-593 | Over any run, (wakes - 1 - re-openings - user messages of the run) x shortest awake interval <= elapsed time, and the messages answered by prompt wakes are all different. |
| `WakeBound.TallyCountsWakes` | backend/src/resident/circadian.py:579-593 | The tally behind the bound counts exactly the beats that completed a wake. |
| `WakeBound.WokeForAReason` | backend/src/resident/circadian.py:649-672 | A completed wake is a re-opening, the first, answers a message newer than the last wake, or comes an interval after it. |
| `Clusters.FindClusters` | backend/src/resident/semantic.py:331-362 | The in-place pass computes the leader clustering of the pool. |
| `Clusters.PoolIs` | backend/src/resident/semantic.py:278-284 | The pool is exactly what is not hidden, has words and is not of the mind's bookkeeping, among the newest events, oldest first. |
| `Clusters.PoolableByType` | backend/src/resident/semantic.py:48-48 | Bookkeeping is told by the six beginnings of the event type. |
| `Clusters.JoinRule` | backend/src/resident/semantic.py:340-355 | An event joins the first most similar cluster if that reaches a positive similarity of at least tau, and opens its own cluster exactly if none does. |
| `Clusters.ClustersPartitionPool` | backend/src/resident/semantic.py:336-362 | Counted with multiplicity, the members of all clusters are the pool. |
| `Clusters.SeedsComeFirst` | backend/src/resident/semantic.py:352-355 | Every cluster begins with its seed. |
| `Clusters.CentroidsAreMeans` | backend/src/resident/semantic.py:346-350 | Every running centroid is the exact mean of its members' vectors. |
| `Clusters.LongerPoolExtends` | backend/src/resident/semantic.py:331-335 | A longer pool keeps every earlier cluster: its place, its seed, its members. |
| `Clusters.StableUnlessPoolSlides` | backend/src/resident/semantic.py:334-336 | As the store grows by one event the clusters stay if and only if no poolable event slides out of the read window. |
| `Clusters.RulesAgreeIff` | backend/src/resident/semantic.py:332-345 | The documented rule (first cluster within tau) and the code's rule (most similar) place an event alike if and only if the first cluster within tau is positively similar and none is more similar. |
| `Clusters.FirstWithinTauIsNotTheRule` | backend/src/resident/semantic.py:332-345 | A pool of three events on which the two rules differ. |
| `Recall.RecallDiverse` | backend/src/resident/semantic.py:299-327 | Greedy MMR returns min(n, positive pool) distinct events, each a best pick over all remaining, ties to the more similar. |
| `Recall.PicksAreRelevantAndNew` | backend/src/resident/semantic.py:314-321 | Every later pick beats every entry left over in 0.7 times its similarity to the query less 0.3 times its largest similarity to the events picked before. |
| `Recall.RedundancyIsLargest` | backend/src/resident/semantic.py:316-317 | The penalty is the largest similarity to an event already picked: none exceeds it and one reaches it. |
| `Recall.Pick` | backend/src/resident/semantic.py:314-321 | One inner pass finds the first entry of greatest relevance. |
| `Recall.FirstPickIsMostSimilar` | backend/src/resident/semantic.py:308-321 | The first pick is the most similar event of all. |
| `Recall.LegacyPick` | backend/src/resident/memory.py:287-299 | The legacy inner pass, which compares scores with an index, computes the stated function. |
| `Recall.LegacyTakesFirstPositive` | backend/src/resident/memory.py:292-294 | On scores up to 1 the legacy pass takes the first positive score after the first entry. |
| `Recall.LegacyPickIsBestIff` | backend/src/resident/memory.py:286-295 | On scores of at most one the legacy pick is a greatest one if and only if the first positive score after the very first entry (or that entry, if there is none) is exceeded neither by the very first entry nor by any later one. |
| `Recall.LegacyFirstPick` | backend/src/resident/memory.py:286-295 | The first legacy pick is the runner-up as soon as two events match, and a best pick exactly if only one matches or the first two tie, whatever the order among equals. |
| `MultiRecall.Merge` | backend/src/resident/memory.py:487-502 | The merge with its early return is the first `cap` entries of the duplicate-free round-robin interleaving. |
| `MultiRecall.HitsStandInTurn` | backend/src/resident/memory.py:492-498 | Hit i of path p stands in the interleaving right after the hits that are lexicographically earlier in (i, p). |
| `MultiRecall.InterleavingIsWhole` | backend/src/resident/memory.py:492-498 | The interleaving holds every hit of every path and nothing more. |
| `MultiRecall.DedupKeepsFirsts` | backend/src/resident/memory.py:489-498 | No event repeats and each keeps the place of its earliest occurrence. |
| `MultiRecall.EveryPathIsHeard` | backend/src/resident/memory.py:492-500 | If the cap is at least the number of paths, the first hit of every non-empty path is there. |
| `MultiRecall.DefaultCapCutsNothing` | backend/src/resident/memory.py:487 | With the default cap nothing is cut. |
| `Hygiene.Scanner.Scan` | backend/src/resident/memory.py:142-156 | However appends and scans interleave, the incremental state is the causal verdict on the scanned prefix, and a scan advances by at most the read limit. |
| `Hygiene.Scanner.IsEcho` | backend/src/resident/memory.py:70-94 | The echo test on the accumulated fields. |
| `Hygiene.EchoIsVerdict` | backend/src/resident/memory.py:70-94 | The test on the fields means: the text holds a cited earlier text of twelve characters or more, or repeats an earlier text. |
| `Hygiene.PollutedIs` | backend/src/resident/memory.py:62-94 | The verdict over the events: a thought that begins like a route, or a note of the mind's that holds a cited earlier text of twelve characters or more or repeats an earlier one. |
| `Hygiene.VerdictIsFinal` | backend/src/resident/memory.py:53-57 | An event's verdict depends on earlier events only and never changes as the log grows. |
| `Hygiene.OneStatePerPrefix` | backend/src/resident/memory.py:142-156 | The verdicts determine the whole state, so an incremental scan equals a one-shot scan. |
| `Hygiene.KeptNotesAreNew` | backend/src/resident/memory.py:94 | Among consolidation and share notes the pool keeps none that repeats an earlier text. |
| `Hygiene.Live` | backend/src/resident/memory.py:142-156 | After any interleaving that ends in a sweep within the read limit, exactly the polluted events of the log are excluded. |
| `Hygiene.RecentForRecall` | backend/src/resident/memory.py:180-190 | The window is the first `n` of the newest kept events, oldest first. |
| `Hygiene.KeptAre` | backend/src/resident/memory.py:180-190 | The kept events are exactly those neither hidden nor excluded among the newest. |
| `Hygiene.WindowIsRecentIff` | backend/src/resident/memory.py:187-189 | Of a pool of at least `n` kept events it holds the `n` most recent if and only if exactly `n` are kept. |
| `Questions.QuestionState` | backend/src/resident/world.py:838-875 | One row per listed question, in order, with its last touch, revisit count and derived dormancy. |
| `Questions.TouchOpenQuestions` | backend/src/resident/world.py:699-729 | Exactly the open questions on the observed topic asked before the observation are met again, in order, each with a revisit citing both and the activations the bridge finds on the log so far; successive touches stay at most `dormant_s` apart. |
| `QuestionMeetings.TouchableIs` | backend/src/resident/world.py:704-713 | A question is met again exactly if it is among those read, about the topic observed, asked before, and asked or met again, in a revisit among those read, no longer ago than the dormancy. |
| `QuestionMeetings.MeetingsAreRecorded` | backend/src/resident/world.py:714-729 | Every event this writes is the revisit of a touched question, citing the observation and the question, or the activation of a thread, citing that revisit and the question. |
| `Questions.TouchedAreRevisited` | backend/src/resident/world.py:707-728 | Whatever the bridge writes in between, the questions revisited are the touched ones, each once, in order. |
| `Questions.LastTouchAppend` | backend/src/resident/world.py:850-863 | What one more event does to a question's last touch, through the bounded read. |
| `Questions.DeathIsPermanent` | backend/src/resident/world.py:699-703 | A question once dormant keeps its last touch on every continuation by a disciplined writer: it never re-opens. |
| `Questions.NeverTouchedAgain` | backend/src/resident/world.py:702-711 | No later event of such a continuation revisits it. |
| `Questions.Live` | backend/src/resident/world.py:699-729 | In every run in which only the window writes revisits, successive touches are at most `dormant_s` apart. |
| `Bridge.BridgeQuestion` | backend/src/resident/world.py:731-779 | One activation, citing the revisit and the question, for each dormant thread whose basis resonates, in order of first mention; nothing when the flag is off or the question has no text. |
| `QuestionMeetings.BridgedIs` | backend/src/resident/world.py:731-767 | On every log: a thread is woken exactly if the question has words, the newest move of the thread inside the read put it to rest, and the newest of its beginnings there names a memory with words that is close enough. |
| `Bridge.TakeSurvey` | backend/src/resident/world.py:745-760 | The pass over the events gathers each thread's last reading and the basis of the self threads. |
| `Bridge.BestResonance` | backend/src/resident/world.py:764-770 | The running best reaches the gate exactly if the gate is not positive or some basis memory with text reaches it. |
| `Bridge.BridgeReadsTheMentalState` | backend/src/resident/world.py:745-760 | On threads that only the mind creates and nobody closes, the bridge's own reading is the mental state's. |
| `Bridge.BridgeWakesTheRested` | backend/src/resident/world.py:745-779 | Such a thread is activated if and only if the newest of its lifecycle events inside the read put it to rest and its basis, as read, resonates. |
| `Bridge.BridgeWakesTheDormant` | backend/src/resident/world.py:745-779 | It is activated exactly when the mental state has it dormant and it resonates, if and only if the read and the whole log agree on its last rest or nothing resonates; the read is the whole log while it fits. |
| `Bridge.StaleReadWakesTheActive` | backend/src/resident/world.py:747 | For every read limit of at least three rows and every gate, a log on which a resonating basis memory makes the bridge activate a thread that is already active. |
| `BridgeOnce.NoThreadWokenTwice` | backend/src/resident/world.py:705-729 | However many questions one observation meets, no thread is activated twice, while the read is whole; every activated thread is running afterwards. |
| `BridgePast.WokenForEachQuestion` | backend/src/resident/world.py:672-729 | Past the read one observation activates a thread exactly as many times as it meets questions that resonate with it. |
| `BridgePast.WokenTwice` | backend/src/resident/world.py:705-729 | So a thread is woken twice by one observation on a concrete log, whatever the read limit and the gate. |
| `Continuity.PreviousUserEvent` | backend/src/resident/continuity.py:240-247 | The loop returns the last message before this one among the oldest 200. |
| `Continuity.ReadIsExactIff` | backend/src/resident/continuity.py:243 | That is the true previous message if and only if at most 200 messages came before. |
| `Continuity.ReportIsTheDeathWindow` | backend/src/resident/continuity.py:281-291 | A question is reported by a message if and only if its absence is long enough and contains the instant at which the final last touch ran out. |
| `Continuity.ReportedAgainIffReadIsFull` | backend/src/resident/continuity.py:240-247 | A question already reported is reported again at a later return if and only if the read of earlier messages was already full at the first report. |
| `Continuity.FullReadReportsTwice` | backend/src/resident/continuity.py:240-247 | The failing side occurs for every read limit and every disciplined writer: a concrete log on which a question dead for good is reported by two messages in a row. |
| `Continuity.LooserWriterIsReportedTwice` | backend/src/resident/world.py:835-842 | Why the writer's patience must not exceed the reader's: otherwise a log exists that reports one question twice with every read exact. |
| `UserReturn.WindowFacts` | backend/src/resident/continuity.py:249-280 | The scan keeps, in order, the first fact for each anchor of the window, within the read limit. |
| `UserReturn.DetectedIs` | backend/src/resident/continuity.py:85-130 | Which fact each kind of event tells: a thread met again, a promoted impression, a thought that recalled an event of the world, and otherwise an own thought; no other event tells one. |
| `UserReturn.RemetIs` | backend/src/resident/continuity.py:91-105 | A question met again brings the revisit, the question and whatever of the question's evidence is in the log, each once. |
| `UserReturn.KeepFirstKeeps` | backend/src/resident/continuity.py:276-280 | Every detected anchor is kept, by its first fact. |
| `UserReturn.KeepFirstIsDistinct` | backend/src/resident/continuity.py:274-280 | No anchor is kept twice. |
| `UserReturn.GapDeaths` | backend/src/resident/continuity.py:281-291 | The derived facts are exactly the listed questions open at the previous message and dormant now. |
| `UserReturn.FactsAreReports` | backend/src/resident/continuity.py:274-291 | The deaths among the facts told to the arriving message, which are derived after the absence note is written, are exactly the reports of that message. |
| `UserReturn.ToldTwiceIffMetAndDied` | backend/src/resident/continuity.py:274-290 | A question gets two facts in one absence if and only if it was met again and died within it: the shared guard never compares equal keys. |
| `UserReturn.ToldTwiceOccurs` | backend/src/resident/continuity.py:274-290 | It does occur, whatever the read limits and thresholds and under a disciplined writer: a concrete log on which a question gets both facts in one absence. |
| `UserReturn.OnUserReturn` | backend/src/resident/continuity.py:173-236 | Nothing is written for a short gap or a first message; otherwise one absence, the first eight candidates in order, and one decision citing exactly the evidence of the selected facts; only system notes are added. |
| `UserReturn.NotesAre` | backend/src/resident/continuity.py:196-232 | The notes one by one: the first facts, up to the cap, each over its evidence, and then the decision over exactly what the selected facts rest on; all brought about by the message. |
| `UserReturn.NotesKeepDiscipline` | backend/src/resident/continuity.py:173-236 | These notes never disturb the lifecycle of a question. |
| `WorldLife.MaybeOpen` | backend/src/resident/world.py:226-269 | One beat gives the right one of six answers and writes nothing behind a hard guard, a skip for a declined look, and for an opening the chain opening, observation, experience, impression, and then nothing, an association thought, or a promotion with its thought, each with its links. |
| `WorldLooks.LooksExactlyWhen` | backend/src/resident/world.py:235-269 | The window is on the table exactly if the mind is up, the openings of the day among the rows read are fewer than the cap, and the newest opening is no younger than the cooldown; it then refuses exactly if the roll is not below the appetite, given by its formula, and else looks exactly if some mode may reach for something. |
| `WorldLooks.ModesAre` | backend/src/resident/world.py:339-353 | A mode is open exactly if it is switched on, its own count for the day is below its own cap, and something is on offer in it. |
| `WorldLooks.LookIsRecorded` | backend/src/resident/world.py:420-505 | What a look leaves, event by event with its links: the opening, the observation, the experience, perhaps an impression, and then the promotion and the thought, or the association, that its idea gives rise to. |
| `WorldLooks.VainLook` | backend/src/resident/world.py:440-449 | A look the world does not answer leaves the opening and the failure, which cites it. |
| `WorldLife.Think` | backend/src/resident/world.py:506-521 | A thought forms only under the deep cap: from the impression found, on its roll; else from the old memory, on its roll. |
| `WorldLooks.IdeaExactlyWhen` | backend/src/resident/world.py:506-521 | A thought forms exactly if fewer thoughts of the world than the cap stand on this day among those read, and the impression found passes its roll or else the old memory passes its own. |
| `Impressions.FindReactivable` | backend/src/resident/world.py:523-537 | The search finds the oldest impression inside its read that is connected, earlier, and not among the promotions read. |
| `Impressions.PriorIs` | backend/src/resident/world.py:523-537 | The impression found is the first of those read that is earlier, named by no promotion read, and about the topic or page of the item or of a page it links to; there is one exactly if such an impression is. |
| `Impressions.PromotedAtMostOnce` | backend/src/resident/world.py:528-537 | With a read of promotions at least as long as the read of impressions no impression is ever promoted twice: too few can be promoted for the other read to fill. |
| `Impressions.PromotedOnceIff` | backend/src/resident/world.py:528-537 | That holds for all logs if and only if the read of promotions is at least as long. |
| `WorldLife.Select` | backend/src/resident/world.py:303-354 | Nothing is chosen exactly if no mode is open; otherwise the mode the draw falls on and an item on offer in it. |
| `WorldWindow.OfferIs` | backend/src/resident/world.py:325-331 | What following, the edge and the alien reach for: an item on a topic in focus or observed, on one next to such a topic, or on neither. |
| `WorldWindow.AccidentIs` | backend/src/resident/world.py:333-337 | An accident reaches for the pages that the item of the newest observation read links to. |
| `WorldWindow.EligibleIs` | backend/src/resident/world.py:307-323 | An item may be looked at exactly if no observation of it among those read is younger than the horizon. |
| `WorldWindow.PickMode` | backend/src/resident/world.py:356-364 | Every available mode is picked exactly by the draws in its share of the weights; the fallback is never needed on exact numbers. |
| `WorldLooks.SharesAre` | backend/src/resident/world.py:91-92 | With all four modes open the draw is split at 0.5, 0.8 and 0.9. |
| `WorldWindow.LastObservations` | backend/src/resident/world.py:307-314 | The loop computes the newest observation of every item among the rows read. |
| `WorldWindow.SeenIsLatest` | backend/src/resident/world.py:310-314 | No observation of the item among those rows is newer than its entry. |
| `WorldWindow.PropensityMoves` | backend/src/resident/world.py:273-289 | The propensity stays between zero and its ceiling, and longer silence, a quiet state, an unfocused mind or fewer looks today, in any combination, never lower it. |
| `WorldWindow.CountToday` | backend/src/resident/world.py:809-826 | The counting loop over the rows read. |
| `WorldLooks.OpeningsAreCounted` | backend/src/resident/world.py:809-826 | The count is the number of openings read that fall on the day, midnight to midnight; likewise, in the lemmas beside it, in one mode and for the thoughts of the world. |
| `WorldWindow.TodayIsExactIff` | backend/src/resident/world.py:809-826 | Today's count is the true one if and only if none of today's rows lies past the read, which keeps the oldest. |
| `WorldRuns.BeatKeepsSound` | backend/src/resident/world.py:226-269 | Every beat keeps the rest between openings, the caps, the choice of promotions, and the chain of provenance: each observation names an opening of its instant first, each world thought an observation, and a second cause is the promotion of an impression it relates to. |
| `WorldRuns.Live` | backend/src/resident/world.py:226-269 | In every run openings are a cooldown apart, the chain of provenance holds, promotions are well chosen, and no day whose rows lie inside the read exceeds a cap on openings, alien or accidental openings, or world thoughts. |
| `WorldRuns.CooldownBoundsTheDay` | backend/src/resident/world.py:239-244 | Whatever the reads miss, (openings of a day - 1) x cooldown is less than a day. |
| `WorldRuns.TwelveAtMost` | backend/src/resident/world.py:129 | At the default cooldown never more than twelve openings a day, on any log. |
| `WorldRuns.FullReadCountsNothing` | backend/src/resident/world.py:809-826 | Once the read is filled with rows of other days, today's count is zero for ever: the caps no longer bite. |
| `WorldExcess.TwelveLooksOnOneDay` | backend/src/resident/world.py:809-826 | At the default cooldown, whatever the row limit and the cap: a life of the window, each beat the one the code takes, that ends with a day of twelve openings. |
| `WorldExcess.CapIsExceededIff` | backend/src/resident/world.py:809-826 | At the default cooldown, whatever the row limit: a log as every run leaves it can exceed the daily cap on openings if and only if the cap lies between one and eleven. |
| `WorldHorizon.HorizonBelowCooldownIsIdle` | backend/src/resident/world.py:316-323 | A re-observation horizon up to the cooldown's number never excludes an item when the window may open. |
| `WorldHorizon.HorizonBitesIff` | backend/src/resident/world.py:316-323 | For all parameters: on some log that the store can hold and on which the window may open the horizon holds an item back, if and only if the cap and the read are not zero and the horizon exceeds both zero and the cooldown, number for number. |
| `WorldHorizon.DaysAreBrokenIff` | backend/src/resident/world.py:316-323 | On some such log an item seen fewer days ago than the horizon is let through, if and only if the cap and the read are not zero and the horizon in days exceeds both zero and the cooldown. |
| `WorldHorizon.TestsDifferIff` | backend/src/resident/world.py:323 | On one item the code's test and the rule in days differ exactly in the stretch between the two numbers of seconds. |
| `WorldHorizon.LookedAtAgain` | backend/src/resident/profiles.py:75-86 | At the cooldown, cap and horizon of the active profile: two beats, each the one the code takes, look at the same thing 45 minutes apart under a horizon of two days. |
| `SleepSearch.DuplicateCluster` | backend/src/resident/sleep.py:381-402 | Finds the cluster grown in one pass from the first thought that has a near copy after it, or none if no thought has. |
| `SleepSearch.ClusterHoldsCopies` | backend/src/resident/sleep.py:381-402 | A merge folds at least two distinct thoughts, each but the seed a near copy of an earlier member. |
| `SleepSearch.Closest` | backend/src/resident/sleep.py:404-415 | The search returns the specified best companion and its score. |
| `SleepSearch.ClosestIsFirstGreatest` | backend/src/resident/sleep.py:404-415 | That companion is the first of greatest similarity among the free ones above -1. |
| `SleepSearch.FindBestPair` | backend/src/resident/sleep.py:417-440 | The nested loops find the first fitting pair of greatest similarity. |
| `SleepSearch.BestPairIsUnique` | backend/src/resident/sleep.py:431-440 | The specification admits one pair only. |
| `Sleep.NoMemoryTwice` | backend/src/resident/sleep.py:145-233 | Within a cycle the memories taken by compress, reactivate, cross-link and dream are pairwise disjoint, with at most three reactivations. |
| `SleepCycle.Revive` | backend/src/resident/sleep.py:181-201 | The loop with its break computes the reactivations of the specification and the set of taken memories. |
| `SleepCycle.SleepOnce` | backend/src/resident/sleep.py:119-349 | The cycle picks what the stage rules say on the log it opened, and the log grows by the opening bracket, the events of those picks in order, and the closing bracket with label and count. |
| `SleepPicks.CrossLinkInLog` | backend/src/resident/sleep.py:199-210 | In the log of a finished cycle a cross link stands exactly if two free recent memories of different families are at least half similar, and it links the most similar such two. |
| `SleepPicks.CrossLinksFamilies` | backend/src/resident/sleep.py:417-429 | The same of the cycle's pick, over the families of the event types. |
| `SleepPicks.MergesNearCopies` | backend/src/resident/sleep.py:381-402 | Compression folds the earliest recent thought with a later near copy and each later thought close to a member before it; nothing is folded exactly if no thought has one. |
| `SleepPicks.RevivesTheClosest` | backend/src/resident/sleep.py:179-197 | Every reactivation pairs an old forgotten memory with its closest free recent one, at least half similar; with fewer than three of them no such pair is left. |
| `SleepPicks.DreamsOfTheClosest` | backend/src/resident/sleep.py:212-233 | A dream takes the most similar two of the free recent thoughts, exactly if the roll allows it, three recent thoughts are there and two of them are free. |
| `SleepRecords.CycleIsRecorded` | backend/src/resident/sleep.py:143-318 | Every event between the brackets is a record of one stage, citing the opening bracket and what that stage picked, or of the birth of a thread, citing the two memories it grew from. |
| `SleepRecords.CycleIsClosed` | backend/src/resident/sleep.py:327-341 | The closing bracket counts and cites, in order, every event of the cycle but the activation of a new thread, or the opening bracket if there is none. |
| `SleepRecords.NothingIsLeftOut` | backend/src/resident/sleep.py:354-379 | Nothing picked goes unrecorded: every reactivation, every thread put to rest, the merge and the dream stand in the log. |
| `SleepRecords.LabelIs` | backend/src/resident/sleep.py:327-337 | The bracket says dreamed exactly if a dream stands in the cycle, and noop exactly if nothing was written and no thread dropped. |
| `SleepRecords.BornExactlyWhen` | backend/src/resident/sleep.py:247-318 | A thread of the mind's own is tried exactly if the roll allows it, fewer own threads than the cap stand among the thread rows read and there are two memories to grow it from; it is born unless an own thread of the window grew from the same two memories or has the same title. |
| `SleepCycle.DurableCountsEvents` | backend/src/resident/sleep.py:329-341 | The reported count is the number of events written, the activation of a new thread aside. |
| `SleepCycle.NoopMeansNothingWritten` | backend/src/resident/sleep.py:327-336 | The label noop means nothing was written; the converse fails exactly for a cycle whose only act is to drop a near-identical thread, which is labelled consolidated with count 0. |
| `SleepNoop.MislabelledIff` | backend/src/resident/sleep.py:247-300 | A cycle that wrote nothing is not labelled noop if and only if its memory stages found nothing, the roll and the cap allow a thread, and the thread it would have started has a twin among the thread rows read. |
| `SleepNoop.SecondNightWritesNothing` | backend/src/resident/sleep.py:285-300 | Such a cycle occurs under all rules that allow two self threads: two nights with one pair of memories, the first starts a thread, the second writes nothing and is labelled consolidated with count 0. |
| `SleepLife.LinksAreDisjoint` | backend/src/resident/sleep.py:145-233 | In the log itself: no two events of a cycle's memory stages link the same memory. |
| `SelfThreads.CountSelfThreads` | backend/src/resident/sleep.py:444-448 | Counts the self threads among the newest thread rows, up to the limit. |
| `SelfThreads.NearIdenticalExists` | backend/src/resident/sleep.py:450-481 | Finds a self thread of the window, among the newest thread rows, built from the same memories or carrying the same normalised title. |
| `SelfThreads.SoundAppend` | backend/src/resident/sleep.py:247-318 | A thread that passes both checks keeps the cap and the ban on near-identical threads; other events keep them always. |
| `SelfThreads.CapHoldsInEveryStretch` | backend/src/resident/sleep.py:444-448 | No stretch of the log with at most one thread row more than the read holds contains more self threads than the cap. |
| `SelfThreads.CapHoldsWhileReadIsWhole` | backend/src/resident/sleep.py:247-248 | While the thread rows fit the read, or exceed it by one, self threads never exceed the cap. |
| `SelfExcess.CapIsExceededIff` | backend/src/resident/sleep.py:444-448 | The bound is tight for every cap: self threads can exceed the cap on a log with that many thread rows if and only if the cap is not zero and the rows number more than the cap and at least two more than the read holds. |
| `SelfThreads.LikeThreadsAreFarApart` | backend/src/resident/sleep.py:469-481 | Between two like self threads of one window lie at least as many thread rows as one read holds. |
| `SelfThreads.NoTwoAlike` | backend/src/resident/sleep.py:285-296 | While the read is whole no two self threads of one window share their memories or their normalised title. |
| `SelfThreads.PassesIff` | backend/src/resident/sleep.py:469-481 | A new thread passes the check if and only if at least a read of thread rows came after every like thread of its window. |
| `SelfThreads.CopiesPassIff` | backend/src/resident/sleep.py:444-481 | Where the promises end: a log of identical self threads, each followed by m rows of other threads, passes every check if and only if it holds one copy or m fills the read; then any number of copies stands. |
| `SelfThreads.CopiesAreOwn` | backend/src/resident/sleep.py:444-448 | That log holds as many self threads as copies. |
| `SleepLife.CycleKeepsSound` | backend/src/resident/sleep.py:247-318 | Every cycle keeps the cap and the ban. |
| `SleepLife.Nights` | backend/src/resident/sleep.py:119-349 | Over every run of cycles and other writes both hold. |
| `SleepQuiets.SleepLeavesFreshThreadsActive` | backend/src/resident/sleep.py:119-349 | After a cycle the active threads are those that were active and touched within the recent window, and the newborn ones: nothing else is put to rest or woken. |
| `RoutePolicy.BaseScores` | backend/src/resident/route_policy.py:66-96 | The dictionary filled by assignment holds the stated weight of every route. |
| `RouteSignals.NoSignals` | backend/src/resident/route_policy.py:66-96 | The weights when nothing speaks for any route. |
| `RouteSignals.UserSpeaks` | backend/src/resident/route_policy.py:80 | A recent user message raises the personal score by one half and no other, whatever else holds; likewise the lemmas beside it for exploration, a young mind, concentration, idle time, active and dormant threads and a revival. |
| `RouteSignals.NothingNew` | backend/src/resident/route_policy.py:70-85 | With nothing new rest gains 0.38, continuity loses half of what an active thread gave it, and no other score moves. |
| `RoutePolicy.FatigueAdjustments` | backend/src/resident/route_policy.py:98-118 | The loops over counters compute damping of the majority route, gain of the other departure routes and the pull of a dominant topic. |
| `RouteSignals.RoutesTire` | backend/src/resident/route_policy.py:98-110 | A route that fills more than half of the recent history is damped by half its share and each other departure route gains the departure gain times it. |
| `RouteSignals.TopicDominates` | backend/src/resident/route_policy.py:111-117 | The most frequent topic, once it fills more than six tenths, lifts distant by 0.4 and serendipity by 0.2 of its share and no other route. |
| `RoutePolicy.MajorityIsUnique` | backend/src/resident/route_policy.py:103-110 | At most one route fills more than half of the history, so ties of the counter never matter. |
| `RoutePolicy.Select` | backend/src/resident/route_policy.py:122-135 | Scores every route and returns the first greatest, the unbound world route held at -1 or below. |
| `RouteSignals.UserIsHeardIff` | backend/src/resident/route_policy.py:122-135 | With an active thread, news and a recent user message the personal route beats continuity whatever the draws, if and only if the perturbation is at most 0.01. |
| `RouteSignals.UserIsAnswered` | backend/src/resident/route_policy.py:122-135 | Without noise and other signals the user is then answered: the personal route is chosen. |
| `RoutePolicy.BestBeats` | backend/src/resident/route_policy.py:134 | The chosen route has the greatest score and no earlier route equals it. |
| `RoutePromises.NothingNewIsNotRechewed` | backend/src/resident/route_policy.py:66-90 | With a perturbation of at most 0.0625 continuity is never chosen when there is nothing new, whatever the draws, unless rest dominates the history. |
| `RoutePromises.RestedMindRechewsIff` | backend/src/resident/route_policy.py:66-118 | The exception, exactly: with a window dominated by rest some wake re-chews continuity with nothing new if and only if gain times the share of rest is below 0.255 plus twice the perturbation. |
| `RoutePromises.LargerNoiseCanRechew` | backend/src/resident/route_policy.py:122-135 | The bound is sharp: with any larger perturbation some wake re-chews continuity with nothing new. |
| `RoutePromises.LoopIsBroken` | backend/src/resident/route_policy.py:98-118 | A history dominated by continuity is left: enough damping makes another route win, whatever the draws. |
| `RoutePromises.DefaultLoopIsBroken` | backend/src/resident/route_policy.py:98-135 | At the default parameters two thirds of the window in continuity suffice. |
| `RouteAudit.LiftMovesOnlyToRevisit` | backend/src/resident/route_policy.py:91-95 | With the same noise, a non-negative lift leaves the choice alone or moves it to revisit. |
| `RouteAudit.AuditIsExact` | backend/src/resident/telemetry.py:355-368 | Subtracting the lift and choosing again gives the route of the wake without it; a wake is counted exactly when the lift decided it. |
| `RouteAudit.RevivalIntervention` | backend/src/resident/telemetry.py:344-368 | The counting loop computes the tally of the audit's test. |
| `RouteAudit.AuditCountsDecidedWakes` | backend/src/resident/telemetry.py:344-368 | Over a window of wakes the count is the number of wakes whose route the lift decided. |
| `RouteAudit.AuditToleratesRounding` | backend/src/resident/route_policy.py:135 | On rounded scores the audit still finds that route whenever it leads by more than twice the rounding error. |
| `RouteAudit.WorldIsNeverChosen` | backend/src/resident/route_policy.py:132-134 | With a perturbation of at most 1.15 (and a departure gain of at least 0.06) the world route is never chosen, for any state and draws. |
| `RouteAudit.LargerNoiseCanChooseWorld` | backend/src/resident/route_policy.py:129-134 | The bound is sharp: with any larger perturbation some wake chooses it. |
| `Scheduler.CircadianScheduler.LoopResumes` | backend/src/resident/scheduler.py:241-256 | Each segment of the loop between two awaits changes the fields as the step function says. |
| `Scheduler.CircadianScheduler.Enter` | backend/src/resident/scheduler.py:226-230 | The guard turns a caller away exactly when the flag is set. |
| `Scheduler.CircadianScheduler.Run` | backend/src/resident/scheduler.py:226-256 | The object follows any legal interleaving and never has two ticks in flight. |
| `Scheduler.OneTickAlways` | backend/src/resident/scheduler.py:226-239 | Under every interleaving at most one tick is in flight, the flag says so, and calls = completed + skipped + raised + in flight. |
| `Scheduler.CountersAre` | backend/src/resident/scheduler.py:226-256 | Over every run the beats are the ticks that completed, whoever called them, and the errors the loop's own ticks that raised. |
| `Scheduler.StopEnded` | backend/src/resident/scheduler.py:186-205 | A stop ends once the loop has: the poke is clear, no request is left open and the next start parks a new loop; likewise, in the lemmas beside it, what its beginning and a cancellation do. |
| `Scheduler.ParkedAndQuietMeansHeard` | backend/src/resident/scheduler.py:211-256 | In any run: at every moment, parked with the poke clear means that every delivered request was followed by a beat start or dropped by a stop or a cancellation, if and only if the loop never wakes into another's tick while a request is open and it is not being stopped. |
| `Scheduler.LoopAloneHearsEveryRequest` | backend/src/resident/scheduler.py:211-256 | When the loop is the only ticker and is not stopped or cancelled, no request is lost. |
| `Scheduler.LoopAloneNeverClashes` | backend/src/resident/scheduler.py:241-256 | The loop never meets its own tick in flight. |
| `Scheduler.OutsideTickerSwallowsARequest` | backend/src/resident/scheduler.py:226-256 | With an outside ticker a request can be swallowed: a concrete interleaving. |

## Left out

- SQLite, JSON, pydantic validation of types, actors and visibilities, the HTTP endpoints and the model and
  embedding providers: input, output and wiring. A type prefix is modelled by the event types it selects.
- Reflection texts, summaries, quotes and reasons: only ids, links, types, times and visibility are kept,
  and the text of an event where a rule reads it.
- EventLog.EventStore.Append: does not model storage failures, only the rejection of dangling links.
- Clusters.FindClusters: clusters are values local to the pass; labels, thread sets and first and last
  sighting times are not modelled.
- MentalState.Mind.Apply: does not model the question views, whose events carry an id that no writer here
  supplies.
- Circadian.NeverMessagedMind: the time zone conversion is not modelled; the local hour is a parameter.
- CircadianMachine.Orchestrator.Beat: what the mind, the sleep engine and the world window write is a
  parameter of the beat, and so is whether they raise; the Agency is not part of this model.
- Bridge.BridgeQuestion: the similarity of two texts and the test for blank text are parameters.
- WorldLife.MaybeOpen: what the world answers, the topics in focus and the old memory the semantic search finds
  are inputs, and the three kinds of failed fetch are one. The thread events and the question an opening may
  leave after its thought are not formed here: in WorldRuns.Live they are writes at the same instant, and
  Questions.TouchOpenQuestions is the question half.
- UserReturn.OnUserReturn: which facts the message's own recall reaches is a parameter; the bounded
  expansion of evidence behind it is not modelled.
- SleepCycle.SleepOnce: the forgotten memories, the synthesis of two user threads with its title, and the
  order of the active threads are parameters; retrieval statistics and the pool window are not modelled.
- Hygiene.Scanner.Scan: the normalisation of text is a parameter.
- RouteAudit.RevivalIntervention: only the count of changed wakes is modelled, for score vectors that are
  missing or complete; the engaged and selected counts are not.
- RouteAudit.AuditToleratesRounding: is one way only; below that margin rounding can make or break a tie.
- Scheduler.CircadianScheduler.Run: does not model a start that races with a stop still under way, which
  could leave two loops; timers are modelled by letting the wait end at any moment.
- WakeScheduler (scheduler.py:31-136): the same guard and loop with a trigger string and two more counters.
- bridge_distant, serendipity, concentration, and the distant, temporal and forgotten paths of memory.py:
  scoring rules without a property beyond their bodies.
- project_state and world_profile: reads that would add easy members.
- Floating-point rounding, except in the audit; hashing; report statistics; profiles, reentry, vector cache
  and memory index.
