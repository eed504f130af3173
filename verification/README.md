# NewsSummary: a verified model of its event grouping

NewsSummary reads news articles through Stanford CoreNLP, extracts one event per
sentence, and groups the events of all articles into a table. This project models
the part that is the repository's own: the extraction of an event from an annotated
sentence (`SentenceAnalysis`), the event record (`Event`), the groups and their
acceptance test (`Group`), the first-fit clustering and final ordering
(`FinalTableEvent`), and the hash-indexed grouping with best-event selection
(`GroupList`).

## How the model is built

- Classes of the source are Dafny classes with the same fields; lists are `seq`
  fields that the methods reassign. Every method is proved against a function on
  values (`Record` for an event, `GroupState` for a group), and the theorems are
  lemmas about those functions, for all inputs and all runs.
- Case-insensitive comparison is equality after a folding `FOLD` that is left
  uninterpreted, so every result holds for whatever folding the platform uses.
  Exact comparison is equality of the texts. A token's text is its text annotation,
  or its `toString()` when there is none; two tokens are equal when all of their
  modelled annotations agree.
- A time has an optional interval with an optional first instant and an optional
  instant of its own. Instants are integer keys. Comparing with a null instant
  throws; where the source catches this, the caught outcome is modelled.
- `Collections.sort` is modelled as it runs on fewer than 32 elements (a list sorted in
  place, as since Java 8): it finds a first run, turns it round if it descends, inserts
  the other elements by binary search, acts only on whether an outcome is negative, and
  may be thrown out of. From 32 elements on the platform also merges runs. Merging acts
  on positive outcomes too and relies on the comparator's contract; where the contract
  is broken it may misorder or raise the contract exception, so
  no result about such a list is claimed. `ComparatorContract.ContractSortExact` proves
  that under the contract every stable sort gives the same list, at any length, and
  `TimeFlowLaws.GroupsContract`, `Events.DatesContract` and
  `GroupListLaws.BestsContract` say exactly when the three comparators meet it.
  The comparators of `timeFlow` read their groups and events through a snapshot,
  which is what they would read: a sort changes none of them.
- Parse trees, token lists, the recogniser's places and times, the verb list and the
  pronoun list are parameters. A leaf turned into a token has its word as value and
  as `toString()` and no text annotation.

| module | models |
|---|---|
| `Sequences`, `Tokens` | list facts, tokens, times, text comparison |
| `TimeSort` | the sort behind `timeFlow` and `earliestFirst` |
| `ComparatorContract` | when a comparator leaves a stable sort no choice |
| `Events` | `Event` |
| `Groups`, `GroupLaws` | `Group`, and what its acceptance test forces on members |
| `Clustering` | the first-fit run on values: history, connectivity, conservation |
| `GroupViews` | the group lists both clients update, as lists of states and of event objects |
| `FinalTables`, `TimeFlowLaws` | `FinalTableEvent`, and the order of its table |
| `GroupLists`, `GroupListLaws` | `GroupList`, its agreement with first fit, best events |
| `Trees`, `Sentences` | the tree searches and `SentenceAnalysis` |
| `Pipeline` | from annotated sentences to the printed subjects |

## Where the code differs from what one would expect

- `timeFlow` is not always an order: a group whose start is unknown compares as equal
  to every dated group. `TimeFlowLaws.TimeFlowExact` gives the exact condition,
  `TimeFlowLaws.StrayShields` the failing family, and `TimeFlowLaws.StrayRun` and
  `TimeFlowLaws.FinalTableExact` say the same of events.
- Two undated groups compare as 1 both ways. Below 32 groups only negative outcomes are
  acted on, and unless strays interfere (`TimeFlowLaws.FinalTableInOrder`) undated rows
  stand last in founding order. With two undated groups the
  comparator breaks its contract (`TimeFlowLaws.GroupsContract`), and from 32 groups on
  undated rows may be reordered, or the sort may end the run with the contract exception,
  which `timeFlow` does not catch.
- One time of unknown start hides all known dates of its event
  (`Events.EarliestFirstExact`) and can make a row a stray (`Pipeline.RowDate`).
- The hash index compares verbs exactly and first fit compares them up to case;
  `GroupListLaws.IndexAgreesWithFirstFit` says exactly when that matters.
- `trim` removes the first token equal to the last one (`Sentences.TrimTakesEarlier`,
  which is about `trim` alone: the tokens of one sentence carry different indices, so
  there `Sentences.OtherTokensExact` applies); `Sentences.TrimTakesLast` says exactly
  when the token removed is the last one.
- The weight of an event never counts its objects (`Sentences.WeightIgnoresObjects`),
  because it is taken before they are set.
- `addOther` adds only to a non-empty list, so `other` never fills
  (`GroupLaws.GatherClosedForm`). `nullFilter` changes nothing and is not modelled.

## Model

| member | source | states |
|---|---|---|
| `Sequences.DedupExact` | NewsSummary/src/events/Group.java:81-87 | the add-unless-inside loop keeps exactly the positions that are first with their key, in order (an independent description of the loop, used for verbs, places, objects and time tokens) |
| `Sequences.DedupKeys` | NewsSummary/src/events/Group.java:136-158 | after the loop no two kept elements have the same key and no key is lost |
| `Sequences.DedupIdempotent` | NewsSummary/src/events/Event.java:69-85 | dropping duplicates twice is dropping them once, and empties no list |
| `Sequences.FilterExact` | NewsSummary/src/StanfordCoreNlpDemo.java:132-150 | keeping what passes a test selects, in order, exactly the positions that pass it |
| `Sequences.FlattenConcat` | NewsSummary/src/events/FinalTableEvent.java:22-29 | putting lists end to end: the flattening of a concatenation is the concatenation of the flattenings |
| `Sequences.RemoveFirstAt` | NewsSummary/src/events/SentenceAnalysis.java:62-71 | remove takes out the first equal element and nothing else |
| `Tokens.MeetAddNew` | NewsSummary/src/events/Group.java:81-95 | a list meets a grown list exactly when it meets the old list or what was offered |
| `Tokens.InsideExact` | NewsSummary/src/events/Group.java:136-158 | a token is inside a list if and only if some listed token has the same text up to case, the text being the annotation or, without one, what the token shows |
| `Tokens.MeetExact` | NewsSummary/src/events/Group.java:136-158 | two lists meet if and only if a token of each has the same text up to case, told on annotation and toString |
| `Tokens.StartBegins` | NewsSummary/src/events/Group.java:161-170 | the instant compared is the interval's first one and, only when there is no interval, the time's own; the instant GroupList compares never falls back |
| `TimeSort.SortList` | NewsSummary/src/events/FinalTableEvent.java:89-105 | the first run, its reversal when it descends, and the insertion loop with its binary search compute the specified sort for every comparator, also when the comparator throws: the platform's sort on fewer than 32 elements |
| `TimeSort.SortPermutes` | NewsSummary/src/events/GroupList.java:54-73 | finished or thrown out of, this sort only permutes the list |
| `TimeSort.SortStable` | NewsSummary/src/events/FinalTableEvent.java:89-105 | when the negative outcomes of the comparator form a strict weak order this sort finishes, permutes, orders, and keeps ties in their old order |
| `TimeSort.StableUnique` | NewsSummary/src/events/FinalTableEvent.java:89-105 | for such a comparator order and ties determine the list |
| `TimeSort.SortMap` | NewsSummary/src/events/FinalTableEvent.java:89-105 | sorting objects by what the comparator reads from them is sorting what it reads, if the comparators agree on different positions; no element is compared with itself |
| `TimeSort.SortKeepsPrefix` | NewsSummary/src/events/FinalTableEvent.java:89-105 | for every comparator, lawful or not: inserting the later elements never reorders the run already placed |
| `ComparatorContract.ContractSortExact` | NewsSummary/src/events/FinalTableEvent.java:89-105 | when the comparator meets its contract on the list (opposite signs, transitivity, equal elements compare alike with all others) a list is stably sorted if and only if it is the one this sort leaves, so a sort that also merges ends with the same list |
| `Events.Event.SetTGID` | NewsSummary/src/events/Event.java:189-192 | sets the time tokens; the resolved times join the dates already there and all are sorted; nothing else changes |
| `Events.Event.UpdateNormalizedTime` | NewsSummary/src/events/Event.java:220-238 | tokens without a time are skipped, the others' times are appended in order before sorting |
| `Events.ResolvedExact` | NewsSummary/src/events/Event.java:220-238 | the times appended are those of exactly the tokens that resolve to one, in the order of the tokens |
| `Events.JoinedConcat` | NewsSummary/src/events/Event.java:87-97 | the printed texts stand one after another, each followed by a space |
| `Events.Event.CalWeight` | NewsSummary/src/events/Event.java:209-218 | one point each for time, place and object tokens, told on the three lists |
| `Events.Event.FilterDuplicate` | NewsSummary/src/events/Event.java:69-85 | the nested loop keeps the first time token of each exact text |
| `Events.Event.PrintTGID` | NewsSummary/src/events/Event.java:87-97 | printing leaves the deduplicated time tokens behind; the line is empty exactly when there were none |
| `Events.EarliestLawful` | NewsSummary/src/events/Event.java:251-282 | the comparator of earliestFirst is a strict weak order on a list exactly when every start is known |
| `Events.EarliestFirstExact` | NewsSummary/src/events/Event.java:239-283 | for every list: the dates are permuted, unknown starts first, then known starts ascending, equal starts in their old order; the first date is known if and only if all are, so one unknown start hides the known ones |
| `Events.DatesContract` | NewsSummary/src/events/Event.java:251-282 | earliestFirst's comparator meets its contract on a list if and only if at most one start is unknown |
| `Groups.Group.AddVerbs` | NewsSummary/src/events/Group.java:81-87 | the new verb list is the keyed append of the old one |
| `Groups.Group.AddLocation` | NewsSummary/src/events/Group.java:89-95 | the new place list is the keyed append of the old one |
| `Groups.Group.AddTime` | NewsSummary/src/events/Group.java:103-107 | only the first date ever offered is kept |
| `Groups.Group.AddOther` | NewsSummary/src/events/Group.java:119-124 | adds only to a list that already holds something |
| `Groups.Group.AddSubject` | NewsSummary/src/events/Group.java:125-129 | appends all subject tokens |
| `Groups.Group.AddObject` | NewsSummary/src/events/Group.java:130-134 | the new object list is the keyed append of the old one |
| `Groups.Group.AddEvent` | NewsSummary/src/events/Group.java:109-118 | the whole new state of a group after add, as a function of the old state and the event; the event object joins itemList |
| `Groups.Group.FromEvent` | NewsSummary/src/events/Group.java:24-28 | a new group holds exactly the founding event |
| `Groups.Group.Contains` | NewsSummary/src/events/Group.java:136-158 | the scan finds a token exactly when some listed token has the same folded text |
| `Groups.Group.ContainsTime` | NewsSummary/src/events/Group.java:159-176 | compares with the first listed time only: true if and only if both begin at one common instant, told on interval and own instant; an unknown start equals nothing |
| `Groups.Group.Same` | NewsSummary/src/events/Group.java:178-215 | the three flag loops decide exactly the acceptance predicate (told without it in Groups.AcceptsExact) |
| `Groups.AcceptsExact` | NewsSummary/src/events/Group.java:178-215 | a group accepts an event if and only if a verb of each has the same text up to case; if both are located, so do two places; and if both are dated, some date of the event begins at the instant at which the group's date begins; told on annotations, intervals and own instants |
| `Groups.Group.PickOneSubject` | NewsSummary/src/events/Group.java:216-228 | the removal loop over the old list computes the specified pruning |
| `Groups.Group.GetBest` | NewsSummary/src/events/Group.java:46-57 | returns the item object chosen by Best, null when there is none |
| `Groups.Best` | NewsSummary/src/events/Group.java:46-57 | the position of the first item of greatest weight, none exactly when no weight is above -1 |
| `GroupLaws.GatherClosedForm` | NewsSummary/src/events/Group.java:81-134 | a group is a function of its members: verb, place and object lists are the case-insensitive first occurrences of the members' lists end to end, subjects are all of them, the date is the first date of the first dated member, other stays empty, weight counts the members |
| `GroupLaws.AcceptsByMembers` | NewsSummary/src/events/Group.java:178-215 | the test on accumulated lists told through members: a shared verb; a shared place if both sides are located; if both sides are dated, a date of the event that begins at the instant at which the first dated member's first date begins, so an event is rejected when none does or that instant is unknown |
| `GroupLaws.VerbLink` | NewsSummary/src/events/Group.java:178-187 | every member after the first shares a verb with an earlier member |
| `GroupLaws.GroupConnected` | NewsSummary/src/events/Group.java:178-187 | any two members are linked by a chain of members of the same group, consecutive ones sharing a verb |
| `GroupLaws.PlaceLink` | NewsSummary/src/events/Group.java:187-199 | a located member that follows a located one shares a place with an earlier member |
| `GroupLaws.DateFixed` | NewsSummary/src/events/Group.java:103-107 | once a group has a date, adding members never changes it |
| `GroupLaws.CommonDate` | NewsSummary/src/events/Group.java:200-211 | the instant at which the group's date begins is one at which some date of every dated member begins; an unknown start means exactly one dated member |
| `GroupLaws.AcceptanceKept` | NewsSummary/src/events/Group.java:178-215 | an accepted event stays accepted after an add exactly when that add does not fill an empty place list or date list against it |
| `GroupLaws.SettledKept` | NewsSummary/src/events/Group.java:109-118 | a group with a place and a date never stops accepting what it accepts, whatever is added |
| `GroupLaws.PickSubjectExact` | NewsSummary/src/events/Group.java:216-233 | pruning keeps exactly the subjects not ignored, in order, or the last one when all are ignored; it empties no list |
| `GroupLaws.PickedAt` | NewsSummary/src/events/Group.java:216-233 | pruning keeps the tokens at exactly those positions where the token shows no ignored word up to case, or the last token when all show one; told on the words and what the tokens show |
| `Clustering.FirstFit` | NewsSummary/src/events/FinalTableEvent.java:67-77 | the index is that of the lowest accepting group, or the number of groups when none accepts |
| `Clustering.ClusterGrown` | NewsSummary/src/events/FinalTableEvent.java:31-38 | in every run every group is the group of its own members, each accepted by the group of those before it |
| `Clustering.ClusterConnected` | NewsSummary/src/events/FinalTableEvent.java:31-38 | in every run two members of one group are linked through members of that group by shared verbs |
| `Clustering.ComponentsNeverMix` | NewsSummary/src/events/FinalTableEvent.java:31-38 | any labelling constant along shared verbs is constant on each group, so components of the shared-verb graph never mix |
| `Clustering.ClusterCommonDate` | NewsSummary/src/events/Group.java:159-176 | the common date law for every group of every run: one instant at which some date of every dated member begins |
| `Clustering.ClusterPlaceLink` | NewsSummary/src/events/Group.java:187-199 | the place law for every group of every run |
| `Clustering.SettledForGood` | NewsSummary/src/events/Group.java:178-215 | over a run a group's date never changes and a group with place and date accepts at every later point what it once accepts |
| `Clustering.ClusterHistory` | NewsSummary/src/events/FinalTableEvent.java:33-38 | the run is a first-fit assignment judged only by earlier events, and its groups are exactly those the assignment describes, in founding order |
| `Clustering.FirstFitUnique` | NewsSummary/src/events/FinalTableEvent.java:67-77 | there is only one assignment of events to groups that is first fit at every arrival |
| `Clustering.FoundersInOrder` | NewsSummary/src/events/FinalTableEvent.java:33-38 | groups stand in the order of their founders |
| `Clustering.FounderRejected` | NewsSummary/src/events/FinalTableEvent.java:33-38 | a founder was rejected by every group then existing |
| `Clustering.ClusterConserves` | NewsSummary/src/events/FinalTableEvent.java:31-38 | the groups hold exactly the given events with multiplicity, each weight is its member count, weights sum to the number of events (on the values of the events; for the event objects see FinalTables.FinalTableEvent.ClusterEvents) |
| `Clustering.ClusterMembers` | NewsSummary/src/events/Group.java:109-118 | each group's members are a subsequence of the input |
| `Clustering.HeldPermuted` | NewsSummary/src/events/FinalTableEvent.java:39-40 | reordering groups changes nothing about what they hold |
| `FinalTables.FinalTableEvent.constructor` | NewsSummary/src/events/FinalTableEvent.java:14-20 | after construction the groups' states are the final table of the flattened events, on distinct group objects, and the itemLists hold exactly the event objects of all tables, with multiplicity (what pruning leaves in a row: TimeFlowLaws.RowExact) |
| `FinalTables.FinalTableEvent.PutEventToList` | NewsSummary/src/events/FinalTableEvent.java:22-29 | appends all events of all tables in order |
| `FinalTables.FinalTableEvent.SyntheticEvent` | NewsSummary/src/events/FinalTableEvent.java:31-43 | cluster, order by time, prune subjects: the whole new list of group states, the itemLists together holding exactly the event objects of listEvent (what pruning leaves in a row: TimeFlowLaws.RowExact) |
| `FinalTables.FinalTableEvent.OrderAndPrune` | NewsSummary/src/events/FinalTableEvent.java:39-40 | ordering by time followed by pruning, on the same group objects, which keep their event objects (what pruning leaves in a row: TimeFlowLaws.RowExact) |
| `FinalTables.FinalTableEvent.ClusterEvents` | NewsSummary/src/events/FinalTableEvent.java:33-38 | the loop over events builds the clustering of all of them; the groups' itemLists hold exactly the event objects of listEvent, with multiplicity |
| `FinalTables.FinalTableEvent.FindGroup` | NewsSummary/src/events/FinalTableEvent.java:67-72 | the scan finds the lowest accepting group |
| `FinalTables.FinalTableEvent.BelongToAnyGroup` | NewsSummary/src/events/FinalTableEvent.java:67-77 | true exactly when some group accepts; then the event object is added to the lowest one and no other group changes |
| `FinalTables.FinalTableEvent.SortByTime` | NewsSummary/src/events/FinalTableEvent.java:79-106 | the same group objects with the same event objects, their states in the order timeFlow gives |
| `FinalTables.FinalTableEvent.SubjectFilter` | NewsSummary/src/events/FinalTableEvent.java:48-66 | each group's subject is pruned and nothing else changes, no itemList either (what pruning leaves in a row: TimeFlowLaws.RowExact) |
| `GroupViews.ItemsPermuted` | NewsSummary/src/events/FinalTableEvent.java:39-40 | reordering group objects changes nothing about the event objects they hold |
| `FinalTables.FinalTableEvent.SubjectLines` | NewsSummary/src/events/FinalTableEvent.java:115-119 | the subject of every group is looked up within bounds |
| `TimeFlowLaws.TimeFlowSorts` | NewsSummary/src/events/FinalTableEvent.java:79-106 | with known starts (fewer than 32 groups): a permutation, dated groups ascending first, undated groups last, ties and undated groups in their old order, although two undated groups compare as 1 both ways |
| `TimeFlowLaws.TimeFlowExact` | NewsSummary/src/events/FinalTableEvent.java:79-106 | timeFlow (on fewer than 32 groups) orders every arrangement of the groups if and only if no group of unknown start stands among groups of different known starts |
| `TimeFlowLaws.StrayShields` | NewsSummary/src/events/FinalTableEvent.java:101-103 | the failing family: a group of unknown start between a later and an earlier group keeps them in the wrong order, whatever follows |
| `TimeFlowLaws.TimeFlowUndated` | NewsSummary/src/events/FinalTableEvent.java:93-96 | undated groups keep their order |
| `TimeFlowLaws.GroupsContract` | NewsSummary/src/events/FinalTableEvent.java:91-104 | timeFlow's comparator meets its contract on a list of groups if and only if at most one of them is undated and no stray stands among different known starts |
| `TimeFlowLaws.AnyStableSort` | NewsSummary/src/events/FinalTableEvent.java:79-106 | under that condition on the clustering, every stable sort of it, at any length, gives this table |
| `TimeFlowLaws.ClusterComparable` | NewsSummary/src/events/FinalTableEvent.java:31-40 | a run of events whose first dates are comparable (no unknown first date among different known ones) ends in comparable groups |
| `TimeFlowLaws.StrayRun` | NewsSummary/src/events/FinalTableEvent.java:31-43 | the failing run: events that share no verbs, the first later than the third and between them one whose first date is unknown, end in a table out of order |
| `TimeFlowLaws.FinalTableExact` | NewsSummary/src/events/FinalTableEvent.java:31-43 | for events that share no verbs: the table is in order of date whatever order they arrive in, if and only if no event with an unknown first date stands among events of different first dates |
| `TimeFlowLaws.FinalTableConserves` | NewsSummary/src/events/FinalTableEvent.java:31-43 | ordering and pruning keep conservation, member order, weights and the acceptance history of every row (on the values of the events; for the event objects see FinalTables.FinalTableEvent.constructor) |
| `TimeFlowLaws.RowExact` | NewsSummary/src/events/FinalTableEvent.java:31-43 | every row is the group of its members in all but the subject, and its subject is the tokens of its members' subjects put end to end that show no ignored word, in order, or the last of them when all show one |
| `TimeFlowLaws.RowsAreGroups` | NewsSummary/src/events/FinalTableEvent.java:31-43 | the member lists of the rows are those of the clustering, rearranged |
| `TimeFlowLaws.FinalTableInOrder` | NewsSummary/src/events/FinalTableEvent.java:39-40 | when no stray group stands among different known starts the printed rows stand in order of date and undated rows last in founding order (fewer than 32 groups) |
| `TimeFlowLaws.SubjectsPresent` | NewsSummary/src/events/Group.java:249-258 | if every event has a subject, every row of the table has one after pruning |
| `TimeFlowLaws.PrintingKeepsClusters` | NewsSummary/src/events/Event.java:69-97 | clustering the events that printing leaves behind is the same clustering |
| `GroupLists.GroupList.constructor` | NewsSummary/src/events/GroupList.java:12-32 | the groups are the simple group-by on the verb key and eventIndex sends exactly the keys seen to their ranks of first occurrence (what the key tells apart: GroupLists.KeyExact) |
| `GroupLists.SeparatedConcat` | NewsSummary/src/events/GroupList.java:16-17 | the key's texts are put end to end with a comma and a space between them, whatever the number of verbs |
| `GroupLists.KeyExact` | NewsSummary/src/events/GroupList.java:16-17 | two non-empty verb lists of any length, no text containing a comma, have the same key if and only if they show the same texts in the same order |
| `GroupLists.CommaCollides` | NewsSummary/src/events/GroupList.java:16-17 | a comma in a text makes different verb lists share a key: two texts and the one text that joins them |
| `GroupLists.GroupList.IndexEvent` | NewsSummary/src/events/GroupList.java:16-31 | one round keeps both: group-by and index, for the events so far |
| `GroupLists.IndexOld` | NewsSummary/src/events/GroupList.java:17-21 | a known key joins its own group and the index stays a bijection |
| `GroupLists.IndexNew` | NewsSummary/src/events/GroupList.java:22-29 | a new key founds the last group and the extended index is again a bijection |
| `GroupLists.GroupList.CollectBest` | NewsSummary/src/events/GroupList.java:48-50 | appends each group's best event in group order |
| `GroupLists.GroupList.GetBest` | NewsSummary/src/events/GroupList.java:47-53 | the best list is the old list followed by the best events, sorted |
| `GroupLists.GroupList.SortByTime` | NewsSummary/src/events/GroupList.java:54-73 | sorts the best list; a thrown comparison leaves it as far as the sort had come |
| `GroupListLaws.GroupByAgree` | NewsSummary/src/events/GroupList.java:16-31 | two keys group a list of events alike exactly when they identify the same pairs of events |
| `GroupListLaws.PlainCluster` | NewsSummary/src/events/FinalTableEvent.java:67-77 | on events of one verb and no place or date the first-fit clustering is the group-by on the folded verb |
| `GroupListLaws.IndexAgreesWithFirstFit` | NewsSummary/src/events/GroupList.java:12-32 | on such events the hash index and the first-fit scan give the same groups in the same order if and only if no verb comes in two case variants |
| `GroupListLaws.PlainTimeFlow` | NewsSummary/src/events/FinalTableEvent.java:79-106 | timeFlow leaves those groups where they are |
| `GroupListLaws.BestLawful` | NewsSummary/src/events/GroupList.java:56-65 | the best-event comparator orders a list exactly when no event is missing and every dated one has an interval start |
| `GroupListLaws.BestSorted` | NewsSummary/src/events/GroupList.java:54-73 | when no comparison of two best events can throw, the sort ends with the stable order by date, undated events last, ties and undated events in group order |
| `GroupListLaws.BestOfEachGroup` | NewsSummary/src/events/GroupList.java:47-53 | with weights at least 0 one getBest selects exactly one event of every group, the first no other member outweighs, never null |
| `GroupListLaws.BestsExact` | NewsSummary/src/events/GroupList.java:54-73 | the sort of the best events ends, and in order, for every arrangement of the groups if and only if no comparison of two of them can throw: none is missing and, if two are dated, every dated one has an interval start |
| `GroupListLaws.BestsContract` | NewsSummary/src/events/GroupList.java:57-65 | the best-event comparator meets its contract if and only if no comparison can throw and at most one best event is undated |
| `GroupListLaws.BestEvents` | NewsSummary/src/events/GroupList.java:12-53 | building the index and asking it once: one event of every group, the first no other member outweighs, never null, and in the stable order by date when no comparison of two of them can throw |
| `Trees.FirstSubTree` | NewsSummary/src/events/SentenceAnalysis.java:237-253 | the recursive search with early return finds the specified first match |
| `Trees.SubTrees` | NewsSummary/src/events/SentenceAnalysis.java:216-235 | the recursive search with its result list finds the specified topmost matches (told on labels: Trees.VerbTreesExact) |
| `Trees.TopLocated` | NewsSummary/src/events/SentenceAnalysis.java:216-235 | the trees returned are the nodes at the topmost matching positions, in order |
| `Trees.TopSound` | NewsSummary/src/events/SentenceAnalysis.java:216-235 | each position found matches and no node above it does |
| `Trees.TopOrdered` | NewsSummary/src/events/SentenceAnalysis.java:229-232 | the positions run left to right and none lies above another |
| `Trees.TopExactlyOne` | NewsSummary/src/events/SentenceAnalysis.java:216-235 | every matching node of the tree lies at or below exactly one of them |
| `Trees.FirstIsTopmost` | NewsSummary/src/events/SentenceAnalysis.java:237-253 | the first search returns the head of the topmost list for the same label |
| `Trees.NothingFound` | NewsSummary/src/events/SentenceAnalysis.java:216-253 | both searches report nothing exactly when no node matches |
| `Trees.TopLeavesInOrder` | NewsSummary/src/events/SentenceAnalysis.java:204-214 | the words of the topmost matches stand in the tree in the same order |
| `Trees.VerbTreesExact` | NewsSummary/src/events/SentenceAnalysis.java:216-235 | the trees found for VB are exactly the topmost nodes labelled VB followed by letters, digits and underscores: each found has such a label, and every node so labelled lies at or below exactly one of them; told on labels and positions |
| `Trees.FirstNodeFound` | NewsSummary/src/events/SentenceAnalysis.java:237-253 | the first search for a plain label finds the node with exactly that label that lies above or to the left of all others, and nothing if and only if there is none |
| `Trees.LeavesExact` | NewsSummary/src/events/SentenceAnalysis.java:204-214 | the leaves of a tree are the words of exactly its childless nodes, left to right |
| `Trees.TopLeavesExact` | NewsSummary/src/events/SentenceAnalysis.java:170-190 | the words below the topmost matches are those of exactly the leaves with a match above them, left to right |
| `Sentences.SentenceAnalysis.AnalysisSentence` | NewsSummary/src/events/SentenceAnalysis.java:89-117 | a fresh event holds the analysis of the sentence, field by field as told by SubjectExact, VerbsExact and ListsExact; without an NP it stays blank; the object and other lists carry over between calls |
| `Sentences.SentenceAnalysis.FindVbInVp` | NewsSummary/src/events/SentenceAnalysis.java:170-201 | the listed words below the topmost VB nodes join SKID in order (which words these are: Sentences.VerbsExact) |
| `Sentences.SentenceAnalysis.PutStuffOfEvent` | NewsSummary/src/events/SentenceAnalysis.java:156-164 | places and times are set and the weight is taken before there are objects |
| `Sentences.SentenceAnalysis.PutObject` | NewsSummary/src/events/SentenceAnalysis.java:142-154 | object-tagged tokens outside subject, places and times join the object list |
| `Sentences.SentenceAnalysis.MakeOtherList` | NewsSummary/src/events/SentenceAnalysis.java:73-88 | tokens matching none of the five lists join the other list, which is trimmed three times |
| `Sentences.SentenceAnalysis.TrimLast` | NewsSummary/src/events/SentenceAnalysis.java:62-71 | asks about the last token and removes the first equal one |
| `Sentences.SentenceAnalysis.Contain` | NewsSummary/src/events/SentenceAnalysis.java:119-140 | finds a token exactly when some listed token has the same folded text |
| `Sentences.SentenceAnalysis.InListVerb` | NewsSummary/src/events/SentenceAnalysis.java:256-266 | decides by value, up to case, against the verb list |
| `Sentences.VerbsInSentenceOrder` | NewsSummary/src/events/SentenceAnalysis.java:170-214 | SKID is the in-list filter of the leaves of the topmost VB subtrees of the first VP and a subsequence of the sentence's leaves |
| `Sentences.SubjectExact` | NewsSummary/src/events/SentenceAnalysis.java:165-168 | CTID is made of exactly the leaves below the first node labelled NP, left to right |
| `Sentences.VerbsExact` | NewsSummary/src/events/SentenceAnalysis.java:170-201 | SKID is made of exactly those leaves below the first node labelled VP that have a node labelled VB and word characters above them, not above that VP, and whose word is in the verb list up to case; left to right; told on labels and positions |
| `Sentences.WithoutPhrase` | NewsSummary/src/events/SentenceAnalysis.java:89-117 | without a node labelled VP there are no verbs; without one labelled NP, or without a tree, every list is empty and the weight 0 |
| `Sentences.ListsExact` | NewsSummary/src/events/SentenceAnalysis.java:73-164 | NCID is the places and TGID the times; the objects are the carried ones and exactly the tokens with one of the five tags that match neither subject, places nor times; the other tokens are the carried ones and exactly the tokens that match none of the five lists, trimmed three times; the weight counts times and places |
| `Sentences.VerbImpliesSubject` | NewsSummary/src/events/SentenceAnalysis.java:165-168 | an event with a verb has a subject |
| `Sentences.WeightIgnoresObjects` | NewsSummary/src/events/SentenceAnalysis.java:108-110 | the weight counts times and places only, whatever the tokens are |
| `Sentences.TokensCovered` | NewsSummary/src/events/SentenceAnalysis.java:73-88 | every token is classified, or other, or one of at most three trimmed tokens; the unclassified tokens are with multiplicity exactly the other tokens and the trimmed ones; other tokens match none of the five lists; the objects are exactly the object-tagged tokens outside subject, places and times |
| `Sentences.TrimTakesLast` | NewsSummary/src/events/SentenceAnalysis.java:62-71 | a trim takes the last token away if and only if nothing else follows an equal one |
| `Sentences.TrimTakesEarlier` | NewsSummary/src/events/SentenceAnalysis.java:62-71 | trim alone, on equal tokens: with on, a, on the leading on is lost as well |
| `Sentences.TrimExact` | NewsSummary/src/events/SentenceAnalysis.java:62-71 | a trim takes out the first token equal to the last one if its text is on, in or a full stop, and otherwise nothing |
| `Sentences.TrimLongestSuffix` | NewsSummary/src/events/SentenceAnalysis.java:84-86 | on pairwise distinct tokens n trims (the source does three) remove exactly the longest suffix of on, in and . tokens of length up to n |
| `Sentences.OtherTokensExact` | NewsSummary/src/events/SentenceAnalysis.java:73-88 | for a sentence of pairwise distinct tokens the other tokens are the unclassified ones without that suffix |
| `Pipeline.AnnotationProcessing` | NewsSummary/src/StanfordCoreNlpDemo.java:132-169 | the table holds, in order, the events of the sentences that have a listed verb |
| `Pipeline.PrintTable` | NewsSummary/src/events/TableEvent.java:51-68 | printing a table deduplicates the time tokens of each of its events and changes nothing else |
| `Pipeline.Summarise` | NewsSummary/src/StanfordCoreNlpDemo.java:108-155 | the whole run on any news, verb list and pronoun list: the table is that of the printed analyses of exactly the sentences of all the news whose analysis has a verb, in order, and its weights sum to their number; every subject lookup is in bounds, each line is the first subject of its row, and it shows an ignored word only when every subject of every member of the row does |
| `Pipeline.AllEventsExact` | NewsSummary/src/StanfordCoreNlpDemo.java:112-150 | an increasing list of positions in the sentences of all news, put end to end, names exactly those whose analysis has a non-empty SKID, and the events are their analyses with the time tokens deduplicated by text |
| `Pipeline.RowLine` | NewsSummary/src/events/Group.java:249-258 | the first subject of a row has its shown word as text, and shows an ignored word only when every subject of every member does |
| `Pipeline.SubjectsOfNews` | NewsSummary/src/StanfordCoreNlpDemo.java:152-155 | every row of the final table of any news has a subject |
| `Pipeline.PrintingKeepsTable` | NewsSummary/src/events/Event.java:87-97 | printing the events beforehand changes nothing in the final table but the members' own duplicate time tokens |
| `Pipeline.EventDates` | NewsSummary/src/events/Event.java:220-283 | an analysed event's dates are the times resolved from its sentence, unknown starts first, known ones ascending; the first is known if and only if all are |
| `Pipeline.RowDate` | NewsSummary/src/events/Group.java:103-107 | every dated row of the table of any news takes its date from a sentence of the news, that of its first dated member; the date is the earliest of the times resolved there when all are known, and the row is a stray if and only if one of them is not |
| `Pipeline.NewsInOrder` | NewsSummary/src/events/FinalTableEvent.java:31-43 | news in which every resolved time has a known start end in a table in order of date |
| `Pipeline.EventOrigin` | NewsSummary/src/StanfordCoreNlpDemo.java:132-169 | every event of the table is the printed analysis of a sentence of the news and has a verb |

## Left out

- CoreNLP, SUTime and `NEREngine`: library calls; their results are parameters.
- The platform's sort from 32 elements on: its runs, merges and contract-violation exception. Results for such lists are those that go through `ComparatorContract.ContractSortExact`.
- TimeSort.SortList: computes the platform's sort only for fewer than 32 elements; for longer lists it goes on inserting, which gives the platform's list whenever the comparator meets its contract.
- TimeSort.SortStable: asks nothing of positive outcomes, which suffices below 32 elements; ComparatorContract.ContractSortExact is the statement for every length.
- TimeFlowLaws.TimeFlowSorts: about fewer than 32 groups; for longer lists see TimeFlowLaws.AnyStableSort and the condition of TimeFlowLaws.GroupsContract.
- TimeFlowLaws.TimeFlowExact: about fewer than 32 groups; for longer lists see TimeFlowLaws.AnyStableSort and the condition of TimeFlowLaws.GroupsContract.
- TimeFlowLaws.StrayShields: about fewer than 32 groups; for longer lists see TimeFlowLaws.AnyStableSort and the condition of TimeFlowLaws.GroupsContract.
- TimeFlowLaws.StrayRun: about fewer than 32 groups; for longer lists see TimeFlowLaws.AnyStableSort and the condition of TimeFlowLaws.GroupsContract.
- TimeFlowLaws.FinalTableInOrder: about fewer than 32 groups; for longer lists see TimeFlowLaws.AnyStableSort and the condition of TimeFlowLaws.GroupsContract.
- TimeFlowLaws.FinalTableExact: the only-if half is for events that share no verbs, and fewer than 32 of them; when verbs are shared, which groups arise depends on the order of arrival, and only the if half (`TimeFlowLaws.ArrangedInOrder`) is stated.
- Events.EarliestFirstExact: about fewer than 32 dates; for longer lists see Events.DatesContract.
- GroupListLaws.BestsExact: about fewer than 32 best events; for longer lists see GroupListLaws.BestsContract.
- FinalTables.FinalTableEvent.SortByTime: as for TimeSort.SortList.
- GroupLists.GroupList.SortByTime: as for TimeSort.SortList; the list left by a thrown comparison is that of fewer than 32 best events.
- GroupListLaws.BestLawful: is about the comparator alone; GroupListLaws.BestsExact says when the list comes out in order.
- Clustering.ClusterConserves: conserves the values of the events; FinalTables.FinalTableEvent.ClusterEvents conserves the event objects.
- TimeFlowLaws.FinalTableConserves: conserves the values of the events; FinalTables.FinalTableEvent.constructor conserves the event objects.
- Null tokens, null labels and null list elements: the model has none. A null start, a null interval, a missing best event, a missing tree and a missing noun phrase are modelled.
- Aliasing between an analysis' object and other lists and the event they were given to: a second `analysisSentence` on the same object would also extend the first event's lists; the model carries the lists over but the first event keeps its own.
- Reading files (`EnterNews`, `Title`, the verb and pronoun lists) and the Swing `Table`: input and display.
- Printing other than the time line and the subject line: string formatting only.
- `Group.timeComparation`, `printObjID`, `printOtherID`, plain getters and setters, `TableEvent` as a container (an event table is its list of events): unused or containers only.
- `getBestTitle` and `bestTitle`: the longest line of `title.txt` and the greatest file name, for display.
- `EasierBashLife` and `Snort-POCAD`: shell plumbing and configuration.
