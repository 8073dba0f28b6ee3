# activity-feed core, modelled in Dafny

This project models the core of the `activity-feed` engine, a TypeScript port of the Python
`stream_framework`. It covers four connected pieces:

- **Activities and aggregated activities**, in both versions the repository carries:
  - the current one (`src/activity.ts`, module `Activities`);
  - the earlier one (`old-src/activity.ts`, module `LegacyActivities`).

  An activity is identified by its serialization id. That id is the decimal text of its time in
  epoch milliseconds, followed by its object id zero-padded to ten digits and its verb id
  zero-padded to three, read back as a number (module `Digits`). An aggregated activity is a
  bounded buffer of at most fifteen members that counts the members it evicts. In the current
  version `append` ignores a duplicate and evicts the oldest member. In the earlier version
  `append` throws `Duplicate Activity` and drops the activity it has just pushed. The earlier
  version also checks the id's digit budgets and the presence of a time on every read. It
  dehydrates an aggregation to the ids of its members and hydrates it back from a lookup table.
- **Aggregators** (`old-src/aggregators.ts`, module `Aggregators`). `groupActivities` folds a
  batch into groups keyed by `getGroup`. `aggregate` ranks the groups. `merge` splits a new batch
  into new groups and changed groups.
- **Feeds** (`src/feeds/base.ts`, module `Feeds`). This file's code is commented-out Python. The
  model covers:
  - the storage key and length cap of `BaseFeed` and `UserBaseFeed`;
  - `feed[k]` argument checks and range normalisation;
  - trimming;
  - hydration of what a timeline returns;
  - `get_activity_slice`;
  - `add_many` and `remove_many`, with their trim dice and `on_update_feed` hook;
  - the clone-on-`filter` and `order_by` behaviour.
- **Fan-out planning** (`src/feed-manager.ts`, module `FeedManager`):
  - the chunking of follower ids;
  - the choice of task by priority;
  - the units `createFanoutTasks` schedules;
  - `addUserActivity`, `removeUserActivity` and `update_user_activities` as methods of a
    `Manager` object. That object holds a task queue, a log of the global activity store and a
    log of writes to users' own feeds.

The verb table (`old-src/verbs.ts`) is the module `Verbs`. `Common` holds `Option`, `Result` and
the errors the source raises. `Seqs` holds generic sequence facts: distinct-by-key, stable
insertion sort, flattening and keyed maps.

The objects the source mutates in place are classes:

- `AggregatedActivity`, in both versions;
- `Feed`;
- `TimelineStorage`;
- `Manager`.

Each class method is proved against a value-level function of the object's state, reached through
`View()` where the class has one. The properties are proved about those functions.

## Model

| member | source | states |
|---|---|---|
| Verbs.Lookup | old-src/verbs.ts:34-41 | a verb is found exactly for ids 1 to 4; it carries its own id, which fits three digits, and its regular past tense |
| Verbs.RegistryShape | old-src/verbs.ts:34-39 | the table has exactly the four keys 1, 2, 3 and 4, each verb stored under its own id below 1000, and its values are the four verbs |
| Verbs.PastTenses | old-src/verbs.ts:10-32 | every registered verb pairs its infinitive with the regular past tense (follow/followed, comment/commented, love/loved, add/added) |
| Digits.ParseDecimalString | src/activity.ts:37-41 | `Number.parseInt` of `n.toString()` gives back `n` |
| Digits.DecimalStringInjective | src/activity.ts:37 | distinct numbers have distinct decimal text |
| Digits.PaddedDecimal | src/activity.ts:38-39 | a number below 10^w, padded with zeros to width w, is exactly w digits and parses back to itself |
| Digits.SerializationTextValue | src/activity.ts:37-41 | within the digit budgets, the concatenated id text parses to `ms·10^13 + objectId·10^3 + verbId` |
| Digits.LayoutDecodes | src/activity.ts:68-78 | time, object id and verb id can be read back from the layout value by division and remainder |
| Digits.LayoutOrder | src/activity.ts:68-78 | layout values compare as (time, object id, verb id) compare lexicographically |
| Activities.NewActivity | src/activity.ts:19-42 | the constructor keeps the given fields and stores the parsed id text as the serialization id |
| Activities.SerializationIdValue | src/activity.ts:37-41 | with object id < 10^10 and verb id < 10^3, the id equals `time·10^13 + objectId·1000 + verbId` |
| Activities.SerializationIdDecodes | src/activity.ts:68-78 | the id decodes uniquely into time, object id and verb id |
| Activities.SerializationIdInjective | src/activity.ts:37-41 | two constructed activities share an id if and only if time, object id and verb id agree |
| Activities.SerializationIdOrder | src/activity.ts:68-78 | ids order activities by time, then by object id, then by verb id (both directions) |
| Activities.ActivityIds | src/activity.ts:82 | `getActivityIds` lists the members' ids in member order |
| Activities.ContainsIds | src/activity.ts:82-86 | `contains` holds if and only if the id is among `getActivityIds` |
| Activities.Appended | src/activity.ts:88-112 | a present id changes nothing; otherwise the activity becomes the last member, the activity count rises by one, past 15 members the oldest is shifted out and counted, members stay at most 15, `createdAt` is set only when missing, `updatedAt` becomes the later of old and new, distinct ids are kept |
| Activities.AppendedUpdatedAtMonotone | src/activity.ts:101-104 | append never moves `updatedAt` backwards, and it reaches the new activity's time unless the activity was present |
| Activities.Removed | src/activity.ts:114-137 | an absent activity is a no-op; removing the sole member is the `EmptyAggregation` error and the only error; otherwise the member with that id leaves, except that for an id of 0 every member stays (the filter compares the object itself), `updatedAt` is the new last member's time, `minimizedActivities` drops by one only when positive, the group is never emptied and no id is gained |
| Activities.RemovedMany | src/activity.ts:139-149 | `removeMany` keeps the invariant, only ever raises `EmptyAggregation`, gains no id, and reports only inputs that were members |
| Activities.RemoveOneOf | src/activity.ts:141-146 | one input of `removeMany`: present exactly when contained, and an absent input changes nothing |
| Activities.RemoveManyAdvance | src/activity.ts:141-146 | after each input the loop state still accounts for the whole call, or the error ends it |
| Activities.RemoveManyDone | src/activity.ts:139-149 | when every input has been visited, the loop state is the outcome of the call |
| Activities.RemovedManyRemovesAll | src/activity.ts:139-149 | after a `removeMany` that raised nothing, no input with a non-zero id is still a member |
| Activities.RemovedManyCount | src/activity.ts:139-149 | with no input whose id is 0, members left plus inputs reported removed equal the members before, so each input is reported exactly when it was removed |
| Activities.ActorIds | src/activity.ts:179-191 | `getActorIds` lists distinct actor ids, exactly those of the members, in order of first occurrence, no more than there are members |
| Activities.ObjectIds | src/activity.ts:193-205 | `getObjectIds` lists distinct object ids, exactly those of the members, in order of first occurrence |
| Activities.DistinctVerbs | src/activity.ts:165-177 | `getVerbs` lists one verb per verb id, the first one seen for it, covering every member's verb id, in order of first occurrence |
| Activities.FirstVerb | src/activity.ts:163 | `getVerb` is the first member's verb, and is absent exactly for an empty aggregation |
| Activities.ActorCountBounds | src/activity.ts:153-157 | the actor count is `minimizedActivities` plus the distinct actors, never exceeds the activity count, and counts at least one actor when there are members |
| Activities.LastActivity | src/activity.ts:159 | `getLastActivity` is the final member, the head of `getLastActivities`, and is absent exactly for an empty aggregation |
| Activities.LastActivities | src/activity.ts:161 | `getLastActivities` is the members reversed |
| Activities.LastActivityAfterAppend | src/activity.ts:159-161 | after appending a new activity, it is the last activity and heads the newest-first list |
| Activities.NewerActivityResetsSeen | src/activity.ts:208-215 | appending an activity later than `seenAt` (`readAt`) makes the aggregation unseen (unread), and one never seen stays unseen |
| Activities.SeenAfterUpdate | src/activity.ts:207-219 | marking seen (read) no earlier than the last update makes it seen (read), and re-appending a member keeps it seen |
| Activities.AggregateSerializationId | src/activity.ts:79 | the aggregation's id is `updatedAt` in tenths of a second, rounded half up; a missing `updatedAt` is an error |
| Activities.AggregatedActivity.constructor | src/activity.ts:56-66 | a new aggregation holds the given group, members and times, with no seen or read time and nothing evicted |
| Activities.AggregatedActivity.Append | src/activity.ts:88-112 | the new state is `Appended` of the old one, and the invariant holds |
| Activities.AggregatedActivity.Remove | src/activity.ts:114-137 | the new state is `Removed` of the old one; on the error the state is unchanged and the error is returned |
| Activities.AggregatedActivity.RemoveMany | src/activity.ts:139-149 | the loop's state, removed inputs and error are `RemovedMany` of the old state |
| Activities.AggregatedActivity.RemoveOne | src/activity.ts:142-145 | one visited input, as `RemoveOneOf` describes |
| Activities.AggregatedActivity.GetActorIds | src/activity.ts:179-191 | the `seen`-table loop returns `ActorIds` |
| Activities.AggregatedActivity.GetObjectIds | src/activity.ts:193-205 | the `seen`-table loop returns `ObjectIds` |
| Activities.AggregatedActivity.GetVerbs | src/activity.ts:165-177 | the `seen`-table loop returns `DistinctVerbs` |
| Activities.AggregatedActivity.UpdateSeenAt | src/activity.ts:210-212 | only `seenAt` changes, to the given moment |
| Activities.AggregatedActivity.UpdateReadAt | src/activity.ts:217-219 | only `readAt` changes, to the given moment |
| LegacyActivities.NewActivity | old-src/activity.ts:74-96 | the constructor keeps the given actor, verb, object and target ids and the given time, or takes the clock reading when no time is given, and starts hydrated |
| LegacyActivities.SerializationId | old-src/activity.ts:136-147 | the getter fails exactly when the object id has more than ten digits, the verb id more than three, or the time is missing; the digit check comes first |
| LegacyActivities.SerializationIdIsText | old-src/activity.ts:142-147 | a successful read is the parsed concatenation of the time, the padded object id and the padded verb id |
| LegacyActivities.SerializationIdDetermines | old-src/activity.ts:118-148 | a successful read depends only on time, object id and verb id, and two reads agree if and only if those three do |
| LegacyActivities.Equals | old-src/activity.ts:103-113 | `__eq__` of a non-activity is `NotAnActivity`; between activities it is true if and only if the ids are equal; an unreadable id fails with its error, this activity's first and then the other operand's |
| LegacyActivities.LessThan | old-src/activity.ts:114-116 | `__lt__` compares serialization ids, and fails only when one cannot be read |
| LegacyActivities.OrderAgreesWithEquality | old-src/activity.ts:103-116 | on serializable activities `__lt__` is irreflexive and transitive, exactly one of less, equal or greater holds, and it orders by time, object id, verb id |
| LegacyActivities.GetDehydratedActivity | old-src/activity.ts:99-101 | `get_dehydrated` succeeds exactly for a serializable activity, and its stand-in's `_activity_ids` is `[id]` |
| LegacyActivities.HydrateActivity | old-src/activity.ts:37-45 | `get_hydrated` fails exactly when the table lacks the id, and otherwise returns the stored activity marked hydrated |
| LegacyActivities.ActivityRoundTrip | old-src/activity.ts:30-45 | dehydrating an activity and hydrating it from a table holding it gives the activity back, marked hydrated |
| LegacyActivities.RefKey | old-src/activity.ts:268 | `activity.serializationId \|\| activity`: a bare id is itself, an activity's id of 0 matches nothing, an unreadable id is its error |
| LegacyActivities.Contains | old-src/activity.ts:265-271 | `contains` of an activity or a bare id holds exactly when the key is one of the member ids; it fails exactly when the key cannot be read |
| LegacyActivities.Appended | old-src/activity.ts:273-297 | fails exactly on an unreadable id (its error) or a present member (`DuplicateActivity`); otherwise the activity count rises by one, below 15 the activity becomes the last member, at 15 the pushed activity is popped again and counted, `updatedAt` is the later of old and new even when popped, `createdAt` is set only when missing, the invariant holds |
| LegacyActivities.Pushed | old-src/activity.ts:278-296 | the part of `append` past its check: push, refresh the times, pop the just-pushed activity past 15 members |
| LegacyActivities.PushedWellFormed | old-src/activity.ts:278-296 | pushing an activity whose id is absent keeps non-zero member ids distinct |
| LegacyActivities.AppendedUpdatedAtMonotone | old-src/activity.ts:286-289 | a successful append never moves `updated_at` backwards and reaches the new activity's time |
| LegacyActivities.KeptProperties | old-src/activity.ts:310-313 | the filter by a present id keeps only old members, none with that id, one fewer when the id is not 0 |
| LegacyActivities.Removed | old-src/activity.ts:299-322 | `remove` keeps the invariant and only ever keeps old members |
| LegacyActivities.RemovedCases | old-src/activity.ts:299-308 | an unreadable key fails with its error, an absent member is a no-op, the sole member is `EmptyAggregation`, and group, `created_at` and hydration fields never change |
| LegacyActivities.RemovedSuccess | old-src/activity.ts:310-321 | a successful removal leaves at least one member, none with the key, `updated_at` the time of the new `last_activity`, `minimized_activities` down by one only when positive |
| LegacyActivities.RemovedKey | old-src/activity.ts:310-321 | filtering by a present id either empties the members (the `last_activity.time` read then fails) or gives the success state above |
| LegacyActivities.RemovedPresent | old-src/activity.ts:310-321 | the removal of a present member from two or more is the filter, then the two field updates, or the failure on an emptied list |
| LegacyActivities.RemovedMany | old-src/activity.ts:324-334 | `remove_many` keeps the invariant, keeps only old members, and reports only its own arguments |
| LegacyActivities.RemovedManyStep | old-src/activity.ts:326-331 | one argument of the loop: a failing `contains` or `remove` ends the call, an absent one is skipped, a removed one is reported first |
| LegacyActivities.RemovedManyRemovesAll | old-src/activity.ts:324-334 | after a `remove_many` that raised nothing, no argument naming a non-zero id is still a member |
| LegacyActivities.RemovedManyReports | old-src/activity.ts:324-334 | after a `remove_many` that raised nothing, every reported argument named a member, and every argument naming a non-zero member id is reported |
| LegacyActivities.RemovedManyCount | old-src/activity.ts:324-334 | with no bare id 0 among the arguments, the members left plus the arguments reported are the members before |
| LegacyActivities.RemoveOneOf | old-src/activity.ts:327-330 | one visited argument keeps the invariant |
| LegacyActivities.RemoveManyAdvance | old-src/activity.ts:326-331 | after each argument the loop state still accounts for the whole call, or the error ends it |
| LegacyActivities.RemoveManyDone | old-src/activity.ts:324-334 | when every argument has been visited, the loop state is the outcome of the call |
| LegacyActivities.Dehydrated | old-src/activity.ts:193-204 | `get_dehydrated` records the member ids in order, empties the members and sets the flag; a dehydrated value is returned as it is; the invariant holds |
| LegacyActivities.DehydratedIdempotent | old-src/activity.ts:193-196 | dehydrating twice is dehydrating once |
| LegacyActivities.Hydrated | old-src/activity.ts:207-217 | a hydrated value is returned as it is; otherwise the looked-up activity of each recorded id is pushed in order, the ids are cleared and the flag unset; it fails exactly when some recorded id is missing from the table |
| LegacyActivities.DehydrateHydrateRoundTrip | old-src/activity.ts:193-217 | dehydrating and then hydrating from a table that maps every member's id to it gives back the same aggregation |
| LegacyActivities.HydratedWellFormed | old-src/activity.ts:207-217 | hydrating from a table that stores every recorded id under itself, readable and without repeating a member, succeeds and keeps the invariant |
| LegacyActivities.DehydratedRestorable | old-src/activity.ts:193-217 | a table that restores every member of a hydrated aggregation can hydrate its dehydrated form keeping the invariant |
| LegacyActivities.ActivityIdsAsWrittenLosesMembers | old-src/activity.ts:230-235 | as written, the getter reports no id for a hydrated aggregation with a member |
| LegacyActivities.ActivityIds | old-src/activity.ts:230-235 | the getter as intended: the recorded ids when there are any, the member ids otherwise |
| LegacyActivities.ActivityIdsSurviveDehydration | old-src/activity.ts:193-235 | the intended getter reports the same ids before and after dehydration, the member ids when hydrated |
| LegacyActivities.ActorIds | old-src/activity.ts:370-382 | `actor_ids` lists distinct actor ids, exactly those of the members, in order of first occurrence |
| LegacyActivities.ObjectIds | old-src/activity.ts:384-396 | `object_ids` lists distinct object ids, exactly those of the members, in order of first occurrence |
| LegacyActivities.DistinctVerbs | old-src/activity.ts:357-369 | `verbs` lists one verb per verb id, the first seen, covering every member's verb id, in order of first occurrence |
| LegacyActivities.FirstVerb | old-src/activity.ts:354-356 | `verb` is the first member's verb, which heads `verbs`; on an empty aggregation the read fails |
| LegacyActivities.ActorCountBounds | old-src/activity.ts:338-347 | the actor count never exceeds the activity count, the other-actor count is one less, and members give at least one actor |
| LegacyActivities.LastActivity | old-src/activity.ts:348-350 | `last_activity` is the final member, the head of `last_activities`, and is absent exactly for an empty aggregation |
| LegacyActivities.LastActivityAfterAppend | old-src/activity.ts:273-297 | below fifteen members an appended activity becomes `last_activity` and heads `last_activities`; on a full aggregation `last_activity` is unchanged |
| LegacyActivities.LastActivities | old-src/activity.ts:351-353 | `last_activities` is the members reversed |
| LegacyActivities.NewerActivityResetsSeen | old-src/activity.ts:399-410 | a successful append later than `seen_at` (`read_at`) makes the aggregation unseen (unread) |
| LegacyActivities.SeenAfterUpdate | old-src/activity.ts:399-414 | marking seen (read) no earlier than the last update makes it seen (read) |
| LegacyActivities.AggregateSerializationId | old-src/activity.ts:188-190 | the aggregation's id is the decimal text of `updated_at` in tenths of a second, rounded half up; a missing `updated_at` is an error |
| LegacyActivities.AggregatedActivity.constructor | old-src/activity.ts:164-175 | a new aggregation holds the given group, members and times, hydrated, nothing evicted |
| LegacyActivities.AggregatedActivity.Has | old-src/activity.ts:265-271 | the key is read first and its error returned; the `some` walk over the members then reports a member with the key exactly as `Contains` does |
| LegacyActivities.AggregatedActivity.Append | old-src/activity.ts:273-297 | the new state is `Appended` of the old one; on an error the state is unchanged and the error returned |
| LegacyActivities.AggregatedActivity.Push | old-src/activity.ts:278-296 | the new state is `Pushed` of the old one |
| LegacyActivities.AggregatedActivity.Remove | old-src/activity.ts:299-322 | the new state and error are `Removed` of the old state |
| LegacyActivities.AggregatedActivity.RemovePresent | old-src/activity.ts:310-321 | the filter and the field updates give `Removed` of the old state |
| LegacyActivities.AggregatedActivity.RemoveMany | old-src/activity.ts:324-334 | the loop's state, removed arguments and error are `RemovedMany` of the old state |
| LegacyActivities.AggregatedActivity.RemoveOne | old-src/activity.ts:327-330 | one visited argument, as `RemoveOneOf` describes |
| LegacyActivities.AggregatedActivity.GetDehydrated | old-src/activity.ts:193-204 | the new state is `Dehydrated` of the old one |
| LegacyActivities.AggregatedActivity.GetHydrated | old-src/activity.ts:207-217 | the push loop gives `Hydrated` of the old state, or leaves it unchanged and fails on a missing id; the invariant is kept unless the table stores a recorded id under another id or brings back a duplicate |
| LegacyActivities.AggregatedActivity.GetActorIds | old-src/activity.ts:370-382 | the `seen`-table loop returns `ActorIds` |
| LegacyActivities.AggregatedActivity.GetObjectIds | old-src/activity.ts:384-396 | the `seen`-table loop returns `ObjectIds` |
| LegacyActivities.AggregatedActivity.GetVerbs | old-src/activity.ts:357-369 | the `seen`-table loop returns `DistinctVerbs` |
| LegacyActivities.AggregatedActivity.UpdateSeenAt | old-src/activity.ts:403-405 | only `seen_at` changes, to the given moment |
| LegacyActivities.AggregatedActivity.UpdateReadAt | old-src/activity.ts:412-414 | only `read_at` changes, to the given moment |
| Aggregators.DateText | old-src/aggregators.ts:128-130 | a missing time prints as `null`, a time as a digit string |
| Aggregators.DateTextInjective | old-src/aggregators.ts:128-130 | distinct times print differently |
| Aggregators.GetGroup | old-src/aggregators.ts:105-145 | the base class puts every activity in the group `''`, and the two subclasses never do |
| Aggregators.GetGroupDecodes | old-src/aggregators.ts:126-145 | a subclass group splits at its first dash into the verb id's digits and the date text, the notification rest again at its first dash into the object id's digits and the date text |
| Aggregators.RecentVerbGroups | old-src/aggregators.ts:126-131 | two activities share a `verb-date` group if and only if verb id and time agree |
| Aggregators.NotificationGroups | old-src/aggregators.ts:139-145 | two activities share a `verb-object-date` group if and only if verb id, object id and time agree |
| Aggregators.DefaultSortKeepsOrder | old-src/aggregators.ts:91-92 | the comparator-less `sort()` leaves the batch in input order |
| Aggregators.SortedById | old-src/aggregators.ts:89-92 | the intended sort is ascending by id, a permutation, and stable |
| Aggregators.DefaultSortMisorders | old-src/aggregators.ts:89-92 | two activities given newest first stay unsorted by the sort as written and are swapped by the intended one |
| Aggregators.FoldShape | old-src/aggregators.ts:93-99 | after a successful fold every activity was serializable, each key appears once in order of first appearance, one group per key seen, each group holds the first fifteen activities of its key and counts the rest as evicted |
| Aggregators.FoldHolds | old-src/aggregators.ts:93-99 | what the fold holds for each of its keys, as above |
| Aggregators.FoldDuplicate | old-src/aggregators.ts:98 | appending an activity still held by its group fails the fold with `DuplicateActivity` |
| Aggregators.RepeatedActivityFails | old-src/aggregators.ts:98 | the same activity twice in a row fails the fold with `DuplicateActivity`, unless its group was full |
| Aggregators.FoldLast | old-src/aggregators.ts:93-99 | one more activity is one more step of the fold, and an earlier error propagates |
| Aggregators.FoldUnserializable | old-src/aggregators.ts:93-99 | an activity whose id cannot be read stops the fold with the getter's error |
| Aggregators.GroupedAsWritten | old-src/aggregators.ts:87-102 | as written, `groupActivities` folds the batch in input order |
| Aggregators.Grouped | old-src/aggregators.ts:87-102 | as intended, `groupActivities` folds the batch sorted by id: it has the fold's shape over the sorted batch, and each group's members ascend by id |
| Aggregators.GroupedInIdOrder | old-src/aggregators.ts:89-99 | with the intended sort, the members of every group are in ascending id order |
| Aggregators.RecentRank | old-src/aggregators.ts:115-120 | the intended `recentRank` is a permutation, newest update first, stable among equal times |
| Aggregators.RecentRankAsWrittenUnsorted | old-src/aggregators.ts:115-120 | as written, an older group stays ahead of a newer one; the intended ranking swaps them |
| Aggregators.RankAsWritten | old-src/aggregators.ts:108-124 | as written, `rank` gives nothing for the base class and the groups unchanged for the subclasses: the same groups as the intended ranking |
| Aggregators.Rank | old-src/aggregators.ts:108-124 | as intended, `rank` gives nothing for the base class and a permutation of the groups, newest update first, for the subclasses |
| Aggregators.GroupValuesFacts | old-src/aggregators.ts:93-99 | every group of a successful fold is well formed, has a member and is stored under its own key |
| Aggregators.GroupNonEmpty | old-src/aggregators.ts:95-98 | a group that a key of the batch created holds at least one activity |
| Aggregators.AggregatedAsWritten | old-src/aggregators.ts:26-34 | `aggregate` as written: fails exactly when the fold fails; the base class returns nothing; the subclasses return every group once, in order of first appearance of its key, each holding its activities and non-empty |
| Aggregators.FirstAppearance | old-src/aggregators.ts:28-30 | `Object.values` of the fold lists one group per key, in order of first appearance, each holding its activities |
| Aggregators.Aggregated | old-src/aggregators.ts:26-34 | `aggregate` as intended: fails exactly when grouping fails; the base class ranks nothing; every group returned is well formed, non-empty and the fold's group for its key; the subclasses return every group; no group appears twice; newest update first, ties in order of first appearance |
| Aggregators.CurrentByGroupFacts | old-src/aggregators.ts:56-60 | the lookup holds every group key of the batch, each entry carries its key, and the last aggregation with a key wins |
| Aggregators.CurrentGroups | old-src/aggregators.ts:56-60 | the `forEach` loop builds `CurrentByGroup` |
| Aggregators.MergeGroupsAsWritten | old-src/aggregators.ts:62-82 | as written, the walk fails only with `NotAFunction`, reports nothing as changed, and its new groups are incoming groups with unknown keys |
| Aggregators.MergeGroupsAsWrittenFails | old-src/aggregators.ts:65-80 | as written, the walk succeeds if and only if no incoming group with members has an existing key |
| Aggregators.MergeAsWrittenExistingGroupFails | old-src/aggregators.ts:26-78 | as written, any group `aggregate` returns with an existing key makes `merge` throw `NotAFunction` |
| Aggregators.AppendedAll | old-src/aggregators.ts:69-75 | the merged copy keeps the group and the old members as a prefix, stays well formed and within fifteen members, and never fails with `DuplicateActivity` |
| Aggregators.AppendedAllMembers | old-src/aggregators.ts:69-75 | the copy's members come from the group or the batch, and every activity of the batch is readable and a member unless the copy holds fifteen |
| Aggregators.MergeOne | old-src/aggregators.ts:69-75 | the inner loop returns `AppendedAll` |
| Aggregators.MergeGroups | old-src/aggregators.ts:62-82 | the walk as intended: new groups are incoming groups with unknown keys; each changed pair is (the current group, its merged copy) with different members, the old members a prefix of the new; at most one entry per incoming group |
| Aggregators.MergeGroupsChanged | old-src/aggregators.ts:65-80 | the walk succeeds exactly when every copy of an existing group does; every changed pair is a current group and its `AppendedAll` copy for some incoming group, and every incoming group with an existing key whose copy differs is reported |
| Aggregators.MergeGroupsNew | old-src/aggregators.ts:65-67 | every incoming group with an unknown key is reported as new |
| Aggregators.BaseMergeIsEmpty | old-src/aggregators.ts:55-83 | merging with the base aggregator, which ranks nothing, reports nothing |
| Aggregators.Merged | old-src/aggregators.ts:55-83 | `merge` as intended: an `aggregate` error is its error; the new groups are exactly the aggregated groups with no current key; each changed pair starts from a current aggregation and grows it, keeping its members as a prefix |
| Aggregators.Merge | old-src/aggregators.ts:55-83 | the two loops of `merge` compute `Merged`, `merge` as intended |
| Feeds.FeedKeyInjective | src/feeds/base.ts:44-47 | two feeds share a storage key if and only if they are of the same class and belong to the same user |
| Feeds.FeedKey | src/feeds/base.ts:44-47 | the key is the class prefix `feed_` or `user_feed:` followed by decimal digits that read back as the user id |
| Feeds.TrimLength | src/feeds/base.ts:157-164 | `length or max_length`: a given non-zero length is used, a missing or zero one falls back to 100 (`BaseFeed`) or 10^6 (`UserBaseFeed`) |
| Feeds.ShouldTrim | src/feeds/base.ts:129-130 | `None` and `False` never trim; a truthy argument (`True` or a batch interface) trims exactly when the draw is at most 0.01 |
| Feeds.Normalize | src/feeds/base.ts:194-212 | any key other than an int or a slice is a `TypeError`, a negative index or bound is rejected, an index `k` reads `[k, k+1)`, a slice reads from its start, 0 when missing, up to its stop, unbounded when missing |
| Feeds.GetItemOf | src/feeds/base.ts:189-225 | `feed[k]` propagates the argument errors, answers `[]` for an empty range without reading, turns `StopIteration` into `None`, and otherwise returns what the read gives or its error |
| Feeds.ListSlice | src/feeds/base.ts:201-212 | a Python slice of a list yields only its elements |
| Feeds.GetItemReadsLikeAList | src/feeds/base.ts:189-225 | over a storage that slices like a list, `feed[k]` is the list's slice, and an index gives a one-item list |
| Feeds.NeedsHydration | src/feeds/base.ts:246-253 | true if and only if some item is dehydrated |
| Feeds.OwnIds | src/feeds/base.ts:239-240 | a plain activity has no `_activity_ids` and fails with `MissingActivityIds` |
| Feeds.ItemIds | src/feeds/base.ts:238-241 | the collected ids contain every item's `_activity_ids`; it fails exactly when some item is a plain activity |
| Feeds.ItemIdsFlatten | src/feeds/base.ts:238-241 | the collected ids are exactly the items' `_activity_ids` lists concatenated in item order |
| Feeds.CollectIds | src/feeds/base.ts:238-241 | the `+=` loop computes `ItemIds` |
| Feeds.LookupOf | src/feeds/base.ts:243 | `{a.serialization_id: a}` succeeds exactly when every id can be read, keyed by id, later entries winning |
| Feeds.HydrateItem | src/feeds/base.ts:244 | a hydrated item is no longer dehydrated; a stand-in becomes an activity; an aggregation keeps its group |
| Feeds.HydrateAll | src/feeds/base.ts:244 | the comprehension succeeds exactly when every item hydrates, and gives one hydrated item per input, in order |
| Feeds.HydratedItems | src/feeds/base.ts:235-244 | `hydrate_activities` returns one item per input with nothing left dehydrated; it fails with `MissingActivityIds` on a plain activity, with the read error when an id fetched by `get_many` cannot be read, and otherwise exactly when some item fails to hydrate |
| Feeds.HydrateActivities | src/feeds/base.ts:235-244 | the method computes `HydratedItems` |
| Feeds.LookupFromStore | src/feeds/base.ts:242-243 | the lookup built from a storage that holds every id asked for maps each of those ids to its stored activity |
| Feeds.DehydrateHydrateItems | src/feeds/base.ts:235-244 | storing the dehydrated form of hydrated items and reading them back through `hydrate_activities` gives the items back |
| Feeds.ActivitySliceOf | src/feeds/base.ts:255-265 | `get_activity_slice` is exhausted exactly when `get_slice` is, returns the slice as it is unless hydration is both needed and asked for, and otherwise hydrates it |
| Feeds.FeedReadsHydratedTimeline | src/feeds/base.ts:189-265 | a feed over a timeline of hydrated items, sliced like a list, reads exactly like the list |
| Feeds.FilteredKwargs | src/feeds/base.ts:276-290 | the merged filter has the union of the keys, new arguments overriding old ones |
| Feeds.FilterInSteps | src/feeds/base.ts:276-290 | filtering in two steps is filtering once with the second step overriding the first |
| Feeds.Feed.constructor | src/feeds/base.ts:44-56 | a new feed has the user's key, a fresh timeline storage, no filters, no ordering and no updates |
| Feeds.Feed.Clone | src/feeds/base.ts:267-274 | the copy has the same attributes and shares the same timeline storage |
| Feeds.Feed.Trim | src/feeds/base.ts:157-164 | one `trim` call on the feed's key with `TrimLength` |
| Feeds.Feed.AddMany | src/feeds/base.ts:116-132 | fails with nothing recorded exactly when some item is not an activity; otherwise records the addition, then a trim when the flag is truthy and the draw is at most 0.01, then calls the hook with `new=activities, deleted=[]` |
| Feeds.Feed.RemoveMany | src/feeds/base.ts:137-149 | records the removal without a batch interface, then a trim when the flag is truthy and the draw is at most 0.01, then calls the hook with `new=[], deleted=ids` |
| Feeds.Feed.GetActivitySlice | src/feeds/base.ts:255-265 | reads with the feed's key, filters and ordering, and returns `ActivitySliceOf` |
| Feeds.Feed.GetItem | src/feeds/base.ts:189-225 | `feed[k]` returns `GetItemOf` over the feed's own read |
| Feeds.Feed.Filter | src/feeds/base.ts:276-290 | a fresh clone sharing the timeline, with the merged filter and the same ordering; this feed keeps its own filter |
| Feeds.Feed.OrderBy | src/feeds/base.ts:292-299 | a fresh clone sharing the timeline, with the ordering replaced and the filter kept |
| FeedManager.Chunk | src/feed-manager.ts:312 | `chunk` gives non-empty pieces of at most `size`, all but the last exactly `size` |
| FeedManager.ChunkFlatten | src/feed-manager.ts:312 | the chunks concatenate back to the follower ids |
| FeedManager.ChunkCount | src/feed-manager.ts:312-316 | there are `ceil(n / size)` chunks, so no followers make no chunk |
| FeedManager.ChunkMember | src/feed-manager.ts:312 | every follower lies in some chunk |
| FeedManager.ChunkExample | src/feed-manager.ts:91 | 250 followers at the default size of 100 make three chunks |
| FeedManager.GetFanoutTask | src/feed-manager.ts:289-290 | the HIGH task exactly for `"HIGH"`, the LOW task exactly for `"LOW"`, and `fanout_operation` for any other priority or none |
| FeedManager.FanoutUnits | src/feed-manager.ts:301-317 | every unit of one `createFanoutTasks` call is on the priority's task with the call's feed class, operation and arguments, and has a non-empty chunk of at most 100 followers |
| FeedManager.FanoutUnitsShape | src/feed-manager.ts:301-317 | one `createFanoutTasks` call schedules `ceil(n/100)` units, all with the same task, feed class, operation and arguments, each with a non-empty chunk of at most 100 followers, the chunks concatenating back to the followers |
| FeedManager.ClassUnits | src/feed-manager.ts:131-139 | every unit of one priority is on that priority's task, with one of the feed classes and the plan's operation and arguments |
| FeedManager.Plan | src/feed-manager.ts:128-140 | every unit of the nested loops carries one of the feed classes and the plan's operation and arguments |
| FeedManager.ClassUnitsSize | src/feed-manager.ts:131-139 | one priority schedules `|feedClasses|·ceil(n/100)` units |
| FeedManager.PlanSize | src/feed-manager.ts:128-140 | the nested loops schedule `Σ_p |feedClasses|·ceil(|followers_p|/100)` units |
| FeedManager.PlanUnitsBelong | src/feed-manager.ts:128-140 | every scheduled unit carries the plan's operation, arguments, one of its feed classes, and followers of one priority only, under that priority's task |
| FeedManager.ClassUnitsBelong | src/feed-manager.ts:131-139 | every unit of one priority carries its operation, arguments, that priority's task, one of the feed classes, and only its followers |
| FeedManager.PlanReachesEveryFollower | src/feed-manager.ts:128-140 | every follower of every priority gets, for every feed class, a unit on that priority's task with the plan's operation and arguments |
| FeedManager.AddOperation | src/feed-manager.ts:21-28 | `add_operation` hands `(activities, batch_interface, trim)` to `add_many` in that method's order: it fails exactly on a non-activity, and its calls are those of `add_many` with the trim flag |
| FeedManager.RemoveOperationAsWrittenIgnoresTrim | src/feed-manager.ts:30-37 | as written, a removal trims if and only if the batch interface is truthy and the draw is favourable; with the arguments in order it trims if and only if `trim` holds and the draw is favourable |
| FeedManager.RemoveOperationAsWritten | src/feed-manager.ts:30-37 | as written, the feed records `remove_many` with the batch interface in the trim position |
| FeedManager.RemoveOperation | src/feed-manager.ts:30-37 | with the arguments in order, the feed records `remove_many` with the trim flag |
| FeedManager.UserFeedsDistinct | src/feed-manager.ts:185 | different users never share a user feed |
| FeedManager.UpdatePlanUnits | src/feed-manager.ts:189-193 | every unit `update_user_activities` schedules adds one of the activities, with trimming, to followers of its own actor |
| FeedManager.RemoveUserActivityAsWrittenFails | src/feed-manager.ts:156-168 | with the default follower lookup and feed classes the undeclared `operation` is reached; the intended removal for 250 HIGH followers schedules three units |
| FeedManager.Manager.constructor | src/feed-manager.ts:81-109 | the default manager fans out to `RedisFeed` with no followers, and starts with an empty queue and empty logs |
| FeedManager.Manager.Custom | src/feed-manager.ts:78-109 | a manager with its own feed classes and follower lookup, starting empty |
| FeedManager.Manager.CreateFanoutTasks | src/feed-manager.ts:301-317 | returns and enqueues exactly `FanoutUnits`, touching nothing else |
| FeedManager.Manager.FanOutPriority | src/feed-manager.ts:131-139 | the inner loop enqueues one priority's units for every feed class, in order |
| FeedManager.Manager.FanOut | src/feed-manager.ts:129-140 | the nested loops enqueue `Plan` |
| FeedManager.Manager.AddUserActivity | src/feed-manager.ts:120-141 | inserts the activity into the global store once, adds it to the actor's own feed once, and enqueues the add plan with `{activities:[activity], trim:true}` |
| FeedManager.Manager.RemoveUserActivityAsWritten | src/feed-manager.ts:147-169 | as written, removes from the actor's own feed, then fails with `UndeclaredName` whenever some priority and some feed class exist, scheduling nothing |
| FeedManager.Manager.RemoveUserActivity | src/feed-manager.ts:147-169 | removes from the actor's own feed only, never touches the global store, and enqueues the removal plan with `trim:false` |
| FeedManager.Manager.UpdateUserActivities | src/feed-manager.ts:189-193 | `addUserActivity(activity.actor.id, activity)` for each activity in order: every activity inserted, one own-feed write per activity, and the plans concatenated in order |

## Left out

- Clocks: `new Date()` is not modelled. A time is passed in as an integer number of
  milliseconds.
  - `LegacyActivities.NewActivity` takes the clock reading as `now`.
  - The current `Activity` always receives its time.
  - `UpdateSeenAt` and `UpdateReadAt` take the moment as a parameter.
- Floating point: arithmetic is exact integer arithmetic.
  - `Number.parseInt` of a 24- to 26-digit id loses precision in JavaScript. The model keeps
    the exact value, so the injectivity and ordering lemmas hold for the model only.
  - `Math.round(updatedAt / 100)` is rounded half up on integers.
- Date text: `${date}` in `getGroup` is modelled as an injective text of the millisecond time
  (`Aggregators.DateText`), not as `Date.prototype.toString`.
- Randomness: `random.random()` is the parameter `draw`.
- Storage and I/O:
  - The timeline storage is a log of the calls a feed makes (`TimelineStorage`).
  - `get_slice` and `get_many` are function parameters.
  - The counts returned by the storage's `add_many` and `remove_many` are not modelled.
  - `count`, `delete`, `index_of`, `flush`, `__iter__` and the storage-option plumbing of
    `BaseFeed` are not part of this model.
  - The global activity store and users' own feeds are logs in the `Manager`.
- Task dispatch: `Manager.fanout` and `.delay` are not modelled.
  - Scheduling is an append of a `FanoutUnit` to the manager's queue.
  - `old-src/tasks.ts` is not part of this model.
  - The commented-out follow, unfollow and batch import code and `getFeeds` are left out.
- `priorityFanoutTask[priority]` looks the priority up in a plain object. Inherited keys such as
  `"constructor"` are not modelled: every priority other than `HIGH` and `LOW` gets
  `fanout_operation`.
- Follower ids are strings and user ids are natural numbers. The order of `Object.keys` on the
  follower mapping is the order of the list the lookup returns.
- `fanoutChunkSize` is the constant 100. `Chunk` requires a positive size, since lodash returns
  `[]` for size 0.
- `validate_list_of_strict` also accepts `FakeActivity`. The model knows only activities,
  dehydrated activities and aggregated activities.
- `groupActivities` is modelled on values (`Aggregators.Fold`). The dictionary of live
  `AggregatedActivity` objects that it mutates through `append` is not: aliasing between the
  dictionary and the objects plays no part in the result.
- `LegacyActivities.Hydrated`: a recorded id missing from the table is the error
  `MissingActivity`. The source instead pushes `undefined` and carries on.
- `LegacyActivities.HydrateActivity`: a missing id is the error `MissingActivity`, where the
  source raises a `TypeError` on `undefined.dehydrated`.
- `Activities.AggregatedActivity.constructor` and `LegacyActivities.AggregatedActivity.constructor`
  require the given members to have distinct ids (non-zero ones in the earlier version). The
  source accepts any list. The invariant every method keeps starts there.
- `LegacyActivities.AggregatedActivity.constructor` also requires every given member to have a
  readable serialization id. The source accepts any list; the model's invariant needs readable ids
  so that `contains`, `remove` and `get_dehydrated` can read each member's id without failing.
- `Activities.RemovedManyCount` requires that no input has the id 0. Removing such an input
  reports it but keeps every member, since the filter compares the object itself.
- `LegacyActivities.RemovedManyCount` requires that no argument is the bare id 0. Members whose id
  is 0 need not be distinct, and one removal of 0 drops all of them.
- `Aggregators.Aggregated`, `Aggregators.MergeGroups`, `Aggregators.Merged` and `Aggregators.Merge`
  model `aggregate` and `merge` as intended, with the sort, the ranking and the copy of an existing
  group corrected (see Findings). `Aggregators.AggregatedAsWritten` and
  `Aggregators.MergeGroupsAsWritten` model them as written.
- `Activities.RemovedMany`: it states that only inputs which were members are reported. That they
  appear in input order is part of its definition, not of a separate contract.
- The extra context, and the actor, object and target objects beside their ids, are not modelled.
- The `Number` type of ids is not modelled: ids are natural numbers, so negative or fractional ids
  cannot arise.

## Findings

| source | as written | input that shows it | evidently intended | confidence | as-written member | corrected member |
|---|---|---|---|---|---|---|
| old-src/aggregators.ts:91-92 | `activities.sort()` without a comparator compares the string `[object Object]` of every activity, so the batch keeps its input order | two activities given newest first, `[a, b]` with `id(a) > id(b)` | sort by serialization id in the order `__lt__` defines (old-src/activity.ts:114-116), ascending, which is what Python's `sort()` in the original uses; the comment at lines 89-90 says "desc" | not executed | Aggregators.DefaultSortMisorders | Aggregators.Grouped |
| old-src/aggregators.ts:115-120 | `recentRank` sorts a copy and returns the unsorted argument | two groups `[u, v]` with `u` updated before `v` | return the groups, most recently updated first | not executed | Aggregators.RecentRankAsWrittenUnsorted | Aggregators.RecentRank |
| old-src/aggregators.ts:69-78 | the existing-group branch spreads an aggregation into a plain object and calls `includes` and `push` on it, which throws | a batch with an activity whose group key is already among the aggregated groups | append the new activities to a copy of the current group, skipping present ones, and report (from, to) when the members changed | not executed | Aggregators.MergeAsWrittenExistingGroupFails | Aggregators.MergeGroupsChanged |
| old-src/activity.ts:230-235 | `if (this._activity_ids)` is true for an empty array, so a hydrated aggregation reports `[]` instead of its member ids | a hydrated aggregation with one serializable member | the recorded ids when there are any, the member ids otherwise | not executed | LegacyActivities.ActivityIdsAsWrittenLosesMembers | LegacyActivities.ActivityIdsSurviveDehydration |
| src/feed-manager.ts:163 | `removeUserActivity` passes `operation`, which is not declared anywhere | any user with some priority and some feed class, including the default configuration | pass `remove_operation` with `{activities: [activity], trim: false}` | not executed | FeedManager.RemoveUserActivityAsWrittenFails | FeedManager.Manager.RemoveUserActivity |
| src/feed-manager.ts:36 | `remove_operation` calls `feed.remove_many(activities, trim, batch_interface)`, but `remove_many` takes `(activity_ids, batch_interface, trim)`, so trimming follows the batch interface | `trim = true`, `batch_interface = None`, draw 0.0: no trim | hand the arguments in `remove_many`'s order | not executed | FeedManager.RemoveOperationAsWrittenIgnoresTrim | FeedManager.RemoveOperation |
