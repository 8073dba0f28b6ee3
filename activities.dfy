/**
 * Activities and aggregated activities of the current engine.
 *
 * An activity is identified by its serialization id: the decimal text of its time in
 * epoch milliseconds, then its object id zero-padded to ten digits, then its verb id
 * zero-padded to three digits, read back as a number. An aggregated activity groups
 * at most fifteen activities, counting the ones it has evicted in `minimizedActivities`.
 */
module Activities {
  import opened Common
  import opened Digits
  import opened Verbs
  import Seqs

  /** Members kept by an aggregated activity before the oldest is evicted. */
  const MaxAggregatedActivitiesLength: nat := 15

  /**
   * `time` is the epoch time in milliseconds; actor, object and target are given by their ids.
   * The constructor computes `serializationId` once and stores it with the other fields.
   */
  datatype Activity = Activity(actorId: nat, verb: Verb, objectId: nat, targetId: Option<nat>, time: nat, serializationId: nat)

  /** The `Activity` constructor: the time is taken as given and the serialization id is derived from it. */
  function NewActivity(actorId: nat, verb: Verb, objectId: nat, targetId: Option<nat>, time: nat): (a: Activity)
    ensures a.actorId == actorId && a.verb == verb && a.objectId == objectId && a.targetId == targetId && a.time == time
    ensures a.serializationId == ParseDecimal(SerializationText(time, objectId, verb.id))
  {
    Activity(actorId, verb, objectId, targetId, time, ParseDecimal(SerializationText(time, objectId, verb.id)))
  }

  function SerializationId(a: Activity): nat { a.serializationId }

  /** The object id fits ten digits and the verb id fits three. */
  predicate FitsLayout(a: Activity) {
    a.objectId < 10_000_000_000 && a.verb.id < 1000
  }

  /** The activity's id is the one its constructor derives. */
  predicate IsConstructed(a: Activity) {
    a == NewActivity(a.actorId, a.verb, a.objectId, a.targetId, a.time)
  }

  /** Within the digit budgets the serialization id is time, object id and verb id in fixed-width fields. */
  lemma SerializationIdValue(a: Activity)
    requires FitsLayout(a) && IsConstructed(a)
    ensures SerializationId(a) == a.time * 10_000_000_000_000 + a.objectId * 1000 + a.verb.id
  {
    SerializationTextValue(a.time, a.objectId, a.verb.id);
  }

  /** The three fields can be read back from the serialization id. */
  lemma SerializationIdDecodes(a: Activity)
    requires FitsLayout(a) && IsConstructed(a)
    ensures SerializationId(a) / 10_000_000_000_000 == a.time
    ensures SerializationId(a) / 1000 % 10_000_000_000 == a.objectId
    ensures SerializationId(a) % 1000 == a.verb.id
  {
    SerializationIdValue(a);
    LayoutDecodes(a.time, a.objectId, a.verb.id);
  }

  /** Two activities within the digit budgets share a serialization id exactly when they agree on time, object id and verb id. */
  lemma SerializationIdInjective(a: Activity, b: Activity)
    requires FitsLayout(a) && FitsLayout(b) && IsConstructed(a) && IsConstructed(b)
    ensures SerializationId(a) == SerializationId(b) <==>
              a.time == b.time && a.objectId == b.objectId && a.verb.id == b.verb.id
  {
    SerializationIdDecodes(a);
    SerializationIdDecodes(b);
  }

  /** Serialization ids order activities by time, then by object id, then by verb id. */
  lemma SerializationIdOrder(a: Activity, b: Activity)
    requires FitsLayout(a) && FitsLayout(b) && IsConstructed(a) && IsConstructed(b)
    ensures SerializationId(a) < SerializationId(b) <==>
              a.time < b.time ||
              (a.time == b.time && (a.objectId < b.objectId || (a.objectId == b.objectId && a.verb.id < b.verb.id)))
  {
    SerializationIdValue(a);
    SerializationIdValue(b);
  }

  // ---------------------------------------------------------------------------
  // Aggregated activities as values: the state of an `AggregatedActivity` object.

  datatype Aggregate = Aggregate(
    group: string,
    createdAt: Option<nat>,
    updatedAt: Option<nat>,
    activities: seq<Activity>,
    seenAt: Option<nat>,
    readAt: Option<nat>,
    minimizedActivities: int)

  /** What every operation keeps: a non-negative eviction count and members with distinct ids. */
  predicate WellFormed(v: Aggregate) {
    v.minimizedActivities >= 0 && Seqs.KeysUnique(v.activities, SerializationId)
  }

  function IdsOf(s: seq<Activity>): seq<nat> {
    seq(|s|, i requires 0 <= i < |s| => SerializationId(s[i]))
  }

  /** `getActivityIds`: the member ids, in member order. */
  function ActivityIds(v: Aggregate): (r: seq<nat>)
    ensures |r| == |v.activities|
    ensures forall i :: 0 <= i < |r| ==> r[i] == SerializationId(v.activities[i])
  {
    IdsOf(v.activities)
  }

  /** `contains`: some member has the same serialization id. */
  predicate Contains(v: Aggregate, a: Activity) {
    SerializationId(a) in Seqs.KeySet(v.activities, SerializationId)
  }

  /** `contains` holds exactly when the id is one of `getActivityIds`. */
  lemma ContainsIds(v: Aggregate, a: Activity)
    ensures Contains(v, a) <==> SerializationId(a) in ActivityIds(v)
  {
    var ids := ActivityIds(v);
    if Contains(v, a) {
      var x :| x in v.activities && SerializationId(x) == SerializationId(a);
      var k :| 0 <= k < |v.activities| && v.activities[k] == x;
      assert ids[k] == SerializationId(a);
    }
    if SerializationId(a) in ids {
      var k :| 0 <= k < |ids| && ids[k] == SerializationId(a);
      assert v.activities[k] in v.activities;
    }
  }

  /** `getActivityCount`: the members held plus the ones evicted. */
  function ActivityCount(v: Aggregate): int {
    v.minimizedActivities + |v.activities|
  }

  /** `append`: a member already present is ignored; otherwise the activity joins and, past fifteen members, the oldest is evicted and counted. */
  function Appended(v: Aggregate, a: Activity): (r: Aggregate)
    ensures Contains(v, a) ==> r == v
    ensures !Contains(v, a) ==> Contains(r, a) && r.activities[|r.activities| - 1] == a
    ensures !Contains(v, a) ==> ActivityCount(r) == ActivityCount(v) + 1
    ensures !Contains(v, a) && |v.activities| < MaxAggregatedActivitiesLength ==>
              r.activities == v.activities + [a] && r.minimizedActivities == v.minimizedActivities
    ensures !Contains(v, a) && |v.activities| >= MaxAggregatedActivitiesLength ==>
              r.activities == v.activities[1..] + [a] && r.minimizedActivities == v.minimizedActivities + 1
    ensures v.createdAt.Some? ==> r.createdAt == v.createdAt
    ensures !Contains(v, a) && v.createdAt.None? ==> r.createdAt == Some(a.time)
    ensures !Contains(v, a) ==> r.updatedAt == Some(Latest(v.updatedAt, a.time))
    ensures r.group == v.group && r.seenAt == v.seenAt && r.readAt == v.readAt
    ensures |v.activities| <= MaxAggregatedActivitiesLength ==> |r.activities| <= MaxAggregatedActivitiesLength
    ensures WellFormed(v) ==> WellFormed(r)
  {
    if Contains(v, a) then v
    else
      var pushed := v.activities + [a];
      assert pushed[|pushed| - 1] in pushed;
      var created := if v.createdAt.None? then Some(a.time) else v.createdAt;
      var updated := if v.updatedAt.None? || a.time > v.updatedAt.value then Some(a.time) else v.updatedAt;
      var w := v.(activities := pushed, createdAt := created, updatedAt := updated);
      var r := if |pushed| > MaxAggregatedActivitiesLength
               then w.(activities := pushed[1..], minimizedActivities := v.minimizedActivities + 1)
               else w;
      assert r.activities[|r.activities| - 1] in r.activities;
      assert WellFormed(v) ==> WellFormed(r) by {
        if WellFormed(v) {
          Seqs.KeysUniqueAppend(v.activities, a, SerializationId);
        }
      }
      r
  }

  /** Appending never moves the last-seen time backwards. */
  lemma AppendedUpdatedAtMonotone(v: Aggregate, a: Activity)
    requires v.updatedAt.Some?
    ensures Appended(v, a).updatedAt.Some?
    ensures Appended(v, a).updatedAt.value >= v.updatedAt.value
    ensures Appended(v, a).updatedAt.value >= a.time || Contains(v, a)
  {
  }

  /** The members left once `a` is removed: `filter` on `serializationId || activity`, so an id of 0 matches nothing. */
  function Remaining(v: Aggregate, a: Activity): seq<Activity> {
    if SerializationId(a) != 0 then Seqs.WithoutKey(v.activities, SerializationId, SerializationId(a))
    else v.activities
  }

  /** What is left after a removal: still unique and non-empty, without the removed id, and nothing new. */
  lemma RemainingFacts(v: Aggregate, a: Activity)
    requires WellFormed(v) && Contains(v, a) && |v.activities| > 1
    ensures |Remaining(v, a)| >= 1 && Seqs.KeysUnique(Remaining(v, a), SerializationId)
    ensures Seqs.KeySet(Remaining(v, a), SerializationId) <= Seqs.KeySet(v.activities, SerializationId)
    ensures SerializationId(a) != 0 ==> SerializationId(a) !in Seqs.KeySet(Remaining(v, a), SerializationId)
    ensures SerializationId(a) != 0 ==>
              var k := Seqs.FirstIndex(v.activities, SerializationId, SerializationId(a));
              Remaining(v, a) == v.activities[..k] + v.activities[k + 1..]
  {
    var id := SerializationId(a);
    if id != 0 {
      var k := Seqs.FirstIndex(v.activities, SerializationId, id);
      Seqs.WithoutUniqueKey(v.activities, SerializationId, k);
      Seqs.KeysUniqueRemoveAt(v.activities, SerializationId, k);
      Seqs.WithoutKeyMembers(v.activities, SerializationId, id);
    }
  }

  /**
   * `remove`: an absent activity changes nothing; removing the sole member is an error; otherwise
   * the member with that id leaves (for an id of 0 none does, as the filter compares the object), `updatedAt` becomes the time of the new last member and one
   * evicted activity is taken back from `minimizedActivities` when there is one.
   */
  function Removed(v: Aggregate, a: Activity): (r: Result<Aggregate>)
    requires WellFormed(v)
    ensures !Contains(v, a) ==> r == Ok(v)
    ensures Contains(v, a) && |v.activities| == 1 ==> r == Err(EmptyAggregation)
    ensures r.Err? ==> r.error == EmptyAggregation && Contains(v, a) && |v.activities| == 1
    ensures r.Ok? ==> WellFormed(r.value) && (|v.activities| >= 1 ==> |r.value.activities| >= 1)
    ensures r.Ok? && Contains(v, a) ==>
              r.value.updatedAt == Some(r.value.activities[|r.value.activities| - 1].time) &&
              r.value.minimizedActivities == (if v.minimizedActivities > 0 then v.minimizedActivities - 1 else 0)
    ensures r.Ok? && Contains(v, a) && SerializationId(a) != 0 ==>
              var k := Seqs.FirstIndex(v.activities, SerializationId, SerializationId(a));
              r.value.activities == v.activities[..k] + v.activities[k + 1..] && !Contains(r.value, a)
    ensures r.Ok? && SerializationId(a) == 0 ==> r.value.activities == v.activities
    ensures r.Ok? ==> Seqs.KeySet(r.value.activities, SerializationId) <= Seqs.KeySet(v.activities, SerializationId)
    ensures r.Ok? ==>
              (r.value.group == v.group && r.value.createdAt == v.createdAt &&
               r.value.seenAt == v.seenAt && r.value.readAt == v.readAt)
  {
    if !Contains(v, a) then Ok(v)
    else if |v.activities| == 1 then Err(EmptyAggregation)
    else
      var kept := Remaining(v, a);
      RemainingFacts(v, a);
      Ok(v.(activities := kept,
            updatedAt := Some(kept[|kept| - 1].time),
            minimizedActivities := if v.minimizedActivities != 0 then v.minimizedActivities - 1 else 0))
  }

  /** What `removeMany` leaves behind: the new state, the inputs it removed, and the error it stopped at. */
  datatype RemoveManyOutcome = RemoveManyOutcome(state: Aggregate, removed: seq<Activity>, error: Option<Error>)

  /** `removeMany`: visit the inputs in order and remove each one present at that moment. */
  function RemovedMany(v: Aggregate, xs: seq<Activity>): (r: RemoveManyOutcome)
    requires WellFormed(v)
    ensures WellFormed(r.state)
    ensures r.error.Some? ==> r.error == Some(EmptyAggregation)
    ensures Seqs.KeySet(r.state.activities, SerializationId) <= Seqs.KeySet(v.activities, SerializationId)
    ensures forall x :: x in r.removed ==> x in xs && Contains(v, x)
    decreases |xs|
  {
    if xs == [] then RemoveManyOutcome(v, [], None)
    else if !Contains(v, xs[0]) then
      var o := RemovedMany(v, xs[1..]);
      assert forall x :: x in o.removed ==> x in xs;
      o
    else
      match Removed(v, xs[0])
      case Err(e) => RemoveManyOutcome(v, [], Some(e))
      case Ok(w) =>
        var o := RemovedMany(w, xs[1..]);
        assert forall x :: x in o.removed ==> x in xs && Contains(v, x) by {
          forall x | x in o.removed ensures x in xs && Contains(v, x) {
            assert Contains(w, x);
          }
        }
        o.(removed := [xs[0]] + o.removed)
  }

  /** After `i` inputs of `removeMany`, the state `v` and the inputs removed so far account for the whole call. */
  ghost predicate RemoveManyAt(start: Aggregate, xs: seq<Activity>, i: nat, v: Aggregate, removed: seq<Activity>) {
    && WellFormed(start) && WellFormed(v) && i <= |xs|
    && var o := RemovedMany(v, xs[i..]);
       RemovedMany(start, xs) == o.(removed := removed + o.removed)
  }

  /** One input of `removeMany`: the new state, whether the input was present, and the error met. */
  datatype RemoveOneOutcome = RemoveOneOutcome(state: Aggregate, present: bool, error: Option<Error>)

  function RemoveOneOf(v: Aggregate, x: Activity): (r: RemoveOneOutcome)
    requires WellFormed(v)
    ensures WellFormed(r.state)
    ensures r.present == Contains(v, x)
    ensures !r.present ==> r.state == v && r.error.None?
  {
    if !Contains(v, x) then RemoveOneOutcome(v, false, None)
    else
      match Removed(v, x)
      case Err(e) => RemoveOneOutcome(v, true, Some(e))
      case Ok(w) => RemoveOneOutcome(w, true, None)
  }

  /** One input further: an error ends the call; otherwise the walk goes on from the new state. */
  lemma RemoveManyAdvance(start: Aggregate, xs: seq<Activity>, i: nat, v: Aggregate, removed: seq<Activity>)
    requires RemoveManyAt(start, xs, i, v, removed) && i < |xs|
    ensures var o := RemoveOneOf(v, xs[i]);
            o.error.Some? ==> RemovedMany(start, xs) == RemoveManyOutcome(o.state, removed, o.error)
    ensures var o := RemoveOneOf(v, xs[i]);
            o.error.None? ==> RemoveManyAt(start, xs, i + 1, o.state, if o.present then removed + [xs[i]] else removed)
  {
    assert xs[i..][1..] == xs[i + 1..];
    assert xs[i..][0] == xs[i];
    if Contains(v, xs[i]) && Removed(v, xs[i]).Ok? {
      var rest := RemovedMany(Removed(v, xs[i]).value, xs[i + 1..]);
      assert removed + ([xs[i]] + rest.removed) == (removed + [xs[i]]) + rest.removed;
    }
  }

  lemma RemoveManyDone(start: Aggregate, xs: seq<Activity>, v: Aggregate, removed: seq<Activity>)
    requires RemoveManyAt(start, xs, |xs|, v, removed)
    ensures RemovedMany(start, xs) == RemoveManyOutcome(v, removed, None)
  {
    assert xs[|xs|..] == [];
  }

  /** After a `removeMany` that raised nothing, none of the inputs with a non-zero id is still a member. */
  lemma {:induction false} RemovedManyRemovesAll(v: Aggregate, xs: seq<Activity>)
    requires WellFormed(v)
    requires RemovedMany(v, xs).error.None?
    ensures forall x :: x in xs && SerializationId(x) != 0 ==> !Contains(RemovedMany(v, xs).state, x)
    decreases |xs|
  {
    if xs != [] {
      var r := RemovedMany(v, xs);
      if !Contains(v, xs[0]) {
        RemovedManyRemovesAll(v, xs[1..]);
        forall x | x in xs && SerializationId(x) != 0 ensures !Contains(r.state, x) {
          if x != xs[0] {
            assert x in xs[1..];
          }
        }
      } else {
        var w := Removed(v, xs[0]).value;
        RemovedManyRemovesAll(w, xs[1..]);
        forall x | x in xs && SerializationId(x) != 0 ensures !Contains(r.state, x) {
          if x == xs[0] {
            assert !Contains(w, x);
          } else {
            assert x in xs[1..];
          }
        }
      }
    }
  }

  /** Each input is reported as removed exactly when it was a member at the moment it was visited. */
  lemma {:induction false} RemovedManyCount(v: Aggregate, xs: seq<Activity>)
    requires WellFormed(v)
    requires RemovedMany(v, xs).error.None?
    requires forall x :: x in xs ==> SerializationId(x) != 0
    ensures |RemovedMany(v, xs).state.activities| + |RemovedMany(v, xs).removed| == |v.activities|
    decreases |xs|
  {
    if xs != [] {
      if !Contains(v, xs[0]) {
        RemovedManyCount(v, xs[1..]);
      } else {
        var w := Removed(v, xs[0]).value;
        RemovedManyCount(w, xs[1..]);
      }
    }
  }

  // ---------------------------------------------------------------------------
  // Counts and derived fields.

  function ActorSeq(s: seq<Activity>): seq<nat> { seq(|s|, i requires 0 <= i < |s| => s[i].actorId) }
  function ObjectSeq(s: seq<Activity>): seq<nat> { seq(|s|, i requires 0 <= i < |s| => s[i].objectId) }
  function VerbSeq(s: seq<Activity>): seq<Verb> { seq(|s|, i requires 0 <= i < |s| => s[i].verb) }

  function VerbId(x: Verb): nat { x.id }

  /** `getActorIds`: each member's actor id once, in order of first occurrence. */
  function ActorIds(v: Aggregate): (r: seq<nat>)
    ensures forall i, j :: 0 <= i < j < |r| ==> r[i] != r[j]
    ensures forall x :: x in r <==> x in ActorSeq(v.activities)
    ensures forall i, j :: 0 <= i < j < |r| ==> Seqs.KeyBefore(ActorSeq(v.activities), Seqs.Identity, r[i], r[j])
    ensures |r| <= |v.activities|
  {
    Seqs.DistinctFacts(ActorSeq(v.activities));
    Seqs.Distinct(ActorSeq(v.activities))
  }

  /** `getObjectIds`: each member's object id once, in order of first occurrence. */
  function ObjectIds(v: Aggregate): (r: seq<nat>)
    ensures forall i, j :: 0 <= i < j < |r| ==> r[i] != r[j]
    ensures forall x :: x in r <==> x in ObjectSeq(v.activities)
    ensures forall i, j :: 0 <= i < j < |r| ==> Seqs.KeyBefore(ObjectSeq(v.activities), Seqs.Identity, r[i], r[j])
  {
    Seqs.DistinctFacts(ObjectSeq(v.activities));
    Seqs.Distinct(ObjectSeq(v.activities))
  }

  /** `getVerbs`: the first verb seen for each verb id, in order of first occurrence. */
  function DistinctVerbs(v: Aggregate): (r: seq<Verb>)
    ensures Seqs.KeysUnique(r, VerbId)
    ensures Seqs.KeySet(r, VerbId) == Seqs.KeySet(VerbSeq(v.activities), VerbId)
    ensures forall j :: 0 <= j < |r| ==>
              VerbId(r[j]) in Seqs.KeySet(VerbSeq(v.activities), VerbId) &&
              r[j] == VerbSeq(v.activities)[Seqs.FirstIndex(VerbSeq(v.activities), VerbId, VerbId(r[j]))]
    ensures forall i, j :: 0 <= i < j < |r| ==> Seqs.KeyBefore(VerbSeq(v.activities), VerbId, r[i], r[j])
  {
    Seqs.DistinctByKeys(VerbSeq(v.activities), VerbId);
    Seqs.DistinctByFirst(VerbSeq(v.activities), VerbId);
    Seqs.DistinctByOrder(VerbSeq(v.activities), VerbId);
    Seqs.DistinctBy(VerbSeq(v.activities), VerbId)
  }

  /** `getVerb`: the first entry of `getVerbs`, which is the verb of the first member. */
  function FirstVerb(v: Aggregate): (r: Option<Verb>)
    ensures r.Some? <==> |v.activities| > 0
    ensures r.Some? ==> r.value == v.activities[0].verb
  {
    var vs := DistinctVerbs(v);
    if |vs| == 0 then None
    else
      var s := VerbSeq(v.activities);
      assert s[0] in s;
      assert VerbId(s[0]) in Seqs.KeySet(vs, VerbId);
      var x :| x in vs && VerbId(x) == VerbId(s[0]);
      var m :| 0 <= m < |vs| && vs[m] == x;
      assert Seqs.FirstIndex(s, VerbId, VerbId(s[0])) == 0;
      assert m == 0 by {
        if m != 0 {
          Seqs.DistinctByPairOrder(s, VerbId, 0, m);
          assert false;
        }
      }
      Some(vs[0])
  }

  /** `getActorCount`: evicted activities count as actors, plus the distinct actors held. */
  function ActorCount(v: Aggregate): int {
    v.minimizedActivities + |ActorIds(v)|
  }

  /** `getOtherActorCount`. */
  function OtherActorCount(v: Aggregate): int {
    ActorCount(v) - 1
  }

  /** The actor count is the evicted count plus the number of distinct actors, and never exceeds the activity count. */
  lemma ActorCountBounds(v: Aggregate)
    ensures ActorCount(v) == v.minimizedActivities + |ActorIds(v)|
    ensures ActorCount(v) <= ActivityCount(v)
    ensures |v.activities| > 0 ==> ActorCount(v) >= v.minimizedActivities + 1
  {
    if |v.activities| > 0 {
      assert v.activities[0].actorId == ActorSeq(v.activities)[0];
      assert ActorSeq(v.activities)[0] in ActorIds(v);
    }
  }

  /** `getLastActivity`: the newest member, absent for an empty aggregation. */
  function LastActivity(v: Aggregate): (r: Option<Activity>)
    ensures r.Some? <==> |v.activities| > 0
    ensures r.Some? ==> r.value in v.activities && r.value == LastActivities(v)[0]
  {
    if |v.activities| == 0 then None else Some(v.activities[|v.activities| - 1])
  }

  /** `getLastActivities`: the members, newest first. */
  function LastActivities(v: Aggregate): (r: seq<Activity>)
    ensures |r| == |v.activities|
    ensures forall i :: 0 <= i < |r| ==> r[i] == v.activities[|v.activities| - 1 - i]
  {
    seq(|v.activities|, i requires 0 <= i < |v.activities| => v.activities[|v.activities| - 1 - i])
  }

  /** The newest-first list starts with the last activity, and after a new append that is the appended one. */
  lemma LastActivityAfterAppend(v: Aggregate, a: Activity)
    requires !Contains(v, a)
    ensures LastActivity(Appended(v, a)) == Some(a)
    ensures LastActivities(Appended(v, a))[0] == a
  {
  }

  /** `isSeen`: seen at or after the last update. */
  predicate IsSeen(v: Aggregate) {
    v.seenAt.Some? && v.seenAt.value >= TimeOrZero(v.updatedAt)
  }

  /** `isRead`: read at or after the last update. */
  predicate IsRead(v: Aggregate) {
    v.readAt.Some? && v.readAt.value >= TimeOrZero(v.updatedAt)
  }

  /** A new activity later than the seen (read) time makes the aggregation unseen (unread). */
  lemma NewerActivityResetsSeen(v: Aggregate, a: Activity)
    requires !Contains(v, a)
    ensures v.seenAt.Some? && a.time > v.seenAt.value ==> !IsSeen(Appended(v, a))
    ensures v.readAt.Some? && a.time > v.readAt.value ==> !IsRead(Appended(v, a))
    ensures v.seenAt.None? ==> !IsSeen(Appended(v, a))
  {
  }

  /** Marking the aggregation seen at a moment no earlier than its last update makes it seen, and a repeated append keeps it so. */
  lemma SeenAfterUpdate(v: Aggregate, now: nat, a: Activity)
    requires v.updatedAt.None? || now >= v.updatedAt.value
    ensures IsSeen(v.(seenAt := Some(now)))
    ensures IsRead(v.(readAt := Some(now)))
    ensures Contains(v, a) ==> IsSeen(Appended(v.(seenAt := Some(now)), a))
  {
    assert Contains(v.(seenAt := Some(now)), a) == Contains(v, a);
  }

  /** `getSerializationId`: the last update time rounded to the nearest tenth of a second (halves round up). */
  function AggregateSerializationId(v: Aggregate): (r: Result<nat>)
    ensures r.Err? <==> v.updatedAt.None?
    ensures r.Err? ==> r.error == MissingUpdatedAt
    ensures r.Ok? ==> 100 * r.value <= v.updatedAt.value + 50 < 100 * r.value + 100
  {
    if v.updatedAt.None? then Err(MissingUpdatedAt) else Ok((v.updatedAt.value + 50) / 100)
  }

  // ---------------------------------------------------------------------------
  // The mutable object.

  class AggregatedActivity {
    var group: string
    var createdAt: Option<nat>
    var updatedAt: Option<nat>
    var activities: seq<Activity>
    var seenAt: Option<nat>
    var readAt: Option<nat>
    var minimizedActivities: int

    /** The object's state as a value. */
    function View(): Aggregate
      reads this
    {
      Aggregate(group, createdAt, updatedAt, activities, seenAt, readAt, minimizedActivities)
    }

    ghost predicate Valid()
      reads this
    {
      WellFormed(View())
    }

    constructor(group: string, activities: seq<Activity>, createdAt: Option<nat>, updatedAt: Option<nat>)
      requires Seqs.KeysUnique(activities, SerializationId)
      ensures View() == Aggregate(group, createdAt, updatedAt, activities, None, None, 0)
      ensures Valid()
    {
      this.group := group;
      this.activities := activities;
      this.createdAt := createdAt;
      this.updatedAt := updatedAt;
      seenAt := None;
      readAt := None;
      minimizedActivities := 0;
    }

    method Append(a: Activity)
      requires Valid()
      modifies this
      ensures Valid()
      ensures View() == Appended(old(View()), a)
    {
      if Contains(View(), a) {
        return;
      }
      activities := activities + [a];
      if createdAt.None? {
        createdAt := Some(a.time);
      }
      if updatedAt.None? || a.time > updatedAt.value {
        updatedAt := Some(a.time);
      }
      if |activities| > MaxAggregatedActivitiesLength {
        activities := activities[1..];
        minimizedActivities := minimizedActivities + 1;
      }
    }

    method Remove(a: Activity) returns (res: Outcome)
      requires Valid()
      modifies this
      ensures Valid()
      ensures Removed(old(View()), a).Ok? ==> res == Pass && View() == Removed(old(View()), a).value
      ensures Removed(old(View()), a).Err? ==> res == Fail(Removed(old(View()), a).error) && View() == old(View())
    {
      if !Contains(View(), a) {
        return Pass;
      }
      if |activities| == 1 {
        return Fail(EmptyAggregation);
      }
      ghost var after := Removed(View(), a).value;
      activities := Remaining(View(), a);
      updatedAt := Some(activities[|activities| - 1].time);
      if minimizedActivities != 0 {
        minimizedActivities := minimizedActivities - 1;
      }
      assert View() == after;
      res := Pass;
    }

    method RemoveMany(xs: seq<Activity>) returns (removed: seq<Activity>, error: Option<Error>)
      requires Valid()
      modifies this
      ensures Valid()
      ensures RemovedMany(old(View()), xs) == RemoveManyOutcome(View(), removed, error)
    {
      ghost var start := View();
      removed := [];
      error := None;
      var i := 0;
      while i < |xs|
        invariant Valid() && error.None?
        invariant RemoveManyAt(start, xs, i, View(), removed)
      {
        var present;
        RemoveManyAdvance(start, xs, i, View(), removed);
        present, error := RemoveOne(xs[i]);
        if error.Some? {
          return;
        }
        if present {
          removed := removed + [xs[i]];
        }
        i := i + 1;
      }
      RemoveManyDone(start, xs, View(), removed);
    }

    /** One input of `removeMany`: skip it when absent, remove it when present, stop at an error. */
    method RemoveOne(x: Activity) returns (present: bool, error: Option<Error>)
      requires Valid()
      modifies this
      ensures Valid()
      ensures RemoveOneOutcome(View(), present, error) == RemoveOneOf(old(View()), x)
    {
      present := Contains(View(), x);
      if present {
        var res := Remove(x);
        error := if res.Fail? then Some(res.error) else None;
      } else {
        error := None;
      }
    }

    method GetActorIds() returns (ids: seq<nat>)
      ensures ids == ActorIds(View())
    {
      ids := Seqs.CollectDistinct(ActorSeq(activities), Seqs.Identity);
    }

    method GetObjectIds() returns (ids: seq<nat>)
      ensures ids == ObjectIds(View())
    {
      ids := Seqs.CollectDistinct(ObjectSeq(activities), Seqs.Identity);
    }

    method GetVerbs() returns (verbs: seq<Verb>)
      ensures verbs == DistinctVerbs(View())
    {
      verbs := Seqs.CollectDistinct(VerbSeq(activities), VerbId);
    }

    /** `updateSeenAt`, with the current time passed in. */
    method UpdateSeenAt(now: nat)
      modifies this
      ensures View() == old(View()).(seenAt := Some(now))
    {
      seenAt := Some(now);
    }

    /** `updateReadAt`, with the current time passed in. */
    method UpdateReadAt(now: nat)
      modifies this
      ensures View() == old(View()).(readAt := Some(now))
    {
      readAt := Some(now);
    }
  }
}
