/**
 * Activities and aggregated activities of the earlier engine.
 *
 * Here the serialization id is a getter that checks its digit budgets and the presence of a
 * time on every read, `append` rejects duplicates, an overflowing aggregation drops the
 * activity just appended, and an aggregation can be dehydrated to the ids of its members and
 * hydrated back from a lookup table.
 */
module LegacyActivities {
  import opened Common
  import opened Digits
  import opened Verbs
  import Seqs

  const MaxAggregatedActivitiesLength: nat := 15

  /** Ids of the actor, object and optional target, the verb, an optional time in epoch milliseconds, and the hydration flag. */
  datatype Activity = Activity(actorId: nat, verb: Verb, objectId: nat, targetId: Option<nat>, time: Option<nat>, dehydrated: bool)

  /** The constructor: `time || new Date()`, with the clock reading passed in as `now`. */
  function NewActivity(actorId: nat, verb: Verb, objectId: nat, targetId: Option<nat>, time: Option<nat>, now: nat): (a: Activity)
    ensures a.time.Some? && !a.dehydrated
    ensures a.time.value == (if time.Some? then time.value else now)
    ensures a.actorId == actorId && a.verb == verb && a.objectId == objectId && a.targetId == targetId
  {
    Activity(actorId, verb, objectId, targetId, Some(if time.Some? then time.value else now), false)
  }

  /** The `serializationId` getter: the digit budgets are checked first, then the presence of a time. */
  function SerializationId(a: Activity): (r: Result<nat>)
    ensures r.Err? <==> a.objectId >= 10_000_000_000 || a.verb.id >= 1000 || a.time.None?
    ensures (a.objectId >= 10_000_000_000 || a.verb.id >= 1000) ==> r == Err(TooManyDigits)
    ensures a.objectId < 10_000_000_000 && a.verb.id < 1000 && a.time.None? ==> r == Err(MissingTime)
  {
    if a.objectId >= 10_000_000_000 || a.verb.id >= 1000 then Err(TooManyDigits)
    else if a.time.None? then Err(MissingTime)
    else Ok(LayoutValue(a.time.value, a.objectId, a.verb.id))
  }

  /** The getter's value is the decimal text of the layout read back as a number. */
  lemma SerializationIdIsText(a: Activity)
    requires SerializationId(a).Ok?
    ensures SerializationId(a).value == ParseDecimal(SerializationText(a.time.value, a.objectId, a.verb.id))
  {
    SerializationTextValue(a.time.value, a.objectId, a.verb.id);
  }

  predicate Serializable(a: Activity) { SerializationId(a).Ok? }

  /** The id the getter reports for a serializable activity, read with a missing time as 0. */
  function IdOf(a: Activity): nat {
    LayoutValue(if a.time.Some? then a.time.value else 0, a.objectId, a.verb.id)
  }

  /** A successful read of the id depends only on time, object id and verb id, and determines all three. */
  lemma SerializationIdDetermines(a: Activity, b: Activity)
    requires Serializable(a) && Serializable(b)
    ensures SerializationId(a) == Ok(IdOf(a))
    ensures SerializationId(a) == SerializationId(b) <==>
              a.time == b.time && a.objectId == b.objectId && a.verb.id == b.verb.id
  {
    LayoutDecodes(a.time.value, a.objectId, a.verb.id);
    LayoutDecodes(b.time.value, b.objectId, b.verb.id);
  }

  /** The right operand of `__eq__`: an activity, or any other value. */
  datatype Operand = ActivityOperand(activity: Activity) | OtherOperand

  /** `__eq__`: only activities compare, and two compare equal when their serialization ids do. */
  function Equals(a: Activity, other: Operand): (r: Result<bool>)
    ensures other.OtherOperand? ==> r == Err(NotAnActivity)
    ensures other.ActivityOperand? && Serializable(a) && Serializable(other.activity) ==>
              r.Ok? && (r.value <==> SerializationId(a) == SerializationId(other.activity))
    ensures other.ActivityOperand? && !Serializable(a) ==> r == Err(SerializationId(a).error)
    ensures other.ActivityOperand? && Serializable(a) && !Serializable(other.activity) ==>
              r == Err(SerializationId(other.activity).error)
  {
    if other.OtherOperand? then Err(NotAnActivity)
    else
      var x :- SerializationId(a);
      var y :- SerializationId(other.activity);
      Ok(x == y)
  }

  /** `__lt__`: order by serialization id. */
  function LessThan(a: Activity, b: Activity): (r: Result<bool>)
    ensures Serializable(a) && Serializable(b) ==>
              r.Ok? && (r.value <==> SerializationId(a).value < SerializationId(b).value)
    ensures r.Err? ==> !Serializable(a) || !Serializable(b)
  {
    var x :- SerializationId(a);
    var y :- SerializationId(b);
    Ok(x < y)
  }

  /**
   * On serializable activities `__lt__` is a strict order that agrees with `__eq__`: exactly one
   * of less, equal, greater holds; it orders by time, then object id, then verb id.
   */
  lemma OrderAgreesWithEquality(a: Activity, b: Activity, c: Activity)
    requires Serializable(a) && Serializable(b) && Serializable(c)
    ensures !LessThan(a, a).value
    ensures LessThan(a, b).value && LessThan(b, c).value ==> LessThan(a, c).value
    ensures LessThan(a, b).value || Equals(a, ActivityOperand(b)).value || LessThan(b, a).value
    ensures Equals(a, ActivityOperand(b)).value ==> !LessThan(a, b).value && !LessThan(b, a).value
    ensures LessThan(a, b).value <==>
              a.time.value < b.time.value ||
              (a.time == b.time && (a.objectId < b.objectId || (a.objectId == b.objectId && a.verb.id < b.verb.id)))
  {
    LayoutOrder(a.time.value, a.objectId, a.verb.id, b.time.value, b.objectId, b.verb.id);
  }

  // ---------------------------------------------------------------------------
  // Dehydrated activities.

  /** The stand-in a serializer stores instead of an activity: only its serialization id. */
  datatype DehydratedActivity = DehydratedActivity(serializationId: nat)

  /** `_activity_ids` of a dehydrated activity. */
  function DehydratedIds(d: DehydratedActivity): seq<nat> { [d.serializationId] }

  /** `Activity.get_dehydrated`. */
  function GetDehydratedActivity(a: Activity): (r: Result<DehydratedActivity>)
    ensures r.Ok? <==> Serializable(a)
    ensures r.Ok? ==> DehydratedIds(r.value) == [SerializationId(a).value]
  {
    var id :- SerializationId(a);
    Ok(DehydratedActivity(id))
  }

  /** `DehydratedActivity.get_hydrated`: the activity stored under the id, marked hydrated; a missing entry fails. */
  function HydrateActivity(d: DehydratedActivity, lookup: map<nat, Activity>): (r: Result<Activity>)
    ensures r.Err? <==> d.serializationId !in lookup
    ensures r.Err? ==> r.error == MissingActivity
    ensures r.Ok? ==> !r.value.dehydrated
  {
    if d.serializationId !in lookup then Err(MissingActivity)
    else Ok(lookup[d.serializationId].(dehydrated := false))
  }

  /** Dehydrating an activity and hydrating it from a table that holds it gives the activity back, marked hydrated. */
  lemma ActivityRoundTrip(a: Activity, lookup: map<nat, Activity>)
    requires Serializable(a)
    requires SerializationId(a).value in lookup && lookup[SerializationId(a).value] == a
    ensures GetDehydratedActivity(a).Ok?
    ensures HydrateActivity(GetDehydratedActivity(a).value, lookup) == Ok(a.(dehydrated := false))
  {
  }

  // ---------------------------------------------------------------------------
  // Aggregated activities as values.

  datatype Aggregate = Aggregate(
    group: string,
    createdAt: Option<nat>,
    updatedAt: Option<nat>,
    activities: seq<Activity>,
    seenAt: Option<nat>,
    readAt: Option<nat>,
    minimizedActivities: int,
    dehydrated: bool,
    activityIds: seq<nat>)

  /** Non-zero member ids are distinct; several members may share the id 0, which `contains` never matches. */
  predicate NonzeroIdsUnique(s: seq<Activity>) {
    forall i, j :: 0 <= i < j < |s| && IdOf(s[i]) != 0 ==> IdOf(s[i]) != IdOf(s[j])
  }

  /** What every operation keeps. */
  predicate WellFormed(v: Aggregate) {
    && v.minimizedActivities >= 0
    && (forall m :: m in v.activities ==> Serializable(m))
    && NonzeroIdsUnique(v.activities)
    && (!v.dehydrated ==> v.activityIds == [])
  }

  function IdsOf(s: seq<Activity>): (r: seq<nat>)
    ensures |r| == |s| && forall i :: 0 <= i < |s| ==> r[i] == IdOf(s[i])
  {
    seq(|s|, i requires 0 <= i < |s| => IdOf(s[i]))
  }

  /** The argument of `contains` and `remove`: an activity or a bare serialization id. */
  datatype ActivityRef = Ref(activity: Activity) | BareId(id: nat)

  /** `activity.serializationId || activity`: the id to look for, or none when an activity's id is 0. */
  function RefKey(ref: ActivityRef): (r: Result<Option<nat>>)
    ensures ref.BareId? ==> r == Ok(Some(ref.id))
    ensures ref.Ref? ==> (r.Ok? <==> Serializable(ref.activity))
    ensures ref.Ref? && r.Ok? ==> r.value == (if IdOf(ref.activity) != 0 then Some(IdOf(ref.activity)) else None)
    ensures r.Err? ==> r.error == SerializationId(ref.activity).error
  {
    match ref
    case BareId(n) => Ok(Some(n))
    case Ref(a) =>
      var id :- SerializationId(a);
      Ok(if id != 0 then Some(id) else None)
  }

  /** `contains`: some member reports the id looked for. */
  function Contains(v: Aggregate, ref: ActivityRef): (r: Result<bool>)
    ensures r.Err? <==> RefKey(ref).Err?
    ensures r.Ok? ==> (r.value <==> RefKey(ref).value.Some? && RefKey(ref).value.value in IdsOf(v.activities))
  {
    var k :- RefKey(ref);
    Ok(k.Some? && k.value in IdsOf(v.activities))
  }

  function ActivityCount(v: Aggregate): int {
    v.minimizedActivities + |v.activities|
  }

  /**
   * `append`: a member already present is a `Duplicate Activity` error, and an activity whose id
   * cannot be read fails with the getter's error. Otherwise the activity is pushed and the times
   * updated; past fifteen members the one just pushed is popped again and counted as evicted.
   */
  function Appended(v: Aggregate, a: Activity): (r: Result<Aggregate>)
    ensures r.Err? <==> !Serializable(a) || Contains(v, Ref(a)) == Ok(true)
    ensures !Serializable(a) ==> r == Err(SerializationId(a).error)
    ensures Contains(v, Ref(a)) == Ok(true) ==> r == Err(DuplicateActivity)
    ensures r.Ok? ==> ActivityCount(r.value) == ActivityCount(v) + 1
    ensures r.Ok? && |v.activities| < MaxAggregatedActivitiesLength ==>
              r.value.activities == v.activities + [a] && r.value.minimizedActivities == v.minimizedActivities
    ensures r.Ok? && |v.activities| >= MaxAggregatedActivitiesLength ==>
              r.value.activities == v.activities && r.value.minimizedActivities == v.minimizedActivities + 1
    ensures r.Ok? ==> r.value.updatedAt == Some(Latest(v.updatedAt, a.time.value))
    ensures r.Ok? && v.createdAt.Some? ==> r.value.createdAt == v.createdAt
    ensures r.Ok? && v.createdAt.None? ==> r.value.createdAt == a.time
    ensures r.Ok? ==> (r.value.group == v.group && r.value.dehydrated == v.dehydrated &&
                       r.value.activityIds == v.activityIds && r.value.seenAt == v.seenAt && r.value.readAt == v.readAt)
    ensures r.Ok? && |v.activities| <= MaxAggregatedActivitiesLength ==> |r.value.activities| <= MaxAggregatedActivitiesLength
    ensures r.Ok? && WellFormed(v) ==> WellFormed(r.value)
  {
    var present :- Contains(v, Ref(a));
    if present then Err(DuplicateActivity)
    else
      PushedWellFormed(v, a);
      Ok(Pushed(v, a))
  }

  /** The append past its duplicate check: push, refresh the times, and pop again past fifteen members. */
  function Pushed(v: Aggregate, a: Activity): (r: Aggregate)
    requires a.time.Some?
    ensures ActivityCount(r) == ActivityCount(v) + 1
    ensures |v.activities| < MaxAggregatedActivitiesLength ==>
              r.activities == v.activities + [a] && r.minimizedActivities == v.minimizedActivities
    ensures |v.activities| >= MaxAggregatedActivitiesLength ==>
              r.activities == v.activities && r.minimizedActivities == v.minimizedActivities + 1
    ensures r.updatedAt == Some(Latest(v.updatedAt, a.time.value))
    ensures v.createdAt.Some? ==> r.createdAt == v.createdAt
    ensures v.createdAt.None? ==> r.createdAt == a.time
    ensures r.group == v.group && r.dehydrated == v.dehydrated && r.activityIds == v.activityIds &&
            r.seenAt == v.seenAt && r.readAt == v.readAt
    ensures |v.activities| <= MaxAggregatedActivitiesLength ==> |r.activities| <= MaxAggregatedActivitiesLength
  {
    // Past the limit the member just pushed is popped again, which leaves the members as they were.
    var full := |v.activities| >= MaxAggregatedActivitiesLength;
    Aggregate(
      v.group,
      if v.createdAt.None? then a.time else v.createdAt,
      if v.updatedAt.None? || a.time.value > v.updatedAt.value then a.time else v.updatedAt,
      if full then v.activities else v.activities + [a],
      v.seenAt,
      v.readAt,
      if full then v.minimizedActivities + 1 else v.minimizedActivities,
      v.dehydrated,
      v.activityIds)
  }

  /** Pushing a serializable activity whose id is not yet a member keeps the aggregation well formed. */
  lemma PushedWellFormed(v: Aggregate, a: Activity)
    requires Contains(v, Ref(a)) == Ok(false)
    ensures WellFormed(v) ==> WellFormed(Pushed(v, a))
  {
    if WellFormed(v) {
      var pushed := v.activities + [a];
      forall i, j | 0 <= i < j < |pushed| && IdOf(pushed[i]) != 0 ensures IdOf(pushed[i]) != IdOf(pushed[j]) {
        if j == |pushed| - 1 {
          assert IdsOf(v.activities)[i] == IdOf(pushed[i]);
        }
      }
      assert pushed[..|pushed| - 1] == v.activities;
    }
  }

  /** Appending never moves the last-update time backwards. */
  lemma AppendedUpdatedAtMonotone(v: Aggregate, a: Activity)
    requires Appended(v, a).Ok? && v.updatedAt.Some?
    ensures Appended(v, a).value.updatedAt.value >= v.updatedAt.value
    ensures Appended(v, a).value.updatedAt.value >= a.time.value
  {
  }

  /** The state after an operation that may stop with an error part-way. */
  datatype Step = Step(state: Aggregate, error: Option<Error>)

  /** The members a removal keeps: every member whose id differs from the key (an absent key keeps all). */
  function Kept(v: Aggregate, key: Option<nat>): seq<Activity> {
    if key.Some? then Seqs.WithoutKey(v.activities, IdOf, key.value) else v.activities
  }

  lemma KeptFacts(v: Aggregate, k: nat)
    requires WellFormed(v) && k != 0 && k in IdsOf(v.activities)
    ensures exists i :: 0 <= i < |v.activities| && IdOf(v.activities[i]) == k &&
                        Kept(v, Some(k)) == v.activities[..i] + v.activities[i + 1..]
  {
    var i :| 0 <= i < |v.activities| && IdsOf(v.activities)[i] == k;
    var s := v.activities;
    var w := Seqs.WithoutKey(s, IdOf, k);
    Seqs.WithoutKeyMembers(s, IdOf, k);
    assert w == s[..i] + s[i + 1..] by {
      RemoveUniqueAt(s, i);
    }
  }

  lemma {:induction false} RemoveUniqueAt(s: seq<Activity>, i: nat)
    requires i < |s| && IdOf(s[i]) != 0 && NonzeroIdsUnique(s)
    ensures Seqs.WithoutKey(s, IdOf, IdOf(s[i])) == s[..i] + s[i + 1..]
  {
    var p, l := s[..|s| - 1], s[|s| - 1];
    assert s == p + [l];
    var k := IdOf(s[i]);
    if i == |s| - 1 {
      forall x | x in p ensures IdOf(x) != k {
        var m :| 0 <= m < |p| && p[m] == x;
        assert s[m] == x;
      }
      KeyAbsent(p, k);
      assert s[..i] + s[i + 1..] == p;
    } else {
      assert NonzeroIdsUnique(p);
      RemoveUniqueAt(p, i);
      assert IdOf(l) != k;
      assert s[..i] + s[i + 1..] == (p[..i] + p[i + 1..]) + [l];
    }
  }

  lemma KeyAbsent(p: seq<Activity>, k: nat)
    requires forall x :: x in p ==> IdOf(x) != k
    ensures Seqs.WithoutKey(p, IdOf, k) == p
  {
    Seqs.WithoutAbsentKey(p, IdOf, k);
  }

  /** Removing members never makes the aggregation break its invariant or gain an id. */
  lemma KeptWellFormed(v: Aggregate, key: Option<nat>)
    requires WellFormed(v)
    ensures forall m :: m in Kept(v, key) ==> m in v.activities
    ensures NonzeroIdsUnique(Kept(v, key))
  {
    if key.Some? {
      Seqs.WithoutKeyMembers(v.activities, IdOf, key.value);
      KeptSubsequence(v.activities, key.value);
    }
  }

  lemma {:induction false} KeptSubsequence(s: seq<Activity>, k: nat)
    requires NonzeroIdsUnique(s)
    ensures NonzeroIdsUnique(Seqs.WithoutKey(s, IdOf, k))
  {
    if s != [] {
      var p, l := s[..|s| - 1], s[|s| - 1];
      assert s == p + [l];
      assert NonzeroIdsUnique(p);
      KeptSubsequence(p, k);
      var w := Seqs.WithoutKey(p, IdOf, k);
      Seqs.WithoutKeyMembers(p, IdOf, k);
      if IdOf(l) != k {
        UniqueSelectAppend(w, p, l);
      }
    }
  }

  /** Members drawn from `p`, extended by `l`, keep the distinct non-zero ids of `p + [l]`. */
  lemma UniqueSelectAppend(w: seq<Activity>, p: seq<Activity>, l: Activity)
    requires NonzeroIdsUnique(w) && NonzeroIdsUnique(p + [l])
    requires forall m :: m in w ==> m in p
    ensures NonzeroIdsUnique(w + [l])
  {
    var r := w + [l];
    forall i, j | 0 <= i < j < |r| && IdOf(r[i]) != 0 ensures IdOf(r[i]) != IdOf(r[j]) {
      if j == |r| - 1 {
        assert r[i] in w;
        var m :| 0 <= m < |p| && p[m] == r[i];
        assert (p + [l])[m] == r[i] && (p + [l])[|p|] == l;
      }
    }
  }

  /** Removing by a present id: the kept members are old members without that id, one fewer when the id is not 0. */
  lemma KeptProperties(v: Aggregate, k: nat)
    requires WellFormed(v) && k in IdsOf(v.activities)
    ensures forall m :: m in Kept(v, Some(k)) ==> m in v.activities
    ensures NonzeroIdsUnique(Kept(v, Some(k)))
    ensures k !in IdsOf(Kept(v, Some(k)))
    ensures k != 0 ==> |Kept(v, Some(k))| == |v.activities| - 1
  {
    var kept := Kept(v, Some(k));
    KeptWellFormed(v, Some(k));
    Seqs.WithoutKeyMembers(v.activities, IdOf, k);
    if k != 0 {
      KeptFacts(v, k);
    }
  }

  /**
   * `remove`: an activity whose id cannot be read fails; an absent one changes nothing; the sole
   * member cannot be removed. Otherwise every member with the key's id leaves (one, when the id is
   * not 0), `updated_at` becomes the time of the new last member, and one evicted activity is taken
   * back when there is one. Removing by the bare id 0 can leave no member at all, and then reading
   * the last member's time fails after the members were already replaced.
   */
  function Removed(v: Aggregate, ref: ActivityRef): (r: Step)
    requires WellFormed(v)
    ensures WellFormed(r.state)
    ensures forall m :: m in r.state.activities ==> m in v.activities
  {
    match Contains(v, ref)
    case Err(e) => Step(v, Some(e))
    case Ok(present) =>
      if !present then Step(v, None)
      else if |v.activities| == 1 then Step(v, Some(EmptyAggregation))
      else RemovedKey(v, RefKey(ref).value.value)
  }

  /** The cases of `remove` that change nothing: an unreadable id, an absent member, the sole member. */
  lemma RemovedCases(v: Aggregate, ref: ActivityRef)
    requires WellFormed(v)
    ensures Contains(v, ref).Err? ==> Removed(v, ref) == Step(v, Some(Contains(v, ref).error))
    ensures Contains(v, ref) == Ok(false) ==> Removed(v, ref) == Step(v, None)
    ensures Contains(v, ref) == Ok(true) && |v.activities| == 1 ==> Removed(v, ref) == Step(v, Some(EmptyAggregation))
    ensures Removed(v, ref).state.group == v.group && Removed(v, ref).state.createdAt == v.createdAt &&
            Removed(v, ref).state.dehydrated == v.dehydrated && Removed(v, ref).state.activityIds == v.activityIds
  {
    if Contains(v, ref) == Ok(true) && |v.activities| > 1 {
      assert Removed(v, ref) == RemovedKey(v, RefKey(ref).value.value);
    }
  }

  /** A removal of a present member that raised nothing leaves at least one member and none with the removed id. */
  lemma RemovedSuccess(v: Aggregate, ref: ActivityRef)
    requires WellFormed(v) && Contains(v, ref) == Ok(true) && Removed(v, ref).error.None?
    ensures var r := Removed(v, ref).state;
            |r.activities| >= 1 &&
            r.updatedAt == r.activities[|r.activities| - 1].time &&
            r.minimizedActivities == (if v.minimizedActivities > 0 then v.minimizedActivities - 1 else 0) &&
            RefKey(ref).value.value !in IdsOf(r.activities)
    ensures var r := Removed(v, ref).state;
            LastActivity(r).Some? && r.updatedAt == LastActivity(r).value.time
    ensures RefKey(ref).value.value != 0 ==> |Removed(v, ref).state.activities| == |v.activities| - 1
  {
    assert |v.activities| != 1;
    assert Removed(v, ref) == RemovedKey(v, RefKey(ref).value.value);
  }

  /** The removal of the members with a present id `k`. */
  function RemovedKey(v: Aggregate, k: nat): (r: Step)
    requires WellFormed(v) && k in IdsOf(v.activities)
    ensures WellFormed(r.state)
    ensures r.error.None? ==>
              |r.state.activities| >= 1 &&
              r.state.updatedAt == r.state.activities[|r.state.activities| - 1].time &&
              r.state.minimizedActivities == (if v.minimizedActivities > 0 then v.minimizedActivities - 1 else 0) &&
              k !in IdsOf(r.state.activities)
    ensures r.error.None? && k != 0 ==> |r.state.activities| == |v.activities| - 1
    ensures forall m :: m in r.state.activities ==> m in v.activities
    ensures r.state.group == v.group && r.state.createdAt == v.createdAt && r.state.dehydrated == v.dehydrated &&
            r.state.activityIds == v.activityIds
  {
    var kept := Kept(v, Some(k));
    KeptProperties(v, k);
    if kept == [] then
      Step(v.(activities := []), Some(UndefinedMember))
    else
      Step(v.(activities := kept,
              updatedAt := kept[|kept| - 1].time,
              minimizedActivities := if v.minimizedActivities != 0 then v.minimizedActivities - 1 else 0),
           None)
  }

  /** The removal of a present member from an aggregation of two or more, as the mutable object performs it. */
  lemma RemovedPresent(v: Aggregate, ref: ActivityRef)
    requires WellFormed(v) && Contains(v, ref) == Ok(true) && |v.activities| > 1
    ensures var kept := Kept(v, RefKey(ref).value);
            Removed(v, ref) ==
              if kept == [] then Step(v.(activities := []), Some(UndefinedMember))
              else Step(v.(activities := kept,
                           updatedAt := kept[|kept| - 1].time,
                           minimizedActivities := if v.minimizedActivities != 0 then v.minimizedActivities - 1 else 0),
                        None)
  {
  }

  /** What `remove_many` leaves behind: the new state, the arguments it removed, and the error it stopped at. */
  datatype RemoveManyOutcome = RemoveManyOutcome(state: Aggregate, removed: seq<ActivityRef>, error: Option<Error>)

  /** `remove_many`: visit the arguments in order, removing each one present at that moment; stop at the first error. */
  function RemovedMany(v: Aggregate, refs: seq<ActivityRef>): (r: RemoveManyOutcome)
    requires WellFormed(v)
    ensures WellFormed(r.state)
    ensures forall m :: m in r.state.activities ==> m in v.activities
    ensures forall x :: x in r.removed ==> x in refs
    decreases |refs|
  {
    if refs == [] then RemoveManyOutcome(v, [], None)
    else match Contains(v, refs[0])
      case Err(e) => RemoveManyOutcome(v, [], Some(e))
      case Ok(present) =>
        if !present then
          var o := RemovedMany(v, refs[1..]);
          assert forall x :: x in o.removed ==> x in refs;
          o
        else
          var step := Removed(v, refs[0]);
          if step.error.Some? then RemoveManyOutcome(step.state, [], step.error)
          else
            var o := RemovedMany(step.state, refs[1..]);
            assert forall x :: x in o.removed ==> x in refs;
            o.(removed := [refs[0]] + o.removed)
  }

  /** One step of `remove_many`, as the loop of the mutable object takes it. */
  lemma RemovedManyStep(v: Aggregate, refs: seq<ActivityRef>)
    requires WellFormed(v) && refs != []
    ensures Contains(v, refs[0]).Err? ==> RemovedMany(v, refs) == RemoveManyOutcome(v, [], Some(Contains(v, refs[0]).error))
    ensures Contains(v, refs[0]) == Ok(false) ==> RemovedMany(v, refs) == RemovedMany(v, refs[1..])
    ensures Contains(v, refs[0]) == Ok(true) && Removed(v, refs[0]).error.Some? ==>
              RemovedMany(v, refs) == RemoveManyOutcome(Removed(v, refs[0]).state, [], Removed(v, refs[0]).error)
    ensures Contains(v, refs[0]) == Ok(true) && Removed(v, refs[0]).error.None? ==>
              var o := RemovedMany(Removed(v, refs[0]).state, refs[1..]);
              RemovedMany(v, refs) == o.(removed := [refs[0]] + o.removed)
  {
  }

  /** After a `remove_many` that raised nothing, no argument that names a non-zero id is still a member. */
  lemma {:induction false} RemovedManyRemovesAll(v: Aggregate, refs: seq<ActivityRef>)
    requires WellFormed(v)
    requires RemovedMany(v, refs).error.None?
    ensures forall x :: x in refs && RefKey(x).Ok? && RefKey(x).value.Some? ==>
              RefKey(x).value.value !in IdsOf(RemovedMany(v, refs).state.activities)
    decreases |refs|
  {
    if refs != [] {
      var r := RemovedMany(v, refs);
      var present := Contains(v, refs[0]).value;
      var w := if present then Removed(v, refs[0]).state else v;
      RemovedManyRemovesAll(w, refs[1..]);
      forall x | x in refs && RefKey(x).Ok? && RefKey(x).value.Some?
        ensures RefKey(x).value.value !in IdsOf(r.state.activities)
      {
        var k := RefKey(x).value.value;
        if x == refs[0] {
          assert k !in IdsOf(w.activities);
          SubsetIds(r.state.activities, w.activities, k);
        } else {
          assert x in refs[1..];
        }
      }
    }
  }

  /** A removal that raised nothing keeps every member whose id differs from the removed key. */
  lemma RemovedKeepsOthers(v: Aggregate, ref: ActivityRef, k: nat)
    requires WellFormed(v) && Contains(v, ref) == Ok(true) && Removed(v, ref).error.None?
    requires k in IdsOf(v.activities) && k != RefKey(ref).value.value
    ensures k in IdsOf(Removed(v, ref).state.activities)
  {
    var key := RefKey(ref).value.value;
    assert |v.activities| != 1;
    RemovedPresent(v, ref);
    var kept := Kept(v, Some(key));
    Seqs.WithoutKeyMembers(v.activities, IdOf, key);
    var j :| 0 <= j < |v.activities| && IdsOf(v.activities)[j] == k;
    var m := v.activities[j];
    assert m in kept;
    var n :| 0 <= n < |kept| && kept[n] == m;
    assert IdsOf(kept)[n] == k;
  }

  /**
   * `remove_many` reports the arguments it removed: each reported argument named a member, and
   * every argument naming a member's id is answered by a reported argument with the same key.
   */
  lemma {:induction false} RemovedManyReports(v: Aggregate, refs: seq<ActivityRef>)
    requires WellFormed(v) && RemovedMany(v, refs).error.None?
    ensures forall y :: y in RemovedMany(v, refs).removed ==>
              RefKey(y).Ok? && RefKey(y).value.Some? && RefKey(y).value.value in IdsOf(v.activities)
    ensures forall x :: x in refs && RefKey(x).Ok? && RefKey(x).value.Some? && RefKey(x).value.value in IdsOf(v.activities) ==>
              exists y :: y in RemovedMany(v, refs).removed && RefKey(y) == RefKey(x)
    decreases |refs|
  {
    if refs != [] {
      var r := RemovedMany(v, refs);
      var present := Contains(v, refs[0]).value;
      if !present {
        RemovedManyReports(v, refs[1..]);
        forall x | x in refs && RefKey(x).Ok? && RefKey(x).value.Some? && RefKey(x).value.value in IdsOf(v.activities)
          ensures exists y :: y in r.removed && RefKey(y) == RefKey(x)
        {
          if x != refs[0] {
            assert x in refs[1..];
          }
        }
      } else {
        var w := Removed(v, refs[0]).state;
        var o := RemovedMany(w, refs[1..]);
        RemovedManyReports(w, refs[1..]);
        assert r.removed == [refs[0]] + o.removed;
        forall y | y in o.removed
          ensures RefKey(y).value.value in IdsOf(v.activities)
        {
          var k := RefKey(y).value.value;
          if k !in IdsOf(v.activities) {
            SubsetIds(w.activities, v.activities, k);
          }
        }
        forall x | x in refs && RefKey(x).Ok? && RefKey(x).value.Some? && RefKey(x).value.value in IdsOf(v.activities)
          ensures exists y :: y in r.removed && RefKey(y) == RefKey(x)
        {
          if RefKey(x) == RefKey(refs[0]) {
            assert refs[0] in r.removed;
          } else {
            assert x in refs[1..];
            RemovedKeepsOthers(v, refs[0], RefKey(x).value.value);
          }
        }
      }
    }
  }

  /** Only the bare id 0 looks for the id 0: an activity whose id is 0 looks for nothing. */
  lemma NonzeroKey(ref: ActivityRef)
    requires ref != BareId(0) && RefKey(ref).Ok? && RefKey(ref).value.Some?
    ensures RefKey(ref).value.value != 0
  {
  }

  /** When no argument is the bare id 0, the members left and the arguments reported add up to the members before. */
  lemma {:induction false} RemovedManyCount(v: Aggregate, refs: seq<ActivityRef>)
    requires WellFormed(v) && RemovedMany(v, refs).error.None?
    requires forall x :: x in refs ==> x != BareId(0)
    ensures |RemovedMany(v, refs).state.activities| + |RemovedMany(v, refs).removed| == |v.activities|
    decreases |refs|
  {
    if refs != [] {
      var x, rest := refs[0], refs[1..];
      assert x in refs && forall y :: y in rest ==> y in refs;
      assert x != BareId(0);
      RemovedManyStep(v, refs);
      if Contains(v, x) == Ok(false) {
        RemovedManyCount(v, rest);
      } else {
        NonzeroKey(x);
        RemovedSuccess(v, x);
        RemovedManyCount(Removed(v, x).state, rest);
      }
    }
  }

  /** After `i` arguments of `remove_many`, the state `v` and the arguments removed so far account for the whole call. */
  ghost predicate RemoveManyAt(start: Aggregate, refs: seq<ActivityRef>, i: nat, v: Aggregate, removed: seq<ActivityRef>) {
    && WellFormed(start) && WellFormed(v) && i <= |refs|
    && var o := RemovedMany(v, refs[i..]);
       RemovedMany(start, refs) == o.(removed := removed + o.removed)
  }

  /** One argument of `remove_many`: the new state, whether the argument was present, and the error met. */
  datatype RemoveOneOutcome = RemoveOneOutcome(state: Aggregate, present: bool, error: Option<Error>)

  function RemoveOneOf(v: Aggregate, ref: ActivityRef): (r: RemoveOneOutcome)
    requires WellFormed(v)
    ensures WellFormed(r.state)
  {
    match Contains(v, ref)
    case Err(e) => RemoveOneOutcome(v, false, Some(e))
    case Ok(present) =>
      if present then RemoveOneOutcome(Removed(v, ref).state, true, Removed(v, ref).error)
      else RemoveOneOutcome(v, false, None)
  }

  /** One argument further: an error ends the call; otherwise the walk goes on from the new state. */
  lemma RemoveManyAdvance(start: Aggregate, refs: seq<ActivityRef>, i: nat, v: Aggregate, removed: seq<ActivityRef>)
    requires RemoveManyAt(start, refs, i, v, removed) && i < |refs|
    ensures var o := RemoveOneOf(v, refs[i]);
            o.error.Some? ==> RemovedMany(start, refs) == RemoveManyOutcome(o.state, removed, o.error)
    ensures var o := RemoveOneOf(v, refs[i]);
            o.error.None? ==> RemoveManyAt(start, refs, i + 1, o.state, if o.present then removed + [refs[i]] else removed)
  {
    assert refs[i..][1..] == refs[i + 1..];
    assert refs[i..][0] == refs[i];
    RemovedManyStep(v, refs[i..]);
    if Contains(v, refs[i]) == Ok(true) && Removed(v, refs[i]).error.None? {
      var rest := RemovedMany(Removed(v, refs[i]).state, refs[i + 1..]);
      assert removed + ([refs[i]] + rest.removed) == (removed + [refs[i]]) + rest.removed;
    }
  }

  lemma RemoveManyDone(start: Aggregate, refs: seq<ActivityRef>, v: Aggregate, removed: seq<ActivityRef>)
    requires RemoveManyAt(start, refs, |refs|, v, removed)
    ensures RemovedMany(start, refs) == RemoveManyOutcome(v, removed, None)
  {
    assert refs[|refs|..] == [];
  }

  lemma SubsetIds(s: seq<Activity>, t: seq<Activity>, k: nat)
    requires forall m :: m in s ==> m in t
    requires k !in IdsOf(t)
    ensures k !in IdsOf(s)
  {
    forall j | 0 <= j < |s| ensures IdsOf(s)[j] != k {
      assert s[j] in t;
      var m :| 0 <= m < |t| && t[m] == s[j];
      assert IdsOf(t)[m] == IdsOf(s)[j];
    }
  }

  // ---------------------------------------------------------------------------
  // Dehydration of aggregated activities.

  /** `get_dehydrated`: record the member ids in order, drop the members, mark dehydrated; a dehydrated value is kept. */
  function Dehydrated(v: Aggregate): (r: Aggregate)
    ensures r.dehydrated && r.activities == (if v.dehydrated then v.activities else [])
    ensures !v.dehydrated ==> r.activityIds == IdsOf(v.activities)
    ensures v.dehydrated ==> r == v
    ensures r.group == v.group && r.createdAt == v.createdAt && r.updatedAt == v.updatedAt &&
            r.minimizedActivities == v.minimizedActivities
    ensures WellFormed(v) ==> WellFormed(r)
  {
    if v.dehydrated then v
    else v.(activityIds := IdsOf(v.activities), activities := [], dehydrated := true)
  }

  /** Dehydrating twice is dehydrating once. */
  lemma DehydratedIdempotent(v: Aggregate)
    ensures Dehydrated(Dehydrated(v)) == Dehydrated(v)
  {
  }

  function LookupAll(ids: seq<nat>, lookup: map<nat, Activity>): (r: seq<Activity>)
    requires forall id :: id in ids ==> id in lookup
    ensures |r| == |ids| && forall i :: 0 <= i < |ids| ==> r[i] == lookup[ids[i]]
  {
    seq(|ids|, i requires 0 <= i < |ids| => lookup[ids[i]])
  }

  /**
   * `get_hydrated`: a value that is not dehydrated is kept; otherwise the activity of each recorded
   * id is pushed after the current members, in recorded order, and the record is cleared.
   */
  function Hydrated(v: Aggregate, lookup: map<nat, Activity>): (r: Result<Aggregate>)
    ensures !v.dehydrated ==> r == Ok(v)
    ensures r.Err? <==> v.dehydrated && exists id :: id in v.activityIds && id !in lookup
    ensures r.Ok? ==> !r.value.dehydrated
    ensures r.Ok? && v.dehydrated ==>
              r.value.activityIds == [] &&
              |r.value.activities| == |v.activities| + |v.activityIds| &&
              r.value.activities[..|v.activities|] == v.activities &&
              forall i :: |v.activities| <= i < |r.value.activities| ==>
                v.activityIds[i - |v.activities|] in lookup && r.value.activities[i] == lookup[v.activityIds[i - |v.activities|]]
  {
    if !v.dehydrated then Ok(v)
    else if exists id :: id in v.activityIds && id !in lookup then Err(MissingActivity)
    else
      var fetched := LookupAll(v.activityIds, lookup);
      var r := v.(activities := v.activities + fetched, activityIds := [], dehydrated := false);
      assert r.activities[..|v.activities|] == v.activities;
      assert forall i :: |v.activities| <= i < |r.activities| ==> r.activities[i] == fetched[i - |v.activities|];
      Ok(r)
  }

  /** A lookup table that maps every member's id back to the member. */
  predicate Restores(v: Aggregate, lookup: map<nat, Activity>) {
    forall m :: m in v.activities ==> IdOf(m) in lookup && lookup[IdOf(m)] == m
  }

  /** Dehydrating and then hydrating from a table that restores every member gives back the same aggregation. */
  lemma DehydrateHydrateRoundTrip(v: Aggregate, lookup: map<nat, Activity>)
    requires WellFormed(v) && !v.dehydrated && Restores(v, lookup)
    ensures Hydrated(Dehydrated(v), lookup) == Ok(v)
  {
    var d := Dehydrated(v);
    forall id | id in d.activityIds ensures id in lookup {
      var i :| 0 <= i < |d.activityIds| && d.activityIds[i] == id;
      assert v.activities[i] in v.activities;
    }
    var fetched := LookupAll(d.activityIds, lookup);
    assert fetched == v.activities by {
      forall i | 0 <= i < |v.activities| ensures fetched[i] == v.activities[i] {
        assert v.activities[i] in v.activities;
      }
    }
    assert d.activities + fetched == v.activities;
  }

  /** Non-zero entries of a list of ids are distinct. */
  predicate NonzeroUnique(ids: seq<nat>) {
    forall i, j :: 0 <= i < j < |ids| && ids[i] != 0 ==> ids[i] != ids[j]
  }

  /**
   * A lookup table that can restore the recorded ids: each maps to a serializable activity reporting
   * that id, and the member ids followed by the recorded ids repeat no non-zero id.
   */
  predicate Restorable(v: Aggregate, lookup: map<nat, Activity>) {
    && (forall id :: id in v.activityIds ==> id in lookup && Serializable(lookup[id]) && IdOf(lookup[id]) == id)
    && NonzeroUnique(IdsOf(v.activities) + v.activityIds)
  }

  /** Hydrating from a table that can restore the recorded ids succeeds and keeps the aggregation well formed. */
  lemma HydratedWellFormed(v: Aggregate, lookup: map<nat, Activity>)
    requires WellFormed(v) && Restorable(v, lookup)
    ensures Hydrated(v, lookup).Ok? && WellFormed(Hydrated(v, lookup).value)
  {
    if v.dehydrated {
      var fetched := LookupAll(v.activityIds, lookup);
      assert Hydrated(v, lookup) == Ok(v.(activities := v.activities + fetched, activityIds := [], dehydrated := false));
      FetchedIds(v.activities, v.activityIds, lookup);
      NonzeroIds(v.activities + fetched);
      forall m | m in v.activities + fetched ensures Serializable(m) {
        if m !in v.activities {
          var i :| 0 <= i < |fetched| && fetched[i] == m;
          assert v.activityIds[i] in v.activityIds;
        }
      }
    }
  }

  /** Members followed by the activities fetched for some ids report those ids after their own. */
  lemma FetchedIds(s: seq<Activity>, ids: seq<nat>, lookup: map<nat, Activity>)
    requires forall id :: id in ids ==> id in lookup && IdOf(lookup[id]) == id
    ensures IdsOf(s + LookupAll(ids, lookup)) == IdsOf(s) + ids
  {
    var t := s + LookupAll(ids, lookup);
    forall i | 0 <= i < |t| ensures IdsOf(t)[i] == (IdsOf(s) + ids)[i] {
      if i >= |s| {
        assert ids[i - |s|] in ids;
      }
    }
  }

  lemma NonzeroIds(s: seq<Activity>)
    requires NonzeroUnique(IdsOf(s))
    ensures NonzeroIdsUnique(s)
  {
    forall i, j | 0 <= i < j < |s| && IdOf(s[i]) != 0 ensures IdOf(s[i]) != IdOf(s[j]) {
      assert IdsOf(s)[i] == IdOf(s[i]) && IdsOf(s)[j] == IdOf(s[j]);
    }
  }

  /** A table that restores every member can restore what dehydration records. */
  lemma DehydratedRestorable(v: Aggregate, lookup: map<nat, Activity>)
    requires WellFormed(v) && !v.dehydrated && Restores(v, lookup)
    ensures Restorable(Dehydrated(v), lookup)
  {
    var d := Dehydrated(v);
    forall id | id in d.activityIds ensures id in lookup && Serializable(lookup[id]) && IdOf(lookup[id]) == id {
      var i :| 0 <= i < |d.activityIds| && d.activityIds[i] == id;
      assert v.activities[i] in v.activities;
    }
    assert IdsOf(d.activities) + d.activityIds == IdsOf(v.activities);
  }

  /** The `activity_ids` getter as written: a JavaScript array is truthy even when empty, so the recorded list is always returned. */
  function ActivityIdsAsWritten(v: Aggregate): seq<nat> {
    v.activityIds
  }

  /** A hydrated aggregation with members reports no ids through the getter as written. */
  lemma ActivityIdsAsWrittenLosesMembers(a: Activity)
    requires Serializable(a)
    ensures var v := Aggregate("", None, None, [a], None, None, 0, false, []);
            WellFormed(v) && ActivityIdsAsWritten(v) == [] && IdsOf(v.activities) != []
  {
  }

  /** The `activity_ids` getter as the commented-out `__len__` uses it: the recorded ids when there are any, the member ids otherwise. */
  function ActivityIds(v: Aggregate): (r: seq<nat>)
    ensures |v.activityIds| > 0 ==> r == v.activityIds
    ensures v.activityIds == [] ==> r == IdsOf(v.activities)
  {
    if |v.activityIds| > 0 then v.activityIds else IdsOf(v.activities)
  }

  /** The ids of an aggregation survive dehydration: the getter reports the same list before and after. */
  lemma ActivityIdsSurviveDehydration(v: Aggregate)
    requires WellFormed(v)
    ensures ActivityIds(Dehydrated(v)) == ActivityIds(v)
    ensures !v.dehydrated ==> ActivityIds(v) == IdsOf(v.activities)
  {
  }

  // ---------------------------------------------------------------------------
  // Counts and derived fields.

  function ActorSeq(s: seq<Activity>): seq<nat> { seq(|s|, i requires 0 <= i < |s| => s[i].actorId) }
  function ObjectSeq(s: seq<Activity>): seq<nat> { seq(|s|, i requires 0 <= i < |s| => s[i].objectId) }
  function VerbSeq(s: seq<Activity>): seq<Verb> { seq(|s|, i requires 0 <= i < |s| => s[i].verb) }

  function VerbId(x: Verb): nat { x.id }

  /** `actor_ids`: each member's actor id once, in order of first occurrence. */
  function ActorIds(v: Aggregate): (r: seq<nat>)
    ensures forall i, j :: 0 <= i < j < |r| ==> r[i] != r[j]
    ensures forall x :: x in r <==> x in ActorSeq(v.activities)
    ensures forall i, j :: 0 <= i < j < |r| ==> Seqs.KeyBefore(ActorSeq(v.activities), Seqs.Identity, r[i], r[j])
    ensures |r| <= |v.activities|
  {
    Seqs.DistinctFacts(ActorSeq(v.activities));
    Seqs.Distinct(ActorSeq(v.activities))
  }

  /** `object_ids`: each member's object id once, in order of first occurrence. */
  function ObjectIds(v: Aggregate): (r: seq<nat>)
    ensures forall i, j :: 0 <= i < j < |r| ==> r[i] != r[j]
    ensures forall x :: x in r <==> x in ObjectSeq(v.activities)
    ensures forall i, j :: 0 <= i < j < |r| ==> Seqs.KeyBefore(ObjectSeq(v.activities), Seqs.Identity, r[i], r[j])
  {
    Seqs.DistinctFacts(ObjectSeq(v.activities));
    Seqs.Distinct(ObjectSeq(v.activities))
  }

  /** `verbs`: the first verb seen for each verb id, in order of first occurrence. */
  function DistinctVerbs(v: Aggregate): (r: seq<Verb>)
    ensures Seqs.KeysUnique(r, VerbId)
    ensures Seqs.KeySet(r, VerbId) == Seqs.KeySet(VerbSeq(v.activities), VerbId)
    ensures forall j :: 0 <= j < |r| ==>
              VerbId(r[j]) in Seqs.KeySet(VerbSeq(v.activities), VerbId) &&
              r[j] == VerbSeq(v.activities)[Seqs.FirstIndex(VerbSeq(v.activities), VerbId, VerbId(r[j]))]
    ensures forall i, j :: 0 <= i < j < |r| ==> Seqs.KeyBefore(VerbSeq(v.activities), VerbId, r[i], r[j])
  {
    Seqs.DistinctByKeys(VerbSeq(v.activities), VerbId);
    Seqs.DistinctByFirst(VerbSeq(v.activities), VerbId);
    Seqs.DistinctByOrder(VerbSeq(v.activities), VerbId);
    Seqs.DistinctBy(VerbSeq(v.activities), VerbId)
  }

  /** `verb`: the verb of the first member; reading it on an empty aggregation fails. */
  function FirstVerb(v: Aggregate): (r: Result<Verb>)
    ensures r.Err? <==> |v.activities| == 0
    ensures r.Err? ==> r.error == UndefinedMember
    ensures r.Ok? ==> r.value == v.activities[0].verb && r.value == DistinctVerbs(v)[0]
  {
    if |v.activities| == 0 then Err(UndefinedMember)
    else
      var vs := DistinctVerbs(v);
      var s := VerbSeq(v.activities);
      assert s[0] in s;
      assert VerbId(s[0]) in Seqs.KeySet(vs, VerbId);
      var x :| x in vs && VerbId(x) == VerbId(s[0]);
      var m :| 0 <= m < |vs| && vs[m] == x;
      assert Seqs.FirstIndex(s, VerbId, VerbId(s[0])) == 0;
      assert m == 0 by {
        if m != 0 {
          Seqs.DistinctByPairOrder(s, VerbId, 0, m);
          assert false;
        }
      }
      Ok(v.activities[0].verb)
  }

  /** `actor_count`: evicted activities count as actors, plus the distinct actors held. */
  function ActorCount(v: Aggregate): int {
    v.minimizedActivities + |ActorIds(v)|
  }

  /** `other_actor_count`. */
  function OtherActorCount(v: Aggregate): int {
    ActorCount(v) - 1
  }

  /** The actor count never exceeds the activity count, and a non-empty aggregation counts at least one actor. */
  lemma ActorCountBounds(v: Aggregate)
    ensures ActorCount(v) <= ActivityCount(v)
    ensures OtherActorCount(v) == ActorCount(v) - 1
    ensures |v.activities| > 0 ==> ActorCount(v) >= v.minimizedActivities + 1
  {
    if |v.activities| > 0 {
      assert v.activities[0].actorId == ActorSeq(v.activities)[0];
      assert ActorSeq(v.activities)[0] in ActorIds(v);
    }
  }

  /** `last_activity`: the newest member, absent (undefined) for an empty aggregation. */
  function LastActivity(v: Aggregate): (r: Option<Activity>)
    ensures r.Some? <==> |v.activities| > 0
    ensures r.Some? ==> r.value in v.activities && r.value == LastActivities(v)[0]
  {
    if |v.activities| == 0 then None else Some(v.activities[|v.activities| - 1])
  }

  /** `last_activities`: the members, newest first. */
  function LastActivities(v: Aggregate): (r: seq<Activity>)
    ensures |r| == |v.activities|
    ensures forall i :: 0 <= i < |r| ==> r[i] == v.activities[|v.activities| - 1 - i]
  {
    seq(|v.activities|, i requires 0 <= i < |v.activities| => v.activities[|v.activities| - 1 - i])
  }

  /**
   * After a successful append below fifteen members the appended activity is the last activity and
   * heads the newest-first list; on a full aggregation the just-pushed activity is popped again and
   * the last activity stays as it was.
   */
  lemma LastActivityAfterAppend(v: Aggregate, a: Activity)
    requires Appended(v, a).Ok?
    ensures |v.activities| < MaxAggregatedActivitiesLength ==>
              LastActivity(Appended(v, a).value) == Some(a) && LastActivities(Appended(v, a).value)[0] == a
    ensures |v.activities| >= MaxAggregatedActivitiesLength ==> LastActivity(Appended(v, a).value) == LastActivity(v)
  {
    var w := Appended(v, a).value;
    assert w.activities == Pushed(v, a).activities;
    if |v.activities| < MaxAggregatedActivitiesLength {
      assert w.activities == v.activities + [a];
      assert LastActivities(w)[0] == w.activities[|w.activities| - 1];
    }
  }

  /** `is_seen`: seen at or after the last update. */
  predicate IsSeen(v: Aggregate) {
    v.seenAt.Some? && v.seenAt.value >= TimeOrZero(v.updatedAt)
  }

  /** `is_read`: read at or after the last update. */
  predicate IsRead(v: Aggregate) {
    v.readAt.Some? && v.readAt.value >= TimeOrZero(v.updatedAt)
  }

  /** A new activity later than the seen (read) time makes the aggregation unseen (unread). */
  lemma NewerActivityResetsSeen(v: Aggregate, a: Activity)
    requires Appended(v, a).Ok?
    ensures v.seenAt.Some? && a.time.value > v.seenAt.value ==> !IsSeen(Appended(v, a).value)
    ensures v.readAt.Some? && a.time.value > v.readAt.value ==> !IsRead(Appended(v, a).value)
    ensures v.seenAt.None? ==> !IsSeen(Appended(v, a).value)
  {
  }

  /** Marking the aggregation seen (read) at a moment no earlier than its last update makes it seen (read). */
  lemma SeenAfterUpdate(v: Aggregate, now: nat)
    requires v.updatedAt.None? || now >= v.updatedAt.value
    ensures IsSeen(v.(seenAt := Some(now)))
    ensures IsRead(v.(readAt := Some(now)))
  {
  }

  /** `serializationId` of an aggregation: the decimal text of the last update time in tenths of a second, rounded half up. */
  function AggregateSerializationId(v: Aggregate): (r: Result<string>)
    ensures r.Err? <==> v.updatedAt.None?
    ensures r.Err? ==> r.error == MissingUpdatedAt
    ensures r.Ok? ==> AllDigits(r.value) && 100 * ParseDecimal(r.value) <= v.updatedAt.value + 50 < 100 * ParseDecimal(r.value) + 100
  {
    if v.updatedAt.None? then Err(MissingUpdatedAt)
    else
      var tenths := (v.updatedAt.value + 50) / 100;
      ParseDecimalString(tenths);
      Ok(DecimalString(tenths))
  }

  // ---------------------------------------------------------------------------
  // The mutable object.

  class AggregatedActivity {
    var group: string
    var createdAt: Option<nat>
    var updatedAt: Option<nat>
    var activities: seq<Activity>
    var seenAt: Option<nat>
    var readAt: Option<nat>
    var minimizedActivities: int
    var dehydrated: bool
    var activityIds: seq<nat>

    /** The object's state as a value. */
    function View(): Aggregate
      reads this
    {
      Aggregate(group, createdAt, updatedAt, activities, seenAt, readAt, minimizedActivities, dehydrated, activityIds)
    }

    ghost predicate Valid()
      reads this
    {
      WellFormed(View())
    }

    constructor(group: string, activities: seq<Activity>, createdAt: Option<nat>, updatedAt: Option<nat>)
      requires forall m :: m in activities ==> Serializable(m)
      requires NonzeroIdsUnique(activities)
      ensures View() == Aggregate(group, createdAt, updatedAt, activities, None, None, 0, false, [])
      ensures Valid()
    {
      this.group := group;
      this.activities := activities;
      this.createdAt := createdAt;
      this.updatedAt := updatedAt;
      seenAt := None;
      readAt := None;
      minimizedActivities := 0;
      dehydrated := false;
      activityIds := [];
    }

    /** `contains`: read the key, then walk the members as `some` does until one reports it. */
    method Has(ref: ActivityRef) returns (r: Result<bool>)
      ensures r == Contains(View(), ref)
    {
      var key := RefKey(ref);
      if key.Err? {
        return Err(key.error);
      }
      var i := 0;
      while i < |activities|
        invariant 0 <= i <= |activities|
        invariant forall j :: 0 <= j < i ==> key.value != Some(IdOf(activities[j]))
      {
        if key.value == Some(IdOf(activities[i])) {
          assert IdsOf(activities)[i] == key.value.value;
          return Ok(true);
        }
        i := i + 1;
      }
      r := Ok(false);
    }

    method Append(a: Activity) returns (res: Outcome)
      requires Valid()
      modifies this
      ensures Valid()
      ensures Appended(old(View()), a).Ok? ==> res == Pass && View() == Appended(old(View()), a).value
      ensures Appended(old(View()), a).Err? ==> res == Fail(Appended(old(View()), a).error) && View() == old(View())
    {
      var present := Has(Ref(a));
      if present.Err? {
        return Fail(present.error);
      }
      if present.value {
        return Fail(DuplicateActivity);
      }
      Push(a);
      res := Pass;
    }

    /** The part of `append` past its duplicate check. */
    method Push(a: Activity)
      requires Valid() && Contains(View(), Ref(a)) == Ok(false)
      modifies this
      ensures Valid()
      ensures View() == Pushed(old(View()), a)
    {
      PushedWellFormed(View(), a);
      activities := activities + [a];
      if createdAt.None? {
        createdAt := a.time;
      }
      if updatedAt.None? || a.time.value > updatedAt.value {
        updatedAt := a.time;
      }
      if |activities| > MaxAggregatedActivitiesLength {
        activities := activities[..|activities| - 1];
        minimizedActivities := minimizedActivities + 1;
      }
    }

    method Remove(ref: ActivityRef) returns (error: Option<Error>)
      requires Valid()
      modifies this
      ensures Valid()
      ensures Step(View(), error) == Removed(old(View()), ref)
    {
      var present := Has(ref);
      if present.Err? {
        return Some(present.error);
      }
      if !present.value {
        return None;
      }
      if |activities| == 1 {
        return Some(EmptyAggregation);
      }
      error := RemovePresent(ref);
    }

    /** The part of `remove` past its guards: filter the members, then refresh `updated_at` and the evicted count. */
    method RemovePresent(ref: ActivityRef) returns (error: Option<Error>)
      requires Valid() && Contains(View(), ref) == Ok(true) && |activities| > 1
      modifies this
      ensures Valid()
      ensures Step(View(), error) == Removed(old(View()), ref)
    {
      RemovedPresent(View(), ref);
      activities := Kept(View(), RefKey(ref).value);
      if activities == [] {
        error := Some(UndefinedMember);
        return;
      }
      updatedAt := activities[|activities| - 1].time;
      if minimizedActivities != 0 {
        minimizedActivities := minimizedActivities - 1;
      }
      error := None;
    }

    method RemoveMany(refs: seq<ActivityRef>) returns (removed: seq<ActivityRef>, error: Option<Error>)
      requires Valid()
      modifies this
      ensures Valid()
      ensures RemovedMany(old(View()), refs) == RemoveManyOutcome(View(), removed, error)
    {
      ghost var start := View();
      removed := [];
      error := None;
      var i := 0;
      assert refs[0..] == refs;
      while i < |refs|
        invariant 0 <= i <= |refs| && error.None?
        invariant RemoveManyAt(start, refs, i, View(), removed)
      {
        var present;
        RemoveManyAdvance(start, refs, i, View(), removed);
        present, error := RemoveOne(refs[i]);
        if error.Some? {
          return;
        }
        if present {
          removed := removed + [refs[i]];
        }
        i := i + 1;
      }
      RemoveManyDone(start, refs, View(), removed);
    }

    /** One argument of `remove_many`: skip it when absent, remove it when present, stop at an error. */
    method RemoveOne(ref: ActivityRef) returns (present: bool, error: Option<Error>)
      requires Valid()
      modifies this
      ensures Valid()
      ensures RemoveOneOutcome(View(), present, error) == RemoveOneOf(old(View()), ref)
    {
      var has := Has(ref);
      if has.Err? {
        return false, Some(has.error);
      }
      present := has.value;
      if present {
        error := Remove(ref);
      } else {
        error := None;
      }
    }

    method GetDehydrated()
      requires Valid()
      modifies this
      ensures Valid()
      ensures View() == Dehydrated(old(View()))
    {
      if dehydrated {
        return;
      }
      activityIds := IdsOf(activities);
      activities := [];
      dehydrated := true;
    }

    /** `get_hydrated`: push the looked-up activity of each recorded id, in order. */
    method GetHydrated(lookup: map<nat, Activity>) returns (res: Outcome)
      requires Valid()
      modifies this
      ensures !old(View()).dehydrated || Hydrated(old(View()), lookup).Err? || Restorable(old(View()), lookup) ==> Valid()
      ensures Hydrated(old(View()), lookup).Ok? ==> res == Pass && View() == Hydrated(old(View()), lookup).value
      ensures Hydrated(old(View()), lookup).Err? ==> res == Fail(MissingActivity) && View() == old(View())
    {
      if !dehydrated {
        return Pass;
      }
      if exists id :: id in activityIds && id !in lookup {
        return Fail(MissingActivity);
      }
      ghost var start := View();
      var ids, acts := activityIds, activities;
      assert forall j :: 0 <= j < |ids| ==> ids[j] in lookup;
      var i := 0;
      while i < |ids|
        invariant 0 <= i <= |ids|
        invariant acts == activities + LookupAll(ids[..i], lookup)
      {
        assert ids[..i + 1] == ids[..i] + [ids[i]];
        acts := acts + [lookup[ids[i]]];
        i := i + 1;
      }
      assert ids[..i] == ids;
      activities := acts;
      activityIds := [];
      dehydrated := false;
      if Restorable(start, lookup) {
        HydratedWellFormed(start, lookup);
      }
      res := Pass;
    }

    method GetActorIds() returns (ids: seq<nat>)
      ensures ids == ActorIds(View())
    {
      ids := Seqs.CollectDistinct(ActorSeq(activities), Seqs.Identity);
    }

    method GetObjectIds() returns (ids: seq<nat>)
      ensures ids == ObjectIds(View())
    {
      ids := Seqs.CollectDistinct(ObjectSeq(activities), Seqs.Identity);
    }

    method GetVerbs() returns (verbs: seq<Verb>)
      ensures verbs == DistinctVerbs(View())
    {
      verbs := Seqs.CollectDistinct(VerbSeq(activities), VerbId);
    }

    /** `update_seen_at`, with the current time passed in. */
    method UpdateSeenAt(now: nat)
      modifies this
      ensures View() == old(View()).(seenAt := Some(now))
    {
      seenAt := Some(now);
    }

    /** `update_read_at`, with the current time passed in. */
    method UpdateReadAt(now: nat)
      modifies this
      ensures View() == old(View()).(readAt := Some(now))
    {
      readAt := Some(now);
    }
  }
}
