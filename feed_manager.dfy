/**
 * The fan-out manager of `src/feed-manager.ts`: storing a user's activity, writing it to the
 * user's own feed, and planning the asynchronous tasks that carry it to every follower's feeds,
 * one task per chunk of followers, per priority and per feed class. Scheduling a task is
 * appending its record to the manager's queue; the global activity store and the user feeds are
 * logs held in the manager.
 */
module FeedManager {
  import opened Common
  import A = Activities
  import F = Feeds
  import L = LegacyActivities
  import Seqs
  import Digits

  /** `followActivityLimit`. */
  const FollowActivityLimit: nat := 5000

  /** `fanoutChunkSize`: the number of followers one task handles. */
  const FanoutChunkSize: nat := 100

  // ---------------------------------------------------------------------------
  // Chunking.

  /** lodash `chunk` for a positive size: consecutive pieces of `size` elements, the last one possibly shorter. */
  function Chunk<T>(xs: seq<T>, size: nat): (cs: seq<seq<T>>)
    requires size > 0
    ensures forall k :: 0 <= k < |cs| ==> 0 < |cs[k]| <= size
    ensures forall k :: 0 <= k < |cs| - 1 ==> |cs[k]| == size
    decreases |xs|
  {
    if xs == [] then []
    else if |xs| <= size then [xs]
    else
      var rest := Chunk(xs[size..], size);
      assert forall k :: 0 < k < |rest| + 1 ==> ([xs[..size]] + rest)[k] == rest[k - 1];
      [xs[..size]] + rest
  }

  /** The chunks concatenate back to the input. */
  lemma {:induction false} ChunkFlatten<T>(xs: seq<T>, size: nat)
    requires size > 0
    ensures Seqs.Flatten(Chunk(xs, size)) == xs
    decreases |xs|
  {
    if |xs| > size {
      var rest := Chunk(xs[size..], size);
      var cs := [xs[..size]] + rest;
      assert cs[0] == xs[..size] && cs[1..] == rest;
      ChunkFlatten(xs[size..], size);
      assert xs[..size] + xs[size..] == xs;
    } else if xs != [] {
      assert [xs][1..] == [];
      assert xs + [] == xs;
    }
  }

  /** There are `ceil(|xs| / size)` chunks; an empty list has none. */
  lemma {:induction false} ChunkCount<T>(xs: seq<T>, size: nat)
    requires size > 0
    ensures |Chunk(xs, size)| == (|xs| + size - 1) / size
    decreases |xs|
  {
    if xs == [] {
      Digits.DivModFields(0, size - 1, size);
    } else if |xs| <= size {
      Digits.DivModFields(1, |xs| - 1, size);
    } else {
      ChunkCount(xs[size..], size);
      var n := |xs| - 1;
      Digits.DivModFields(n / size, n % size, size);
      Digits.DivModFields(n / size + 1, n % size, size);
      assert (n / size + 1) * size + n % size == n + size;
    }
  }

  /** Every element of the input lies in some chunk. */
  lemma {:induction false} ChunkMember<T>(xs: seq<T>, size: nat, x: T)
    requires size > 0 && x in xs
    ensures exists k :: 0 <= k < |Chunk(xs, size)| && x in Chunk(xs, size)[k]
    decreases |xs|
  {
    var cs := Chunk(xs, size);
    if |xs| <= size {
      assert cs[0] == xs;
    } else {
      var i :| 0 <= i < |xs| && xs[i] == x;
      if i < size {
        assert cs[0] == xs[..size] && cs[0][i] == x;
      } else {
        assert xs[size..][i - size] == x;
        ChunkMember(xs[size..], size, x);
        var k :| 0 <= k < |Chunk(xs[size..], size)| && x in Chunk(xs[size..], size)[k];
        assert cs[k + 1] == Chunk(xs[size..], size)[k];
      }
    }
  }

  /** 250 followers at the default chunk size make three tasks. */
  lemma ChunkExample<T>(xs: seq<T>)
    requires |xs| == 250
    ensures |Chunk(xs, FanoutChunkSize)| == 3
  {
    ChunkCount(xs, FanoutChunkSize);
  }

  // ---------------------------------------------------------------------------
  // Tasks.

  /** The tasks a fan-out can be scheduled on. */
  datatype Task = FanoutHighPriority | FanoutLowPriority | FanoutOperation

  /** `priorityFanoutTask[priority] || fanout_operation`: the HIGH and LOW tasks, and the plain one for any other priority. */
  function GetFanoutTask(priority: Option<string>): (t: Task)
    ensures t == FanoutHighPriority <==> priority == Some("HIGH")
    ensures t == FanoutLowPriority <==> priority == Some("LOW")
  {
    if priority == Some("HIGH") then FanoutHighPriority
    else if priority == Some("LOW") then FanoutLowPriority
    else FanoutOperation
  }

  /** The feed classes fanned out to; the manager's default is `{normal: RedisFeed}`. */
  datatype FeedClass = FeedClass(name: string)

  const DefaultFeedClasses: seq<FeedClass> := [FeedClass("RedisFeed")]

  /** The operations a fan-out task applies to each follower feed. */
  datatype Operation = Add | Remove

  /** The keyword arguments passed along to the operation. */
  datatype OperationArgs = OperationArgs(activities: seq<A.Activity>, trim: bool)

  /** One `fanoutTask.delay(this, feedClass, chunk, operation, operationKWArgs)`. */
  datatype FanoutUnit = FanoutUnit(task: Task, feedClass: FeedClass, userIds: seq<string>, operation: Operation, kwargs: OperationArgs)

  /** The followers of one priority, as `getUserFollowerIds` lists them. */
  datatype PriorityFollowers = PriorityFollowers(priority: string, followerIds: seq<string>)

  /** The default `getUserFollowerIds`: no followers under either priority. */
  function DefaultFollowers(userId: nat): seq<PriorityFollowers> {
    [PriorityFollowers("HIGH", []), PriorityFollowers("LOW", [])]
  }

  /**
   * The units `createFanoutTasks` schedules: one per chunk of followers, each on the priority's
   * task with the call's feed class, operation and arguments and a non-empty chunk of at most
   * `fanoutChunkSize` followers.
   */
  function FanoutUnits(followerIds: seq<string>, feedClass: FeedClass, op: Operation, kwargs: OperationArgs, priority: Option<string>): (r: seq<FanoutUnit>)
    ensures forall u :: u in r ==>
              u.task == GetFanoutTask(priority) && u.feedClass == feedClass && u.operation == op && u.kwargs == kwargs &&
              0 < |u.userIds| <= FanoutChunkSize
  {
    var cs := Chunk(followerIds, FanoutChunkSize);
    seq(|cs|, k requires 0 <= k < |cs| => FanoutUnit(GetFanoutTask(priority), feedClass, cs[k], op, kwargs))
  }

  function UserIdsOf(us: seq<FanoutUnit>): seq<seq<string>> {
    seq(|us|, k requires 0 <= k < |us| => us[k].userIds)
  }

  /**
   * The units of one `createFanoutTasks` call: `ceil(n / fanoutChunkSize)` of them, all with the
   * same task, feed class, operation and arguments, each with a non-empty chunk of at most
   * `fanoutChunkSize` followers, the chunks together being the followers in order.
   */
  lemma FanoutUnitsShape(followerIds: seq<string>, feedClass: FeedClass, op: Operation, kwargs: OperationArgs, priority: Option<string>)
    ensures var us := FanoutUnits(followerIds, feedClass, op, kwargs, priority);
            && |us| == (|followerIds| + FanoutChunkSize - 1) / FanoutChunkSize
            && (forall k :: 0 <= k < |us| ==>
                  us[k].task == GetFanoutTask(priority) && us[k].feedClass == feedClass &&
                  us[k].operation == op && us[k].kwargs == kwargs &&
                  0 < |us[k].userIds| <= FanoutChunkSize)
            && Seqs.Flatten(UserIdsOf(us)) == followerIds
  {
    var us := FanoutUnits(followerIds, feedClass, op, kwargs, priority);
    ChunkCount(followerIds, FanoutChunkSize);
    ChunkFlatten(followerIds, FanoutChunkSize);
    assert UserIdsOf(us) == Chunk(followerIds, FanoutChunkSize);
  }

  // ---------------------------------------------------------------------------
  // A fan-out plan: every priority, then every feed class.

  /** The units for one priority over the feed classes, in feed-class order. */
  function ClassUnits(p: PriorityFollowers, classes: seq<FeedClass>, op: Operation, kwargs: OperationArgs): (r: seq<FanoutUnit>)
    ensures forall u :: u in r ==>
              u.task == GetFanoutTask(Some(p.priority)) && u.feedClass in classes && u.operation == op && u.kwargs == kwargs
  {
    if classes == [] then []
    else ClassUnits(p, classes[..|classes| - 1], op, kwargs) +
         FanoutUnits(p.followerIds, classes[|classes| - 1], op, kwargs, Some(p.priority))
  }

  /** The units of the nested loops over priorities and feed classes, in loop order. */
  function Plan(mapping: seq<PriorityFollowers>, classes: seq<FeedClass>, op: Operation, kwargs: OperationArgs): (r: seq<FanoutUnit>)
    ensures forall u :: u in r ==> u.feedClass in classes && u.operation == op && u.kwargs == kwargs
  {
    if mapping == [] then []
    else Plan(mapping[..|mapping| - 1], classes, op, kwargs) + ClassUnits(mapping[|mapping| - 1], classes, op, kwargs)
  }

  /** `Σ_p |feedClasses| · ceil(|followers_p| / fanoutChunkSize)`. */
  function UnitCount(mapping: seq<PriorityFollowers>, classCount: nat): nat {
    if mapping == [] then 0
    else
      UnitCount(mapping[..|mapping| - 1], classCount) +
      classCount * ((|mapping[|mapping| - 1].followerIds| + FanoutChunkSize - 1) / FanoutChunkSize)
  }

  lemma {:induction false} ClassUnitsSize(p: PriorityFollowers, classes: seq<FeedClass>, op: Operation, kwargs: OperationArgs)
    ensures |ClassUnits(p, classes, op, kwargs)| == |classes| * ((|p.followerIds| + FanoutChunkSize - 1) / FanoutChunkSize)
  {
    if classes != [] {
      var init := classes[..|classes| - 1];
      var n := (|p.followerIds| + FanoutChunkSize - 1) / FanoutChunkSize;
      ClassUnitsSize(p, init, op, kwargs);
      FanoutUnitsShape(p.followerIds, classes[|classes| - 1], op, kwargs, Some(p.priority));
      assert |ClassUnits(p, classes, op, kwargs)| == |init| * n + n;
      assert |init| * n + n == (|init| + 1) * n;
    }
  }

  /** The number of scheduled units is the sum over priorities of the feed-class count times the chunk count. */
  lemma {:induction false} PlanSize(mapping: seq<PriorityFollowers>, classes: seq<FeedClass>, op: Operation, kwargs: OperationArgs)
    ensures |Plan(mapping, classes, op, kwargs)| == UnitCount(mapping, |classes|)
  {
    if mapping != [] {
      PlanSize(mapping[..|mapping| - 1], classes, op, kwargs);
      ClassUnitsSize(mapping[|mapping| - 1], classes, op, kwargs);
    }
  }

  /** A unit the plan may hold: the plan's operation and arguments, one of its feed classes, and followers of one priority under that priority's task. */
  predicate UnitFor(u: FanoutUnit, mapping: seq<PriorityFollowers>, classes: seq<FeedClass>, op: Operation, kwargs: OperationArgs) {
    && u.operation == op && u.kwargs == kwargs && u.feedClass in classes
    && exists i :: 0 <= i < |mapping| && u.task == GetFanoutTask(Some(mapping[i].priority)) &&
                   forall id :: id in u.userIds ==> id in mapping[i].followerIds
  }

  lemma UnitsOfChunks(p: PriorityFollowers, c: FeedClass, op: Operation, kwargs: OperationArgs, u: FanoutUnit)
    requires u in FanoutUnits(p.followerIds, c, op, kwargs, Some(p.priority))
    ensures u.operation == op && u.kwargs == kwargs && u.feedClass == c && u.task == GetFanoutTask(Some(p.priority))
    ensures forall id :: id in u.userIds ==> id in p.followerIds
  {
    var us := FanoutUnits(p.followerIds, c, op, kwargs, Some(p.priority));
    var k :| 0 <= k < |us| && us[k] == u;
    var cs := Chunk(p.followerIds, FanoutChunkSize);
    ChunkFlatten(p.followerIds, FanoutChunkSize);
    forall id | id in u.userIds ensures id in p.followerIds {
      FlattenHolds(cs, k, id);
    }
  }

  lemma {:induction false} FlattenHolds<T>(ss: seq<seq<T>>, k: nat, x: T)
    requires k < |ss| && x in ss[k]
    ensures x in Seqs.Flatten(ss)
  {
    if k > 0 {
      assert ss[1..][k - 1] == ss[k];
      FlattenHolds(ss[1..], k - 1, x);
    }
  }

  /** Every scheduled unit belongs to the plan: nothing is sent to anyone but the followers, nor with other arguments. */
  lemma {:induction false} PlanUnitsBelong(mapping: seq<PriorityFollowers>, classes: seq<FeedClass>, op: Operation, kwargs: OperationArgs)
    ensures forall u :: u in Plan(mapping, classes, op, kwargs) ==> UnitFor(u, mapping, classes, op, kwargs)
  {
    if mapping != [] {
      var init := mapping[..|mapping| - 1];
      var p := mapping[|mapping| - 1];
      PlanUnitsBelong(init, classes, op, kwargs);
      forall u | u in Plan(mapping, classes, op, kwargs) ensures UnitFor(u, mapping, classes, op, kwargs) {
        if u in Plan(init, classes, op, kwargs) {
          var i :| 0 <= i < |init| && u.task == GetFanoutTask(Some(init[i].priority)) &&
                   forall id :: id in u.userIds ==> id in init[i].followerIds;
          assert init[i] == mapping[i];
        } else {
          ClassUnitsBelong(p, classes, op, kwargs, u);
          assert mapping[|mapping| - 1] == p;
        }
      }
    }
  }

  lemma {:induction false} ClassUnitsBelong(p: PriorityFollowers, classes: seq<FeedClass>, op: Operation, kwargs: OperationArgs, u: FanoutUnit)
    requires u in ClassUnits(p, classes, op, kwargs)
    ensures u.operation == op && u.kwargs == kwargs && u.feedClass in classes && u.task == GetFanoutTask(Some(p.priority))
    ensures forall id :: id in u.userIds ==> id in p.followerIds
  {
    var init := classes[..|classes| - 1];
    if u in ClassUnits(p, init, op, kwargs) {
      ClassUnitsBelong(p, init, op, kwargs, u);
      assert forall c :: c in init ==> c in classes;
    } else {
      UnitsOfChunks(p, classes[|classes| - 1], op, kwargs, u);
    }
  }

  /** Every follower of every priority gets, for every feed class, a unit on that priority's task. */
  lemma PlanReachesEveryFollower(mapping: seq<PriorityFollowers>, classes: seq<FeedClass>, op: Operation, kwargs: OperationArgs,
                                 i: nat, c: FeedClass, id: string)
    requires i < |mapping| && c in classes && id in mapping[i].followerIds
    ensures exists u :: u in Plan(mapping, classes, op, kwargs) && u.feedClass == c && id in u.userIds &&
                        u.task == GetFanoutTask(Some(mapping[i].priority)) && u.operation == op && u.kwargs == kwargs
  {
    var p := mapping[i];
    var cs := Chunk(p.followerIds, FanoutChunkSize);
    ChunkMember(p.followerIds, FanoutChunkSize, id);
    var k :| 0 <= k < |cs| && id in cs[k];
    var us := FanoutUnits(p.followerIds, c, op, kwargs, Some(p.priority));
    var u := us[k];
    assert u == FanoutUnit(GetFanoutTask(Some(p.priority)), c, cs[k], op, kwargs);
    ClassUnitsContain(p, classes, op, kwargs, c, u);
    PlanContains(mapping, classes, op, kwargs, i, u);
  }

  lemma {:induction false} PlanContains(mapping: seq<PriorityFollowers>, classes: seq<FeedClass>, op: Operation, kwargs: OperationArgs, i: nat, u: FanoutUnit)
    requires i < |mapping| && u in ClassUnits(mapping[i], classes, op, kwargs)
    ensures u in Plan(mapping, classes, op, kwargs)
  {
    var init := mapping[..|mapping| - 1];
    var last := ClassUnits(mapping[|mapping| - 1], classes, op, kwargs);
    var front := Plan(init, classes, op, kwargs);
    assert Plan(mapping, classes, op, kwargs) == front + last;
    if i < |init| {
      assert init[i] == mapping[i];
      PlanContains(init, classes, op, kwargs, i, u);
      assert u in front + last;
    } else {
      assert i == |mapping| - 1 && u in last;
      assert u in front + last;
    }
  }

  lemma {:induction false} ClassUnitsContain(p: PriorityFollowers, classes: seq<FeedClass>, op: Operation, kwargs: OperationArgs, c: FeedClass, u: FanoutUnit)
    requires c in classes && u in FanoutUnits(p.followerIds, c, op, kwargs, Some(p.priority))
    ensures u in ClassUnits(p, classes, op, kwargs)
  {
    var init := classes[..|classes| - 1];
    if classes[|classes| - 1] != c {
      assert c in init by {
        var j :| 0 <= j < |classes| && classes[j] == c;
        assert init[j] == c;
      }
      ClassUnitsContain(p, init, op, kwargs, c, u);
    }
  }

  // ---------------------------------------------------------------------------
  // The operations applied to follower feeds.

  /** `add_operation`: forwards its arguments to `add_many` in that method's order. */
  method AddOperation(feed: F.Feed, items: seq<F.Item>, trim: bool, batchInterface: F.Arg, draw: real) returns (res: Outcome)
    modifies feed, feed.timeline
    ensures res.Pass? <==> forall i :: 0 <= i < |items| ==> items[i].ActivityItem?
    ensures res.Pass? ==>
              feed.timeline.calls == old(feed.timeline.calls) + F.AddManyCalls(feed.key, feed.kind, F.Added(items), batchInterface, F.FlagArg(trim), draw)
    ensures res.Fail? ==> feed.timeline.calls == old(feed.timeline.calls)
  {
    res := feed.AddMany(items, batchInterface, F.FlagArg(trim), draw);
  }

  /** The `(batch_interface, trim)` that `remove_operation` hands to `remove_many` as written: its own two arguments, swapped. */
  function RemoveManyArgsAsWritten(trim: bool, batchInterface: F.Arg): (F.Arg, F.Arg) {
    (F.FlagArg(trim), batchInterface)
  }

  /** The `(batch_interface, trim)` that `remove_many` expects. */
  function RemoveManyArgs(trim: bool, batchInterface: F.Arg): (F.Arg, F.Arg) {
    (batchInterface, F.FlagArg(trim))
  }

  /**
   * As written, whether a removal trims depends on the batch interface and not on the trim flag:
   * with the default `batch_interface=None` a removal asked to trim never does, whereas the
   * intended call trims on a favourable draw.
   */
  lemma RemoveOperationAsWrittenIgnoresTrim(trim: bool, batchInterface: F.Arg, draw: real)
    ensures F.ShouldTrim(RemoveManyArgsAsWritten(trim, batchInterface).1, draw) <==> F.Truthy(batchInterface) && draw <= F.TrimChance
    ensures F.ShouldTrim(RemoveManyArgs(trim, batchInterface).1, draw) <==> trim && draw <= F.TrimChance
    ensures !F.ShouldTrim(RemoveManyArgsAsWritten(true, F.NoneArg).1, 0.0)
    ensures F.ShouldTrim(RemoveManyArgs(true, F.NoneArg).1, 0.0)
  {
  }

  /** `remove_operation` as written: `feed.remove_many(activities, trim, batch_interface)`. */
  method RemoveOperationAsWritten(feed: F.Feed, refs: seq<L.ActivityRef>, trim: bool, batchInterface: F.Arg, draw: real)
    modifies feed, feed.timeline
    ensures feed.timeline.calls == old(feed.timeline.calls) +
              F.RemoveManyCalls(feed.key, feed.kind, refs, RemoveManyArgsAsWritten(trim, batchInterface).1, draw)
  {
    var args := RemoveManyArgsAsWritten(trim, batchInterface);
    feed.RemoveMany(refs, args.0, args.1, draw);
  }

  /** `remove_operation` with the arguments in `remove_many`'s order. */
  method RemoveOperation(feed: F.Feed, refs: seq<L.ActivityRef>, trim: bool, batchInterface: F.Arg, draw: real)
    modifies feed, feed.timeline
    ensures feed.timeline.calls == old(feed.timeline.calls) + F.RemoveManyCalls(feed.key, feed.kind, refs, F.FlagArg(trim), draw)
  {
    var args := RemoveManyArgs(trim, batchInterface);
    feed.RemoveMany(refs, args.0, args.1, draw);
  }

  // ---------------------------------------------------------------------------
  // The manager.

  /** A write to a user's own feed. */
  datatype UserFeedCall = UserFeedAdd(key: string, activity: A.Activity) | UserFeedRemove(key: string, activity: A.Activity)

  /** `getUserFeed(userId)` is a `UserBaseFeed` of the user, stored under this key. */
  function UserFeedKey(userId: nat): string {
    F.FeedKey(F.UserBaseFeed, userId)
  }

  /** Different users never share a user feed. */
  lemma UserFeedsDistinct(u1: nat, u2: nat)
    ensures UserFeedKey(u1) == UserFeedKey(u2) <==> u1 == u2
  {
    F.FeedKeyInjective(F.UserBaseFeed, u1, F.UserBaseFeed, u2);
  }

  /** What `addUserActivity` schedules for an activity of the given actor. */
  function AddPlan(followers: nat -> seq<PriorityFollowers>, classes: seq<FeedClass>, userId: nat, a: A.Activity): seq<FanoutUnit> {
    Plan(followers(userId), classes, Add, OperationArgs([a], true))
  }

  /** What `update_user_activities` schedules: the plan of each activity for its own actor, in order. */
  function UpdatePlan(followers: nat -> seq<PriorityFollowers>, classes: seq<FeedClass>, acts: seq<A.Activity>): seq<FanoutUnit> {
    if acts == [] then []
    else
      var a := acts[|acts| - 1];
      UpdatePlan(followers, classes, acts[..|acts| - 1]) + AddPlan(followers, classes, a.actorId, a)
  }

  /** Every unit `update_user_activities` schedules adds one of the activities, to be trimmed, to the followers of its actor. */
  lemma {:induction false} UpdatePlanUnits(followers: nat -> seq<PriorityFollowers>, classes: seq<FeedClass>, acts: seq<A.Activity>)
    ensures forall u :: u in UpdatePlan(followers, classes, acts) ==>
              exists a :: a in acts && UnitFor(u, followers(a.actorId), classes, Add, OperationArgs([a], true))
  {
    if acts != [] {
      var init := acts[..|acts| - 1];
      var a := acts[|acts| - 1];
      UpdatePlanUnits(followers, classes, init);
      PlanUnitsBelong(followers(a.actorId), classes, Add, OperationArgs([a], true));
      forall u | u in UpdatePlan(followers, classes, acts)
        ensures exists b :: b in acts && UnitFor(u, followers(b.actorId), classes, Add, OperationArgs([b], true))
      {
        if u in UpdatePlan(followers, classes, init) {
          var b :| b in init && UnitFor(u, followers(b.actorId), classes, Add, OperationArgs([b], true));
          assert b in acts;
        } else {
          assert UnitFor(u, followers(a.actorId), classes, Add, OperationArgs([a], true));
        }
      }
    }
  }

  function UserFeedAdds(acts: seq<A.Activity>): seq<UserFeedCall> {
    seq(|acts|, i requires 0 <= i < |acts| => UserFeedAdd(UserFeedKey(acts[i].actorId), acts[i]))
  }

  /** Whether `removeUserActivity` as written reaches the undeclared `operation`: whenever some priority and some feed class exist. */
  predicate ReachesUndeclaredOperation(mapping: seq<PriorityFollowers>, classes: seq<FeedClass>) {
    |mapping| > 0 && |classes| > 0
  }

  /**
   * With the default follower lookup and feed classes, `removeUserActivity` as written always
   * fails; the intended removal, for a user with 250 high-priority followers, schedules three
   * removal tasks.
   */
  lemma RemoveUserActivityAsWrittenFails(userId: nat, ids: seq<string>, a: A.Activity)
    requires |ids| == 250
    ensures ReachesUndeclaredOperation(DefaultFollowers(userId), DefaultFeedClasses)
    ensures ReachesUndeclaredOperation([PriorityFollowers("HIGH", ids)], DefaultFeedClasses)
    ensures |Plan([PriorityFollowers("HIGH", ids)], DefaultFeedClasses, Remove, OperationArgs([a], false))| == 3
  {
    PlanSize([PriorityFollowers("HIGH", ids)], DefaultFeedClasses, Remove, OperationArgs([a], false));
    ChunkExample(ids);
    ChunkCount(ids, FanoutChunkSize);
    assert [PriorityFollowers("HIGH", ids)][..0] == [];
  }

  lemma ClassUnitsStep(p: PriorityFollowers, classes: seq<FeedClass>, op: Operation, kwargs: OperationArgs, j: nat)
    requires j < |classes|
    ensures ClassUnits(p, classes[..j + 1], op, kwargs) ==
            ClassUnits(p, classes[..j], op, kwargs) + FanoutUnits(p.followerIds, classes[j], op, kwargs, Some(p.priority))
  {
    assert classes[..j + 1][..j] == classes[..j];
  }

  lemma PlanStep(mapping: seq<PriorityFollowers>, classes: seq<FeedClass>, op: Operation, kwargs: OperationArgs, i: nat)
    requires i < |mapping|
    ensures Plan(mapping[..i + 1], classes, op, kwargs) == Plan(mapping[..i], classes, op, kwargs) + ClassUnits(mapping[i], classes, op, kwargs)
  {
    assert mapping[..i + 1][..i] == mapping[..i];
  }

  lemma UpdateStep(followers: nat -> seq<PriorityFollowers>, classes: seq<FeedClass>, acts: seq<A.Activity>, i: nat)
    requires i < |acts|
    ensures acts[..i + 1] == acts[..i] + [acts[i]]
    ensures UserFeedAdds(acts[..i + 1]) == UserFeedAdds(acts[..i]) + [UserFeedAdd(UserFeedKey(acts[i].actorId), acts[i])]
    ensures UpdatePlan(followers, classes, acts[..i + 1]) ==
            UpdatePlan(followers, classes, acts[..i]) + AddPlan(followers, classes, acts[i].actorId, acts[i])
  {
    assert acts[..i + 1][..i] == acts[..i];
  }

  /** `Manager`, with `getUserFollowerIds` and `feedClasses` the parts a subclass customises. */
  class Manager {
    const feedClasses: seq<FeedClass>
    const followers: nat -> seq<PriorityFollowers>
    /** The scheduled fan-out units, oldest first. */
    var queue: seq<FanoutUnit>
    /** The activities inserted into the global activity storage. */
    var inserted: seq<A.Activity>
    /** The writes to users' own feeds. */
    var userFeedLog: seq<UserFeedCall>

    /** The manager with its default follower lookup and feed classes. */
    constructor()
      ensures feedClasses == DefaultFeedClasses && followers == DefaultFollowers
      ensures queue == [] && inserted == [] && userFeedLog == []
    {
      feedClasses := DefaultFeedClasses;
      followers := DefaultFollowers;
      queue := [];
      inserted := [];
      userFeedLog := [];
    }

    /** A manager with its own follower lookup and feed classes. */
    constructor Custom(feedClasses: seq<FeedClass>, followers: nat -> seq<PriorityFollowers>)
      ensures this.feedClasses == feedClasses && this.followers == followers
      ensures queue == [] && inserted == [] && userFeedLog == []
    {
      this.feedClasses := feedClasses;
      this.followers := followers;
      queue := [];
      inserted := [];
      userFeedLog := [];
    }

    /** `createFanoutTasks`: schedule one unit per chunk of followers and return the scheduled units. */
    method CreateFanoutTasks(followerIds: seq<string>, feedClass: FeedClass, op: Operation, kwargs: OperationArgs, priority: Option<string>)
      returns (units: seq<FanoutUnit>)
      modifies this
      ensures units == FanoutUnits(followerIds, feedClass, op, kwargs, priority)
      ensures queue == old(queue) + units
      ensures inserted == old(inserted) && userFeedLog == old(userFeedLog)
    {
      var task := GetFanoutTask(priority);
      var chunks := Chunk(followerIds, FanoutChunkSize);
      units := [];
      for k := 0 to |chunks|
        invariant units == FanoutUnits(followerIds, feedClass, op, kwargs, priority)[..k]
        invariant queue == old(queue) + units
        invariant inserted == old(inserted) && userFeedLog == old(userFeedLog)
      {
        var unit := FanoutUnit(task, feedClass, chunks[k], op, kwargs);
        Seqs.AppendAssoc(old(queue), units, [unit]);
        queue := queue + [unit];
        units := units + [unit];
      }
      assert FanoutUnits(followerIds, feedClass, op, kwargs, priority)[..|chunks|] == FanoutUnits(followerIds, feedClass, op, kwargs, priority);
    }

    /** The inner loop over the feed classes, for one priority. */
    method FanOutPriority(p: PriorityFollowers, op: Operation, kwargs: OperationArgs)
      modifies this
      ensures queue == old(queue) + ClassUnits(p, feedClasses, op, kwargs)
      ensures inserted == old(inserted) && userFeedLog == old(userFeedLog)
    {
      for j := 0 to |feedClasses|
        invariant queue == old(queue) + ClassUnits(p, feedClasses[..j], op, kwargs)
        invariant inserted == old(inserted) && userFeedLog == old(userFeedLog)
      {
        var _ := CreateFanoutTasks(p.followerIds, feedClasses[j], op, kwargs, Some(p.priority));
        ClassUnitsStep(p, feedClasses, op, kwargs, j);
        Seqs.AppendAssoc(old(queue), ClassUnits(p, feedClasses[..j], op, kwargs), FanoutUnits(p.followerIds, feedClasses[j], op, kwargs, Some(p.priority)));
      }
      assert feedClasses[..|feedClasses|] == feedClasses;
    }

    /** The nested loops over priorities and feed classes shared by adding and removing. */
    method FanOut(mapping: seq<PriorityFollowers>, op: Operation, kwargs: OperationArgs)
      modifies this
      ensures queue == old(queue) + Plan(mapping, feedClasses, op, kwargs)
      ensures inserted == old(inserted) && userFeedLog == old(userFeedLog)
    {
      for i := 0 to |mapping|
        invariant queue == old(queue) + Plan(mapping[..i], feedClasses, op, kwargs)
        invariant inserted == old(inserted) && userFeedLog == old(userFeedLog)
      {
        FanOutPriority(mapping[i], op, kwargs);
        PlanStep(mapping, feedClasses, op, kwargs, i);
        Seqs.AppendAssoc(old(queue), Plan(mapping[..i], feedClasses, op, kwargs), ClassUnits(mapping[i], feedClasses, op, kwargs));
      }
      assert mapping[..|mapping|] == mapping;
    }

    /** `addUserActivity`: store the activity, add it to the actor's feed, and fan it out to be added, with trimming. */
    method AddUserActivity(userId: nat, a: A.Activity)
      modifies this
      ensures inserted == old(inserted) + [a]
      ensures userFeedLog == old(userFeedLog) + [UserFeedAdd(UserFeedKey(userId), a)]
      ensures queue == old(queue) + AddPlan(followers, feedClasses, userId, a)
    {
      inserted := inserted + [a];
      userFeedLog := userFeedLog + [UserFeedAdd(UserFeedKey(userId), a)];
      FanOut(followers(userId), Add, OperationArgs([a], true));
    }

    /**
     * `removeUserActivity` as written: the activity leaves the actor's feed, and then the first
     * feed class of the first priority reaches the undeclared `operation`, which throws before
     * anything is scheduled.
     */
    method RemoveUserActivityAsWritten(userId: nat, a: A.Activity) returns (res: Outcome)
      modifies this
      ensures inserted == old(inserted) && queue == old(queue)
      ensures userFeedLog == old(userFeedLog) + [UserFeedRemove(UserFeedKey(userId), a)]
      ensures res == if ReachesUndeclaredOperation(followers(userId), feedClasses) then Fail(UndeclaredName) else Pass
    {
      userFeedLog := userFeedLog + [UserFeedRemove(UserFeedKey(userId), a)];
      var mapping := followers(userId);
      for i := 0 to |mapping|
        invariant i > 0 ==> feedClasses == []
      {
        if |feedClasses| > 0 {
          return Fail(UndeclaredName);
        }
      }
      res := Pass;
    }

    /** `removeUserActivity` with `remove_operation` as the operation: never touches the global store, and fans out without trimming. */
    method RemoveUserActivity(userId: nat, a: A.Activity)
      modifies this
      ensures inserted == old(inserted)
      ensures userFeedLog == old(userFeedLog) + [UserFeedRemove(UserFeedKey(userId), a)]
      ensures queue == old(queue) + Plan(followers(userId), feedClasses, Remove, OperationArgs([a], false))
    {
      userFeedLog := userFeedLog + [UserFeedRemove(UserFeedKey(userId), a)];
      FanOut(followers(userId), Remove, OperationArgs([a], false));
    }

    /** `update_user_activities`: `addUserActivity(activity.actor.id, activity)` for each activity, in order. */
    method UpdateUserActivities(acts: seq<A.Activity>)
      modifies this
      ensures inserted == old(inserted) + acts
      ensures userFeedLog == old(userFeedLog) + UserFeedAdds(acts)
      ensures queue == old(queue) + UpdatePlan(followers, feedClasses, acts)
    {
      for i := 0 to |acts|
        invariant inserted == old(inserted) + acts[..i]
        invariant userFeedLog == old(userFeedLog) + UserFeedAdds(acts[..i])
        invariant queue == old(queue) + UpdatePlan(followers, feedClasses, acts[..i])
      {
        AddUserActivity(acts[i].actorId, acts[i]);
        UpdateStep(followers, feedClasses, acts, i);
        Seqs.AppendAssoc(old(inserted), acts[..i], [acts[i]]);
        Seqs.AppendAssoc(old(userFeedLog), UserFeedAdds(acts[..i]), [UserFeedAdd(UserFeedKey(acts[i].actorId), acts[i])]);
        Seqs.AppendAssoc(old(queue), UpdatePlan(followers, feedClasses, acts[..i]), AddPlan(followers, feedClasses, acts[i].actorId, acts[i]));
      }
      assert acts[..|acts|] == acts;
    }
  }
}
