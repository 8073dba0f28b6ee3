/**
 * The base feed of `src/feeds/base.ts` (kept in the repository as commented-out Python): the
 * storage key and length cap of each feed class, the normalisation of `feed[k]`, the hydration
 * of dehydrated items read back from the timeline, trimming, and the clone-on-filter query
 * builders. The storages are abstract: what a feed reads from them is a function parameter,
 * what it writes to its timeline storage is recorded in that storage's call log.
 */
module Feeds {
  import opened Common
  import opened Digits
  import L = LegacyActivities
  import Seqs
  import Verbs

  // ---------------------------------------------------------------------------
  // Feed classes.

  datatype FeedKind = BaseFeed | UserBaseFeed

  /** The literal part of `keyFormat`, before `%(userId)s`. */
  function KeyPrefix(kind: FeedKind): string {
    match kind
    case BaseFeed => "feed_"
    case UserBaseFeed => "user_feed:"
  }

  /** `max_length`: the length the feed is trimmed back to. */
  function MaxLength(kind: FeedKind): nat {
    match kind
    case BaseFeed => 100
    case UserBaseFeed => 1_000_000
  }

  /** `keyFormat % {'userId': userId}`: the class's prefix followed by the user id in decimal, which reads back. */
  function FeedKey(kind: FeedKind, userId: nat): (r: string)
    ensures |r| > |KeyPrefix(kind)| && r[..|KeyPrefix(kind)|] == KeyPrefix(kind)
    ensures AllDigits(r[|KeyPrefix(kind)|..]) && ParseDecimal(r[|KeyPrefix(kind)|..]) == userId
  {
    var r := KeyPrefix(kind) + DecimalString(userId);
    assert r[|KeyPrefix(kind)|..] == DecimalString(userId);
    ParseDecimalString(userId);
    r
  }

  /** Two feeds share a storage key exactly when they are of the same class and belong to the same user. */
  lemma FeedKeyInjective(k1: FeedKind, u1: nat, k2: FeedKind, u2: nat)
    ensures FeedKey(k1, u1) == FeedKey(k2, u2) <==> k1 == k2 && u1 == u2
  {
    if FeedKey(k1, u1) == FeedKey(k2, u2) {
      assert FeedKey(k1, u1)[0] == KeyPrefix(k1)[0];
      assert FeedKey(k2, u2)[0] == KeyPrefix(k2)[0];
      assert k1 == k2;
      var n := |KeyPrefix(k1)|;
      assert FeedKey(k1, u1)[n..] == DecimalString(u1);
      assert FeedKey(k2, u2)[n..] == DecimalString(u2);
      DecimalStringInjective(u1, u2);
    }
  }

  // ---------------------------------------------------------------------------
  // Trimming.

  /** `trim_chance`. */
  const TrimChance: real := 0.01

  /** A Python argument whose truthiness decides a branch: `None`, a boolean, or a batch interface object. */
  datatype Arg = NoneArg | FlagArg(flag: bool) | BatchArg(handle: nat)

  predicate Truthy(x: Arg) {
    match x
    case NoneArg => false
    case FlagArg(b) => b
    case BatchArg(_) => true
  }

  /**
   * `trim and random.random() <= trim_chance`, with the random draw passed in: `None` and `False`
   * never trim, and a truthy argument trims exactly when the draw is at most one in a hundred.
   */
  predicate ShouldTrim(trim: Arg, draw: real): (r: bool)
    ensures trim.NoneArg? || trim == FlagArg(false) ==> !r
    ensures (trim.BatchArg? || trim == FlagArg(true)) ==> (r <==> draw <= 0.01)
  {
    Truthy(trim) && draw <= TrimChance
  }

  /** `length or max_length`: a missing or zero length falls back to the class cap. */
  function TrimLength(kind: FeedKind, length: Option<int>): (n: int)
    ensures n != 0
    ensures length.Some? && length.value != 0 ==> n == length.value
    ensures length.None? || length.value == 0 ==> n == MaxLength(kind)
  {
    if length.None? || length.value == 0 then MaxLength(kind) else length.value
  }

  // ---------------------------------------------------------------------------
  // Reading `feed[k]`.

  /** The argument of `feed[k]`: an integer, a slice with optional bounds, or any other value. */
  datatype Key = IndexKey(index: int) | SliceKey(start: Option<int>, stop: Option<int>) | OtherKey

  /** The range handed to `get_activity_slice`: a start and an optional exclusive bound. */
  datatype Range = Range(start: nat, bound: Option<nat>)

  predicate HasNegative(k: Key) {
    match k
    case IndexKey(i) => i < 0
    case SliceKey(a, b) => (a.Some? && a.value < 0) || (b.Some? && b.value < 0)
    case OtherKey => false
  }

  /**
   * The argument checks and normalisation of `__getitem__`: any other value is a `TypeError`,
   * a negative index or bound fails the assertion, an index `k` reads `[k, k + 1)`, and a
   * slice reads from its start (0 when absent) up to its stop (unbounded when absent).
   */
  function Normalize(k: Key): (r: Result<Range>)
    ensures r.Err? <==> k.OtherKey? || HasNegative(k)
    ensures r.Err? ==> r.error == (if k.OtherKey? then KeyTypeError else NegativeIndex)
    ensures r.Ok? && k.IndexKey? ==> r.value.start == k.index && r.value.bound == Some(k.index + 1)
    ensures r.Ok? && k.SliceKey? && k.start.Some? ==> r.value.start == k.start.value
    ensures r.Ok? && k.SliceKey? && k.start.None? ==> r.value.start == 0
    ensures r.Ok? && k.SliceKey? && k.stop.Some? ==> r.value.bound == Some(k.stop.value)
    ensures r.Ok? && k.SliceKey? && k.stop.None? ==> r.value.bound == None
  {
    match k
    case OtherKey => Err(KeyTypeError)
    case IndexKey(i) => if i < 0 then Err(NegativeIndex) else Ok(Range(i, Some(i + 1)))
    case SliceKey(a, b) =>
      if HasNegative(k) then Err(NegativeIndex)
      else Ok(Range(if a.Some? then a.value else 0, if b.Some? then Some(b.value) else None))
  }

  /** What a slice read yields: the items, `StopIteration`, or an error raised while reading. */
  datatype Fetch<T> = Fetched(items: seq<T>) | Exhausted | Failed(error: Error)

  /**
   * `__getitem__` with the slice read passed in: an empty range answers `[]` without reading,
   * `StopIteration` becomes a `None` result, and any other error propagates.
   */
  function GetItemOf<T>(k: Key, read: Range -> Fetch<T>): (r: Result<Option<seq<T>>>)
    ensures Normalize(k).Err? ==> r == Err(Normalize(k).error)
    ensures Normalize(k).Ok? && Normalize(k).value.bound == Some(Normalize(k).value.start) ==> r == Ok(Some([]))
    ensures Normalize(k).Ok? && Normalize(k).value.bound != Some(Normalize(k).value.start) ==>
              match read(Normalize(k).value)
              case Fetched(s) => r == Ok(Some(s))
              case Exhausted => r == Ok(None)
              case Failed(e) => r == Err(e)
  {
    var range :- Normalize(k);
    if range.bound == Some(range.start) then Ok(Some([]))
    else
      match read(range)
      case Fetched(s) => Ok(Some(s))
      case Exhausted => Ok(None)
      case Failed(e) => Err(e)
  }

  /** Python's `s[start:stop]` for non-negative bounds: both clamped to the length, empty once they cross. */
  function ListSlice<T>(s: seq<T>, r: Range): (w: seq<T>)
    ensures forall i :: 0 <= i < |w| ==> w[i] in s
  {
    var e := if r.bound.None? || r.bound.value > |s| then |s| else r.bound.value;
    var b := if r.start > |s| then |s| else r.start;
    if b >= e then [] else s[b..e]
  }

  /** What `feed[k]` gives for a feed whose timeline is the list `s`: one item for an index, a Python slice for a slice. */
  function ListRead<T>(k: Key, s: seq<T>): seq<T> {
    match k
    case IndexKey(i) => if 0 <= i < |s| then [s[i]] else []
    case SliceKey(a, b) =>
      ListSlice(s, Range(if a.Some? && a.value >= 0 then a.value else 0,
                         if b.Some? && b.value >= 0 then Some(b.value) else None))
    case OtherKey => []
  }

  /**
   * Over a timeline that reads like the list `s`, indexing a feed behaves like indexing the list,
   * except that an index gives a one-item list; the early answer for an empty range agrees with
   * what reading would have given.
   */
  lemma GetItemReadsLikeAList<T>(k: Key, s: seq<T>, read: Range -> Fetch<T>)
    requires forall r :: read(r) == Fetched(ListSlice(s, r))
    requires !k.OtherKey? && !HasNegative(k)
    ensures GetItemOf(k, read) == Ok(Some(ListRead(k, s)))
  {
    var range := Normalize(k).value;
    if k.IndexKey? {
      var i := k.index;
      assert range == Range(i, Some(i + 1));
      if i < |s| {
        assert s[i..i + 1] == [s[i]];
      }
    } else {
      assert ListSlice(s, range) == ListRead(k, s);
    }
  }

  // ---------------------------------------------------------------------------
  // Items read from a timeline.

  /** What a timeline holds: the dehydrated stand-in of an activity, an aggregated activity, or an activity. */
  datatype Item = DehydratedItem(stub: L.DehydratedActivity) | AggregatedItem(aggregate: L.Aggregate) | ActivityItem(activity: L.Activity)

  /** `hasattr(activity, 'dehydrated') and activity.dehydrated`; a dehydrated stand-in always is. */
  predicate IsDehydrated(x: Item) {
    match x
    case DehydratedItem(_) => true
    case AggregatedItem(v) => v.dehydrated
    case ActivityItem(a) => a.dehydrated
  }

  /** `needs_hydration`: some item is dehydrated. */
  function NeedsHydration(items: seq<Item>): (r: bool)
    ensures r <==> exists i :: 0 <= i < |items| && IsDehydrated(items[i])
  {
    if items == [] then false
    else IsDehydrated(items[0]) || (assert forall i :: 0 < i < |items| ==> items[i] == items[1..][i - 1]; NeedsHydration(items[1..]))
  }

  /** `_activity_ids` of one item; a plain activity has no such attribute. */
  function OwnIds(x: Item): (r: Result<seq<nat>>)
    ensures r.Err? <==> x.ActivityItem?
    ensures r.Err? ==> r.error == MissingActivityIds
  {
    match x
    case DehydratedItem(d) => Ok(L.DehydratedIds(d))
    case AggregatedItem(v) => Ok(v.activityIds)
    case ActivityItem(_) => Err(MissingActivityIds)
  }

  /** The ids `hydrate_activities` collects: every item's `_activity_ids`, concatenated in item order. */
  function ItemIds(items: seq<Item>): (r: Result<seq<nat>>)
    ensures r.Err? <==> exists i :: 0 <= i < |items| && items[i].ActivityItem?
    ensures r.Err? ==> r.error == MissingActivityIds
    ensures r.Ok? ==> forall i, id :: 0 <= i < |items| && id in OwnIds(items[i]).value ==> id in r.value
  {
    if items == [] then Ok([])
    else
      var p := items[..|items| - 1];
      var last := items[|items| - 1];
      assert forall i :: 0 <= i < |p| ==> p[i] == items[i];
      var ids :- ItemIds(p);
      var own :- OwnIds(last);
      Ok(ids + own)
  }

  /** The `_activity_ids` lists of items that all have one, in item order. */
  function OwnIdLists(items: seq<Item>): (r: seq<seq<nat>>)
    requires forall i :: 0 <= i < |items| ==> !items[i].ActivityItem?
    ensures |r| == |items| && forall i :: 0 <= i < |items| ==> OwnIds(items[i]) == Ok(r[i])
  {
    seq(|items|, i requires 0 <= i < |items| => OwnIds(items[i]).value)
  }

  /** The collected ids are exactly the items' id lists concatenated in item order. */
  lemma {:induction false} ItemIdsFlatten(items: seq<Item>)
    requires ItemIds(items).Ok?
    ensures forall i :: 0 <= i < |items| ==> !items[i].ActivityItem?
    ensures ItemIds(items).value == Seqs.Flatten(OwnIdLists(items))
  {
    if items != [] {
      var p, last := items[..|items| - 1], items[|items| - 1];
      assert forall i :: 0 <= i < |p| ==> p[i] == items[i];
      ItemIdsFlatten(p);
      var own := OwnIds(last).value;
      assert OwnIdLists(items) == OwnIdLists(p) + [own];
      Seqs.FlattenAppend(OwnIdLists(p), [own]);
      assert Seqs.Flatten([own]) == own + Seqs.Flatten([]);
    }
  }

  /** The loop of `hydrate_activities` that gathers the ids to fetch. */
  method CollectIds(items: seq<Item>) returns (r: Result<seq<nat>>)
    ensures r == ItemIds(items)
  {
    var ids: seq<nat> := [];
    var i := 0;
    while i < |items|
      invariant 0 <= i <= |items|
      invariant ItemIds(items[..i]) == Ok(ids)
    {
      var own := OwnIds(items[i]);
      if own.Err? {
        return Err(own.error);
      }
      assert items[..i + 1][..i] == items[..i];
      ids := ids + own.value;
      i := i + 1;
    }
    assert items[..i] == items;
    r := Ok(ids);
  }

  /**
   * `{a.serialization_id: a for a in activity_list}`: keyed by serialization id, later entries
   * win; an id that cannot be read fails with the first such error.
   */
  function LookupOf(list: seq<L.Activity>): (r: Result<map<nat, L.Activity>>)
    ensures r.Ok? <==> forall i :: 0 <= i < |list| ==> L.Serializable(list[i])
    ensures r.Ok? ==> r.value == Seqs.MapBy(list, L.IdOf)
  {
    if list == [] then Ok(map[])
    else
      LookupStep(list);
      var m :- LookupOf(list[..|list| - 1]);
      var id :- L.SerializationId(list[|list| - 1]);
      Ok(m[id := list[|list| - 1]])
  }

  lemma LookupStep(list: seq<L.Activity>)
    requires list != []
    ensures var p := list[..|list| - 1]; var a := list[|list| - 1];
            && ((forall i :: 0 <= i < |list| ==> L.Serializable(list[i])) <==>
                (forall i :: 0 <= i < |p| ==> L.Serializable(p[i])) && L.Serializable(a))
            && (L.Serializable(a) ==> L.SerializationId(a) == Ok(L.IdOf(a)))
            && Seqs.MapBy(list, L.IdOf) == Seqs.MapBy(p, L.IdOf)[L.IdOf(a) := a]
  {
    var p := list[..|list| - 1];
    assert forall i :: 0 <= i < |p| ==> p[i] == list[i];
    if L.Serializable(list[|list| - 1]) {
      L.SerializationIdDetermines(list[|list| - 1], list[|list| - 1]);
    }
  }

  /** `get_hydrated` of one item. */
  function HydrateItem(x: Item, lookup: map<nat, L.Activity>): (r: Result<Item>)
    ensures r.Ok? ==> !IsDehydrated(r.value)
    ensures r.Ok? && x.DehydratedItem? ==> r.value.ActivityItem?
    ensures r.Ok? && x.AggregatedItem? ==> r.value.AggregatedItem? && r.value.aggregate.group == x.aggregate.group
  {
    match x
    case DehydratedItem(d) =>
      var a :- L.HydrateActivity(d, lookup);
      Ok(ActivityItem(a))
    case AggregatedItem(v) =>
      var w :- L.Hydrated(v, lookup);
      Ok(AggregatedItem(w))
    case ActivityItem(_) => Err(MissingActivityIds)
  }

  /** `[activity.get_hydrated(activity_data) for activity in activities]`: the first failure propagates. */
  function HydrateAll(items: seq<Item>, lookup: map<nat, L.Activity>): (r: Result<seq<Item>>)
    ensures r.Ok? <==> forall i :: 0 <= i < |items| ==> HydrateItem(items[i], lookup).Ok?
    ensures r.Ok? ==> |r.value| == |items| && forall i :: 0 <= i < |items| ==> HydrateItem(items[i], lookup) == Ok(r.value[i])
  {
    if items == [] then Ok([])
    else
      assert forall i :: 0 < i < |items| ==> items[i] == items[1..][i - 1];
      var h :- HydrateItem(items[0], lookup);
      var t :- HydrateAll(items[1..], lookup);
      Ok([h] + t)
  }

  /** `hydrate_activities`, with the activity storage's `get_many` passed in. */
  function HydratedItems(items: seq<Item>, getMany: seq<nat> -> seq<L.Activity>): (r: Result<seq<Item>>)
    ensures r.Ok? ==> |r.value| == |items| && !NeedsHydration(r.value)
    ensures ItemIds(items).Err? ==> r == Err(MissingActivityIds)
    ensures ItemIds(items).Ok? && LookupOf(getMany(ItemIds(items).value)).Err? ==>
              r == Err(LookupOf(getMany(ItemIds(items).value)).error)
    ensures ItemIds(items).Ok? && LookupOf(getMany(ItemIds(items).value)).Ok? ==>
              (r.Ok? <==> forall i :: 0 <= i < |items| ==> HydrateItem(items[i], LookupOf(getMany(ItemIds(items).value)).value).Ok?)
  {
    var ids :- ItemIds(items);
    var lookup :- LookupOf(getMany(ids));
    HydrateAll(items, lookup)
  }

  method HydrateActivities(items: seq<Item>, getMany: seq<nat> -> seq<L.Activity>) returns (r: Result<seq<Item>>)
    ensures r == HydratedItems(items, getMany)
  {
    var ids := CollectIds(items);
    if ids.Err? {
      return Err(ids.error);
    }
    var lookup := LookupOf(getMany(ids.value));
    if lookup.Err? {
      return Err(lookup.error);
    }
    r := HydrateAll(items, lookup.value);
  }

  // ---------------------------------------------------------------------------
  // Hydrating from an activity storage keyed by serialization id.

  /** `get_many` of an activity storage holding `store`: the stored activity of each id it holds, in id order. */
  function FetchFrom(store: map<nat, L.Activity>, ids: seq<nat>): (r: seq<L.Activity>)
    ensures forall a :: a in r ==> a in store.Values
  {
    if ids == [] then []
    else
      var id := ids[|ids| - 1];
      FetchFrom(store, ids[..|ids| - 1]) + (if id in store then [store[id]] else [])
  }

  /** Every stored activity is kept under its own serialization id. */
  predicate KeyedById(store: map<nat, L.Activity>) {
    forall id :: id in store ==> L.Serializable(store[id]) && L.IdOf(store[id]) == id
  }

  /** The lookup built from such a storage's answer holds exactly the stored activity of every id asked for. */
  lemma {:induction false} LookupFromStore(store: map<nat, L.Activity>, ids: seq<nat>)
    requires KeyedById(store)
    requires forall id :: id in ids ==> id in store
    ensures LookupOf(FetchFrom(store, ids)).Ok?
    ensures forall id :: id in ids ==>
              id in LookupOf(FetchFrom(store, ids)).value && LookupOf(FetchFrom(store, ids)).value[id] == store[id]
  {
    var list := FetchFrom(store, ids);
    forall i | 0 <= i < |list| ensures L.Serializable(list[i]) {
      assert list[i] in store.Values;
    }
    var m := LookupOf(list).value;
    forall id | id in ids ensures id in m && m[id] == store[id] {
      FetchFromHolds(store, ids, id);
      var k :| 0 <= k < |list| && list[k] == store[id];
      assert L.IdOf(list[k]) == id;
      assert m[id] in list && L.IdOf(m[id]) == id;
      assert m[id] in store.Values;
      var id' :| id' in store && store[id'] == m[id];
    }
  }

  lemma {:induction false} FetchFromHolds(store: map<nat, L.Activity>, ids: seq<nat>, id: nat)
    requires id in ids && id in store
    ensures store[id] in FetchFrom(store, ids)
  {
    var p := ids[..|ids| - 1];
    if ids[|ids| - 1] != id {
      assert id in p by {
        var i :| 0 <= i < |ids| && ids[i] == id;
        assert p[i] == id;
      }
      FetchFromHolds(store, p, id);
    }
  }

  /** The item a timeline stores for a hydrated item: an activity's stand-in, or an aggregated activity's dehydrated form. */
  function DehydratedItemOf(x: Item): Item
    requires x.ActivityItem? ==> L.Serializable(x.activity)
  {
    match x
    case ActivityItem(a) => DehydratedItem(L.GetDehydratedActivity(a).value)
    case AggregatedItem(v) => AggregatedItem(L.Dehydrated(v))
    case DehydratedItem(d) => DehydratedItem(d)
  }

  /** A hydrated item whose members the storage restores. */
  predicate RestoredBy(x: Item, store: map<nat, L.Activity>) {
    match x
    case ActivityItem(a) => L.Serializable(a) && !a.dehydrated && L.IdOf(a) in store && store[L.IdOf(a)] == a
    case AggregatedItem(v) => L.WellFormed(v) && !v.dehydrated && L.Restores(v, store)
    case DehydratedItem(_) => false
  }

  function DehydrateAll(items: seq<Item>): (r: seq<Item>)
    requires forall i :: 0 <= i < |items| ==> items[i].ActivityItem? ==> L.Serializable(items[i].activity)
    ensures |r| == |items| && forall i :: 0 <= i < |items| ==> r[i] == DehydratedItemOf(items[i])
  {
    seq(|items|, i requires 0 <= i < |items| => DehydratedItemOf(items[i]))
  }

  /**
   * Round trip through a timeline: storing the dehydrated form of hydrated items and reading them
   * back with `hydrate_activities`, from an activity storage that holds every member, gives the
   * items back.
   */
  lemma DehydrateHydrateItems(items: seq<Item>, store: map<nat, L.Activity>)
    requires KeyedById(store)
    requires forall i :: 0 <= i < |items| ==> RestoredBy(items[i], store)
    requires forall i :: 0 <= i < |items| ==> items[i].ActivityItem? ==> L.Serializable(items[i].activity)
    ensures HydratedItems(DehydrateAll(items), ids => FetchFrom(store, ids)) == Ok(items)
  {
    var d := DehydrateAll(items);
    var ids := ItemIds(d);
    assert ids.Ok?;
    forall id | id in ids.value ensures id in store {
      ItemIdsFrom(d, id);
      var i :| 0 <= i < |d| && id in OwnIds(d[i]).value;
      ItemRestored(items[i], store, id);
    }
    LookupFromStore(store, ids.value);
    var lookup := LookupOf(FetchFrom(store, ids.value)).value;
    forall i | 0 <= i < |items| ensures HydrateItem(d[i], lookup) == Ok(items[i]) {
      forall id | id in OwnIds(d[i]).value ensures id in lookup && lookup[id] == store[id] {
        assert id in ids.value;
      }
      HydrateRestored(items[i], store, lookup);
    }
    var h := HydrateAll(d, lookup);
    assert h.value == items;
  }

  /** Every collected id is the id of some item. */
  lemma {:induction false} ItemIdsFrom(items: seq<Item>, id: nat)
    requires ItemIds(items).Ok? && id in ItemIds(items).value
    ensures exists i :: 0 <= i < |items| && id in OwnIds(items[i]).value
  {
    var p := items[..|items| - 1];
    var last := items[|items| - 1];
    assert ItemIds(items).value == ItemIds(p).value + OwnIds(last).value;
    if id in ItemIds(p).value {
      ItemIdsFrom(p, id);
      var i :| 0 <= i < |p| && id in OwnIds(p[i]).value;
      assert p[i] == items[i];
    } else {
      assert id in OwnIds(items[|items| - 1]).value;
    }
  }

  lemma ItemRestored(x: Item, store: map<nat, L.Activity>, id: nat)
    requires RestoredBy(x, store)
    requires id in OwnIds(DehydratedItemOf(x)).value
    ensures id in store
  {
    match x
    case ActivityItem(a) =>
      L.SerializationIdDetermines(a, a);
    case AggregatedItem(v) =>
      var k :| 0 <= k < |v.activities| && L.IdsOf(v.activities)[k] == id;
      assert v.activities[k] in v.activities;
  }

  lemma HydrateRestored(x: Item, store: map<nat, L.Activity>, lookup: map<nat, L.Activity>)
    requires RestoredBy(x, store)
    requires forall id :: id in OwnIds(DehydratedItemOf(x)).value ==> id in lookup && lookup[id] == store[id]
    ensures HydrateItem(DehydratedItemOf(x), lookup) == Ok(x)
  {
    match x
    case ActivityItem(a) =>
      L.SerializationIdDetermines(a, a);
      assert L.DehydratedIds(L.GetDehydratedActivity(a).value) == [L.IdOf(a)];
    case AggregatedItem(v) =>
      forall m | m in v.activities ensures L.IdOf(m) in lookup && lookup[L.IdOf(m)] == m {
        var k :| 0 <= k < |v.activities| && v.activities[k] == m;
        assert L.IdOf(m) == L.IdsOf(v.activities)[k];
      }
      L.DehydrateHydrateRoundTrip(v, lookup);
  }

  // ---------------------------------------------------------------------------
  // The feed object.

  /** One call a feed makes on its timeline storage. */
  datatype TimelineCall =
    | AddManyCall(key: string, activities: seq<L.Activity>, batchInterface: Arg)
    | RemoveManyCall(key: string, refs: seq<L.ActivityRef>, batchInterface: Arg)
    | TrimCall(key: string, length: int)

  /** One call of the `on_update_feed` hook. */
  datatype FeedUpdate = FeedUpdate(added: seq<L.Activity>, deleted: seq<L.ActivityRef>)

  /** The arguments of the timeline storage's `get_slice`. */
  datatype SliceQuery = SliceQuery(key: string, start: Option<nat>, stop: Option<nat>, filterKwargs: map<string, int>, orderingArgs: seq<string>)

  /** `get_activity_slice` with the timeline's `get_slice` and the activity storage's `get_many` passed in; `None` from `get_slice` is `StopIteration`. */
  function ActivitySliceOf(q: SliceQuery, getSlice: SliceQuery -> Option<seq<Item>>, getMany: seq<nat> -> seq<L.Activity>, rehydrate: bool): (r: Fetch<Item>)
    ensures getSlice(q).None? <==> r.Exhausted?
    ensures getSlice(q).Some? && !(rehydrate && NeedsHydration(getSlice(q).value)) ==> r == Fetched(getSlice(q).value)
    ensures getSlice(q).Some? && rehydrate && NeedsHydration(getSlice(q).value) ==>
              match HydratedItems(getSlice(q).value, getMany)
              case Ok(h) => r == Fetched(h)
              case Err(e) => r == Failed(e)
  {
    match getSlice(q)
    case None => Exhausted
    case Some(items) =>
      if NeedsHydration(items) && rehydrate then
        match HydratedItems(items, getMany)
        case Ok(h) => Fetched(h)
        case Err(e) => Failed(e)
      else Fetched(items)
  }

  /** The read `__getitem__` makes through `get_activity_slice`, for a feed with the given key, filters and ordering. */
  function FeedRead(key: string, filterKwargs: map<string, int>, orderingArgs: seq<string>,
                    getSlice: SliceQuery -> Option<seq<Item>>, getMany: seq<nat> -> seq<L.Activity>): Range -> Fetch<Item> {
    (rg: Range) => ActivitySliceOf(SliceQuery(key, Some(rg.start), rg.bound, filterKwargs, orderingArgs), getSlice, getMany, true)
  }

  /** A timeline of hydrated items, sliced like a list, is read by a feed exactly like a list. */
  lemma FeedReadsHydratedTimeline(k: Key, s: seq<Item>, key: string, filterKwargs: map<string, int>, orderingArgs: seq<string>,
                                  getSlice: SliceQuery -> Option<seq<Item>>, getMany: seq<nat> -> seq<L.Activity>)
    requires forall i :: 0 <= i < |s| ==> !IsDehydrated(s[i])
    requires forall q: SliceQuery :: getSlice(q) == Some(ListSlice(s, Range(if q.start.Some? then q.start.value else 0, q.stop)))
    requires !k.OtherKey? && !HasNegative(k)
    ensures GetItemOf(k, FeedRead(key, filterKwargs, orderingArgs, getSlice, getMany)) == Ok(Some(ListRead(k, s)))
  {
    var read := FeedRead(key, filterKwargs, orderingArgs, getSlice, getMany);
    forall r ensures read(r) == Fetched(ListSlice(s, r)) {
      var q := SliceQuery(key, Some(r.start), r.bound, filterKwargs, orderingArgs);
      assert getSlice(q) == Some(ListSlice(s, r));
      var w := ListSlice(s, r);
      assert !NeedsHydration(w) by {
        forall i | 0 <= i < |w| ensures !IsDehydrated(w[i]) {
          assert w[i] in s;
        }
      }
    }
    GetItemReadsLikeAList(k, s, read);
  }

  /** The dict-merge of `filter`: new keyword arguments override the old ones. */
  function FilteredKwargs(old_: map<string, int>, kwargs: map<string, int>): (r: map<string, int>)
    ensures r.Keys == old_.Keys + kwargs.Keys
    ensures forall k :: k in kwargs ==> r[k] == kwargs[k]
    ensures forall k :: k in old_ && k !in kwargs ==> r[k] == old_[k]
  {
    old_ + kwargs
  }

  /** Filtering in two steps is filtering once with the second step's arguments overriding the first's. */
  lemma FilterInSteps(m: map<string, int>, a: map<string, int>, b: map<string, int>)
    ensures FilteredKwargs(FilteredKwargs(m, a), b) == FilteredKwargs(m, FilteredKwargs(a, b))
  {
    var lhs := FilteredKwargs(FilteredKwargs(m, a), b);
    var rhs := FilteredKwargs(m, FilteredKwargs(a, b));
    assert lhs.Keys == rhs.Keys;
    forall k | k in lhs ensures lhs[k] == rhs[k] {
      if k in b {
      } else if k in a {
      }
    }
  }

  /** The activities of a list that holds only activities. */
  function Added(items: seq<Item>): (r: seq<L.Activity>)
    ensures |r| == |items|
  {
    seq(|items|, i requires 0 <= i < |items| => if items[i].ActivityItem? then items[i].activity else L.Activity(0, Verbs.Follow, 0, None, None, false))
  }

  /** The timeline calls of a successful `add_many`: the addition, then a trim to `max_length` when the dice say so. */
  function AddManyCalls(key: string, kind: FeedKind, activities: seq<L.Activity>, batchInterface: Arg, trim: Arg, draw: real): seq<TimelineCall> {
    [AddManyCall(key, activities, batchInterface)] + (if ShouldTrim(trim, draw) then [TrimCall(key, MaxLength(kind))] else [])
  }

  /** The timeline calls of `remove_many`: the removal, without a batch interface, then a trim when the dice say so. */
  function RemoveManyCalls(key: string, kind: FeedKind, refs: seq<L.ActivityRef>, trim: Arg, draw: real): seq<TimelineCall> {
    [RemoveManyCall(key, refs, NoneArg)] + (if ShouldTrim(trim, draw) then [TrimCall(key, MaxLength(kind))] else [])
  }

  /** A timeline storage, seen through the calls feeds make on it. */
  class TimelineStorage {
    var calls: seq<TimelineCall>

    constructor()
      ensures calls == []
    {
      calls := [];
    }

    method Record(c: TimelineCall)
      modifies this
      ensures calls == old(calls) + [c]
    {
      calls := calls + [c];
    }
  }

  /** `BaseFeed` and `UserBaseFeed`: a user's feed over a timeline storage shared with its clones. */
  class Feed {
    const kind: FeedKind
    const userId: nat
    const key: string
    const timeline: TimelineStorage
    var filterKwargs: map<string, int>
    var orderingArgs: seq<string>
    /** The calls of `on_update_feed`, a hook subclasses override. */
    var updates: seq<FeedUpdate>

    ghost predicate Valid()
      reads this
    {
      key == FeedKey(kind, userId)
    }

    constructor(kind: FeedKind, userId: nat)
      ensures Valid() && this.kind == kind && this.userId == userId && fresh(timeline)
      ensures timeline.calls == [] && filterKwargs == map[] && orderingArgs == [] && updates == []
    {
      this.kind := kind;
      this.userId := userId;
      this.key := FeedKey(kind, userId);
      timeline := new TimelineStorage();
      filterKwargs := map[];
      orderingArgs := [];
      updates := [];
    }

    /** `copy.copy`: the same attributes, so the same timeline storage object. */
    constructor Clone(f: Feed)
      ensures kind == f.kind && userId == f.userId && key == f.key && timeline == f.timeline
      ensures filterKwargs == f.filterKwargs && orderingArgs == f.orderingArgs && updates == f.updates
    {
      kind := f.kind;
      userId := f.userId;
      key := f.key;
      timeline := f.timeline;
      filterKwargs := f.filterKwargs;
      orderingArgs := f.orderingArgs;
      updates := f.updates;
    }

    /** `trim`: ask the timeline storage to cut the feed to the given length, or to `max_length`. */
    method Trim(length: Option<int>)
      modifies timeline
      ensures timeline.calls == old(timeline.calls) + [TrimCall(key, TrimLength(kind, length))]
    {
      timeline.Record(TrimCall(key, TrimLength(kind, length)));
    }

    /**
     * `add_many`: every item must be an activity; they are added under the feed's key, the
     * feed is trimmed to `max_length` when the flag is truthy and the draw is within
     * `trim_chance`, and the hook is told what was added.
     */
    method AddMany(items: seq<Item>, batchInterface: Arg, trim: Arg, draw: real) returns (res: Outcome)
      modifies this, timeline
      ensures res.Fail? <==> exists i :: 0 <= i < |items| && !items[i].ActivityItem?
      ensures res.Fail? ==> res.error == NotAnActivityList && timeline.calls == old(timeline.calls) && updates == old(updates)
      ensures res.Pass? ==> timeline.calls == old(timeline.calls) + AddManyCalls(key, kind, Added(items), batchInterface, trim, draw)
      ensures res.Pass? ==> updates == old(updates) + [FeedUpdate(Added(items), [])]
      ensures res.Pass? ==> forall i :: 0 <= i < |items| ==> items[i] == ActivityItem(Added(items)[i])
      ensures filterKwargs == old(filterKwargs) && orderingArgs == old(orderingArgs)
    {
      if exists i :: 0 <= i < |items| && !items[i].ActivityItem? {
        return Fail(NotAnActivityList);
      }
      var added := Added(items);
      timeline.Record(AddManyCall(key, added, batchInterface));
      if ShouldTrim(trim, draw) {
        Trim(None);
      }
      updates := updates + [FeedUpdate(added, [])];
      res := Pass;
    }

    /**
     * `remove_many`: the ids are removed under the feed's key, always without a batch interface;
     * trimming follows the same rule as `add_many`, and the hook is told what was deleted.
     */
    method RemoveMany(refs: seq<L.ActivityRef>, batchInterface: Arg, trim: Arg, draw: real)
      modifies this, timeline
      ensures timeline.calls == old(timeline.calls) + RemoveManyCalls(key, kind, refs, trim, draw)
      ensures updates == old(updates) + [FeedUpdate([], refs)]
      ensures filterKwargs == old(filterKwargs) && orderingArgs == old(orderingArgs)
    {
      timeline.Record(RemoveManyCall(key, refs, NoneArg));
      if ShouldTrim(trim, draw) {
        Trim(None);
      }
      updates := updates + [FeedUpdate([], refs)];
    }

    /** `get_activity_slice`: read through the feed's filters and ordering, and hydrate when needed and asked to. */
    method GetActivitySlice(start: Option<nat>, stop: Option<nat>, rehydrate: bool,
                            getSlice: SliceQuery -> Option<seq<Item>>, getMany: seq<nat> -> seq<L.Activity>) returns (r: Fetch<Item>)
      ensures r == ActivitySliceOf(SliceQuery(key, start, stop, filterKwargs, orderingArgs), getSlice, getMany, rehydrate)
    {
      var q := SliceQuery(key, start, stop, filterKwargs, orderingArgs);
      var items := getSlice(q);
      if items.None? {
        return Exhausted;
      }
      if NeedsHydration(items.value) && rehydrate {
        var h := HydrateActivities(items.value, getMany);
        if h.Err? {
          return Failed(h.error);
        }
        return Fetched(h.value);
      }
      r := Fetched(items.value);
    }

    /** `__getitem__`. */
    method GetItem(k: Key, getSlice: SliceQuery -> Option<seq<Item>>, getMany: seq<nat> -> seq<L.Activity>) returns (r: Result<Option<seq<Item>>>)
      ensures r == GetItemOf(k, FeedRead(key, filterKwargs, orderingArgs, getSlice, getMany))
    {
      var range := Normalize(k);
      if range.Err? {
        return Err(range.error);
      }
      var start, bound := range.value.start, range.value.bound;
      if bound == Some(start) {
        return Ok(Some([]));
      }
      var fetched := GetActivitySlice(Some(start), bound, true, getSlice, getMany);
      match fetched
      case Fetched(s) => r := Ok(Some(s));
      case Exhausted => r := Ok(None);
      case Failed(e) => r := Err(e);
    }

    /** `filter`: a clone whose filter arguments are the old ones updated with the new; this feed keeps its own. */
    method Filter(kwargs: map<string, int>) returns (f: Feed)
      ensures fresh(f) && f.kind == kind && f.userId == userId && f.key == key && f.timeline == timeline
      ensures f.filterKwargs == FilteredKwargs(filterKwargs, kwargs) && f.orderingArgs == orderingArgs && f.updates == updates
    {
      f := new Feed.Clone(this);
      f.filterKwargs := f.filterKwargs + kwargs;
    }

    /** `order_by`: a clone with the ordering replaced. */
    method OrderBy(orderingArgs: seq<string>) returns (f: Feed)
      ensures fresh(f) && f.kind == kind && f.userId == userId && f.key == key && f.timeline == timeline
      ensures f.filterKwargs == filterKwargs && f.orderingArgs == orderingArgs && f.updates == updates
    {
      f := new Feed.Clone(this);
      f.orderingArgs := orderingArgs;
    }
  }
}
