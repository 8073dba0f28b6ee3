/**
 * Aggregators of the earlier engine: they fold a batch of activities into aggregated activities
 * keyed by a group string, rank the groups, and merge a new batch into existing groups.
 *
 * Three defects of the code as written are modelled next to the behaviour its comments intend:
 * the comparator-less sort keeps the input order, `recentRank` returns its input unsorted, and
 * the existing-group branch of `merge` calls methods a spread copy does not have. The rest of
 * the module builds on the intended behaviour.
 */
module Aggregators {
  import opened Common
  import opened Digits
  import Seqs
  import L = LegacyActivities

  /** The three aggregator classes; they differ only in `getGroup` and `rank`. */
  datatype Aggregator = BaseAggregator | RecentVerbAggregator | NotificationAggregator

  /**
   * The text a template literal gives a time: a stand-in for `Date.prototype.toString` that is
   * injective in the time, and `null` for a missing time.
   */
  function DateText(t: Option<nat>): (r: string)
    ensures t.None? ==> r == "null"
    ensures t.Some? ==> AllDigits(r)
  {
    if t.None? then "null" else DecimalString(t.value)
  }

  /** `getGroup`: empty for the base class, `verb-date` and `verb-object-date` for the two subclasses. */
  function GetGroup(g: Aggregator, a: L.Activity): (r: string)
    ensures g.BaseAggregator? <==> r == ""
  {
    match g
    case BaseAggregator => ""
    case RecentVerbAggregator => DecimalString(a.verb.id) + "-" + DateText(a.time)
    case NotificationAggregator => DecimalString(a.verb.id) + "-" + (DecimalString(a.objectId) + "-" + DateText(a.time))
  }

  lemma DateTextInjective(s: Option<nat>, t: Option<nat>)
    ensures DateText(s) == DateText(t) <==> s == t
  {
    if s.Some? && t.Some? {
      DecimalStringInjective(s.value, t.value);
    } else if s.Some? != t.Some? {
      assert DateText(s)[0] != DateText(t)[0];
    }
  }

  /** The position of the first `-` in a string, or its length when there is none. */
  function FirstDash(s: string): (r: nat)
    ensures r <= |s| && (r < |s| ==> s[r] == '-')
    ensures forall j :: 0 <= j < r ==> s[j] != '-'
  {
    DashFrom(s, 0)
  }

  /** The first `-` at or after position `i`, or the length when there is none. */
  function DashFrom(s: string, i: nat): (r: nat)
    requires i <= |s|
    ensures i <= r <= |s| && (r < |s| ==> s[r] == '-')
    ensures forall j :: i <= j < r ==> s[j] != '-'
    decreases |s| - i
  {
    if i == |s| || s[i] == '-' then i else DashFrom(s, i + 1)
  }

  lemma FirstDashAfterDigits(x: string, p: string)
    requires AllDigits(x)
    ensures FirstDash(x + "-" + p) == |x|
  {
    var s := x + "-" + p;
    assert s[|x|] == '-';
    assert forall j :: 0 <= j < |x| ==> s[j] == x[j];
  }

  /** A digit string followed by `-` is told apart from the rest at the first dash. */
  lemma SplitAtDash(x: string, p: string, y: string, q: string)
    requires AllDigits(x) && AllDigits(y)
    ensures x + "-" + p == y + "-" + q <==> x == y && p == q
  {
    var l, r := x + "-" + p, y + "-" + q;
    FirstDashAfterDigits(x, p);
    FirstDashAfterDigits(y, q);
    if l == r {
      assert x == l[..|x|] && y == r[..|y|];
      assert p == l[|x| + 1..] && q == r[|y| + 1..];
    }
  }

  /**
   * A subclass's group reads back at its dashes: the verb id before the first dash, then the date
   * text, with the object id between two dashes for the notification aggregator.
   */
  lemma GetGroupDecodes(g: Aggregator, a: L.Activity)
    requires !g.BaseAggregator?
    ensures var r := GetGroup(g, a);
            FirstDash(r) == |DecimalString(a.verb.id)| && r[..FirstDash(r)] == DecimalString(a.verb.id)
    ensures var r := GetGroup(g, a);
            g.RecentVerbAggregator? ==> r[FirstDash(r) + 1..] == DateText(a.time)
    ensures var r := GetGroup(g, a);
            var rest := r[FirstDash(r) + 1..];
            g.NotificationAggregator? ==>
              FirstDash(rest) == |DecimalString(a.objectId)| && rest[..FirstDash(rest)] == DecimalString(a.objectId) &&
              rest[FirstDash(rest) + 1..] == DateText(a.time)
  {
    var r := GetGroup(g, a);
    var v, t := DecimalString(a.verb.id), DateText(a.time);
    if g.RecentVerbAggregator? {
      DashSplit(r, v, t);
    } else {
      var o := DecimalString(a.objectId);
      DashSplit(r, v, o + "-" + t);
      DashSplit(o + "-" + t, o, t);
    }
  }

  /** A digit string, a dash and a rest split back at the first dash. */
  lemma DashSplit(s: string, x: string, p: string)
    requires AllDigits(x) && s == x + "-" + p
    ensures FirstDash(s) == |x| && s[..FirstDash(s)] == x && s[FirstDash(s) + 1..] == p
  {
    FirstDashAfterDigits(x, p);
    assert s[..|x|] == x;
    assert s[|x| + 1..] == p;
  }

  /** Two activities share a recent-verb group exactly when they have the same verb id and the same time. */
  lemma RecentVerbGroups(a: L.Activity, b: L.Activity)
    ensures GetGroup(RecentVerbAggregator, a) == GetGroup(RecentVerbAggregator, b) <==>
              a.verb.id == b.verb.id && a.time == b.time
  {
    SplitAtDash(DecimalString(a.verb.id), DateText(a.time), DecimalString(b.verb.id), DateText(b.time));
    DecimalStringInjective(a.verb.id, b.verb.id);
    DateTextInjective(a.time, b.time);
  }

  /** Two activities share a notification group exactly when verb id, object id and time agree. */
  lemma NotificationGroups(a: L.Activity, b: L.Activity)
    ensures GetGroup(NotificationAggregator, a) == GetGroup(NotificationAggregator, b) <==>
              a.verb.id == b.verb.id && a.objectId == b.objectId && a.time == b.time
    ensures GetGroup(NotificationAggregator, a) == GetGroup(NotificationAggregator, b) ==>
              GetGroup(RecentVerbAggregator, a) == GetGroup(RecentVerbAggregator, b)
  {
    var ra := DecimalString(a.objectId) + "-" + DateText(a.time);
    var rb := DecimalString(b.objectId) + "-" + DateText(b.time);
    SplitAtDash(DecimalString(a.verb.id), ra, DecimalString(b.verb.id), rb);
    SplitAtDash(DecimalString(a.objectId), DateText(a.time), DecimalString(b.objectId), DateText(b.time));
    DecimalStringInjective(a.verb.id, b.verb.id);
    DecimalStringInjective(a.objectId, b.objectId);
    DateTextInjective(a.time, b.time);
    RecentVerbGroups(a, b);
  }

  // ---------------------------------------------------------------------------
  // Sorting the batch.

  /**
   * `sort()` without a comparator compares the elements' string forms; an activity's is
   * `[object Object]` for every activity, so all compare equal.
   */
  function DefaultSortKey(a: L.Activity): int { 0 }

  /** The sort of `groupActivities` as written. */
  function DefaultSort(acts: seq<L.Activity>): seq<L.Activity> {
    Seqs.SortBy(acts, DefaultSortKey)
  }

  /** The stable sort over equal keys leaves the batch in input order. */
  lemma DefaultSortKeepsOrder(acts: seq<L.Activity>)
    ensures DefaultSort(acts) == acts
  {
    Seqs.SortByFacts(acts, DefaultSortKey);
    var r := DefaultSort(acts);
    assert forall i :: 0 <= i < |r| ==> DefaultSortKey(r[i]) == 0;
    Seqs.WithKeyAll(r, DefaultSortKey, 0);
    Seqs.WithKeyAll(acts, DefaultSortKey, 0);
  }

  /** The order `__lt__` gives: by serialization id. */
  function SortKey(a: L.Activity): int { L.IdOf(a) }

  /** The sort the comment intends: ascending serialization id, equal ids in input order. */
  function SortedById(acts: seq<L.Activity>): (r: seq<L.Activity>)
    ensures Seqs.SortedBy(r, SortKey)
    ensures multiset(r) == multiset(acts)
    ensures forall k :: Seqs.WithKey(r, SortKey, k) == Seqs.WithKey(acts, SortKey, k)
  {
    Seqs.SortByFacts(acts, SortKey);
    Seqs.SortBy(acts, SortKey)
  }

  /** Two activities given newest first stay newest first under the sort as written, but not under the intended one. */
  lemma DefaultSortMisorders(a: L.Activity, b: L.Activity)
    requires L.IdOf(a) > L.IdOf(b)
    ensures DefaultSort([a, b]) == [a, b]
    ensures !Seqs.SortedBy(DefaultSort([a, b]), SortKey)
    ensures SortedById([a, b]) == [b, a]
  {
    DefaultSortKeepsOrder([a, b]);
    var r := SortedById([a, b]);
    assert multiset(r) == multiset{a, b};
    assert |r| == 2;
    assert r[0] in multiset(r) && r[1] in multiset(r);
    assert SortKey(r[0]) <= SortKey(r[1]);
  }

  // ---------------------------------------------------------------------------
  // Grouping.

  const MaxLength := L.MaxAggregatedActivitiesLength

  /** A new, empty aggregation for a group. */
  function Fresh(k: string): L.Aggregate {
    L.Aggregate(k, None, None, [], None, None, 0, false, [])
  }

  /** The dictionary of groups and the order in which its keys were inserted. */
  datatype Grouping = Grouping(groups: map<string, L.Aggregate>, order: seq<string>)

  /** One step of the fold: create the group on first sight, then append to it. */
  function Place(g: Aggregator, gr: Grouping, a: L.Activity): Result<Grouping> {
    var k := GetGroup(g, a);
    var cur := if k in gr.groups then gr.groups[k] else Fresh(k);
    var next :- L.Appended(cur, a);
    Ok(Grouping(gr.groups[k := next], if k in gr.groups then gr.order else gr.order + [k]))
  }

  /** The fold of `groupActivities` over the batch in the order given. */
  function Fold(g: Aggregator, acts: seq<L.Activity>): Result<Grouping> {
    if acts == [] then Ok(Grouping(map[], []))
    else
      var gr :- Fold(g, acts[..|acts| - 1]);
      Place(g, gr, acts[|acts| - 1])
  }

  function GroupKeys(g: Aggregator, acts: seq<L.Activity>): (r: seq<string>)
    ensures |r| == |acts| && forall i :: 0 <= i < |acts| ==> r[i] == GetGroup(g, acts[i])
  {
    seq(|acts|, i requires 0 <= i < |acts| => GetGroup(g, acts[i]))
  }

  /** The activities of the batch that belong to group `k`, in batch order. */
  function InGroup(g: Aggregator, acts: seq<L.Activity>, k: string): seq<L.Activity> {
    if acts == [] then []
    else InGroup(g, acts[..|acts| - 1], k) + (if GetGroup(g, acts[|acts| - 1]) == k then [acts[|acts| - 1]] else [])
  }

  /** The first fifteen of a sequence. */
  function Capped(xs: seq<L.Activity>): seq<L.Activity> {
    if |xs| <= MaxLength then xs else xs[..MaxLength]
  }

  /** What the fold leaves in group `k`: its first fifteen activities, the rest counted as evicted. */
  predicate GroupHolds(g: Aggregator, acts: seq<L.Activity>, k: string, v: L.Aggregate) {
    && v.group == k
    && L.WellFormed(v)
    && !v.dehydrated
    && v.activities == Capped(InGroup(g, acts, k))
    && v.minimizedActivities == |InGroup(g, acts, k)| - |v.activities|
  }

  /** The keys of a fold: listed once each in order of first appearance, one group per key seen. */
  ghost predicate Keyed(g: Aggregator, acts: seq<L.Activity>, gr: Grouping) {
    && gr.order == Seqs.Distinct(GroupKeys(g, acts))
    && (forall k :: k in gr.order <==> k in gr.groups)
    && (forall k :: k in gr.groups <==> k in GroupKeys(g, acts))
  }

  /** The groups of a fold: each holds the first fifteen of its activities and counts the rest as evicted. */
  ghost predicate Holding(g: Aggregator, acts: seq<L.Activity>, gr: Grouping) {
    forall k :: k in gr.groups ==> GroupHolds(g, acts, k, gr.groups[k])
  }

  /** The shape of a successful fold: every activity was serializable, and the keys and groups are as above. */
  ghost predicate Shaped(g: Aggregator, acts: seq<L.Activity>, gr: Grouping) {
    && (forall a :: a in acts ==> L.Serializable(a))
    && Keyed(g, acts, gr)
    && Holding(g, acts, gr)
  }

  lemma GroupKeysAppend(g: Aggregator, p: seq<L.Activity>, a: L.Activity)
    ensures GroupKeys(g, p + [a]) == GroupKeys(g, p) + [GetGroup(g, a)]
  {
  }

  lemma InGroupAppend(g: Aggregator, p: seq<L.Activity>, a: L.Activity, k: string)
    ensures InGroup(g, p + [a], k) == InGroup(g, p, k) + (if GetGroup(g, a) == k then [a] else [])
  {
    assert (p + [a])[..|p|] == p;
  }

  lemma IdentityKeys(s: seq<string>)
    ensures forall k :: k in Seqs.KeySet(s, Seqs.Identity) <==> k in s
  {
    forall k ensures k in Seqs.KeySet(s, Seqs.Identity) <==> k in s {
      if k in s {
        assert Seqs.Identity(k) == k;
      }
    }
  }

  lemma DistinctAppend(s: seq<string>, x: string)
    ensures Seqs.Distinct(s + [x]) == if x in s then Seqs.Distinct(s) else Seqs.Distinct(s) + [x]
  {
    assert (s + [x])[..|s|] == s;
    Seqs.DistinctByKeys(s, Seqs.Identity);
    IdentityKeys(s);
    IdentityKeys(Seqs.Distinct(s));
  }

  lemma {:induction false} InGroupEmpty(g: Aggregator, acts: seq<L.Activity>, k: string)
    requires k !in GroupKeys(g, acts)
    ensures InGroup(g, acts, k) == []
  {
    if acts != [] {
      var p, a := acts[..|acts| - 1], acts[|acts| - 1];
      assert acts == p + [a];
      GroupKeysAppend(g, p, a);
      InGroupAppend(g, p, a, k);
      InGroupEmpty(g, p, k);
    }
  }

  /** Appending the next activity of group `k` to what the fold holds for `k` keeps the description exact. */
  lemma HoldsStep(g: Aggregator, p: seq<L.Activity>, a: L.Activity, cur: L.Aggregate)
    requires GroupHolds(g, p, GetGroup(g, a), cur) && L.Appended(cur, a).Ok?
    ensures GroupHolds(g, p + [a], GetGroup(g, a), L.Appended(cur, a).value)
  {
    var x := InGroup(g, p, GetGroup(g, a));
    InGroupAppend(g, p, a, GetGroup(g, a));
    if |cur.activities| < MaxLength {
      assert Capped(x + [a]) == x + [a];
    } else {
      assert (x + [a])[..MaxLength] == x[..MaxLength];
    }
  }

  /** The grouping one step of the fold produces, when the append succeeds. */
  lemma PlaceValue(g: Aggregator, prev: Grouping, a: L.Activity)
    requires Place(g, prev, a).Ok?
    ensures var k := GetGroup(g, a);
            var cur := if k in prev.groups then prev.groups[k] else Fresh(k);
            L.Appended(cur, a).Ok? &&
            Place(g, prev, a).value ==
              Grouping(prev.groups[k := L.Appended(cur, a).value], if k in prev.groups then prev.order else prev.order + [k])
  {
  }

  /** A step of the fold succeeds only on an activity whose id can be read. */
  lemma PlaceSerializable(g: Aggregator, prev: Grouping, a: L.Activity)
    requires Place(g, prev, a).Ok?
    ensures L.Serializable(a)
  {
    PlaceValue(g, prev, a);
  }

  lemma PlaceKeyed(g: Aggregator, p: seq<L.Activity>, a: L.Activity, prev: Grouping)
    requires Keyed(g, p, prev) && Place(g, prev, a).Ok?
    ensures Keyed(g, p + [a], Place(g, prev, a).value)
  {
    PlaceValue(g, prev, a);
    GroupKeysAppend(g, p, a);
    DistinctAppend(GroupKeys(g, p), GetGroup(g, a));
  }

  lemma PlaceHolding(g: Aggregator, p: seq<L.Activity>, a: L.Activity, prev: Grouping)
    requires Keyed(g, p, prev) && Holding(g, p, prev) && Place(g, prev, a).Ok?
    ensures Holding(g, p + [a], Place(g, prev, a).value)
  {
    var k0 := GetGroup(g, a);
    var cur := if k0 in prev.groups then prev.groups[k0] else Fresh(k0);
    PlaceValue(g, prev, a);
    var r := Place(g, prev, a).value;
    if k0 !in prev.groups {
      InGroupEmpty(g, p, k0);
    }
    HoldsStep(g, p, a, cur);
    forall k | k in r.groups ensures GroupHolds(g, p + [a], k, r.groups[k]) {
      if k != k0 {
        HoldsOther(g, p, a, k, prev.groups[k]);
      }
    }
  }

  /** One step of the fold keeps the shape: the batch grows by its last activity. */
  lemma PlaceShape(g: Aggregator, p: seq<L.Activity>, a: L.Activity, prev: Grouping)
    requires Shaped(g, p, prev) && Place(g, prev, a).Ok?
    ensures Shaped(g, p + [a], Place(g, prev, a).value)
  {
    assert forall x :: x in p + [a] ==> x in p || x == a;
    PlaceSerializable(g, prev, a);
    PlaceKeyed(g, p, a, prev);
    PlaceHolding(g, p, a, prev);
  }

  /** Groups other than the one the next activity belongs to are left as they were. */
  lemma HoldsOther(g: Aggregator, p: seq<L.Activity>, a: L.Activity, k: string, v: L.Aggregate)
    requires GroupHolds(g, p, k, v) && GetGroup(g, a) != k
    ensures GroupHolds(g, p + [a], k, v)
  {
    InGroupAppend(g, p, a, k);
  }

  /** A successful fold has the shape `Shaped` describes. */
  lemma {:induction false} FoldShape(g: Aggregator, acts: seq<L.Activity>)
    requires Fold(g, acts).Ok?
    ensures Shaped(g, acts, Fold(g, acts).value)
  {
    if acts != [] {
      var p, a := acts[..|acts| - 1], acts[|acts| - 1];
      Seqs.LastSplit(acts);
      FoldStep(g, acts);
      FoldShape(g, p);
      PlaceShape(g, p, a, Fold(g, p).value);
    }
  }

  /** The fold of a non-empty batch places its last activity into the fold of the rest. */
  lemma FoldStep(g: Aggregator, acts: seq<L.Activity>)
    requires acts != [] && Fold(g, acts).Ok?
    ensures Fold(g, acts[..|acts| - 1]).Ok?
    ensures Fold(g, acts) == Place(g, Fold(g, acts[..|acts| - 1]).value, acts[|acts| - 1])
  {
  }

  /** What a successful fold holds for one of its keys. */
  lemma FoldHolds(g: Aggregator, acts: seq<L.Activity>, k: string)
    requires Fold(g, acts).Ok? && k in Fold(g, acts).value.groups
    ensures GroupHolds(g, acts, k, Fold(g, acts).value.groups[k])
  {
    FoldShape(g, acts);
  }

  /** Appending an activity that is still a member of its group fails with `Duplicate Activity`. */
  lemma FoldDuplicate(g: Aggregator, acts: seq<L.Activity>, a: L.Activity)
    requires Fold(g, acts).Ok?
    requires GetGroup(g, a) in Fold(g, acts).value.groups
    requires a in Fold(g, acts).value.groups[GetGroup(g, a)].activities && L.IdOf(a) != 0
    ensures Fold(g, acts + [a]) == Err(DuplicateActivity)
  {
    var k := GetGroup(g, a);
    FoldHolds(g, acts, k);
    var v := Fold(g, acts).value.groups[k];
    assert L.Serializable(a);
    var j :| 0 <= j < |v.activities| && v.activities[j] == a;
    assert L.IdsOf(v.activities)[j] == L.IdOf(a);
    assert L.Contains(v, L.Ref(a)) == Ok(true);
    assert L.Appended(v, a) == Err(DuplicateActivity);
    assert (acts + [a])[..|acts|] == acts;
  }

  /** The same activity passed twice in a row fails the fold, unless its group was already full. */
  lemma RepeatedActivityFails(g: Aggregator, acts: seq<L.Activity>, a: L.Activity)
    requires Fold(g, acts + [a]).Ok? && L.IdOf(a) != 0
    requires |InGroup(g, acts, GetGroup(g, a))| < MaxLength
    ensures Fold(g, acts + [a, a]) == Err(DuplicateActivity)
  {
    assert acts + [a, a] == (acts + [a]) + [a];
    FoldLast(g, acts, a);
    var k := GetGroup(g, a);
    var prev := Fold(g, acts).value;
    PlaceValue(g, prev, a);
    var cur := if k in prev.groups then prev.groups[k] else Fresh(k);
    if k in prev.groups {
      FoldHolds(g, acts, k);
    }
    var v := Fold(g, acts + [a]).value.groups[k];
    assert v.activities[|cur.activities|] == a;
    FoldDuplicate(g, acts + [a], a);
  }

  /** The fold over a batch with one more activity is one more step. */
  lemma FoldLast(g: Aggregator, acts: seq<L.Activity>, a: L.Activity)
    ensures Fold(g, acts + [a]) == if Fold(g, acts).Ok? then Place(g, Fold(g, acts).value, a) else Fold(g, acts)
  {
    assert (acts + [a])[..|acts|] == acts;
  }

  /** An activity whose id cannot be read stops the fold with the getter's error. */
  lemma FoldUnserializable(g: Aggregator, acts: seq<L.Activity>, a: L.Activity)
    requires Fold(g, acts).Ok? && !L.Serializable(a)
    ensures Fold(g, acts + [a]) == Err(L.SerializationId(a).error)
  {
    assert (acts + [a])[..|acts|] == acts;
  }

  /**
   * `groupActivities` as written: the fold over the batch after the comparator-less sort, so the
   * groups receive their activities in input order, whatever their ids.
   */
  function GroupedAsWritten(g: Aggregator, acts: seq<L.Activity>): (r: Result<Grouping>)
    ensures r == Fold(g, acts)
  {
    DefaultSortKeepsOrder(acts);
    Fold(g, DefaultSort(acts))
  }

  /**
   * `groupActivities` as intended: the fold over the batch sorted by serialization id, so each
   * group holds its activities in ascending id order.
   */
  function Grouped(g: Aggregator, acts: seq<L.Activity>): (r: Result<Grouping>)
    ensures r.Ok? ==> Shaped(g, SortedById(acts), r.value)
    ensures r.Ok? ==> forall k :: k in r.value.groups ==> Seqs.SortedBy(r.value.groups[k].activities, SortKey)
  {
    var r := Fold(g, SortedById(acts));
    if r.Ok? then
      FoldShape(g, SortedById(acts));
      GroupedInIdOrder(g, acts);
      r
    else r
  }

  lemma {:induction false} InGroupSorted(g: Aggregator, s: seq<L.Activity>, k: string)
    requires Seqs.SortedBy(s, SortKey)
    ensures Seqs.SortedBy(InGroup(g, s, k), SortKey)
    ensures forall x :: x in InGroup(g, s, k) ==> x in s
  {
    if s != [] {
      var p, a := s[..|s| - 1], s[|s| - 1];
      assert s == p + [a];
      assert Seqs.SortedBy(p, SortKey);
      InGroupSorted(g, p, k);
      InGroupAppend(g, p, a, k);
      if GetGroup(g, a) == k {
        Seqs.SortedSelectAppend(InGroup(g, p, k), p, a, SortKey);
      }
    }
  }

  /** With the intended sort, members of each group appear in ascending serialization id. */
  lemma GroupedInIdOrder(g: Aggregator, acts: seq<L.Activity>)
    requires Fold(g, SortedById(acts)).Ok?
    ensures forall k :: k in Fold(g, SortedById(acts)).value.groups ==>
              Seqs.SortedBy(Fold(g, SortedById(acts)).value.groups[k].activities, SortKey)
  {
    var s := SortedById(acts);
    forall k | k in Fold(g, s).value.groups ensures Seqs.SortedBy(Fold(g, s).value.groups[k].activities, SortKey) {
      FoldHolds(g, s, k);
      InGroupSorted(g, s, k);
      CappedSorted(InGroup(g, s, k));
    }
  }

  lemma CappedSorted(xs: seq<L.Activity>)
    requires Seqs.SortedBy(xs, SortKey)
    ensures Seqs.SortedBy(Capped(xs), SortKey)
  {
  }

  // ---------------------------------------------------------------------------
  // Ranking and aggregation.

  /**
   * `rank` as written: the base class ranks nothing, and `recentRank` returns its argument, so the
   * groups are those of the intended ranking in their original order.
   */
  function RankAsWritten(g: Aggregator, groups: seq<L.Aggregate>): (r: seq<L.Aggregate>)
    ensures multiset(r) == multiset(Rank(g, groups))
    ensures !g.BaseAggregator? ==> r == groups
  {
    if g.BaseAggregator? then [] else groups
  }

  /** Most recently updated first: a missing update time counts as 0, as `null` does in a subtraction. */
  function RecencyKey(v: L.Aggregate): int { -(TimeOrZero(v.updatedAt) as int) }

  /** `recentRank` as intended: the groups sorted by update time, newest first, ties in input order. */
  function RecentRank(groups: seq<L.Aggregate>): (r: seq<L.Aggregate>)
    ensures multiset(r) == multiset(groups)
    ensures forall i, j :: 0 <= i < j < |r| ==> TimeOrZero(r[i].updatedAt) >= TimeOrZero(r[j].updatedAt)
    ensures forall k :: Seqs.WithKey(r, RecencyKey, k) == Seqs.WithKey(groups, RecencyKey, k)
  {
    Seqs.SortByFacts(groups, RecencyKey);
    var r := Seqs.SortBy(groups, RecencyKey);
    assert forall i, j :: 0 <= i < j < |r| ==> RecencyKey(r[i]) <= RecencyKey(r[j]);
    r
  }

  /** `rank` as intended: nothing for the base class, every group newest first for the subclasses. */
  function Rank(g: Aggregator, groups: seq<L.Aggregate>): (r: seq<L.Aggregate>)
    ensures g.BaseAggregator? ==> r == []
    ensures !g.BaseAggregator? ==> multiset(r) == multiset(groups)
    ensures forall i, j :: 0 <= i < j < |r| ==> TimeOrZero(r[i].updatedAt) >= TimeOrZero(r[j].updatedAt)
  {
    if g.BaseAggregator? then [] else RecentRank(groups)
  }

  /** An older group ahead of a newer one stays ahead under `recentRank` as written; the intended ranking swaps them. */
  lemma RecentRankAsWrittenUnsorted(u: L.Aggregate, v: L.Aggregate)
    requires TimeOrZero(u.updatedAt) < TimeOrZero(v.updatedAt)
    ensures RankAsWritten(RecentVerbAggregator, [u, v]) == [u, v]
    ensures Rank(RecentVerbAggregator, [u, v]) == [v, u]
  {
    var r := RecentRank([u, v]);
    assert multiset(r) == multiset{u, v};
    assert |r| == 2;
    assert r[0] in multiset(r) && r[1] in multiset(r);
  }

  function GroupValues(gr: Grouping): (r: seq<L.Aggregate>)
    requires forall k :: k in gr.order ==> k in gr.groups
    ensures |r| == |gr.order| && forall i :: 0 <= i < |r| ==> r[i] == gr.groups[gr.order[i]]
  {
    seq(|gr.order|, i requires 0 <= i < |gr.order| => gr.groups[gr.order[i]])
  }

  /** Each listed group of a successful fold is well formed, has at least one member, and is stored under its own key. */
  lemma GroupValuesFacts(g: Aggregator, acts: seq<L.Activity>, gr: Grouping)
    requires Shaped(g, acts, gr)
    ensures forall v :: v in GroupValues(gr) ==>
              L.WellFormed(v) && |v.activities| >= 1 && v.group in gr.groups && v == gr.groups[v.group]
  {
    var vs := GroupValues(gr);
    forall i | 0 <= i < |vs|
      ensures L.WellFormed(vs[i]) && |vs[i].activities| >= 1 && vs[i].group in gr.groups && vs[i] == gr.groups[vs[i].group]
    {
      var k := gr.order[i];
      assert k in gr.groups;
      GroupNonEmpty(g, acts, k, gr.groups[k]);
    }
  }

  /** A group the batch has a key for holds at least one activity. */
  lemma GroupNonEmpty(g: Aggregator, acts: seq<L.Activity>, k: string, v: L.Aggregate)
    requires GroupHolds(g, acts, k, v) && k in GroupKeys(g, acts)
    ensures |v.activities| >= 1
  {
    var j :| 0 <= j < |acts| && GroupKeys(g, acts)[j] == k;
    InGroupHas(g, acts, j);
  }

  lemma {:induction false} InGroupHas(g: Aggregator, acts: seq<L.Activity>, i: nat)
    requires i < |acts|
    ensures |InGroup(g, acts, GetGroup(g, acts[i]))| >= 1
  {
    var p, a := acts[..|acts| - 1], acts[|acts| - 1];
    assert acts == p + [a];
    InGroupAppend(g, p, a, GetGroup(g, acts[i]));
    if i < |p| {
      assert acts[i] == p[i];
      InGroupHas(g, p, i);
    }
  }

  /** The groups of a fold are distinct values, each stored under the key listed at its position. */
  lemma {:induction false} GroupValuesDistinct(g: Aggregator, acts: seq<L.Activity>, gr: Grouping)
    requires Shaped(g, acts, gr)
    ensures forall i :: 0 <= i < |gr.order| ==> GroupValues(gr)[i].group == gr.order[i]
    ensures forall i, j :: 0 <= i < j < |GroupValues(gr)| ==> GroupValues(gr)[i] != GroupValues(gr)[j]
  {
    var vs := GroupValues(gr);
    Seqs.DistinctFacts(GroupKeys(g, acts));
    forall i | 0 <= i < |gr.order| ensures vs[i].group == gr.order[i] {
      assert gr.order[i] in gr.groups;
    }
  }

  /**
   * `aggregate` as written: the groups in order of first appearance (`Object.values` keeps
   * insertion order for keys that are not array indices, and no group key is one), returned
   * unranked by `recentRank`.
   */
  function AggregatedAsWritten(g: Aggregator, acts: seq<L.Activity>): (r: Result<seq<L.Aggregate>>)
    ensures r.Err? <==> Fold(g, acts).Err?
    ensures r.Ok? && g.BaseAggregator? ==> r.value == []
    ensures r.Ok? && !g.BaseAggregator? ==>
              |r.value| == |Seqs.Distinct(GroupKeys(g, acts))| &&
              forall i :: 0 <= i < |r.value| ==>
                r.value[i].group == Seqs.Distinct(GroupKeys(g, acts))[i] &&
                GroupHolds(g, acts, r.value[i].group, r.value[i]) && |r.value[i].activities| >= 1
  {
    var gr :- GroupedAsWritten(g, acts);
    FoldShape(g, acts);
    FirstAppearance(g, acts, gr);
    Ok(RankAsWritten(g, GroupValues(gr)))
  }

  /** The groups of a fold, listed by key, come in order of first appearance, each holding its activities. */
  lemma FirstAppearance(g: Aggregator, acts: seq<L.Activity>, gr: Grouping)
    requires Shaped(g, acts, gr)
    ensures var vs := GroupValues(gr);
            && |vs| == |Seqs.Distinct(GroupKeys(g, acts))|
            && forall i :: 0 <= i < |vs| ==>
                 vs[i].group == Seqs.Distinct(GroupKeys(g, acts))[i] &&
                 GroupHolds(g, acts, vs[i].group, vs[i]) && |vs[i].activities| >= 1
  {
    GroupValuesFacts(g, acts, gr);
    GroupValuesDistinct(g, acts, gr);
    var vs := GroupValues(gr);
    forall i | 0 <= i < |vs|
      ensures GroupHolds(g, acts, vs[i].group, vs[i]) && |vs[i].activities| >= 1
    {
      assert vs[i] in vs;
      assert gr.order[i] in gr.groups;
    }
  }

  /**
   * `aggregate` as intended: the groups of the sorted fold, each once, ranked newest first, ties in
   * order of first appearance.
   */
  function Aggregated(g: Aggregator, acts: seq<L.Activity>): (r: Result<seq<L.Aggregate>>)
    ensures r.Err? <==> Grouped(g, acts).Err?
    ensures r.Ok? && g.BaseAggregator? ==> r.value == []
    ensures r.Ok? ==> forall v :: v in r.value ==>
              L.WellFormed(v) && |v.activities| >= 1 && v.group in Grouped(g, acts).value.groups &&
              v == Grouped(g, acts).value.groups[v.group]
    ensures r.Ok? && !g.BaseAggregator? ==>
              |r.value| == |Grouped(g, acts).value.order| &&
              forall k :: k in Grouped(g, acts).value.groups ==> Grouped(g, acts).value.groups[k] in r.value
    ensures r.Ok? ==> forall i, j :: 0 <= i < j < |r.value| ==> r.value[i].group != r.value[j].group
    ensures r.Ok? ==> forall i, j :: 0 <= i < j < |r.value| ==>
              TimeOrZero(r.value[i].updatedAt) >= TimeOrZero(r.value[j].updatedAt)
    ensures r.Ok? && !g.BaseAggregator? ==>
              forall t :: Seqs.WithKey(r.value, RecencyKey, t) == Seqs.WithKey(GroupValues(Grouped(g, acts).value), RecencyKey, t)
  {
    var gr :- Grouped(g, acts);
    RankFacts(g, SortedById(acts), gr);
    Ok(Rank(g, GroupValues(gr)))
  }

  /** What ranking the groups of a fold gives: each group once, and for the subclasses every group. */
  lemma RankFacts(g: Aggregator, s: seq<L.Activity>, gr: Grouping)
    requires Shaped(g, s, gr)
    ensures var r := Rank(g, GroupValues(gr));
            && (forall v :: v in r ==> L.WellFormed(v) && |v.activities| >= 1 && v.group in gr.groups && v == gr.groups[v.group])
            && (!g.BaseAggregator? ==> |r| == |gr.order| && forall k :: k in gr.groups ==> gr.groups[k] in r)
            && (forall i, j :: 0 <= i < j < |r| ==> r[i].group != r[j].group)
  {
    GroupValuesFacts(g, s, gr);
    GroupValuesDistinct(g, s, gr);
    GroupValuesComplete(g, s, gr);
    var vs := GroupValues(gr);
    var r := Rank(g, vs);
    if !g.BaseAggregator? {
      Seqs.PermutationMembers(r, vs);
      Seqs.PermutationDistinct(r, vs);
      assert |multiset(r)| == |multiset(vs)|;
      DistinctGroups(r, gr.groups);
    }
  }

  /** Every group of a well-shaped fold is among its listed values. */
  lemma GroupValuesComplete(g: Aggregator, s: seq<L.Activity>, gr: Grouping)
    requires Shaped(g, s, gr)
    ensures forall k :: k in gr.groups ==> gr.groups[k] in GroupValues(gr)
  {
    var vs := GroupValues(gr);
    forall k | k in gr.groups ensures gr.groups[k] in vs {
      assert k in gr.order;
      var i :| 0 <= i < |gr.order| && gr.order[i] == k;
      assert vs[i] == gr.groups[k];
    }
  }

  /** Distinct aggregations, each stored under its own group, have distinct groups. */
  lemma DistinctGroups(r: seq<L.Aggregate>, groups: map<string, L.Aggregate>)
    requires forall v :: v in r ==> v.group in groups && v == groups[v.group]
    requires forall i, j :: 0 <= i < j < |r| ==> r[i] != r[j]
    ensures forall i, j :: 0 <= i < j < |r| ==> r[i].group != r[j].group
  {
    forall i, j | 0 <= i < j < |r| ensures r[i].group != r[j].group {
      assert r[i] in r && r[j] in r;
    }
  }

  // ---------------------------------------------------------------------------
  // Merging a new batch into existing groups.

  /** The lookup `merge` builds: each group key maps to the last aggregation carrying it. */
  function CurrentByGroup(aggs: seq<L.Aggregate>): map<string, L.Aggregate> {
    if aggs == [] then map[]
    else CurrentByGroup(aggs[..|aggs| - 1])[aggs[|aggs| - 1].group := aggs[|aggs| - 1]]
  }

  /** Every key of the batch is present, each maps to an aggregation carrying it, and a later one overrides an earlier one. */
  lemma {:induction false} CurrentByGroupFacts(aggs: seq<L.Aggregate>)
    ensures forall k :: k in CurrentByGroup(aggs) ==> CurrentByGroup(aggs)[k] in aggs && CurrentByGroup(aggs)[k].group == k
    ensures forall i :: 0 <= i < |aggs| ==> aggs[i].group in CurrentByGroup(aggs)
    ensures forall i :: 0 <= i < |aggs| && (forall j :: i < j < |aggs| ==> aggs[j].group != aggs[i].group) ==>
              CurrentByGroup(aggs)[aggs[i].group] == aggs[i]
  {
    if aggs != [] {
      var p, l := aggs[..|aggs| - 1], aggs[|aggs| - 1];
      assert aggs == p + [l];
      CurrentByGroupFacts(p);
      var m := CurrentByGroup(aggs);
      forall i | 0 <= i < |aggs| && (forall j :: i < j < |aggs| ==> aggs[j].group != aggs[i].group)
        ensures m[aggs[i].group] == aggs[i]
      {
        if i < |p| {
          assert aggs[|aggs| - 1].group != aggs[i].group;
          assert forall j :: i < j < |p| ==> p[j] == aggs[j];
        }
      }
    }
  }

  /** The new groups and the (from, to) pairs of the changed ones. */
  datatype MergeResult = MergeResult(newAggs: seq<L.Aggregate>, changed: seq<(L.Aggregate, L.Aggregate)>)

  /** The existing-group branch as written: copying by spread drops `includes` and `push`, so a group with members throws. */
  function MergeGroupsAsWritten(cur: map<string, L.Aggregate>, incoming: seq<L.Aggregate>): (r: Result<MergeResult>)
    ensures r.Err? ==> r.error == NotAFunction
    ensures r.Ok? ==> r.value.changed == []
    ensures r.Ok? ==> forall v :: v in r.value.newAggs ==> v in incoming && v.group !in cur
  {
    if incoming == [] then Ok(MergeResult([], []))
    else
      var m :- MergeGroupsAsWritten(cur, incoming[..|incoming| - 1]);
      var agg := incoming[|incoming| - 1];
      assert forall v :: v in incoming[..|incoming| - 1] ==> v in incoming;
      if agg.group !in cur then Ok(m.(newAggs := m.newAggs + [agg]))
      else if |agg.activities| > 0 then Err(NotAFunction)
      else Ok(m)
  }

  /** As written, `merge` succeeds only when no new group with members matches an existing key. */
  lemma {:induction false} MergeGroupsAsWrittenFails(cur: map<string, L.Aggregate>, incoming: seq<L.Aggregate>)
    ensures MergeGroupsAsWritten(cur, incoming).Ok? <==>
              forall i :: 0 <= i < |incoming| && incoming[i].group in cur ==> incoming[i].activities == []
  {
    if incoming != [] {
      var p := incoming[..|incoming| - 1];
      MergeGroupsAsWrittenFails(cur, p);
      assert forall i :: 0 <= i < |p| ==> incoming[i] == p[i];
    }
  }

  /**
   * Every group `aggregate` as written returns has a member, so as written any batch touching an
   * existing group makes `merge` throw.
   */
  lemma MergeAsWrittenExistingGroupFails(g: Aggregator, aggregated: seq<L.Aggregate>, acts: seq<L.Activity>, i: nat)
    requires AggregatedAsWritten(g, acts).Ok? && i < |AggregatedAsWritten(g, acts).value|
    requires AggregatedAsWritten(g, acts).value[i].group in CurrentByGroup(aggregated)
    ensures MergeGroupsAsWritten(CurrentByGroup(aggregated), AggregatedAsWritten(g, acts).value) == Err(NotAFunction)
  {
    var incoming := AggregatedAsWritten(g, acts).value;
    assert incoming[i] in incoming;
    MergeGroupsAsWrittenFails(CurrentByGroup(aggregated), incoming);
    assert !(incoming[i].group in CurrentByGroup(aggregated) ==> incoming[i].activities == []);
  }

  /** The copy of an existing group after appending every new activity, skipping the ones already present. */
  function AppendedAll(v: L.Aggregate, acts: seq<L.Activity>): (r: Result<L.Aggregate>)
    ensures r.Ok? ==> r.value.group == v.group
    ensures r.Ok? ==> |r.value.activities| >= |v.activities| && r.value.activities[..|v.activities|] == v.activities
    ensures r.Ok? && L.WellFormed(v) ==> L.WellFormed(r.value)
    ensures r.Ok? && |v.activities| >= MaxLength ==> r.value.activities == v.activities
    ensures r.Ok? && |v.activities| <= MaxLength ==> |r.value.activities| <= MaxLength
    ensures r.Err? ==> r.error != DuplicateActivity
  {
    if acts == [] then Ok(v)
    else
      var w :- AppendedAll(v, acts[..|acts| - 1]);
      match L.Appended(w, acts[|acts| - 1])
      case Ok(x) =>
        assert x.activities[..|w.activities|] == w.activities;
        assert x.activities[..|v.activities|] == w.activities[..|v.activities|];
        Ok(x)
      case Err(e) => if e == DuplicateActivity then Ok(w) else Err(e)
  }

  /**
   * What the copy holds: its members come from the group or the batch, and every activity of the
   * batch is readable and a member, unless the copy already holds fifteen.
   */
  lemma {:induction false} AppendedAllMembers(v: L.Aggregate, acts: seq<L.Activity>)
    requires AppendedAll(v, acts).Ok?
    ensures forall x :: x in AppendedAll(v, acts).value.activities ==> x in v.activities || x in acts
    ensures forall a :: a in acts ==>
              L.Serializable(a) &&
              (L.IdOf(a) in L.IdsOf(AppendedAll(v, acts).value.activities) || |AppendedAll(v, acts).value.activities| >= MaxLength)
  {
    if acts != [] {
      var p, l := acts[..|acts| - 1], acts[|acts| - 1];
      assert acts == p + [l];
      AppendedAllMembers(v, p);
      var w := AppendedAll(v, p).value;
      var r := AppendedAll(v, acts).value;
      AppendedStep(w, l, r);
      GrownKeepsIds(w.activities, r.activities);
    }
  }

  /** One activity offered to the copy: it is a member afterwards unless the copy is full. */
  lemma AppendedStep(w: L.Aggregate, l: L.Activity, r: L.Aggregate)
    requires L.Appended(w, l).Ok? ==> r == L.Appended(w, l).value
    requires L.Appended(w, l).Err? ==> L.Appended(w, l).error == DuplicateActivity && r == w
    ensures L.Serializable(l)
    ensures L.IdOf(l) in L.IdsOf(r.activities) || |r.activities| >= MaxLength
    ensures forall x :: x in r.activities ==> x in w.activities || x == l
    ensures |r.activities| >= |w.activities| && r.activities[..|w.activities|] == w.activities
  {
    if L.Appended(w, l).Ok? {
      if |w.activities| < MaxLength {
        assert r.activities[|w.activities|] == l;
        assert L.IdsOf(r.activities)[|w.activities|] == L.IdOf(l);
      }
    }
  }

  /** A grown sequence keeps the ids of its prefix. */
  lemma GrownKeepsIds(p: seq<L.Activity>, s: seq<L.Activity>)
    requires |s| >= |p| && s[..|p|] == p
    ensures forall k :: k in L.IdsOf(p) ==> k in L.IdsOf(s)
    ensures forall x :: x in p ==> x in s
  {
    forall k | k in L.IdsOf(p) ensures k in L.IdsOf(s) {
      var i :| 0 <= i < |p| && L.IdsOf(p)[i] == k;
      assert s[i] == p[i];
      assert L.IdsOf(s)[i] == k;
    }
    forall x | x in p ensures x in s {
      var i :| 0 <= i < |p| && p[i] == x;
      assert s[i] == x;
    }
  }

  /** Every entry of the lookup is stored under its own group key. */
  predicate KeyedByGroup(cur: map<string, L.Aggregate>) {
    forall k :: k in cur ==> cur[k].group == k
  }

  /** The loop over the new groups: new keys are collected, existing ones merged and reported when their members changed. */
  function MergeGroups(cur: map<string, L.Aggregate>, incoming: seq<L.Aggregate>): (r: Result<MergeResult>)
    requires KeyedByGroup(cur)
    ensures r.Ok? ==> |r.value.newAggs| + |r.value.changed| <= |incoming|
    ensures r.Ok? ==> forall v :: v in r.value.newAggs ==> v in incoming
    ensures r.Ok? ==> forall v :: v in r.value.newAggs ==> v.group !in cur
    ensures r.Ok? ==> forall i :: 0 <= i < |r.value.changed| ==>
              var (before, after) := r.value.changed[i];
              after.group in cur && before == cur[after.group] && before.activities != after.activities &&
              |before.activities| < MaxLength && |before.activities| <= |after.activities| &&
              after.activities[..|before.activities|] == before.activities
  {
    if incoming == [] then Ok(MergeResult([], []))
    else
      var m :- MergeGroups(cur, incoming[..|incoming| - 1]);
      var agg := incoming[|incoming| - 1];
      assert forall v :: v in incoming[..|incoming| - 1] ==> v in incoming;
      if agg.group !in cur then Ok(m.(newAggs := m.newAggs + [agg]))
      else
        var before := cur[agg.group];
        var after :- AppendedAll(before, agg.activities);
        if before.activities != after.activities then Ok(m.(changed := m.changed + [(before, after)])) else Ok(m)
  }

  /**
   * The changed pairs are exactly the existing groups whose merged copy differs: each pair is a
   * current group and its copy after appending some new group's activities, and every such group
   * whose copy gained a member is reported. The walk succeeds exactly when every copy does.
   */
  lemma {:induction false} MergeGroupsChanged(cur: map<string, L.Aggregate>, incoming: seq<L.Aggregate>)
    requires KeyedByGroup(cur)
    ensures MergeGroups(cur, incoming).Ok? <==>
              forall a :: a in incoming && a.group in cur ==> AppendedAll(cur[a.group], a.activities).Ok?
    ensures MergeGroups(cur, incoming).Ok? ==> forall c :: c in MergeGroups(cur, incoming).value.changed ==>
              exists a :: a in incoming && a.group in cur && AppendedAll(cur[a.group], a.activities).Ok? &&
                c == (cur[a.group], AppendedAll(cur[a.group], a.activities).value)
    ensures MergeGroups(cur, incoming).Ok? ==> forall a ::
              (a in incoming && a.group in cur &&
               AppendedAll(cur[a.group], a.activities).value.activities != cur[a.group].activities) ==>
              (cur[a.group], AppendedAll(cur[a.group], a.activities).value) in MergeGroups(cur, incoming).value.changed
  {
    if incoming != [] {
      var p, l := incoming[..|incoming| - 1], incoming[|incoming| - 1];
      assert incoming == p + [l];
      assert forall a :: a in incoming <==> a in p || a == l;
      MergeGroupsChanged(cur, p);
    }
  }

  /** Every new group whose key is not current is reported as new. */
  lemma {:induction false} MergeGroupsNew(cur: map<string, L.Aggregate>, incoming: seq<L.Aggregate>)
    requires KeyedByGroup(cur) && MergeGroups(cur, incoming).Ok?
    ensures forall i :: 0 <= i < |incoming| && incoming[i].group !in cur ==> incoming[i] in MergeGroups(cur, incoming).value.newAggs
  {
    if incoming != [] {
      var p := incoming[..|incoming| - 1];
      MergeGroupsNew(cur, p);
      assert forall i :: 0 <= i < |p| ==> incoming[i] == p[i];
    }
  }

  /**
   * `merge` as intended: the ranked groups of the batch whose key is not current are new, in ranked
   * order; each current group a new one touches is reported with its grown copy.
   */
  function Merged(g: Aggregator, aggregated: seq<L.Aggregate>, acts: seq<L.Activity>): (r: Result<MergeResult>)
    ensures Aggregated(g, acts).Err? ==> r == Err(Aggregated(g, acts).error)
    ensures r.Ok? ==> forall v :: v in r.value.newAggs ==>
              v in Aggregated(g, acts).value && v.group !in CurrentByGroup(aggregated)
    ensures r.Ok? ==> forall v :: v in Aggregated(g, acts).value && v.group !in CurrentByGroup(aggregated) ==>
              v in r.value.newAggs
    ensures r.Ok? ==> forall c :: c in r.value.changed ==>
              c.0 in aggregated && c.1.group == c.0.group && c.0.activities != c.1.activities &&
              |c.0.activities| <= |c.1.activities| && c.1.activities[..|c.0.activities|] == c.0.activities
  {
    var incoming :- Aggregated(g, acts);
    CurrentByGroupFacts(aggregated);
    var cur := CurrentByGroup(aggregated);
    var m := MergeGroups(cur, incoming);
    if m.Ok? then
      MergedFacts(cur, incoming, aggregated);
      m
    else m
  }

  /** The walk's new groups are those of the batch with no current key; its changed pairs grow a current group. */
  lemma MergedFacts(cur: map<string, L.Aggregate>, incoming: seq<L.Aggregate>, aggregated: seq<L.Aggregate>)
    requires cur == CurrentByGroup(aggregated) && KeyedByGroup(cur) && MergeGroups(cur, incoming).Ok?
    ensures forall v :: v in incoming && v.group !in cur ==> v in MergeGroups(cur, incoming).value.newAggs
    ensures forall c :: c in MergeGroups(cur, incoming).value.changed ==>
              c.0 in aggregated && c.1.group == c.0.group && c.0.activities != c.1.activities &&
              |c.0.activities| <= |c.1.activities| && c.1.activities[..|c.0.activities|] == c.0.activities
  {
    MergeGroupsNew(cur, incoming);
    assert forall v :: v in incoming ==> exists i :: 0 <= i < |incoming| && incoming[i] == v;
    CurrentByGroupFacts(aggregated);
    var ch := MergeGroups(cur, incoming).value.changed;
    forall c | c in ch
      ensures c.0 in aggregated && c.1.group == c.0.group && c.0.activities != c.1.activities &&
              |c.0.activities| <= |c.1.activities| && c.1.activities[..|c.0.activities|] == c.0.activities
    {
      var i :| 0 <= i < |ch| && ch[i] == c;
    }
  }

  /** The base aggregator ranks no group, so merging with it reports nothing. */
  lemma BaseMergeIsEmpty(aggregated: seq<L.Aggregate>, acts: seq<L.Activity>)
    requires Merged(BaseAggregator, aggregated, acts).Ok?
    ensures Merged(BaseAggregator, aggregated, acts).value == MergeResult([], [])
  {
  }

  /** `merge`: walk the aggregated batch, collecting new groups and merging into copies of existing ones. */
  method Merge(g: Aggregator, aggregated: seq<L.Aggregate>, acts: seq<L.Activity>) returns (r: Result<MergeResult>)
    ensures r == Merged(g, aggregated, acts)
  {
    var cur := CurrentGroups(aggregated);
    CurrentByGroupKeyed(aggregated);
    var incoming := Aggregated(g, acts);
    if incoming.Err? {
      return Err(incoming.error);
    }
    var batch := incoming.value;
    var newAggs, changed := [], [];
    var i := 0;
    while i < |batch|
      invariant 0 <= i <= |batch|
      invariant MergeGroups(cur, batch[..i]) == Ok(MergeResult(newAggs, changed))
    {
      MergeGroupsStep(cur, batch, i);
      var agg := batch[i];
      if agg.group !in cur {
        newAggs := newAggs + [agg];
      } else {
        var after := MergeOne(cur[agg.group], agg.activities);
        if after.Err? {
          MergeGroupsErr(cur, batch, i);
          return Err(after.error);
        }
        if cur[agg.group].activities != after.value.activities {
          changed := changed + [(cur[agg.group], after.value)];
        }
      }
      i := i + 1;
    }
    assert batch[..i] == batch;
    r := Ok(MergeResult(newAggs, changed));
  }

  lemma CurrentByGroupKeyed(aggs: seq<L.Aggregate>)
    ensures KeyedByGroup(CurrentByGroup(aggs))
  {
    CurrentByGroupFacts(aggs);
  }

  /** One step of the walk over the new groups. */
  lemma MergeGroupsStep(cur: map<string, L.Aggregate>, s: seq<L.Aggregate>, i: nat)
    requires KeyedByGroup(cur) && i < |s| && MergeGroups(cur, s[..i]).Ok?
    ensures var m := MergeGroups(cur, s[..i]).value;
            MergeGroups(cur, s[..i + 1]) ==
              if s[i].group !in cur then Ok(m.(newAggs := m.newAggs + [s[i]]))
              else match AppendedAll(cur[s[i].group], s[i].activities)
                   case Err(e) => Err(e)
                   case Ok(after) =>
                     if cur[s[i].group].activities != after.activities then Ok(m.(changed := m.changed + [(cur[s[i].group], after)]))
                     else Ok(m)
  {
    assert s[..i + 1][..i] == s[..i];
  }

  /** The first loop of `merge`: index the current groups by key, later ones overriding earlier ones. */
  method CurrentGroups(aggregated: seq<L.Aggregate>) returns (cur: map<string, L.Aggregate>)
    ensures cur == CurrentByGroup(aggregated)
  {
    cur := map[];
    var j := 0;
    while j < |aggregated|
      invariant 0 <= j <= |aggregated|
      invariant cur == CurrentByGroup(aggregated[..j])
    {
      assert aggregated[..j + 1][..j] == aggregated[..j];
      cur := cur[aggregated[j].group := aggregated[j]];
      j := j + 1;
    }
    assert aggregated[..j] == aggregated;
  }

  /** An error in a prefix of the groups is the error of the whole walk. */
  lemma {:induction false} MergeGroupsErr(cur: map<string, L.Aggregate>, incoming: seq<L.Aggregate>, i: nat)
    requires KeyedByGroup(cur) && i < |incoming| && MergeGroups(cur, incoming[..i + 1]).Err?
    ensures MergeGroups(cur, incoming) == Err(MergeGroups(cur, incoming[..i + 1]).error)
    decreases |incoming|
  {
    if i + 1 < |incoming| {
      var p := incoming[..|incoming| - 1];
      assert p[..i + 1] == incoming[..i + 1];
      MergeGroupsErr(cur, p, i);
    } else {
      assert incoming[..i + 1] == incoming;
    }
  }

  /** The inner loop of `merge`: append each activity to a copy of the current group, skipping duplicates. */
  method MergeOne(before: L.Aggregate, acts: seq<L.Activity>) returns (r: Result<L.Aggregate>)
    ensures r == AppendedAll(before, acts)
  {
    var w := before;
    var i := 0;
    while i < |acts|
      invariant 0 <= i <= |acts|
      invariant AppendedAll(before, acts[..i]) == Ok(w)
    {
      assert acts[..i + 1][..i] == acts[..i];
      assert acts[..i + 1][i] == acts[i];
      var next := L.Appended(w, acts[i]);
      if next.Err? && next.error != DuplicateActivity {
        AppendedAllErr(before, acts, i);
        return Err(next.error);
      }
      if next.Ok? {
        w := next.value;
      }
      i := i + 1;
    }
    assert acts[..i] == acts;
    r := Ok(w);
  }

  lemma {:induction false} AppendedAllErr(v: L.Aggregate, acts: seq<L.Activity>, i: nat)
    requires i < |acts| && AppendedAll(v, acts[..i + 1]).Err?
    ensures AppendedAll(v, acts) == Err(AppendedAll(v, acts[..i + 1]).error)
    decreases |acts|
  {
    if i + 1 < |acts| {
      var p := acts[..|acts| - 1];
      assert p[..i + 1] == acts[..i + 1];
      AppendedAllErr(v, p, i);
    } else {
      assert acts[..i + 1] == acts;
    }
  }
}
