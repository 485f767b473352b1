/** When removing an uploaded edition from its timeline undoes the upload, and which expiry dates it loses. */
module TimelineUndo {
  import opened Outcomes
  import opened ActCommands
  import opened Timeline

  // ---------- Sorting with one edition more ----------

  lemma FirstComesFirst(versions: Versions, v: Version)
    requires InOrder(versions) && v in versions
    ensures v == versions[0] || Before(versions[0], v)
  {
  }

  lemma WithoutFirst(versions: Versions)
    requires versions != []
    ensures multiset(versions[1..]) == multiset(versions) - multiset{versions[0]}
  {
    assert versions == [versions[0]] + versions[1..];
  }

  lemma SameFirst(a: Versions, b: Versions)
    requires InOrder(a) && InOrder(b) && multiset(a) == multiset(b) && a != [] && b != []
    ensures a[0] == b[0]
  {
    assert a[0] in multiset(b) && b[0] in multiset(a);
    FirstComesFirst(a, b[0]);
    FirstComesFirst(b, a[0]);
  }

  /** A set of editions has one order only. */
  lemma {:induction false} OrderIsUnique(a: Versions, b: Versions)
    requires InOrder(a) && InOrder(b) && multiset(a) == multiset(b)
    ensures a == b
    decreases |a|
  {
    assert |multiset(a)| == |a| && |multiset(b)| == |b|;
    if a == [] {
    } else {
      SameFirst(a, b);
      WithoutFirst(a);
      WithoutFirst(b);
      OrderIsUnique(a[1..], b[1..]);
      assert a == [a[0]] + a[1..] && b == [b[0]] + b[1..];
    }
  }

  /** How many editions of an order come before v. */
  function Rank(v: Version, sorted: Versions): (p: nat)
    ensures p <= |sorted|
    ensures forall i :: 0 <= i < p ==> !Before(v, sorted[i])
    ensures p < |sorted| ==> Before(v, sorted[p])
  {
    if sorted == [] || Before(v, sorted[0]) then 0 else Rank(v, sorted[1..]) + 1
  }

  lemma {:induction false} PlacedAt(v: Version, sorted: Versions, k: nat)
    requires k <= |sorted|
    ensures |Placed(v, sorted)| == |sorted| + 1
    ensures var p := Rank(v, sorted);
            Placed(v, sorted)[k] == if k < p then sorted[k] else if k == p then v else sorted[k - 1]
    decreases |sorted|
  {
    if sorted == [] {
    } else if !Before(v, sorted[0]) {
      PlacedAt(v, sorted[1..], if k == 0 then 0 else k - 1);
    }
  }

  lemma SortedWithOneMore(versions: Versions, v: Version)
    requires DistinctIds(versions + [v])
    ensures Sorted(versions + [v]) == Placed(v, Sorted(versions))
  {
    var all := versions + [v];
    assert forall i :: 0 <= i < |versions| ==> all[i] == versions[i] && all[i].id != all[|versions|].id;
    assert DistinctIds(versions);
    SortedInOrder(all);
    SortedInOrder(versions);
    SortedMembers(all);
    SortedMembers(versions);
    forall w | w in Sorted(versions) ensures w.id != v.id {
      var i :| 0 <= i < |versions| && versions[i] == w;
    }
    PlacedInOrder(v, Sorted(versions));
    PlacedMembers(v, Sorted(versions));
    OrderIsUnique(Sorted(all), Placed(v, Sorted(versions)));
  }

  /** What placing an edition that starts on `start`, if it has a start, does to another edition. */
  function BoundFor(w: Version, start: Option<Date>, cur: bool): Version {
    if start.Some? then BoundAt(w, start.value, cur) else w
  }

  /** `bounded` is `versions` after closing and demoting. */
  predicate IsBounded(versions: Versions, bounded: Versions, start: Option<Date>, cur: bool) {
    |bounded| == |versions| && forall i :: 0 <= i < |versions| ==> bounded[i] == BoundFor(versions[i], start, cur)
  }

  /** Closing and demoting leaves the order as it is. */
  lemma {:induction false} BoundedPlaced(v: Version, sorted: Versions, bounded: Versions, start: Option<Date>,
                                         cur: bool)
    requires IsBounded(sorted, bounded, start, cur)
    ensures IsBounded(Placed(v, sorted), Placed(BoundFor(v, start, cur), bounded), start, cur)
    decreases |sorted|
  {
    if sorted == [] {
    } else if !Before(v, sorted[0]) {
      BoundedPlaced(v, sorted[1..], bounded[1..], start, cur);
    }
  }

  lemma {:induction false} BoundedSorted(versions: Versions, bounded: Versions, start: Option<Date>, cur: bool)
    requires IsBounded(versions, bounded, start, cur)
    ensures IsBounded(Sorted(versions), Sorted(bounded), start, cur)
    decreases |versions|
  {
    if versions == [] {
    } else {
      BoundedSorted(versions[1..], bounded[1..], start, cur);
      BoundedPlaced(versions[0], Sorted(versions[1..]), Sorted(bounded[1..]), start, cur);
    }
  }

  predicate Newest(v: Version, versions: Versions) {
    forall w :: w in versions ==> w.id < v.id
  }

  /** p editions of an order come before v. */
  predicate IsRank(v: Version, sorted: Versions, p: nat) {
    p <= |sorted| && forall i :: 0 <= i < |sorted| ==> (i < p <==> !Before(v, sorted[i]))
  }

  lemma RankIsRank(v: Version, sorted: Versions)
    requires InOrder(sorted)
    ensures IsRank(v, sorted, Rank(v, sorted))
  {
    var p := Rank(v, sorted);
    assert forall i :: p < i < |sorted| ==> Before(sorted[p], sorted[i]);
  }

  lemma BoundedInOrder(ordered: Versions, bounded: Versions, start: Option<Date>, cur: bool)
    requires InOrder(ordered) && IsBounded(ordered, bounded, start, cur)
    ensures InOrder(bounded)
  {
    forall i, j | 0 <= i < j < |bounded| ensures Before(bounded[i], bounded[j]) {
      assert Before(ordered[i], ordered[j]);
    }
  }

  /** `after` is `sorted` with v behind its first p editions. */
  predicate IsPlaced(v: Version, sorted: Versions, after: Versions, p: nat) {
    && p <= |sorted| && |after| == |sorted| + 1 && after[p] == v
    && (forall i :: 0 <= i < p ==> after[i] == sorted[i])
    && (forall i :: p <= i < |sorted| ==> after[i + 1] == sorted[i])
  }

  lemma PlacedIsPlaced(v: Version, sorted: Versions)
    ensures IsPlaced(v, sorted, Placed(v, sorted), Rank(v, sorted))
  {
    PlacedAt(v, sorted, 0);
    forall k | 0 <= k <= |sorted|
      ensures var p := Rank(v, sorted);
              Placed(v, sorted)[k] == if k < p then sorted[k] else if k == p then v else sorted[k - 1]
    {
      PlacedAt(v, sorted, k);
    }
  }

  lemma NewestIsDistinct(versions: Versions, bounded: Versions, v: Version, cur: bool)
    requires DistinctIds(versions) && Newest(v, versions) && IsBounded(versions, bounded, v.starts, cur)
    ensures DistinctIds(bounded + [v])
  {
    var all := bounded + [v];
    forall i, j | 0 <= i < j < |all| ensures all[i].id != all[j].id {
      assert versions[i] in versions;
      if j < |versions| {
        assert versions[i].id != versions[j].id;
      }
    }
  }

  /** The order of the timeline with the new edition in it. */
  lemma UploadOrder(versions: Versions, bounded: Versions, v: Version, cur: bool) returns (p: nat)
    requires IsBounded(versions, bounded, v.starts, cur) && DistinctIds(versions) && Newest(v, versions)
    ensures InOrder(Sorted(versions)) && IsBounded(Sorted(versions), Sorted(bounded), v.starts, cur)
    ensures IsRank(v, Sorted(bounded), p) && IsPlaced(v, Sorted(bounded), Sorted(bounded + [v]), p)
    ensures DistinctIds(bounded + [v])
  {
    NewestIsDistinct(versions, bounded, v, cur);
    SortedInOrder(versions);
    BoundedSorted(versions, bounded, v.starts, cur);
    BoundedInOrder(Sorted(versions), Sorted(bounded), v.starts, cur);
    RankIsRank(v, Sorted(bounded));
    SortedWithOneMore(bounded, v);
    PlacedIsPlaced(v, Sorted(bounded));
    p := Rank(v, Sorted(bounded));
  }

  // ---------- The end that is recovered ----------

  /**
   Placing an edition that starts on `start` and removing it again leaves position i its end.  An edition that is
   not the last one before `start` is capped by its neighbour anyway, if that has a start date.  The last one loses
   an expiry of its own that lies on `start` or later, unless its old neighbour starts no later than that.
   */
  predicate KeepsItsEnd(ordered: Versions, i: nat, start: Option<Date>)
    requires i < |ordered|
  {
    var end, next := ordered[i].ends, Boundary(ordered, i);
    || start.None? || start.value < Key(ordered[i])
    || if i + 1 < |ordered| && Key(ordered[i + 1]) <= start.value then next.Some? || EndedBy(end, start.value)
       else end.None? || end.value < start.value || EndedBy(next, end.value)
  }

  /** An end that equals the next start is dropped. */
  function WithoutDerived(end: Option<Date>, next: Option<Date>): Option<Date> {
    if end == next then None else end
  }

  lemma ExplicitByBoundary(ordered: Versions, i: nat)
    requires i < |ordered|
    ensures ExplicitEnd(ordered, i) == WithoutDerived(ordered[i].ends, Boundary(ordered, i))
  {
  }

  lemma PlacedBoundary(v: Version, sorted: Versions, after: Versions, p: nat, i: nat)
    requires IsPlaced(v, sorted, after, p) && i < |sorted|
    ensures var k := if i < p then i else i + 1;
            after[k] == sorted[i] && Boundary(after, k) == if i + 1 == p then v.starts else Boundary(sorted, i)
  {
    if i >= p && i + 1 < |sorted| {
      assert after[i + 1 + 1] == sorted[i + 1];
    }
  }

  /** The position of v among the others, seen from the start dates alone. */
  lemma RankByStart(ordered: Versions, bounded: Versions, v: Version, cur: bool, p: nat, i: nat)
    requires IsBounded(ordered, bounded, v.starts, cur) && IsRank(v, bounded, p) && Newest(v, ordered)
    requires i < |ordered|
    ensures i < p <==> Key(ordered[i]) <= Key(v)
  {
    assert ordered[i] in ordered;
  }

  /** Dates alone: the end after closing at `start` and reopening, against the old one. */
  lemma ReopenedEnd(end: Option<Date>, next: Option<Date>, start: Date)
    ensures var closed := if EndedBy(end, start) then end else Some(start);
            && (EarlierOf(WithoutDerived(closed, next), next) == EarlierOf(end, next)
                <==> EndedBy(end, start) || EndedBy(next, start))
            && (!EndedBy(next, start) ==>
                  (EarlierOf(WithoutDerived(closed, Some(start)), next) == EarlierOf(end, next)
                   <==> end.None? || end.value < start || EndedBy(next, end.value)))
  {
  }

  lemma DerivedMakesNoDifference(end: Option<Date>, next: Option<Date>)
    ensures EarlierOf(WithoutDerived(end, next), next) == EarlierOf(end, next)
  {
  }

  /** Position i is rebuilt as it would have been without v if and only if it keeps its end. */
  lemma EndRecovered(ordered: Versions, bounded: Versions, after: Versions, v: Version, cur: bool, p: nat, i: nat)
    requires InOrder(ordered) && Newest(v, ordered) && i < |ordered|
    requires IsBounded(ordered, bounded, v.starts, cur) && IsRank(v, bounded, p) && IsPlaced(v, bounded, after, p)
    ensures var k := if i < p then i else i + 1;
            && after[k] == bounded[i] && Boundary(bounded, i) == Boundary(ordered, i)
            && (EarlierOf(ExplicitEnd(after, k), Boundary(ordered, i))
                == EarlierOf(ExplicitEnd(ordered, i), Boundary(ordered, i))
                <==> KeepsItsEnd(ordered, i, v.starts))
  {
    var k, next := if i < p then i else i + 1, Boundary(ordered, i);
    PlacedBoundary(v, bounded, after, p, i);
    ExplicitByBoundary(after, k);
    ExplicitByBoundary(ordered, i);
    DerivedMakesNoDifference(ordered[i].ends, next);
    RankByStart(ordered, bounded, v, cur, p, i);
    if i + 1 < |ordered| {
      RankByStart(ordered, bounded, v, cur, p, i + 1);
      assert Before(ordered[i], ordered[i + 1]);
    }
    if v.starts.Some? {
      ReopenedEnd(ordered[i].ends, next, v.starts.value);
    }
  }

  // ---------- Undoing ----------

  lemma EndInMap(versions: Versions, k: nat)
    requires DistinctIds(versions) && k < |Sorted(versions)|
    ensures var w := Sorted(versions)[k];
            w.id in ExplicitEnds(versions) && ExplicitEnds(versions)[w.id] == ExplicitEnd(Sorted(versions), k)
  {
    SortedDistinct(versions);
    EndsAt(Sorted(versions), |Sorted(versions)|, k);
  }

  /** With the ends `b` position i is closed as with `a` if and only if it keeps its end. */
  predicate Recovers(ordered: Versions, a: Ends, b: Ends, start: Option<Date>, i: nat)
    requires i < |ordered|
  {
    var id, next := ordered[i].id, Boundary(ordered, i);
    id in a && id in b && (EarlierOf(b[id], next) == EarlierOf(a[id], next) <==> KeepsItsEnd(ordered, i, start))
  }

  lemma EndsInOrder(ordered: Versions, bounded: Versions, after: Versions, v: Version, cur: bool, p: nat, i: nat,
                    a: Ends, b: Ends)
    requires InOrder(ordered) && Newest(v, ordered) && i < |ordered|
    requires IsBounded(ordered, bounded, v.starts, cur) && IsRank(v, bounded, p) && IsPlaced(v, bounded, after, p)
    requires var k := if i < p then i else i + 1;
             && ordered[i].id in a && a[ordered[i].id] == ExplicitEnd(ordered, i)
             && after[k].id in b && b[after[k].id] == ExplicitEnd(after, k)
    ensures Recovers(ordered, a, b, v.starts, i)
  {
    EndRecovered(ordered, bounded, after, v, cur, p, i);
    assert bounded[i] == BoundFor(ordered[i], v.starts, cur);
  }

  lemma NewestInOrder(versions: Versions, v: Version)
    requires Newest(v, versions)
    ensures Newest(v, Sorted(versions))
  {
    SortedMembers(versions);
  }

  lemma EndsRecover(versions: Versions, bounded: Versions, v: Version, cur: bool, i: nat)
    requires DistinctIds(versions) && Newest(v, versions) && IsBounded(versions, bounded, v.starts, cur)
    requires i < |Sorted(versions)|
    ensures Recovers(Sorted(versions), ExplicitEnds(versions), ExplicitEnds(bounded + [v]), v.starts, i)
  {
    var p := UploadOrder(versions, bounded, v, cur);
    NewestInOrder(versions, v);
    EndInMap(versions, i);
    EndInMap(bounded + [v], if i < p then i else i + 1);
    EndsInOrder(Sorted(versions), Sorted(bounded), Sorted(bounded + [v]), v, cur, p, i,
                ExplicitEnds(versions), ExplicitEnds(bounded + [v]));
  }

  lemma ClosedAlike(ordered: Versions, bounded: Versions, start: Option<Date>, cur: bool, a: Ends, b: Ends, i: nat)
    requires IsBounded(ordered, bounded, start, cur) && Covered(ordered, a) && Covered(bounded, b) && i < |ordered|
    requires Recovers(ordered, a, b, start, i)
    ensures var before, after := ClosedAt(ordered, a, i), ClosedAt(bounded, b, i);
            && after == before.(ends := after.ends)
            && (after.ends == before.ends <==> KeepsItsEnd(ordered, i, start))
  {
    assert bounded[i] == BoundFor(ordered[i], start, cur);
    assert Boundary(bounded, i) == Boundary(ordered, i);
  }

  lemma {:induction false} WithoutTheNewest(versions: Versions, v: Version)
    requires forall w :: w in versions ==> w.id != v.id
    ensures Without(versions + [v], v.id) == versions
  {
    assert (versions + [v])[..|versions|] == versions;
    NothingWithout(versions, v.id);
  }

  lemma {:induction false} NothingWithout(versions: Versions, id: nat)
    requires forall w :: w in versions ==> w.id != id
    ensures Without(versions, id) == versions
  {
    if versions == [] {
    } else {
      NothingWithout(versions[..|versions| - 1], id);
    }
  }

  /** Promotion does not touch ends, so rebuilt timelines agree exactly when they were closed alike. */
  lemma PromotedApart(a: Versions, b: Versions, today: Date, i: nat)
    requires |a| == |b| && i < |a| && a[i].ends != b[i].ends
    ensures Promoted(a, today) != Promoted(b, today)
  {
    assert Promoted(a, today)[i].ends == a[i].ends && Promoted(b, today)[i].ends == b[i].ends;
  }

  predicate AllKeepTheirEnds(ordered: Versions, start: Option<Date>) {
    forall i :: 0 <= i < |ordered| ==> KeepsItsEnd(ordered, i, start)
  }

  lemma CoveredByBoth(versions: Versions, bounded: Versions, v: Version, cur: bool)
    requires IsBounded(versions, bounded, v.starts, cur) && Newest(v, versions)
    ensures Covered(bounded, ExplicitEnds(bounded + [v]))
    ensures Without(bounded + [v], v.id) == bounded
  {
    forall w | w in bounded ensures w in bounded + [v] && w.id != v.id {
      var i :| 0 <= i < |bounded| && bounded[i] == w;
      assert versions[i] in versions;
    }
    WithoutTheNewest(bounded, v);
  }

  lemma AllClosedAlike(ordered: Versions, bounded: Versions, start: Option<Date>, cur: bool, a: Ends, b: Ends,
                       today: Date)
    requires IsBounded(ordered, bounded, start, cur) && Covered(ordered, a) && Covered(bounded, b)
    requires forall i :: 0 <= i < |ordered| ==> Recovers(ordered, a, b, start, i)
    ensures var before, after := ClosedUpTo(ordered, a, |ordered|), ClosedUpTo(bounded, b, |bounded|);
            && (AllKeepTheirEnds(ordered, start) ==> after == before)
            && (!AllKeepTheirEnds(ordered, start) ==> Promoted(after, today) != Promoted(before, today))
  {
    var before, after := ClosedUpTo(ordered, a, |ordered|), ClosedUpTo(bounded, b, |bounded|);
    forall i | 0 <= i < |ordered|
      ensures after[i] == before[i].(ends := after[i].ends)
      ensures after[i].ends == before[i].ends <==> KeepsItsEnd(ordered, i, start)
    {
      ClosedAlike(ordered, bounded, start, cur, a, b, i);
    }
    if i :| 0 <= i < |ordered| && !KeepsItsEnd(ordered, i, start) {
      PromotedApart(after, before, today, i);
    }
  }

  lemma RebuiltAlike(versions: Versions, bounded: Versions, a: Ends, b: Ends, v: Version, cur: bool, today: Date)
    requires IsBounded(versions, bounded, v.starts, cur) && Covered(versions, a) && Covered(bounded, b)
    requires forall i :: 0 <= i < |Sorted(versions)| ==> Recovers(Sorted(versions), a, b, v.starts, i)
    requires Rebuild(versions, a, today).Some?
    ensures Rebuild(bounded, b, today) == Rebuild(versions, a, today)
            <==> AllKeepTheirEnds(Sorted(versions), v.starts)
  {
    SortedMembers(versions);
    SortedMembers(bounded);
    BoundedSorted(versions, bounded, v.starts, cur);
    AllClosedAlike(Sorted(versions), Sorted(bounded), v.starts, cur, a, b, today);
  }

  /**
   Uploading an edition, dated or not, and removing it again leaves what rebuilding the old timeline gives, if and
   only if every edition keeps its end.
   */
  lemma RemovalUndoesUpload(versions: Versions, v: Version, today: Date)
    requires DistinctIds(versions) && Newest(v, versions)
    requires Rebuild(versions, ExplicitEnds(versions), today).Some?
    ensures Removed(WithBoundary(versions, v.starts, today) + [v], v.id, today)
            == Rebuild(versions, ExplicitEnds(versions), today)
            <==> AllKeepTheirEnds(Sorted(versions), v.starts)
  {
    var cur, bounded := IsLatest(versions, v.starts, today), WithBoundary(versions, v.starts, today);
    var a, b := ExplicitEnds(versions), ExplicitEnds(bounded + [v]);
    CoveredByBoth(versions, bounded, v, cur);
    forall i | 0 <= i < |Sorted(versions)| ensures Recovers(Sorted(versions), a, b, v.starts, i) {
      EndsRecover(versions, bounded, v, cur, i);
    }
    RebuiltAlike(versions, bounded, a, b, v, cur, today);
  }

  /** Every edition ends where the next one starts. */
  predicate AllDerived(ordered: Versions) {
    forall i :: 0 <= i < |ordered| ==> ordered[i].ends == Boundary(ordered, i)
  }

  /** Nothing is lost from a timeline of dated editions without an expiry of their own. */
  lemma DerivedEndsAreKept(ordered: Versions, start: Option<Date>)
    requires AllDerived(ordered) && DatedAfterFirst(ordered)
    ensures AllKeepTheirEnds(ordered, start)
  {
  }

  lemma OneRebuilt(w: Version, ends: Ends, today: Date)
    requires w.id in ends && (w.starts.None? || ends[w.id].None? || w.starts.value <= ends[w.id].value)
    ensures Rebuild([w], ends, today).Some?
    ensures var result := Rebuild([w], ends, today).value; |result| == 1 && result[0].ends == ends[w.id]
  {
    SortingSorted([w]);
    assert ClosedUpTo([w], ends, 1)[0] == ClosedAt([w], ends, 0);
  }

  lemma FirstEnd(w: Version, rest: Versions)
    requires InOrder([w] + rest) && DistinctIds([w] + rest)
    ensures w.id in ExplicitEnds([w] + rest) && ExplicitEnds([w] + rest)[w.id] == ExplicitEnd([w] + rest, 0)
  {
    SortingSorted([w] + rest);
    EndInMap([w] + rest, 0);
  }

  /** A closed edition is reopened when the one that closed it goes. */
  lemma Reopened(closed: Version, v: Version, today: Date)
    requires closed.id != v.id && Before(closed, v) && closed.ends == v.starts
    ensures var left := Removed([closed] + [v], v.id, today);
            left.Some? && |left.value| == 1 && left.value[0].ends == None
  {
    FirstEnd(closed, [v]);
    WithoutTheNewest([closed], v);
    OneRebuilt(closed, ExplicitEnds([closed] + [v]), today);
  }

  /** In force from day 1 to an expiry on day 10; an upload for day 5, withdrawn again, has removed the expiry. */
  lemma ExpiryIsLost(a: Version, v: Version, today: Date)
    requires a.id < v.id && a.starts == Some(1) && a.ends == Some(10) && v.starts == Some(5)
    ensures var kept, left := Rebuild([a], ExplicitEnds([a]), today),
                              Removed(WithBoundary([a], Some(5), today) + [v], v.id, today);
            && kept.Some? && |kept.value| == 1 && kept.value[0].ends == Some(10)
            && left.Some? && |left.value| == 1 && left.value[0].ends == None
  {
    var closed := BoundAt(a, 5, IsLatest([a], Some(5), today));
    assert [a] == [a] + [];
    FirstEnd(a, []);
    OneRebuilt(a, ExplicitEnds([a]), today);
    Reopened(closed, v, today);
    assert WithBoundary([a], Some(5), today) == [closed];
  }
}
