/** ActVersionTimeline of domain/knowledge/acts/timeline.py: the editions of one act and their periods of validity. */
module Timeline {
  import opened Outcomes

  /** Days counted from date.min, which is day 1. */
  type Date = day: nat | day >= 1 witness 1

  const FIRST_DAY: Date := 1

  datatype DateSource = Extracted | ExtractedTrusted | Manual

  /** An edition of an act, valid from `starts` up to but excluding `ends`. */
  datatype Version = Version(
    id: nat, act: Option<nat>, document: nat,
    starts: Option<Date>, ends: Option<Date>, current: bool,
    source: DateSource, confidence: Option<real>, verifiedBy: Option<nat>, verifiedAt: Option<nat>)

  type Versions = seq<Version>

  predicate DatesValid(v: Version) {
    v.starts.None? || v.ends.None? || v.starts.value <= v.ends.value
  }

  predicate ExplicitEndValid(v: Version, end: Option<Date>) {
    v.starts.None? || end.None? || v.starts.value < end.value
  }

  predicate InForce(v: Version, day: Date) {
    (v.starts.None? || v.starts.value <= day) && (v.ends.None? || day < v.ends.value)
  }

  predicate DistinctIds(versions: Versions) {
    forall i, j :: 0 <= i < j < |versions| ==> versions[i].id != versions[j].id
  }

  // ---------- Where a new start date falls ----------

  function LaterOf(a: Option<Date>, b: Option<Date>): Option<Date> {
    if a.None? then b else if b.None? then a else if a.value < b.value then b else a
  }

  function EarlierOf(a: Option<Date>, b: Option<Date>): Option<Date> {
    if a.None? then b else if b.None? then a else if b.value < a.value then b else a
  }

  /** The latest start that is not after `day`. */
  function LatestStart(versions: Versions, day: Date): (latest: Option<Date>)
    ensures latest.Some? ==> latest.value <= day && exists v :: v in versions && v.starts == latest
    ensures forall v :: v in versions && v.starts.Some? && v.starts.value <= day ==>
              latest.Some? && v.starts.value <= latest.value
  {
    if versions == [] then None
    else
      var last := versions[|versions| - 1];
      var earlier := LatestStart(versions[..|versions| - 1], day);
      assert versions == versions[..|versions| - 1] + [last];
      if last.starts.Some? && last.starts.value <= day then LaterOf(earlier, last.starts) else earlier
  }

  predicate AnyCurrent(versions: Versions) {
    exists v :: v in versions && v.current
  }

  predicate IsLatest(versions: Versions, start: Option<Date>, today: Date) {
    match start
    case None => !AnyCurrent(versions)
    case Some(day) =>
      && day <= today
      && var latest := LatestStart(versions, today);
         latest.None? || latest.value <= day
  }

  /** The earliest start after `start`. */
  function SuccessorDate(versions: Versions, start: Option<Date>): (next: Option<Date>)
    ensures next.Some? ==> start.Some? && start.value < next.value && exists v :: v in versions && v.starts == next
    ensures forall v :: v in versions && start.Some? && v.starts.Some? && start.value < v.starts.value ==>
              next.Some? && next.value <= v.starts.value
  {
    if versions == [] || start.None? then None
    else
      var last := versions[|versions| - 1];
      var earlier := SuccessorDate(versions[..|versions| - 1], start);
      assert versions == versions[..|versions| - 1] + [last];
      if last.starts.Some? && start.value < last.starts.value then EarlierOf(earlier, last.starts) else earlier
  }

  // ---------- Inserting a boundary ----------

  function BoundAt(v: Version, day: Date, newIsCurrent: bool): Version {
    var closed :=
      if (v.starts.None? || v.starts.value <= day) && (v.ends.None? || v.ends.value > day) then v.(ends := Some(day))
      else v;
    if newIsCurrent && closed.current then closed.(current := false) else closed
  }

  function Bounded(versions: Versions, day: Date, newIsCurrent: bool): (result: Versions)
    ensures |result| == |versions|
    ensures forall i :: 0 <= i < |versions| ==> result[i] == BoundAt(versions[i], day, newIsCurrent)
  {
    if versions == [] then []
    else Bounded(versions[..|versions| - 1], day, newIsCurrent) + [BoundAt(versions[|versions| - 1], day, newIsCurrent)]
  }

  /** insert_boundary: close the editions covering the new date, and demote them when the new one is current. */
  function WithBoundary(versions: Versions, start: Option<Date>, today: Date): Versions {
    match start
    case None => versions
    case Some(day) => Bounded(versions, day, IsLatest(versions, start, today))
  }

  method InsertBoundary(versions: Versions, start: Option<Date>, today: Date) returns (result: Versions)
    ensures result == WithBoundary(versions, start, today)
  {
    result := versions;
    if start.None? {
      return;
    }
    var day := start.value;
    var newIsCurrent := IsLatest(versions, start, today);
    for i := 0 to |versions|
      invariant |result| == |versions|
      invariant forall j :: 0 <= j < |versions| ==>
                  result[j] == if j < i then BoundAt(versions[j], day, newIsCurrent) else versions[j]
    {
      var v := result[i];
      if (v.starts.None? || v.starts.value <= day) && (v.ends.None? || v.ends.value > day) {
        v := v.(ends := Some(day));
      }
      if newIsCurrent && v.current {
        v := v.(current := false);
      }
      result := result[i := v];
    }
    assert result == Bounded(versions, day, newIsCurrent);
  }

  // ---------- Order ----------

  function Key(v: Version): Date {
    if v.starts.Some? then v.starts.value else FIRST_DAY
  }

  predicate Before(a: Version, b: Version) {
    Key(a) < Key(b) || (Key(a) == Key(b) && a.id < b.id)
  }

  predicate InOrder(versions: Versions) {
    forall i, j :: 0 <= i < j < |versions| ==> Before(versions[i], versions[j])
  }

  function Placed(v: Version, sorted: Versions): Versions {
    if sorted == [] then [v]
    else if Before(v, sorted[0]) then [v] + sorted
    else [sorted[0]] + Placed(v, sorted[1..])
  }

  /** sorted(versions, key=order_key). */
  function Sorted(versions: Versions): Versions {
    if versions == [] then [] else Placed(versions[0], Sorted(versions[1..]))
  }

  lemma {:induction false} PlacedMembers(v: Version, sorted: Versions)
    ensures multiset(Placed(v, sorted)) == multiset(sorted) + multiset{v}
    ensures |Placed(v, sorted)| == |sorted| + 1
  {
    if sorted != [] {
      assert sorted == [sorted[0]] + sorted[1..];
      if !Before(v, sorted[0]) {
        PlacedMembers(v, sorted[1..]);
      }
    }
  }

  lemma {:induction false} SortedMembers(versions: Versions)
    ensures multiset(Sorted(versions)) == multiset(versions)
    ensures |Sorted(versions)| == |versions|
    ensures forall v :: v in Sorted(versions) <==> v in versions
  {
    if versions == [] {
    } else {
      assert versions == [versions[0]] + versions[1..];
      SortedMembers(versions[1..]);
      PlacedMembers(versions[0], Sorted(versions[1..]));
    }
    forall v ensures v in Sorted(versions) <==> v in versions {
      assert v in Sorted(versions) <==> v in multiset(Sorted(versions));
      assert v in versions <==> v in multiset(versions);
    }
  }

  lemma {:induction false} PlacedInOrder(v: Version, sorted: Versions)
    requires InOrder(sorted) && forall w :: w in sorted ==> w.id != v.id
    ensures InOrder(Placed(v, sorted))
  {
    if sorted == [] {
    } else if !Before(v, sorted[0]) {
      var head, rest := sorted[0], Placed(v, sorted[1..]);
      PlacedInOrder(v, sorted[1..]);
      PlacedMembers(v, sorted[1..]);
      forall i | 0 <= i < |rest| ensures Before(head, rest[i]) {
        assert rest[i] in multiset(rest);
        if rest[i] != v {
          assert rest[i] in sorted[1..];
        }
      }
    }
  }

  lemma {:induction false} SortedInOrder(versions: Versions)
    requires DistinctIds(versions)
    ensures InOrder(Sorted(versions))
  {
    if versions == [] {
    } else {
      SortedInOrder(versions[1..]);
      SortedMembers(versions[1..]);
      PlacedInOrder(versions[0], Sorted(versions[1..]));
    }
  }

  lemma {:induction false} PlacedDistinct(v: Version, sorted: Versions)
    requires DistinctIds(sorted) && forall w :: w in sorted ==> w.id != v.id
    ensures DistinctIds(Placed(v, sorted))
  {
    if sorted == [] {
    } else if !Before(v, sorted[0]) {
      var head, rest := sorted[0], Placed(v, sorted[1..]);
      PlacedDistinct(v, sorted[1..]);
      PlacedMembers(v, sorted[1..]);
      forall i | 0 <= i < |rest| ensures head.id != rest[i].id {
        assert rest[i] in multiset(rest);
        if rest[i] != v {
          assert rest[i] in sorted[1..];
        }
      }
    }
  }

  lemma {:induction false} SortedDistinct(versions: Versions)
    requires DistinctIds(versions)
    ensures DistinctIds(Sorted(versions))
  {
    if versions == [] {
    } else {
      SortedDistinct(versions[1..]);
      SortedMembers(versions[1..]);
      PlacedDistinct(versions[0], Sorted(versions[1..]));
    }
  }

  // ---------- Rebuilding adjacency ----------

  type Ends = map<nat, Option<Date>>

  function Boundary(ordered: Versions, i: nat): Option<Date>
    requires i < |ordered|
  {
    if i + 1 < |ordered| then ordered[i + 1].starts else None
  }

  /** An end equal to the successor's start is derived; any other is an explicit expiry. */
  function ExplicitEnd(ordered: Versions, i: nat): Option<Date>
    requires i < |ordered|
  {
    if i + 1 < |ordered| && ordered[i].ends == ordered[i + 1].starts then None else ordered[i].ends
  }

  function EndsUpTo(ordered: Versions, n: nat): (ends: Ends)
    requires n <= |ordered|
    ensures forall id :: id in ends <==> exists i :: 0 <= i < n && ordered[i].id == id
  {
    if n == 0 then map[] else EndsUpTo(ordered, n - 1)[ordered[n - 1].id := ExplicitEnd(ordered, n - 1)]
  }

  function ExplicitEnds(versions: Versions): (ends: Ends)
    ensures forall v :: v in versions ==> v.id in ends
  {
    SortedMembers(versions);
    EndsUpTo(Sorted(versions), |Sorted(versions)|)
  }

  lemma {:induction false} EndsAt(ordered: Versions, n: nat, i: nat)
    requires i < n <= |ordered| && DistinctIds(ordered)
    ensures EndsUpTo(ordered, n)[ordered[i].id] == ExplicitEnd(ordered, i)
  {
    if i < n - 1 {
      EndsAt(ordered, n - 1, i);
      assert ordered[i].id != ordered[n - 1].id;
    }
  }

  predicate Covered(versions: Versions, ends: Ends) {
    forall v :: v in versions ==> v.id in ends
  }

  function ClosedAt(ordered: Versions, ends: Ends, i: nat): Version
    requires i < |ordered| && Covered(ordered, ends)
  {
    ordered[i].(ends := EarlierOf(ends[ordered[i].id], Boundary(ordered, i)), current := false)
  }

  function ClosedUpTo(ordered: Versions, ends: Ends, n: nat): (closed: Versions)
    requires n <= |ordered| && Covered(ordered, ends)
    ensures |closed| == n && forall i :: 0 <= i < n ==> closed[i] == ClosedAt(ordered, ends, i)
  {
    if n == 0 then [] else ClosedUpTo(ordered, ends, n - 1) + [ClosedAt(ordered, ends, n - 1)]
  }

  predicate AllValid(versions: Versions) {
    forall i :: 0 <= i < |versions| ==> DatesValid(versions[i])
  }

  function LastInForce(versions: Versions, day: Date): (k: Option<nat>)
    ensures k.None? ==> forall i :: 0 <= i < |versions| ==> !InForce(versions[i], day)
    ensures k.Some? ==> k.value < |versions| && InForce(versions[k.value], day)
    ensures k.Some? ==> forall i :: k.value < i < |versions| ==> !InForce(versions[i], day)
  {
    if versions == [] then None
    else if InForce(versions[|versions| - 1], day) then Some(|versions| - 1)
    else LastInForce(versions[..|versions| - 1], day)
  }

  function Promoted(versions: Versions, today: Date): Versions {
    match LastInForce(versions, today)
    case None => versions
    case Some(k) => versions[k := versions[k].(current := true)]
  }

  /** rebuild: None is the ValidationError of an edition that would end before it starts. */
  function Rebuild(versions: Versions, ends: Ends, today: Date): Option<Versions>
    requires Covered(versions, ends)
  {
    SortedMembers(versions);
    var ordered := Sorted(versions);
    var closed := ClosedUpTo(ordered, ends, |ordered|);
    if AllValid(closed) then Some(Promoted(closed, today)) else None
  }

  method CloseEach(ordered: Versions, ends: Ends) returns (result: Option<Versions>)
    requires Covered(ordered, ends)
    ensures var closed := ClosedUpTo(ordered, ends, |ordered|);
            result == if AllValid(closed) then Some(closed) else None
  {
    ghost var closed := ClosedUpTo(ordered, ends, |ordered|);
    var rebuilt := ordered;
    for i := 0 to |ordered|
      invariant |rebuilt| == |ordered|
      invariant forall j :: 0 <= j < |ordered| ==> rebuilt[j] == if j < i then closed[j] else ordered[j]
      invariant forall j :: 0 <= j < i ==> DatesValid(closed[j])
    {
      var boundary := if i + 1 < |ordered| then ordered[i + 1].starts else None;
      var end := EarlierOf(ends[ordered[i].id], boundary);
      var v := rebuilt[i].(ends := end, current := false);
      assert v == closed[i];
      if !DatesValid(v) {
        return None;
      }
      rebuilt := rebuilt[i := v];
    }
    assert rebuilt == closed;
    result := Some(rebuilt);
  }

  method FindLastInForce(versions: Versions, day: Date) returns (last: Option<nat>)
    ensures last == LastInForce(versions, day)
  {
    last := None;
    for i := 0 to |versions|
      invariant last == LastInForce(versions[..i], day)
    {
      assert versions[..i + 1][..i] == versions[..i];
      if InForce(versions[i], day) {
        last := Some(i);
      }
    }
    assert versions[..|versions|] == versions;
  }

  method RebuildTimeline(versions: Versions, ends: Ends, today: Date) returns (result: Option<Versions>)
    requires Covered(versions, ends)
    ensures result == Rebuild(versions, ends, today)
  {
    SortedMembers(versions);
    result := CloseEach(Sorted(versions), ends);
    if result.Some? {
      var last := FindLastInForce(result.value, today);
      if last.Some? {
        result := Some(result.value[last.value := result.value[last.value].(current := true)]);
      }
    }
  }

  /** A version with other dates and another current flag. */
  predicate SameEdition(a: Version, b: Version) {
    a == b.(starts := a.starts, ends := a.ends, current := a.current)
  }

  /** What a rebuilt timeline looks like, position by position. */
  lemma RebuiltAt(versions: Versions, ends: Ends, today: Date, i: nat)
    requires Covered(versions, ends) && Rebuild(versions, ends, today).Some? && i < |versions|
    ensures var ordered, result := Sorted(versions), Rebuild(versions, ends, today).value;
            && |result| == |ordered| == |versions| && Covered(ordered, ends)
            && result[i].(current := false) == ClosedAt(ordered, ends, i)
            && DatesValid(result[i])
  {
    SortedMembers(versions);
    var closed := ClosedUpTo(Sorted(versions), ends, |versions|);
    assert closed[i] == ClosedAt(Sorted(versions), ends, i);
  }

  /** At most one rebuilt edition is current: the last one in force today, if any is. */
  lemma RebuiltCurrent(versions: Versions, ends: Ends, today: Date)
    requires Covered(versions, ends) && Rebuild(versions, ends, today).Some?
    ensures var result := Rebuild(versions, ends, today).value;
            CurrentIsLastInForce(result, today)
  {
    SortedMembers(versions);
    var closed := ClosedUpTo(Sorted(versions), ends, |versions|);
    PromotionKeepsForce(closed, today);
  }

  lemma PromotionKeepsForce(closed: Versions, today: Date)
    ensures LastInForce(Promoted(closed, today), today) == LastInForce(closed, today)
  {
    var promoted, k := Promoted(closed, today), LastInForce(closed, today);
    assert forall i :: 0 <= i < |closed| ==> InForce(promoted[i], today) == InForce(closed[i], today);
    var m := LastInForce(promoted, today);
    assert k.Some? ==> InForce(promoted[k.value], today);
    assert m.Some? ==> InForce(closed[m.value], today);
  }

  // ---------- Periods ----------

  /** On no day are two of the editions in force. */
  ghost predicate Disjoint(versions: Versions) {
    forall i, j, day: Date :: 0 <= i < j < |versions| ==> !(InForce(versions[i], day) && InForce(versions[j], day))
  }

  predicate DatedAfterFirst(ordered: Versions) {
    forall i :: 0 < i < |ordered| ==> ordered[i].starts.Some?
  }

  predicate EndedBy(end: Option<Date>, day: Date) {
    end.Some? && end.value <= day
  }

  /**
   Rebuilding gives an edition no end of its neighbour's when that neighbour has no start date.  Position i then
   meets every later position j that is still open, unless one of the two has ended before j starts.
   */
  predicate Meet(ordered: Versions, ends: Ends, i: nat, j: nat)
    requires i < j < |ordered| && Covered(ordered, ends)
  {
    && ordered[i + 1].starts.None?
    && !EndedBy(ends[ordered[i].id], Key(ordered[j]))
    && !EndedBy(EarlierOf(ends[ordered[j].id], Boundary(ordered, j)), Key(ordered[j]))
  }

  predicate NoneMeet(ordered: Versions, ends: Ends)
    requires Covered(ordered, ends)
  {
    forall i, j :: 0 <= i < j < |ordered| ==> !Meet(ordered, ends, i, j)
  }

  ghost predicate Apart(a: Version, b: Version) {
    forall on: Date :: !(InForce(a, on) && InForce(b, on))
  }

  /** The day on which the later of two editions starts decides whether they share one. */
  lemma ApartByStart(a: Version, b: Version)
    requires Key(a) <= Key(b)
    ensures Apart(a, b) <==> EndedBy(a.ends, Key(b)) || EndedBy(b.ends, Key(b))
  {
    if !EndedBy(a.ends, Key(b)) && !EndedBy(b.ends, Key(b)) {
      assert InForce(a, Key(b)) && InForce(b, Key(b));
    }
  }

  /** The end an edition is rebuilt with has passed by `day` when its own or its neighbour's start has. */
  lemma EndedByEarlier(a: Option<Date>, b: Option<Date>, day: Date)
    ensures EndedBy(EarlierOf(a, b), day) <==> EndedBy(a, day) || EndedBy(b, day)
  {
  }

  lemma RebuiltPair(versions: Versions, ends: Ends, today: Date, i: nat, j: nat)
    requires DistinctIds(versions) && Covered(versions, ends) && Rebuild(versions, ends, today).Some?
    requires i < j < |versions|
    ensures var ordered, result := Sorted(versions), Rebuild(versions, ends, today).value;
            && |result| == |ordered| == |versions| && Covered(ordered, ends)
            && (Apart(result[i], result[j]) <==> !Meet(ordered, ends, i, j))
  {
    var ordered, result := Sorted(versions), Rebuild(versions, ends, today).value;
    RebuiltAt(versions, ends, today, i);
    RebuiltAt(versions, ends, today, j);
    SortedInOrder(versions);
    KeysInOrder(ordered, i, j);
    EndedByEarlier(ends[ordered[i].id], Boundary(ordered, i), Key(ordered[j]));
    ApartByStart(result[i], result[j]);
  }

  ghost predicate AllApart(versions: Versions) {
    forall i, j :: 0 <= i < j < |versions| ==> Apart(versions[i], versions[j])
  }

  lemma DisjointByPairs(versions: Versions)
    ensures Disjoint(versions) <==> AllApart(versions)
  {
    if Disjoint(versions) {
      forall i, j | 0 <= i < j < |versions| ensures Apart(versions[i], versions[j]) {
      }
    }
    if AllApart(versions) {
      forall i, j, day: Date | 0 <= i < j < |versions|
        ensures !(InForce(versions[i], day) && InForce(versions[j], day))
      {
        assert Apart(versions[i], versions[j]);
      }
    }
  }

  lemma KeysInOrder(ordered: Versions, i: nat, j: nat)
    requires InOrder(ordered) && i < j < |ordered|
    ensures Key(ordered[i]) <= Key(ordered[j])
    ensures ordered[i + 1].starts.Some? <==> EndedBy(Boundary(ordered, i), Key(ordered[j]))
  {
    assert Before(ordered[i], ordered[j]);
    if i + 1 < j {
      assert Before(ordered[i + 1], ordered[j]);
    }
  }

  /** Rebuilt periods are disjoint if and only if no two positions meet, which can be seen from the starts and ends. */
  lemma RebuiltIsDisjoint(versions: Versions, ends: Ends, today: Date)
    requires DistinctIds(versions) && Covered(versions, ends) && Rebuild(versions, ends, today).Some?
    ensures Covered(Sorted(versions), ends)
    ensures Disjoint(Rebuild(versions, ends, today).value) <==> NoneMeet(Sorted(versions), ends)
  {
    var result, ordered := Rebuild(versions, ends, today).value, Sorted(versions);
    SortedMembers(versions);
    DisjointByPairs(result);
    forall i, j | 0 <= i < j < |versions| ensures Apart(result[i], result[j]) <==> !Meet(ordered, ends, i, j) {
      RebuiltPair(versions, ends, today, i, j);
    }
    ApartUnlessMeeting(result, ordered, ends);
  }

  lemma ApartUnlessMeeting(result: Versions, ordered: Versions, ends: Ends)
    requires |result| == |ordered| && Covered(ordered, ends)
    requires forall i, j :: 0 <= i < j < |ordered| ==> (Apart(result[i], result[j]) <==> !Meet(ordered, ends, i, j))
    ensures AllApart(result) <==> NoneMeet(ordered, ends)
  {
  }

  /** Only a neighbour without a start date can leave two positions in force together. */
  lemma DatedEditionsNeverMeet(ordered: Versions, ends: Ends)
    requires Covered(ordered, ends) && DatedAfterFirst(ordered)
    ensures NoneMeet(ordered, ends)
  {
  }

  lemma RebuiltInOrder(versions: Versions, ends: Ends, today: Date)
    requires DistinctIds(versions) && Covered(versions, ends) && Rebuild(versions, ends, today).Some?
    ensures InOrder(Rebuild(versions, ends, today).value) && DistinctIds(Rebuild(versions, ends, today).value)
  {
    var result, ordered := Rebuild(versions, ends, today).value, Sorted(versions);
    SortedMembers(versions);
    SortedInOrder(versions);
    SortedDistinct(versions);
    forall i, j | 0 <= i < j < |result| ensures Before(result[i], result[j]) && result[i].id != result[j].id {
      RebuiltAt(versions, ends, today, i);
      RebuiltAt(versions, ends, today, j);
      assert Before(ordered[i], ordered[j]) && ordered[i].id != ordered[j].id;
    }
  }

  lemma ClosingAgain(versions: Versions, ends: Ends, today: Date, i: nat)
    requires DistinctIds(versions) && Covered(versions, ends) && Rebuild(versions, ends, today).Some?
    requires i < |versions|
    ensures var once := Rebuild(versions, ends, today).value;
            && |once| == |versions|
            && EarlierOf(ExplicitEnd(once, i), Boundary(once, i)) == once[i].ends && DatesValid(once[i])
  {
    RebuiltAt(versions, ends, today, i);
    if i + 1 < |versions| {
      RebuiltAt(versions, ends, today, i + 1);
    }
  }

  predicate CurrentIsLastInForce(versions: Versions, today: Date) {
    forall i :: 0 <= i < |versions| ==> (versions[i].current <==> LastInForce(versions, today) == Some(i))
  }

  lemma PromotedBack(closed: Versions, versions: Versions, today: Date)
    requires CurrentIsLastInForce(versions, today) && |closed| == |versions|
    requires forall i :: 0 <= i < |closed| ==> closed[i] == versions[i].(current := false)
    ensures Promoted(closed, today) == versions
  {
    SameLastInForce(closed, versions, today);
  }

  lemma ExplicitEndsAt(versions: Versions, i: nat)
    requires InOrder(versions) && DistinctIds(versions) && i < |versions|
    ensures versions[i].id in ExplicitEnds(versions)
    ensures ExplicitEnds(versions)[versions[i].id] == ExplicitEnd(versions, i)
  {
    SortingSorted(versions);
    EndsAt(versions, |versions|, i);
  }

  lemma ClosedBack(versions: Versions, ends: Ends, i: nat)
    requires Covered(versions, ends) && i < |versions| && ends[versions[i].id] == ExplicitEnd(versions, i)
    requires EarlierOf(ExplicitEnd(versions, i), Boundary(versions, i)) == versions[i].ends
    ensures ClosedUpTo(versions, ends, |versions|)[i] == versions[i].(current := false)
  {
    assert ClosedUpTo(versions, ends, |versions|)[i] == ClosedAt(versions, ends, i);
  }

  /** Rebuilding a rebuilt timeline on the same day, with the ends it makes explicit, changes nothing. */
  lemma RebuildingIsIdempotent(versions: Versions, ends: Ends, today: Date)
    requires DistinctIds(versions) && Covered(versions, ends) && Rebuild(versions, ends, today).Some?
    ensures var once := Rebuild(versions, ends, today).value;
            Rebuild(once, ExplicitEnds(once), today) == Some(once)
  {
    var once := Rebuild(versions, ends, today).value;
    RebuiltInOrder(versions, ends, today);
    RebuiltCurrent(versions, ends, today);
    SortedMembers(versions);
    forall i | 0 <= i < |once|
      ensures EarlierOf(ExplicitEnd(once, i), Boundary(once, i)) == once[i].ends && DatesValid(once[i])
    {
      ClosingAgain(versions, ends, today, i);
    }
    RebuiltAlready(once, today);
  }

  lemma RebuiltAlready(once: Versions, today: Date)
    requires InOrder(once) && DistinctIds(once) && AllValid(once) && CurrentIsLastInForce(once, today)
    requires forall i :: 0 <= i < |once| ==> EarlierOf(ExplicitEnd(once, i), Boundary(once, i)) == once[i].ends
    ensures Rebuild(once, ExplicitEnds(once), today) == Some(once)
  {
    SortingSorted(once);
    var closed := ClosedUpTo(once, ExplicitEnds(once), |once|);
    forall i | 0 <= i < |once| ensures closed[i] == once[i].(current := false) && DatesValid(closed[i]) {
      ExplicitEndsAt(once, i);
      ClosedBack(once, ExplicitEnds(once), i);
    }
    PromotedBack(closed, once, today);
  }

  lemma SameLastInForce(a: Versions, b: Versions, day: Date)
    requires |a| == |b| && forall i :: 0 <= i < |a| ==> InForce(a[i], day) == InForce(b[i], day)
    ensures LastInForce(a, day) == LastInForce(b, day)
  {
    var k, m := LastInForce(a, day), LastInForce(b, day);
    assert k.Some? ==> InForce(b[k.value], day);
    assert m.Some? ==> InForce(a[m.value], day);
  }

  lemma {:induction false} SortingSorted(versions: Versions)
    requires InOrder(versions)
    ensures Sorted(versions) == versions
  {
    if versions == [] {
    } else {
      SortingSorted(versions[1..]);
      if |versions| > 1 {
        assert Before(versions[0], versions[1]);
      }
      assert versions == [versions[0]] + versions[1..];
    }
  }
}
