/** When inserting an edition keeps the periods of an act's editions apart. */
module TimelineLaws {
  import opened Outcomes
  import opened Timeline

  lemma BoundPeriod(v: Version, day: Date, newIsCurrent: bool, on: Date)
    ensures InForce(BoundAt(v, day, newIsCurrent), on) <==>
              InForce(v, on) && (on < day || (v.starts.Some? && v.starts.value > day))
  {
  }

  lemma BoundaryKeepsDisjoint(versions: Versions, start: Option<Date>, today: Date)
    requires Disjoint(versions)
    ensures Disjoint(WithBoundary(versions, start, today))
  {
    if start.Some? {
      var after := WithBoundary(versions, start, today);
      forall i, j, on: Date | 0 <= i < j < |after| ensures !(InForce(after[i], on) && InForce(after[j], on)) {
        BoundPeriod(versions[i], start.value, IsLatest(versions, start, today), on);
        BoundPeriod(versions[j], start.value, IsLatest(versions, start, today), on);
      }
    }
  }

  lemma AppendDisjoint(versions: Versions, v: Version)
    requires Disjoint(versions)
    ensures Disjoint(versions + [v]) <==> forall i :: 0 <= i < |versions| ==> Apart(versions[i], v)
  {
    var all := versions + [v];
    if Disjoint(all) {
      forall i, on: Date | 0 <= i < |versions| ensures !(InForce(versions[i], on) && InForce(v, on)) {
        assert all[i] == versions[i] && all[|versions|] == v;
      }
    }
    if forall i :: 0 <= i < |versions| ==> Apart(versions[i], v) {
      forall i, j, on: Date | 0 <= i < j < |all| ensures !(InForce(all[i], on) && InForce(all[j], on)) {
        if j == |versions| {
          assert Apart(versions[i], v);
        }
      }
    }
  }

  /** The other edition comes into force after v starts, or v has no start, and before v ends. */
  predicate ComesInDuring(w: Version, v: Version) {
    && InForce(w, Key(w)) && !EndedBy(v.ends, Key(w))
    && (v.starts.Some? ==> w.starts.Some? && v.starts.value < w.starts.value)
  }

  lemma ApartAfterBoundary(w: Version, v: Version, day: Date, newIsCurrent: bool)
    requires v.starts == Some(day)
    ensures Apart(BoundAt(w, day, newIsCurrent), v) <==> !ComesInDuring(w, v)
  {
    forall on: Date ensures InForce(BoundAt(w, day, newIsCurrent), on) && InForce(v, on) ==> ComesInDuring(w, v) {
      BoundPeriod(w, day, newIsCurrent, on);
    }
    BoundPeriod(w, day, newIsCurrent, Key(w));
    assert ComesInDuring(w, v) ==> InForce(v, Key(w));
  }

  lemma ApartFromUndated(w: Version, v: Version)
    requires v.starts == None
    ensures Apart(w, v) <==> !ComesInDuring(w, v)
  {
    assert ComesInDuring(w, v) ==> InForce(v, Key(w));
  }

  /**
   Whatever its start and end, dated or not: an edition put into an act keeps the periods apart if and only if no
   other edition comes into force during its period.
   */
  lemma PlacedEditionOverlaps(versions: Versions, today: Date, v: Version)
    requires Disjoint(versions)
    ensures Disjoint(WithBoundary(versions, v.starts, today) + [v])
            <==> forall w :: w in versions ==> !ComesInDuring(w, v)
  {
    var after := WithBoundary(versions, v.starts, today);
    BoundaryKeepsDisjoint(versions, v.starts, today);
    AppendDisjoint(after, v);
    forall i | 0 <= i < |versions| ensures Apart(after[i], v) <==> !ComesInDuring(versions[i], v) {
      if v.starts.Some? {
        ApartAfterBoundary(versions[i], v, v.starts.value, IsLatest(versions, v.starts, today));
      } else {
        ApartFromUndated(versions[i], v);
      }
    }
    if Disjoint(after + [v]) {
      forall w | w in versions ensures !ComesInDuring(w, v) {
        var i :| 0 <= i < |versions| && versions[i] == w;
        assert Apart(after[i], v);
      }
    }
    if forall w :: w in versions ==> !ComesInDuring(w, v) {
      forall i | 0 <= i < |after| ensures Apart(after[i], v) {
        assert versions[i] in versions;
      }
    }
  }

  /** A dated upload closes whatever its period meets, and ends where the next edition starts. */
  lemma DatedUploadKeepsDisjoint(versions: Versions, day: Date, today: Date, v: Version)
    requires Disjoint(versions) && v.starts == Some(day) && v.ends == SuccessorDate(versions, Some(day))
    ensures Disjoint(WithBoundary(versions, Some(day), today) + [v])
  {
    PlacedEditionOverlaps(versions, today, v);
    forall w | w in versions ensures !ComesInDuring(w, v) {
      assert v.starts.Some? && w.starts.Some? && v.starts.value < w.starts.value ==> EndedBy(v.ends, w.starts.value);
    }
  }

  /** An upload without a date has no bounds at all: it stays apart only from editions that are never in force. */
  lemma UndatedUploadOverlaps(versions: Versions, today: Date, v: Version)
    requires Disjoint(versions) && v.starts == None && v.ends == SuccessorDate(versions, None)
    ensures Disjoint(WithBoundary(versions, None, today) + [v])
            <==> forall i, on: Date :: 0 <= i < |versions| ==> !InForce(versions[i], on)
  {
    PlacedEditionOverlaps(versions, today, v);
    forall i | 0 <= i < |versions|
      ensures ComesInDuring(versions[i], v) <==> exists on: Date :: InForce(versions[i], on)
    {
      assert forall on: Date :: InForce(versions[i], on) ==> InForce(versions[i], Key(versions[i]));
    }
    forall w | w in versions ensures exists i :: 0 <= i < |versions| && versions[i] == w {
    }
  }

  /** A relinked edition with its own end overlaps exactly when another one comes into force before that end. */
  lemma RelinkedEditionOverlaps(versions: Versions, end: Date, today: Date, v: Version)
    requires Disjoint(versions) && v.ends == Some(end)
    ensures Disjoint(WithBoundary(versions, v.starts, today) + [v])
            <==> forall w :: w in versions && Key(w) < end && (v.starts.Some? ==> v.starts.value < Key(w)) ==>
                   !InForce(w, Key(w))
  {
    PlacedEditionOverlaps(versions, today, v);
    assert forall w :: w in versions ==> (ComesInDuring(w, v) <==>
             Key(w) < end && (v.starts.Some? ==> v.starts.value < Key(w)) && InForce(w, Key(w)));
  }

  /** Two undated editions are rebuilt with open periods: the order gives the first no end. */
  lemma UndatedEditionsStayOpen(a: Version, b: Version, today: Date)
    requires a.starts == b.starts == None && a.ends == b.ends == None && a.id < b.id
    ensures Covered([a, b], ExplicitEnds([a, b])) && Rebuild([a, b], ExplicitEnds([a, b]), today).Some?
    ensures !Disjoint(Rebuild([a, b], ExplicitEnds([a, b]), today).value)
  {
    var versions := [a, b];
    var ends := ExplicitEnds(versions);
    SortingSorted(versions);
    ExplicitEndsAt(versions, 0);
    ExplicitEndsAt(versions, 1);
    var closed := ClosedUpTo(versions, ends, 2);
    assert closed[0] == ClosedAt(versions, ends, 0) && closed[1] == ClosedAt(versions, ends, 1);
    RebuiltAt(versions, ends, today, 0);
    RebuiltAt(versions, ends, today, 1);
    var result := Rebuild(versions, ends, today).value;
    assert InForce(result[0], today) && InForce(result[1], today);
  }
}
