/**
 * The length of a line: the sum of its sections' distances. Splitting a
 * section hands part of its distance to the new section and merging two
 * sections adds their distances, so the length only changes at a terminus.
 */
module LineLength {
  import opened Wrappers
  import opened SectionRecord
  import opened LinePath
  import opened SectionInsertion
  import opened SectionRemoval

  /** The sum of the distances of `secs`. */
  function TotalDistance(secs: seq<Section>): int
  {
    if secs == [] then 0 else secs[0].distance + TotalDistance(secs[1..])
  }

  lemma {:induction false} TotalAppend(a: seq<Section>, b: seq<Section>)
    ensures TotalDistance(a + b) == TotalDistance(a) + TotalDistance(b)
  {
    if a != [] {
      assert (a + b)[1..] == a[1..] + b;
      TotalAppend(a[1..], b);
    } else {
      assert a + b == b;
    }
  }

  /** Replacing one section changes the sum by the difference of the two distances. */
  lemma {:induction false} TotalUpdate(secs: seq<Section>, j: nat, e: Section)
    requires j < |secs|
    ensures TotalDistance(secs[j := e]) == TotalDistance(secs) - secs[j].distance + e.distance
  {
    if j > 0 {
      assert secs[j := e][1..] == secs[1..][j - 1 := e];
      TotalUpdate(secs[1..], j - 1, e);
    }
  }

  /** Removing one occurrence of `x` takes its distance off the sum. */
  lemma {:induction false} TotalRemoveFirst(secs: seq<Section>, x: Section)
    requires x in secs
    ensures TotalDistance(RemoveFirst(secs, x)) == TotalDistance(secs) - x.distance
  {
    if secs[0] != x {
      TotalRemoveFirst(secs[1..], x);
      assert RemoveFirst(secs, x)[1..] == RemoveFirst(secs[1..], x);
    }
  }

  /** Two lists holding the same sections have the same length sum, whatever their order. */
  lemma {:induction false} TotalPermutation(a: seq<Section>, b: seq<Section>)
    requires multiset(a) == multiset(b)
    ensures TotalDistance(a) == TotalDistance(b)
    decreases |a|
  {
    if a != [] {
      assert a[0] in multiset(b);
      RemoveFirstMultiset(b, a[0]);
      TotalRemoveFirst(b, a[0]);
      assert a == [a[0]] + a[1..];
      assert multiset(a[1..]) + multiset{a[0]} == multiset(a);
      Cancel(multiset(RemoveFirst(b, a[0])), multiset(a[1..]), a[0]);
      TotalPermutation(a[1..], RemoveFirst(b, a[0]));
    } else {
      assert |b| == |multiset(b)| == 0;
    }
  }

  /**
   * A successful add lengthens the line by the new section's distance when it
   * extends a terminus or starts an empty line, and keeps the length when it
   * splits an existing section.
   */
  lemma AddSectionLength(secs: seq<Section>, stations: seq<Station>, s: Section)
    requires AddSection(secs, stations, s).Ok?
    ensures var r := AddSection(secs, stations, s).value;
      var splits := (s.up in stations && FindByUp(secs, s.up).Some?)
        || (s.down in stations && FindByDown(secs, s.down).Some?);
      TotalDistance(r) == if splits then TotalDistance(secs) else TotalDistance(secs) + s.distance
  {
    var upIn, downIn := s.up in stations, s.down in stations;
    assert !(upIn && downIn);
    var mid := if upIn then SplitAtUp(secs, s) else if downIn then SplitAtDown(secs, s) else secs;
    assert AddSection(secs, stations, s).value == mid + [s];
    TotalAppend(mid, [s]);
    assert TotalDistance([s]) == s.distance;
    if upIn && FindByUp(secs, s.up).Some? {
      var j := FindByUp(secs, s.up).value;
      TotalUpdate(secs, j, secs[j].UpdateUpStation(s.down, s.distance));
    } else if downIn && FindByDown(secs, s.down).Some? {
      var j := FindByDown(secs, s.down).value;
      TotalUpdate(secs, j, secs[j].UpdateDownStation(s.up, s.distance));
    }
  }

  /** Removing an interior station keeps the line's length: the merged section spans both removed ones. */
  lemma RemoveInteriorLength(secs: seq<Section>, ordered: seq<Section>, k: nat)
    requires IsLinearOrder(secs, ordered) && 0 < k < |ordered|
    ensures var path := StationsOf(ordered);
      && RemoveStation(secs, path, path[k]).Ok?
      && TotalDistance(RemoveStation(secs, path, path[k]).value) == TotalDistance(secs)
  {
    var path := StationsOf(ordered);
    var m := Section(secs[0].line, ordered[k - 1].up, ordered[k].down, ordered[k].distance + ordered[k - 1].distance);
    RemoveInterior(secs, ordered, k);
    TotalPermutation(RemoveStation(secs, path, path[k]).value, ordered[..k - 1] + [m] + ordered[k + 1..]);
    TotalPermutation(secs, ordered);
    MergedTotal(ordered, k, m);
  }

  /** Replacing two adjacent sections by one whose distance is their sum keeps the sum. */
  lemma MergedTotal(ordered: seq<Section>, k: nat, m: Section)
    requires 0 < k < |ordered| && m.distance == ordered[k].distance + ordered[k - 1].distance
    ensures TotalDistance(ordered[..k - 1] + [m] + ordered[k + 1..]) == TotalDistance(ordered)
  {
    var front, back := ordered[..k - 1], ordered[k + 1..];
    assert ordered == front + [ordered[k - 1], ordered[k]] + back;
    TotalAppend(front + [ordered[k - 1], ordered[k]], back);
    TotalAppend(front, [ordered[k - 1], ordered[k]]);
    TotalAppend(front + [m], back);
    TotalAppend(front, [m]);
    assert TotalDistance([ordered[k - 1], ordered[k]]) == ordered[k - 1].distance + ordered[k].distance;
    assert TotalDistance([m]) == m.distance;
  }

  /** Removing a terminus shortens the line by the distance of the one section that touched it. */
  lemma RemoveTerminusLength(secs: seq<Section>, ordered: seq<Section>)
    requires IsLinearOrder(secs, ordered) && |secs| > 1
    ensures var path, n := StationsOf(ordered), |ordered|;
      && RemoveStation(secs, path, path[0]).Ok? && RemoveStation(secs, path, path[n]).Ok?
      && TotalDistance(RemoveStation(secs, path, path[0]).value) == TotalDistance(secs) - ordered[0].distance
      && TotalDistance(RemoveStation(secs, path, path[n]).value) == TotalDistance(secs) - ordered[n - 1].distance
  {
    var n := |ordered|;
    SameLength(secs, ordered);
    RemoveUpTerminus(secs, ordered);
    RemoveDownTerminus(secs, ordered);
    assert ordered[0] in secs by {
      assert ordered[0] in multiset(secs);
    }
    assert ordered[n - 1] in secs by {
      assert ordered[n - 1] in multiset(secs);
    }
    TotalRemoveFirst(secs, ordered[0]);
    TotalRemoveFirst(secs, ordered[n - 1]);
  }
}
