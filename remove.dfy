/**
 * What removing a station from a line does to the section list, as a function
 * of the list and of the station list read from it, and the proof that it keeps
 * the list a single simple path.
 */
module SectionRemoval {
  import opened Wrappers
  import opened SectionRecord
  import opened LinePath

  /** List.remove(Object): drop the first occurrence of `x`; the list is unchanged if `x` is absent. */
  function RemoveFirst(secs: seq<Section>, x: Section): (r: seq<Section>)
    ensures x !in secs ==> r == secs
  {
    if secs == [] then []
    else if secs[0] == x then secs[1..]
    else [secs[0]] + RemoveFirst(secs[1..], x)
  }

  /** Only the first occurrence goes; everything before and after it stays in order. */
  lemma {:induction false} RemoveFirstAt(secs: seq<Section>, x: Section)
    requires x in secs
    ensures RemoveFirst(secs, x) == secs[..IndexOf(secs, x)] + secs[IndexOf(secs, x) + 1..]
  {
    if secs[0] != x {
      var i := IndexOf(secs[1..], x);
      assert IndexOf(secs, x) == i + 1;
      RemoveFirstAt(secs[1..], x);
      assert RemoveFirst(secs, x) == [secs[0]] + (secs[1..][..i] + secs[1..][i + 1..]);
      assert secs[..i + 1] == [secs[0]] + secs[1..][..i];
      assert secs[i + 2..] == secs[1..][i + 1..];
    }
  }

  /** Removing one occurrence takes exactly that element out of the multiset. */
  lemma RemoveFirstMultiset(secs: seq<Section>, x: Section)
    ensures x in secs ==> multiset(RemoveFirst(secs, x)) + multiset{x} == multiset(secs)
    ensures x !in secs ==> RemoveFirst(secs, x) == secs
    ensures |RemoveFirst(secs, x)| == if x in secs then |secs| - 1 else |secs|
  {
    if x in secs {
      var i := IndexOf(secs, x);
      var front, back := secs[..i], secs[i + 1..];
      RemoveFirstAt(secs, x);
      assert RemoveFirst(secs, x) == front + back;
      assert secs == front + [x] + back;
      assert multiset(front + back) == multiset(front) + multiset(back);
      assert multiset(secs) == multiset(front) + multiset{x} + multiset(back);
    }
  }

  /** isFirstStation */
  function IsFirstStation(station: Station, stations: seq<Station>): bool
    requires stations != []
  {
    stations[0] == station
  }

  /** isLastStation */
  function IsLastStation(station: Station, stations: seq<Station>): bool
    requires stations != []
  {
    stations[|stations| - 1] == station
  }

  /**
   * On a single simple path, the first station is the one station no section
   * enters and the last is the one station no section leaves.
   */
  lemma TerminusTests(secs: seq<Section>, ordered: seq<Section>, station: Station)
    requires IsLinearOrder(secs, ordered) && station in StationsOf(ordered)
    ensures IsFirstStation(station, StationsOf(ordered)) <==> FindByDown(secs, station).None?
    ensures IsLastStation(station, StationsOf(ordered)) <==> FindByUp(secs, station).None?
  {
    var path := StationsOf(ordered);
    var k := IndexOf(path, station);
    DownLookupOnPath(secs, ordered, k);
    UpLookupOnPath(secs, ordered, k);
    SamePosition(path, 0, k);
    SamePosition(path, |path| - 1, k);
  }

  /**
   * removeBetweenSectionStation: find the section leaving `station` and the one
   * entering it, refusing if either is missing, and append one section that
   * spans both, with their summed distance, on the line of the first section.
   */
  function MergeAround(secs: seq<Section>, station: Station): (r: Result<seq<Section>>)
    ensures r.Err? <==> FindByUp(secs, station).None? || FindByDown(secs, station).None?
    ensures r.Err? ==> r.error == SectionNotFound
    ensures r.Ok? ==> |r.value| == |secs| + 1 && r.value[..|secs|] == secs
    ensures r.Ok? ==>
      var leaving, entering, m := secs[FindByUp(secs, station).value], secs[FindByDown(secs, station).value], r.value[|secs|];
      && m.up == entering.up && m.down == leaving.down
      && m.distance == leaving.distance + entering.distance
      && m.line == secs[0].line
  {
    match FindByUp(secs, station)
    case None => Err(SectionNotFound)
    case Some(i) =>
      match FindByDown(secs, station)
      case None => Err(SectionNotFound)
      case Some(j) =>
        Ok(secs + [Section(secs[0].line, secs[j].up, secs[i].down, secs[i].distance + secs[j].distance)])
  }

  /**
   * removeLineStation, given the line's station list: refuse on a line of one
   * section; merge around an interior station; then drop the section leaving
   * the station and the section entering it, whichever exist.
   */
  function RemoveStation(secs: seq<Section>, stations: seq<Station>, station: Station): (r: Result<seq<Section>>)
    requires secs != [] ==> stations != []
    ensures |secs| <= 1 <==> r == Err(TooFewSections)
    ensures r.Err? ==> r.error == TooFewSections || r.error == SectionNotFound
  {
    if |secs| <= 1 then Err(TooFewSections)
    else
      var leaving := FindByUp(secs, station);
      var entering := FindByDown(secs, station);
      var merged :=
        if !IsFirstStation(station, stations) && !IsLastStation(station, stations)
        then MergeAround(secs, station) else Ok(secs);
      if merged.Err? then Err(merged.error)
      else
        var afterLeaving := if leaving.Some? then RemoveFirst(merged.value, secs[leaving.value]) else merged.value;
        var afterEntering := if entering.Some? then RemoveFirst(afterLeaving, secs[entering.value]) else afterLeaving;
        Ok(afterEntering)
  }

  /** At a terminus with only a leaving section, removal drops that section. */
  lemma RemoveLeavingOnly(secs: seq<Section>, stations: seq<Station>, station: Station)
    requires |secs| > 1 && stations != []
    requires IsFirstStation(station, stations) || IsLastStation(station, stations)
    requires FindByUp(secs, station).Some? && FindByDown(secs, station).None?
    ensures RemoveStation(secs, stations, station) == Ok(RemoveFirst(secs, secs[FindByUp(secs, station).value]))
  {
  }

  /** At a terminus with only an entering section, removal drops that section. */
  lemma RemoveEnteringOnly(secs: seq<Section>, stations: seq<Station>, station: Station)
    requires |secs| > 1 && stations != []
    requires IsFirstStation(station, stations) || IsLastStation(station, stations)
    requires FindByUp(secs, station).None? && FindByDown(secs, station).Some?
    ensures RemoveStation(secs, stations, station) == Ok(RemoveFirst(secs, secs[FindByDown(secs, station).value]))
  {
  }

  /** Between the termini, removal appends the spanning section and drops both incident ones. */
  lemma RemoveMerging(secs: seq<Section>, stations: seq<Station>, station: Station, i: nat, j: nat)
    requires |secs| > 1 && stations != []
    requires !IsFirstStation(station, stations) && !IsLastStation(station, stations)
    requires FindByUp(secs, station) == Some(i) && FindByDown(secs, station) == Some(j)
    ensures var m := Section(secs[0].line, secs[j].up, secs[i].down, secs[i].distance + secs[j].distance);
      RemoveStation(secs, stations, station) == Ok(RemoveFirst(RemoveFirst(secs + [m], secs[i]), secs[j]))
  {
    var m := Section(secs[0].line, secs[j].up, secs[i].down, secs[i].distance + secs[j].distance);
    assert MergeAround(secs, station) == Ok(secs + [m]);
    var afterLeaving := RemoveFirst(secs + [m], secs[i]);
    var afterEntering := RemoveFirst(afterLeaving, secs[j]);
    assert RemoveStation(secs, stations, station) == Ok(afterEntering);
  }

  lemma {:induction false} DistinctDelete(path: seq<Station>, k: nat)
    requires Distinct(path) && k < |path|
    ensures Distinct(path[..k] + path[k + 1..])
    ensures path[k] !in path[..k] + path[k + 1..]
  {
    var q := path[..k] + path[k + 1..];
    forall i, j | 0 <= i < j < |q|
      ensures Apart(q, i, j)
    {
      if i < k && j >= k {
        assert q[i] == path[i] && q[j] == path[j + 1];
        assert Apart(path, i, j + 1);
      } else if i < k {
        assert q[i] == path[i] && q[j] == path[j];
        assert Apart(path, i, j);
      } else {
        assert q[i] == path[i + 1] && q[j] == path[j + 1];
        assert Apart(path, i + 1, j + 1);
      }
    }
    forall i | 0 <= i < |q|
      ensures q[i] != path[k]
    {
      if i >= k {
        assert q[i] == path[i + 1];
        assert Apart(path, k, i + 1);
      } else {
        assert q[i] == path[i];
        assert Apart(path, i, k);
      }
    }
  }

  /** A station off the line cannot be removed, and nothing changes. */
  lemma RemoveAbsentStation(secs: seq<Section>, ordered: seq<Section>, station: Station)
    requires IsLinearOrder(secs, ordered) && |secs| > 1
    requires station !in StationsOf(ordered)
    ensures RemoveStation(secs, StationsOf(ordered), station) == Err(SectionNotFound)
  {
    OffPathLookup(secs, ordered, station);
    SameLength(secs, ordered);
  }

  /** Removing the up terminus drops exactly the section leaving it; the rest of the path is kept. */
  lemma RemoveUpTerminus(secs: seq<Section>, ordered: seq<Section>)
    requires IsLinearOrder(secs, ordered) && |secs| > 1
    ensures var path := StationsOf(ordered);
      && RemoveStation(secs, path, path[0]) == Ok(RemoveFirst(secs, ordered[0]))
      && IsLinearOrder(RemoveFirst(secs, ordered[0]), ordered[1..])
      && StationsOf(ordered[1..]) == path[1..]
  {
    var path := StationsOf(ordered);
    SameLength(secs, ordered);
    UpLookupOnPath(secs, ordered, 0);
    DownLookupOnPath(secs, ordered, 0);
    RemoveLeavingOnly(secs, path, path[0]);
    DropFirst(secs, ordered);
  }

  lemma DropFirst(secs: seq<Section>, ordered: seq<Section>)
    requires IsLinearOrder(secs, ordered) && |ordered| > 1
    ensures IsLinearOrder(RemoveFirst(secs, ordered[0]), ordered[1..])
    ensures StationsOf(ordered[1..]) == StationsOf(ordered)[1..]
  {
    var r := RemoveFirst(secs, ordered[0]);
    RemoveFirstMultiset(secs, ordered[0]);
    MultisetOfFirst(ordered);
    Cancel(multiset(r), multiset(ordered[1..]), ordered[0]);
    TailIsPath(ordered);
  }

  /** Without its first section a path is still a path, one station shorter at the front. */
  lemma TailIsPath(ordered: seq<Section>)
    requires Linked(ordered) && Distinct(StationsOf(ordered)) && |ordered| > 1
    ensures Linked(ordered[1..]) && StationsOf(ordered[1..]) == StationsOf(ordered)[1..]
    ensures Distinct(StationsOf(ordered[1..]))
  {
    var path, rest := StationsOf(ordered), ordered[1..];
    assert Linked(rest) by {
      forall i | 0 <= i < |rest| - 1
        ensures JoinsNext(rest, i)
      {
        assert rest[i] == ordered[i + 1] && rest[i + 1] == ordered[i + 2] && JoinsNext(ordered, i + 1);
      }
    }
    StationsAt(ordered, 1);
    assert Downs(ordered) == [ordered[0].down] + Downs(rest);
    assert StationsOf(rest) == path[1..];
    DistinctSlice(path, 1, |path|);
    assert path[1..|path|] == path[1..];
  }

  /** Removing the down terminus drops exactly the section entering it; the rest of the path is kept. */
  lemma RemoveDownTerminus(secs: seq<Section>, ordered: seq<Section>)
    requires IsLinearOrder(secs, ordered) && |secs| > 1
    ensures var path, n := StationsOf(ordered), |ordered|;
      && RemoveStation(secs, path, path[n]) == Ok(RemoveFirst(secs, ordered[n - 1]))
      && IsLinearOrder(RemoveFirst(secs, ordered[n - 1]), ordered[..n - 1])
      && StationsOf(ordered[..n - 1]) == path[..n]
  {
    var path, n := StationsOf(ordered), |ordered|;
    SameLength(secs, ordered);
    UpLookupOnPath(secs, ordered, n);
    DownLookupOnPath(secs, ordered, n);
    SamePosition(path, 0, n);
    assert path[0] != path[n];
    assert IsLastStation(path[n], path);
    assert FindByUp(secs, path[n]).None? && FindByDown(secs, path[n]).Some?;
    RemoveEnteringOnly(secs, path, path[n]);
    DropLast(secs, ordered);
  }

  lemma DropLast(secs: seq<Section>, ordered: seq<Section>)
    requires IsLinearOrder(secs, ordered) && |ordered| > 1
    ensures var n := |ordered|;
      && IsLinearOrder(RemoveFirst(secs, ordered[n - 1]), ordered[..n - 1])
      && StationsOf(ordered[..n - 1]) == StationsOf(ordered)[..n]
  {
    var n := |ordered|;
    RemoveFirstMultiset(secs, ordered[n - 1]);
    MultisetOfLast(ordered);
    Cancel(multiset(RemoveFirst(secs, ordered[n - 1])), multiset(ordered[..n - 1]), ordered[n - 1]);
    FrontIsPath(ordered);
  }

  /** Without its last section a path is still a path, one station shorter at the back. */
  lemma FrontIsPath(ordered: seq<Section>)
    requires Linked(ordered) && Distinct(StationsOf(ordered)) && |ordered| > 1
    ensures var n := |ordered|;
      && Linked(ordered[..n - 1]) && StationsOf(ordered[..n - 1]) == StationsOf(ordered)[..n]
      && Distinct(StationsOf(ordered[..n - 1]))
  {
    var path, n := StationsOf(ordered), |ordered|;
    var front := ordered[..n - 1];
    assert Linked(front) by {
      forall i | 0 <= i < |front| - 1
        ensures JoinsNext(front, i)
      {
        assert front[i] == ordered[i] && front[i + 1] == ordered[i + 1] && JoinsNext(ordered, i);
      }
    }
    forall i | 0 <= i < n
      ensures StationsOf(front)[i] == path[..n][i]
    {
      StationIndex(front, i);
      StationIndex(ordered, i);
      if 0 < i {
        assert front[i - 1] == ordered[i - 1];
      }
    }
    DistinctSlice(path, 0, n);
  }

  /**
   * Removing an interior station replaces its two sections by one spanning
   * both with their summed distance; the path loses exactly that station.
   */
  lemma RemoveInterior(secs: seq<Section>, ordered: seq<Section>, k: nat)
    requires IsLinearOrder(secs, ordered)
    requires 0 < k < |ordered|
    ensures var path := StationsOf(ordered);
      var m := Section(secs[0].line, ordered[k - 1].up, ordered[k].down, ordered[k].distance + ordered[k - 1].distance);
      var o := ordered[..k - 1] + [m] + ordered[k + 1..];
      var r := RemoveStation(secs, path, path[k]);
      && r.Ok? && |r.value| == |secs| - 1
      && IsLinearOrder(r.value, o)
      && StationsOf(o) == path[..k] + path[k + 1..]
  {
    var path := StationsOf(ordered);
    SameLength(secs, ordered);
    var m := Section(secs[0].line, ordered[k - 1].up, ordered[k].down, ordered[k].distance + ordered[k - 1].distance);
    var o := ordered[..k - 1] + [m] + ordered[k + 1..];
    var r := RemoveFirst(RemoveFirst(secs + [m], ordered[k]), ordered[k - 1]);
    assert RemoveStation(secs, path, path[k]) == Ok(r) by {
      UpLookupOnPath(secs, ordered, k);
      DownLookupOnPath(secs, ordered, k);
      var i, j := FindByUp(secs, path[k]).value, FindByDown(secs, path[k]).value;
      assert secs[i] == ordered[k] && secs[j] == ordered[k - 1];
      SamePosition(path, 0, k);
      SamePosition(path, |ordered|, k);
      assert path[0] != path[k];
      assert path[|ordered|] != path[k];
      assert Section(secs[0].line, secs[j].up, secs[i].down, secs[i].distance + secs[j].distance) == m;
      RemoveMerging(secs, path, path[k], i, j);
    }
    MultisetMerge(secs, ordered, k, m);
    MergedLinked(ordered, k, m);
    DistinctDelete(path, k);
    assert IsLinearOrder(r, o);
    SameLength(r, o);
  }

  lemma MultisetMerge(secs: seq<Section>, ordered: seq<Section>, k: nat, m: Section)
    requires multiset(secs) == multiset(ordered) && 0 < k < |ordered|
    ensures multiset(RemoveFirst(RemoveFirst(secs + [m], ordered[k]), ordered[k - 1]))
         == multiset(ordered[..k - 1] + [m] + ordered[k + 1..])
  {
    var a, b := ordered[k - 1], ordered[k];
    var front, back := multiset(ordered[..k - 1]), multiset(ordered[k + 1..]);
    MultisetAroundPair(ordered, k, m);
    var rest := front + multiset{m} + back;
    assert multiset(secs + [m]) == (rest + multiset{a}) + multiset{b} by {
      assert multiset(secs + [m]) == multiset(secs) + multiset{m};
    }
    RemoveFromMultiset(secs + [m], b, rest + multiset{a});
    RemoveFromMultiset(RemoveFirst(secs + [m], b), a, rest);
  }

  /** Removing `x` from a list whose multiset is `rest` plus `x` leaves exactly `rest`. */
  lemma RemoveFromMultiset(secs: seq<Section>, x: Section, rest: multiset<Section>)
    requires multiset(secs) == rest + multiset{x}
    ensures multiset(RemoveFirst(secs, x)) == rest
  {
    assert x in multiset(secs);
    RemoveFirstMultiset(secs, x);
    Cancel(multiset(RemoveFirst(secs, x)), rest, x);
  }

  /** The multiset of a list around two adjacent positions, and after they are replaced by `m`. */
  lemma MultisetAroundPair(s: seq<Section>, k: nat, m: Section)
    requires 0 < k < |s|
    ensures multiset(s) == multiset(s[..k - 1]) + multiset{s[k - 1], s[k]} + multiset(s[k + 1..])
    ensures multiset(s[..k - 1] + [m] + s[k + 1..]) == multiset(s[..k - 1]) + multiset{m} + multiset(s[k + 1..])
  {
    assert s == s[..k - 1] + [s[k - 1], s[k]] + s[k + 1..];
  }

  lemma MultisetOfFirst(s: seq<Section>)
    requires s != []
    ensures multiset(s[1..]) + multiset{s[0]} == multiset(s)
  {
    assert s == [s[0]] + s[1..];
  }

  lemma MultisetOfLast(s: seq<Section>)
    requires s != []
    ensures multiset(s[..|s| - 1]) + multiset{s[|s| - 1]} == multiset(s)
  {
    assert s == s[..|s| - 1] + [s[|s| - 1]];
  }

  lemma Cancel(x: multiset<Section>, y: multiset<Section>, a: Section)
    requires x + multiset{a} == y + multiset{a}
    ensures x == y
  {
    forall e
      ensures x[e] == y[e]
    {
      assert (x + multiset{a})[e] == (y + multiset{a})[e];
    }
  }

  /** The merged order is linked and skips station k. */
  lemma MergedLinked(ordered: seq<Section>, k: nat, m: Section)
    requires Linked(ordered) && 0 < k < |ordered|
    requires m.up == ordered[k - 1].up && m.down == ordered[k].down
    ensures var o := ordered[..k - 1] + [m] + ordered[k + 1..];
      var path := StationsOf(ordered);
      Linked(o) && StationsOf(o) == path[..k] + path[k + 1..]
  {
    var o := ordered[..k - 1] + [m] + ordered[k + 1..];
    var path := StationsOf(ordered);
    forall i | 0 <= i < |o| - 1
      ensures JoinsNext(o, i)
    {
      if i < k - 2 {
        assert o[i] == ordered[i] && o[i + 1] == ordered[i + 1] && JoinsNext(ordered, i);
      } else if i == k - 2 {
        assert o[i] == ordered[k - 2] && JoinsNext(ordered, k - 2);
      } else if i == k - 1 {
        assert o[i + 1] == ordered[k + 1] && JoinsNext(ordered, k);
      } else {
        assert o[i] == ordered[i + 1] && o[i + 1] == ordered[i + 2] && JoinsNext(ordered, i + 1);
      }
    }
    var q := path[..k] + path[k + 1..];
    assert |StationsOf(o)| == |q|;
    forall i | 0 <= i < |q|
      ensures StationsOf(o)[i] == q[i]
    {
      StationIndex(o, i);
      if i == 0 {
        StationIndex(ordered, 0);
        assert q[0] == path[0];
      } else if i < k {
        StationIndex(ordered, i);
        assert o[i - 1] == ordered[i - 1];
        assert q[i] == path[i];
      } else if i == k {
        StationIndex(ordered, k + 1);
        assert q[k] == path[k + 1];
      } else {
        StationIndex(ordered, i + 1);
        assert o[i - 1] == ordered[i];
        assert q[i] == path[i + 1];
      }
    }
  }

  /** A station list with one station taken out. */
  function WithoutStation(path: seq<Station>, x: Station): (r: seq<Station>)
    requires x in path
    ensures |r| == |path| - 1
    ensures multiset(r) + multiset{x} == multiset(path)
  {
    var k := IndexOf(path, x);
    assert path == path[..k] + [x] + path[k + 1..];
    path[..k] + path[k + 1..]
  }

  /** The order of the line's sections after `station` is removed from the line ordered as `ordered`. */
  ghost function RemovalOrder(secs: seq<Section>, ordered: seq<Section>, station: Station): seq<Section>
  {
    var path := StationsOf(ordered);
    if station !in path || |ordered| < 2 || secs == [] then ordered
    else RemovalAt(secs, ordered, IndexOf(path, station))
  }

  /**
   * The order after removing station k: the first or the last section goes at
   * a terminus; an interior station's two sections become one spanning both.
   */
  ghost function RemovalAt(secs: seq<Section>, ordered: seq<Section>, k: nat): seq<Section>
    requires secs != [] && 0 < |ordered| && k <= |ordered|
  {
    var n := |ordered|;
    if k == 0 then ordered[1..]
    else if k == n then ordered[..n - 1]
    else ordered[..k - 1] + [Section(secs[0].line, ordered[k - 1].up, ordered[k].down, ordered[k].distance + ordered[k - 1].distance)] + ordered[k + 1..]
  }

  /** A successful removal takes exactly the removed station out of the path and one section out of the list. */
  lemma RemoveStationKeepsPath(secs: seq<Section>, ordered: seq<Section>, station: Station)
    requires IsLinearOrder(secs, ordered)
    requires RemoveStation(secs, StationsOf(ordered), station).Ok?
    ensures var path, r := StationsOf(ordered), RemoveStation(secs, StationsOf(ordered), station).value;
      && station in path
      && IsLinearOrder(r, RemovalOrder(secs, ordered, station))
      && StationsOf(RemovalOrder(secs, ordered, station)) == WithoutStation(path, station)
      && |r| == |secs| - 1
  {
    var path, n := StationsOf(ordered), |ordered|;
    SameLength(secs, ordered);
    if station !in path {
      RemoveAbsentStation(secs, ordered, station);
      assert false;
    }
    var k := IndexOf(path, station);
    assert WithoutStation(path, station) == path[..k] + path[k + 1..];
    assert RemovalOrder(secs, ordered, station) == RemovalAt(secs, ordered, k);
    if k == 0 {
      RemovedAtUp(secs, ordered);
    } else if k == n {
      RemovedAtDown(secs, ordered);
    } else {
      RemovedInterior(secs, ordered, k);
    }
  }

  lemma RemovedAtUp(secs: seq<Section>, ordered: seq<Section>)
    requires IsLinearOrder(secs, ordered) && |secs| > 1
    ensures var path := StationsOf(ordered);
      var r := RemoveStation(secs, path, path[0]);
      && r.Ok?
      && IsLinearOrder(r.value, RemovalAt(secs, ordered, 0))
      && StationsOf(RemovalAt(secs, ordered, 0)) == path[..0] + path[1..]
      && |r.value| == |secs| - 1
  {
    var path := StationsOf(ordered);
    SameLength(secs, ordered);
    assert RemovalAt(secs, ordered, 0) == ordered[1..];
    assert path[..0] + path[1..] == path[1..];
    RemoveUpTerminus(secs, ordered);
    RemoveFirstMultiset(secs, ordered[0]);
  }

  lemma RemovedAtDown(secs: seq<Section>, ordered: seq<Section>)
    requires IsLinearOrder(secs, ordered) && |secs| > 1
    ensures var path, n := StationsOf(ordered), |ordered|;
      var r := RemoveStation(secs, path, path[n]);
      && r.Ok?
      && IsLinearOrder(r.value, RemovalAt(secs, ordered, n))
      && StationsOf(RemovalAt(secs, ordered, n)) == path[..n] + path[n + 1..]
      && |r.value| == |secs| - 1
  {
    var path, n := StationsOf(ordered), |ordered|;
    SameLength(secs, ordered);
    assert RemovalAt(secs, ordered, n) == ordered[..n - 1];
    assert path[..n] + path[n + 1..] == path[..n];
    RemoveDownTerminus(secs, ordered);
    RemoveFirstMultiset(secs, ordered[n - 1]);
  }

  lemma RemovedInterior(secs: seq<Section>, ordered: seq<Section>, k: nat)
    requires IsLinearOrder(secs, ordered) && 0 < k < |ordered|
    ensures var path := StationsOf(ordered);
      var r := RemoveStation(secs, path, path[k]);
      && r.Ok?
      && IsLinearOrder(r.value, RemovalAt(secs, ordered, k))
      && StationsOf(RemovalAt(secs, ordered, k)) == path[..k] + path[k + 1..]
      && |r.value| == |secs| - 1
  {
    SameLength(secs, ordered);
    var m := Section(secs[0].line, ordered[k - 1].up, ordered[k].down, ordered[k].distance + ordered[k - 1].distance);
    assert RemovalAt(secs, ordered, k) == ordered[..k - 1] + [m] + ordered[k + 1..];
    RemoveInterior(secs, ordered, k);
  }
}
