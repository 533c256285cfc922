/**
 * The Sections aggregate of one subway line: the line's sections in a mutable
 * list, read back as the ordered station list, grown by adding a section and
 * shrunk by removing a station.
 */
module LineSections {
  import opened Wrappers
  import opened SectionRecord
  import opened LinePath
  import opened SectionInsertion
  import opened SectionRemoval

  /** A line keeps at least this many sections. */
  const MinimumSectionsSize := 1

  class Sections {
    /** The line's sections, in the order they were added. */
    var sections: seq<Section>
    /** The same sections in path order, from the up terminus to the down terminus. */
    ghost var ordered: seq<Section>

    /** The sections form one simple path. */
    ghost predicate Valid()
      reads this
    {
      IsLinearOrder(sections, ordered)
    }

    /** The line's stations in path order. */
    ghost function Stations(): seq<Station>
      reads this
    {
      StationsOf(ordered)
    }

    /** The argument-less constructor persistence uses: a line with no sections yet. */
    constructor Empty()
      ensures Valid() && sections == [] && Stations() == []
    {
      sections := [];
      ordered := [];
    }

    /** A line starts with one section; it is a path exactly when that section is not a loop. */
    constructor (section: Section)
      ensures sections == [section] && ordered == [section]
      ensures Valid() <==> section.up != section.down
      ensures Stations() == [section.up, section.down]
    {
      sections := [section];
      ordered := [section];
      assert StationsOf([section]) == [section.up, section.down];
      assert Distinct([section.up, section.down]) ==> Apart([section.up, section.down], 0, 1);
    }

    /** getLine: the line of the first listed section. */
    function Line(): LineRef
      reads this
      requires sections != []
    {
      sections[0].line
    }

    /**
     * findUpStation: start from the up station of the first listed section and
     * step back along the section ending there until no section ends there.
     */
    method FindUpStation() returns (station: Station)
      requires Valid() && sections != []
      ensures station == Stations()[0]
      ensures forall j :: 0 <= j < |sections| ==> sections[j].down != station
    {
      ghost var path := Stations();
      station := sections[0].up;
      SectionsOnPath(sections, ordered, 0);
      ghost var k: nat := IndexOf(path, station);
      while true
        invariant k < |path| && station == path[k]
        decreases k
      {
        var previous := FindByDown(sections, station);
        PreviousOnPath(sections, ordered, k);
        if previous.None? {
          break;
        }
        station := sections[previous.value].up;
        k := k - 1;
      }
    }

    /**
     * getStations: from the up terminus, step forward along the section that
     * starts at the current station, collecting stations, until none starts there.
     */
    method GetStations() returns (stations: seq<Station>)
      requires Valid()
      ensures stations == Stations()
    {
      SameLength(sections, ordered);
      if sections == [] {
        return [];
      }
      ghost var path := Stations();
      var downStation := FindUpStation();
      stations := [downStation];
      ghost var k: nat := 0;
      while true
        invariant k < |path| && downStation == path[k] && stations == path[..k + 1]
        decreases |path| - k
      {
        var next := FindByUp(sections, downStation);
        NextOnPath(sections, ordered, k);
        if next.None? {
          break;
        }
        downStation := sections[next.value].down;
        stations := stations + [downStation];
        k := k + 1;
      }
    }

    /** addDownStation: the section starting where `sectionToAdd` starts now starts where it ends. */
    method AddDownStation(sectionToAdd: Section)
      modifies this
      ensures sections == SplitAtUp(old(sections), sectionToAdd) && ordered == old(ordered)
    {
      var found := FindByUp(sections, sectionToAdd.up);
      if found.Some? {
        var i := found.value;
        sections := sections[i := sections[i].UpdateUpStation(sectionToAdd.down, sectionToAdd.distance)];
      }
    }

    /** addUpStation: the section ending where `sectionToAdd` ends now ends where it starts. */
    method AddUpStation(sectionToAdd: Section)
      modifies this
      ensures sections == SplitAtDown(old(sections), sectionToAdd) && ordered == old(ordered)
    {
      var found := FindByDown(sections, sectionToAdd.down);
      if found.Some? {
        var i := found.value;
        sections := sections[i := sections[i].UpdateDownStation(sectionToAdd.up, sectionToAdd.distance)];
      }
    }

    /**
     * addLineStations: refuse a section already on the line or detached from
     * it; otherwise split the section it lands in and append it.
     */
    method AddLineStations(section: Section) returns (outcome: Outcome)
      requires Valid()
      modifies this
      ensures var expected := AddSection(old(sections), old(Stations()), section);
        && (outcome.Pass? <==> expected.Ok?)
        && (expected.Err? ==> outcome == Fail(expected.error) && sections == old(sections) && ordered == old(ordered))
        && (expected.Ok? ==> sections == expected.value)
      ensures outcome.Pass? && (old(sections) != [] || section.up != section.down) ==>
        Valid() && Stations() == InsertStation(old(Stations()), section)
    {
      ghost var secs0, ordered0 := sections, ordered;
      var stations := GetStations();
      var isUpStationExisted := section.up in stations;
      var isDownStationExisted := section.down in stations;
      outcome := ValidateIsAllContainsStations(isUpStationExisted, isDownStationExisted);
      if outcome.Fail? {
        return;
      }
      outcome := ValidateIsNotAllContainsStations(section, stations);
      if outcome.Fail? {
        return;
      }
      if isUpStationExisted {
        AddDownStation(section);
      }
      if isDownStationExisted {
        AddUpStation(section);
      }
      sections := sections + [section];
      ordered := InsertedOrder(ordered0, section);
      if secs0 != [] || section.up != section.down {
        AddSectionKeepsPath(secs0, ordered0, section);
      }
    }

    /** removeBetweenSectionStation: append the section spanning the two that meet at `station`. */
    method RemoveBetweenSectionStation(station: Station) returns (outcome: Outcome)
      modifies this
      ensures var expected := MergeAround(old(sections), station);
        && (outcome.Pass? <==> expected.Ok?)
        && (expected.Err? ==> outcome == Fail(expected.error) && sections == old(sections))
        && (expected.Ok? ==> sections == expected.value)
      ensures ordered == old(ordered)
    {
      var upLineStationSection := FindByUp(sections, station);
      if upLineStationSection.None? {
        return Fail(SectionNotFound);
      }
      var downLineStationSection := FindByDown(sections, station);
      if downLineStationSection.None? {
        return Fail(SectionNotFound);
      }
      var leaving, entering := sections[upLineStationSection.value], sections[downLineStationSection.value];
      var newUpStation := entering.up;
      var newDownStation := leaving.down;
      var newDistance := leaving.distance + entering.distance;
      sections := sections + [Section(Line(), newUpStation, newDownStation, newDistance)];
      outcome := Pass;
    }

    /**
     * removeLineStation: refuse on a line of one section; merge around an
     * interior station; drop the sections leaving and entering the station.
     */
    method RemoveLineStation(station: Station) returns (outcome: Outcome)
      requires Valid()
      modifies this
      ensures var expected := RemoveStation(old(sections), old(Stations()), station);
        && (outcome.Pass? <==> expected.Ok?)
        && (expected.Err? ==> outcome == Fail(expected.error) && sections == old(sections) && ordered == old(ordered))
        && (expected.Ok? ==> sections == expected.value)
      ensures outcome.Pass? ==>
        && Valid() && station in old(Stations())
        && Stations() == WithoutStation(old(Stations()), station)
        && |sections| == |old(sections)| - 1
    {
      ghost var secs0, ordered0 := sections, ordered;
      if |sections| <= MinimumSectionsSize {
        assert RemoveStation(secs0, Stations(), station) == Err(TooFewSections);
        return Fail(TooFewSections);
      }
      var stations := GetStations();
      ghost var expected := RemoveStation(old(sections), old(Stations()), station);
      assert expected == RemoveStation(secs0, stations, station);
      SameLength(sections, ordered);
      var up := FindByUp(sections, station);
      var down := FindByDown(sections, station);
      var upLineStationSection := if up.Some? then Some(sections[up.value]) else None;
      var downLineStationSection := if down.Some? then Some(sections[down.value]) else None;
      ghost var merged := if !IsFirstStation(station, stations) && !IsLastStation(station, stations)
        then MergeAround(secs0, station) else Ok(secs0);
      if !IsFirstStation(station, stations) && !IsLastStation(station, stations) {
        outcome := RemoveBetweenSectionStation(station);
        if outcome.Fail? {
          assert expected == Err(merged.error) && expected.Err?;
          return;
        }
      }
      assert merged == Ok(sections);
      if upLineStationSection.Some? {
        sections := RemoveFirst(sections, upLineStationSection.value);
      }
      ghost var afterLeaving := sections;
      if downLineStationSection.Some? {
        sections := RemoveFirst(sections, downLineStationSection.value);
      }
      assert expected == Ok(sections);
      assert expected.Ok?;
      outcome := Pass;
      Reorder(secs0, ordered0, station);
    }

    /** Moves the ghost order along a successful removal. */
    ghost method Reorder(secs0: seq<Section>, ordered0: seq<Section>, station: Station)
      requires IsLinearOrder(secs0, ordered0)
      requires RemoveStation(secs0, StationsOf(ordered0), station) == Ok(sections)
      modifies this
      ensures sections == old(sections)
      ensures Valid() && station in StationsOf(ordered0)
      ensures Stations() == WithoutStation(StationsOf(ordered0), station)
      ensures |sections| == |secs0| - 1
    {
      RemoveStationKeepsPath(secs0, ordered0, station);
      ordered := RemovalOrder(secs0, ordered0, station);
    }
  }
}
