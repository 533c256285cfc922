/**
 * What adding a section to a line does to the section list, as a function of
 * the list and of the station list read from it, and the proof that it keeps
 * the list a single simple path.
 */
module SectionInsertion {
  import opened Wrappers
  import opened SectionRecord
  import opened LinePath

  /**
   * addDownStation: the first section that starts where the new one starts now
   * starts where the new one ends, shortened by the new one's distance.
   */
  function SplitAtUp(secs: seq<Section>, s: Section): (r: seq<Section>)
    ensures |r| == |secs|
    ensures forall j :: 0 <= j < |secs| && secs[j].up != s.up ==> r[j] == secs[j]
    ensures forall j :: 0 <= j < |secs| && secs[j].up == s.up ==>
      r[j] == if FindByUp(secs, s.up) == Some(j) then secs[j].UpdateUpStation(s.down, s.distance) else secs[j]
  {
    match FindByUp(secs, s.up)
    case None => secs
    case Some(j) => secs[j := secs[j].UpdateUpStation(s.down, s.distance)]
  }

  /**
   * addUpStation: the first section that ends where the new one ends now ends
   * where the new one starts, shortened by the new one's distance.
   */
  function SplitAtDown(secs: seq<Section>, s: Section): (r: seq<Section>)
    ensures |r| == |secs|
    ensures forall j :: 0 <= j < |secs| && secs[j].down != s.down ==> r[j] == secs[j]
    ensures forall j :: 0 <= j < |secs| && secs[j].down == s.down ==>
      r[j] == if FindByDown(secs, s.down) == Some(j) then secs[j].UpdateDownStation(s.up, s.distance) else secs[j]
  {
    match FindByDown(secs, s.down)
    case None => secs
    case Some(j) => secs[j := secs[j].UpdateDownStation(s.up, s.distance)]
  }

  /** validateIsAllContainsStations: a section whose two stations are both on the line is refused. */
  function ValidateIsAllContainsStations(isUpStationExisted: bool, isDownStationExisted: bool): (o: Outcome)
    ensures o.Fail? <==> isUpStationExisted && isDownStationExisted
    ensures o.Fail? ==> o.error == AlreadyRegistered
  {
    if isUpStationExisted && isDownStationExisted then Fail(AlreadyRegistered) else Pass
  }

  /** validateIsNotAllContainsStations: on a non-empty line, a section touching none of its stations is refused. */
  function ValidateIsNotAllContainsStations(s: Section, stations: seq<Station>): (o: Outcome)
    ensures o.Fail? <==> stations != [] && s.up !in stations && s.down !in stations
    ensures o.Fail? ==> o.error == NotConnectable
  {
    if stations != [] && s.up !in stations && s.down !in stations then Fail(NotConnectable) else Pass
  }

  /**
   * addLineStations, given the line's station list: refuse a section whose two
   * stations are both on the line, refuse one that touches a non-empty line at
   * neither station, otherwise split the section it lands in and append it.
   */
  function AddSection(secs: seq<Section>, stations: seq<Station>, s: Section): (r: Result<seq<Section>>)
    ensures r == Err(AlreadyRegistered) <==> s.up in stations && s.down in stations
    ensures r == Err(NotConnectable) <==> stations != [] && s.up !in stations && s.down !in stations
    ensures r.Err? ==> r.error == AlreadyRegistered || r.error == NotConnectable
    ensures r.Ok? ==> |r.value| == |secs| + 1 && r.value[|secs|] == s
    ensures r.Ok? ==> forall j :: 0 <= j < |secs| && r.value[j] != secs[j] ==>
      (secs[j].up == s.up && s.up in stations) || (secs[j].down == s.down && s.down in stations)
    ensures r.Ok? ==> forall i, j :: 0 <= i < j < |secs| ==> r.value[i] == secs[i] || r.value[j] == secs[j]
    ensures r.Ok? && stations == [] ==> r.value == secs + [s]
  {
    var upIn := s.up in stations;
    var downIn := s.down in stations;
    var allContained := ValidateIsAllContainsStations(upIn, downIn);
    var detached := ValidateIsNotAllContainsStations(s, stations);
    if allContained.Fail? then Err(allContained.error)
    else if detached.Fail? then Err(detached.error)
    else
      var afterUp := if upIn then SplitAtUp(secs, s) else secs;
      var afterDown := if downIn then SplitAtDown(afterUp, s) else afterUp;
      Ok(afterDown + [s])
  }

  /** The station list after `s` joins the line whose station list is `path`. */
  function InsertStation(path: seq<Station>, s: Section): (q: seq<Station>)
    ensures path == [] ==> q == [s.up, s.down]
    ensures path != [] && s.up in path ==> |q| == |path| + 1 && q[IndexOf(path, s.up) + 1] == s.down
    ensures path != [] && s.up !in path && s.down in path ==> |q| == |path| + 1 && q[IndexOf(path, s.down)] == s.up
  {
    if path == [] then [s.up, s.down]
    else if s.up in path then
      var k := IndexOf(path, s.up);
      path[..k + 1] + [s.down] + path[k + 1..]
    else if s.down in path then
      var k := IndexOf(path, s.down);
      path[..k] + [s.up] + path[k..]
    else path
  }

  /** The order of the line's sections after `s` is added to the line ordered as `ordered`. */
  ghost function InsertedOrder(ordered: seq<Section>, s: Section): seq<Section>
  {
    var path := StationsOf(ordered);
    if ordered == [] then [s]
    else if s.up in path then
      var k := IndexOf(path, s.up);
      if k < |ordered| then ordered[..k] + [s, ordered[k].UpdateUpStation(s.down, s.distance)] + ordered[k + 1..]
      else ordered + [s]
    else if s.down in path then
      var k := IndexOf(path, s.down);
      if 0 < k then ordered[..k - 1] + [ordered[k - 1].UpdateDownStation(s.up, s.distance), s] + ordered[k..]
      else [s] + ordered
    else ordered
  }

  lemma {:induction false} DistinctInsert(path: seq<Station>, k: nat, x: Station)
    requires Distinct(path) && x !in path && k <= |path|
    ensures Distinct(path[..k] + [x] + path[k..])
  {
    var q := path[..k] + [x] + path[k..];
    forall i, j | 0 <= i < j < |q|
      ensures Apart(q, i, j)
    {
      if i < k && j > k {
        assert q[i] == path[i] && q[j] == path[j - 1];
        assert Apart(path, i, j - 1);
      } else if i < k && j < k {
        assert q[i] == path[i] && q[j] == path[j];
        assert Apart(path, i, j);
      } else if i > k {
        assert q[i] == path[i - 1] && q[j] == path[j - 1];
        assert Apart(path, i - 1, j - 1);
      }
    }
  }

  /** Section k is replaced by `a` and `b`, keeping the multiset in step with a list that swapped one section for `a` and gained `b`. */
  lemma MultisetSplit(secs: seq<Section>, j: nat, a: Section, ordered: seq<Section>, k: nat, b: Section, front: bool)
    requires j < |secs| && k < |ordered| && secs[j] == ordered[k]
    requires multiset(secs) == multiset(ordered)
    ensures multiset(secs[j := a] + [b]) ==
      multiset(ordered[..k] + (if front then [b, a] else [a, b]) + ordered[k + 1..])
  {
    assert ordered == ordered[..k] + [ordered[k]] + ordered[k + 1..];
  }

  /** Adding a section keeps the single-path shape and inserts the new station next to the one it shares. */
  lemma AddSectionKeepsPath(secs: seq<Section>, ordered: seq<Section>, s: Section)
    requires IsLinearOrder(secs, ordered)
    requires AddSection(secs, StationsOf(ordered), s).Ok?
    requires secs != [] || s.up != s.down
    ensures IsLinearOrder(AddSection(secs, StationsOf(ordered), s).value, InsertedOrder(ordered, s))
    ensures StationsOf(InsertedOrder(ordered, s)) == InsertStation(StationsOf(ordered), s)
  {
    var path := StationsOf(ordered);
    SameLength(secs, ordered);
    if ordered == [] {
      assert AddSection(secs, path, s).value == [s];
      assert StationsOf([s]) == [s.up, s.down];
    } else if s.up in path {
      AddAtUp(secs, ordered, s);
    } else {
      AddAtDown(secs, ordered, s);
    }
  }

  lemma AddAtUp(secs: seq<Section>, ordered: seq<Section>, s: Section)
    requires IsLinearOrder(secs, ordered) && ordered != []
    requires s.up in StationsOf(ordered) && s.down !in StationsOf(ordered)
    ensures IsLinearOrder(AddSection(secs, StationsOf(ordered), s).value, InsertedOrder(ordered, s))
    ensures StationsOf(InsertedOrder(ordered, s)) == InsertStation(StationsOf(ordered), s)
  {
    var path := StationsOf(ordered);
    assert AddSection(secs, path, s).value == SplitAtUp(secs, s) + [s] by {
      assert ValidateIsAllContainsStations(true, false) == Pass;
      assert ValidateIsNotAllContainsStations(s, path) == Pass;
    }
    var k := IndexOf(path, s.up);
    UpLookupOnPath(secs, ordered, k);
    if k < |ordered| {
      AddSplittingForward(secs, ordered, s, k);
    } else {
      AddAtDownTerminus(secs, ordered, s);
    }
  }

  lemma AddSplittingForward(secs: seq<Section>, ordered: seq<Section>, s: Section, k: nat)
    requires IsLinearOrder(secs, ordered) && ordered != []
    requires s.up in StationsOf(ordered) && s.down !in StationsOf(ordered)
    requires k == IndexOf(StationsOf(ordered), s.up) && k < |ordered|
    requires FindByUp(secs, s.up).Some? && secs[FindByUp(secs, s.up).value] == ordered[k]
    ensures IsLinearOrder(SplitAtUp(secs, s) + [s], InsertedOrder(ordered, s))
    ensures StationsOf(InsertedOrder(ordered, s)) == InsertStation(StationsOf(ordered), s)
  {
    var path := StationsOf(ordered);
    var e := ordered[k].UpdateUpStation(s.down, s.distance);
    var o := ordered[..k] + [s, e] + ordered[k + 1..];
    assert InsertedOrder(ordered, s) == o;
    assert InsertStation(path, s) == path[..k + 1] + [s.down] + path[k + 1..];
    SplitForward(secs, ordered, s, k);
  }

  lemma AddAtDownTerminus(secs: seq<Section>, ordered: seq<Section>, s: Section)
    requires IsLinearOrder(secs, ordered) && ordered != []
    requires s.up in StationsOf(ordered) && s.down !in StationsOf(ordered)
    requires IndexOf(StationsOf(ordered), s.up) == |ordered|
    requires FindByUp(secs, s.up).None?
    ensures IsLinearOrder(SplitAtUp(secs, s) + [s], InsertedOrder(ordered, s))
    ensures StationsOf(InsertedOrder(ordered, s)) == InsertStation(StationsOf(ordered), s)
  {
    var path, k := StationsOf(ordered), |ordered|;
    assert InsertedOrder(ordered, s) == ordered + [s];
    assert InsertStation(path, s) == path + [s.down] by {
      assert path[..k + 1] == path && path[k + 1..] == [];
      assert InsertStation(path, s) == path[..k + 1] + [s.down] + path[k + 1..];
    }
    ExtendDownTerminus(secs, ordered, s);
  }

  lemma AddAtDown(secs: seq<Section>, ordered: seq<Section>, s: Section)
    requires IsLinearOrder(secs, ordered) && ordered != []
    requires s.up !in StationsOf(ordered) && s.down in StationsOf(ordered)
    ensures IsLinearOrder(AddSection(secs, StationsOf(ordered), s).value, InsertedOrder(ordered, s))
    ensures StationsOf(InsertedOrder(ordered, s)) == InsertStation(StationsOf(ordered), s)
  {
    var path := StationsOf(ordered);
    assert AddSection(secs, path, s).value == SplitAtDown(secs, s) + [s] by {
      assert ValidateIsAllContainsStations(false, true) == Pass;
      assert ValidateIsNotAllContainsStations(s, path) == Pass;
    }
    var k := IndexOf(path, s.down);
    DownLookupOnPath(secs, ordered, k);
    if 0 < k {
      AddSplittingBackward(secs, ordered, s, k);
    } else {
      AddAtUpTerminus(secs, ordered, s);
    }
  }

  lemma AddSplittingBackward(secs: seq<Section>, ordered: seq<Section>, s: Section, k: nat)
    requires IsLinearOrder(secs, ordered) && ordered != []
    requires s.up !in StationsOf(ordered) && s.down in StationsOf(ordered)
    requires k == IndexOf(StationsOf(ordered), s.down) && 0 < k
    requires FindByDown(secs, s.down).Some? && secs[FindByDown(secs, s.down).value] == ordered[k - 1]
    ensures IsLinearOrder(SplitAtDown(secs, s) + [s], InsertedOrder(ordered, s))
    ensures StationsOf(InsertedOrder(ordered, s)) == InsertStation(StationsOf(ordered), s)
  {
    var path := StationsOf(ordered);
    var e := ordered[k - 1].UpdateDownStation(s.up, s.distance);
    var o := ordered[..k - 1] + [e, s] + ordered[k..];
    assert InsertedOrder(ordered, s) == o;
    assert InsertStation(path, s) == path[..k] + [s.up] + path[k..];
    SplitBackward(secs, ordered, s, k);
  }

  lemma AddAtUpTerminus(secs: seq<Section>, ordered: seq<Section>, s: Section)
    requires IsLinearOrder(secs, ordered) && ordered != []
    requires s.up !in StationsOf(ordered) && s.down in StationsOf(ordered)
    requires IndexOf(StationsOf(ordered), s.down) == 0
    requires FindByDown(secs, s.down).None?
    ensures IsLinearOrder(SplitAtDown(secs, s) + [s], InsertedOrder(ordered, s))
    ensures StationsOf(InsertedOrder(ordered, s)) == InsertStation(StationsOf(ordered), s)
  {
    var path := StationsOf(ordered);
    assert InsertedOrder(ordered, s) == [s] + ordered;
    assert InsertStation(path, s) == [s.up] + path by {
      assert path[..0] + [s.up] + path[0..] == [s.up] + path;
    }
    ExtendUpTerminus(secs, ordered, s);
  }

  /** Splitting the section that leaves station k of the path. */
  lemma SplitForward(secs: seq<Section>, ordered: seq<Section>, s: Section, k: nat)
    requires IsLinearOrder(secs, ordered)
    requires k < |ordered| && StationsOf(ordered)[k] == s.up
    requires s.down !in StationsOf(ordered)
    requires FindByUp(secs, s.up).Some? && secs[FindByUp(secs, s.up).value] == ordered[k]
    ensures var e := ordered[k].UpdateUpStation(s.down, s.distance);
      var o := ordered[..k] + [s, e] + ordered[k + 1..];
      var path := StationsOf(ordered);
      && IsLinearOrder(SplitAtUp(secs, s) + [s], o)
      && StationsOf(o) == path[..k + 1] + [s.down] + path[k + 1..]
  {
    var path := StationsOf(ordered);
    var j := FindByUp(secs, s.up).value;
    var e := ordered[k].UpdateUpStation(s.down, s.distance);
    assert SplitAtUp(secs, s) == secs[j := e];
    MultisetSplit(secs, j, e, ordered, k, s, true);
    StationsAt(ordered, k);
    InsertedLinkedUp(ordered, k, s);
    DistinctInsert(path, k + 1, s.down);
  }

  /** A section leaving the down terminus extends the line there. */
  lemma ExtendDownTerminus(secs: seq<Section>, ordered: seq<Section>, s: Section)
    requires IsLinearOrder(secs, ordered) && ordered != []
    requires s.up == StationsOf(ordered)[|ordered|] && s.down !in StationsOf(ordered)
    requires FindByUp(secs, s.up).None?
    ensures IsLinearOrder(SplitAtUp(secs, s) + [s], ordered + [s])
    ensures StationsOf(ordered + [s]) == StationsOf(ordered) + [s.down]
  {
    var path := StationsOf(ordered);
    assert SplitAtUp(secs, s) == secs;
    StationsAt(ordered, |ordered|);
    AppendedPath(ordered, s);
    assert multiset(secs + [s]) == multiset(ordered + [s]) by {
      assert multiset(secs + [s]) == multiset(secs) + multiset{s};
      assert multiset(ordered + [s]) == multiset(ordered) + multiset{s};
    }
    DistinctAppend(path, s.down);
  }

  lemma DistinctAppend(path: seq<Station>, x: Station)
    requires Distinct(path) && x !in path
    ensures Distinct(path + [x])
  {
    DistinctInsert(path, |path|, x);
    assert path[..|path|] + [x] + path[|path|..] == path + [x];
  }

  /** A linked order extended at its down end. */
  lemma AppendedPath(ordered: seq<Section>, s: Section)
    requires Linked(ordered) && ordered != [] && ordered[|ordered| - 1].down == s.up
    ensures Linked(ordered + [s])
    ensures StationsOf(ordered + [s]) == StationsOf(ordered) + [s.down]
  {
    var n, o := |ordered|, ordered + [s];
    forall i | 0 <= i < n
      ensures JoinsNext(o, i)
    {
      if i < n - 1 {
        assert o[i] == ordered[i] && o[i + 1] == ordered[i + 1] && JoinsNext(ordered, i);
      }
    }
    var path, q := StationsOf(ordered), StationsOf(ordered) + [s.down];
    forall i | 0 <= i < |q|
      ensures StationsOf(o)[i] == q[i]
    {
      StationIndex(o, i);
      if i == 0 {
        StationIndex(ordered, 0);
      } else if i <= n {
        StationIndex(ordered, i);
        assert o[i - 1] == ordered[i - 1];
      }
    }
  }

  /** A section entering the up terminus extends the line there. */
  lemma ExtendUpTerminus(secs: seq<Section>, ordered: seq<Section>, s: Section)
    requires IsLinearOrder(secs, ordered) && ordered != []
    requires s.down == StationsOf(ordered)[0] && s.up !in StationsOf(ordered)
    requires FindByDown(secs, s.down).None?
    ensures IsLinearOrder(SplitAtDown(secs, s) + [s], [s] + ordered)
    ensures StationsOf([s] + ordered) == [s.up] + StationsOf(ordered)
  {
    var path := StationsOf(ordered);
    assert SplitAtDown(secs, s) == secs;
    assert Linked([s] + ordered) && StationsOf([s] + ordered) == [s.up] + path by {
      StationsAt(ordered, 0);
      PrependedPath(ordered, s);
    }
    assert multiset(secs + [s]) == multiset([s] + ordered) by {
      assert multiset(secs + [s]) == multiset(secs) + multiset{s};
      assert multiset([s] + ordered) == multiset{s} + multiset(ordered);
    }
    DistinctPrepend(path, s.up);
  }

  lemma DistinctPrepend(path: seq<Station>, x: Station)
    requires Distinct(path) && x !in path
    ensures Distinct([x] + path)
  {
    DistinctInsert(path, 0, x);
    assert path[..0] + [x] + path[0..] == [x] + path;
  }

  /** A linked order extended at its up end. */
  lemma PrependedPath(ordered: seq<Section>, s: Section)
    requires Linked(ordered) && ordered != [] && s.down == ordered[0].up
    ensures Linked([s] + ordered)
    ensures StationsOf([s] + ordered) == [s.up] + StationsOf(ordered)
  {
    var o := [s] + ordered;
    forall i | 0 <= i < |ordered|
      ensures JoinsNext(o, i)
    {
      if 0 < i {
        assert o[i] == ordered[i - 1] && o[i + 1] == ordered[i] && JoinsNext(ordered, i - 1);
      }
    }
    var path, q := StationsOf(ordered), [s.up] + StationsOf(ordered);
    forall i | 0 <= i < |q|
      ensures StationsOf(o)[i] == q[i]
    {
      StationIndex(o, i);
      if 0 < i {
        StationIndex(ordered, i - 1);
        if 1 < i {
          assert o[i - 1] == ordered[i - 2];
        }
      }
    }
  }

  /** Splitting the section that enters station k of the path. */
  lemma SplitBackward(secs: seq<Section>, ordered: seq<Section>, s: Section, k: nat)
    requires IsLinearOrder(secs, ordered)
    requires 0 < k < |StationsOf(ordered)| && StationsOf(ordered)[k] == s.down
    requires s.up !in StationsOf(ordered)
    requires FindByDown(secs, s.down).Some? && secs[FindByDown(secs, s.down).value] == ordered[k - 1]
    ensures var e := ordered[k - 1].UpdateDownStation(s.up, s.distance);
      var o := ordered[..k - 1] + [e, s] + ordered[k..];
      var path := StationsOf(ordered);
      && IsLinearOrder(SplitAtDown(secs, s) + [s], o)
      && StationsOf(o) == path[..k] + [s.up] + path[k..]
  {
    var path := StationsOf(ordered);
    var j := FindByDown(secs, s.down).value;
    var e := ordered[k - 1].UpdateDownStation(s.up, s.distance);
    assert SplitAtDown(secs, s) == secs[j := e];
    MultisetSplit(secs, j, e, ordered, k - 1, s, false);
    assert ordered[..k - 1] + [e, s] + ordered[k - 1 + 1..] == ordered[..k - 1] + [e, s] + ordered[k..];
    StationsAt(ordered, k);
    InsertedLinkedDown(ordered, k, s);
    DistinctInsert(path, k, s.up);
  }

  /** The split-forward order is linked and walks through `s.down` right after `s.up`. */
  lemma InsertedLinkedUp(ordered: seq<Section>, k: nat, s: Section)
    requires Linked(ordered) && k < |ordered| && ordered[k].up == s.up
    ensures var e := ordered[k].UpdateUpStation(s.down, s.distance);
      var o := ordered[..k] + [s, e] + ordered[k + 1..];
      var path := StationsOf(ordered);
      Linked(o) && StationsOf(o) == path[..k + 1] + [s.down] + path[k + 1..]
  {
    var e := ordered[k].UpdateUpStation(s.down, s.distance);
    LinkedAroundUp(ordered, k, s, e);
    StationsAroundUp(ordered, k, s, e);
  }

  lemma LinkedAroundUp(ordered: seq<Section>, k: nat, s: Section, e: Section)
    requires Linked(ordered) && k < |ordered| && ordered[k].up == s.up
    requires e.up == s.down && e.down == ordered[k].down
    ensures Linked(ordered[..k] + [s, e] + ordered[k + 1..])
  {
    var o := ordered[..k] + [s, e] + ordered[k + 1..];
    forall i | 0 <= i < |o| - 1
      ensures JoinsNext(o, i)
    {
      if i < k - 1 {
        assert o[i] == ordered[i] && o[i + 1] == ordered[i + 1] && JoinsNext(ordered, i);
      } else if i == k - 1 {
        assert o[i] == ordered[k - 1] && o[i + 1] == s && JoinsNext(ordered, k - 1);
      } else if i == k {
        assert o[i] == s && o[i + 1] == e;
      } else if i == k + 1 {
        assert o[i] == e && o[i + 1] == ordered[k + 1] && JoinsNext(ordered, k);
      } else {
        assert o[i] == ordered[i - 1] && o[i + 1] == ordered[i] && JoinsNext(ordered, i - 1);
      }
    }
  }

  lemma StationsAroundUp(ordered: seq<Section>, k: nat, s: Section, e: Section)
    requires Linked(ordered) && k < |ordered| && ordered[k].up == s.up
    requires e.down == ordered[k].down
    ensures var path := StationsOf(ordered);
      StationsOf(ordered[..k] + [s, e] + ordered[k + 1..]) == path[..k + 1] + [s.down] + path[k + 1..]
  {
    var o := ordered[..k] + [s, e] + ordered[k + 1..];
    var path := StationsOf(ordered);
    var q := path[..k + 1] + [s.down] + path[k + 1..];
    assert |StationsOf(o)| == |q|;
    forall i | 0 <= i < |q|
      ensures StationsOf(o)[i] == q[i]
    {
      StationIndex(o, i);
      if i == 0 {
        StationsAt(ordered, 0);
        assert o[0].up == ordered[0].up;
      } else if i <= k {
        StationIndex(ordered, i);
        assert o[i - 1] == ordered[i - 1] && q[i] == path[i];
      } else if i == k + 1 {
        assert o[k] == s;
      } else if i == k + 2 {
        StationIndex(ordered, k + 1);
        assert o[k + 1] == e && q[i] == path[k + 1];
      } else {
        StationIndex(ordered, i - 1);
        assert o[i - 1] == ordered[i - 2] && q[i] == path[i - 1];
      }
    }
  }

  /** The split-backward order is linked and walks through `s.up` right before `s.down`. */
  lemma InsertedLinkedDown(ordered: seq<Section>, k: nat, s: Section)
    requires Linked(ordered) && 0 < k <= |ordered| && ordered[k - 1].down == s.down
    ensures var e := ordered[k - 1].UpdateDownStation(s.up, s.distance);
      var o := ordered[..k - 1] + [e, s] + ordered[k..];
      var path := StationsOf(ordered);
      Linked(o) && StationsOf(o) == path[..k] + [s.up] + path[k..]
  {
    var e := ordered[k - 1].UpdateDownStation(s.up, s.distance);
    LinkedAroundDown(ordered, k, s, e);
    StationsAroundDown(ordered, k, s, e);
  }

  lemma LinkedAroundDown(ordered: seq<Section>, k: nat, s: Section, e: Section)
    requires Linked(ordered) && 0 < k <= |ordered| && ordered[k - 1].down == s.down
    requires e.up == ordered[k - 1].up && e.down == s.up
    ensures Linked(ordered[..k - 1] + [e, s] + ordered[k..])
  {
    var o := ordered[..k - 1] + [e, s] + ordered[k..];
    forall i | 0 <= i < |o| - 1
      ensures JoinsNext(o, i)
    {
      if i < k - 2 {
        assert o[i] == ordered[i] && o[i + 1] == ordered[i + 1] && JoinsNext(ordered, i);
      } else if i == k - 2 {
        assert o[i] == ordered[k - 2] && o[i + 1] == e && JoinsNext(ordered, k - 2);
      } else if i == k - 1 {
        assert o[i] == e && o[i + 1] == s;
      } else if i == k {
        assert o[i] == s && o[i + 1] == ordered[k] && JoinsNext(ordered, k - 1);
      } else {
        assert o[i] == ordered[i - 1] && o[i + 1] == ordered[i] && JoinsNext(ordered, i - 1);
      }
    }
  }

  lemma StationsAroundDown(ordered: seq<Section>, k: nat, s: Section, e: Section)
    requires Linked(ordered) && 0 < k <= |ordered| && ordered[k - 1].down == s.down
    requires e.up == ordered[k - 1].up && e.down == s.up
    ensures var path := StationsOf(ordered);
      StationsOf(ordered[..k - 1] + [e, s] + ordered[k..]) == path[..k] + [s.up] + path[k..]
  {
    var o := ordered[..k - 1] + [e, s] + ordered[k..];
    var path := StationsOf(ordered);
    var q := path[..k] + [s.up] + path[k..];
    assert |StationsOf(o)| == |q|;
    forall i | 0 <= i < |q|
      ensures StationsOf(o)[i] == q[i]
    {
      StationIndex(o, i);
      if i == 0 {
        StationIndex(ordered, 0);
        assert o[0].up == ordered[0].up && q[0] == path[0];
      } else if i < k {
        StationIndex(ordered, i);
        assert o[i - 1] == ordered[i - 1] && q[i] == path[i];
      } else if i == k {
        assert o[k - 1] == e;
      } else if i == k + 1 {
        StationIndex(ordered, k);
        assert o[k] == s && q[i] == path[k];
      } else {
        StationIndex(ordered, i - 1);
        assert o[i - 1] == ordered[i - 2] && q[i] == path[i - 1];
      }
    }
  }
}
