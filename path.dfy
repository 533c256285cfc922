/**
 * The shape a line's sections must have: read in the right order they form one
 * simple path from the up terminus to the down terminus. The list itself is
 * unordered; a ghost `ordered` sequence is that right order.
 */
module LinePath {
  import opened Wrappers
  import opened SectionRecord

  /** The first section whose up station is `x` (a stream filter with findFirst). */
  function FindByUp(secs: seq<Section>, x: Station): (r: Option<nat>)
    ensures r.Some? ==> r.value < |secs| && secs[r.value].up == x
    ensures r.Some? ==> forall j :: 0 <= j < r.value ==> secs[j].up != x
    ensures r.None? <==> forall j :: 0 <= j < |secs| ==> secs[j].up != x
  {
    if secs == [] then None
    else if secs[0].up == x then Some(0)
    else match FindByUp(secs[1..], x)
      case None => None
      case Some(i) => Some(i + 1)
  }

  /** The first section whose down station is `x`. */
  function FindByDown(secs: seq<Section>, x: Station): (r: Option<nat>)
    ensures r.Some? ==> r.value < |secs| && secs[r.value].down == x
    ensures r.Some? ==> forall j :: 0 <= j < r.value ==> secs[j].down != x
    ensures r.None? <==> forall j :: 0 <= j < |secs| ==> secs[j].down != x
  {
    if secs == [] then None
    else if secs[0].down == x then Some(0)
    else match FindByDown(secs[1..], x)
      case None => None
      case Some(i) => Some(i + 1)
  }

  /** Each section ends where the next one starts. */
  ghost predicate Linked(ordered: seq<Section>) {
    forall i {:trigger JoinsNext(ordered, i)} :: 0 <= i < |ordered| - 1 ==> JoinsNext(ordered, i)
  }

  /** Section i ends where section i + 1 starts. */
  ghost predicate JoinsNext(ordered: seq<Section>, i: int)
    requires 0 <= i < |ordered| - 1
  {
    ordered[i].down == ordered[i + 1].up
  }

  /** The down stations of `ordered`, in order. */
  function Downs(ordered: seq<Section>): (r: seq<Station>)
    ensures |r| == |ordered|
  {
    if ordered == [] then [] else [ordered[0].down] + Downs(ordered[1..])
  }

  /** Entry i of the down stations is the down station of section i. */
  lemma {:induction false} DownsAt(ordered: seq<Section>, i: nat)
    requires i < |ordered|
    ensures Downs(ordered)[i] == ordered[i].down
  {
    if 0 < i {
      DownsAt(ordered[1..], i - 1);
    }
  }

  /** The stations met when walking `ordered` from its first section to its last. */
  function StationsOf(ordered: seq<Section>): (path: seq<Station>)
    ensures |path| == if ordered == [] then 0 else |ordered| + 1
  {
    if ordered == [] then [] else [ordered[0].up] + Downs(ordered)
  }

  /** Station i of the walk is the first section's up station, or else the down station of section i - 1. */
  lemma StationIndex(ordered: seq<Section>, i: nat)
    requires i < |StationsOf(ordered)|
    ensures StationsOf(ordered)[i] == if i == 0 then ordered[0].up else ordered[i - 1].down
  {
    if 0 < i {
      DownsAt(ordered, i - 1);
    }
  }

  /** No station is met twice. */
  ghost predicate Distinct(path: seq<Station>) {
    forall i, j {:trigger Apart(path, i, j)} :: 0 <= i < j < |path| ==> Apart(path, i, j)
  }

  /** Stations i and j differ. */
  ghost predicate Apart(path: seq<Station>, i: int, j: int)
    requires 0 <= i < j < |path|
  {
    path[i] != path[j]
  }

  /** In a list without repeats, two positions hold the same station only if they are the same position. */
  lemma SamePosition(path: seq<Station>, i: nat, j: nat)
    requires Distinct(path) && i < |path| && j < |path|
    ensures path[i] == path[j] <==> i == j
  {
    if i < j {
      assert Apart(path, i, j);
    } else if j < i {
      assert Apart(path, j, i);
    }
  }

  /**
   * `ordered` holds exactly the sections of `secs` (as a multiset) and lists them
   * as one simple path: linked end to start, no station met twice.
   */
  ghost predicate IsLinearOrder(secs: seq<Section>, ordered: seq<Section>) {
    && multiset(secs) == multiset(ordered)
    && Linked(ordered)
    && Distinct(StationsOf(ordered))
  }

  /** Two lists holding the same sections have the same length. */
  lemma SameLength(secs: seq<Section>, ordered: seq<Section>)
    requires multiset(secs) == multiset(ordered)
    ensures |secs| == |ordered|
  {
    assert |secs| == |multiset(secs)| == |multiset(ordered)| == |ordered|;
  }

  /** A slice of a list without repeats has no repeats. */
  lemma DistinctSlice(path: seq<Station>, a: nat, b: nat)
    requires Distinct(path) && a <= b <= |path|
    ensures Distinct(path[a..b])
  {
    forall i, j | 0 <= i < j < b - a
      ensures Apart(path[a..b], i, j)
    {
      assert path[a..b][i] == path[a + i] && path[a..b][j] == path[a + j];
      assert Apart(path, a + i, a + j);
    }
  }

  /** The position of the first occurrence of `x` in a list. */
  function IndexOf<T(==)>(path: seq<T>, x: T): (k: nat)
    requires x in path
    ensures k < |path| && path[k] == x
    ensures forall i :: 0 <= i < k ==> path[i] != x
  {
    if path[0] == x then 0 else 1 + IndexOf(path[1..], x)
  }

  /** On a linked order, station k is the up station of section k and the down station of section k - 1. */
  lemma {:induction false} StationsAt(ordered: seq<Section>, k: nat)
    requires Linked(ordered)
    requires k < |StationsOf(ordered)|
    ensures k < |ordered| ==> StationsOf(ordered)[k] == ordered[k].up
    ensures 0 < k ==> StationsOf(ordered)[k] == ordered[k - 1].down
  {
    StationIndex(ordered, k);
    if 0 < k < |ordered| {
      assert JoinsNext(ordered, k - 1);
    }
  }

  /**
   * Looking up a station of the path by up station finds section k, except at
   * the down terminus, where nothing is found.
   */
  lemma UpLookupOnPath(secs: seq<Section>, ordered: seq<Section>, k: nat)
    requires IsLinearOrder(secs, ordered)
    requires k < |StationsOf(ordered)|
    ensures var r := FindByUp(secs, StationsOf(ordered)[k]);
      && (r.Some? <==> k < |ordered|)
      && (r.Some? ==> secs[r.value] == ordered[k])
  {
    var path := StationsOf(ordered);
    var r := FindByUp(secs, path[k]);
    StationsAt(ordered, k);
    if k < |ordered| {
      assert ordered[k] in multiset(secs);
      var j :| 0 <= j < |secs| && secs[j] == ordered[k];
      assert secs[j].up == path[k];
    }
    if r.Some? {
      var s := secs[r.value];
      assert s in multiset(ordered);
      var i :| 0 <= i < |ordered| && ordered[i] == s;
      StationsAt(ordered, i);
      assert path[i] == path[k];
      SamePosition(path, i, k);
    }
  }

  /**
   * Looking up a station of the path by down station finds section k - 1,
   * except at the up terminus, where nothing is found.
   */
  lemma DownLookupOnPath(secs: seq<Section>, ordered: seq<Section>, k: nat)
    requires IsLinearOrder(secs, ordered)
    requires k < |StationsOf(ordered)|
    ensures var r := FindByDown(secs, StationsOf(ordered)[k]);
      && (r.Some? <==> 0 < k)
      && (r.Some? ==> secs[r.value] == ordered[k - 1])
  {
    var path := StationsOf(ordered);
    var r := FindByDown(secs, path[k]);
    StationsAt(ordered, k);
    if 0 < k {
      assert ordered[k - 1] in multiset(secs);
      var j :| 0 <= j < |secs| && secs[j] == ordered[k - 1];
      assert secs[j].down == path[k];
    }
    if r.Some? {
      var s := secs[r.value];
      assert s in multiset(ordered);
      var i :| 0 <= i < |ordered| && ordered[i] == s;
      StationsAt(ordered, i + 1);
      assert path[i + 1] == path[k];
      SamePosition(path, i + 1, k);
    }
  }

  /** The section leaving station k of the path, when there is one, arrives at station k + 1. */
  lemma NextOnPath(secs: seq<Section>, ordered: seq<Section>, k: nat)
    requires IsLinearOrder(secs, ordered)
    requires k < |StationsOf(ordered)|
    ensures var path, r := StationsOf(ordered), FindByUp(secs, StationsOf(ordered)[k]);
      && (r.Some? <==> k < |ordered|)
      && (r.Some? ==> secs[r.value].down == path[k + 1] && path[..k + 2] == path[..k + 1] + [path[k + 1]])
  {
    var path := StationsOf(ordered);
    UpLookupOnPath(secs, ordered, k);
    if k < |ordered| {
      StationsAt(ordered, k + 1);
      assert path[..k + 2] == path[..k + 1] + [path[k + 1]];
    }
  }

  /** The section entering station k of the path, when there is one, departs from station k - 1. */
  lemma PreviousOnPath(secs: seq<Section>, ordered: seq<Section>, k: nat)
    requires IsLinearOrder(secs, ordered)
    requires k < |StationsOf(ordered)|
    ensures var path, r := StationsOf(ordered), FindByDown(secs, StationsOf(ordered)[k]);
      && (r.Some? <==> 0 < k)
      && (r.Some? ==> secs[r.value].up == path[k - 1])
  {
    DownLookupOnPath(secs, ordered, k);
    if 0 < k {
      StationsAt(ordered, k - 1);
    }
  }

  /** Every station any section touches is on the path. */
  lemma SectionsOnPath(secs: seq<Section>, ordered: seq<Section>, j: nat)
    requires IsLinearOrder(secs, ordered)
    requires j < |secs|
    ensures secs[j].up in StationsOf(ordered) && secs[j].down in StationsOf(ordered)
  {
    assert secs[j] in multiset(ordered);
    var i :| 0 <= i < |ordered| && ordered[i] == secs[j];
    StationsAt(ordered, i);
    StationsAt(ordered, i + 1);
  }

  /** A station off the path is no section's up station and no section's down station. */
  lemma OffPathLookup(secs: seq<Section>, ordered: seq<Section>, x: Station)
    requires IsLinearOrder(secs, ordered)
    requires x !in StationsOf(ordered)
    ensures FindByUp(secs, x).None? && FindByDown(secs, x).None?
  {
    forall j | 0 <= j < |secs|
      ensures secs[j].up != x && secs[j].down != x
    {
      SectionsOnPath(secs, ordered, j);
    }
  }

  /**
   * The station list of a single simple path: empty for no sections, otherwise
   * one longer than the section list, without repeats, and starting at the one
   * station that is no section's down station.
   */
  lemma Linearisation(secs: seq<Section>, ordered: seq<Section>)
    requires IsLinearOrder(secs, ordered)
    ensures var path := StationsOf(ordered);
      && (secs == [] <==> path == [])
      && (secs != [] ==> |path| == |secs| + 1)
      && Distinct(path)
      && (secs != [] ==> forall j :: 0 <= j < |secs| ==> secs[j].down != path[0])
  {
    SameLength(secs, ordered);
    if secs != [] {
      DownLookupOnPath(secs, ordered, 0);
    }
  }

  /** Some section of `secs` ends at `x`. */
  ghost predicate Entered(secs: seq<Section>, x: Station) {
    exists j :: 0 <= j < |secs| && secs[j].down == x
  }

  /** Some section of `secs` runs from `x` to `y`. */
  ghost predicate Joined(secs: seq<Section>, x: Station, y: Station) {
    exists j :: 0 <= j < |secs| && secs[j].up == x && secs[j].down == y
  }

  /**
   * Walking the station list steps along sections: every station after the
   * first is some section's down station, and each consecutive pair of
   * stations is some section's up and down station.
   */
  lemma PathSteps(secs: seq<Section>, ordered: seq<Section>)
    requires IsLinearOrder(secs, ordered)
    ensures var path := StationsOf(ordered);
      forall i :: 0 < i < |path| ==> Entered(secs, path[i])
    ensures var path := StationsOf(ordered);
      forall i :: 0 <= i < |path| - 1 ==> Joined(secs, path[i], path[i + 1])
  {
    var path := StationsOf(ordered);
    forall i | 0 < i < |path|
      ensures Entered(secs, path[i])
    {
      DownLookupOnPath(secs, ordered, i);
      var j := FindByDown(secs, path[i]).value;
      assert secs[j].down == path[i];
    }
    forall i | 0 <= i < |path| - 1
      ensures Joined(secs, path[i], path[i + 1])
    {
      UpLookupOnPath(secs, ordered, i);
      StationsAt(ordered, i + 1);
      var j := FindByUp(secs, path[i]).value;
      assert secs[j].up == path[i] && secs[j].down == path[i + 1];
    }
  }

  /** The order of a single simple path is determined by its sections. */
  lemma {:induction false} LinearOrderUnique(secs: seq<Section>, o1: seq<Section>, o2: seq<Section>)
    requires IsLinearOrder(secs, o1) && IsLinearOrder(secs, o2)
    ensures o1 == o2
  {
    SameLength(o1, o2);
    if o1 != [] {
      var p1, p2 := StationsOf(o1), StationsOf(o2);
      // both orders start at the one station that has no incoming section
      var i := IndexOf(p1, p2[0]) by {
        SectionsOnPath(secs, o1, FindByUp(secs, p2[0]).value) by {
          UpLookupOnPath(secs, o2, 0);
        }
      }
      if i != 0 {
        DownLookupOnPath(secs, o1, i);
        DownLookupOnPath(secs, o2, 0);
        assert false;
      }
      SameFrom(secs, o1, o2, 0);
    }
  }

  /** Two orders of the same path that agree on station k agree from section k on. */
  lemma {:induction false} SameFrom(secs: seq<Section>, o1: seq<Section>, o2: seq<Section>, k: nat)
    requires IsLinearOrder(secs, o1) && IsLinearOrder(secs, o2)
    requires |o1| == |o2| && 0 < |o1| && k <= |o1|
    requires StationsOf(o1)[k] == StationsOf(o2)[k]
    ensures o1[k..] == o2[k..]
    decreases |o1| - k
  {
    if k < |o1| {
      assert o1[k] == o2[k] && StationsOf(o1)[k + 1] == StationsOf(o2)[k + 1] by {
        UpLookupOnPath(secs, o1, k);
        UpLookupOnPath(secs, o2, k);
        StationsAt(o1, k + 1);
        StationsAt(o2, k + 1);
      }
      SameFrom(secs, o1, o2, k + 1);
      SameSuffix(o1, o2, k);
    }
  }

  /** Two lists that agree at position k and after it agree from k on. */
  lemma SameSuffix(o1: seq<Section>, o2: seq<Section>, k: nat)
    requires k < |o1| && k < |o2| && o1[k] == o2[k] && o1[k + 1..] == o2[k + 1..]
    ensures o1[k..] == o2[k..]
  {
    assert o1[k..] == [o1[k]] + o1[k + 1..];
    assert o2[k..] == [o2[k]] + o2[k + 1..];
  }
}
