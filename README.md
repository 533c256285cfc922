# Sections of a subway line

This project models the `Sections` aggregate of a subway line service. A
line's sections are directed, distance-weighted edges between stations.
They sit in one mutable list in the order they were added. Reading them
from the up terminus to the down terminus gives the line's station list.

The aggregate supports three kinds of operation:

- **Read the station list.** `getStations` finds the up terminus by walking
  backwards (`findUpStation`), then walks forwards from it.
- **Add a section.** `addLineStations` refuses a section whose two stations
  are both on the line already, and a section that touches a non-empty line
  at neither station. Otherwise it splits the section the new one lands in
  (`addDownStation` / `addUpStation`) and appends the new section.
- **Remove a station.** `removeLineStation` refuses on a line of a single
  section. At an interior station it appends one section spanning the two
  sections that meet there (`removeBetweenSectionStation`). It then drops
  the section leaving the station and the section entering it, whichever
  of the two exist.

The class keeps the Java list as `sections: seq<Section>`. It also keeps a
ghost `ordered`: the same sections (as a multiset) listed in path order.
Its invariant `Valid()` says that `ordered` is linked end to start and
meets no station twice. Each method is proved against a pure function
that specifies it:

| method | specifying function |
|---|---|
| add a section | `SectionInsertion.AddSection` |
| remove a station | `SectionRemoval.RemoveStation` |
| merge around a station | `SectionRemoval.MergeAround` |
| split at the up station | `SectionInsertion.SplitAtUp` |
| split at the down station | `SectionInsertion.SplitAtDown` |

Lemmas about those functions show three things:

- A successful add keeps the single-path shape and puts the new station
  next to the one it shares.
- A successful removal takes exactly that station out of the path.
- The line's total length changes only at a terminus (`LineLength`).

Modules, one per file:

| file | module | contents |
|---|---|---|
| `wrappers.dfy` | `Wrappers` | Option, Result, Outcome and the error kinds |
| `section.dfy` | `SectionRecord` | the section value and its two update operations |
| `path.dfy` | `LinePath` | lookups, the single-path invariant, and the lemmas that walking the lookups follows the path |
| `insert.dfy` | `SectionInsertion` | adding a section |
| `remove.dfy` | `SectionRemoval` | removing a station |
| `sections.dfy` | `LineSections` | the `Sections` class |
| `length.dfy` | `LineLength` | the line's total distance |

## Model

| member | source | states |
|---|---|---|
| SectionRecord.Section.UpdateUpStation | src/main/java/nextstep/subway/line/domain/Sections.java:108 | the section now starts at the given station, keeps its down station and line, and its distance plus the handed-over distance is its old distance |
| SectionRecord.Section.UpdateDownStation | src/main/java/nextstep/subway/line/domain/Sections.java:115 | the section now ends at the given station, keeps its up station and line, and its distance plus the handed-over distance is its old distance |
| LinePath.FindByUp | src/main/java/nextstep/subway/line/domain/Sections.java:124-126 | the stream filter-findFirst on up stations: the index found is the first whose up station matches, and nothing is found exactly when no section starts there |
| LinePath.FindByDown | src/main/java/nextstep/subway/line/domain/Sections.java:127-129 | the same for down stations: the first index whose down station matches, nothing exactly when no section ends there |
| LinePath.UpLookupOnPath | src/main/java/nextstep/subway/line/domain/Sections.java:43-45 | on a valid line, the up-station lookup of station k finds section k of the path, and finds nothing exactly at the down terminus |
| LinePath.DownLookupOnPath | src/main/java/nextstep/subway/line/domain/Sections.java:79-81 | on a valid line, the down-station lookup of station k finds section k - 1 of the path, and finds nothing exactly at the up terminus |
| LinePath.NextOnPath | src/main/java/nextstep/subway/line/domain/Sections.java:43-50 | one forward step of the walk goes from station k to station k + 1, and the walk stops exactly at the down terminus |
| LinePath.PreviousOnPath | src/main/java/nextstep/subway/line/domain/Sections.java:79-85 | one backward step of the walk goes from station k to station k - 1, and the walk stops exactly at the up terminus |
| LinePath.OffPathLookup | src/main/java/nextstep/subway/line/domain/Sections.java:124-129 | a station that is not on the line starts no section and ends no section |
| LinePath.Linearisation | src/main/java/nextstep/subway/line/domain/Sections.java:32-54 | the station list of a valid line is empty exactly when there are no sections, otherwise has one more station than there are sections, repeats no station, and starts at a station no section ends at |
| LinePath.PathSteps | src/main/java/nextstep/subway/line/domain/Sections.java:41-51 | every station after the first is some section's down station, and each consecutive pair of stations is the up and down station of some section |
| LinePath.LinearOrderUnique | src/main/java/nextstep/subway/line/domain/Sections.java:32-54 | the sections determine the path order, so the station list does not depend on the order of the list |
| SectionInsertion.SplitAtUp | src/main/java/nextstep/subway/line/domain/Sections.java:104-109 | only the first section starting at the new section's up station changes, and it is updated to start at the new down station; every other section is kept |
| SectionInsertion.SplitAtDown | src/main/java/nextstep/subway/line/domain/Sections.java:111-116 | only the first section ending at the new section's down station changes, and it is updated to end at the new up station; every other section is kept |
| SectionInsertion.ValidateIsAllContainsStations | src/main/java/nextstep/subway/line/domain/Sections.java:91-95 | refuses as already registered exactly when both stations are on the line |
| SectionInsertion.ValidateIsNotAllContainsStations | src/main/java/nextstep/subway/line/domain/Sections.java:97-102 | refuses as not connectable exactly when the line is non-empty and holds neither station |
| SectionInsertion.AddSection | src/main/java/nextstep/subway/line/domain/Sections.java:56-73 | both refusals, each in both directions, and no other error; on success the new section is appended, at most one old section changes, and a changed section is the one sharing the new section's up or down station on the line |
| SectionInsertion.InsertStation | src/main/java/nextstep/subway/line/domain/Sections.java:65-72 | the new station list: an empty line gets both stations; otherwise the new down station follows a shared up station, or the new up station precedes a shared down station |
| SectionInsertion.AddSectionKeepsPath | src/main/java/nextstep/subway/line/domain/Sections.java:56-73 | a successful add keeps the line a single simple path, and its station list is the old one with the new station inserted next to the shared one |
| SectionInsertion.SplitForward | src/main/java/nextstep/subway/line/domain/Sections.java:104-109 | splitting the section leaving station k puts the new section and then the shortened section in its place, and the new station right after station k |
| SectionInsertion.ExtendDownTerminus | src/main/java/nextstep/subway/line/domain/Sections.java:65-72 | a section leaving the down terminus changes no section and extends the path by its down station |
| SectionInsertion.SplitBackward | src/main/java/nextstep/subway/line/domain/Sections.java:111-116 | splitting the section entering station k puts the shortened section and then the new section in its place, and the new station right before station k |
| SectionInsertion.ExtendUpTerminus | src/main/java/nextstep/subway/line/domain/Sections.java:65-72 | a section entering the up terminus changes no section and extends the path in front by its up station |
| SectionRemoval.RemoveFirstAt | src/main/java/nextstep/subway/line/domain/Sections.java:135-136 | List.remove(Object) drops the first occurrence only and keeps everything before and after it in order |
| SectionRemoval.RemoveFirstMultiset | src/main/java/nextstep/subway/line/domain/Sections.java:135-136 | removal takes exactly one copy of a present section out and leaves the list unchanged when the section is absent |
| SectionRemoval.TerminusTests | src/main/java/nextstep/subway/line/domain/Sections.java:143-149 | on a valid line, a station is the first one exactly when no section enters it, and the last one exactly when no section leaves it |
| SectionRemoval.MergeAround | src/main/java/nextstep/subway/line/domain/Sections.java:151-165 | refuses with not-found exactly when no section leaves or no section enters the station; otherwise keeps the list and appends one section from the entering section's up station to the leaving section's down station, with their summed distance, on the first section's line |
| SectionRemoval.RemoveStation | src/main/java/nextstep/subway/line/domain/Sections.java:118-137 | refuses as too few sections exactly when the line has at most one section; the only other refusal is not-found |
| SectionRemoval.RemoveLeavingOnly | src/main/java/nextstep/subway/line/domain/Sections.java:131-136 | at a terminus with only a leaving section, removal drops that section |
| SectionRemoval.RemoveEnteringOnly | src/main/java/nextstep/subway/line/domain/Sections.java:131-136 | at a terminus with only an entering section, removal drops that section |
| SectionRemoval.RemoveMerging | src/main/java/nextstep/subway/line/domain/Sections.java:131-136 | at a station that is neither terminus and has both sections, removal appends the spanning section and then drops the leaving and the entering one |
| SectionRemoval.RemoveAbsentStation | src/main/java/nextstep/subway/line/domain/Sections.java:131-133 | on a valid line of two or more sections, a station off the line is refused as not found |
| SectionRemoval.RemoveUpTerminus | src/main/java/nextstep/subway/line/domain/Sections.java:135 | removing the up terminus drops exactly the first section of the path; the rest stays a valid path whose stations are the old ones without the first |
| SectionRemoval.RemoveDownTerminus | src/main/java/nextstep/subway/line/domain/Sections.java:136 | removing the down terminus drops exactly the last section of the path; the rest stays a valid path whose stations are the old ones without the last |
| SectionRemoval.RemoveInterior | src/main/java/nextstep/subway/line/domain/Sections.java:131-136 | removing an interior station succeeds, shortens the list by one, and leaves a valid path in which the merged section replaces the two, losing exactly that station |
| SectionRemoval.RemoveStationKeepsPath | src/main/java/nextstep/subway/line/domain/Sections.java:118-137 | every successful removal is of a station on the line, keeps the line a single simple path, takes exactly that station out of the station list, and leaves one section fewer |
| LineSections.Sections.Empty | src/main/java/nextstep/subway/line/domain/Sections.java:21-22 | the argument-less constructor gives a valid line with no sections and no stations |
| LineSections.Sections.constructor | src/main/java/nextstep/subway/line/domain/Sections.java:24-26 | the line holds just the given section; it is valid exactly when the section is not a loop, and its stations are then the section's up and down stations |
| LineSections.Sections.FindUpStation | src/main/java/nextstep/subway/line/domain/Sections.java:75-89 | the backward walk from the first listed section returns the first station of the path, which no section ends at |
| LineSections.Sections.GetStations | src/main/java/nextstep/subway/line/domain/Sections.java:32-54 | the forward walk returns exactly the path's station list, and the empty list for a line without sections |
| LineSections.Sections.AddDownStation | src/main/java/nextstep/subway/line/domain/Sections.java:104-109 | the list becomes the up-station split of the old list |
| LineSections.Sections.AddUpStation | src/main/java/nextstep/subway/line/domain/Sections.java:111-116 | the list becomes the down-station split of the old list |
| LineSections.Sections.AddLineStations | src/main/java/nextstep/subway/line/domain/Sections.java:56-73 | succeeds exactly when the add is accepted; a refusal reports its error and changes nothing; a success stores the new list and keeps the line valid with the new station inserted |
| LineSections.Sections.RemoveBetweenSectionStation | src/main/java/nextstep/subway/line/domain/Sections.java:151-165 | succeeds exactly when the merge is accepted; a refusal reports not-found and changes nothing; a success appends the spanning section |
| LineSections.Sections.RemoveLineStation | src/main/java/nextstep/subway/line/domain/Sections.java:118-137 | succeeds exactly when the removal is accepted; a refusal reports its error and changes nothing; a success keeps the line valid, removes exactly that station from the station list and leaves one section fewer |
| LineLength.AddSectionLength | src/main/java/nextstep/subway/line/domain/Sections.java:56-73 | a split keeps the line's total distance, and any other successful add lengthens it by the new section's distance |
| LineLength.RemoveInteriorLength | src/main/java/nextstep/subway/line/domain/Sections.java:161-164 | removing an interior station keeps the line's total distance |
| LineLength.RemoveTerminusLength | src/main/java/nextstep/subway/line/domain/Sections.java:135-136 | removing a terminus shortens the line by the distance of the one section at that terminus |

## Left out

- Section.java is not part of this model. The semantics of `updateUpStation` and `updateDownStation` are assumed to be: the endpoint is replaced and the handed-over distance is subtracted. Any check Section.java makes on distances, or on a section's two stations being different, is not modelled.
- Sections are values here, not shared objects. The in-place update in `addDownStation` / `addUpStation` is an index replacement. Aliasing of a section by other holders of the same object is not modelled.
- `List.remove(Object)` uses `equals`. Here two sections are equal when all their fields are equal (the Java entity compares by identity unless it overrides `equals`).
- Stations are compared as plain values, and stations are never null. The `downStation != null` loop tests are therefore always true, and the loops end only through their `break`.
- Exceptions are modelled as `Fail` / `Err` values carrying an error kind. The exception messages are not modelled.
- Java `int` overflow in the summed distance of `removeBetweenSectionStation` is not modelled: integers are unbounded.
- `getValue`, the JPA mapping annotations and persistence cascades are left out. They have no behaviour of their own.
- `getLine` (`LineSections.Sections.Line`) is a plain function with no contract of its own. It requires a non-empty list, which is always the case where it is used.
- `isFirstStation` / `isLastStation` (`SectionRemoval.IsFirstStation`, `SectionRemoval.IsLastStation`) are plain functions. They require a non-empty station list, as the Java `get` does. Their meaning on a valid line is `SectionRemoval.TerminusTests`.
- LineSections.Sections.AddLineStations: validity is re-established only when the line was non-empty or the new section is not a loop. A loop section added to an empty line makes `getStations` walk forever in the source. The model states the list it stores, but no station list for that case.
- LineSections.Sections.constructor: the line is valid only when the section is not a loop. Nothing in the source rejects a loop.
- LineSections.Sections.FindUpStation and LineSections.Sections.GetStations require a valid line. On a list that is not a single path, for example one holding a cycle, the source's walks need not terminate.
- SectionRemoval.RemoveStation takes the station list as an argument. It requires that list to be non-empty when there are sections, which the station list read from a valid line always is.
