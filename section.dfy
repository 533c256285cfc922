/**
 * A section: one directed, distance-weighted edge of a subway line, from its
 * up station to its down station. Section.java is not part of this model; its
 * two update operations are given the semantics stated below.
 */
module SectionRecord {

  /** A station, compared by identity. */
  type Station = int

  /** The handle of the line a section belongs to; only copied, never inspected. */
  type LineRef = int

  datatype Section = Section(line: LineRef, up: Station, down: Station, distance: int)
  {
    /**
     * Section.updateUpStation(station, newDistance): the section now starts at
     * `station` and gives up `newDistance` of its length to the section that
     * was inserted in front of it. No check on the remaining distance.
     */
    function UpdateUpStation(station: Station, newDistance: int): (r: Section)
      ensures r.up == station && r.down == down && r.line == line
      ensures r.distance + newDistance == distance
    {
      this.(up := station, distance := distance - newDistance)
    }

    /**
     * Section.updateDownStation(station, newDistance): the section now ends at
     * `station` and gives up `newDistance` of its length to the section that
     * was inserted behind it. No check on the remaining distance.
     */
    function UpdateDownStation(station: Station, newDistance: int): (r: Section)
      ensures r.up == up && r.down == station && r.line == line
      ensures r.distance + newDistance == distance
    {
      this.(down := station, distance := distance - newDistance)
    }
  }
}
