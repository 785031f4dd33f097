/** The records the harvester moves around: candidate rows of a catalog page,
    detection rows of a light curve, and the key that makes a detection unique. */
module Records {

  /** Object identifier of a transient source. */
  type Oid = string

  datatype Option<T> = None | Some(value: T)

  /** Sky position in degrees. Carried, never computed with. */
  datatype Coords = Coords(ra: real, dec: real)

  /** One row of a candidate page; `coords` is present when the page carries
      the `ra` and `dec` columns. */
  datatype Candidate = Candidate(oid: Oid, coords: Option<Coords>)

  /** One photometric measurement. The observation time `mjd` is an opaque
      ordered key; magnitudes are carried as payload. */
  datatype Detection = Detection(
    oid: Oid,
    mjd: int,
    magpsf: real,
    fid: int,
    sigmapsf: real,
    coords: Option<Coords>)

  /** The primary key of the detections table. */
  datatype Key = Key(oid: Oid, mjd: int, fid: int)

  function KeyOf(d: Detection): Key {
    Key(d.oid, d.mjd, d.fid)
  }

  /** The set of identifiers listed in a sequence. */
  function Elems(s: seq<Oid>): set<Oid> {
    set o | o in s
  }
}
