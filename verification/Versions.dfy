/** The version of the library that wrote a volume, or the greatest one a reader supports. */
module Versions {
  import opened Bytes

  datatype Version = Version(major: byte, minor: byte) {
    predicate Less(other: Version): (less: bool)
      ensures less <==> Number() < other.Number()
    {
      major < other.major || (major == other.major && minor < other.minor)
    }

    /** The version as one number. */
    function Number(): nat { 256 * major + minor }
  }

  /** Versions are compared as numbers: the major number decides, and the minor one only between equal major numbers. */
  lemma VersionsAreNumbers(a: Version, b: Version)
    ensures a.Less(b) <==> 256 * a.major + a.minor < 256 * b.major + b.minor
    ensures a.Number() < b.Number() <==> 256 * a.major + a.minor < 256 * b.major + b.minor
    ensures a.Number() == b.Number() <==> a == b
  {
  }
}
