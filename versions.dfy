/**
 * The version component, seen only through its interface: parse a version
 * string, print a version, and order two versions totally. Maven's own version
 * algebra (numeric segments, qualifiers, ranges) is not modelled; a version here
 * is known by the text it was parsed from and versions are ordered by that text.
 * The coordinate model uses nothing about versions beyond the laws proved below.
 */
module Versions {
  import opened Wrappers
  import opened Strings

  datatype Version = Version(text: string)

  datatype VersionError = EmptyVersion

  /** The version parser: rejects the empty string, accepts any other text. */
  function ParseVersion(s: string): (r: Result<Version, VersionError>)
    ensures r.Ok? <==> s != ""
    ensures r.Ok? ==> VersionToString(r.value) == s
  {
    if s == "" then Err(EmptyVersion) else Ok(Version(s))
  }

  /** How a version prints (`str(version)`). */
  function VersionToString(v: Version): string
  {
    v.text
  }

  /** Three-way version comparison: -1, 0 or 1, and 0 exactly on equal versions. */
  function VersionCmp(v: Version, w: Version): (r: int)
    ensures -1 <= r <= 1
    ensures r == 0 <==> v == w
  {
    Cmp(v.text, w.text)
  }

  /** Order law: swapping the operands negates the comparison. */
  lemma VersionCmpAntisymmetric(v: Version, w: Version)
    ensures VersionCmp(v, w) == -VersionCmp(w, v)
  {
    CmpAntisymmetric(v.text, w.text);
  }

  /** Order law: "sorts before" is transitive. */
  lemma VersionCmpTransitive(u: Version, v: Version, w: Version)
    requires VersionCmp(u, v) == -1 && VersionCmp(v, w) == -1
    ensures VersionCmp(u, w) == -1
  {
    CmpTransitive(u.text, v.text, w.text);
  }

  /** A version whose printed form is non-empty parses back from it. */
  lemma VersionRoundTrip(v: Version)
    requires VersionToString(v) != ""
    ensures ParseVersion(VersionToString(v)) == Ok(v)
  {
  }
}
