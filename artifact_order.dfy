/**
 * The total order on artifacts behind `<`, `<=`, `==`, `!=`, `>=` and `>`:
 * lexicographic on group, artifact, type, classifier and version, in that
 * order, where a present classifier sorts before an absent one. Scope takes no part.
 */
module ArtifactOrder {
  import opened Wrappers
  import opened Strings
  import opened Versions
  import opened Artifacts

  /** Classifiers: a present one before an absent one, two present ones as strings. */
  function ClassifierCmp(x: Option<string>, y: Option<string>): (r: int)
    ensures -1 <= r <= 1
    ensures r == 0 <==> x == y
  {
    match (x, y)
    case (Some(p), Some(q)) => Cmp(p, q)
    case (Some(_), None) => -1
    case (None, Some(_)) => 1
    case (None, None) => 0
  }

  /** Three-way comparison of two artifacts: -1, 0 or 1. */
  function Compare(a: Artifact, b: Artifact): (r: int)
    ensures -1 <= r <= 1
    ensures r == 0 <==> CoordinateOf(a) == CoordinateOf(b)
  {
    if a.group != b.group then Cmp(a.group, b.group)
    else if a.artifact != b.artifact then Cmp(a.artifact, b.artifact)
    else if a.typ != b.typ then Cmp(a.typ, b.typ)
    else if a.classifier != b.classifier then ClassifierCmp(a.classifier, b.classifier)
    else VersionCmp(a.version, b.version)
  }

  predicate Less(a: Artifact, b: Artifact)      { Compare(a, b) < 0 }
  predicate LessEq(a: Artifact, b: Artifact)    { Compare(a, b) <= 0 }
  predicate Greater(a: Artifact, b: Artifact)   { Compare(a, b) > 0 }
  predicate GreaterEq(a: Artifact, b: Artifact) { Compare(a, b) >= 0 }
  predicate Eq(a: Artifact, b: Artifact)        { Compare(a, b) == 0 }
  predicate NotEq(a: Artifact, b: Artifact)     { Compare(a, b) != 0 }

  /** Reference definition of the classifier key's strict order. */
  ghost predicate ClassifierLess(x: Option<string>, y: Option<string>)
  {
    || (x.Some? && y.None?)
    || (x.Some? && y.Some? && LexLess(x.value, y.value))
  }

  /**
   * Reference definition of the artifact order: some key is smaller while
   * every key before it is equal.
   */
  ghost predicate KeyLess(a: Artifact, b: Artifact)
  {
    || LexLess(a.group, b.group)
    || (a.group == b.group && LexLess(a.artifact, b.artifact))
    || (a.group == b.group && a.artifact == b.artifact && LexLess(a.typ, b.typ))
    || (a.group == b.group && a.artifact == b.artifact && a.typ == b.typ
        && ClassifierLess(a.classifier, b.classifier))
    || (a.group == b.group && a.artifact == b.artifact && a.typ == b.typ
        && a.classifier == b.classifier && VersionCmp(a.version, b.version) == -1)
  }

  lemma ClassifierCmpIsClassifierLess(x: Option<string>, y: Option<string>)
    ensures ClassifierCmp(x, y) == -1 <==> ClassifierLess(x, y)
  {
    if x.Some? && y.Some? {
      CmpIsLexLess(x.value, y.value);
    }
  }

  lemma ClassifierCmpAntisymmetric(x: Option<string>, y: Option<string>)
    ensures ClassifierCmp(x, y) == -ClassifierCmp(y, x)
  {
    if x.Some? && y.Some? {
      CmpAntisymmetric(x.value, y.value);
    }
  }

  lemma ClassifierCmpTransitive(x: Option<string>, y: Option<string>, z: Option<string>)
    requires ClassifierCmp(x, y) == -1 && ClassifierCmp(y, z) == -1
    ensures ClassifierCmp(x, z) == -1
  {
    if x.Some? && y.Some? && z.Some? {
      CmpTransitive(x.value, y.value, z.value);
    }
  }

  /** `a < b` holds exactly when the first differing key of `a` is the smaller one. */
  lemma LessIsKeyLess(a: Artifact, b: Artifact)
    ensures Less(a, b) <==> KeyLess(a, b)
  {
    CmpIsLexLess(a.group, b.group);
    CmpIsLexLess(a.artifact, b.artifact);
    CmpIsLexLess(a.typ, b.typ);
    ClassifierCmpIsClassifierLess(a.classifier, b.classifier);
    assert LexLess(a.group, b.group) ==> a.group != b.group;
    assert LexLess(a.artifact, b.artifact) ==> a.artifact != b.artifact;
    assert LexLess(a.typ, b.typ) ==> a.typ != b.typ;
    assert ClassifierLess(a.classifier, b.classifier) ==> a.classifier != b.classifier;
  }

  /**
   * Key priority: a smaller key wins whatever the keys after it hold, the
   * version included ("mask version").
   */
  lemma KeyPriority(a: Artifact, b: Artifact)
    ensures LexLess(a.group, b.group) ==> Less(a, b)
    ensures a.group == b.group && LexLess(a.artifact, b.artifact) ==> Less(a, b)
    ensures a.group == b.group && a.artifact == b.artifact && LexLess(a.typ, b.typ) ==> Less(a, b)
    ensures (a.group == b.group && a.artifact == b.artifact && a.typ == b.typ
             && ClassifierLess(a.classifier, b.classifier)) ==> Less(a, b)
  {
    LessIsKeyLess(a, b);
  }

  /** A present classifier sorts before an absent one, whatever the versions. */
  lemma ClassifierBeforeNone(a: Artifact, b: Artifact)
    requires a.group == b.group && a.artifact == b.artifact && a.typ == b.typ
    requires a.classifier.Some? && b.classifier.None?
    ensures Less(a, b)
  {
    LessIsKeyLess(a, b);
  }

  /** Swapping the operands negates the comparison. */
  lemma CompareAntisymmetric(a: Artifact, b: Artifact)
    ensures Compare(a, b) == -Compare(b, a)
  {
    CmpAntisymmetric(a.group, b.group);
    CmpAntisymmetric(a.artifact, b.artifact);
    CmpAntisymmetric(a.typ, b.typ);
    ClassifierCmpAntisymmetric(a.classifier, b.classifier);
    VersionCmpAntisymmetric(a.version, b.version);
  }

  /** `<` is transitive. */
  lemma LessTransitive(a: Artifact, b: Artifact, c: Artifact)
    requires Less(a, b) && Less(b, c)
    ensures Less(a, c)
  {
    if a.group != b.group || b.group != c.group {
      if a.group != b.group && b.group != c.group {
        CmpTransitive(a.group, b.group, c.group);
      }
    } else if a.artifact != b.artifact || b.artifact != c.artifact {
      if a.artifact != b.artifact && b.artifact != c.artifact {
        CmpTransitive(a.artifact, b.artifact, c.artifact);
      }
    } else if a.typ != b.typ || b.typ != c.typ {
      if a.typ != b.typ && b.typ != c.typ {
        CmpTransitive(a.typ, b.typ, c.typ);
      }
    } else if a.classifier != b.classifier || b.classifier != c.classifier {
      if a.classifier != b.classifier && b.classifier != c.classifier {
        ClassifierCmpTransitive(a.classifier, b.classifier, c.classifier);
      }
    } else {
      VersionCmpTransitive(a.version, b.version, c.version);
    }
  }

  /** `<=` is transitive. */
  lemma LessEqTransitive(a: Artifact, b: Artifact, c: Artifact)
    requires LessEq(a, b) && LessEq(b, c)
    ensures LessEq(a, c)
  {
    if Less(a, b) && Less(b, c) {
      LessTransitive(a, b, c);
    }
  }

  /** Exactly one of `a < b`, `a == b` and `a > b` holds, and `a < b` is `b > a`. */
  lemma Trichotomy(a: Artifact, b: Artifact)
    ensures Less(a, b) || Eq(a, b) || Greater(a, b)
    ensures !(Less(a, b) && Eq(a, b)) && !(Less(a, b) && Greater(a, b)) && !(Eq(a, b) && Greater(a, b))
    ensures Less(a, b) <==> Greater(b, a)
  {
    CompareAntisymmetric(a, b);
  }

  /**
   * The six operators agree with each other: once `a1 < a2`, also `a2 > a1`,
   * neither `a1 >= a2` nor `a2 <= a1`, and the two are unequal.
   */
  lemma OrderConsistency(a1: Artifact, a2: Artifact)
    requires Less(a1, a2)
    ensures Greater(a2, a1) && !GreaterEq(a1, a2) && !LessEq(a2, a1)
    ensures !Eq(a1, a2) && NotEq(a1, a2)
  {
    CompareAntisymmetric(a1, a2);
  }

  /** Every artifact equals itself and is not below itself. */
  lemma Identity(a: Artifact)
    ensures !Less(a, a) && LessEq(a, a) && GreaterEq(a, a) && Eq(a, a) && !NotEq(a, a)
  {
  }

  /** Scope takes no part in the comparison, on either side. */
  lemma ScopeIgnoredByOrder(a: Artifact, b: Artifact, s: Option<string>)
    ensures Compare(a.(scope := s), b) == Compare(a, b)
    ensures Compare(a, b.(scope := s)) == Compare(a, b)
    ensures Eq(a, a.(scope := s))
  {
  }
}
