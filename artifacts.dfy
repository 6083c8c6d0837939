/**
 * The Maven artifact coordinate `libmaven.Artifact`: an immutable record of
 * group, artifact, version, type, classifier and scope, with its constructor,
 * its parser `Artifact.fromstring`, its repository path and its string form.
 */
module Artifacts {
  import opened Wrappers
  import opened Strings
  import opened Versions

  /** One artifact. `scope` is display-only metadata. */
  datatype Artifact = Artifact(
    group: string,
    artifact: string,
    version: Version,
    typ: string,
    classifier: Option<string>,
    scope: Option<string>)

  /** The identity of an artifact, `artifact.coordinate`: every field but scope. */
  datatype Coordinate = Coordinate(
    group: string,
    artifact: string,
    version: Version,
    typ: string,
    classifier: Option<string>)

  /** Why a coordinate string was refused (`ArtifactParseError`). */
  datatype ParseError =
    | BadArity(tokens: nat)
    | EmptyField(field: string)
    | BadVersion(cause: VersionError)

  /** The field delimiter of the coordinate string. */
  const Delimiter: char := ':'

  /** The type an artifact gets when none is given. */
  const DefaultType: string := "jar"

  /** `artifact.coordinate`. */
  function CoordinateOf(a: Artifact): (c: Coordinate)
    ensures c.group == a.group && c.artifact == a.artifact && c.version == a.version
    ensures c.typ == a.typ && c.classifier == a.classifier
  {
    Coordinate(a.group, a.artifact, a.version, a.typ, a.classifier)
  }

  /**
   * The positional constructor `Artifact(group, artifact, version, type="jar",
   * classifier=None, scope=None)`; the version arrives as text and goes through
   * the version parser, whose refusal is the only way construction fails.
   */
  function Make(group: string, artifact: string, version: string, typ: string := DefaultType,
                classifier: Option<string> := None, scope: Option<string> := None)
    : (r: Result<Artifact, ParseError>)
    ensures r.Ok? <==> ParseVersion(version).Ok?
    ensures r.Ok? ==> VersionToString(r.value.version) == version
    ensures r.Ok? ==> r.value.group == group && r.value.artifact == artifact && r.value.typ == typ
    ensures r.Ok? ==> r.value.classifier == classifier && r.value.scope == scope
    ensures r.Err? ==> r.error.BadVersion?
  {
    match ParseVersion(version)
    case Err(e) => Err(BadVersion(e))
    case Ok(v) => Ok(Artifact(group, artifact, v, typ, classifier, scope))
  }

  /** A field that can stand between two delimiters and be read back. */
  predicate Token(s: string)
  {
    s != "" && Delimiter !in s
  }

  /**
   * Every field the string form prints can be read back by the parser: all of
   * them non-empty and free of the delimiter.
   */
  predicate WellFormed(a: Artifact)
  {
    && Token(a.group)
    && Token(a.artifact)
    && Token(a.typ)
    && (a.classifier.Some? ==> Token(a.classifier.value))
    && Token(VersionToString(a.version))
  }

  /**
   * `Artifact.fromstring`: split on ':' and read `g:a:v`, `g:a:t:v` or
   * `g:a:t:c:v`; the last token is always the version.
   */
  function Parse(s: string): (r: Result<Artifact, ParseError>)
    ensures r.Ok? ==> WellFormed(r.value) && r.value.scope.None?
    ensures r.Ok? ==> VersionToString(r.value.version) == Split(s, Delimiter)[Count(s, Delimiter)]
    ensures (r.Err? && r.error.BadArity?) <==> Count(s, Delimiter) < 2 || 4 < Count(s, Delimiter)
    ensures r.Err? && r.error.BadArity? ==> r.error.tokens == Count(s, Delimiter) + 1
  {
    var toks := Split(s, Delimiter);
    if |toks| < 3 || 5 < |toks| then Err(BadArity(|toks|))
    else
      var group, artifact, version := toks[0], toks[1], toks[|toks| - 1];
      var typ := if |toks| == 3 then DefaultType else toks[2];
      var classifier := if |toks| == 5 then Some(toks[3]) else None;
      if group == "" then Err(EmptyField("group"))
      else if artifact == "" then Err(EmptyField("artifact"))
      else if typ == "" then Err(EmptyField("type"))
      else if classifier == Some("") then Err(EmptyField("classifier"))
      else
        match ParseVersion(version)
        case Err(e) => Err(BadVersion(e))
        case Ok(v) => Ok(Artifact(group, artifact, v, typ, classifier, None))
  }

  /** The fields `str(artifact)` prints, in order. */
  function Fields(a: Artifact): seq<string>
  {
    [a.group, a.artifact, a.typ]
    + (if a.classifier.Some? then [a.classifier.value] else [])
    + [VersionToString(a.version)]
    + (if a.scope.Some? then [a.scope.value] else [])
  }

  /** `str(artifact)`: the fields joined by ':'. */
  function ToString(a: Artifact): string
  {
    Join(Fields(a), Delimiter)
  }

  /** The file name inside the version directory: `artifact-version[-classifier].type`. */
  function FileName(a: Artifact): string
  {
    a.artifact + "-" + VersionToString(a.version)
    + (if a.classifier.Some? then "-" + a.classifier.value else "")
    + "." + a.typ
  }

  /** `artifact.path`: `/group/artifact/version/` followed by the file name. */
  function Path(a: Artifact): string
  {
    "/" + a.group + "/" + a.artifact + "/" + VersionToString(a.version) + "/" + FileName(a)
  }

  /** Join of three to six fields, written out with the delimiter between them. */
  lemma JoinFields(p: seq<string>)
    requires 3 <= |p| <= 6
    ensures |p| == 3 ==> Join(p, Delimiter) == p[0] + ":" + p[1] + ":" + p[2]
    ensures |p| == 4 ==> Join(p, Delimiter) == p[0] + ":" + p[1] + ":" + p[2] + ":" + p[3]
    ensures |p| == 5 ==> Join(p, Delimiter) == p[0] + ":" + p[1] + ":" + p[2] + ":" + p[3] + ":" + p[4]
    ensures |p| == 6 ==> Join(p, Delimiter)
                         == p[0] + ":" + p[1] + ":" + p[2] + ":" + p[3] + ":" + p[4] + ":" + p[5]
  {
    assert [Delimiter] == ":";
    JoinSnoc([p[0]], Delimiter, p[1]);
    assert [p[0]] + [p[1]] == p[..2];
    JoinSnoc(p[..2], Delimiter, p[2]);
    assert p[..2] + [p[2]] == p[..3];
    if |p| > 3 {
      JoinSnoc(p[..3], Delimiter, p[3]);
      assert p[..3] + [p[3]] == p[..4];
    }
    if |p| > 4 {
      JoinSnoc(p[..4], Delimiter, p[4]);
      assert p[..4] + [p[4]] == p[..5];
    }
    if |p| > 5 {
      JoinSnoc(p[..5], Delimiter, p[5]);
      assert p[..5] + [p[5]] == p;
    }
    assert p[..|p|] == p;
  }

  /**
   * The string form is `group:artifact:type[:classifier]:version[:scope]`; the
   * type is always printed, the default `jar` included.
   */
  lemma ToStringFormat(a: Artifact)
    ensures ToString(a)
         == a.group + ":" + a.artifact + ":" + a.typ
          + (if a.classifier.Some? then ":" + a.classifier.value else "")
          + ":" + VersionToString(a.version)
          + (if a.scope.Some? then ":" + a.scope.value else "")
  {
    var f := Fields(a);
    JoinFields(f);
  }

  /** Parsing `g:a:v` gives type `jar`, no classifier and no scope. */
  lemma ParseThreeTokens(g: string, art: string, v: string)
    requires Token(g) && Token(art) && Delimiter !in v
    ensures Parse(g + ":" + art + ":" + v)
         == match ParseVersion(v)
            case Ok(ver) => Ok(Artifact(g, art, ver, DefaultType, None, None))
            case Err(e) => Err(BadVersion(e))
  {
    JoinFields([g, art, v]);
    SplitJoin([g, art, v], Delimiter);
  }

  /** Parsing `g:a:t:v` gives no classifier and no scope. */
  lemma ParseFourTokens(g: string, art: string, t: string, v: string)
    requires Token(g) && Token(art) && Token(t) && Delimiter !in v
    ensures Parse(g + ":" + art + ":" + t + ":" + v)
         == match ParseVersion(v)
            case Ok(ver) => Ok(Artifact(g, art, ver, t, None, None))
            case Err(e) => Err(BadVersion(e))
  {
    JoinFields([g, art, t, v]);
    SplitJoin([g, art, t, v], Delimiter);
  }

  /** Parsing `g:a:t:c:v` gives classifier `c` and no scope. */
  lemma ParseFiveTokens(g: string, art: string, t: string, c: string, v: string)
    requires Token(g) && Token(art) && Token(t) && Token(c) && Delimiter !in v
    ensures Parse(g + ":" + art + ":" + t + ":" + c + ":" + v)
         == match ParseVersion(v)
            case Ok(ver) => Ok(Artifact(g, art, ver, t, Some(c), None))
            case Err(e) => Err(BadVersion(e))
  {
    JoinFields([g, art, t, c, v]);
    SplitJoin([g, art, t, c, v], Delimiter);
  }

  /** A well-formed artifact without scope is read back from its string form. */
  lemma ParseToString(a: Artifact)
    requires WellFormed(a) && a.scope.None?
    ensures Parse(ToString(a)) == Ok(a)
  {
    var f := Fields(a);
    forall i | 0 <= i < |f| ensures Delimiter !in f[i] {
    }
    SplitJoin(f, Delimiter);
    VersionRoundTrip(a.version);
  }

  /** The fields a parsed artifact prints are the tokens it was read from, with `jar` filled in. */
  lemma ParsedFields(s: string)
    requires Parse(s).Ok?
    ensures var toks := Split(s, Delimiter);
      Fields(Parse(s).value) == if |toks| == 3 then [toks[0], toks[1], DefaultType, toks[2]] else toks
  {
    var toks := Split(s, Delimiter);
    var a := Parse(s).value;
    if |toks| == 5 {
      assert Fields(a) == [toks[0], toks[1], toks[2], toks[3], toks[4]];
    } else if |toks| == 4 {
      assert Fields(a) == [toks[0], toks[1], toks[2], toks[3]];
    }
  }

  /**
   * What a successful parse reads is printed back: the input itself for the
   * four- and five-token forms, and `g:a:jar:v` for the three-token form.
   */
  lemma ToStringParse(s: string)
    requires Parse(s).Ok?
    ensures Count(s, Delimiter) == 2 ==>
      var toks := Split(s, Delimiter);
      ToString(Parse(s).value) == toks[0] + ":" + toks[1] + ":" + DefaultType + ":" + toks[2]
    ensures Count(s, Delimiter) != 2 ==> ToString(Parse(s).value) == s
  {
    var toks := Split(s, Delimiter);
    var a := Parse(s).value;
    ParsedFields(s);
    if |toks| == 3 {
      JoinFields(Fields(a));
    } else {
      JoinSplit(s, Delimiter);
    }
  }

  /** Reading the string form of a parsed artifact gives the same artifact back. */
  lemma ParseIsIdempotent(s: string)
    requires Parse(s).Ok?
    ensures Parse(ToString(Parse(s).value)) == Parse(s)
  {
    ParseToString(Parse(s).value);
  }

  /**
   * The path has the segments "", group, artifact, version and the file name,
   * provided no field holds a '/'.
   */
  lemma PathSegments(a: Artifact)
    requires '/' !in a.group && '/' !in a.artifact && '/' !in a.typ
    requires '/' !in VersionToString(a.version)
    requires a.classifier.Some? ==> '/' !in a.classifier.value
    ensures Split(Path(a), '/') == ["", a.group, a.artifact, VersionToString(a.version), FileName(a)]
  {
    var parts := ["", a.group, a.artifact, VersionToString(a.version), FileName(a)];
    assert ["", a.group] == [""] + [a.group];
    JoinSnoc([""], '/', a.group);
    JoinSnoc(["", a.group], '/', a.artifact);
    assert ["", a.group] + [a.artifact] == parts[..3];
    JoinSnoc(parts[..3], '/', VersionToString(a.version));
    assert parts[..3] + [VersionToString(a.version)] == parts[..4];
    JoinSnoc(parts[..4], '/', FileName(a));
    assert parts[..4] + [FileName(a)] == parts;
    assert ['/'] == "/";
    assert Join(parts, '/') == Path(a);
    SplitJoin(parts, '/');
  }

  /**
   * A classifier adds `-classifier` to the path right before `.type` and
   * changes nothing else.
   */
  lemma PathInsertsClassifier(a: Artifact, c: string)
    ensures
      var base := Path(a.(classifier := None));
      var k := |base| - |a.typ| - 1;
      0 <= k && Path(a.(classifier := Some(c))) == base[..k] + "-" + c + base[k..]
  {
    var base := Path(a.(classifier := None));
    var stem := "/" + a.group + "/" + a.artifact + "/" + VersionToString(a.version) + "/"
              + a.artifact + "-" + VersionToString(a.version);
    var tail := "." + a.typ;
    assert base == stem + tail;
    var k := |base| - |a.typ| - 1;
    assert base[..k] == stem && base[k..] == tail;
  }

  /** Scope is not part of the coordinate, and the path ignores it. */
  lemma ScopeIsNotIdentity(a: Artifact, s: Option<string>)
    ensures CoordinateOf(a.(scope := s)) == CoordinateOf(a)
    ensures Path(a.(scope := s)) == Path(a)
  {
  }
}
