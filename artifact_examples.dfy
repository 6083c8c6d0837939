/** The literal coordinates the artifact behaviour is pinned to. */
module ArtifactExamples {
  import opened Wrappers
  import opened Versions
  import opened Artifacts
  import opened ArtifactOrder

  /** An artifact built with the positional constructor, version "1" or another non-empty text. */
  function A(g: string, a: string, v: string, t: string := DefaultType, c: Option<string> := None): (r: Artifact)
    requires v != ""
    ensures r.group == g && r.artifact == a && r.typ == t && r.classifier == c && r.scope.None?
    ensures VersionToString(r.version) == v
  {
    Make(g, a, v, t, c).value
  }

  /** `foo:bar:1` parses with the default type `jar` and no classifier. */
  lemma FromStringThreeTokens()
    ensures Parse("foo:bar:1") == Ok(Artifact("foo", "bar", ParseVersion("1").value, "jar", None, None))
  {
    assert "foo" + ":" + "bar" + ":" + "1" == "foo:bar:1";
    ParseThreeTokens("foo", "bar", "1");
  }

  /** `foo:bar:pkg:1` parses with type `pkg` and no classifier. */
  lemma FromStringFourTokens()
    ensures Parse("foo:bar:pkg:1") == Ok(Artifact("foo", "bar", ParseVersion("1").value, "pkg", None, None))
  {
    assert "foo" + ":" + "bar" + ":" + "pkg" + ":" + "1" == "foo:bar:pkg:1";
    ParseFourTokens("foo", "bar", "pkg", "1");
  }

  /** `foo:bar:pkg:sources:1` parses with classifier `sources`. */
  lemma FromStringFiveTokensSources()
    ensures Parse("foo:bar:pkg:sources:1")
         == Ok(Artifact("foo", "bar", ParseVersion("1").value, "pkg", Some("sources"), None))
  {
    assert "foo" + ":" + "bar" + ":" + "pkg" + ":" + "sources" + ":" + "1" == "foo:bar:pkg:sources:1";
    ParseFiveTokens("foo", "bar", "pkg", "sources", "1");
  }

  /** `foo:bar:pkg:javadoc:1` parses with classifier `javadoc`. */
  lemma FromStringFiveTokensJavadoc()
    ensures Parse("foo:bar:pkg:javadoc:1")
         == Ok(Artifact("foo", "bar", ParseVersion("1").value, "pkg", Some("javadoc"), None))
  {
    assert "foo" + ":" + "bar" + ":" + "pkg" + ":" + "javadoc" + ":" + "1" == "foo:bar:pkg:javadoc:1";
    ParseFiveTokens("foo", "bar", "pkg", "javadoc", "1");
  }

  /** One or two tokens are refused. */
  lemma InvalidCoordinateExamples()
    ensures Parse("foo:bar").Err? && Parse("foo").Err?
  {
  }

  /** The path of `foo:bar:<type>:1`, with or without a classifier. */
  lemma PathOfFooBar(t: string, c: Option<string>)
    ensures var v1 := ParseVersion("1").value;
      Path(Artifact("foo", "bar", v1, t, c, None))
      == "/foo/bar/1/bar-1" + (if c.Some? then "-" + c.value else "") + "." + t
  {
  }

  /** The paths of the four `foo:bar` artifacts, spelled out. */
  lemma PathsOfFooBar()
    ensures Path(Artifact("foo", "bar", ParseVersion("1").value, "jar", None, None)) == "/foo/bar/1/bar-1.jar"
    ensures Path(Artifact("foo", "bar", ParseVersion("1").value, "pkg", None, None)) == "/foo/bar/1/bar-1.pkg"
    ensures Path(Artifact("foo", "bar", ParseVersion("1").value, "pkg", Some("sources"), None)) == "/foo/bar/1/bar-1-sources.pkg"
    ensures Path(Artifact("foo", "bar", ParseVersion("1").value, "pkg", Some("javadoc"), None)) == "/foo/bar/1/bar-1-javadoc.pkg"
  {
    PathOfFooBar("jar", None);
    assert "/foo/bar/1/bar-1" + "" + "." + "jar" == "/foo/bar/1/bar-1.jar";
    PathOfFooBar("pkg", None);
    assert "/foo/bar/1/bar-1" + "" + "." + "pkg" == "/foo/bar/1/bar-1.pkg";
    PathOfFooBar("pkg", Some("sources"));
    assert "/foo/bar/1/bar-1" + ("-" + "sources") + "." + "pkg" == "/foo/bar/1/bar-1-sources.pkg";
    PathOfFooBar("pkg", Some("javadoc"));
    assert "/foo/bar/1/bar-1" + ("-" + "javadoc") + "." + "pkg" == "/foo/bar/1/bar-1-javadoc.pkg";
  }

  /** The path of `foo:bar:1`. */
  lemma PathExampleJar()
    ensures Parse("foo:bar:1").Ok? && Path(Parse("foo:bar:1").value) == "/foo/bar/1/bar-1.jar"
  {
    FromStringThreeTokens();
    PathsOfFooBar();
  }

  /** The path of `foo:bar:pkg:1`. */
  lemma PathExamplePkg()
    ensures Parse("foo:bar:pkg:1").Ok? && Path(Parse("foo:bar:pkg:1").value) == "/foo/bar/1/bar-1.pkg"
  {
    FromStringFourTokens();
    PathsOfFooBar();
  }

  /** The path of `foo:bar:pkg:sources:1`. */
  lemma PathExampleSources()
    ensures Parse("foo:bar:pkg:sources:1").Ok? && Path(Parse("foo:bar:pkg:sources:1").value) == "/foo/bar/1/bar-1-sources.pkg"
  {
    FromStringFiveTokensSources();
    PathsOfFooBar();
  }

  /** The path of `foo:bar:pkg:javadoc:1`. */
  lemma PathExampleJavadoc()
    ensures Parse("foo:bar:pkg:javadoc:1").Ok? && Path(Parse("foo:bar:pkg:javadoc:1").value) == "/foo/bar/1/bar-1-javadoc.pkg"
  {
    FromStringFiveTokensJavadoc();
    PathsOfFooBar();
  }

  /** String forms without a classifier: the type is printed, `jar` included. */
  lemma ToStringExamplesWithoutClassifier()
    ensures ToString(A("foo", "bar", "1")) == "foo:bar:jar:1"
    ensures ToString(A("foo", "bar", "1", "pom")) == "foo:bar:pom:1"
  {
    ToStringFormat(A("foo", "bar", "1"));
    ToStringFormat(A("foo", "bar", "1", "pom"));
  }

  /** String forms with a classifier, and with a scope as the last field. */
  lemma ToStringExamplesWithClassifier()
    ensures ToString(A("foo", "bar", "1", "pom", Some("sources"))) == "foo:bar:pom:sources:1"
    ensures Make("foo", "bar", "1", "pom", Some("sources"), Some("compile")).Ok?
         && ToString(Make("foo", "bar", "1", "pom", Some("sources"), Some("compile")).value)
            == "foo:bar:pom:sources:1:compile"
  {
    ToStringFormat(A("foo", "bar", "1", "pom", Some("sources")));
    ToStringFormat(Make("foo", "bar", "1", "pom", Some("sources"), Some("compile")).value);
  }

  /** Each ordered pair: the first artifact sorts strictly before the second. */
  lemma ComparisonExamples()
    // compare group id, artifact id, type
    ensures Less(A("f", "a", "1"), A("g", "a", "1"))
    ensures Less(A("g", "a", "1"), A("g", "b", "1"))
    ensures Less(A("g", "a", "1"), A("g", "a", "1", "pom"))
    ensures Less(A("g", "a", "1", "jar"), A("g", "a", "1", "pom"))
    ensures Less(A("g", "a", "1", "pom"), A("g", "a", "1", "war"))
    // compare classifier
    ensures Less(A("g", "a", "1", c := Some("c")), A("g", "a", "1"))
    ensures Less(A("g", "a", "1", c := Some("a")), A("g", "a", "1", c := Some("c")))
    // compare version
    ensures Less(A("g", "a", "1"), A("g", "a", "2"))
    // mask version
    ensures Less(A("f", "a", "2"), A("g", "a", "1"))
    ensures Less(A("g", "a", "2"), A("g", "b", "1"))
    ensures Less(A("g", "a", "2"), A("g", "a", "1", "pom"))
    ensures Less(A("g", "a", "2", "jar"), A("g", "a", "1", "pom"))
    ensures Less(A("g", "a", "2", "pom"), A("g", "a", "1", "war"))
    ensures Less(A("g", "a", "2", c := Some("c")), A("g", "a", "1"))
    ensures Less(A("g", "a", "2", c := Some("a")), A("g", "a", "1", c := Some("c")))
  {
  }
}
