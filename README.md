# Maven artifact coordinates

A model of `libmaven.Artifact`, the value type that names a build artifact in a
Maven repository: group, artifact, version, type (packaging, default `jar`),
an optional classifier (`sources`, `javadoc`, ...) and an optional scope that is
display-only. The model covers the four things the artifact does:

- **parsing** a colon-delimited coordinate (`Artifact.fromstring`) in its three
  arities `g:a:v`, `g:a:t:v` and `g:a:t:c:v`, refusing anything else with a
  parse error (`ArtifactParseError`);
- the **repository path** `/group/artifact/version/artifact-version[-classifier].type`;
- the **string form** `group:artifact:type[:classifier]:version[:scope]`;
- the **total order** behind the comparison operators, lexicographic on group,
  artifact, type, classifier and version, where a present classifier sorts
  before an absent one and scope takes no part.

Everything is a pure function over an immutable record, so the model is made of
datatypes, functions and lemmas. Files:

- `wrappers.dfy` — `Option` and `Result`.
- `strings.dfy` — `Split`/`Join` on a one-character separator (Python's
  `str.split` / `str.join`), with the two round-trip lemmas, and the code-point
  string comparison `Cmp`, proved equal to the textbook lexicographic order
  `LexLess` and proved antisymmetric and transitive.
- `versions.dfy` — the version component seen through its interface
  (`ParseVersion`, `VersionToString`, `VersionCmp`) and its order laws.
- `artifacts.dfy` — the record, the constructor, `Parse`, `ToString`, `Path`
  and the parse/format lemmas.
- `artifact_order.dfy` — `Compare`, the six operators, and the order laws.
- `artifact_examples.dfy` — the literal coordinates, paths, strings and ordered
  pairs the behaviour is pinned to.

Conventions chosen where the examples are silent (not pinned by any literal
example): six or more tokens are refused like one or two; an empty group,
artifact, type or classifier token is refused; an empty version is refused by the
version parser; the group id appears verbatim as a single path segment; scope
takes no part in equality, the order or the path (it is only printed by the
string form).

## Model

| member | source | states |
|---|---|---|
| `Artifacts.Parse` | tests/test_artifact.py:33-49 | a parsed artifact has no scope and only non-empty, colon-free fields; its version prints as the last token; the parse fails with a wrong-arity error exactly when there are fewer than three or more than five tokens |
| `Artifacts.ParseThreeTokens` | tests/test_artifact.py:36 | `g:a:v` parses to group g, artifact a, version v, type `jar`, no classifier |
| `Artifacts.ParseFourTokens` | tests/test_artifact.py:37 | `g:a:t:v` parses to type t and no classifier |
| `Artifacts.ParseFiveTokens` | tests/test_artifact.py:38-39 | `g:a:t:c:v` parses to type t and classifier c; the last token is the version |
| `Artifacts.Make` | tests/test_artifact.py:106-116 | the positional constructor keeps every field as given, with type `jar` and no classifier or scope by default; the version text goes through the version parser |
| `Artifacts.CoordinateOf` | tests/test_artifact.py:44 | the coordinate tuple holds group, artifact, version, type and classifier, and not scope |
| `Artifacts.ToStringFormat` | tests/test_artifact.py:105-117 | the string form is `group:artifact:type[:classifier]:version[:scope]`, type always printed |
| `Artifacts.ParseToString` | tests/test_artifact.py:33-44 | a well-formed artifact without scope parses back from its string form unchanged |
| `Artifacts.ToStringParse` | tests/test_artifact.py:36-39 | printing a parsed artifact gives back the input for four and five tokens, and `g:a:jar:v` for three |
| `Artifacts.ParseIsIdempotent` | tests/test_artifact.py:36-39 | re-parsing the string form of a parsed artifact gives the same artifact |
| `Artifacts.PathSegments` | tests/test_artifact.py:51-62 | the path splits on '/' into "", group, artifact, version and the file name |
| `Artifacts.PathInsertsClassifier` | tests/test_artifact.py:56-57 | a classifier inserts `-classifier` right before `.type` and changes nothing else in the path |
| `Artifacts.ScopeIsNotIdentity` | tests/test_artifact.py:44 | scope is not part of the five-field coordinate; that it leaves the path unchanged is a convention of the model, not a tested fact |
| `Artifacts.ToString` | tests/test_artifact.py:105-117 | `str(artifact)`; it has no `ensures` of its own: `ToStringFormat` fixes its format and `ParseToString` makes it the inverse of `Parse` |
| `Artifacts.Path` | tests/test_artifact.py:51-62 | `artifact.path`; it has no `ensures` of its own: `PathSegments` fixes its segments and `PathInsertsClassifier` where the classifier goes |
| `ArtifactOrder.Compare` | tests/test_artifact.py:64-98 | the comparison is -1, 0 or 1, and 0 exactly when the two coordinates are equal |
| `ArtifactOrder.LessIsKeyLess` | tests/test_artifact.py:64-90 | `a < b` holds exactly when, at the first of group, artifact, type, classifier, version that differs, `a` has the lexicographically smaller key (present classifier before absent) |
| `ArtifactOrder.KeyPriority` | tests/test_artifact.py:79-86 | a smaller group, artifact, type or classifier decides the order whatever the later keys and the version hold |
| `ArtifactOrder.ClassifierBeforeNone` | tests/test_artifact.py:75 | with equal group, artifact and type, an artifact with a classifier sorts before one without, whatever the versions |
| `ArtifactOrder.ClassifierCmpIsClassifierLess` | tests/test_artifact.py:75-76 | classifier comparison is -1 exactly when the first is present and the second absent, or both present and lexicographically ordered |
| `ArtifactOrder.CompareAntisymmetric` | tests/test_artifact.py:25-31 | swapping the operands negates the comparison |
| `ArtifactOrder.LessTransitive` | tests/test_artifact.py:64-90 | `<` is transitive |
| `ArtifactOrder.LessEqTransitive` | tests/test_artifact.py:64-90 | `<=` is transitive |
| `ArtifactOrder.Trichotomy` | tests/test_artifact.py:25-31 | exactly one of `<`, `==`, `>` holds, and `a < b` is `b > a` |
| `ArtifactOrder.OrderConsistency` | tests/test_artifact.py:25-31 | from `a1 < a2`: `a2 > a1`, not `a1 >= a2`, not `a2 <= a1`, not `a1 == a2`, `a1 != a2` |
| `ArtifactOrder.Identity` | tests/test_artifact.py:92-98 | `a == a`, `a <= a`, `a >= a`, not `a < a`, not `a != a` |
| `ArtifactOrder.ScopeIgnoredByOrder` | tests/test_artifact.py:25-31 | changing the scope of either operand leaves the comparison unchanged, and an artifact equals itself with another scope; a convention of the model, since the compared artifacts of the examples carry no scope |
| `ArtifactOrder.Less` | tests/test_artifact.py:25-31 | `<`; no `ensures` of its own: pinned down by `Compare`, `LessIsKeyLess`, `OrderConsistency` and `Identity` |
| `ArtifactOrder.LessEq` | tests/test_artifact.py:25-31 | `<=`; no `ensures` of its own: pinned down by `Compare`, `OrderConsistency` and `Identity` |
| `ArtifactOrder.Greater` | tests/test_artifact.py:25-31 | `>`; no `ensures` of its own: pinned down by `Compare`, `OrderConsistency` and `Identity` |
| `ArtifactOrder.GreaterEq` | tests/test_artifact.py:25-31 | `>=`; no `ensures` of its own: pinned down by `Compare`, `OrderConsistency` and `Identity` |
| `ArtifactOrder.Eq` | tests/test_artifact.py:92-98 | `==`; no `ensures` of its own: by `Compare`, it holds exactly on equal five-field coordinates; `OrderConsistency` and `Identity` tie it to the other operators |
| `ArtifactOrder.NotEq` | tests/test_artifact.py:92-98 | `!=`; no `ensures` of its own: pinned down by `Compare`, `OrderConsistency` and `Identity` |
| `ArtifactExamples.FromStringThreeTokens` | tests/test_artifact.py:36 | `foo:bar:1` parses to (foo, bar, 1, jar, None) |
| `ArtifactExamples.FromStringFourTokens` | tests/test_artifact.py:37 | `foo:bar:pkg:1` parses to (foo, bar, 1, pkg, None) |
| `ArtifactExamples.FromStringFiveTokensSources` | tests/test_artifact.py:38 | `foo:bar:pkg:sources:1` parses to (foo, bar, 1, pkg, sources) |
| `ArtifactExamples.FromStringFiveTokensJavadoc` | tests/test_artifact.py:39 | `foo:bar:pkg:javadoc:1` parses to (foo, bar, 1, pkg, javadoc) |
| `ArtifactExamples.InvalidCoordinateExamples` | tests/test_artifact.py:46-49 | `foo:bar` and `foo` are refused |
| `ArtifactExamples.PathExampleJar` | tests/test_artifact.py:54 | the path of `foo:bar:1` is `/foo/bar/1/bar-1.jar` |
| `ArtifactExamples.PathExamplePkg` | tests/test_artifact.py:55 | the path of `foo:bar:pkg:1` is `/foo/bar/1/bar-1.pkg` |
| `ArtifactExamples.PathExampleSources` | tests/test_artifact.py:56 | the path of `foo:bar:pkg:sources:1` is `/foo/bar/1/bar-1-sources.pkg` |
| `ArtifactExamples.PathExampleJavadoc` | tests/test_artifact.py:57 | the path of `foo:bar:pkg:javadoc:1` is `/foo/bar/1/bar-1-javadoc.pkg` |
| `ArtifactExamples.ToStringExamplesWithoutClassifier` | tests/test_artifact.py:106-110 | `foo:bar:jar:1` and `foo:bar:pom:1` |
| `ArtifactExamples.ToStringExamplesWithClassifier` | tests/test_artifact.py:112-117 | `foo:bar:pom:sources:1` and, with scope, `foo:bar:pom:sources:1:compile` |
| `ArtifactExamples.ComparisonExamples` | tests/test_artifact.py:64-90 | every listed pair, the "mask version" pairs included, is strictly ordered first before second |
| `Strings.Split` | tests/test_artifact.py:36-39 | splitting gives one more token than there are ':' characters, none of them holding ':' |
| `Strings.CmpIsLexLess` | tests/test_artifact.py:72-76 | string comparison is -1 exactly for the lexicographic order (proper prefix, or smaller at the first difference), as in `jar < pom < war` and `a < c` |
| `Versions.VersionCmp` | tests/test_artifact.py:78 | the version comparison is -1, 0 or 1 and 0 exactly on equal versions |

## Left out

- Comparison of an artifact with a value of another type (`a > "aardvark"`, `a > 10`): comparison is defined only between two artifacts.
- The version algebra of `VersionRange` (numeric segments, qualifiers, ranges) is an external component; the model stands in a version known by its text, refused when empty and ordered by code points, which agrees with the examples (`1` prints as `1`, `1` before `2`) but, unlike Maven, puts `10` before `9` and does not identify `1` with `1.0`. Every artifact-level law is proved from the version laws in `versions.dfy` alone.
- Versions.ParseVersion: its promise that a parsed version prints as the text it came from is a property of the stand-in, not of Maven's version component (which may normalise).
- The messages carried by the parse error; the model keeps only its kind (wrong arity, empty field, refused version).
- Splitting a dotted group id into nested path directories: the group appears verbatim as one segment.
- Repository I/O, build-file parsing and dependency resolution of the rest of the library.
