/**
 * The string operations the coordinate code relies on: splitting on and joining
 * with a one-character separator (Python's str.split and str.join), and the
 * code-point lexicographic order Python uses to compare two str values.
 */
module Strings {

  /** Number of occurrences of `c` in `s`. */
  function Count(s: string, c: char): nat
  {
    if s == [] then 0 else (if s[0] == c then 1 else 0) + Count(s[1..], c)
  }

  /**
   * `s.split(sep)`: the maximal separator-free pieces of `s`, in order. There is
   * always one more piece than there are separators, and "" splits into [""].
   */
  function Split(s: string, sep: char): (r: seq<string>)
    ensures |r| == Count(s, sep) + 1
    ensures forall i :: 0 <= i < |r| ==> sep !in r[i]
  {
    if s == [] then [""]
    else
      var rest := Split(s[1..], sep);
      if s[0] == sep then [""] + rest
      else [[s[0]] + rest[0]] + rest[1..]
  }

  /** `sep.join(parts)`, built left to right. */
  function Join(parts: seq<string>, sep: char): string
  {
    if |parts| == 0 then ""
    else if |parts| == 1 then parts[0]
    else Join(parts[..|parts| - 1], sep) + [sep] + parts[|parts| - 1]
  }

  /** Joining one more part appends the separator and that part. */
  lemma JoinSnoc(init: seq<string>, sep: char, last: string)
    requires |init| > 0
    ensures Join(init + [last], sep) == Join(init, sep) + [sep] + last
  {
    assert (init + [last])[..|init|] == init;
  }

  /** Appending `sep` and a separator-free piece appends that piece to the split. */
  lemma {:induction false} SplitSnoc(x: string, sep: char, p: string)
    requires sep !in p
    ensures Split(x + [sep] + p, sep) == Split(x, sep) + [p]
  {
    var s := x + [sep] + p;
    if x == [] {
      assert s[1..] == p;
      SplitFree(p, sep);
    } else {
      assert s[0] == x[0];
      assert s[1..] == x[1..] + [sep] + p;
      SplitSnoc(x[1..], sep, p);
      var r := Split(x[1..], sep);
      if x[0] != sep {
        assert (r + [p])[0] == r[0];
        assert (r + [p])[1..] == r[1..] + [p];
      }
    }
  }

  /** A piece without the separator splits into itself alone. */
  lemma {:induction false} SplitFree(p: string, sep: char)
    requires sep !in p
    ensures Split(p, sep) == [p]
  {
    if p != [] {
      SplitFree(p[1..], sep);
      assert [p[0]] + p[1..] == p;
    }
  }

  /** Split undoes Join when no part holds the separator. */
  lemma {:induction false} SplitJoin(parts: seq<string>, sep: char)
    requires |parts| > 0
    requires forall i :: 0 <= i < |parts| ==> sep !in parts[i]
    ensures Split(Join(parts, sep), sep) == parts
  {
    if |parts| == 1 {
      SplitFree(parts[0], sep);
    } else {
      var init, last := parts[..|parts| - 1], parts[|parts| - 1];
      SplitJoin(init, sep);
      SplitSnoc(Join(init, sep), sep, last);
      assert init + [last] == parts;
    }
  }

  /** Appending a character other than the separator extends the last piece. */
  lemma {:induction false} SplitAppendChar(s: string, sep: char, c: char)
    requires c != sep
    ensures var r := Split(s, sep);
      Split(s + [c], sep) == r[..|r| - 1] + [r[|r| - 1] + [c]]
  {
    if s == [] {
      assert s + [c] == [c] && [c][1..] == [];
      assert Split([c], sep) == [[c] + ""];
      var r := Split(s, sep);
      assert r == [""];
      assert r[..0] + [r[0] + [c]] == [[c]];
      assert [c] + "" == [c];
      assert Split(s + [c], sep) == [[c]];
    } else {
      var t := s + [c];
      assert t[0] == s[0];
      assert t[1..] == s[1..] + [c];
      SplitAppendChar(s[1..], sep, c);
      var q := Split(s[1..], sep);
      var n := |q|;
      var qc := q[..n - 1] + [q[n - 1] + [c]];
      assert Split(s[1..] + [c], sep) == qc;
      if s[0] == sep {
        SplitAppendSepHead(q, qc, c);
      } else {
        SplitAppendOtherHead(s[0], q, qc, c);
      }
    }
  }

  lemma SplitAppendSepHead(q: seq<string>, qc: seq<string>, c: char)
    requires |q| > 0 && qc == q[..|q| - 1] + [q[|q| - 1] + [c]]
    ensures var r := [""] + q; [""] + qc == r[..|r| - 1] + [r[|r| - 1] + [c]]
  {
    var r := [""] + q;
    assert r[..|r| - 1] == [""] + q[..|q| - 1];
  }

  lemma SplitAppendOtherHead(x: char, q: seq<string>, qc: seq<string>, c: char)
    requires |q| > 0 && qc == q[..|q| - 1] + [q[|q| - 1] + [c]]
    ensures var r := [[x] + q[0]] + q[1..];
      [[x] + qc[0]] + qc[1..] == r[..|r| - 1] + [r[|r| - 1] + [c]]
  {
    var n := |q|;
    var r := [[x] + q[0]] + q[1..];
    if n == 1 {
      assert [x] + (q[0] + [c]) == [x] + q[0] + [c];
    } else {
      assert qc[0] == q[0];
      assert qc[1..] == q[1..n - 1] + [q[n - 1] + [c]];
      assert r[..n - 1] == [[x] + q[0]] + q[1..n - 1];
    }
  }

  /** Join undoes Split on every string. */
  lemma {:induction false} JoinSplit(s: string, sep: char)
    ensures Join(Split(s, sep), sep) == s
    decreases |s|
  {
    if s != [] {
      var init, c := s[..|s| - 1], s[|s| - 1];
      assert s == init + [c];
      JoinSplit(init, sep);
      var r := Split(init, sep);
      var n := |r|;
      if c == sep {
        SplitSnoc(init, sep, "");
        assert init + [sep] + "" == s;
        assert (r + [""])[..n] == r;
      } else {
        SplitAppendChar(init, sep, c);
        var r' := r[..n - 1] + [r[n - 1] + [c]];
        assert r'[..n - 1] == r[..n - 1];
        if n > 1 {
          assert r[..n - 1] + [r[n - 1]] == r;
          assert Join(r, sep) == Join(r[..n - 1], sep) + [sep] + r[n - 1];
          assert Join(r', sep) == Join(r[..n - 1], sep) + [sep] + (r[n - 1] + [c]);
        }
      }
    }
  }

  /**
   * Three-way code-point comparison of two strings: -1, 0 or 1 as `s` sorts
   * before, equal to or after `t`.
   */
  function Cmp(s: string, t: string): (r: int)
    ensures -1 <= r <= 1
    ensures r == 0 <==> s == t
  {
    if s == [] then (if t == [] then 0 else -1)
    else if t == [] then 1
    else if s[0] < t[0] then -1
    else if s[0] > t[0] then 1
    else
      assert s == [s[0]] + s[1..] && t == [t[0]] + t[1..];
      Cmp(s[1..], t[1..])
  }

  /** `s` and `t` agree before position `i`, where `s` holds the smaller code point. */
  ghost predicate LessAt(s: string, t: string, i: int)
  {
    0 <= i < |s| && i < |t| && s[..i] == t[..i] && s[i] < t[i]
  }

  /**
   * The textbook definition of lexicographic order: `s` is a proper prefix of
   * `t`, or the two agree up to some position where `s` holds the smaller code point.
   */
  ghost predicate LexLess(s: string, t: string)
  {
    || (|s| < |t| && s == t[..|s|])
    || exists i :: LessAt(s, t, i)
  }

  /** Past a common first character, a first difference moves one position left. */
  lemma LessAtTail(s: string, t: string, i: int)
    requires s != [] && t != [] && s[0] == t[0] && i > 0
    ensures LessAt(s, t, i) <==> LessAt(s[1..], t[1..], i - 1)
  {
    if i < |s| && i < |t| {
      assert s[..i] == [s[0]] + s[1..][..i - 1];
      assert t[..i] == [t[0]] + t[1..][..i - 1];
      assert s[..i] == t[..i] <==> s[1..][..i - 1] == t[1..][..i - 1];
      assert s[i] == s[1..][i - 1] && t[i] == t[1..][i - 1];
    }
  }

  /** Past a common first character, a proper prefix stays a proper prefix. */
  lemma PrefixTail(s: string, t: string)
    requires s != [] && t != [] && s[0] == t[0]
    ensures (|s| < |t| && s == t[..|s|]) <==> (|s| - 1 < |t| - 1 && s[1..] == t[1..][..|s| - 1])
  {
    if |s| < |t| {
      assert s == [s[0]] + s[1..];
      assert t[..|s|] == [t[0]] + t[1..][..|s| - 1];
    }
  }

  /** Strings with the same first character are ordered as their tails are. */
  lemma LexLessTail(s: string, t: string)
    requires s != [] && t != [] && s[0] == t[0]
    ensures LexLess(s, t) <==> LexLess(s[1..], t[1..])
  {
    PrefixTail(s, t);
    if i :| LessAt(s, t, i) {
      LessAtTail(s, t, i);
    }
    if j :| LessAt(s[1..], t[1..], j) {
      LessAtTail(s, t, j + 1);
    }
  }

  /** Cmp answers -1 exactly when `s` is lexicographically before `t`. */
  lemma {:induction false} CmpIsLexLess(s: string, t: string)
    ensures Cmp(s, t) == -1 <==> LexLess(s, t)
  {
    if s == [] {
      if t != [] {
        assert s == t[..0];
      }
    } else if t == [] {
    } else if s[0] < t[0] {
      assert LessAt(s, t, 0);
    } else if s[0] > t[0] {
    } else {
      CmpIsLexLess(s[1..], t[1..]);
      LexLessTail(s, t);
    }
  }

  /** Swapping the arguments negates the comparison. */
  lemma {:induction false} CmpAntisymmetric(s: string, t: string)
    ensures Cmp(s, t) == -Cmp(t, s)
  {
    if s != [] && t != [] && s[0] == t[0] {
      CmpAntisymmetric(s[1..], t[1..]);
    }
  }

  /** The strict order Cmp defines is transitive. */
  lemma {:induction false} CmpTransitive(s: string, t: string, u: string)
    requires Cmp(s, t) == -1 && Cmp(t, u) == -1
    ensures Cmp(s, u) == -1
  {
    if s != [] && s[0] == t[0] && t[0] == u[0] {
      CmpTransitive(s[1..], t[1..], u[1..]);
    }
  }
}
