/**
 The fragment of Python's `re.match` that the filename patterns of the
 converter use: patterns built from literal characters and `.*`.

 `re.match` anchors a pattern at the start of the string but not at its end,
 so it succeeds as soon as some PREFIX of the string matches. Without the
 DOTALL flag, `.` matches every character except the newline `'\n'`.
 */
module Regex {

  /** A pattern, read left to right: `.*`, a literal character, or the end. */
  datatype Pattern = Empty | AnyRun(rest: Pattern) | Char(c: char, rest: Pattern)

  /** True iff `w` occurs in `s` starting at index `i`. */
  predicate OccursAt(s: string, w: string, i: int) {
    0 <= i && i + |w| <= |s| && forall k :: 0 <= k < |w| ==> s[i + k] == w[k]
  }

  /** True iff `s[a..b]` holds no newline, i.e. `.*` can consume exactly that text. */
  predicate LineFree(s: string, a: int, b: int) {
    0 <= a <= b <= |s| && forall k :: a <= k < b ==> s[k] != '\n'
  }

  /** True iff `s` holds no newline at all. */
  predicate NoNewline(s: string) {
    LineFree(s, 0, |s|)
  }

  /** The characters of `w` as literals, followed by `rest`. */
  function Literal(w: string, rest: Pattern): Pattern
    decreases |w|
  {
    if |w| == 0 then rest else Char(w[0], Literal(w[1..], rest))
  }

  /** The pattern `.*w` followed by `rest`. */
  function RunThen(w: string, rest: Pattern): Pattern {
    AnyRun(Literal(w, rest))
  }

  /**
   True iff `p` matches some stretch of `s` that starts at index `i`.
   `.*` is greedy in Python but, as a yes/no question, backtracking makes
   the choice of how much it consumes irrelevant.
   */
  predicate ReMatchAt(p: Pattern, s: string, i: nat)
    requires i <= |s|
    decreases |s| - i, p
  {
    match p
    case Empty => true
    case Char(c, rest) => i < |s| && s[i] == c && ReMatchAt(rest, s, i + 1)
    case AnyRun(rest) =>
      ReMatchAt(rest, s, i) || (i < |s| && s[i] != '\n' && ReMatchAt(p, s, i + 1))
  }

  /** `re.match(p, s) is not None`: some prefix of `s` matches `p`. */
  predicate ReMatch(p: Pattern, s: string) {
    ReMatchAt(p, s, 0)
  }

  /** `y` occurs with no newline before it, so `.*y` can reach it. */
  ghost predicate OccursOnLine(s: string, y: string) {
    exists j :: OccursAt(s, y, j) && LineFree(s, 0, j)
  }

  /**
   `x` occurs at `i` and `y` at `j`, starting at or after the end of `x`,
   and neither the text before `x` nor the text between them holds a newline.
   */
  ghost predicate OccursThenOnLine(s: string, x: string, y: string) {
    exists i, j ::
      && OccursAt(s, x, i) && OccursAt(s, y, j) && i + |x| <= j
      && LineFree(s, 0, i) && LineFree(s, i + |x|, j)
  }

  /** `w` occurs somewhere in `s`, newlines or not. */
  ghost predicate Contains(s: string, w: string) {
    exists j :: OccursAt(s, w, j)
  }

  /** `x` occurs somewhere in `s` and `y` occurs after it without overlap. */
  ghost predicate ContainsThen(s: string, x: string, y: string) {
    exists i, j :: OccursAt(s, x, i) && OccursAt(s, y, j) && i + |x| <= j
  }

  /** An occurrence of a non-empty word is its first character, then the rest of it. */
  lemma OccursAtCons(s: string, w: string, i: int)
    requires |w| > 0 && 0 <= i < |s|
    ensures OccursAt(s, w, i) <==> s[i] == w[0] && OccursAt(s, w[1..], i + 1)
  {
    if s[i] == w[0] && OccursAt(s, w[1..], i + 1) {
      forall k | 0 <= k < |w|
        ensures s[i + k] == w[k]
      {
        if k > 0 {
          assert s[(i + 1) + (k - 1)] == w[1..][k - 1];
        }
      }
    }
    if OccursAt(s, w, i) {
      forall k | 0 <= k < |w| - 1
        ensures s[i + 1 + k] == w[1..][k]
      {
        assert s[i + (k + 1)] == w[k + 1];
      }
    }
  }

  /** A literal prefix of the pattern must occur in the string where matching starts. */
  lemma {:induction false} LiteralThen(w: string, rest: Pattern, s: string, i: nat)
    requires i <= |s|
    ensures ReMatchAt(Literal(w, rest), s, i)
        <==> OccursAt(s, w, i) && ReMatchAt(rest, s, i + |w|)
    decreases |w|
  {
    if |w| > 0 && i < |s| {
      LiteralThen(w[1..], rest, s, i + 1);
      OccursAtCons(s, w, i);
    }
  }

  /** `.*` followed by `rest` matches iff `rest` matches after some newline-free run. */
  lemma {:induction false} AnyRunThen(rest: Pattern, s: string, i: nat)
    requires i <= |s|
    ensures ReMatchAt(AnyRun(rest), s, i)
        <==> exists m :: i <= m <= |s| && LineFree(s, i, m) && ReMatchAt(rest, s, m)
    decreases |s| - i
  {
    if ReMatchAt(AnyRun(rest), s, i) && !ReMatchAt(rest, s, i) {
      AnyRunThen(rest, s, i + 1);
      var m :| i + 1 <= m <= |s| && LineFree(s, i + 1, m) && ReMatchAt(rest, s, m);
      assert LineFree(s, i, m);
    }
    if exists m :: i <= m <= |s| && LineFree(s, i, m) && ReMatchAt(rest, s, m) {
      var m :| i <= m <= |s| && LineFree(s, i, m) && ReMatchAt(rest, s, m);
      if m > i {
        assert LineFree(s, i + 1, m);
        AnyRunThen(rest, s, i + 1);
      }
    }
  }

  /** `.*x` followed by `rest`: a match yields a position of `x` on the same line. */
  lemma RunThenRestSound(x: string, rest: Pattern, s: string, i: nat)
    requires i <= |s|
    requires ReMatchAt(RunThen(x, rest), s, i)
    ensures exists m :: OccursAt(s, x, m) && LineFree(s, i, m) && ReMatchAt(rest, s, m + |x|)
  {
    AnyRunThen(Literal(x, rest), s, i);
    var m :| i <= m <= |s| && LineFree(s, i, m) && ReMatchAt(Literal(x, rest), s, m);
    LiteralThen(x, rest, s, m);
  }

  /** `.*x` followed by `rest`: a position of `x` on the same line gives a match. */
  lemma RunThenRestComplete(x: string, rest: Pattern, s: string, i: nat, m: int)
    requires OccursAt(s, x, m) && LineFree(s, i, m) && ReMatchAt(rest, s, m + |x|)
    ensures ReMatchAt(RunThen(x, rest), s, i)
  {
    LiteralThen(x, rest, s, m);
    AnyRunThen(Literal(x, rest), s, i);
  }

  /** `re.match(".*y", s)` succeeds iff `y` occurs with no newline before it. */
  lemma MatchRunThen(s: string, y: string)
    ensures ReMatch(RunThen(y, Empty), s) <==> OccursOnLine(s, y)
  {
    if ReMatch(RunThen(y, Empty), s) {
      RunThenRestSound(y, Empty, s, 0);
    }
    if OccursOnLine(s, y) {
      var j :| OccursAt(s, y, j) && LineFree(s, 0, j);
      RunThenRestComplete(y, Empty, s, 0, j);
    }
  }

  /**
   `re.match(".*x.*y", s)` succeeds iff `x` occurs on the first line and
   `y` occurs after it, without overlap, still on the first line.
   */
  lemma MatchRunThenRunThen(s: string, x: string, y: string)
    ensures ReMatch(RunThen(x, RunThen(y, Empty)), s) <==> OccursThenOnLine(s, x, y)
  {
    if ReMatch(RunThen(x, RunThen(y, Empty)), s) {
      RunThenRestSound(x, RunThen(y, Empty), s, 0);
      var i :| OccursAt(s, x, i) && LineFree(s, 0, i) && ReMatchAt(RunThen(y, Empty), s, i + |x|);
      RunThenRestSound(y, Empty, s, i + |x|);
      var j :| OccursAt(s, y, j) && LineFree(s, i + |x|, j);
      assert OccursAt(s, x, i) && OccursAt(s, y, j) && i + |x| <= j;
    }
    if OccursThenOnLine(s, x, y) {
      var i, j :|
        && OccursAt(s, x, i) && OccursAt(s, y, j) && i + |x| <= j
        && LineFree(s, 0, i) && LineFree(s, i + |x|, j);
      RunThenRestComplete(y, Empty, s, i + |x|, j);
      RunThenRestComplete(x, RunThen(y, Empty), s, 0, i);
    }
  }

  /** If `x` has no newline, a match of `.*x.*y` is also a match of `.*y`. */
  lemma OccursThenOnLineImpliesOnLine(s: string, x: string, y: string)
    requires NoNewline(x)
    requires OccursThenOnLine(s, x, y)
    ensures OccursOnLine(s, y)
  {
    var i, j :|
      && OccursAt(s, x, i) && OccursAt(s, y, j) && i + |x| <= j
      && LineFree(s, 0, i) && LineFree(s, i + |x|, j);
    forall k | 0 <= k < j
      ensures s[k] != '\n'
    {
      if i <= k < i + |x| {
        assert s[i + (k - i)] == x[k - i];
      }
    }
    assert OccursAt(s, y, j) && LineFree(s, 0, j);
  }

  /** On a single-line string, "on the first line" is just "somewhere". */
  lemma SingleLine(s: string, x: string, y: string)
    requires NoNewline(s)
    ensures OccursOnLine(s, y) <==> Contains(s, y)
    ensures OccursThenOnLine(s, x, y) <==> ContainsThen(s, x, y)
  {
    if Contains(s, y) {
      var j :| OccursAt(s, y, j);
      assert LineFree(s, 0, j);
    }
    if ContainsThen(s, x, y) {
      var i, j :| OccursAt(s, x, i) && OccursAt(s, y, j) && i + |x| <= j;
      assert LineFree(s, 0, i) && LineFree(s, i + |x|, j);
    }
  }
}
