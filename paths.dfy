/** Path strings: splitting on separators, joining, and the path of an entry
    inside a directory. */
module Paths {

  /** No character of `w` is a separator. */
  predicate NoSep(w: string, seps: set<char>)
  {
    forall k :: 0 <= k < |w| ==> w[k] !in seps
  }

  /** `s.split(sep)` in JavaScript, generalised to a set of one-character
      separators (`split(/[/\\]/)`): every separator ends a part, so "a//b"
      gives ["a", "", "b"] and "" gives [""]. */
  function Split(s: string, seps: set<char>): (parts: seq<string>)
    ensures |parts| >= 1
    ensures forall i :: 0 <= i < |parts| ==> NoSep(parts[i], seps)
    decreases |s|
  {
    if s == [] then [""]
    else
      var rest := Split(s[1..], seps);
      if s[0] in seps then [""] + rest
      else [[s[0]] + rest[0]] + rest[1..]
  }

  /** `parts.join(sep)`. */
  function JoinWith(parts: seq<string>, sep: char): string
    decreases |parts|
  {
    if parts == [] then ""
    else if |parts| == 1 then parts[0]
    else parts[0] + [sep] + JoinWith(parts[1..], sep)
  }

  /** The last part of a path: what `path.basename` returns for a path whose
      last part is a plain name. */
  function Basename(s: string, seps: set<char>): string
  {
    var parts := Split(s, seps);
    parts[|parts| - 1]
  }

  /** The path of entry `name` inside directory `dir` (`path.join(dir, name)`
      for a directory path without a trailing separator and a plain name). */
  function Join(dir: string, name: string): (p: string)
  {
    dir + "/" + name
  }

  /** `p` lies below directory `dir`. */
  predicate IsUnder(dir: string, p: string)
  {
    |dir| < |p| && p[..|dir| + 1] == dir + "/"
  }

  /** `path.relative(dir, p)` for a path below `dir`. */
  function Relative(dir: string, p: string): (rel: string)
    requires IsUnder(dir, p)
    ensures Join(dir, rel) == p
  {
    p[|dir| + 1..]
  }

  /** Being below a directory is transitive along `Join`. */
  lemma UnderJoin(dir: string, name: string, p: string)
    requires IsUnder(Join(dir, name), p)
    ensures IsUnder(dir, p)
  {
    assert p[..|dir| + 1] == Join(dir, name)[..|dir| + 1];
  }

  /** The first part of a split is the text before the first separator. */
  lemma {:induction false} FirstPart(s: string, seps: set<char>)
    ensures var h := Split(s, seps)[0];
      |h| <= |s| && h == s[..|h|] && (|h| == |s| || s[|h|] in seps)
    decreases |s|
  {
    if s != [] {
      FirstPart(s[1..], seps);
    }
  }

  lemma {:induction false} SplitSeparatorFree(a: string, seps: set<char>)
    requires NoSep(a, seps)
    ensures Split(a, seps) == [a]
    decreases |a|
  {
    if a != [] {
      SplitSeparatorFree(a[1..], seps);
      assert a[0] !in seps;
      assert [a[0]] + a[1..] == a;
    }
  }

  lemma {:induction false} SplitAfterPart(a: string, c: char, b: string, seps: set<char>)
    requires NoSep(a, seps) && c in seps
    ensures Split(a + [c] + b, seps) == [a] + Split(b, seps)
    decreases |a|
  {
    if a == [] {
      assert a + [c] + b == [c] + b;
      assert ([c] + b)[1..] == b;
    } else {
      assert (a + [c] + b)[1..] == a[1..] + [c] + b;
      SplitAfterPart(a[1..], c, b, seps);
      assert [a[0]] + a[1..] == a;
    }
  }

  /** Splitting around one separator splits each side. */
  lemma {:induction false} SplitAround(a: string, c: char, b: string, seps: set<char>)
    requires c in seps
    ensures Split(a + [c] + b, seps) == Split(a, seps) + Split(b, seps)
    decreases |a|
  {
    if a == [] {
      assert a + [c] + b == [c] + b;
      assert ([c] + b)[1..] == b;
    } else {
      assert (a + [c] + b)[1..] == a[1..] + [c] + b;
      SplitAround(a[1..], c, b, seps);
    }
  }

  /** A character that does not occur in `s` may be added to the separators
      without changing the split. */
  lemma {:induction false} SplitExtraSeparator(s: string, seps: set<char>, c: char)
    requires forall k :: 0 <= k < |s| ==> s[k] != c
    ensures Split(s, seps + {c}) == Split(s, seps)
    decreases |s|
  {
    if s != [] {
      SplitExtraSeparator(s[1..], seps, c);
    }
  }

  /** Splitting a joined list of separator-free parts gives the parts back. */
  lemma {:induction false} SplitJoin(parts: seq<string>, sep: char)
    requires |parts| >= 1
    requires forall i :: 0 <= i < |parts| ==> NoSep(parts[i], {sep})
    ensures Split(JoinWith(parts, sep), {sep}) == parts
    decreases |parts|
  {
    if |parts| == 1 {
      SplitSeparatorFree(parts[0], {sep});
    } else {
      SplitJoin(parts[1..], sep);
      SplitAfterPart(parts[0], sep, JoinWith(parts[1..], sep), {sep});
    }
  }

  /** Joining the parts of a split with the same separator rebuilds the string. */
  lemma {:induction false} JoinSplit(s: string, sep: char)
    ensures JoinWith(Split(s, {sep}), sep) == s
    decreases |s|
  {
    if s != [] {
      var rest := Split(s[1..], {sep});
      JoinSplit(s[1..], sep);
      if s[0] == sep {
        assert Split(s, {sep}) == [""] + rest;
        assert ([""] + rest)[1..] == rest;
      } else {
        var parts := [[s[0]] + rest[0]] + rest[1..];
        assert Split(s, {sep}) == parts;
        if |rest| == 1 {
          assert JoinWith(rest, sep) == rest[0];
        } else {
          assert JoinWith(rest, sep) == rest[0] + [sep] + JoinWith(rest[1..], sep);
          assert parts[1..] == rest[1..];
        }
      }
    }
  }
}
