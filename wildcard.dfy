/** The exclusion patterns of both sync front ends: each `*` of a pattern is
    rewritten to `.*` and the result is used as an unanchored regular
    expression. This model gives `*` and `.` their regular-expression meaning
    (any run of characters / any one character, neither crossing a line
    terminator) and reads every other character literally. */
module Wildcard {
  import opened Paths

  /** The characters `.` does not match. */
  predicate LineTerminator(c: char)
  {
    c == '\n' || c == '\r' || c == '\U{2028}' || c == '\U{2029}'
  }

  predicate NoLineTerminator(s: string)
  {
    forall k :: 0 <= k < |s| ==> !LineTerminator(s[k])
  }

  /** Pattern `p` matches some prefix of `t`. */
  predicate MatchesPrefix(p: string, t: string): (b: bool)
    ensures p == [] ==> b
    ensures b && p != [] && p[0] != '*' ==> |t| > 0
    decreases |p|
  {
    if p == [] then true
    else if p[0] == '*' then
      exists k | 0 <= k <= |t| :: NoLineTerminator(t[..k]) && MatchesPrefix(p[1..], t[k..])
    else if p[0] == '.' then
      |t| > 0 && !LineTerminator(t[0]) && MatchesPrefix(p[1..], t[1..])
    else
      |t| > 0 && t[0] == p[0] && MatchesPrefix(p[1..], t[1..])
  }

  /** The regular expression built from `p` tests true on `s`: a match may start anywhere. */
  predicate Found(p: string, s: string): (b: bool)
    ensures MatchesPrefix(p, s) ==> b
    ensures p == [] ==> b
  {
    assert s[0..] == s;
    exists i | 0 <= i <= |s| :: MatchesPrefix(p, s[i..])
  }

  /** A pattern with no `*` and no `.`. */
  predicate Literal(p: string)
  {
    forall k :: 0 <= k < |p| ==> p[k] != '*' && p[k] != '.'
  }

  lemma {:induction false} LiteralMatchesPrefix(p: string, t: string)
    requires Literal(p)
    ensures MatchesPrefix(p, t) <==> |p| <= |t| && t[..|p|] == p
    decreases |p|
  {
    if p != [] && |t| > 0 {
      LiteralMatchesPrefix(p[1..], t[1..]);
      if |p| <= |t| {
        assert t[..|p|] == [t[0]] + t[1..][..|p| - 1];
        assert p == [p[0]] + p[1..];
      }
    }
  }

  /** `p` occurs in `s` at offset `i`. */
  predicate OccursAt(p: string, s: string, i: int)
  {
    0 <= i && i + |p| <= |s| && s[i..i + |p|] == p
  }

  /** A literal pattern excludes exactly the names that contain it. */
  lemma LiteralFoundIffInfix(p: string, s: string)
    requires Literal(p)
    ensures Found(p, s) <==> exists i :: OccursAt(p, s, i)
  {
    if Found(p, s) {
      var i :| 0 <= i <= |s| && MatchesPrefix(p, s[i..]);
      LiteralMatchesPrefix(p, s[i..]);
      assert s[i..][..|p|] == s[i..i + |p|];
      assert OccursAt(p, s, i);
    }
    if exists i :: OccursAt(p, s, i) {
      var i :| OccursAt(p, s, i);
      LiteralMatchesPrefix(p, s[i..]);
      assert s[i..][..|p|] == s[i..i + |p|];
    }
  }

  /** Text after a prefix match does not undo it. */
  lemma {:induction false} MatchesPrefixExtends(p: string, t: string, b: string)
    requires MatchesPrefix(p, t)
    ensures MatchesPrefix(p, t + b)
    decreases |p|
  {
    if p != [] {
      if p[0] == '*' {
        var k :| 0 <= k <= |t| && NoLineTerminator(t[..k]) && MatchesPrefix(p[1..], t[k..]);
        MatchesPrefixExtends(p[1..], t[k..], b);
        assert (t + b)[..k] == t[..k];
        assert (t + b)[k..] == t[k..] + b;
      } else {
        MatchesPrefixExtends(p[1..], t[1..], b);
        assert (t + b)[1..] == t[1..] + b;
      }
    }
  }

  /** The match is unanchored: a name that contains a matching name matches. */
  lemma FoundInside(p: string, a: string, s: string, b: string)
    requires Found(p, s)
    ensures Found(p, a + s + b)
  {
    var i :| 0 <= i <= |s| && MatchesPrefix(p, s[i..]);
    MatchesPrefixExtends(p, s[i..], b);
    assert (a + s + b)[|a| + i..] == s[i..] + b;
  }

  /** `.` stays a regular-expression wildcard: a pattern `*.ext` is found in
      any name where some character other than a line terminator precedes
      `ext`, whether or not that character is a dot ("*.log" matches
      "catalog"). */
  lemma DotIsAnyCharacter(ext: string, a: string, c: char, b: string)
    requires Literal(ext) && !LineTerminator(c)
    ensures Found("*." + ext, a + [c] + ext + b)
  {
    var s := a + [c] + ext + b;
    var t := [c] + ext + b;
    var p := "*." + ext;
    LiteralMatchesPrefix(ext, ext + b);
    assert (ext + b)[..|ext|] == ext;
    assert t[1..] == ext + b;
    assert p[1..] == "." + ext && ("." + ext)[1..] == ext;
    assert MatchesPrefix("." + ext, t);
    assert t[..0] == [] && t[0..] == t;
    assert MatchesPrefix(p, t);
    assert s[|a|..] == t;
  }
}
