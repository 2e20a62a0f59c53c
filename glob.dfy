/** The glob patterns the store's KEYS command accepts, as far as the
    dashboard uses them: literal characters, `*` (any run of characters),
    `?` (any one byte, modelled as one character) and `\` (take the next
    character literally). Bracketed character classes are not part of this
    model. */
module Glob {

  /** True when `s` matches the glob pattern `p`. A pattern without
      special characters matches only itself; a lone `*` matches every key. */
  function Match(p: string, s: string): (r: bool)
    ensures Literal(p) ==> (r <==> s == p)
    ensures p == "*" ==> r
    decreases |p| + |s|
  {
    if p == [] then s == []
    else if p[0] == '*' then Match(p[1..], s) || (s != [] && Match(p, s[1..]))
    else if p[0] == '?' then s != [] && Match(p[1..], s[1..])
    else if p[0] == '\\' && |p| >= 2 then s != [] && s[0] == p[1] && Match(p[2..], s[1..])
    else s != [] && s[0] == p[0] && Match(p[1..], s[1..])
  }

  /** A pattern with no character that the matcher treats specially. */
  predicate Literal(p: string)
  {
    forall i :: 0 <= i < |p| ==> p[i] != '*' && p[i] != '?' && p[i] != '\\' && p[i] != '['
  }

  /** A literal text followed by `*` matches exactly the keys that start
      with that text: the pattern is a prefix test. */
  lemma {:induction false} LiteralStarIsPrefix(p: string, s: string)
    requires Literal(p)
    ensures Match(p + "*", s) <==> p <= s
    decreases |p|
  {
    if p == [] {
      assert p + "*" == "*";
    } else {
      assert (p + "*")[0] == p[0];
      assert (p + "*")[1..] == p[1..] + "*";
      assert Literal(p[1..]) by {
        forall i | 0 <= i < |p[1..]|
          ensures p[1..][i] != '*' && p[1..][i] != '?' && p[1..][i] != '\\' && p[1..][i] != '['
        {
          assert p[1..][i] == p[i + 1];
        }
      }
      if s != [] {
        LiteralStarIsPrefix(p[1..], s[1..]);
        assert p <= s <==> p[0] == s[0] && p[1..] <= s[1..];
      }
    }
  }
}
