/** C strings: text up to a delimiter. */
module CText {

  const NUL := 0 as char

  /** The text before the first `c` (all of it if there is none). */
  function Before(s: string, c: char): string {
    if s == [] || s[0] == c then [] else [s[0]] + Before(s[1..], c)
  }

  lemma {:induction false} BeforeLength(s: string, c: char)
    ensures |Before(s, c)| <= |s| && Before(s, c) == s[..|Before(s, c)|] && c !in Before(s, c)
    ensures |Before(s, c)| < |s| ==> s[|Before(s, c)|] == c
    ensures c !in s <==> Before(s, c) == s
  {
    if s != [] && s[0] != c {
      BeforeLength(s[1..], c);
      assert s == [s[0]] + s[1..];
      assert Before(s, c) == [s[0]] + Before(s[1..], c);
    }
  }

  lemma {:induction false} BeforeExact(s: string, c: char, t: string)
    requires c !in s
    ensures Before(s + [c] + t, c) == s
  {
    if s != [] {
      assert (s + [c] + t)[1..] == s[1..] + [c] + t;
      BeforeExact(s[1..], c, t);
    }
  }

  /** A text that is closed stays the same when more follows. */
  lemma {:induction false} BeforeExtends(s: string, t: string, c: char)
    requires |Before(s, c)| < |s|
    ensures Before(s + t, c) == Before(s, c)
  {
    if s[0] != c {
      assert (s + t)[1..] == s[1..] + t;
      BeforeExtends(s[1..], t, c);
    }
  }
}
