/**
 Prefix and suffix tests on strings, with the meaning of
 `boost::algorithm::starts_with` and `boost::algorithm::ends_with`: plain
 character-by-character comparison, no case folding, and the empty string is a
 prefix and a suffix of every string.
 */
module Text {

  predicate StartsWith(s: string, prefix: string) {
    |prefix| <= |s| && s[..|prefix|] == prefix
  }

  predicate EndsWith(s: string, suffix: string) {
    |suffix| <= |s| && s[|s| - |suffix|..] == suffix
  }

  /** A string starts with `prefix` exactly when it is `prefix` followed by its remainder. */
  lemma StartsWithSplit(s: string, prefix: string)
    ensures StartsWith(s, prefix) <==> |prefix| <= |s| && prefix + s[|prefix|..] == s
  {
    if |prefix| <= |s| && prefix + s[|prefix|..] == s {
      assert s[..|prefix|] == (prefix + s[|prefix|..])[..|prefix|];
    }
  }
}
