/**
 String utilities the updater borrows from its utility libraries (`startsWith`,
 `replace`, `ssvu::getReplaced`). Their implementations are not part of this
 model; the definitions here are the semantics the model assumes for them:
 a prefix test, and a left-to-right, non-overlapping replace-all in which an
 empty pattern leaves the string unchanged.
 */
module Strings {

  /** `prefix` is a prefix of `s`. */
  predicate StartsWith(s: string, prefix: string)
  {
    |prefix| <= |s| && s[..|prefix|] == prefix
  }

  /** `pat` occurs in `s` starting at index `i`. */
  predicate OccursAt(s: string, pat: string, i: int)
  {
    0 <= i && i + |pat| <= |s| && s[i..i + |pat|] == pat
  }

  /** `pat` occurs somewhere in `s`. */
  predicate Occurs(s: string, pat: string)
  {
    exists i :: 0 <= i <= |s| && OccursAt(s, pat, i)
  }

  /** Every occurrence of `from` in `s`, scanned left to right, replaced by `to`. */
  function ReplaceAll(s: string, from: string, to: string): string
    decreases |s|
  {
    if |from| == 0 || |s| == 0 then s
    else if StartsWith(s, from) then to + ReplaceAll(s[|from|..], from, to)
    else s[..1] + ReplaceAll(s[1..], from, to)
  }

  /** A string that starts with a pattern contains it. */
  lemma LeadingOccurrence(s: string, pat: string)
    requires StartsWith(s, pat)
    ensures Occurs(s, pat)
  {
    assert OccursAt(s, pat, 0);
  }

  /** A string in which the pattern does not occur is left unchanged. */
  lemma {:induction false} ReplaceAllAbsent(s: string, from: string, to: string)
    requires !Occurs(s, from)
    ensures ReplaceAll(s, from, to) == s
    decreases |s|
  {
    if |from| == 0 || |s| == 0 {
    } else if StartsWith(s, from) {
      LeadingOccurrence(s, from);
      assert false;
    } else {
      forall i | OccursAt(s[1..], from, i)
        ensures false
      {
        assert s[1..][i..i + |from|] == s[i + 1..i + 1 + |from|];
        assert OccursAt(s, from, i + 1);
      }
      ReplaceAllAbsent(s[1..], from, to);
      assert s == s[..1] + s[1..];
    }
  }

  /**
   A string that starts with a non-empty pattern, the pattern not occurring in
   the rest, has exactly that leading pattern replaced.
   */
  lemma ReplaceAllLeading(pat: string, rest: string, to: string)
    requires |pat| > 0
    requires !Occurs(rest, pat)
    ensures ReplaceAll(pat + rest, pat, to) == to + rest
  {
    var s := pat + rest;
    assert s[..|pat|] == pat;
    assert s[|pat|..] == rest;
    ReplaceAllAbsent(rest, pat, to);
  }
}
