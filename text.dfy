/**
 * The JavaScript string operations the store relies on: `toLowerCase`
 * (restricted to ASCII letters), `includes`, and the relational
 * operators `<` / `>` on strings (lexicographic by character, a proper
 * prefix being smaller).
 */
module Text {

  function LowerChar(c: char): char {
    if 'A' <= c <= 'Z' then (c as int + 32) as char else c
  }

  /** `s.toLowerCase()` for ASCII letters; every other character is kept. */
  function Lower(s: string): string {
    seq(|s|, i requires 0 <= i < |s| => LowerChar(s[i]))
  }

  predicate StartsWith(s: string, q: string) {
    |q| <= |s| && s[..|q|] == q
  }

  /** `s.includes(q)`, scanning the start positions of `s` one by one. */
  predicate Contains(s: string, q: string)
    decreases |s|
  {
    StartsWith(s, q) || (s != [] && Contains(s[1..], q))
  }

  /** `q` occurs in `s` starting at position `i`. */
  predicate OccursAt(s: string, q: string, i: int) {
    0 <= i && i + |q| <= |s| && s[i..i + |q|] == q
  }

  /** An occurrence after the first position is an occurrence in the tail. */
  lemma OccursInTail(s: string, q: string, i: int)
    requires s != [] && 1 <= i
    ensures OccursAt(s, q, i) <==> OccursAt(s[1..], q, i - 1)
  {
    if i + |q| <= |s| {
      var here, there := s[i..i + |q|], s[1..][i - 1..i - 1 + |q|];
      assert |here| == |there|;
      assert forall k :: 0 <= k < |here| ==> here[k] == s[i + k] == there[k];
      assert here == there;
    }
  }

  /** An occurrence at the first position is a prefix. */
  lemma OccursAtStart(s: string, q: string)
    ensures OccursAt(s, q, 0) <==> StartsWith(s, q)
  {
    if |q| <= |s| {
      assert s[..|q|] == s[0..0 + |q|];
    }
  }

  /** `includes` finds `q` exactly when some window of `s` spells `q`. */
  lemma {:induction false} ContainsIff(s: string, q: string)
    ensures Contains(s, q) <==> exists i :: OccursAt(s, q, i)
    decreases |s|
  {
    OccursAtStart(s, q);
    if StartsWith(s, q) {
    } else if s == [] {
      assert q != [];
    } else {
      ContainsIff(s[1..], q);
      if Contains(s[1..], q) {
        var j :| OccursAt(s[1..], q, j);
        OccursInTail(s, q, j + 1);
      } else {
        forall i | 1 <= i
          ensures !OccursAt(s, q, i)
        {
          OccursInTail(s, q, i);
        }
      }
    }
  }

  /** A text without the query's first character does not contain the query. */
  lemma {:induction false} MissingFirstChar(s: string, q: string)
    requires q != [] && q[0] !in s
    ensures !Contains(s, q)
    decreases |s|
  {
    if s != [] {
      assert s[0] != q[0];
      MissingFirstChar(s[1..], q);
    }
  }

  /** `a < b` on strings. */
  predicate Less(a: string, b: string)
    decreases |a|
  {
    if b == [] then false
    else if a == [] then true
    else if a[0] != b[0] then a[0] < b[0]
    else Less(a[1..], b[1..])
  }

  lemma {:induction false} LessIrreflexive(a: string)
    ensures !Less(a, a)
    decreases |a|
  {
    if a != [] {
      LessIrreflexive(a[1..]);
    }
  }

  lemma {:induction false} LessTransitive(a: string, b: string, c: string)
    requires Less(a, b) && Less(b, c)
    ensures Less(a, c)
    decreases |a|
  {
    if a != [] && a[0] == b[0] && b[0] == c[0] {
      LessTransitive(a[1..], b[1..], c[1..]);
    }
  }

  /** Any two distinct strings are ordered one way or the other. */
  lemma {:induction false} LessTotal(a: string, b: string)
    ensures a == b || Less(a, b) || Less(b, a)
    decreases |a|
  {
    if a != [] && b != [] && a[0] == b[0] {
      LessTotal(a[1..], b[1..]);
      if a[1..] == b[1..] {
        assert a == [a[0]] + a[1..] && b == [b[0]] + b[1..];
      }
    }
  }

  lemma LessAsymmetric(a: string, b: string)
    requires Less(a, b)
    ensures !Less(b, a)
  {
    if Less(b, a) {
      LessTransitive(a, b, a);
      LessIrreflexive(a);
    }
  }
}
