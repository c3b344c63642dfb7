/**
 * String operations the component relies on: `toLowerCase`, `includes`
 * and the `<` comparison of two strings.  Lowercasing is modelled on ASCII
 * letters only; `<` is lexicographic order on characters.
 */
module Text {

  predicate IsUpper(c: char)
  {
    'A' <= c <= 'Z'
  }

  function LowerChar(c: char): char
  {
    if IsUpper(c) then (c as int - 'A' as int + 'a' as int) as char else c
  }

  /** `s.toLowerCase()`. */
  function Lower(s: string): (r: string)
    ensures |r| == |s|
    ensures forall i :: 0 <= i < |r| ==> !IsUpper(r[i])
    ensures forall i :: 0 <= i < |s| && IsUpper(s[i]) ==> r[i] as int == s[i] as int - 'A' as int + 'a' as int
    ensures forall i :: 0 <= i < |s| && !IsUpper(s[i]) ==> r[i] == s[i]
  {
    seq(|s|, i requires 0 <= i < |s| => LowerChar(s[i]))
  }

  /** Lowercasing twice is lowercasing once. */
  lemma LowerIdempotent(s: string)
    ensures Lower(Lower(s)) == Lower(s)
  {
  }

  /** `p` sits in `s` starting at index `i`. */
  predicate OccursAt(s: string, p: string, i: nat)
  {
    i + |p| <= |s| && s[i..i + |p|] == p
  }

  lemma OccursShift(s: string, p: string, i: nat)
    requires |s| > 0
    ensures OccursAt(s, p, i + 1) <==> OccursAt(s[1..], p, i)
  {
  }

  /** `s.includes(p)`: scans the start positions of `s` from the left. */
  function Includes(s: string, p: string): (r: bool)
    ensures r <==> exists i: nat :: OccursAt(s, p, i)
    decreases |s|
  {
    if |p| <= |s| && s[..|p|] == p then
      assert OccursAt(s, p, 0);
      true
    else if |s| == 0 then
      false
    else
      var rest := Includes(s[1..], p);
      assert rest ==> exists i: nat :: OccursAt(s, p, i) by {
        if rest {
          var j: nat :| OccursAt(s[1..], p, j);
          OccursShift(s, p, j);
        }
      }
      assert (exists i: nat :: OccursAt(s, p, i)) ==> rest by {
        if i: nat :| OccursAt(s, p, i) {
          assert i != 0;
          OccursShift(s, p, i - 1);
        }
      }
      rest
  }

  /** Every string includes the empty string. */
  lemma IncludesEmpty(s: string)
    ensures Includes(s, "")
  {
    assert OccursAt(s, "", 0);
  }

  /** JavaScript `a < b` on two strings: lexicographic order. */
  predicate LessStr(a: string, b: string)
  {
    if |a| == 0 then |b| > 0
    else if |b| == 0 then false
    else if a[0] != b[0] then a[0] < b[0]
    else LessStr(a[1..], b[1..])
  }

  /**
   * Lexicographic order stated directly: `a` is a proper prefix of `b`, or
   * at the first index where they differ `a` has the smaller character.
   */
  ghost predicate LexBefore(a: string, b: string)
  {
    || (|a| < |b| && a == b[..|a|])
    || (exists k :: 0 <= k < |a| && k < |b| && a[..k] == b[..k] && a[k] < b[k])
  }

  lemma ConsPrefix(s: string, k: nat)
    requires 0 < k <= |s|
    ensures s[..k] == [s[0]] + s[1..][..k - 1]
  {
    assert s[1..][..k - 1] == s[1..k];
  }

  lemma {:induction false} LessStrIsLexBefore(a: string, b: string)
    requires LessStr(a, b)
    ensures LexBefore(a, b)
  {
    if |a| == 0 {
      assert a == b[..0];
    } else if a[0] != b[0] {
      assert a[..0] == b[..0];
    } else {
      var a', b' := a[1..], b[1..];
      LessStrIsLexBefore(a', b');
      if |a'| < |b'| && a' == b'[..|a'|] {
        ConsPrefix(b, |a|);
        assert a == [a[0]] + a';
      } else {
        var k :| 0 <= k < |a'| && k < |b'| && a'[..k] == b'[..k] && a'[k] < b'[k];
        ConsPrefix(a, k + 1);
        ConsPrefix(b, k + 1);
        assert a[..k + 1] == b[..k + 1] && a[k + 1] < b[k + 1];
      }
    }
  }

  lemma {:induction false} LexBeforeIsLessStr(a: string, b: string)
    requires LexBefore(a, b)
    ensures LessStr(a, b)
  {
    if |a| == 0 || |b| == 0 {
    } else if a[0] != b[0] {
      if !(|a| < |b| && a == b[..|a|]) {
        var k :| 0 <= k < |a| && k < |b| && a[..k] == b[..k] && a[k] < b[k];
      }
    } else {
      var a', b' := a[1..], b[1..];
      if |a| < |b| && a == b[..|a|] {
        ConsPrefix(b, |a|);
        assert a == [a[0]] + a';
        assert a' == b'[..|a'|];
      } else {
        var k :| 0 <= k < |a| && k < |b| && a[..k] == b[..k] && a[k] < b[k];
        assert k != 0;
        ConsPrefix(a, k);
        ConsPrefix(b, k);
        assert a'[..k - 1] == b'[..k - 1] && a'[k - 1] < b'[k - 1];
      }
      LexBeforeIsLessStr(a', b');
    }
  }

  /** `LessStr` is lexicographic order. */
  lemma LessStrLexicographic(a: string, b: string)
    ensures LessStr(a, b) <==> LexBefore(a, b)
  {
    if LessStr(a, b) {
      LessStrIsLexBefore(a, b);
    }
    if LexBefore(a, b) {
      LexBeforeIsLessStr(a, b);
    }
  }

  lemma {:induction false} LessStrIrreflexive(a: string)
    ensures !LessStr(a, a)
  {
    if |a| > 0 {
      LessStrIrreflexive(a[1..]);
    }
  }

  lemma {:induction false} LessStrAsymmetric(a: string, b: string)
    ensures !(LessStr(a, b) && LessStr(b, a))
  {
    if |a| > 0 && |b| > 0 && a[0] == b[0] {
      LessStrAsymmetric(a[1..], b[1..]);
    }
  }

  lemma {:induction false} LessStrTransitive(a: string, b: string, c: string)
    requires LessStr(a, b) && LessStr(b, c)
    ensures LessStr(a, c)
  {
    if |a| > 0 && |b| > 0 && |c| > 0 && a[0] == b[0] && b[0] == c[0] {
      LessStrTransitive(a[1..], b[1..], c[1..]);
    }
  }

  /** Two different strings are always ordered one way or the other. */
  lemma {:induction false} LessStrTotal(a: string, b: string)
    ensures LessStr(a, b) || a == b || LessStr(b, a)
  {
    if |a| > 0 && |b| > 0 && a[0] == b[0] {
      LessStrTotal(a[1..], b[1..]);
      if a[1..] == b[1..] {
        assert a == [a[0]] + a[1..] && b == [b[0]] + b[1..];
      }
    }
  }
}
