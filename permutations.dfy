/**
 * Facts about sequences that are permutations of one another (equal
 * multisets): a shuffle keeps keys distinct, and keeps a key that occurs
 * at exactly one position at exactly one position.
 */
module Permutations {

  /** No two positions of `s` carry the same key. */
  ghost predicate Injective<T, K>(s: seq<T>, key: T -> K)
  {
    forall i, j :: 0 <= i < j < |s| ==> key(s[i]) != key(s[j])
  }

  /** Exactly one position of `s` carries the key `x`. */
  ghost predicate ExactlyOne<T, K>(s: seq<T>, key: T -> K, x: K)
  {
    exists k :: 0 <= k < |s| && key(s[k]) == x && OnlyAt(s, key, x, k)
  }

  ghost predicate OnlyAt<T, K>(s: seq<T>, key: T -> K, x: K, k: int)
  {
    forall m :: 0 <= m < |s| && m != k ==> key(s[m]) != x
  }

  /** An element found at two positions occurs at least twice. */
  lemma TwoPositions<T>(s: seq<T>, i: nat, j: nat)
    requires i < j < |s| && s[i] == s[j]
    ensures multiset(s)[s[i]] >= 2
  {
    assert s == s[..j] + s[j..];
    assert s[i] == s[..j][i];
    assert s[j] == s[j..][0];
    assert multiset(s) == multiset(s[..j]) + multiset(s[j..]);
  }

  /** An element that occurs at least twice has a second position. */
  lemma OtherPosition<T>(s: seq<T>, p: nat) returns (q: nat)
    requires p < |s| && multiset(s)[s[p]] >= 2
    ensures q < |s| && q != p && s[q] == s[p]
  {
    var x := s[p];
    assert s == s[..p] + [x] + s[p + 1..];
    assert multiset(s) == multiset(s[..p]) + multiset{x} + multiset(s[p + 1..]);
    if x in s[..p] {
      var i :| 0 <= i < p && s[..p][i] == x;
      q := i;
    } else {
      assert x in multiset(s[p + 1..]);
      var i :| 0 <= i < |s| - p - 1 && s[p + 1..][i] == x;
      q := p + 1 + i;
    }
  }

  /** A permutation of a sequence with distinct keys has distinct keys. */
  lemma InjectivePermutation<T, K>(a: seq<T>, b: seq<T>, key: T -> K)
    requires multiset(a) == multiset(b)
    requires Injective(a, key)
    ensures Injective(b, key)
  {
    forall i, j | 0 <= i < j < |b|
      ensures key(b[i]) != key(b[j])
    {
      if key(b[i]) == key(b[j]) {
        assert b[i] in multiset(a) && b[j] in multiset(a);
        var p :| 0 <= p < |a| && a[p] == b[i];
        var q :| 0 <= q < |a| && a[q] == b[j];
        assert p == q;
        TwoPositions(b, i, j);
        var r := OtherPosition(a, p);
        assert false;
      }
    }
  }

  /** A permutation keeps a key that occurs once occurring once. */
  lemma ExactlyOnePermutation<T, K>(a: seq<T>, b: seq<T>, key: T -> K, x: K)
    requires multiset(a) == multiset(b)
    requires ExactlyOne(a, key, x)
    ensures ExactlyOne(b, key, x)
  {
    var k :| 0 <= k < |a| && key(a[k]) == x && OnlyAt(a, key, x, k);
    assert a[k] in multiset(b);
    var kb :| 0 <= kb < |b| && b[kb] == a[k];
    forall m | 0 <= m < |b| && m != kb
      ensures key(b[m]) != x
    {
      if key(b[m]) == x {
        assert b[m] in multiset(a);
        var p :| 0 <= p < |a| && a[p] == b[m];
        assert p == k;
        if m < kb { TwoPositions(b, m, kb); } else { TwoPositions(b, kb, m); }
        var r := OtherPosition(a, k);
        assert false;
      }
    }
    assert OnlyAt(b, key, x, kb);
  }
}
