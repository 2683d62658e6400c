/**
 * Sequence helpers shared by the interpreter, the recommendation engine and
 * the shopping list: the first-match lookup over an ordered table that the
 * backend writes as a `for` loop with an early `return`, and the
 * "subsequence of" relation that states "in the same relative order".
 */
module Lists {
  import opened Wrappers

  /** Entry `i` is the first entry of `table` whose key satisfies `hit`. */
  ghost predicate FirstHit<K, V>(table: seq<(K, V)>, hit: K -> bool, i: int) {
    0 <= i < |table| && hit(table[i].0) && forall j :: 0 <= j < i ==> !hit(table[j].0)
  }

  /**
   * The value of the first entry, in table order, whose key satisfies `hit`;
   * `None` when no key does.
   */
  function First<K, V>(table: seq<(K, V)>, hit: K -> bool): (r: Option<V>)
    ensures r.None? <==> forall i :: 0 <= i < |table| ==> !hit(table[i].0)
    ensures r.Some? ==> exists i :: FirstHit(table, hit, i)
    ensures forall i :: FirstHit(table, hit, i) ==> r == Some(table[i].1)
  {
    if table == [] then None
    else if hit(table[0].0) then assert FirstHit(table, hit, 0); Some(table[0].1)
    else
      var r := First(table[1..], hit);
      assert forall i :: FirstHit(table, hit, i) ==> FirstHit(table[1..], hit, i - 1);
      assert forall i :: FirstHit(table[1..], hit, i) ==> FirstHit(table, hit, i + 1);
      r
  }

  /** When entry `k` is a hit, the first hit is at `k` or before it. */
  lemma {:induction false} FirstHitAtOrBefore<K, V>(table: seq<(K, V)>, hit: K -> bool, k: int)
    requires 0 <= k < |table| && hit(table[k].0)
    ensures exists i :: 0 <= i <= k && FirstHit(table, hit, i)
    decreases k
  {
    if j :| 0 <= j < k && hit(table[j].0) {
      FirstHitAtOrBefore(table, hit, j);
    } else {
      assert FirstHit(table, hit, k);
    }
  }

  /** How many elements of `s` satisfy `p`. */
  function CountWhere<T>(s: seq<T>, p: T -> bool): (n: nat)
    ensures n <= |s|
    decreases |s|
  {
    if s == [] then 0 else (if p(s[0]) then 1 else 0) + CountWhere(s[1..], p)
  }

  /** `a` is `b` with some elements left out, the rest kept in order. */
  predicate IsSubsequence<T(==)>(a: seq<T>, b: seq<T>)
    decreases |b|
  {
    a == [] || (b != [] && ((a[0] == b[0] && IsSubsequence(a[1..], b[1..])) || IsSubsequence(a, b[1..])))
  }

  lemma {:induction false} SubsequenceMembers<T>(a: seq<T>, b: seq<T>)
    requires IsSubsequence(a, b)
    ensures forall x :: x in a ==> x in b
  {
    if a != [] {
      if a[0] == b[0] && IsSubsequence(a[1..], b[1..]) {
        SubsequenceMembers(a[1..], b[1..]);
        assert forall x :: x in a ==> x == a[0] || x in a[1..];
      } else {
        SubsequenceMembers(a, b[1..]);
      }
    }
  }

  lemma {:induction false} SubsequenceRefl<T>(a: seq<T>)
    ensures IsSubsequence(a, a)
  {
    if a != [] {
      SubsequenceRefl(a[1..]);
    }
  }

  /** Appending the same element to both sides, or only to the larger one. */
  lemma {:induction false} SubsequenceSnoc<T>(a: seq<T>, b: seq<T>, x: T)
    requires IsSubsequence(a, b)
    ensures IsSubsequence(a + [x], b + [x])
    ensures IsSubsequence(a, b + [x])
    decreases |b|
  {
    if a == [] {
      assert [] + [x] == [x];
      SubsequenceDropFront([x], b);
    } else if a[0] == b[0] && IsSubsequence(a[1..], b[1..]) {
      SubsequenceSnoc(a[1..], b[1..], x);
      assert (a + [x])[1..] == a[1..] + [x] && (b + [x])[1..] == b[1..] + [x];
    } else {
      SubsequenceSnoc(a, b[1..], x);
      assert (b + [x])[1..] == b[1..] + [x];
    }
  }

  /** Anything before `a` in the larger sequence may be skipped. */
  lemma {:induction false} SubsequenceDropFront<T>(a: seq<T>, b: seq<T>)
    ensures IsSubsequence(a, b + a)
    decreases |b|
  {
    if b == [] {
      SubsequenceRefl(a);
      assert b + a == a;
    } else {
      SubsequenceDropFront(a, b[1..]);
      assert (b + a)[1..] == b[1..] + a;
    }
  }

  /** A prefix is a subsequence. */
  lemma {:induction false} PrefixSubsequence<T>(a: seq<T>, k: nat)
    requires k <= |a|
    ensures IsSubsequence(a[..k], a)
    decreases |a|
  {
    if k > 0 {
      PrefixSubsequence(a[1..], k - 1);
      assert a[..k][1..] == a[1..][..k - 1];
    }
  }

  lemma {:induction false} SubsequenceTrans<T>(a: seq<T>, b: seq<T>, c: seq<T>)
    requires IsSubsequence(a, b) && IsSubsequence(b, c)
    ensures IsSubsequence(a, c)
    decreases |c|
  {
    if a != [] {
      if b[0] == c[0] && IsSubsequence(b[1..], c[1..]) {
        if a[0] == b[0] && IsSubsequence(a[1..], b[1..]) {
          SubsequenceTrans(a[1..], b[1..], c[1..]);
        } else {
          SubsequenceTrans(a, b[1..], c[1..]);
        }
      } else {
        SubsequenceTrans(a, b, c[1..]);
      }
    }
  }

  /** A subsequence whose elements all satisfy `p` is no longer than the count of `p` elements. */
  lemma {:induction false} SubsequenceCountBound<T>(a: seq<T>, s: seq<T>, p: T -> bool)
    requires IsSubsequence(a, s) && forall k :: 0 <= k < |a| ==> p(a[k])
    ensures |a| <= CountWhere(s, p)
    decreases |s|
  {
    if a != [] {
      if a[0] == s[0] && IsSubsequence(a[1..], s[1..]) {
        SubsequenceCountBound(a[1..], s[1..], p);
      } else {
        SubsequenceCountBound(a, s[1..], p);
      }
    }
  }

  /**
   * A filter is determined by three facts: it is a subsequence, its elements
   * satisfy `p`, and it has as many elements as satisfy `p`. Two sequences
   * with all three are equal.
   */
  lemma {:induction false} FilterDetermined<T>(a: seq<T>, b: seq<T>, s: seq<T>, p: T -> bool)
    requires IsSubsequence(a, s) && (forall k :: 0 <= k < |a| ==> p(a[k])) && |a| == CountWhere(s, p)
    requires IsSubsequence(b, s) && (forall k :: 0 <= k < |b| ==> p(b[k])) && |b| == CountWhere(s, p)
    ensures a == b
    decreases |s|
  {
    if s != [] {
      var rest := CountWhere(s[1..], p);
      if p(s[0]) {
        FilterHead(a, s, p);
        FilterHead(b, s, p);
        FilterDetermined(a[1..], b[1..], s[1..], p);
        assert a == [a[0]] + a[1..] && b == [b[0]] + b[1..];
      } else {
        if a != [] {
          assert a[0] != s[0];
        }
        if b != [] {
          assert b[0] != s[0];
        }
        FilterDetermined(a, b, s[1..], p);
      }
    }
  }

  /** When `s[0]` satisfies `p`, a filter of `s` starts with it. */
  lemma FilterHead<T>(a: seq<T>, s: seq<T>, p: T -> bool)
    requires s != [] && p(s[0])
    requires IsSubsequence(a, s) && (forall k :: 0 <= k < |a| ==> p(a[k])) && |a| == CountWhere(s, p)
    ensures a != [] && a[0] == s[0] && IsSubsequence(a[1..], s[1..])
    ensures forall k :: 0 <= k < |a[1..]| ==> p(a[1..][k])
    ensures |a[1..]| == CountWhere(s[1..], p)
  {
    if !(a[0] == s[0] && IsSubsequence(a[1..], s[1..])) {
      SubsequenceCountBound(a, s[1..], p);
    }
  }
}
