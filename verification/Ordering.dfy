/** The code-unit order of JavaScript's `<` on strings, and sorting by it. */
module Ordering {
  import opened Common

  /** `a < b` on strings. */
  predicate Less(a: Text, b: Text) {
    b != [] && (a == [] || a[0] < b[0] || (a[0] == b[0] && Less(a[1..], b[1..])))
  }

  /** They agree up to `k`, where `a` ends or has the smaller unit. */
  ghost predicate SmallerAt(a: Text, b: Text, k: nat) {
    k <= |a| && k < |b| && a[..k] == b[..k] && (k == |a| || a[k] < b[k])
  }

  /** `a` is a proper prefix of `b`, or has the smaller unit at the first place they differ. */
  ghost predicate ComesFirst(a: Text, b: Text) {
    exists k: nat :: SmallerAt(a, b, k)
  }

  lemma {:induction false} LessExactly(a: Text, b: Text)
    ensures Less(a, b) <==> ComesFirst(a, b)
  {
    if a == [] || b == [] || a[0] != b[0] {
      assert b != [] && (a == [] || a[0] < b[0]) ==> SmallerAt(a, b, 0);
      forall k: nat | SmallerAt(a, b, k) ensures k == 0 { SameStart(a, b, k); }
    } else {
      LessExactly(a[1..], b[1..]);
      if k: nat :| SmallerAt(a[1..], b[1..], k) {
        assert a[..k + 1] == [a[0]] + a[1..][..k] && b[..k + 1] == [b[0]] + b[1..][..k];
        assert SmallerAt(a, b, k + 1);
      }
      if k: nat :| SmallerAt(a, b, k) {
        assert a[1..][..k - 1] == a[..k][1..] && b[1..][..k - 1] == b[..k][1..];
        assert SmallerAt(a[1..], b[1..], k - 1);
      }
    }
  }

  lemma SameStart(a: Text, b: Text, k: nat)
    requires k <= |a| && k <= |b| && a[..k] == b[..k]
    ensures k > 0 ==> a[0] == b[0]
  {
    assert k > 0 ==> a[0] == a[..k][0] && b[0] == b[..k][0];
  }

  lemma {:induction false} LessTotal(a: Text, b: Text)
    ensures Less(a, b) || a == b || Less(b, a)
    ensures !(Less(a, b) && Less(b, a))
    ensures !Less(a, a)
  {
    if a != [] {
      LessTotal(a[1..], a[1..]);
      if b != [] {
        LessTotal(a[1..], b[1..]);
        assert a == [a[0]] + a[1..] && b == [b[0]] + b[1..];
      }
    }
  }

  lemma {:induction false} LessTransitive(a: Text, b: Text, c: Text)
    requires Less(a, b) && Less(b, c)
    ensures Less(a, c)
  {
    if a != [] && a[0] == b[0] == c[0] {
      LessTransitive(a[1..], b[1..], c[1..]);
    }
  }

  ghost predicate StrictlySorted<T>(xs: seq<T>, key: T -> Text) {
    forall i, j :: 0 <= i < j < |xs| ==> Less(key(xs[i]), key(xs[j]))
  }

  lemma {:induction false} RisingIsSorted<T>(xs: seq<T>, key: T -> Text)
    requires forall i :: 0 <= i < |xs| - 1 ==> Less(key(xs[i]), key(xs[i + 1]))
    ensures StrictlySorted(xs, key)
  {
    if xs != [] {
      var n := |xs| - 1;
      RisingIsSorted(xs[..n], key);
      forall i | 0 <= i < n ensures Less(key(xs[i]), key(xs[n])) {
        if i < n - 1 {
          assert Less(key(xs[..n][i]), key(xs[..n][n - 1]));
          LessTransitive(key(xs[i]), key(xs[n - 1]), key(xs[n]));
        }
      }
      assert forall i, j :: 0 <= i < j < n ==> xs[i] == xs[..n][i] && xs[j] == xs[..n][j];
    }
  }

  ghost predicate DistinctKeys<T>(xs: seq<T>, key: T -> Text) {
    forall i, j :: 0 <= i < j < |xs| ==> key(xs[i]) != key(xs[j])
  }

  function Insert<T>(x: T, xs: seq<T>, key: T -> Text): seq<T> {
    if xs == [] || !Less(key(xs[0]), key(x)) then [x] + xs
    else [xs[0]] + Insert(x, xs[1..], key)
  }

  /** `xs.sort((a, b) => a.key < b.key ? -1 : a.key > b.key ? 1 : 0)`, which is stable. */
  function Sort<T>(xs: seq<T>, key: T -> Text): seq<T> {
    if xs == [] then [] else Insert(xs[0], Sort(xs[1..], key), key)
  }

  lemma {:induction false} InsertContents<T>(x: T, xs: seq<T>, key: T -> Text)
    ensures multiset(Insert(x, xs, key)) == multiset{x} + multiset(xs)
  {
    if xs != [] && Less(key(xs[0]), key(x)) {
      InsertContents(x, xs[1..], key);
      assert xs == [xs[0]] + xs[1..];
    }
  }

  lemma {:induction false} InsertSorted<T>(x: T, xs: seq<T>, key: T -> Text)
    requires StrictlySorted(xs, key)
    requires forall y :: y in xs ==> key(y) != key(x)
    ensures StrictlySorted(Insert(x, xs, key), key)
  {
    if xs == [] {
    } else if Less(key(xs[0]), key(x)) {
      var rest := Insert(x, xs[1..], key);
      InsertSorted(x, xs[1..], key);
      InsertContents(x, xs[1..], key);
      forall j | 0 <= j < |rest| ensures Less(key(xs[0]), key(rest[j])) {
        assert rest[j] in multiset(rest);
        assert rest[j] == x || rest[j] in xs[1..];
      }
    } else {
      LessTotal(key(xs[0]), key(x));
      forall j | 0 <= j < |xs| ensures Less(key(x), key(xs[j])) {
        if j > 0 { LessTransitive(key(x), key(xs[0]), key(xs[j])); }
      }
    }
  }

  /** Sorting permutes. */
  lemma {:induction false} SortContents<T>(xs: seq<T>, key: T -> Text)
    ensures multiset(Sort(xs, key)) == multiset(xs)
    ensures |Sort(xs, key)| == |xs|
    ensures forall x :: x in Sort(xs, key) <==> x in xs
  {
    if xs != [] {
      SortContents(xs[1..], key);
      InsertContents(xs[0], Sort(xs[1..], key), key);
      assert xs == [xs[0]] + xs[1..];
    }
    SameElements(Sort(xs, key), xs);
  }

  lemma SameElements<T>(xs: seq<T>, ys: seq<T>)
    requires multiset(xs) == multiset(ys)
    ensures |xs| == |ys| && forall x :: x in xs <==> x in ys
  {
    assert |xs| == |multiset(xs)| == |multiset(ys)| == |ys|;
    forall x ensures x in xs <==> x in ys {
      assert x in xs <==> x in multiset(xs);
      assert x in ys <==> x in multiset(ys);
    }
  }

  /** Rows with distinct keys end up strictly increasing. */
  lemma {:induction false} SortSorted<T>(xs: seq<T>, key: T -> Text)
    requires DistinctKeys(xs, key)
    ensures StrictlySorted(Sort(xs, key), key)
  {
    if xs != [] {
      SortSorted(xs[1..], key);
      SortContents(xs[1..], key);
      forall y | y in Sort(xs[1..], key) ensures key(y) != key(xs[0]) {
        assert y in multiset(Sort(xs[1..], key)) && y in xs[1..];
        var j :| 0 <= j < |xs[1..]| && xs[1..][j] == y;
        assert y == xs[j + 1];
      }
      InsertSorted(xs[0], Sort(xs[1..], key), key);
    }
  }

  function Keys<T>(xs: seq<T>, key: T -> Text): (keys: seq<Text>)
    ensures |keys| == |xs| && forall i :: 0 <= i < |xs| ==> keys[i] == key(xs[i])
  {
    seq(|xs|, i requires 0 <= i < |xs| => key(xs[i]))
  }

  /** A strictly increasing list is determined by the set of its keys. */
  lemma {:induction false} SortedUnique<T>(xs: seq<T>, ys: seq<T>, key: T -> Text)
    requires StrictlySorted(xs, key) && StrictlySorted(ys, key)
    requires forall k :: k in Keys(xs, key) <==> k in Keys(ys, key)
    ensures Keys(xs, key) == Keys(ys, key)
  {
    var a, b := Keys(xs, key), Keys(ys, key);
    assert xs != [] ==> a[0] in a && a[0] in b;
    assert ys != [] ==> b[0] in b && b[0] in a;
    if xs != [] && ys != [] {
      assert a[0] in b && b[0] in a;
      var i :| 0 <= i < |b| && b[i] == a[0];
      var j :| 0 <= j < |a| && a[j] == b[0];
      LessTotal(a[0], b[0]);
      assert a[0] == b[0];
      var a', b' := Keys(xs[1..], key), Keys(ys[1..], key);
      assert a' == a[1..] && b' == b[1..];
      forall k ensures k in a' <==> k in b' {
        LessTotal(k, a[0]);
        if k in a' { assert k in a; var p :| 0 <= p < |b| && b[p] == k; assert p > 0; assert b'[p - 1] == k; }
        if k in b' { assert k in b; var p :| 0 <= p < |a| && a[p] == k; assert p > 0; assert a'[p - 1] == k; }
      }
      SortedUnique(xs[1..], ys[1..], key);
      assert a == [a[0]] + a' && b == [b[0]] + b';
    }
  }
}
