/** Sorting by a real-valued key, highest first, and why any two descending
    arrangements of the same elements show the same keys in the same order.
    The ranking algorithms instantiate the key with one of the post scores. */
module Sequences {

  /** `s` lists its elements from the highest key to the lowest. */
  predicate DescendingBy<T>(s: seq<T>, key: T -> real) {
    forall i, j :: 0 <= i < j < |s| ==> key(s[j]) <= key(s[i])
  }

  /** An element whose key is at least the head's can go in front of a
      descending sequence. */
  lemma PrependDescending<T>(x: T, s: seq<T>, key: T -> real)
    requires DescendingBy(s, key)
    requires |s| > 0 ==> key(s[0]) <= key(x)
    ensures DescendingBy([x] + s, key)
  {
    var r := [x] + s;
    forall i, j | 0 <= i < j < |r| ensures key(r[j]) <= key(r[i]) {
      if i == 0 {
        assert r[j] == s[j - 1];
        assert key(s[j - 1]) <= key(s[0]);
      } else {
        assert r[i] == s[i - 1] && r[j] == s[j - 1];
      }
    }
  }

  /** Places `x` into a descending sequence, in front of the first element
      whose key does not exceed its own. */
  function InsertBy<T>(x: T, s: seq<T>, key: T -> real): (r: seq<T>)
    requires DescendingBy(s, key)
    ensures multiset(r) == multiset(s) + multiset{x}
    ensures DescendingBy(r, key)
    ensures r[0] == x || r[0] == s[0]
  {
    if |s| == 0 then [x]
    else if key(s[0]) <= key(x) then
      PrependDescending(x, s, key);
      [x] + s
    else
      assert s == [s[0]] + s[1..];
      assert DescendingBy(s[1..], key);
      var rest := InsertBy(x, s[1..], key);
      assert key(rest[0]) <= key(s[0]) by {
        if |s| > 1 {
          assert key(s[1]) <= key(s[0]);
        }
      }
      PrependDescending(s[0], rest, key);
      [s[0]] + rest
  }

  /** The elements reordered from the highest key to the lowest; which of
      two elements with equal keys comes first is not specified. */
  function SortBy<T>(s: seq<T>, key: T -> real): (r: seq<T>)
    ensures multiset(r) == multiset(s)
    ensures DescendingBy(r, key)
  {
    if |s| == 0 then []
    else
      assert s == [s[0]] + s[1..];
      InsertBy(s[0], SortBy(s[1..], key), key)
  }

  /** The sequence without its element at position `j`. */
  function RemoveAt<T>(s: seq<T>, j: nat): (r: seq<T>)
    requires j < |s|
    ensures |r| == |s| - 1
    ensures forall i :: 0 <= i < j ==> r[i] == s[i]
    ensures forall i :: j <= i < |r| ==> r[i] == s[i + 1]
    ensures multiset(r) == multiset(s) - multiset{s[j]}
  {
    assert s == s[..j] + [s[j]] + s[j + 1..];
    s[..j] + s[j + 1..]
  }

  /** Dropping an element keeps a sequence descending. */
  lemma RemoveAtDescending<T>(s: seq<T>, j: nat, key: T -> real)
    requires j < |s| && DescendingBy(s, key)
    ensures DescendingBy(RemoveAt(s, j), key)
  {
    var r := RemoveAt(s, j);
    forall i, k | 0 <= i < k < |r| ensures key(r[k]) <= key(r[i]) {
      var i', k' := if i < j then i else i + 1, if k < j then k else k + 1;
      assert r[i] == s[i'] && r[k] == s[k'];
    }
  }

  /** Two descending arrangements of the same elements start with equal keys. */
  lemma HeadKeysAgree<T>(a: seq<T>, b: seq<T>, key: T -> real)
    requires multiset(a) == multiset(b) && |a| > 0
    requires DescendingBy(a, key) && DescendingBy(b, key)
    ensures |b| > 0 && key(a[0]) == key(b[0])
  {
    assert a[0] in multiset(b);
    assert b[0] in multiset(a);
    var j :| 0 <= j < |b| && b[j] == a[0];
    var m :| 0 <= m < |a| && a[m] == b[0];
    assert key(a[m]) <= key(a[0]);
    assert key(b[j]) <= key(b[0]);
  }

  /** In a descending sequence, everything up to a position holding the top
      key holds the top key too. */
  lemma TopPlateau<T>(s: seq<T>, j: nat, key: T -> real)
    requires j < |s| && DescendingBy(s, key) && key(s[j]) == key(s[0])
    ensures forall i :: 0 <= i <= j ==> key(s[i]) == key(s[0])
  {
    forall i | 0 <= i <= j ensures key(s[i]) == key(s[0]) {
      if 0 < i < j {
        assert key(s[j]) <= key(s[i]) <= key(s[0]);
      }
    }
  }

  /** Taking the head of one arrangement out of both leaves two descending
      arrangements of the same elements. */
  lemma RemoveMatchingHead<T>(a: seq<T>, b: seq<T>, j: nat, key: T -> real)
    requires multiset(a) == multiset(b) && |a| > 0
    requires DescendingBy(a, key) && DescendingBy(b, key)
    requires j < |b| && b[j] == a[0]
    ensures multiset(a[1..]) == multiset(RemoveAt(b, j))
    ensures DescendingBy(a[1..], key) && DescendingBy(RemoveAt(b, j), key)
  {
    assert a == [a[0]] + a[1..];
    assert multiset(a[1..]) == multiset(a) - multiset{a[0]};
    RemoveAtDescending(b, j, key);
  }

  /** Two descending arrangements of the same elements agree on the key at
      every position; only elements with equal keys can trade places. */
  lemma {:induction false} DescendingArrangementsAgree<T>(a: seq<T>, b: seq<T>, key: T -> real)
    requires multiset(a) == multiset(b)
    requires DescendingBy(a, key) && DescendingBy(b, key)
    ensures |a| == |b|
    ensures forall i :: 0 <= i < |a| ==> key(a[i]) == key(b[i])
    decreases |a|
  {
    assert |a| == |multiset(a)| == |b|;
    if |a| > 0 {
      HeadKeysAgree(a, b, key);
      assert a[0] in multiset(b);
      var j :| 0 <= j < |b| && b[j] == a[0];
      TopPlateau(b, j, key);
      RemoveMatchingHead(a, b, j, key);
      var b' := RemoveAt(b, j);
      DescendingArrangementsAgree(a[1..], b', key);
      forall i | 1 <= i < |a| ensures key(a[i]) == key(b[i]) {
        assert a[1..][i - 1] == a[i];
        assert key(a[i]) == key(b'[i - 1]);
      }
    }
  }
}
