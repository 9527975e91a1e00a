/** The lexicographic order on strings that keys and ids are sorted by. */
module Strings {

  predicate AtMost(a: string, b: string) {
    if a == [] then true
    else if b == [] then false
    else a[0] < b[0] || (a[0] == b[0] && AtMost(a[1..], b[1..]))
  }

  ghost predicate FirstDiffers(a: string, b: string, k: nat) {
    k < |a| && k < |b| && a[..k] == b[..k] && a[k] != b[k]
  }

  lemma SamePrefix(a: string, b: string, k: nat)
    requires FirstDiffers(a, b, k)
    ensures k > 0 ==> a[0] == b[0]
  {
    if k > 0 { assert a[0] == a[..k][0] && b[0] == b[..k][0]; }
  }

  /** The first character that differs decides; if none does, the shorter string comes first. */
  lemma {:induction false} FirstDifferenceDecides(a: string, b: string)
    ensures forall k: nat :: FirstDiffers(a, b, k) ==> (AtMost(a, b) <==> a[k] < b[k])
    ensures (forall k: nat :: !FirstDiffers(a, b, k)) ==> (AtMost(a, b) <==> |a| <= |b|)
  {
    if a != [] && b != [] {
      if a[0] == b[0] {
        var c, d := a[1..], b[1..];
        FirstDifferenceDecides(c, d);
        forall k: nat | FirstDiffers(a, b, k) ensures AtMost(a, b) <==> a[k] < b[k] {
          assert k > 0;
          assert a[..k][1..] == c[..k - 1] && b[..k][1..] == d[..k - 1];
          assert FirstDiffers(c, d, k - 1);
        }
        forall k: nat | FirstDiffers(c, d, k) ensures FirstDiffers(a, b, k + 1) {
          assert a[..k + 1] == [a[0]] + c[..k] && b[..k + 1] == [b[0]] + d[..k];
        }
      } else {
        assert FirstDiffers(a, b, 0);
        forall k: nat | FirstDiffers(a, b, k) ensures k == 0 { SamePrefix(a, b, k); }
      }
    }
  }

  lemma {:induction false} Total(a: string, b: string)
    ensures AtMost(a, b) || AtMost(b, a)
    ensures AtMost(a, b) && AtMost(b, a) ==> a == b
  {
    if a != [] && b != [] {
      Total(a[1..], b[1..]);
      assert a == [a[0]] + a[1..] && b == [b[0]] + b[1..];
    }
  }

  lemma {:induction false} Transitive(a: string, b: string, c: string)
    requires AtMost(a, b) && AtMost(b, c)
    ensures AtMost(a, c)
  {
    if a != [] && b[0] == a[0] && c[0] == b[0] {
      Transitive(a[1..], b[1..], c[1..]);
    }
  }

  /** A nonempty set of strings has a least one. */
  lemma {:induction false} Least(s: set<string>) returns (least: string)
    requires s != {}
    ensures least in s && forall x :: x in s ==> AtMost(least, x)
    decreases s
  {
    least :| least in s;
    Total(least, least);
    if s != {least} {
      assert s == (s - {least}) + {least};
      var other := Least(s - {least});
      Total(least, other);
      if AtMost(least, other) {
        forall x | x in s ensures AtMost(least, x) {
          if x != least { Transitive(least, other, x); }
        }
      } else {
        least := other;
      }
    }
  }

  ghost predicate Ascending(s: seq<string>) {
    forall i, j :: 0 <= i < j < |s| ==> s[i] != s[j] && AtMost(s[i], s[j])
  }

  /** Sorted, with duplicates removed. */
  function SortedUnique(s: seq<string>): (r: seq<string>)
    ensures Ascending(r)
    ensures forall x :: x in r <==> x in s
  {
    if s == [] then []
    else
      assert forall x :: x in s <==> x == s[0] || x in s[1..];
      InsertUnique(s[0], SortedUnique(s[1..]))
  }

  function InsertUnique(x: string, s: seq<string>): (r: seq<string>)
    requires Ascending(s)
    ensures Ascending(r)
    ensures forall y :: y in r <==> y == x || y in s
  {
    if s == [] then [x]
    else if x == s[0] then s
    else if AtMost(x, s[0]) then
      BelowHead(x, s);
      [x] + s
    else
      var rest := InsertUnique(x, s[1..]);
      AboveHead(x, s, rest);
      assert forall y :: y in s <==> y == s[0] || y in s[1..];
      [s[0]] + rest
  }

  lemma BelowHead(x: string, s: seq<string>)
    requires Ascending(s) && s != [] && x != s[0] && AtMost(x, s[0])
    ensures Ascending([x] + s)
  {
    forall j | 0 <= j < |s| ensures x != s[j] && AtMost(x, s[j]) {
      if j > 0 {
        Transitive(x, s[0], s[j]);
        if x == s[j] { Total(s[0], s[j]); }
      }
    }
  }

  lemma AboveHead(x: string, s: seq<string>, rest: seq<string>)
    requires Ascending(s) && s != [] && x != s[0] && !AtMost(x, s[0])
    requires Ascending(rest) && forall y :: y in rest <==> y == x || y in s[1..]
    ensures Ascending([s[0]] + rest)
  {
    Total(x, s[0]);
    forall j | 0 <= j < |rest| ensures rest[j] != s[0] && AtMost(s[0], rest[j]) {
      assert rest[j] in rest;
      if rest[j] != x {
        var k :| 0 <= k < |s[1..]| && s[1..][k] == rest[j];
        assert s[k + 1] == rest[j];
      }
    }
  }
}

/** The stable sort by a key. */
module Sorting {

  ghost predicate SortedBy<T>(s: seq<T>, key: T -> int) {
    forall i, j :: 0 <= i < j < |s| ==> key(s[i]) <= key(s[j])
  }

  function SortBy<T>(s: seq<T>, key: T -> int): seq<T> {
    if s == [] then [] else Insert(s[0], SortBy(s[1..], key), key)
  }

  /** Before every element whose key is not smaller, so that equal keys keep their order. */
  function Insert<T>(x: T, s: seq<T>, key: T -> int): seq<T> {
    if s == [] || key(x) <= key(s[0]) then [x] + s else [s[0]] + Insert(x, s[1..], key)
  }

  lemma {:induction false} InsertMembers<T>(x: T, s: seq<T>, key: T -> int)
    ensures multiset(Insert(x, s, key)) == multiset{x} + multiset(s)
  {
    if s == [] || key(x) <= key(s[0]) {
      assert Insert(x, s, key) == [x] + s;
    } else {
      InsertMembers(x, s[1..], key);
      assert s == [s[0]] + s[1..];
    }
  }

  lemma {:induction false} InsertMember<T>(x: T, s: seq<T>, key: T -> int, y: T)
    requires y in Insert(x, s, key)
    ensures y == x || exists m :: 0 <= m < |s| && s[m] == y
  {
    if !(s == [] || key(x) <= key(s[0])) && y != s[0] {
      InsertMember(x, s[1..], key, y);
      if m :| 0 <= m < |s[1..]| && s[1..][m] == y { assert s[m + 1] == y; }
    }
  }

  lemma {:induction false} InsertSorts<T>(x: T, s: seq<T>, key: T -> int)
    requires SortedBy(s, key)
    ensures SortedBy(Insert(x, s, key), key)
  {
    if !(s == [] || key(x) <= key(s[0])) {
      InsertSorts(x, s[1..], key);
      var rest := Insert(x, s[1..], key);
      forall j | 0 <= j < |rest| ensures key(s[0]) <= key(rest[j]) {
        InsertMember(x, s[1..], key, rest[j]);
        if m :| 0 <= m < |s[1..]| && s[1..][m] == rest[j] { assert s[m + 1] == rest[j]; }
      }
    }
  }

  lemma {:induction false} SortMembers<T>(s: seq<T>, key: T -> int)
    ensures multiset(SortBy(s, key)) == multiset(s)
    ensures |SortBy(s, key)| == |s| && forall x :: x in SortBy(s, key) <==> x in s
  {
    if s != [] {
      SortMembers(s[1..], key);
      InsertMembers(s[0], SortBy(s[1..], key), key);
      assert s == [s[0]] + s[1..];
      var r := SortBy(s, key);
      assert multiset(r) == multiset(s);
      assert |multiset(r)| == |r| && |multiset(s)| == |s|;
      assert forall x :: (x in r <==> x in multiset(r)) && (x in s <==> x in multiset(s));
    }
  }

  lemma {:induction false} SortSorts<T>(s: seq<T>, key: T -> int)
    ensures SortedBy(SortBy(s, key), key)
  {
    if s != [] {
      SortSorts(s[1..], key);
      InsertSorts(s[0], SortBy(s[1..], key), key);
    }
  }

  // ---- When two lists sort alike ----

  /** The elements with one key, in order. */
  function WithKey<T>(s: seq<T>, key: T -> int, k: int): seq<T> {
    if s == [] then []
    else if key(s[0]) == k then [s[0]] + WithKey(s[1..], key, k)
    else WithKey(s[1..], key, k)
  }

  /** For every key, the same elements in the same order. */
  ghost predicate SameRuns<T>(s: seq<T>, t: seq<T>, key: T -> int) {
    forall k :: WithKey(s, key, k) == WithKey(t, key, k)
  }

  lemma {:induction false} InsertWithKey<T>(x: T, s: seq<T>, key: T -> int, k: int)
    ensures WithKey(Insert(x, s, key), key, k) == (if key(x) == k then [x] else []) + WithKey(s, key, k)
  {
    if s == [] || key(x) <= key(s[0]) {
      assert ([x] + s)[1..] == s;
    } else {
      InsertWithKey(x, s[1..], key, k);
      var rest := Insert(x, s[1..], key);
      assert ([s[0]] + rest)[1..] == rest;
    }
  }

  lemma {:induction false} SortIsStable<T>(s: seq<T>, key: T -> int, k: int)
    ensures WithKey(SortBy(s, key), key, k) == WithKey(s, key, k)
  {
    if s != [] {
      SortIsStable(s[1..], key, k);
      InsertWithKey(s[0], SortBy(s[1..], key), key, k);
    }
  }

  lemma {:induction false} WithKeyMembers<T>(s: seq<T>, key: T -> int, k: int)
    ensures forall x :: x in WithKey(s, key, k) <==> x in s && key(x) == k
  {
    if s != [] {
      WithKeyMembers(s[1..], key, k);
      assert forall x :: x in s <==> x == s[0] || x in s[1..];
    }
  }

  lemma HeadsAgree<T>(s: seq<T>, t: seq<T>, key: T -> int)
    requires SortedBy(s, key) && SortedBy(t, key) && SameRuns(s, t, key)
    requires s != []
    ensures t != [] && s[0] == t[0]
  {
    var k := key(s[0]);
    WithKeyMembers(s, key, k);
    WithKeyMembers(t, key, k);
    assert s[0] in WithKey(t, key, k);
    var l := key(t[0]);
    WithKeyMembers(s, key, l);
    WithKeyMembers(t, key, l);
    assert t[0] in WithKey(s, key, l);
    assert k == l;
    assert WithKey(s, key, k)[0] == s[0] && WithKey(t, key, k)[0] == t[0];
  }

  lemma {:induction false} SortedAlike<T>(s: seq<T>, t: seq<T>, key: T -> int)
    requires SortedBy(s, key) && SortedBy(t, key) && SameRuns(s, t, key)
    ensures s == t
  {
    if s == [] && t == [] {
    } else if s != [] {
      HeadsAgree(s, t, key);
      forall k ensures WithKey(s[1..], key, k) == WithKey(t[1..], key, k) {
        assert WithKey(s, key, k) == WithKey(t, key, k);
        if key(s[0]) == k {
          assert WithKey(s[1..], key, k) == WithKey(s, key, k)[1..];
          assert WithKey(t[1..], key, k) == WithKey(t, key, k)[1..];
        }
      }
      SortedAlike(s[1..], t[1..], key);
    } else {
      HeadsAgree(t, s, key);
    }
  }

  /** Two lists sort to the same list exactly when, for every key, they list the elements with that key
      in the same order. */
  lemma SortsAlike<T>(s: seq<T>, t: seq<T>, key: T -> int)
    ensures SortBy(s, key) == SortBy(t, key) <==> SameRuns(s, t, key)
  {
    forall k
      ensures WithKey(SortBy(s, key), key, k) == WithKey(s, key, k)
      ensures WithKey(SortBy(t, key), key, k) == WithKey(t, key, k)
    {
      SortIsStable(s, key, k);
      SortIsStable(t, key, k);
    }
    if SortBy(s, key) == SortBy(t, key) {
      assert SameRuns(s, t, key);
    }
    if SameRuns(s, t, key) {
      SortSorts(s, key);
      SortSorts(t, key);
      SortedAlike(SortBy(s, key), SortBy(t, key), key);
    }
  }
}
