/** Total orders, insertion sort as the specification of `slices.Sort`, and the lexicographic
    order Go uses on strings. */
module Ordering {

  ghost predicate TotalPreorder<T(!new)>(le: (T, T) -> bool) {
    && (forall x, y :: le(x, y) || le(y, x))
    && (forall x, y, z :: le(x, y) && le(y, z) ==> le(x, z))
  }

  ghost predicate TotalOrder<T(!new)>(le: (T, T) -> bool) {
    && TotalPreorder(le)
    && (forall x, y :: le(x, y) && le(y, x) ==> x == y)
  }

  ghost predicate SortedBy<T(!new)>(s: seq<T>, le: (T, T) -> bool) {
    forall i, j | 0 <= i < j < |s| :: le(s[i], s[j])
  }

  function Insert<T>(x: T, s: seq<T>, le: (T, T) -> bool): seq<T> {
    if s == [] then [x]
    else if le(x, s[0]) then [x] + s
    else [s[0]] + Insert(x, s[1..], le)
  }

  function Sort<T>(s: seq<T>, le: (T, T) -> bool): seq<T> {
    if s == [] then [] else Insert(s[0], Sort(s[1..], le), le)
  }

  lemma {:induction false} InsertSpec<T(!new)>(x: T, s: seq<T>, le: (T, T) -> bool)
    requires TotalPreorder(le) && SortedBy(s, le)
    ensures SortedBy(Insert(x, s, le), le)
    ensures multiset(Insert(x, s, le)) == multiset(s) + multiset{x}
  {
    if s == [] {
    } else if le(x, s[0]) {
      assert forall j | 0 <= j < |s| :: le(s[0], s[j]);
    } else {
      var r := Insert(x, s[1..], le);
      InsertSpec(x, s[1..], le);
      assert s == [s[0]] + s[1..];
      forall j | 0 <= j < |r| ensures le(s[0], r[j]) {
        assert r[j] in multiset(r);
        assert r[j] in multiset(s[1..]) || r[j] == x;
        if r[j] != x { assert r[j] in s[1..]; }
      }
    }
  }

  /** `slices.Sort` returns the sorted arrangement of the same elements. */
  lemma {:induction false} SortSpec<T(!new)>(s: seq<T>, le: (T, T) -> bool)
    requires TotalPreorder(le)
    ensures SortedBy(Sort(s, le), le)
    ensures multiset(Sort(s, le)) == multiset(s)
    ensures |Sort(s, le)| == |s|
  {
    if s != [] {
      SortSpec(s[1..], le);
      InsertSpec(s[0], Sort(s[1..], le), le);
      assert s == [s[0]] + s[1..];
      hide TotalPreorder, SortedBy, Insert, Sort;
      assert |multiset(Insert(s[0], Sort(s[1..], le), le))| == |multiset(s)|;
    }
  }

  lemma RemoveOne<T>(s: seq<T>, j: nat)
    requires j < |s|
    ensures multiset(s[..j] + s[j + 1..]) + multiset{s[j]} == multiset(s)
    ensures multiset(s[..j] + s[j + 1..]) == multiset(s) - multiset{s[j]}
  {
    assert s == s[..j] + [s[j]] + s[j + 1..];
  }

  function Map<A, B>(s: seq<A>, f: A -> B): seq<B> {
    seq(|s|, i requires 0 <= i < |s| => f(s[i]))
  }

  /** Rearranging the arguments rearranges the values. */
  lemma {:induction false} MapKeepsMultiset<A, B>(a: seq<A>, b: seq<A>, f: A -> B)
    requires multiset(a) == multiset(b)
    ensures multiset(Map(a, f)) == multiset(Map(b, f))
  {
    if a == [] {
      assert |multiset(a)| == |multiset(b)|;
    } else {
      var j := IndexIn(a[0], b, multiset(a));
      var rest := b[..j] + b[j + 1..];
      hide Map;
      RemoveBoth(a, b, j);
      MapKeepsMultiset(a[1..], rest, f);
      MapRemove(a, f, 0);
      MapRemove(b, f, j);
      assert a[..0] + a[1..] == a[1..];
    }
  }

  lemma RemoveBoth<A>(a: seq<A>, b: seq<A>, j: nat)
    requires multiset(a) == multiset(b) && a != [] && j < |b| && b[j] == a[0]
    ensures multiset(a[1..]) == multiset(b[..j] + b[j + 1..])
  {
    RemoveOne(a, 0);
    RemoveOne(b, j);
    assert a[..0] + a[1..] == a[1..];
  }

  lemma IndexIn<A>(x: A, s: seq<A>, m: multiset<A>) returns (j: nat)
    requires x in m && m == multiset(s)
    ensures j < |s| && s[j] == x
  {
    j :| 0 <= j < |s| && s[j] == x;
  }

  lemma MapRemove<A, B>(s: seq<A>, f: A -> B, j: nat)
    requires j < |s|
    ensures multiset(Map(s, f)) == multiset(Map(s[..j] + s[j + 1..], f)) + multiset{f(s[j])}
  {
    var t := Map(s, f);
    RemoveOne(t, j);
    assert t[..j] + t[j + 1..] == Map(s[..j] + s[j + 1..], f);
  }

  /** Two sorted arrangements of the same elements are the same sequence. */
  lemma {:induction false} SortedIsUnique<T(!new)>(a: seq<T>, b: seq<T>, le: (T, T) -> bool)
    requires TotalOrder(le) && SortedBy(a, le) && SortedBy(b, le)
    requires multiset(a) == multiset(b)
    ensures a == b
  {
    SameCount(a, b);
    if a != [] {
      SameFirst(a, b, le);
      TailSorted(a, le);
      TailSorted(b, le);
      hide TotalOrder, SortedBy;
      RemoveBoth(a, b, 0);
      assert b[..0] + b[1..] == b[1..];
      SortedIsUnique(a[1..], b[1..], le);
      assert a == [a[0]] + a[1..] && b == [b[0]] + b[1..];
    }
  }

  lemma SameCount<T>(a: seq<T>, b: seq<T>)
    requires multiset(a) == multiset(b)
    ensures |a| == |b|
  {
    assert |a| == |multiset(a)| == |multiset(b)| == |b|;
  }

  lemma SameFirst<T(!new)>(a: seq<T>, b: seq<T>, le: (T, T) -> bool)
    requires TotalOrder(le) && SortedBy(a, le) && SortedBy(b, le)
    requires multiset(a) == multiset(b) && a != [] && b != []
    ensures a[0] == b[0]
  {
    var i := IndexIn(a[0], b, multiset(a));
    var j := IndexIn(b[0], a, multiset(b));
    assert le(b[0], b[i]) && le(a[0], a[j]);
  }

  lemma TailSorted<T(!new)>(s: seq<T>, le: (T, T) -> bool)
    requires SortedBy(s, le) && s != []
    ensures SortedBy(s[1..], le)
  {
    assert forall i | 0 <= i < |s| - 1 :: s[1..][i] == s[i + 1];
  }

  /** Sorting forgets the order of its input, and only that. */
  lemma SortForgetsOrder<T(!new)>(a: seq<T>, b: seq<T>, le: (T, T) -> bool)
    requires TotalOrder(le)
    ensures Sort(a, le) == Sort(b, le) <==> multiset(a) == multiset(b)
  {
    SortSpec(a, le);
    SortSpec(b, le);
    if multiset(a) == multiset(b) {
      SortedIsUnique(Sort(a, le), Sort(b, le), le);
    }
  }

  lemma {:induction false} SortOfSorted<T(!new)>(s: seq<T>, le: (T, T) -> bool)
    requires SortedBy(s, le)
    ensures Sort(s, le) == s
  {
    if s != [] {
      SortOfSorted(s[1..], le);
      assert s == [s[0]] + s[1..];
      assert |s| > 1 ==> le(s[0], s[1]);
    }
  }

  /** Go's `<=` on strings. */
  predicate LexLe(a: string, b: string) {
    a == [] || (b != [] && (a[0] < b[0] || (a[0] == b[0] && LexLe(a[1..], b[1..]))))
  }

  /** The first `k` characters of two texts are the same. */
  predicate Agree(a: string, b: string, k: nat) {
    k <= |a| && k <= |b| && forall i | 0 <= i < k :: a[i] == b[i]
  }

  lemma {:induction false} LexBeyond(a: string, b: string, k: nat)
    requires Agree(a, b, k)
    ensures LexLe(a, b) == LexLe(a[k..], b[k..])
  {
    if k > 0 {
      assert a[1..][k - 1..] == a[k..] && b[1..][k - 1..] == b[k..];
      LexBeyond(a[1..], b[1..], k - 1);
    } else {
      assert a[0..] == a && b[0..] == b;
    }
  }

  lemma Common(a: string, b: string) returns (k: nat)
    ensures Agree(a, b, k) && (k == |a| || k == |b| || a[k] != b[k])
  {
    k := 0;
    while k < |a| && k < |b| && a[k] == b[k]
      invariant Agree(a, b, k)
    {
      k := k + 1;
    }
  }

  /** A text comes after those that begin it; otherwise the first character in which two texts differ decides. */
  lemma LexLeIff(a: string, b: string)
    ensures LexLe(a, b) <==>
              Agree(a, b, |a|) || exists k: nat :: Agree(a, b, k) && k < |a| && k < |b| && a[k] < b[k]
  {
    var k := Common(a, b);
    LexBeyond(a, b, k);
    if k < |a| && k < |b| {
      assert a[k..][0] == a[k] && b[k..][0] == b[k];
      forall j: nat | Agree(a, b, j) ensures j <= k {}
    }
  }

  lemma {:induction false} LexTotal(a: string, b: string)
    ensures LexLe(a, b) || LexLe(b, a)
  {
    if a != [] && b != [] && a[0] == b[0] { LexTotal(a[1..], b[1..]); }
  }

  lemma {:induction false} LexAntisymmetric(a: string, b: string)
    requires LexLe(a, b) && LexLe(b, a)
    ensures a == b
  {
    if a != [] {
      LexAntisymmetric(a[1..], b[1..]);
      assert a == [a[0]] + a[1..] && b == [b[0]] + b[1..];
    }
  }

  lemma {:induction false} LexTransitive(a: string, b: string, c: string)
    requires LexLe(a, b) && LexLe(b, c)
    ensures LexLe(a, c)
  {
    if a != [] && a[0] == b[0] && b[0] == c[0] { LexTransitive(a[1..], b[1..], c[1..]); }
  }

  lemma LexIsTotalOrder()
    ensures TotalOrder(LexLe)
  {
    forall a, b ensures LexLe(a, b) || LexLe(b, a) { LexTotal(a, b); }
    forall a, b | LexLe(a, b) && LexLe(b, a) ensures a == b { LexAntisymmetric(a, b); }
    forall a, b, c | LexLe(a, b) && LexLe(b, c) ensures LexLe(a, c) { LexTransitive(a, b, c); }
  }

  // ---------- lists of strings without repetition ----------

  /** Keeps the first of each run of equal strings. */
  function Compact(s: seq<string>): seq<string> {
    if |s| < 2 then s
    else if s[0] == s[1] then Compact(s[1..])
    else [s[0]] + Compact(s[1..])
  }

  ghost predicate Ascending(s: seq<string>) {
    forall i, j | 0 <= i < j < |s| :: LexLe(s[i], s[j]) && s[i] != s[j]
  }

  lemma {:induction false} CompactKeeps(s: seq<string>, p: string)
    ensures p in Compact(s) <==> p in s
    ensures s != [] ==> Compact(s) != [] && Compact(s)[0] == s[0]
  {
    if |s| >= 2 {
      CompactKeeps(s[1..], p);
      assert s == [s[0]] + s[1..];
    }
  }

  lemma {:induction false} CompactAscends(s: seq<string>)
    requires SortedBy(s, LexLe)
    ensures Ascending(Compact(s))
  {
    if |s| >= 2 {
      CompactAscends(s[1..]);
      if s[0] != s[1] {
        var rest := Compact(s[1..]);
        forall j | 0 <= j < |rest| ensures LexLe(s[0], rest[j]) && s[0] != rest[j] {
          CompactKeeps(s[1..], rest[j]);
          var k :| 0 <= k < |s[1..]| && s[1..][k] == rest[j];
          assert s[k + 1] == rest[j];
          if s[0] == rest[j] {
            assert LexLe(s[1], s[k + 1]) || k == 0;
            LexAntisymmetric(s[0], s[1]);
          }
        }
      }
    }
  }

  lemma InSorted(s: seq<string>, p: string)
    ensures p in Sort(s, LexLe) <==> p in s
  {
    LexIsTotalOrder();
    SortSpec(s, LexLe);
    assert p in multiset(s) <==> p in s;
    assert p in multiset(Sort(s, LexLe)) <==> p in Sort(s, LexLe);
  }

  lemma InCompacted(s: seq<string>, p: string)
    ensures p in Compact(Sort(s, LexLe)) <==> p in s
  {
    CompactKeeps(Sort(s, LexLe), p);
    InSorted(s, p);
  }

  lemma CompactedAscends(s: seq<string>)
    ensures Ascending(Compact(Sort(s, LexLe)))
  {
    LexIsTotalOrder();
    SortSpec(s, LexLe);
    CompactAscends(Sort(s, LexLe));
  }

  /** An ascending list is determined by what is in it. */
  lemma {:induction false} AscendingUnique(a: seq<string>, b: seq<string>)
    requires Ascending(a) && Ascending(b) && forall x :: x in a <==> x in b
    ensures a == b
  {
    assert b != [] ==> b[0] in b;
    if a == [] {
    } else {
      assert a[0] in a;
      var j :| 0 <= j < |b| && b[j] == a[0];
      assert b[0] in b;
      var i :| 0 <= i < |a| && a[i] == b[0];
      if j > 0 && i > 0 {
        LexAntisymmetric(a[0], b[0]);
      }
      assert a[0] == b[0];
      forall x ensures x in a[1..] <==> x in b[1..] {
        InTail(a, x);
        InTail(b, x);
      }
      AscendingUnique(a[1..], b[1..]);
      assert a == [a[0]] + a[1..] && b == [b[0]] + b[1..];
    }
  }

  lemma InTail(s: seq<string>, x: string)
    requires Ascending(s) && s != []
    ensures x in s[1..] <==> x in s && x != s[0]
  {
    if x in s && x != s[0] {
      var k :| 0 <= k < |s| && s[k] == x;
      assert s[1..][k - 1] == x;
    }
  }

  /** Sorting and compacting forgets the order and the repetitions, and nothing else. */
  lemma CompactedForgets(a: seq<string>, b: seq<string>)
    ensures Compact(Sort(a, LexLe)) == Compact(Sort(b, LexLe)) <==> forall x :: x in a <==> x in b
  {
    var p, q := Compact(Sort(a, LexLe)), Compact(Sort(b, LexLe));
    CompactedAscends(a);
    CompactedAscends(b);
    forall x ensures (x in p <==> x in a) && (x in q <==> x in b) {
      InCompacted(a, x);
      InCompacted(b, x);
    }
    if forall x :: x in a <==> x in b {
      AscendingUnique(p, q);
    } else {
      var x :| (x in a) != (x in b);
      assert (x in p) != (x in q);
    }
  }
}
