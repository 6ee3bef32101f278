/** Generic sequence helpers shared by the graph builder and the moment
    extractor: selection by key, grouping by key in first-occurrence order
    (the behaviour of a JavaScript `Map` or object filled in a loop), and
    facts about duplicates and multisets. */
module Seqs {

  /** The elements of `xs` whose key is `k`, in their original order. */
  function Select<K(==), T>(xs: seq<T>, key: T -> K, k: K): (ys: seq<T>)
    ensures |ys| <= |xs|
    ensures forall y :: y in ys ==> y in xs && key(y) == k
    ensures forall x :: x in xs && key(x) == k ==> x in ys
    ensures multiset(ys) <= multiset(xs)
  {
    if |xs| == 0 then []
    else
      var init := Select(xs[..|xs| - 1], key, k);
      var last := xs[|xs| - 1];
      assert xs == xs[..|xs| - 1] + [last];
      if key(last) == k then init + [last] else init
  }

  lemma SelectAll<K, T>(xs: seq<T>, key: T -> K, k: K)
    requires forall x :: x in xs ==> key(x) == k
    ensures Select(xs, key, k) == xs
  {
    if |xs| > 0 {
      SelectAll(xs[..|xs| - 1], key, k);
      assert xs == xs[..|xs| - 1] + [xs[|xs| - 1]];
    }
  }

  lemma SelectNone<K, T>(xs: seq<T>, key: T -> K, k: K)
    requires forall x :: x in xs ==> key(x) != k
    ensures Select(xs, key, k) == []
  {
  }

  /** One group of a grouping: its key and its members in input order. */
  datatype Bucket<K, T> = Bucket(key: K, items: seq<T>)

  function Keys<K, T>(bs: seq<Bucket<K, T>>): (ks: seq<K>)
    ensures |ks| == |bs|
    ensures forall i :: 0 <= i < |bs| ==> ks[i] == bs[i].key
  {
    if |bs| == 0 then [] else [bs[0].key] + Keys(bs[1..])
  }

  /** The members of all groups, group after group. */
  function Flatten<K, T>(bs: seq<Bucket<K, T>>): seq<T>
  {
    if |bs| == 0 then [] else bs[0].items + Flatten(bs[1..])
  }

  /** Position of the group with key `k`, or -1. */
  function IndexOfKey<K(==), T>(bs: seq<Bucket<K, T>>, k: K): (i: int)
    ensures -1 <= i < |bs|
    ensures 0 <= i ==> bs[i].key == k
    ensures i < 0 ==> forall j :: 0 <= j < |bs| ==> bs[j].key != k
  {
    if |bs| == 0 then -1
    else if bs[|bs| - 1].key == k then |bs| - 1
    else IndexOfKey(bs[..|bs| - 1], k)
  }

  /** Adds `x` to the group keyed `k`, opening a new group at the end when there is none. */
  function Insert<K(==), T>(bs: seq<Bucket<K, T>>, k: K, x: T): seq<Bucket<K, T>>
  {
    var i := IndexOfKey(bs, k);
    if i < 0 then bs + [Bucket(k, [x])] else bs[i := Bucket(k, bs[i].items + [x])]
  }

  /** Groups `xs` by `key`; groups appear in the order their keys first occur. */
  function GroupBy<K(==), T>(xs: seq<T>, key: T -> K): seq<Bucket<K, T>>
  {
    if |xs| == 0 then []
    else Insert(GroupBy(xs[..|xs| - 1], key), key(xs[|xs| - 1]), xs[|xs| - 1])
  }

  ghost predicate Distinct<T>(s: seq<T>) {
    forall i, j :: 0 <= i < j < |s| ==> s[i] != s[j]
  }

  lemma InsertKeys<K, T>(bs: seq<Bucket<K, T>>, k: K, x: T)
    ensures IndexOfKey(bs, k) < 0 ==> Keys(Insert(bs, k, x)) == Keys(bs) + [k]
    ensures 0 <= IndexOfKey(bs, k) ==> Keys(Insert(bs, k, x)) == Keys(bs)
  {
  }

  /** The groups' keys are pairwise distinct. */
  lemma {:induction false} GroupByKeysDistinct<K, T>(xs: seq<T>, key: T -> K)
    ensures Distinct(Keys(GroupBy(xs, key)))
  {
    if |xs| > 0 {
      var x := xs[|xs| - 1];
      var bs0 := GroupBy(xs[..|xs| - 1], key);
      GroupByKeysDistinct(xs[..|xs| - 1], key);
      InsertKeys(bs0, key(x), x);
    }
  }

  /** The groups' keys are exactly the keys of the inputs. */
  lemma {:induction false} GroupByKeySet<K, T>(xs: seq<T>, key: T -> K)
    ensures forall x :: x in xs ==> key(x) in Keys(GroupBy(xs, key))
    ensures forall k :: k in Keys(GroupBy(xs, key)) ==> exists x :: x in xs && key(x) == k
  {
    if |xs| > 0 {
      var init := xs[..|xs| - 1];
      var x := xs[|xs| - 1];
      assert xs == init + [x];
      var bs0 := GroupBy(init, key);
      GroupByKeySet(init, key);
      InsertKeys(bs0, key(x), x);
      if 0 <= IndexOfKey(bs0, key(x)) {
        assert Keys(bs0)[IndexOfKey(bs0, key(x))] == key(x);
      }
    }
  }

  lemma SelectSnocMatch<K, T>(xs: seq<T>, x: T, key: T -> K, k: K)
    requires key(x) == k
    ensures Select(xs + [x], key, k) == Select(xs, key, k) + [x]
  {
    assert (xs + [x])[..|xs|] == xs;
  }

  lemma SelectSnocOther<K, T>(xs: seq<T>, x: T, key: T -> K, k: K)
    requires key(x) != k
    ensures Select(xs + [x], key, k) == Select(xs, key, k)
  {
    assert (xs + [x])[..|xs|] == xs;
  }

  /** Selection is done item by item, so it distributes over concatenation and keeps
      the items' order. */
  lemma {:induction false} SelectAppend<K, T>(a: seq<T>, b: seq<T>, key: T -> K, k: K)
    ensures Select(a + b, key, k) == Select(a, key, k) + Select(b, key, k)
    decreases |b|
  {
    if |b| == 0 {
      assert a + b == a;
    } else {
      var init, x := b[..|b| - 1], b[|b| - 1];
      assert b == init + [x];
      assert a + b == (a + init) + [x];
      SelectAppend(a, init, key, k);
      if key(x) == k {
        SelectSnocMatch(a + init, x, key, k);
        SelectSnocMatch(init, x, key, k);
      } else {
        SelectSnocOther(a + init, x, key, k);
        SelectSnocOther(init, x, key, k);
      }
    }
  }

  /** Selection keeps every copy of a matching item and no copy of any other. */
  lemma {:induction false} SelectCount<K, T>(xs: seq<T>, key: T -> K, k: K, y: T)
    ensures multiset(Select(xs, key, k))[y] == if key(y) == k then multiset(xs)[y] else 0
    decreases |xs|
  {
    if |xs| > 0 {
      var init, x := xs[..|xs| - 1], xs[|xs| - 1];
      assert xs == init + [x];
      SelectCount(init, key, k, y);
      if key(x) == k {
        SelectSnocMatch(init, x, key, k);
      } else {
        SelectSnocOther(init, x, key, k);
      }
    }
  }

  /** A key that has no group is the key of no input. */
  lemma GroupByKeyAbsent<K, T>(xs: seq<T>, key: T -> K, k: K)
    requires IndexOfKey(GroupBy(xs, key), k) < 0
    ensures forall y :: y in xs ==> key(y) != k
  {
    var bs := GroupBy(xs, key);
    GroupByKeySet(xs, key);
    forall y | y in xs ensures key(y) != k {
      assert key(y) in Keys(bs);
    }
  }

  lemma InsertItems<K, T>(bs: seq<Bucket<K, T>>, xs: seq<T>, x: T, key: T -> K)
    requires forall i :: 0 <= i < |bs| ==> bs[i].items == Select(xs, key, bs[i].key)
    requires IndexOfKey(bs, key(x)) < 0 ==> forall y :: y in xs ==> key(y) != key(x)
    requires Distinct(Keys(bs))
    ensures var bs' := Insert(bs, key(x), x);
      forall i :: 0 <= i < |bs'| ==> bs'[i].items == Select(xs + [x], key, bs'[i].key)
  {
    var k := key(x);
    var bs' := Insert(bs, k, x);
    var i := IndexOfKey(bs, k);
    forall j | 0 <= j < |bs'| ensures bs'[j].items == Select(xs + [x], key, bs'[j].key) {
      if j < |bs| && j != i {
        assert bs'[j] == bs[j];
        assert Keys(bs)[j] != k by {
          if i >= 0 {
            assert Keys(bs)[i] == k;
          }
        }
        SelectSnocOther(xs, x, key, bs[j].key);
      } else if j == i {
        SelectSnocMatch(xs, x, key, k);
      } else {
        SelectSnocMatch(xs, x, key, k);
        SelectNone(xs, key, k);
      }
    }
  }

  /** Each group holds exactly the inputs with its key, in input order. */
  lemma {:induction false} GroupByItems<K, T>(xs: seq<T>, key: T -> K)
    ensures var bs := GroupBy(xs, key);
      forall i :: 0 <= i < |bs| ==> bs[i].items == Select(xs, key, bs[i].key)
  {
    if |xs| > 0 {
      var init := xs[..|xs| - 1];
      var x := xs[|xs| - 1];
      assert xs == init + [x];
      GroupByItems(init, key);
      GroupByKeysDistinct(init, key);
      if IndexOfKey(GroupBy(init, key), key(x)) < 0 {
        GroupByKeyAbsent(init, key, key(x));
      }
      InsertItems(GroupBy(init, key), init, x, key);
    }
  }

  predicate NoEmptyGroup<K, T>(bs: seq<Bucket<K, T>>) {
    forall i :: 0 <= i < |bs| ==> 0 < |bs[i].items|
  }

  lemma {:induction false} GroupsNonEmpty<K, T>(xs: seq<T>, key: T -> K)
    ensures NoEmptyGroup(GroupBy(xs, key))
  {
    if |xs| > 0 {
      var x := xs[|xs| - 1];
      var bs0 := GroupBy(xs[..|xs| - 1], key);
      GroupsNonEmpty(xs[..|xs| - 1], key);
      assert NoEmptyGroup(bs0);
      var bs := Insert(bs0, key(x), x);
      assert GroupBy(xs, key) == bs;
      var j := IndexOfKey(bs0, key(x));
      forall i | 0 <= i < |bs| ensures 0 < |bs[i].items| {
        if i < |bs0| && i != j {
          assert bs[i] == bs0[i];
        }
      }
    }
  }

  /** Every group is non-empty and no larger than the input. */
  lemma GroupBySizes<K, T>(xs: seq<T>, key: T -> K)
    ensures var bs := GroupBy(xs, key);
      forall i :: 0 <= i < |bs| ==> 0 < |bs[i].items| <= |xs|
  {
    GroupsNonEmpty(xs, key);
    GroupByItems(xs, key);
  }

  /** The number of distinct keys among `xs`. */
  ghost function KeyCount<K, T>(xs: seq<T>, key: T -> K): nat {
    |set x | x in xs :: key(x)|
  }

  /** There are as many groups as distinct keys among the inputs. */
  lemma GroupByCount<K, T>(xs: seq<T>, key: T -> K)
    ensures |GroupBy(xs, key)| == KeyCount(xs, key)
  {
    var ks := Keys(GroupBy(xs, key));
    GroupByKeysDistinct(xs, key);
    GroupByKeySet(xs, key);
    DistinctCardinality(ks);
    assert (set k | k in ks) == (set x | x in xs :: key(x));
  }

  /** Splitting the groups splits their members. */
  lemma {:induction false} FlattenConcat<K, T>(a: seq<Bucket<K, T>>, b: seq<Bucket<K, T>>)
    ensures Flatten(a + b) == Flatten(a) + Flatten(b)
  {
    if |a| > 0 {
      assert (a + b)[1..] == a[1..] + b;
      FlattenConcat(a[1..], b);
    } else {
      assert a + b == b;
    }
  }

  lemma {:induction false} FlattenAround<K, T>(bs: seq<Bucket<K, T>>, i: nat)
    requires i < |bs|
    ensures Flatten(bs) == Flatten(bs[..i]) + bs[i].items + Flatten(bs[i + 1..])
  {
    if i > 0 {
      FlattenAround(bs[1..], i - 1);
      assert bs[..i][1..] == bs[1..][..i - 1];
      assert bs[1..][i..] == bs[i + 1..];
    }
  }

  /** Grouping only rearranges: the groups together hold exactly the inputs. */
  /** Inserting an item adds it, and only it, to the members of the groups. */
  lemma InsertFlatten<K, T>(bs: seq<Bucket<K, T>>, k: K, x: T)
    ensures multiset(Flatten(Insert(bs, k, x))) == multiset(Flatten(bs)) + multiset{x}
    ensures |Flatten(Insert(bs, k, x))| == |Flatten(bs)| + 1
  {
    var i := IndexOfKey(bs, k);
    if i < 0 {
      FlattenConcat(bs, [Bucket(k, [x])]);
    } else {
      var bs1 := bs[i := Bucket(k, bs[i].items + [x])];
      FlattenAround(bs, i);
      FlattenAround(bs1, i);
      assert bs1[..i] == bs[..i];
      assert bs1[i + 1..] == bs[i + 1..];
    }
  }

  lemma {:induction false} GroupByPermutes<K, T>(xs: seq<T>, key: T -> K)
    ensures multiset(Flatten(GroupBy(xs, key))) == multiset(xs)
    ensures |Flatten(GroupBy(xs, key))| == |xs|
  {
    if |xs| > 0 {
      var init := xs[..|xs| - 1];
      var x := xs[|xs| - 1];
      assert xs == init + [x];
      GroupByPermutes(init, key);
      InsertFlatten(GroupBy(init, key), key(x), x);
    }
  }

  /** In a duplicate-free sequence no value occurs twice. */
  lemma {:induction false} DistinctCountsAtMostOne<T>(s: seq<T>, v: T)
    requires Distinct(s)
    ensures multiset(s)[v] <= 1
  {
    if |s| > 0 {
      var init := s[..|s| - 1];
      assert s == init + [s[|s| - 1]];
      assert Distinct(init);
      DistinctCountsAtMostOne(init, v);
      if s[|s| - 1] == v {
        assert v !in init;
      }
    }
  }

  /** A sub-multiset of a duplicate-free sequence is duplicate-free. */
  lemma DistinctBySubMultiset<T>(a: seq<T>, b: seq<T>)
    requires Distinct(a)
    requires multiset(b) <= multiset(a)
    ensures Distinct(b)
  {
    forall i, j | 0 <= i < j < |b| ensures b[i] != b[j] {
      if b[i] == b[j] {
        var v := b[i];
        assert b == b[..j] + b[j..];
        assert v in b[..j];
        assert v in b[j..];
        assert multiset(b)[v] == multiset(b[..j])[v] + multiset(b[j..])[v];
        DistinctCountsAtMostOne(a, v);
        assert false;
      }
    }
  }

  /** The elements of a duplicate-free sequence are as many as its length. */
  lemma {:induction false} DistinctCardinality<T>(s: seq<T>)
    requires Distinct(s)
    ensures |set x | x in s| == |s|
  {
    if |s| > 0 {
      var init := s[..|s| - 1];
      var last := s[|s| - 1];
      assert s == init + [last];
      assert Distinct(init);
      DistinctCardinality(init);
      assert (set x | x in s) == (set x | x in init) + {last};
      assert last !in (set x | x in init);
    }
  }

  function MapSeq<T, U>(s: seq<T>, f: T -> U): (r: seq<U>)
    ensures |r| == |s|
    ensures forall i :: 0 <= i < |s| ==> r[i] == f(s[i])
  {
    if |s| == 0 then [] else MapSeq(s[..|s| - 1], f) + [f(s[|s| - 1])]
  }

  lemma MapSeqAppend<T, U>(a: seq<T>, b: seq<T>, f: T -> U)
    ensures MapSeq(a + b, f) == MapSeq(a, f) + MapSeq(b, f)
  {
  }

  /** Mapping preserves sub-multisets: a sub-multiset's images are a sub-multiset of the images. */
  lemma {:induction false} MapSubMultiset<T, U>(a: seq<T>, b: seq<T>, f: T -> U)
    requires multiset(a) <= multiset(b)
    ensures multiset(MapSeq(a, f)) <= multiset(MapSeq(b, f))
  {
    if |a| > 0 {
      var a0 := a[..|a| - 1];
      var x := a[|a| - 1];
      assert a == a0 + [x];
      assert x in multiset(b);
      var j :| 0 <= j < |b| && b[j] == x;
      var b0 := b[..j] + b[j + 1..];
      assert b == b[..j] + [x] + b[j + 1..];
      assert multiset(b0) == multiset(b) - multiset{x};
      assert multiset(a0) <= multiset(b0);
      MapSubMultiset(a0, b0, f);
      MapSeqAppend(a0, [x], f);
      MapSeqAppend(b[..j] + [x], b[j + 1..], f);
      MapSeqAppend(b[..j], [x], f);
      MapSeqAppend(b[..j], b[j + 1..], f);
    }
  }

  /** The number of times `x` occurs in `xs`. */
  function Count<T(==)>(xs: seq<T>, x: T): nat
  {
    if |xs| == 0 then 0 else (if xs[0] == x then 1 else 0) + Count(xs[1..], x)
  }

  lemma {:induction false} CountAppend<T>(a: seq<T>, b: seq<T>, x: T)
    ensures Count(a + b, x) == Count(a, x) + Count(b, x)
  {
    if |a| == 0 {
      assert a + b == b;
    } else {
      assert (a + b)[0] == a[0];
      assert (a + b)[1..] == a[1..] + b;
      CountAppend(a[1..], b, x);
    }
  }
}
