/** The JavaScript array built-ins the components rely on:
    `Array.prototype.filter` and the stable `Array.prototype.sort`
    (stable since the 2019 edition of ECMA-262). */
module Arrays {
  import opened Wrappers

  /** `s.filter(p)`: the elements satisfying `p`, in their original order,
      each as many times as it occurs in `s`. */
  function Filter<T(==,!new)>(p: T -> bool, s: seq<T>): (r: seq<T>)
    ensures |r| <= |s|
    ensures forall i :: 0 <= i < |r| ==> p(r[i])
  {
    if s == [] then []
    else
      var rest := Filter(p, s[1..]);
      if p(s[0]) then [s[0]] + rest else rest
  }

  /** An element is kept exactly when it occurs in `s` and satisfies `p`. */
  lemma FilterMembers<T(!new)>(p: T -> bool, s: seq<T>)
    ensures forall x :: x in Filter(p, s) <==> x in s && p(x)
  {
    forall x
      ensures x in Filter(p, s) <==> x in s && p(x)
    {
      FilterCount(p, s, x);
    }
  }

  /** Each kept element occurs in the result exactly as often as in `s`,
      each other element not at all. */
  lemma {:induction false} FilterCount<T(!new)>(p: T -> bool, s: seq<T>, x: T)
    ensures multiset(Filter(p, s))[x] == if p(x) then multiset(s)[x] else 0
  {
    if s != [] {
      FilterCount(p, s[1..], x);
      assert s == [s[0]] + s[1..];
    }
  }

  /** `a` is `b` with some elements left out: the order of what remains is
      the order it had in `b`. */
  predicate IsSubseq<T(==)>(a: seq<T>, b: seq<T>)
    decreases |b|
  {
    a == [] || (b != [] && if a[0] == b[0] then IsSubseq(a[1..], b[1..]) else IsSubseq(a, b[1..]))
  }

  /** Filtering preserves the relative order of the kept elements. */
  lemma {:induction false} FilterIsSubseq<T(!new)>(p: T -> bool, s: seq<T>)
    ensures IsSubseq(Filter(p, s), s)
  {
    if s != [] {
      FilterIsSubseq(p, s[1..]);
      var rest := Filter(p, s[1..]);
      if !p(s[0]) {
        SubseqNotHead(rest, s);
      }
    }
  }

  /** A subsequence of the tail is a subsequence of the whole. */
  lemma {:induction false} SubseqNotHead<T>(a: seq<T>, b: seq<T>)
    requires b != [] && IsSubseq(a, b[1..])
    ensures IsSubseq(a, b)
    decreases |a| + |b|
  {
    if a != [] && a[0] == b[0] {
      // a[0] also occurs in b[1..]; skipping it there still matches a[1..].
      SubseqTail(a, b[1..]);
    }
  }

  /** Dropping the first element of a subsequence keeps a subsequence. */
  lemma {:induction false} SubseqTail<T>(a: seq<T>, b: seq<T>)
    requires a != [] && IsSubseq(a, b)
    ensures IsSubseq(a[1..], b)
    decreases |a| + |b|
  {
    if a[0] != b[0] {
      SubseqTail(a, b[1..]);
    }
    SubseqNotHead(a[1..], b);
  }

  /** Filtering distributes over concatenation. */
  lemma {:induction false} FilterConcat<T(!new)>(p: T -> bool, a: seq<T>, b: seq<T>)
    ensures Filter(p, a + b) == Filter(p, a) + Filter(p, b)
  {
    if a == [] {
      assert a + b == b;
    } else {
      assert (a + b)[1..] == a[1..] + b;
      FilterConcat(p, a[1..], b);
      assert Filter(p, a + b) == (if p(a[0]) then [a[0]] else []) + Filter(p, a[1..] + b);
    }
  }

  /** Splitting by a predicate and by its negation loses and adds nothing. */
  lemma {:induction false} FilterPartition<T(!new)>(p: T -> bool, s: seq<T>)
    ensures multiset(Filter(p, s)) + multiset(Filter(x => !p(x), s)) == multiset(s)
  {
    var np := (x: T) => !p(x);
    var a, b := Filter(p, s), Filter(np, s);
    forall x
      ensures (multiset(a) + multiset(b))[x] == multiset(s)[x]
    {
      FilterCount(p, s, x);
      FilterCount(np, s, x);
    }
    assert multiset(a) + multiset(b) == multiset(s);
  }

  /** `s` is in non-decreasing order of `key`. */
  predicate SortedBy<T>(s: seq<T>, key: T -> int)
  {
    forall i, j :: 0 <= i < j < |s| ==> key(s[i]) <= key(s[j])
  }

  /** The elements of `s` whose key is `k`, in their order in `s`. */
  function WithKey<T>(s: seq<T>, key: T -> int, k: int): seq<T>
  {
    if s == [] then [] else (if key(s[0]) == k then [s[0]] else []) + WithKey(s[1..], key, k)
  }

  /** Where a new element with key `k` goes when it is inserted into `t`
      by scanning from the right: just after the last element whose key is
      at most `k`. */
  function InsertPos<T>(t: seq<T>, k: int, key: T -> int): (r: nat)
    ensures r <= |t|
    ensures forall i :: r <= i < |t| ==> key(t[i]) > k
    ensures r > 0 ==> key(t[r - 1]) <= k
  {
    if t == [] then 0
    else if key(t[|t| - 1]) > k then InsertPos(t[..|t| - 1], k, key)
    else |t|
  }

  function Insert<T>(t: seq<T>, x: T, key: T -> int): seq<T>
  {
    var p := InsertPos(t, key(x), key);
    t[..p] + [x] + t[p..]
  }

  /** The stable sort of `s` by ascending `key`: each element in turn is
      inserted after every earlier element whose key is not larger. */
  function SortBy<T>(s: seq<T>, key: T -> int): (r: seq<T>)
    ensures |r| == |s|
  {
    if s == [] then [] else Insert(SortBy(s[..|s| - 1], key), s[|s| - 1], key)
  }

  /** Inserting adds exactly the inserted element. */
  lemma InsertPermutes<T>(t: seq<T>, x: T, key: T -> int)
    ensures multiset(Insert(t, x, key)) == multiset(t) + multiset{x}
  {
    var p := InsertPos(t, key(x), key);
    assert t == t[..p] + t[p..];
  }

  /** Sorting rearranges and neither loses nor adds an element. */
  lemma {:induction false} SortByPermutes<T>(s: seq<T>, key: T -> int)
    ensures multiset(SortBy(s, key)) == multiset(s)
  {
    if s != [] {
      var init, x := s[..|s| - 1], s[|s| - 1];
      SortByPermutes(init, key);
      InsertPermutes(SortBy(init, key), x, key);
      assert s == init + [x];
    }
  }

  /** Inserting into a sorted sequence keeps it sorted. */
  lemma InsertSorted<T>(t: seq<T>, x: T, key: T -> int)
    requires SortedBy(t, key)
    ensures SortedBy(Insert(t, x, key), key)
  {
    var p := InsertPos(t, key(x), key);
    var r := Insert(t, x, key);
    forall i, j | 0 <= i < j < |r|
      ensures key(r[i]) <= key(r[j])
    {
      if i < p && j == p {
        assert key(t[i]) <= key(t[p - 1]);
      }
      if j > p {
        assert r[j] == t[j - 1];
      }
    }
  }

  /** The sorted sequence is in non-decreasing key order. */
  lemma {:induction false} SortBySorted<T>(s: seq<T>, key: T -> int)
    ensures SortedBy(SortBy(s, key), key)
  {
    if s != [] {
      var init := s[..|s| - 1];
      SortBySorted(init, key);
      InsertSorted(SortBy(init, key), s[|s| - 1], key);
    }
  }

  /** Selecting one key distributes over concatenation. */
  lemma {:induction false} WithKeyConcat<T>(a: seq<T>, b: seq<T>, key: T -> int, k: int)
    ensures WithKey(a + b, key, k) == WithKey(a, key, k) + WithKey(b, key, k)
  {
    if a == [] {
      assert a + b == b;
    } else {
      var h := if key(a[0]) == k then [a[0]] else [];
      assert (a + b)[0] == a[0] && (a + b)[1..] == a[1..] + b;
      WithKeyConcat(a[1..], b, key, k);
      assert WithKey(a + b, key, k) == h + WithKey(a[1..] + b, key, k);
      assert WithKey(a, key, k) == h + WithKey(a[1..], key, k);
    }
  }

  /** No element of a run whose keys all exceed `k` has key `k`. */
  lemma {:induction false} NoneWithKey<T>(u: seq<T>, key: T -> int, k: int)
    requires forall i :: 0 <= i < |u| ==> key(u[i]) > k
    ensures WithKey(u, key, k) == []
  {
    if u != [] {
      NoneWithKey(u[1..], key, k);
    }
  }

  lemma WithKeySingle<T>(x: T, key: T -> int, k: int)
    ensures WithKey([x], key, k) == if key(x) == k then [x] else []
  {
  }

  lemma WithKeySplice<T>(lo: seq<T>, x: T, hi: seq<T>, key: T -> int, k: int)
    ensures WithKey(lo + [x] + hi, key, k)
         == WithKey(lo, key, k) + WithKey([x], key, k) + WithKey(hi, key, k)
  {
    WithKeyConcat(lo + [x], hi, key, k);
    WithKeyConcat(lo, [x], key, k);
  }

  /** Inserting `x` appends it to the elements of its own key and leaves
      every other key's elements as they were. */
  lemma InsertStable<T>(t: seq<T>, x: T, key: T -> int, k: int)
    ensures WithKey(Insert(t, x, key), key, k)
         == WithKey(t, key, k) + (if key(x) == k then [x] else [])
  {
    var p := InsertPos(t, key(x), key);
    InsertStableAt(t[..p], x, t[p..], key, k);
    assert t == t[..p] + t[p..];
  }

  /** `InsertStable` for the two halves around the insertion point. */
  lemma InsertStableAt<T>(lo: seq<T>, x: T, hi: seq<T>, key: T -> int, k: int)
    requires forall i :: 0 <= i < |hi| ==> key(hi[i]) > key(x)
    ensures WithKey(lo + [x] + hi, key, k)
         == WithKey(lo + hi, key, k) + (if key(x) == k then [x] else [])
  {
    WithKeySplice(lo, x, hi, key, k);
    WithKeySingle(x, key, k);
    WithKeyConcat(lo, hi, key, k);
    if key(x) == k {
      NoneWithKey(hi, key, k);
    }
  }

  /** The sort is stable: the elements of any one key keep their order. */
  lemma {:induction false} SortByStable<T>(s: seq<T>, key: T -> int, k: int)
    ensures WithKey(SortBy(s, key), key, k) == WithKey(s, key, k)
  {
    if s != [] {
      var init, x := s[..|s| - 1], s[|s| - 1];
      SortByStable(init, key, k);
      InsertStable(SortBy(init, key), x, key, k);
      WithKeyConcat(init, [x], key, k);
      WithKeySingle(x, key, k);
      assert s == init + [x];
    }
  }

  /** Sorting one more element inserts it into the sorted prefix. */
  lemma SortByStep<T>(s: seq<T>, i: nat, key: T -> int)
    requires i < |s|
    ensures SortBy(s[..i + 1], key) == Insert(SortBy(s[..i], key), s[i], key)
  {
    assert s[..i + 1][..i] == s[..i];
  }

  /** Scanning past an element with a larger key does not move the
      insertion point. */
  lemma InsertPosSkip<T>(t: seq<T>, j: nat, k: int, key: T -> int)
    requires 0 < j <= |t| && key(t[j - 1]) > k
    ensures InsertPos(t[..j], k, key) == InsertPos(t[..j - 1], k, key)
  {
    assert t[..j][..j - 1] == t[..j - 1];
  }

  /** Where the scan stops is the insertion point. */
  lemma InsertPosStop<T>(t: seq<T>, j: nat, k: int, key: T -> int)
    requires j <= |t| && (j == 0 || key(t[j - 1]) <= k)
    requires InsertPos(t, k, key) == InsertPos(t[..j], k, key)
    ensures InsertPos(t, k, key) == j
  {
  }

  /** `b` holds `t` shifted right by one from position `j` (so `b[j]` is
      free), followed by `tail`. */
  ghost predicate ShiftedFrom<T>(b: seq<T>, t: seq<T>, j: nat, tail: seq<T>)
  {
    j <= |t| < |b| && b[..j] == t[..j] && b[j + 1..|t| + 1] == t[j..] && b[|t| + 1..] == tail
  }

  /** Moving the element before the gap into the gap moves the gap left. */
  lemma ShiftStep<T>(b: seq<T>, t: seq<T>, j: nat, tail: seq<T>)
    requires ShiftedFrom(b, t, j, tail) && 0 < j
    ensures ShiftedFrom(b[j := b[j - 1]], t, j - 1, tail)
  {
    var c := b[j := b[j - 1]];
    assert c[..j - 1] == b[..j - 1];
    assert c[j..|t| + 1] == [b[j - 1]] + b[j + 1..|t| + 1];
    assert c[|t| + 1..] == b[|t| + 1..];
  }

  /** Filling the gap with `x` gives `t` with `x` inserted at `j`. */
  lemma FillGap<T>(b: seq<T>, t: seq<T>, j: nat, tail: seq<T>, x: T)
    requires ShiftedFrom(b, t, j, tail)
    ensures b[j := x][..|t| + 1] == t[..j] + [x] + t[j..]
    ensures b[j := x][|t| + 1..] == tail
  {
    var c := b[j := x];
    assert c[..|t| + 1] == c[..j] + [x] + c[j + 1..|t| + 1];
  }

  /** `a.sort((x, y) => key(x) - key(y))`, in place: insertion sort, which
      produces the one stable order. */
  method SortArrayBy<T>(a: array<T>, key: T -> int)
    modifies a
    ensures a[..] == SortBy(old(a[..]), key)
  {
    ghost var s := a[..];
    var i := 0;
    while i < a.Length
      invariant 0 <= i <= a.Length
      invariant a[..i] == SortBy(s[..i], key)
      invariant a[i..] == s[i..]
    {
      assert a[i] == s[i];
      InsertLast(a, i, key);
      SortByStep(s, i, key);
      assert a[i + 1..] == s[i + 1..];
      i := i + 1;
    }
    assert s[..a.Length] == s;
    assert a[..a.Length] == a[..];
  }

  /** Moves `a[i]` left into the sorted prefix `a[..i]`, past every element
      with a larger key. */
  method InsertLast<T>(a: array<T>, i: nat, key: T -> int)
    requires i < a.Length
    modifies a
    ensures a[..i + 1] == Insert(old(a[..i]), old(a[i]), key)
    ensures a[i + 1..] == old(a[i + 1..])
  {
    var x := a[i];
    ghost var t, tail := a[..i], a[i + 1..];
    var j := i;
    assert a[..] == a[..i] + [x] + a[i + 1..];
    while j > 0 && key(a[j - 1]) > key(x)
      invariant ShiftedFrom(a[..], t, j, tail)
      invariant InsertPos(t, key(x), key) == InsertPos(t[..j], key(x), key)
    {
      assert a[j - 1] == t[j - 1];
      InsertPosSkip(t, j, key(x), key);
      ShiftStep(a[..], t, j, tail);
      a[j] := a[j - 1];
      j := j - 1;
    }
    InsertPosStop(t, j, key(x), key);
    FillGap(a[..], t, j, tail, x);
    a[j] := x;
  }

  /** Filtering with a predicate that holds everywhere changes nothing. */
  lemma {:induction false} FilterAll<T(!new)>(p: T -> bool, s: seq<T>)
    requires forall i :: 0 <= i < |s| ==> p(s[i])
    ensures Filter(p, s) == s
  {
    if s != [] {
      FilterAll(p, s[1..]);
    }
  }

  /** `s.findIndex(p)` as an option: the first position satisfying `p`, or
      None when there is none (`find` then returns undefined). */
  function Find<T>(s: seq<T>, p: T -> bool): (r: Option<nat>)
    ensures r.Some? ==> r.value < |s| && p(s[r.value])
    ensures r.Some? ==> forall j :: 0 <= j < r.value ==> !p(s[j])
    ensures r.None? <==> forall j :: 0 <= j < |s| ==> !p(s[j])
  {
    if s == [] then None
    else if p(s[0]) then Some(0)
    else match Find(s[1..], p)
      case None => None
      case Some(i) => Some(i + 1)
  }
}
