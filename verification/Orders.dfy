/** Values shared by every component: results, optional values, the byte-wise order of
    strings that Rust derives for `String`, and stable sorting by a comparison. */
module Wrappers {
  datatype Option<+T> = None | Some(value: T)

  datatype Result<+R, +E> = Success(value: R) | Failure(error: E)

  /** The outcome of a call that may also panic. */
  datatype Attempt<+R, +E> = Done(value: R) | Rejected(error: E) | Panicked
}

/** The unsigned machine integers of the source. */
module Words {
  const U32_MAX := 0xFFFF_FFFF
  const U64_MAX := 0xFFFF_FFFF_FFFF_FFFF

  type u8 = n: nat | n < 256
  type u32 = n: nat | n <= U32_MAX
  type u64 = n: nat | n <= U64_MAX
}

/** Lower-case hexadecimal identities (crates/revoot-core/src/snapshot.rs, lines 93-170). */
module Digests {
  predicate IsHexDigit(c: char) {
    '0' <= c <= '9' || 'a' <= c <= 'f'
  }

  predicate IsLowerHex(s: string) {
    forall c :: c in s ==> IsHexDigit(c)
  }

  predicate IsDigest(s: string) {
    |s| == 64 && IsLowerHex(s)
  }

  predicate IsGitSha(s: string) {
    (|s| == 40 || |s| == 64) && IsLowerHex(s)
  }

  /** A SHA-256 value as the source keeps it: 64 lower-case hexadecimal characters. */
  type Digest = s: string | IsDigest(s) witness seq(64, _ => '0')

  type GitSha = s: string | IsGitSha(s) witness seq(64, _ => '0')
}

/** Stable sorting by a strict comparison, the model of `sort_by`. */
module Sorting {

  /** A strict weak order: the comparison of a key by a total order. */
  ghost predicate StrictWeak<T(!new)>(lt: (T, T) -> bool) {
    && (forall a :: !lt(a, a))
    && (forall a, b, c :: lt(a, b) && lt(b, c) ==> lt(a, c))
    && (forall a, b, c :: lt(a, c) ==> lt(a, b) || lt(b, c))
  }

  /** A strict total order. */
  ghost predicate StrictTotal<T(!new)>(lt: (T, T) -> bool) {
    && (forall a :: !lt(a, a))
    && (forall a, b, c :: lt(a, b) && lt(b, c) ==> lt(a, c))
    && (forall a, b :: a == b || lt(a, b) || lt(b, a))
  }

  lemma TotalIsWeak<T(!new)>(lt: (T, T) -> bool)
    requires StrictTotal(lt)
    ensures StrictWeak(lt)
  {
    forall a, b, c | lt(a, c) ensures lt(a, b) || lt(b, c) {
      if !lt(a, b) && a != b {
        assert lt(b, a);
      }
    }
  }

  ghost predicate Sorted<T>(lt: (T, T) -> bool, s: seq<T>) {
    forall i, j :: 0 <= i < j < |s| ==> !lt(s[j], s[i])
  }

  ghost predicate StrictlySorted<T>(lt: (T, T) -> bool, s: seq<T>) {
    forall i, j :: 0 <= i < j < |s| ==> lt(s[i], s[j])
  }

  /** Distinct elements of `s` are never tied. */
  ghost predicate Untied<T>(lt: (T, T) -> bool, s: seq<T>) {
    forall x, y :: x in s && y in s && x != y ==> lt(x, y) || lt(y, x)
  }

  ghost predicate Distinct<T>(s: seq<T>) {
    forall i, j :: 0 <= i < j < |s| ==> s[i] != s[j]
  }

  function SetOf<T>(s: seq<T>): set<T> {
    set x | x in s
  }

  /** Insert behind every element that is not greater. */
  function InsertBy<T>(lt: (T, T) -> bool, x: T, s: seq<T>): (r: seq<T>)
    ensures multiset(r) == multiset(s) + multiset{x}
  {
    if s == [] || lt(x, s[0]) then [x] + s
    else
      assert s == [s[0]] + s[1..];
      [s[0]] + InsertBy(lt, x, s[1..])
  }

  function SortBy<T>(lt: (T, T) -> bool, s: seq<T>): (r: seq<T>)
    ensures multiset(r) == multiset(s)
  {
    if s == [] then []
    else
      var n := |s| - 1;
      assert s == s[..n] + [s[n]];
      InsertBy(lt, s[n], SortBy(lt, s[..n]))
  }

  lemma SameElements<T>(a: seq<T>, b: seq<T>)
    requires multiset(a) == multiset(b)
    ensures |a| == |b|
    ensures forall x :: x in a <==> x in b
  {
    assert |multiset(a)| == |a| && |multiset(b)| == |b|;
    forall x ensures x in a <==> x in b {
      assert x in a <==> x in multiset(a);
      assert x in b <==> x in multiset(b);
    }
  }

  lemma {:induction false} InsertSorted<T(!new)>(lt: (T, T) -> bool, x: T, s: seq<T>)
    requires StrictWeak(lt) && Sorted(lt, s)
    ensures Sorted(lt, InsertBy(lt, x, s))
  {
    if s == [] || lt(x, s[0]) {
    } else {
      var t := InsertBy(lt, x, s[1..]);
      InsertSorted(lt, x, s[1..]);
      assert s == [s[0]] + s[1..];
      forall j | 0 <= j < |t| ensures !lt(t[j], s[0]) {
        assert t[j] in multiset(t);
        assert t[j] in multiset(s[1..]) || t[j] == x;
        if t[j] != x {
          assert t[j] in s[1..];
        }
      }
    }
  }

  lemma {:induction false} SortBySorted<T(!new)>(lt: (T, T) -> bool, s: seq<T>)
    requires StrictWeak(lt)
    ensures Sorted(lt, SortBy(lt, s))
  {
    if s != [] {
      var n := |s| - 1;
      SortBySorted(lt, s[..n]);
      InsertSorted(lt, s[n], SortBy(lt, s[..n]));
    }
  }

  /** The first element of a sorted, untied sequence is its least one. */
  lemma SortedFirst<T>(lt: (T, T) -> bool, s: seq<T>, x: T)
    requires Sorted(lt, s) && Untied(lt, s)
    requires x in s
    ensures x == s[0] || lt(s[0], x)
  {
    var j :| 0 <= j < |s| && s[j] == x;
    if j > 0 {
      assert !lt(s[j], s[0]);
    }
  }

  /** A sorted arrangement without ties is unique. */
  lemma {:induction false} SortedUnique<T(!new)>(lt: (T, T) -> bool, a: seq<T>, b: seq<T>)
    requires StrictWeak(lt)
    requires Sorted(lt, a) && Sorted(lt, b)
    requires multiset(a) == multiset(b)
    requires Untied(lt, a)
    ensures a == b
  {
    SameElements(a, b);
    if a != [] {
      assert Untied(lt, b);
      SortedFirst(lt, a, b[0]);
      SortedFirst(lt, b, a[0]);
      Tail(a, b);
      SortedUnique(lt, a[1..], b[1..]);
    }
  }

  lemma Tail<T>(a: seq<T>, b: seq<T>)
    requires multiset(a) == multiset(b) && a != [] && b != [] && a[0] == b[0]
    ensures multiset(a[1..]) == multiset(b[1..])
    ensures a == [a[0]] + a[1..] && b == [b[0]] + b[1..]
  {
    assert a == [a[0]] + a[1..] && b == [b[0]] + b[1..];
    assert multiset(a) == multiset{a[0]} + multiset(a[1..]);
    assert multiset(b) == multiset{b[0]} + multiset(b[1..]);
    assert multiset(a[1..]) == multiset(a) - multiset{a[0]};
    assert multiset(b[1..]) == multiset(b) - multiset{b[0]};
  }

  /** Sorting forgets the order of its input when nothing is tied. */
  lemma {:induction false} SortByPermutation<T(!new)>(lt: (T, T) -> bool, a: seq<T>, b: seq<T>)
    requires StrictWeak(lt)
    requires multiset(a) == multiset(b)
    requires Untied(lt, a)
    ensures SortBy(lt, a) == SortBy(lt, b)
  {
    SortBySorted(lt, a);
    SortBySorted(lt, b);
    SameElements(a, SortBy(lt, a));
    SortedUnique(lt, SortBy(lt, a), SortBy(lt, b));
  }

  lemma DistinctSnoc<T>(s: seq<T>, x: T)
    ensures Distinct(s + [x]) <==> Distinct(s) && x !in s
  {
    var all := s + [x];
    if Distinct(all) {
      assert forall i :: 0 <= i < |s| ==> all[i] == s[i];
      assert all[|s|] == x;
    }
  }

  lemma DistinctPermutation<T>(a: seq<T>, b: seq<T>)
    requires multiset(a) == multiset(b)
    requires Distinct(a)
    ensures Distinct(b)
  {
    if i, j :| 0 <= i < j < |b| && b[i] == b[j] {
      var x := b[i];
      MultiplicityTwo(b, i, j);
      MultiplicityOne(a, x);
    }
  }

  lemma MultiplicityTwo<T>(s: seq<T>, i: nat, j: nat)
    requires i < j < |s| && s[i] == s[j]
    ensures multiset(s)[s[i]] >= 2
  {
    assert s == s[..j] + [s[j]] + s[j + 1..];
    assert s[i] in s[..j];
    assert multiset(s) == multiset(s[..j]) + multiset{s[j]} + multiset(s[j + 1..]);
  }

  lemma {:induction false} MultiplicityOne<T>(s: seq<T>, x: T)
    requires Distinct(s)
    ensures multiset(s)[x] <= 1
  {
    if s != [] {
      MultiplicityOne(s[1..], x);
      assert s == [s[0]] + s[1..];
      if x == s[0] {
        assert x !in s[1..];
        assert x !in multiset(s[1..]);
      }
    }
  }

  /** Sorting distinct, untied elements gives a strictly increasing sequence. */
  lemma {:induction false} SortByStrict<T(!new)>(lt: (T, T) -> bool, s: seq<T>)
    requires StrictWeak(lt)
    requires Untied(lt, s) && Distinct(s)
    ensures StrictlySorted(lt, SortBy(lt, s))
  {
    SortBySorted(lt, s);
    SameElements(s, SortBy(lt, s));
    DistinctPermutation(s, SortBy(lt, s));
    var r := SortBy(lt, s);
    forall i, j | 0 <= i < j < |r| ensures lt(r[i], r[j]) {
      assert r[i] in s && r[j] in s;
    }
  }

  /** Strictly increasing sequences with the same elements are the same. */
  lemma {:induction false} StrictlySortedUnique<T(!new)>(lt: (T, T) -> bool, a: seq<T>, b: seq<T>)
    requires StrictWeak(lt) && StrictlySorted(lt, a) && StrictlySorted(lt, b)
    requires forall x :: x in a <==> x in b
    ensures a == b
  {
    if a == [] {
      if b != [] {
        BothNonempty(b, a);
      }
    } else {
      BothNonempty(a, b);
      assert a[0] in a && a[0] in b;
      assert b[0] in b && b[0] in a;
      assert a[0] == b[0];
      TailMember(lt, a);
      TailMember(lt, b);
      StrictlySortedUnique(lt, a[1..], b[1..]);
    }
  }

  lemma BothNonempty<T>(a: seq<T>, b: seq<T>)
    requires a != [] && forall x :: x in a <==> x in b
    ensures b != []
  {
    assert a[0] in a;
    assert a[0] in b;
  }

  lemma TailMember<T(!new)>(lt: (T, T) -> bool, s: seq<T>)
    requires StrictWeak(lt) && StrictlySorted(lt, s) && s != []
    ensures forall x :: x in s[1..] <==> x in s && x != s[0]
    ensures s == [s[0]] + s[1..]
  {
    assert s == [s[0]] + s[1..];
  }
}

/** Filtering and mapping sequences, and what a permutation of the input does to them. */
module Sequences {
  import opened Sorting

  function Filter<T>(p: T -> bool, s: seq<T>): seq<T> {
    if s == [] then [] else (if p(s[0]) then [s[0]] else []) + Filter(p, s[1..])
  }

  function Map<T, U>(f: T -> U, s: seq<T>): (r: seq<U>)
    ensures |r| == |s|
    ensures forall i :: 0 <= i < |s| ==> r[i] == f(s[i])
  {
    seq(|s|, i requires 0 <= i < |s| => f(s[i]))
  }

  lemma {:induction false} FilterCons<T>(p: T -> bool, x: T, rest: seq<T>)
    ensures Filter(p, [x] + rest) == (if p(x) then [x] else []) + Filter(p, rest)
  {
    assert ([x] + rest)[1..] == rest;
  }

  lemma {:induction false} FilterConcat<T>(p: T -> bool, a: seq<T>, b: seq<T>)
    ensures Filter(p, a + b) == Filter(p, a) + Filter(p, b)
    decreases |a|
  {
    if a == [] {
      assert a + b == b;
    } else {
      var x, rest := a[0], a[1..];
      FilterConcat(p, rest, b);
      assert a == [x] + rest && a + b == [x] + (rest + b);
      FilterCons(p, x, rest);
      FilterCons(p, x, rest + b);
    }
  }

  lemma {:induction false} FilterCount<T>(p: T -> bool, s: seq<T>, x: T)
    ensures multiset(Filter(p, s))[x] == if p(x) then multiset(s)[x] else 0
  {
    if s != [] {
      FilterCount(p, s[1..], x);
      assert s == [s[0]] + s[1..];
    }
  }

  lemma {:induction false} FilterMember<T>(p: T -> bool, s: seq<T>, x: T)
    ensures x in Filter(p, s) <==> x in s && p(x)
  {
    FilterCount(p, s, x);
    assert x in Filter(p, s) <==> x in multiset(Filter(p, s));
    assert x in s <==> x in multiset(s);
  }

  lemma Splice<T>(b: seq<T>, i: nat)
    requires i < |b|
    ensures b == b[..i] + [b[i]] + b[i + 1..]
    ensures multiset(b) == multiset(b[..i] + b[i + 1..]) + multiset{b[i]}
  {
    assert b == b[..i] + [b[i]] + b[i + 1..];
  }

  lemma CancelOne<T>(x: T, a: multiset<T>, b: multiset<T>)
    requires a + multiset{x} == b + multiset{x}
    ensures a == b
  {
    assert a == (a + multiset{x}) - multiset{x};
    assert b == (b + multiset{x}) - multiset{x};
  }

  /** An element of a permutation can be taken out of it. */
  lemma TakeOut<T>(a: seq<T>, b: seq<T>) returns (i: nat)
    requires multiset(a) == multiset(b) && a != []
    ensures i < |b| && b[i] == a[0]
    ensures b == b[..i] + [a[0]] + b[i + 1..]
    ensures multiset(a[1..]) == multiset(b[..i] + b[i + 1..])
  {
    SameElements(a, b);
    assert a[0] in b;
    i :| 0 <= i < |b| && b[i] == a[0];
    Splice(b, i);
    Splice(a, 0);
    assert a[..0] + a[1..] == a[1..];
    CancelOne(a[0], multiset(a[1..]), multiset(b[..i] + b[i + 1..]));
  }

  /** Filtering permutations gives permutations. */
  lemma {:induction false} FilterPermutation<T>(p: T -> bool, a: seq<T>, b: seq<T>)
    requires multiset(a) == multiset(b)
    ensures multiset(Filter(p, a)) == multiset(Filter(p, b))
    ensures |Filter(p, a)| == |Filter(p, b)|
  {
    if a == [] {
      SameElements(a, b);
    } else {
      var i := TakeOut(a, b);
      var l, r := b[..i], b[i + 1..];
      FilterPermutation(p, a[1..], l + r);
      FilterConcat(p, l, r);
      FilterConcat(p, l + [a[0]], r);
      FilterConcat(p, l, [a[0]]);
      assert Filter(p, [a[0]]) == if p(a[0]) then [a[0]] else [];
      assert Filter(p, b) == Filter(p, l) + Filter(p, [a[0]]) + Filter(p, r);
      assert Filter(p, a) == Filter(p, [a[0]]) + Filter(p, a[1..]);
    }
    SameElements(Filter(p, a), Filter(p, b));
  }

  lemma {:induction false} FilterNone<T>(p: T -> bool, s: seq<T>)
    requires forall x :: x in s ==> !p(x)
    ensures Filter(p, s) == []
  {
    if s != [] {
      FilterNone(p, s[1..]);
    }
  }

  lemma {:induction false} FilterSnoc<T>(p: T -> bool, s: seq<T>, x: T)
    ensures Filter(p, s + [x]) == Filter(p, s) + if p(x) then [x] else []
  {
    FilterConcat(p, s, [x]);
    assert [x][1..] == [];
  }

  /** Keys stay distinct when elements are left out. */
  lemma {:induction false} FilterKeepsDistinct<T, U>(key: T -> U, p: T -> bool, s: seq<T>)
    requires Distinct(Map(key, s))
    ensures Distinct(Map(key, Filter(p, s))) && |Filter(p, s)| <= |s|
  {
    if s != [] {
      var rest, keys := s[1..], Map(key, s);
      forall i, j | 0 <= i < j < |rest| ensures Map(key, rest)[i] != Map(key, rest)[j] {
        assert keys[i + 1] != keys[j + 1];
      }
      FilterKeepsDistinct(key, p, rest);
      var kept := Filter(p, rest);
      forall j | 0 <= j < |kept| ensures Map(key, kept)[j] != key(s[0]) {
        assert kept[j] in kept;
        FilterMember(p, rest, kept[j]);
        var i :| 0 <= i < |rest| && rest[i] == kept[j];
        assert keys[0] != keys[i + 1];
      }
      assert Map(key, [s[0]] + kept) == [key(s[0])] + Map(key, kept);
    }
  }

  lemma {:induction false} FilterKeepsSorted<T>(lt: (T, T) -> bool, p: T -> bool, s: seq<T>)
    requires Sorted(lt, s)
    ensures Sorted(lt, Filter(p, s))
  {
    if s != [] {
      FilterKeepsSorted(lt, p, s[1..]);
      var kept := Filter(p, s[1..]);
      forall j | 0 <= j < |kept| ensures !lt(kept[j], s[0]) {
        assert kept[j] in kept;
        FilterMember(p, s[1..], kept[j]);
        var i :| 0 <= i < |s[1..]| && s[1..][i] == kept[j];
        assert s[i + 1] == kept[j];
      }
    }
  }

  /** Leaving out before sorting is leaving out after sorting. */
  lemma {:induction false} SortFiltered<T(!new)>(lt: (T, T) -> bool, p: T -> bool, s: seq<T>)
    requires StrictWeak(lt) && Untied(lt, s)
    ensures SortBy(lt, Filter(p, s)) == Filter(p, SortBy(lt, s))
  {
    var before, after := SortBy(lt, Filter(p, s)), Filter(p, SortBy(lt, s));
    SortBySorted(lt, Filter(p, s));
    SortBySorted(lt, s);
    FilterKeepsSorted(lt, p, SortBy(lt, s));
    FilterPermutation(p, s, SortBy(lt, s));
    SameElements(before, Filter(p, s));
    forall x, y | x in before && y in before && x != y ensures lt(x, y) || lt(y, x) {
      FilterMember(p, s, x);
      FilterMember(p, s, y);
    }
    SortedUnique(lt, before, after);
  }

  lemma {:induction false} MapConcat<T, U>(f: T -> U, a: seq<T>, b: seq<T>)
    ensures Map(f, a + b) == Map(f, a) + Map(f, b)
  {
  }

  lemma MapSnoc<T, U>(f: T -> U, s: seq<T>, x: T)
    ensures Map(f, s + [x]) == Map(f, s) + [f(x)]
  {
  }

  /** Mapping permutations gives permutations. */
  lemma {:induction false} MapPermutation<T, U>(f: T -> U, a: seq<T>, b: seq<T>)
    requires multiset(a) == multiset(b)
    ensures multiset(Map(f, a)) == multiset(Map(f, b))
  {
    if a == [] {
      SameElements(a, b);
      assert Map(f, a) == [] == Map(f, b);
    } else {
      var i := TakeOut(a, b);
      MapPermutation(f, a[1..], b[..i] + b[i + 1..]);
      MapSplice(f, a[0], b[..i], b[i + 1..]);
      assert Map(f, a) == [f(a[0])] + Map(f, a[1..]);
    }
  }

  lemma {:induction false} MapSplice<T, U>(f: T -> U, x: T, l: seq<T>, r: seq<T>)
    ensures multiset(Map(f, l + [x] + r)) == multiset(Map(f, l + r)) + multiset{f(x)}
  {
    MapConcat(f, l, r);
    MapConcat(f, l + [x], r);
    MapConcat(f, l, [x]);
    assert Map(f, [x]) == [f(x)];
  }
}

/** The order of Rust strings: byte-wise, hence code point by code point. */
module Strings {
  import opened Sorting

  predicate Less(a: string, b: string) {
    b != [] && (a == [] || a[0] < b[0] || (a[0] == b[0] && Less(a[1..], b[1..])))
  }

  lemma {:induction false} LessIrreflexive(a: string)
    ensures !Less(a, a)
  {
    if a != [] {
      LessIrreflexive(a[1..]);
    }
  }

  lemma {:induction false} LessTransitive(a: string, b: string, c: string)
    requires Less(a, b) && Less(b, c)
    ensures Less(a, c)
  {
    if a != [] && a[0] == b[0] && b[0] == c[0] {
      LessTransitive(a[1..], b[1..], c[1..]);
    }
  }

  lemma {:induction false} LessTotal(a: string, b: string)
    ensures a == b || Less(a, b) || Less(b, a)
  {
    if a != [] && b != [] && a[0] == b[0] {
      LessTotal(a[1..], b[1..]);
      assert a == [a[0]] + a[1..] && b == [b[0]] + b[1..];
    }
  }

  lemma {:induction false} LessAsymmetric(a: string, b: string)
    requires Less(a, b)
    ensures !Less(b, a)
  {
    LessIrreflexive(a);
    if Less(b, a) {
      LessTransitive(a, b, a);
    }
  }

  /** The two strings first differ at `i`, and there the first one has the smaller character. */
  ghost predicate SmallerAt(a: string, b: string, i: nat) {
    i < |a| && i < |b| && a[..i] == b[..i] && a[i] < b[i]
  }

  /** The order of a dictionary: a proper prefix comes first, otherwise the first difference decides. */
  lemma {:induction false} LessIsLexicographic(a: string, b: string)
    ensures Less(a, b) <==> a < b || exists i: nat :: SmallerAt(a, b, i)
  {
    if a != [] && b != [] && a[0] == b[0] {
      LessIsLexicographic(a[1..], b[1..]);
      assert a == [a[0]] + a[1..] && b == [b[0]] + b[1..];
      if i: nat :| SmallerAt(a[1..], b[1..], i) {
        assert a[..i + 1] == [a[0]] + a[1..][..i] && b[..i + 1] == [b[0]] + b[1..][..i];
        assert SmallerAt(a, b, i + 1);
      }
      if i: nat :| SmallerAt(a, b, i) {
        assert i > 0;
        assert a[1..][..i - 1] == a[..i][1..] && b[1..][..i - 1] == b[..i][1..];
        assert SmallerAt(a[1..], b[1..], i - 1);
      }
    } else if a != [] && b != [] {
      if a[0] < b[0] {
        assert SmallerAt(a, b, 0);
      }
    }
  }

  /** String comparison is a strict total order. */
  lemma LessIsTotalOrder()
    ensures forall a: string :: !Less(a, a)
    ensures forall a: string, b: string, c: string :: Less(a, b) && Less(b, c) ==> Less(a, c)
    ensures forall a: string, b: string :: a == b || Less(a, b) || Less(b, a)
  {
    forall a: string ensures !Less(a, a) { LessIrreflexive(a); }
    forall a: string, b: string, c: string | Less(a, b) && Less(b, c) ensures Less(a, c) {
      LessTransitive(a, b, c);
    }
    forall a: string, b: string ensures a == b || Less(a, b) || Less(b, a) { LessTotal(a, b); }
  }

  lemma LessIsStrictTotal()
    ensures StrictTotal(Less) && StrictWeak(Less)
  {
    LessIsTotalOrder();
  }

  /** Comparing any string key is a strict weak order. */
  lemma KeyOrder<T(!new)>(key: T -> string, lt: (T, T) -> bool)
    requires forall a, b :: lt(a, b) <==> Less(key(a), key(b))
    ensures StrictWeak(lt)
  {
    LessIsTotalOrder();
  }
}
