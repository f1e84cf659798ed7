/** The order in which the encoders emit names: Go's byte-wise `<` on strings,
    the sorted enumeration of a key set that `sort.Strings` produces, and the
    loops that collect a Go map's keys (in the map's unspecified iteration
    order) into a slice and sort it. */
module Keys {

  /** Strict lexicographic order on strings; a proper prefix comes first. */
  predicate Less(a: string, b: string)
    decreases |a|
  {
    if |a| == 0 then |b| > 0
    else if |b| == 0 then false
    else a[0] < b[0] || (a[0] == b[0] && Less(a[1..], b[1..]))
  }

  predicate LessEq(a: string, b: string) {
    a == b || Less(a, b)
  }

  lemma {:induction false} LessIrreflexive(a: string)
    ensures !Less(a, a)
  {
    if |a| > 0 {
      LessIrreflexive(a[1..]);
    }
  }

  lemma {:induction false} LessTransitive(a: string, b: string, c: string)
    requires Less(a, b) && Less(b, c)
    ensures Less(a, c)
  {
    if |a| > 0 && a[0] == b[0] && b[0] == c[0] {
      LessTransitive(a[1..], b[1..], c[1..]);
    }
  }

  lemma {:induction false} LessTotal(a: string, b: string)
    ensures a == b || Less(a, b) || Less(b, a)
  {
    if |a| > 0 && |b| > 0 && a[0] == b[0] {
      LessTotal(a[1..], b[1..]);
      if a[1..] == b[1..] {
        assert a == [a[0]] + a[1..] && b == [b[0]] + b[1..];
      }
    }
  }

  lemma LessAsymmetric(a: string, b: string)
    requires Less(a, b)
    ensures !Less(b, a)
  {
    if Less(b, a) {
      LessTransitive(a, b, a);
      LessIrreflexive(a);
    }
  }

  /** Every element is strictly below every later one (so: sorted, no duplicates). */
  ghost predicate Ascending(s: seq<string>) {
    forall i, j {:trigger Less(s[i], s[j])} :: 0 <= i < j < |s| ==> Less(s[i], s[j])
  }

  /** What `sort.Strings` promises: sorted, duplicates allowed. */
  ghost predicate Nondecreasing(s: seq<string>) {
    forall i, j :: 0 <= i < j < |s| ==> LessEq(s[i], s[j])
  }

  /** The least element of a non-empty key set. */
  ghost function Min(s: set<string>): (m: string)
    requires s != {}
    ensures m in s
    ensures forall x :: x in s ==> LessEq(m, x)
    decreases |s|
  {
    var y :| y in s;
    if s == {y} then
      assert forall x :: x in s ==> x == y;
      y
    else
      var m := Min(s - {y});
      LessTotal(y, m);
      if Less(y, m) then
        assert forall x :: x in s - {y} ==> Less(y, x) by {
          forall x | x in s - {y} ensures Less(y, x) {
            if x != m {
              LessTransitive(y, m, x);
            }
          }
        }
        y
      else
        assert LessEq(m, y);
        m
  }

  /** Putting the least element of `s` in front of an ascending enumeration
      of the rest gives an ascending enumeration of `s`. */
  lemma PrependLeast(s: set<string>, m: string, rest: seq<string>)
    requires m in s && forall x :: x in s ==> LessEq(m, x)
    requires Ascending(rest) && multiset(rest) == multiset(s - {m})
    ensures Ascending([m] + rest)
    ensures multiset([m] + rest) == multiset(s)
  {
    assert multiset(s) == multiset{m} + multiset(s - {m}) by {
      assert s == {m} + (s - {m});
    }
    forall j | 0 <= j < |rest| ensures Less(m, rest[j]) {
      assert rest[j] in multiset(rest);
    }
  }

  /** The key set of a map in the order `sort.Strings` leaves it: strictly
      ascending, each key exactly once. */
  ghost function SortedKeys(s: set<string>): (r: seq<string>)
    ensures Ascending(r)
    ensures multiset(r) == multiset(s)
    decreases |s|
  {
    if s == {} then []
    else
      var m := Min(s);
      var rest := SortedKeys(s - {m});
      PrependLeast(s, m, rest);
      [m] + rest
  }

  /** The first element of an ascending sequence is below all the others. */
  lemma AscendingHeadLeast(r: seq<string>, x: string)
    requires Ascending(r) && r != []
    requires x in multiset(r) && x != r[0]
    ensures Less(r[0], x)
  {
    var i :| 0 <= i < |r| && r[i] == x;
  }

  lemma AscendingTail(r: seq<string>)
    requires Ascending(r) && r != []
    ensures Ascending(r[1..])
  {
    forall i, j | 0 <= i < j < |r| - 1 ensures Less(r[1..][i], r[1..][j]) {
      assert Less(r[i + 1], r[j + 1]);
    }
  }

  lemma TailMultiset(r: seq<string>)
    requires r != []
    ensures multiset(r[1..]) == multiset(r) - multiset{r[0]}
  {
    assert r == [r[0]] + r[1..];
  }

  /** Two ascending enumerations of the same elements start alike. */
  lemma AscendingHeadsAgree(r1: seq<string>, r2: seq<string>)
    requires Ascending(r1) && Ascending(r2) && r1 != [] && r2 != []
    requires multiset(r1) == multiset(r2)
    ensures r1[0] == r2[0]
  {
    if r1[0] != r2[0] {
      assert r2[0] in multiset(r1) && r1[0] in multiset(r2);
      AscendingHeadLeast(r1, r2[0]);
      AscendingHeadLeast(r2, r1[0]);
      LessAsymmetric(r1[0], r2[0]);
    }
  }

  /** A key set has only one strictly ascending enumeration. */
  lemma {:induction false} AscendingUnique(r1: seq<string>, r2: seq<string>)
    requires Ascending(r1) && Ascending(r2)
    requires multiset(r1) == multiset(r2)
    ensures r1 == r2
  {
    if r1 == [] || r2 == [] {
      assert |multiset(r1)| == |r1| && |multiset(r2)| == |r2|;
    } else {
      AscendingHeadsAgree(r1, r2);
      AscendingTail(r1);
      AscendingTail(r2);
      TailMultiset(r1);
      TailMultiset(r2);
      AscendingUnique(r1[1..], r2[1..]);
      assert r1 == [r1[0]] + r1[1..] && r2 == [r2[0]] + r2[1..];
    }
  }

  /** An element of an ascending sequence does not occur before its position. */
  lemma AscendingPrefixExcludes(s: seq<string>, i: int)
    requires Ascending(s) && 0 <= i < |s|
    ensures s[i] !in s[..i]
    ensures s[..i + 1] == s[..i] + [s[i]]
  {
    if s[i] in s[..i] {
      var j :| 0 <= j < i && s[j] == s[i];
      LessIrreflexive(s[i]);
    }
  }

  /** An enumeration of a set repeats no element. */
  lemma EnumerationDistinct(a: seq<string>, s: set<string>, i: int, j: int)
    requires multiset(a) == multiset(s)
    requires 0 <= i < j < |a|
    ensures a[i] != a[j]
  {
    var x := a[j];
    assert a == a[..j] + a[j..];
    assert x in multiset(a[j..]);
    assert multiset(a)[x] == multiset(a[..j])[x] + multiset(a[j..])[x];
    assert multiset(a)[x] <= 1;
    assert multiset(a[..j])[x] == 0;
    assert a[..j][i] == a[i];
  }

  /** Sorting any enumeration of a key set (the order Go's map iteration
      happened to produce) always gives the same sequence, SortedKeys. */
  lemma SortedIsCanonical(a: seq<string>, s: set<string>)
    requires Nondecreasing(a)
    requires multiset(a) == multiset(s)
    ensures a == SortedKeys(s)
  {
    forall i, j | 0 <= i < j < |a| ensures Less(a[i], a[j]) {
      EnumerationDistinct(a, s, i, j);
    }
    AscendingUnique(a, SortedKeys(s));
  }

  lemma SortedKeysSingleton(k: string)
    ensures SortedKeys({k}) == [k]
  {
    AscendingUnique([k], SortedKeys({k}));
  }

  lemma AscendingConcat(l: seq<string>, h: seq<string>)
    requires Ascending(l) && Ascending(h)
    requires forall x, y :: x in l && y in h ==> Less(x, y)
    ensures Ascending(l + h)
  {
    forall i, j | 0 <= i < j < |l + h| ensures Less((l + h)[i], (l + h)[j]) {
      if j < |l| {
        assert Less(l[i], l[j]);
      } else if i >= |l| {
        assert Less(h[i - |l|], h[j - |l|]);
      } else {
        assert l[i] in l && h[j - |l|] in h;
      }
    }
  }

  /** When every key of `lo` is below every key of `hi`, the sorted keys of
      the union are those of `lo` followed by those of `hi`. */
  lemma SortedKeysSplit(lo: set<string>, hi: set<string>)
    requires forall a, b :: a in lo && b in hi ==> Less(a, b)
    ensures SortedKeys(lo + hi) == SortedKeys(lo) + SortedKeys(hi)
  {
    var l, h := SortedKeys(lo), SortedKeys(hi);
    forall x, y | x in l && y in h ensures Less(x, y) {
      SortedKeysMembers(lo, x);
      SortedKeysMembers(hi, y);
    }
    AscendingConcat(l, h);
    assert lo !! hi by {
      forall x | x in lo && x in hi ensures false {
        LessIrreflexive(x);
      }
    }
    assert multiset(lo + hi) == multiset(lo) + multiset(hi);
    AscendingUnique(l + h, SortedKeys(lo + hi));
  }

  /** Every key of `d1` sorts before every key of `d2`. */
  ghost predicate Below<V>(d1: map<string, V>, d2: map<string, V>) {
    forall a, b {:trigger Less(a, b)} :: a in d1 && b in d2 ==> Less(a, b)
  }

  lemma SortedKeysMembers(s: set<string>, k: string)
    ensures k in SortedKeys(s) <==> k in s
  {
    assert k in SortedKeys(s) <==> k in multiset(SortedKeys(s));
  }

  /** Below one another, the two maps have no key in common: their union
      keeps each one's entries. */
  lemma UnionKeeps<V>(d1: map<string, V>, d2: map<string, V>)
    requires Below(d1, d2)
    ensures forall k :: k in d1 ==> k in d1 + d2 && (d1 + d2)[k] == d1[k]
    ensures forall k :: k in d2 ==> k in d1 + d2 && (d1 + d2)[k] == d2[k]
  {
    forall k | k in d1 ensures k !in d2 {
      if k in d2 {
        LessIrreflexive(k);
      }
    }
  }

  /** The map with the same keys whose value at `k` is `f(k, d[k])`. */
  function MapValues<V>(d: map<string, V>, f: (string, V) -> string): map<string, string> {
    map k | k in d :: f(k, d[k])
  }

  /** MapValues of a union of separated maps is the union of the MapValues,
      and they stay separated. */
  lemma MapValuesUnion<V>(d1: map<string, V>, d2: map<string, V>, f: (string, V) -> string)
    requires Below(d1, d2)
    ensures MapValues(d1 + d2, f) == MapValues(d1, f) + MapValues(d2, f)
    ensures Below(MapValues(d1, f), MapValues(d2, f))
  {
    UnionKeeps(d1, d2);
    var m1, m2 := MapValues(d1, f), MapValues(d2, f);
    assert m1.Keys == d1.Keys && m2.Keys == d2.Keys;
  }

  /** The sorted keys of `d1 + d2`, when every key of `d1` is below every key
      of `d2`, and the facts about them the split lemmas need. */
  lemma SortedUnion<V>(d1: map<string, V>, d2: map<string, V>)
    requires Below(d1, d2)
    ensures SortedKeys((d1 + d2).Keys) == SortedKeys(d1.Keys) + SortedKeys(d2.Keys)
    ensures forall k :: k in SortedKeys(d1.Keys) ==> k in d1 && k !in d2
    ensures forall k :: k in SortedKeys(d2.Keys) ==> k in d2
  {
    assert (d1 + d2).Keys == d1.Keys + d2.Keys;
    SortedKeysSplit(d1.Keys, d2.Keys);
    forall k | k in SortedKeys(d1.Keys) ensures k in d1 && k !in d2 {
      SortedKeysMembers(d1.Keys, k);
      if k in d2 {
        LessIrreflexive(k);
      }
    }
    forall k | k in SortedKeys(d2.Keys) ensures k in d2 {
      SortedKeysMembers(d2.Keys, k);
    }
  }

  /** Splits `data` around its key `k` into the entries below and above it. */
  lemma SplitAround<V>(data: map<string, V>, k: string) returns (lo: map<string, V>, hi: map<string, V>)
    requires k in data
    ensures data == lo + map[k := data[k]] + hi
    ensures data - {k} == lo + hi
    ensures Below(lo + map[k := data[k]], hi)
    ensures Below(lo, map[k := data[k]])
    ensures Below(lo, hi)
  {
    lo := map x | x in data && Less(x, k) :: data[x];
    hi := map x | x in data && Less(k, x) :: data[x];
    forall x | x in data ensures x == k || Less(x, k) || Less(k, x) {
      LessTotal(x, k);
    }
    LessIrreflexive(k);
    assert data - {k} == lo + hi;
    forall a, b | a in lo + map[k := data[k]] && b in hi ensures Less(a, b) {
      if a != k {
        LessTransitive(a, k, b);
      }
    }
  }

  /** The first `n` elements are in order. */
  ghost predicate SortedPrefix(s: seq<string>, n: int) {
    forall p, q :: 0 <= p < q < n && q < |s| ==> LessEq(s[p], s[q])
  }

  /** Exchanges two elements of the slice. */
  method Swap(a: array<string>, i: int, j: int)
    requires 0 <= i < a.Length && 0 <= j < a.Length
    modifies a
    ensures a[..] == old(a[..])[i := old(a[j])][j := old(a[i])]
    ensures multiset(a[..]) == old(multiset(a[..]))
  {
    a[i], a[j] := a[j], a[i];
  }

  /** One pass of insertion sort: moves `a[i]` down into the sorted prefix
      `a[..i]`. */
  method InsertNext(a: array<string>, i: int)
    requires 0 <= i < a.Length && SortedPrefix(a[..], i)
    modifies a
    ensures SortedPrefix(a[..], i + 1)
    ensures multiset(a[..]) == old(multiset(a[..]))
  {
    var j := i;
    while j > 0 && Less(a[j], a[j - 1])
      invariant 0 <= j <= i
      invariant forall p, q :: 0 <= p < q <= i && q != j ==> LessEq(a[p], a[q])
      invariant forall q :: j < q <= i ==> Less(a[j], a[q])
      invariant multiset(a[..]) == old(multiset(a[..]))
    {
      Swap(a, j - 1, j);
      j := j - 1;
    }
    if j > 0 {
      LessTotal(a[j - 1], a[j]);
      forall p | 0 <= p < j ensures LessEq(a[p], a[j]) {
        if p < j - 1 && Less(a[p], a[j - 1]) && Less(a[j - 1], a[j]) {
          LessTransitive(a[p], a[j - 1], a[j]);
        }
      }
    }
  }

  /** `sort.Strings`: sorts the slice in place. Modelled as insertion sort;
      only its contract (sorted, a permutation) matters to the encoders. */
  method SortStrings(a: array<string>)
    modifies a
    ensures Nondecreasing(a[..])
    ensures multiset(a[..]) == old(multiset(a[..]))
  {
    for i := 0 to a.Length
      invariant SortedPrefix(a[..], i)
      invariant multiset(a[..]) == old(multiset(a[..]))
    {
      InsertNext(a, i);
    }
  }

  /** Taking one element out of a finite set. */
  lemma TakeOne(rest: set<string>, key: string)
    requires key in rest
    ensures multiset(rest) == multiset(rest - {key}) + multiset{key}
    ensures |rest - {key}| == |rest| - 1
  {
    assert rest == (rest - {key}) + {key};
  }

  /** The loop that copies a Go map's keys into a fresh slice, in whatever
      order the map's iteration yields them. */
  method CollectKeys<V>(m: map<string, V>) returns (a: array<string>)
    ensures fresh(a)
    ensures multiset(a[..]) == multiset(m.Keys)
  {
    a := new string[|m|];
    var counter := 0;
    var rest := m.Keys;
    ghost var seen: seq<string> := [];
    while rest != {}
      invariant counter == |seen| && counter + |rest| == a.Length
      invariant a[..counter] == seen
      invariant multiset(seen) + multiset(rest) == multiset(m.Keys)
      decreases |rest|
    {
      var key :| key in rest;
      TakeOne(rest, key);
      a[counter] := key;
      seen := seen + [key];
      counter := counter + 1;
      rest := rest - {key};
    }
    assert a[..counter] == a[..];
  }

  /** Collect-then-sort, as each encoder does before it writes anything: the
      result is independent of the map's iteration order. */
  method OrderedKeys<V>(m: map<string, V>) returns (keys: seq<string>)
    ensures keys == SortedKeys(m.Keys)
  {
    var a := CollectKeys(m);
    SortStrings(a);
    keys := a[..];
    SortedIsCanonical(keys, m.Keys);
  }
}
