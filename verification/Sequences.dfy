/** Facts about sequences used by every other module: maps, filters, in-order
    selections, and the "append unless an equal key is already there" loop. */
module Sequences {
  datatype Option<+T> = None | Some(value: T)

  function Last<T>(s: seq<T>): T
    requires s != []
  {
    s[|s| - 1]
  }

  function Front<T>(s: seq<T>): seq<T>
    requires s != []
  {
    s[..|s| - 1]
  }

  lemma FrontLast<T>(s: seq<T>)
    requires s != []
    ensures s == Front(s) + [Last(s)]
  {
  }

  /** The step of a loop that has handled `s[..i]`. */
  lemma FrontUpTo<T>(s: seq<T>, i: nat)
    requires i < |s|
    ensures Front(s[..i + 1]) == s[..i] && Last(s[..i + 1]) == s[i]
  {
  }

  lemma FrontSnoc<T>(s: seq<T>, x: T)
    ensures Front(s + [x]) == s && Last(s + [x]) == x
  {
  }

  lemma FrontConcat<T>(a: seq<T>, b: seq<T>)
    requires b != []
    ensures Front(a + b) == a + Front(b) && Last(a + b) == Last(b)
  {
  }

  // ----- maps and filters -----

  function Map<T, U>(f: T -> U, s: seq<T>): seq<U>
  {
    seq(|s|, i requires 0 <= i < |s| => f(s[i]))
  }

  lemma MapConcat<T, U>(f: T -> U, a: seq<T>, b: seq<T>)
    ensures Map(f, a + b) == Map(f, a) + Map(f, b)
  {
  }

  lemma MapSnoc<T, U>(f: T -> U, a: seq<T>, x: T)
    ensures Map(f, a + [x]) == Map(f, a) + [f(x)]
  {
  }

  lemma MapUpdate<T, U>(f: T -> U, s: seq<T>, k: nat, x: T)
    requires k < |s|
    ensures Map(f, s[k := x]) == Map(f, s)[k := f(x)]
  {
    var a, b := Map(f, s[k := x]), Map(f, s)[k := f(x)];
    assert forall i :: 0 <= i < |s| ==> a[i] == b[i];
  }

  lemma MapIndex<T, U>(f: T -> U, s: seq<T>, i: nat)
    requires i < |s|
    ensures Map(f, s)[i] == f(s[i])
  {
  }

  lemma MapAgree<T, U>(f: T -> U, g: T -> U, s: seq<T>)
    requires forall i :: 0 <= i < |s| ==> f(s[i]) == g(s[i])
    ensures Map(f, s) == Map(g, s)
  {
  }

  lemma SnocTake<T>(s: seq<T>, x: T, j: nat)
    requires j <= |s|
    ensures (s + [x])[..j] == s[..j]
    ensures (s + [x])[j] == if j < |s| then s[j] else x
  {
  }

  lemma TakeAll<T>(s: seq<T>)
    ensures s[..|s|] == s
  {
  }

  lemma TakeTake<T>(s: seq<T>, m: nat, n: nat)
    requires n <= m <= |s|
    ensures s[..m][..n] == s[..n]
  {
  }

  lemma SplitAt<T>(s: seq<T>, i: nat)
    requires i < |s|
    ensures s == s[..i] + [s[i]] + s[i + 1..]
  {
  }

  lemma MultisetWithout<T>(a: seq<T>, x: T, b: seq<T>)
    ensures multiset(a + b) == multiset(a + [x] + b) - multiset{x}
  {
    assert multiset(a + [x] + b) == multiset(a) + multiset{x} + multiset(b);
  }

  lemma EmptyRight<T>(s: seq<T>)
    ensures s + [] == s
  {
  }

  lemma EmptyLeft<T>(s: seq<T>)
    ensures [] + s == s
  {
  }

  lemma HeadTail<T>(s: seq<T>)
    requires s != []
    ensures s == [s[0]] + s[1..]
  {
  }

  lemma ConcatAssociative<T>(a: seq<T>, b: seq<T>, c: seq<T>)
    ensures a + b + c == a + (b + c)
  {
  }

  lemma SwapEmpty<T>(a: seq<T>, b: seq<T>, c: seq<T>)
    requires b == [] || c == []
    ensures a + b + c == a + c + b
  {
    if b == [] {
      EmptyRight(a);
      EmptyRight(a + c);
    } else {
      EmptyRight(a + b);
      EmptyRight(a);
    }
  }

  function Filter<T(!new)>(s: seq<T>, p: T -> bool): (r: seq<T>)
    ensures forall x :: x in r <==> x in s && p(x)
  {
    if s == [] then []
    else
      var r := Filter(Front(s), p);
      assert forall x :: x in s <==> x in Front(s) || x == Last(s) by {
        FrontLast(s);
      }
      if p(Last(s)) then r + [Last(s)] else r
  }

  lemma {:induction false} FilterConcat<T(!new)>(a: seq<T>, b: seq<T>, p: T -> bool)
    ensures Filter(a + b, p) == Filter(a, p) + Filter(b, p)
    decreases |b|
  {
    if b == [] {
      assert a + b == a;
    } else {
      FrontConcat(a, b);
      FilterConcat(a, Front(b), p);
    }
  }

  lemma {:induction false} FilterNothing<T(!new)>(s: seq<T>, p: T -> bool)
    requires forall x :: x in s ==> !p(x)
    ensures Filter(s, p) == []
  {
    if s != [] {
      FilterNothing(Front(s), p);
    }
  }

  lemma {:induction false} FilterEverything<T(!new)>(s: seq<T>, p: T -> bool)
    requires forall x :: x in s ==> p(x)
    ensures Filter(s, p) == s
  {
    if s != [] {
      FrontLast(s);
      FilterEverything(Front(s), p);
    }
  }

  lemma {:induction false} FilterAgree<T(!new)>(s: seq<T>, p: T -> bool, q: T -> bool)
    requires forall x :: x in s ==> p(x) == q(x)
    ensures Filter(s, p) == Filter(s, q)
  {
    if s != [] {
      FilterAgree(Front(s), p, q);
    }
  }

  lemma {:induction false} FilterHead<T(!new)>(s: seq<T>, p: T -> bool)
    requires s != []
    ensures Filter(s, p) == (if p(s[0]) then [s[0]] else []) + Filter(s[1..], p)
  {
    assert s == [s[0]] + s[1..];
    FilterConcat([s[0]], s[1..], p);
    assert Front([s[0]]) == [];
    assert Filter([s[0]], p) == if p(s[0]) then [s[0]] else [];
  }

  function Reversed<T>(s: seq<T>): (r: seq<T>)
    ensures |r| == |s|
  {
    seq(|s|, i requires 0 <= i < |s| => s[|s| - 1 - i])
  }

  lemma ReversedFront<T>(s: seq<T>)
    requires s != []
    ensures Reversed(s) == [Last(s)] + Reversed(Front(s))
  {
  }

  lemma {:induction false} ReversedBag<T>(s: seq<T>)
    ensures multiset(Reversed(s)) == multiset(s)
  {
    if s != [] {
      ReversedFront(s);
      ReversedBag(Front(s));
      FrontLast(s);
      SnocBag(Front(s), Last(s));
    }
  }

  lemma TakeDrop<T>(s: seq<T>, n: nat)
    requires n <= |s|
    ensures s == s[..n] + s[n..]
  {
  }

  /** No two different positions of `s` hold picked elements. */
  ghost predicate AtMostOne<T>(s: seq<T>, p: T -> bool)
  {
    forall i, j :: 0 <= i < j < |s| ==> !(p(s[i]) && p(s[j]))
  }

  lemma FilterOne<T(!new)>(x: T, p: T -> bool)
    ensures Filter([x], p) == if p(x) then [x] else []
  {
    assert Front([x]) == [];
  }

  lemma AtMostOneFront<T>(s: seq<T>, p: T -> bool)
    requires s != [] && AtMostOne(s, p)
    ensures AtMostOne(Front(s), p)
    ensures p(Last(s)) ==> forall x :: x in Front(s) ==> !p(x)
  {
  }

  lemma {:induction false} FilterReversed<T(!new)>(s: seq<T>, p: T -> bool)
    requires AtMostOne(s, p)
    ensures Filter(Reversed(s), p) == Filter(s, p)
  {
    if s != [] {
      var front, x := Front(s), Last(s);
      ReversedFront(s);
      AtMostOneFront(s, p);
      FilterReversed(front, p);
      FilterConcat([x], Reversed(front), p);
      FilterOne(x, p);
      if p(x) {
        FilterNothing(front, p);
      } else {
        EmptyLeft(Filter(front, p));
      }
    }
  }

  // ----- in-order selections -----

  ghost predicate Increasing(pos: seq<nat>)
  {
    forall i, j :: 0 <= i < j < |pos| ==> pos[i] < pos[j]
  }

  /** `pos` lists, in order, where each element of `xs` stands in `ys`. */
  ghost predicate SelectedAt<T>(xs: seq<T>, ys: seq<T>, pos: seq<nat>)
  {
    && |pos| == |xs|
    && Increasing(pos)
    && forall i :: 0 <= i < |xs| ==> pos[i] < |ys| && xs[i] == ys[pos[i]]
  }

  ghost predicate IsSubsequence<T>(xs: seq<T>, ys: seq<T>)
  {
    exists pos :: SelectedAt(xs, ys, pos)
  }

  lemma SubsequenceSelf<T>(s: seq<T>)
    ensures IsSubsequence(s, s)
  {
    assert SelectedAt(s, s, seq(|s|, i => i));
  }

  lemma SubsequenceTransitive<T>(xs: seq<T>, ys: seq<T>, zs: seq<T>)
    requires IsSubsequence(xs, ys) && IsSubsequence(ys, zs)
    ensures IsSubsequence(xs, zs)
  {
    var p :| SelectedAt(xs, ys, p);
    var q :| SelectedAt(ys, zs, q);
    assert SelectedAt(xs, zs, seq(|p|, i requires 0 <= i < |p| => q[p[i]]));
  }

  lemma SubsequenceConcat<T>(a: seq<T>, b: seq<T>, c: seq<T>, d: seq<T>)
    requires IsSubsequence(a, c) && IsSubsequence(b, d)
    ensures IsSubsequence(a + b, c + d)
  {
    var p :| SelectedAt(a, c, p);
    var q :| SelectedAt(b, d, q);
    var r := p + seq(|q|, i requires 0 <= i < |q| => |c| + q[i]);
    forall i, j | 0 <= i < j < |r|
      ensures r[i] < r[j]
    {
      if i < |p| <= j {
        assert p[i] < |c|;
      }
    }
    assert SelectedAt(a + b, c + d, r);
  }

  lemma SubsequenceEmpty<T>(s: seq<T>)
    ensures IsSubsequence([], s)
  {
    assert SelectedAt([], s, []);
  }

  lemma {:induction false} FilterSubsequence<T(!new)>(s: seq<T>, p: T -> bool)
    ensures IsSubsequence(Filter(s, p), s)
  {
    if s == [] {
      SubsequenceEmpty(s);
    } else {
      FilterSubsequence(Front(s), p);
      FrontLast(s);
      if p(Last(s)) {
        SubsequenceSelf([Last(s)]);
        SubsequenceConcat(Filter(Front(s), p), [Last(s)], Front(s), [Last(s)]);
      } else {
        SubsequenceEmpty([Last(s)]);
        SubsequenceConcat(Filter(Front(s), p), [], Front(s), [Last(s)]);
        assert Filter(Front(s), p) + [] == Filter(s, p);
      }
    }
  }

  lemma SelectedSnoc<T>(xs: seq<T>, s: seq<T>, pos: seq<nat>, x: T)
    requires SelectedAt(xs, s, pos)
    ensures SelectedAt(xs, s + [x], pos)
    ensures SelectedAt(xs + [x], s + [x], pos + [|s|])
  {
  }

  /** `pos` lists exactly the positions of the picked elements. */
  ghost predicate PicksAt<T>(s: seq<T>, p: T -> bool, pos: seq<nat>)
  {
    forall i: nat :: i in pos <==> i < |s| && p(s[i])
  }

  lemma PicksSnoc<T>(s: seq<T>, p: T -> bool, pos: seq<nat>, x: T)
    requires PicksAt(s, p, pos)
    ensures PicksAt(s + [x], p, if p(x) then pos + [|s|] else pos)
  {
  }

  /** Filtering selects, in order, exactly the positions of picked elements. */
  lemma {:induction false} FilterExact<T(!new)>(s: seq<T>, p: T -> bool) returns (pos: seq<nat>)
    ensures SelectedAt(Filter(s, p), s, pos) && PicksAt(s, p, pos)
  {
    if s == [] {
      pos := [];
    } else {
      var before, x := Front(s), Last(s);
      var sofar := FilterExact(before, p);
      FrontLast(s);
      SelectedSnoc(Filter(before, p), before, sofar, x);
      PicksSnoc(before, p, sofar, x);
      pos := if p(x) then sofar + [|before|] else sofar;
    }
  }

  // ----- keyed membership and keyed append -----

  /** Some element of `s` has key `k`. */
  predicate HasKey<T, K(==)>(s: seq<T>, key: T -> K, k: K)
  {
    exists i :: 0 <= i < |s| && key(s[i]) == k
  }

  lemma HasKeyConcat<T, K>(a: seq<T>, b: seq<T>, key: T -> K, k: K)
    ensures HasKey(a + b, key, k) <==> HasKey(a, key, k) || HasKey(b, key, k)
  {
    if HasKey(a, key, k) {
      var i :| 0 <= i < |a| && key(a[i]) == k;
      assert (a + b)[i] == a[i];
    }
    if HasKey(b, key, k) {
      var i :| 0 <= i < |b| && key(b[i]) == k;
      assert (a + b)[|a| + i] == b[i];
    }
  }

  lemma HasKeyIn<T, K>(s: seq<T>, key: T -> K, x: T)
    requires x in s
    ensures HasKey(s, key, key(x))
  {
    var i :| 0 <= i < |s| && s[i] == x;
  }

  /** The loop `for x in xs: if no equal key in base: base.add(x)`. */
  function AddNew<T, K(==)>(base: seq<T>, xs: seq<T>, key: T -> K): seq<T>
    decreases |xs|
  {
    if xs == [] then base
    else
      var r := AddNew(base, Front(xs), key);
      if HasKey(r, key, key(Last(xs))) then r else r + [Last(xs)]
  }

  /** First occurrences, by key, in order. */
  function Dedup<T, K(==)>(s: seq<T>, key: T -> K): seq<T>
  {
    AddNew([], s, key)
  }

  lemma {:induction false} AddNewConcat<T, K>(base: seq<T>, a: seq<T>, b: seq<T>, key: T -> K)
    ensures AddNew(base, a + b, key) == AddNew(AddNew(base, a, key), b, key)
    decreases |b|
  {
    if b == [] {
      assert a + b == a;
    } else {
      FrontConcat(a, b);
      AddNewConcat(base, a, Front(b), key);
    }
  }

  lemma {:induction false} AddNewKeys<T, K>(base: seq<T>, xs: seq<T>, key: T -> K, k: K)
    ensures HasKey(AddNew(base, xs, key), key, k) <==> HasKey(base, key, k) || HasKey(xs, key, k)
    decreases |xs|
  {
    if xs == [] {
    } else {
      AddNewKeys(base, Front(xs), key, k);
      FrontLast(xs);
      HasKeyConcat(Front(xs), [Last(xs)], key, k);
      HasKeyConcat(AddNew(base, Front(xs), key), [Last(xs)], key, k);
      assert HasKey([Last(xs)], key, k) <==> key([Last(xs)][0]) == k;
    }
  }

  /** Position `p` of `s` is the first one with its key. */
  ghost predicate FirstWithKey<T, K>(s: seq<T>, key: T -> K, p: nat)
    requires p < |s|
  {
    forall q :: 0 <= q < p ==> key(s[q]) != key(s[p])
  }

  /** `pos` lists exactly the positions of `s` that are first with their key. */
  ghost predicate FirstPositions<T, K>(s: seq<T>, key: T -> K, pos: seq<nat>)
  {
    && (forall p :: p in pos ==> p < |s|)
    && forall p: nat | p < |s| :: p in pos <==> FirstWithKey(s, key, p)
  }

  /** The keyed append computes exactly the first occurrences, in order. */
  lemma {:induction false} DedupExact<T, K>(s: seq<T>, key: T -> K) returns (pos: seq<nat>)
    ensures SelectedAt(Dedup(s, key), s, pos)
    ensures FirstPositions(s, key, pos)
  {
    if s == [] {
      pos := [];
    } else {
      var before := Front(s);
      pos := DedupExact(before, key);
      var n := |before|;
      assert forall p: nat :: p < n ==> (FirstWithKey(before, key, p) <==> FirstWithKey(s, key, p));
      AddNewKeys([], before, key, key(Last(s)));
      assert HasKey(Dedup(before, key), key, key(Last(s))) <==> !FirstWithKey(s, key, n);
      if FirstWithKey(s, key, n) {
        pos := pos + [n];
      }
    }
  }

  /** No two elements kept by `Dedup` have the same key, and no key is lost. */
  lemma DedupKeys<T, K>(s: seq<T>, key: T -> K)
    ensures forall i, j :: 0 <= i < j < |Dedup(s, key)| ==> key(Dedup(s, key)[i]) != key(Dedup(s, key)[j])
    ensures forall k :: HasKey(Dedup(s, key), key, k) <==> HasKey(s, key, k)
  {
    var d := Dedup(s, key);
    var pos := DedupExact(s, key);
    forall i, j | 0 <= i < j < |d|
      ensures key(d[i]) != key(d[j])
    {
      assert pos[j] in pos && FirstWithKey(s, key, pos[j]);
    }
    forall k
      ensures HasKey(d, key, k) <==> HasKey(s, key, k)
    {
      AddNewKeys([], s, key, k);
    }
  }

  lemma {:induction false} AddNewDistinct<T, K>(base: seq<T>, xs: seq<T>, key: T -> K)
    requires forall i, j :: 0 <= i < j < |xs| ==> key(xs[i]) != key(xs[j])
    requires forall i :: 0 <= i < |xs| ==> !HasKey(base, key, key(xs[i]))
    ensures AddNew(base, xs, key) == base + xs
    decreases |xs|
  {
    if xs == [] {
    } else {
      AddNewDistinct(base, Front(xs), key);
      HasKeyConcat(base, Front(xs), key, key(Last(xs)));
      assert base + xs == base + Front(xs) + [Last(xs)];
    }
  }

  lemma DedupIdempotent<T, K>(s: seq<T>, key: T -> K)
    ensures Dedup(Dedup(s, key), key) == Dedup(s, key)
    ensures Dedup(s, key) == [] <==> s == []
  {
    DedupKeys(s, key);
    AddNewDistinct([], Dedup(s, key), key);
    if s != [] {
      assert HasKey(s, key, key(s[0]));
    }
  }

  // ----- concatenation of a list of lists -----

  function Flatten<T>(ss: seq<seq<T>>): seq<T>
  {
    if ss == [] then [] else Flatten(Front(ss)) + Last(ss)
  }

  lemma FlattenSnoc<T>(ss: seq<seq<T>>, s: seq<T>)
    ensures Flatten(ss + [s]) == Flatten(ss) + s
  {
    FrontSnoc(ss, s);
  }

  /** Flattening puts the lists end to end: one list is itself, and the flattening
      of a concatenation is the concatenation of the flattenings. */
  lemma FlattenOne<T>(s: seq<T>)
    ensures Flatten([s]) == s && Flatten<T>([]) == []
  {
    FlattenSnoc([], s);
    EmptyLeft([s]);
    EmptyLeft(s);
  }

  lemma {:induction false} FlattenConcat<T>(a: seq<seq<T>>, b: seq<seq<T>>)
    ensures Flatten(a + b) == Flatten(a) + Flatten(b)
    decreases |b|
  {
    if b == [] {
      assert a + b == a;
    } else {
      FrontConcat(a, b);
      FlattenConcat(a, Front(b));
      ConcatAssociative(Flatten(a), Flatten(Front(b)), Last(b));
    }
  }

  lemma {:induction false} FlattenMember<T>(ss: seq<seq<T>>, x: T)
    ensures x in Flatten(ss) <==> exists i :: 0 <= i < |ss| && x in ss[i]
  {
    if ss != [] {
      FlattenMember(Front(ss), x);
      FrontLast(ss);
    }
  }

  /** Everything a list of lists holds. */
  function Bag<T>(ss: seq<seq<T>>): multiset<T>
  {
    if ss == [] then multiset{} else Bag(Front(ss)) + multiset(Last(ss))
  }

  lemma BagSnoc<T>(ss: seq<seq<T>>, s: seq<T>)
    ensures Bag(ss + [s]) == Bag(ss) + multiset(s)
  {
    FrontSnoc(ss, s);
  }

  lemma {:induction false} BagConcat<T>(a: seq<seq<T>>, b: seq<seq<T>>)
    ensures Bag(a + b) == Bag(a) + Bag(b)
    decreases |b|
  {
    if b == [] {
      EmptyRight(a);
    } else {
      FrontConcat(a, b);
      BagConcat(a, Front(b));
    }
  }

  lemma BagAt<T>(ss: seq<seq<T>>, k: nat)
    requires k < |ss|
    ensures Bag(ss) == Bag(ss[..k]) + multiset(ss[k]) + Bag(ss[k + 1..])
  {
    SplitAt(ss, k);
    BagConcat(ss[..k] + [ss[k]], ss[k + 1..]);
    BagSnoc(ss[..k], ss[k]);
  }

  lemma UpdateSides<T>(s: seq<T>, k: nat, x: T)
    requires k < |s|
    ensures s[k := x][..k] == s[..k] && s[k := x][k + 1..] == s[k + 1..]
  {
  }

  /** Adding `x` to one of the lists adds it to the bag. */
  lemma BagAdd<T>(ss: seq<seq<T>>, k: nat, x: T)
    requires k < |ss|
    ensures Bag(ss[k := ss[k] + [x]]) == Bag(ss) + multiset{x}
  {
    var more := ss[k] + [x];
    BagAt(ss, k);
    BagAt(ss[k := more], k);
    UpdateSides(ss, k, more);
  }

  /** Two rearrangements of one list agree once the same element is taken from both. */
  lemma RestPermuted<T>(s: seq<T>, t: seq<T>, i: nat)
    requires s != [] && i < |t| && t[i] == Last(s)
    requires multiset(s) == multiset(t)
    ensures multiset(Front(s)) == multiset(t[..i] + t[i + 1..])
  {
    FrontLast(s);
    EmptyRight(Front(s));
    EmptyRight(Front(s) + [Last(s)]);
    MultisetWithout(Front(s), Last(s), []);
    SplitAt(t, i);
    MultisetWithout(t[..i], t[i], t[i + 1..]);
  }

  lemma FindLast<T>(s: seq<T>, t: seq<T>) returns (i: nat)
    requires s != [] && multiset(s) == multiset(t)
    ensures i < |t| && t[i] == Last(s)
  {
    assert s[|s| - 1] in multiset(s);
    assert Last(s) in multiset(t);
    i :| 0 <= i < |t| && t[i] == Last(s);
  }

  lemma SamePermutedEmpty<T>(s: seq<T>, t: seq<T>)
    requires multiset(s) == multiset(t) && s == []
    ensures t == []
  {
    assert |multiset(t)| == |multiset(s)|;
  }

  /** Rearranging the lists changes nothing about what they hold. */
  lemma {:induction false} BagPermuted<T>(s: seq<seq<T>>, t: seq<seq<T>>)
    requires multiset(s) == multiset(t)
    ensures Bag(s) == Bag(t)
    decreases |s|
  {
    if s == [] {
      SamePermutedEmpty(s, t);
    } else {
      var i := FindLast(s, t);
      RestPermuted(s, t, i);
      BagPermuted(Front(s), t[..i] + t[i + 1..]);
      BagConcat(t[..i], t[i + 1..]);
      BagAt(t, i);
    }
  }

  lemma MapAt<T, U>(f: T -> U, s: seq<T>, i: nat)
    requires i < |s|
    ensures Map(f, s) == Map(f, s[..i]) + [f(s[i])] + Map(f, s[i + 1..])
  {
  }

  lemma MapFront<T, U>(f: T -> U, s: seq<T>)
    requires s != []
    ensures Map(f, s) == Map(f, Front(s)) + [f(Last(s))]
  {
  }

  /** Mapping a rearrangement gives a rearrangement of the mapped list. */
  lemma {:induction false} MapPermuted<T, U>(f: T -> U, s: seq<T>, t: seq<T>)
    requires multiset(s) == multiset(t)
    ensures multiset(Map(f, s)) == multiset(Map(f, t))
    decreases |s|
  {
    if s == [] {
      SamePermutedEmpty(s, t);
    } else {
      var i := FindLast(s, t);
      var a, b := t[..i], t[i + 1..];
      RestPermuted(s, t, i);
      MapPermuted(f, Front(s), a + b);
      MapConcat(f, a, b);
      MapFront(f, s);
      MapAt(f, t, i);
      SnocBag(Map(f, Front(s)), f(Last(s)));
      MiddleBag(Map(f, a), f(t[i]), Map(f, b));
    }
  }

  lemma SnocBag<T>(s: seq<T>, x: T)
    ensures multiset(s + [x]) == multiset(s) + multiset{x}
  {
  }

  lemma TakeBag<T>(s: seq<T>, i: nat)
    requires i < |s|
    ensures multiset(s[..i + 1]) == multiset(s[..i]) + multiset{s[i]}
  {
    FrontUpTo(s, i);
    FrontLast(s[..i + 1]);
    SnocBag(s[..i], s[i]);
  }

  lemma MiddleBag<T>(a: seq<T>, x: T, b: seq<T>)
    ensures multiset(a + [x] + b) == multiset(a + b) + multiset{x}
  {
  }

  lemma CountsTwice<T>(r: seq<T>, i: nat, j: nat)
    requires i < j < |r| && r[i] == r[j]
    ensures multiset(r)[r[i]] >= 2
  {
    SplitAt(r, j);
    MiddleBag(r[..j], r[j], r[j + 1..]);
    assert r[..j][i] == r[i];
  }

  lemma FindsAgain<T>(s: seq<T>, p: nat) returns (q: nat)
    requires p < |s| && multiset(s)[s[p]] >= 2
    ensures q < |s| && p != q && s[p] == s[q]
  {
    var rest := s[..p] + s[p + 1..];
    SplitAt(s, p);
    MiddleBag(s[..p], s[p], s[p + 1..]);
    assert s[p] in multiset(rest);
    var m :| 0 <= m < |rest| && rest[m] == s[p];
    q := if m < p then m else m + 1;
  }

  lemma TwiceInBoth<T>(r: seq<T>, s: seq<T>, i: nat, j: nat) returns (p: nat, q: nat)
    requires i < j < |r| && r[i] == r[j] && multiset(r) == multiset(s)
    ensures p < |s| && q < |s| && p != q && s[p] == s[q] == r[i]
  {
    CountsTwice(r, i, j);
    assert r[i] in multiset(s);
    p :| 0 <= p < |s| && s[p] == r[i];
    q := FindsAgain(s, p);
  }

  lemma SameElements<T(!new)>(s: seq<T>, r: seq<T>)
    requires multiset(s) == multiset(r)
    ensures forall y :: y in r <==> y in s
  {
    forall y
      ensures y in r <==> y in s
    {
      assert y in r <==> y in multiset(r);
      assert y in s <==> y in multiset(s);
    }
  }

  // ----- List.remove(Object) -----

  /** `List.remove(x)`: drops the first element equal to `x`, if there is one. */
  function RemoveFirst<T(==)>(s: seq<T>, x: T): seq<T>
  {
    if s == [] then []
    else if s[0] == x then s[1..]
    else [s[0]] + RemoveFirst(s[1..], x)
  }

  lemma {:induction false} RemoveFirstMultiset<T>(s: seq<T>, x: T)
    ensures x in s ==> multiset(RemoveFirst(s, x)) + multiset{x} == multiset(s)
    ensures x !in s ==> RemoveFirst(s, x) == s
  {
    if s != [] {
      assert s == [s[0]] + s[1..];
      RemoveFirstMultiset(s[1..], x);
    }
  }

  /** What is dropped is the first element equal to `x`. */
  lemma {:induction false} RemoveFirstAt<T>(s: seq<T>, x: T) returns (i: nat)
    requires x in s
    ensures i < |s| && s[i] == x && x !in s[..i] && RemoveFirst(s, x) == s[..i] + s[i + 1..]
  {
    if s[0] == x {
      i := 0;
      EmptyLeft(s[1..]);
    } else {
      HeadTail(s);
      var j := RemoveFirstAt(s[1..], x);
      i := j + 1;
      assert s[..i] == [s[0]] + s[1..][..j];
      assert s[i + 1..] == s[1..][j + 1..];
      ConcatAssociative([s[0]], s[1..][..j], s[i + 1..]);
    }
  }

  /** The list begins with these three, the others after them. */
  lemma ThreeOut<T>(s: seq<T>, a: T, b: T, c: T) returns (rest: seq<T>)
    requires a in s && b in s && c in s && a != b && b != c && a != c
    ensures multiset([a, b, c] + rest) == multiset(s)
  {
    var s1 := RemoveFirst(s, a);
    var s2 := RemoveFirst(s1, b);
    rest := RemoveFirst(s2, c);
    RemoveFirstMultiset(s, a);
    assert b in multiset(s) && b in multiset(s1);
    RemoveFirstMultiset(s1, b);
    assert c in multiset(s) && c in multiset(s1) && c in multiset(s2);
    RemoveFirstMultiset(s2, c);
  }

  lemma {:induction false} RemoveFirstSkips<T>(a: seq<T>, x: T, b: seq<T>)
    requires x !in a
    ensures RemoveFirst(a + [x] + b, x) == a + b
  {
    var s := a + [x] + b;
    if a == [] {
      assert s[0] == x && s[1..] == b;
      assert a + b == b;
    } else {
      assert s[0] == a[0] && s[0] != x;
      assert s[1..] == a[1..] + [x] + b;
      RemoveFirstSkips(a[1..], x, b);
      assert a + b == [a[0]] + (a[1..] + b);
    }
  }

  lemma {:induction false} RemoveFirstSubsequence<T>(s: seq<T>, x: T)
    ensures IsSubsequence(RemoveFirst(s, x), s)
  {
    if s == [] {
      SubsequenceSelf(s);
    } else {
      assert s == [s[0]] + s[1..];
      if s[0] == x {
        SubsequenceEmpty([s[0]]);
        SubsequenceSelf(s[1..]);
        SubsequenceConcat([], s[1..], [s[0]], s[1..]);
        assert [] + s[1..] == s[1..];
      } else {
        RemoveFirstSubsequence(s[1..], x);
        SubsequenceSelf([s[0]]);
        SubsequenceConcat([s[0]], RemoveFirst(s[1..], x), [s[0]], s[1..]);
      }
    }
  }
}
