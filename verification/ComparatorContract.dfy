/** The contract of a comparator, on the elements of one list: under it there is
    only one stably sorted list, whatever comparisons a sort makes and acts on. */
module ComparatorContract {
  import opened Sequences
  import opened TimeSort

  function Sign(c: Option<int>): int
  {
    if c.None? || c.value == 0 then 0 else if c.value < 0 then -1 else 1
  }

  /** What `Comparator` asks of `compare`, on any different positions of `s`: it
      ends, swapping the arguments reverses the sign, greater-than is transitive,
      and equal elements compare alike with every other one. */
  ghost predicate MeetsContract<T>(s: seq<T>, compare: (T, T) -> Option<int>)
  {
    && (forall i, j :: 0 <= i < |s| && 0 <= j < |s| && i != j ==>
          compare(s[i], s[j]).Some? && Sign(compare(s[i], s[j])) == -Sign(compare(s[j], s[i])))
    && (forall i, j, k :: 0 <= i < |s| && 0 <= j < |s| && 0 <= k < |s| && i != j && j != k && i != k ==>
          Sign(compare(s[i], s[j])) == 1 && Sign(compare(s[j], s[k])) == 1 ==> Sign(compare(s[i], s[k])) == 1)
    && (forall i, j, k :: 0 <= i < |s| && 0 <= j < |s| && 0 <= k < |s| && i != j && j != k && i != k ==>
          Sign(compare(s[i], s[j])) == 0 ==> Sign(compare(s[i], s[k])) == Sign(compare(s[j], s[k])))
  }

  function EqualTo<T(==)>(compare: (T, T) -> Option<int>, x: T): T -> bool
  {
    y => x == y || compare(x, y) == Some(0)
  }

  /** What a stable sort promises under the contract: the same elements,
      ascending, and equal elements not reordered. */
  ghost predicate StablySorted<T(!new)>(r: seq<T>, s: seq<T>, compare: (T, T) -> Option<int>)
  {
    && multiset(r) == multiset(s)
    && (forall i, j :: 0 <= i < j < |r| ==> compare(r[i], r[j]).Some? && compare(r[i], r[j]).value <= 0)
    && forall x :: x in s ==> Filter(r, EqualTo(compare, x)) == Filter(s, EqualTo(compare, x))
  }

  /** The comparator, were it asked to compare an element with itself. */
  function Patched<T(==)>(compare: (T, T) -> Option<int>): (T, T) -> Option<int>
  {
    (x, y) => if x == y then Some(0) else compare(x, y)
  }

  function Same<T>(): T -> T
  {
    x => x
  }

  lemma MapSame<T>(s: seq<T>)
    ensures Map(Same(), s) == s
  {
  }

  /** Comparators that agree on different positions sort alike. */
  lemma SortAgree<T>(s: seq<T>, c: (T, T) -> Option<int>, d: (T, T) -> Option<int>)
    requires AgreeApart(Same(), s, c, d)
    ensures Sort(s, d) == Sort(s, c)
  {
    SortMap(Same(), s, c, d);
    MapSame(s);
    MapSame(Sort(s, c).list);
  }

  lemma ContractPair<T>(s: seq<T>, compare: (T, T) -> Option<int>, x: T, y: T)
    requires MeetsContract(s, compare) && x in s && y in s && x != y
    ensures compare(x, y).Some? && compare(y, x).Some? && Sign(compare(x, y)) == -Sign(compare(y, x))
  {
    var i :| 0 <= i < |s| && s[i] == x;
    var j :| 0 <= j < |s| && s[j] == y;
  }

  lemma ContractTriple<T>(s: seq<T>, compare: (T, T) -> Option<int>, x: T, y: T, z: T)
    requires MeetsContract(s, compare) && x in s && y in s && z in s && x != y && y != z && x != z
    ensures Sign(compare(x, y)) == 1 && Sign(compare(y, z)) == 1 ==> Sign(compare(x, z)) == 1
    ensures Sign(compare(x, y)) == 0 ==> Sign(compare(x, z)) == Sign(compare(y, z))
  {
    var i :| 0 <= i < |s| && s[i] == x;
    var j :| 0 <= j < |s| && s[j] == y;
    var k :| 0 <= k < |s| && s[k] == z;
  }

  lemma PatchedTriple<T>(s: seq<T>, compare: (T, T) -> Option<int>, x: T, y: T, z: T)
    requires MeetsContract(s, compare) && x in s && y in s && z in s
    ensures var d := Patched(compare);
            && (Below(d, x, y) && Below(d, y, z) ==> Below(d, x, z))
            && (Below(d, x, z) ==> Below(d, x, y) || Below(d, y, z))
  {
    if x != y && y != z {
      ContractPair(s, compare, x, y);
      ContractPair(s, compare, y, z);
      if x != z {
        ContractPair(s, compare, x, z);
        ContractTriple(s, compare, x, y, z);
        ContractTriple(s, compare, z, y, x);
        ContractTriple(s, compare, y, x, z);
        ContractTriple(s, compare, y, z, x);
      }
    }
  }

  lemma ContractLawful<T(!new)>(s: seq<T>, compare: (T, T) -> Option<int>)
    requires MeetsContract(s, compare)
    ensures Lawful(s, Patched(compare))
    ensures Sort(s, Patched(compare)) == Sort(s, compare)
  {
    forall x, y | x in s && y in s
      ensures Patched(compare)(x, y).Some?
    {
      if x != y {
        ContractPair(s, compare, x, y);
      }
    }
    forall x, y, z | x in s && y in s && z in s
      ensures Below(Patched(compare), x, y) && Below(Patched(compare), y, z) ==> Below(Patched(compare), x, z)
      ensures Below(Patched(compare), x, z) ==> Below(Patched(compare), x, y) || Below(Patched(compare), y, z)
    {
      PatchedTriple(s, compare, x, y, z);
    }
    SortAgree(s, compare, Patched(compare));
  }

  /** Under the contract, tied means equal. */
  lemma ContractTies<T(!new)>(s: seq<T>, r: seq<T>, compare: (T, T) -> Option<int>, x: T)
    requires MeetsContract(s, compare) && x in s
    requires forall y :: y in r ==> y in s
    ensures Filter(r, TiedTo(Patched(compare), x)) == Filter(r, EqualTo(compare, x))
  {
    forall y | y in r
      ensures TiedTo(Patched(compare), x)(y) == EqualTo(compare, x)(y)
    {
      if x != y {
        ContractPair(s, compare, x, y);
      }
    }
    FilterAgree(r, TiedTo(Patched(compare), x), EqualTo(compare, x));
  }

  lemma StableAscends<T(!new)>(s: seq<T>, r: seq<T>, compare: (T, T) -> Option<int>, i: nat, j: nat)
    requires MeetsContract(s, compare) && multiset(r) == multiset(s)
    requires forall y :: y in r ==> y in s
    requires Ordered(r, Patched(compare)) && i < j < |r|
    ensures compare(r[i], r[j]).Some? && compare(r[i], r[j]).value <= 0
  {
    if r[i] == r[j] {
      var p, q := TwiceInBoth(r, s, i, j);
      assert Sign(compare(s[p], s[q])) == -Sign(compare(s[q], s[p]));
    } else {
      ContractPair(s, compare, r[i], r[j]);
      assert !Below(Patched(compare), r[j], r[i]);
    }
  }

  lemma AscendsOrdered<T(!new)>(s: seq<T>, r: seq<T>, compare: (T, T) -> Option<int>)
    requires MeetsContract(s, compare) && StablySorted(r, s, compare)
    requires forall y :: y in r ==> y in s
    ensures Ordered(r, Patched(compare))
  {
    forall i, j | 0 <= i < j < |r|
      ensures !Below(Patched(compare), r[j], r[i])
    {
      if r[i] != r[j] {
        ContractPair(s, compare, r[i], r[j]);
      }
    }
  }

  lemma ContractSorts<T(!new)>(s: seq<T>, compare: (T, T) -> Option<int>)
    requires MeetsContract(s, compare)
    ensures Sort(s, compare).finished
    ensures StablySorted(Sort(s, compare).list, s, compare)
  {
    var r := Sort(s, compare).list;
    ContractLawful(s, compare);
    SortStable(s, Patched(compare));
    LawfulPermuted(s, r, Patched(compare));
    forall i, j | 0 <= i < j < |r|
      ensures compare(r[i], r[j]).Some? && compare(r[i], r[j]).value <= 0
    {
      StableAscends(s, r, compare, i, j);
    }
    forall x | x in s
      ensures Filter(r, EqualTo(compare, x)) == Filter(s, EqualTo(compare, x))
    {
      ContractTies(s, r, compare, x);
      ContractTies(s, s, compare, x);
    }
  }

  lemma StablySortedTies<T(!new)>(s: seq<T>, r: seq<T>, compare: (T, T) -> Option<int>)
    requires MeetsContract(s, compare) && StablySorted(r, s, compare)
    requires forall y :: y in r <==> y in s
    ensures SameTies(r, s, Patched(compare)) && SameTies(s, r, Patched(compare))
  {
    forall x | x in s
      ensures Filter(r, TiedTo(Patched(compare), x)) == Filter(s, TiedTo(Patched(compare), x))
    {
      ContractTies(s, r, compare, x);
      ContractTies(s, s, compare, x);
    }
  }

  /** A comparator that meets its contract on a list has exactly one stably
      sorted list, and the insertion sort finds it: any other stable sort,
      whatever outcomes it acts on, ends with the same list. */
  lemma ContractSortExact<T(!new)>(s: seq<T>, r: seq<T>, compare: (T, T) -> Option<int>)
    requires MeetsContract(s, compare)
    ensures Sort(s, compare).finished
    ensures StablySorted(r, s, compare) <==> r == Sort(s, compare).list
  {
    ContractSorts(s, compare);
    if StablySorted(r, s, compare) {
      SameElements(s, r);
      ContractLawful(s, compare);
      SortStable(s, Patched(compare));
      AscendsOrdered(s, r, compare);
      StablySortedTies(s, r, compare);
      SortIsOnly(s, r, Patched(compare));
    }
  }

  lemma SortIsOnly<T(!new)>(s: seq<T>, r: seq<T>, compare: (T, T) -> Option<int>)
    requires Lawful(s, compare) && multiset(r) == multiset(s)
    requires Ordered(r, compare) && SameTies(s, r, compare)
    ensures r == Sort(s, compare).list
  {
    var q := Sort(s, compare).list;
    SortStable(s, compare);
    LawfulPermuted(s, q, compare);
    LawfulPermuted(s, r, compare);
    SameTiesTransitive(q, s, r, compare);
    StableUnique(q, r, compare);
  }
}
