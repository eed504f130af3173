/** `Collections.sort` as the three comparators of the engine see it: it looks for
    a first run, turns it round if it descends, and inserts the other elements one
    after another by binary search. A comparator gives the sign, or `None` where
    the comparison throws. */
module TimeSort {
  import opened Sequences

  /** What a sort leaves behind: whether it ran to its end, and the list. */
  datatype Sorting<T> = Sorting(finished: bool, list: seq<T>)

  /** The binary search for the slot of `pivot` in `s[lo..hi]`. */
  function Slot<T>(s: seq<T>, lo: nat, hi: nat, pivot: T, compare: (T, T) -> Option<int>): (r: Option<nat>)
    requires lo <= hi <= |s|
    ensures r.Some? ==> lo <= r.value <= hi
    decreases hi - lo
  {
    if lo >= hi then Some(lo)
    else
      var mid := (lo + hi) / 2;
      match compare(pivot, s[mid])
      case None => None
      case Some(c) => if c < 0 then Slot(s, lo, mid, pivot, compare) else Slot(s, mid + 1, hi, pivot, compare)
  }

  /** `s` with its element `from` taken out and put back at `to`. */
  function Move<T>(s: seq<T>, from: nat, to: nat): (r: seq<T>)
    requires to <= from < |s|
    ensures |r| == |s|
  {
    s[..to] + [s[from]] + s[to..from] + s[from + 1..]
  }

  /** The insertions once `s[..start]` is done. */
  function SortFrom<T>(s: seq<T>, start: nat, compare: (T, T) -> Option<int>): Sorting<T>
    requires start <= |s|
    decreases |s| - start
  {
    if start == |s| then Sorting(true, s)
    else
      match Slot(s, 0, start, s[start], compare)
      case None => Sorting(false, s)
      case Some(k) => SortFrom(Move(s, start, k), start + 1, compare)
  }

  /** Where the run that has reached `s[..n]` ends. Each element of a run is below
      the one before it, or none is. */
  function RunEnd<T>(s: seq<T>, n: nat, down: bool, compare: (T, T) -> Option<int>): (r: Option<nat>)
    requires 0 < n <= |s|
    ensures r.Some? ==> n <= r.value <= |s|
    decreases |s| - n
  {
    if n == |s| then Some(n)
    else
      match compare(s[n], s[n - 1])
      case None => None
      case Some(c) => if (c < 0) == down then RunEnd(s, n + 1, down, compare) else Some(n)
  }

  /** The list with its first `n` elements in reverse. */
  function TurnedRound<T>(s: seq<T>, n: nat): (r: seq<T>)
    requires n <= |s|
    ensures |r| == |s|
  {
    Reversed(s[..n]) + s[n..]
  }

  /** A list whose first `sorted` elements are done. */
  datatype Begun<T> = Begun(list: seq<T>, sorted: nat)

  /** The first run of `s`, ascending. */
  function FirstRun<T>(s: seq<T>, compare: (T, T) -> Option<int>): (r: Option<Begun<T>>)
    requires |s| >= 2
    ensures r.Some? ==> 2 <= r.value.sorted <= |r.value.list| == |s|
  {
    match compare(s[1], s[0])
    case None => None
    case Some(c) =>
      match RunEnd(s, 2, c < 0, compare)
      case None => None
      case Some(n) => Some(Begun(if c < 0 then TurnedRound(s, n) else s, n))
  }

  function Sort<T>(s: seq<T>, compare: (T, T) -> Option<int>): Sorting<T>
  {
    if |s| < 2 then Sorting(true, s)
    else
      match FirstRun(s, compare)
      case None => Sorting(false, s)
      case Some(begun) => SortFrom(begun.list, begun.sorted, compare)
  }

  method FindRun<T>(s: seq<T>, compare: (T, T) -> Option<int>) returns (begun: Option<Begun<T>>)
    requires |s| >= 2
    ensures begun == FirstRun(s, compare)
  {
    var first := compare(s[1], s[0]);
    if first.None? {
      return None;
    }
    var down, n := first.value < 0, 2;
    while n < |s|
      invariant 2 <= n <= |s|
      invariant RunEnd(s, 2, down, compare) == RunEnd(s, n, down, compare)
    {
      var next := compare(s[n], s[n - 1]);
      if next.None? {
        return None;
      }
      if (next.value < 0) != down {
        break;
      }
      n := n + 1;
    }
    return Some(Begun(if down then TurnedRound(s, n) else s, n));
  }

  method FindSlot<T>(s: seq<T>, start: nat, compare: (T, T) -> Option<int>) returns (slot: Option<nat>)
    requires start < |s|
    ensures slot == Slot(s, 0, start, s[start], compare)
  {
    var left, right := 0, start;
    while left < right
      invariant 0 <= left <= right <= start
      invariant Slot(s, 0, start, s[start], compare) == Slot(s, left, right, s[start], compare)
    {
      var mid := (left + right) / 2;
      match compare(s[start], s[mid]) {
        case None => return None;
        case Some(c) =>
          if c < 0 {
            right := mid;
          } else {
            left := mid + 1;
          }
      }
    }
    return Some(left);
  }

  method SortList<T>(s: seq<T>, compare: (T, T) -> Option<int>) returns (r: Sorting<T>)
    ensures r == Sort(s, compare)
  {
    if |s| < 2 {
      return Sorting(true, s);
    }
    var begun := FindRun(s, compare);
    if begun.None? {
      return Sorting(false, s);
    }
    var list, start := begun.value.list, begun.value.sorted;
    while start < |list|
      invariant 0 <= start <= |list|
      invariant Sort(s, compare) == SortFrom(list, start, compare)
      decreases |list| - start
    {
      var slot := FindSlot(list, start, compare);
      if slot.None? {
        return Sorting(false, list);
      }
      list := Move(list, start, slot.value);
      start := start + 1;
    }
    return Sorting(true, list);
  }

  // ----- what holds for every comparator -----

  lemma MovePermutes<T>(s: seq<T>, from: nat, to: nat)
    requires to <= from < |s|
    ensures multiset(Move(s, from, to)) == multiset(s)
  {
    var a, m, p, b := s[..to], s[to..from], [s[from]], s[from + 1..];
    assert s == a + m + p + b;
    SwapBag(a, p, m, b);
  }

  lemma SwapBag<T>(a: seq<T>, m: seq<T>, p: seq<T>, b: seq<T>)
    ensures multiset(a + m + p + b) == multiset(a + p + m + b)
  {
  }

  lemma {:induction false} SortFromPermutes<T>(s: seq<T>, start: nat, compare: (T, T) -> Option<int>)
    requires start <= |s|
    ensures multiset(SortFrom(s, start, compare).list) == multiset(s)
    decreases |s| - start
  {
    if start < |s| {
      var slot := Slot(s, 0, start, s[start], compare);
      if slot.Some? {
        MovePermutes(s, start, slot.value);
        SortFromPermutes(Move(s, start, slot.value), start + 1, compare);
      }
    }
  }

  lemma TurnedRoundPermutes<T>(s: seq<T>, n: nat)
    requires n <= |s|
    ensures multiset(TurnedRound(s, n)) == multiset(s)
  {
    ReversedBag(s[..n]);
    TakeDrop(s, n);
  }

  /** Finished or thrown out of, the sort only permutes. */
  lemma SortPermutes<T>(s: seq<T>, compare: (T, T) -> Option<int>)
    ensures multiset(Sort(s, compare).list) == multiset(s)
    ensures |Sort(s, compare).list| == |s|
    ensures forall i :: 0 <= i < |Sort(s, compare).list| ==> Sort(s, compare).list[i] in s
  {
    var begun := if |s| < 2 then None else FirstRun(s, compare);
    if begun.Some? {
      TurnedRoundPermutes(s, begun.value.sorted);
      SortFromPermutes(begun.value.list, begun.value.sorted, compare);
    }
    assert forall i :: 0 <= i < |Sort(s, compare).list| ==> Sort(s, compare).list[i] in multiset(s);
    assert |multiset(Sort(s, compare).list)| == |multiset(s)|;
  }

  /** Two comparisons a sort cannot tell apart: both throw, or both end and
      agree on whether they came out negative. */
  predicate SameOutcome(a: Option<int>, b: Option<int>)
  {
    a.Some? == b.Some? && (a.Some? ==> (a.value < 0 <==> b.value < 0))
  }

  /** The comparators agree on any two different positions of `s`. */
  ghost predicate AgreeApart<T, U>(f: T -> U, s: seq<T>, c: (T, T) -> Option<int>, d: (U, U) -> Option<int>)
  {
    forall i, j :: 0 <= i < |s| && 0 <= j < |s| && i != j ==> SameOutcome(c(s[i], s[j]), d(f(s[i]), f(s[j])))
  }

  lemma {:induction false} SlotMap<T, U>(f: T -> U, s: seq<T>, lo: nat, hi: nat, pivot: T,
                                         c: (T, T) -> Option<int>, d: (U, U) -> Option<int>)
    requires lo <= hi <= |s|
    requires forall j :: 0 <= j < hi ==> SameOutcome(c(pivot, s[j]), d(f(pivot), f(s[j])))
    ensures Slot(Map(f, s), lo, hi, f(pivot), d) == Slot(s, lo, hi, pivot, c)
    decreases hi - lo
  {
    if lo < hi {
      var mid := (lo + hi) / 2;
      SlotMap(f, s, lo, mid, pivot, c, d);
      SlotMap(f, s, mid + 1, hi, pivot, c, d);
    }
  }

  lemma MoveMap<T, U>(f: T -> U, s: seq<T>, from: nat, to: nat)
    requires to <= from < |s|
    ensures Move(Map(f, s), from, to) == Map(f, Move(s, from, to))
  {
  }

  /** Where the element at `i` after a move stood before it. */
  function MovedFrom(from: nat, to: nat, i: nat): nat
    requires to <= from
  {
    if i < to then i else if i == to then from else if i <= from then i - 1 else i
  }

  lemma MoveAt<T>(s: seq<T>, from: nat, to: nat, i: nat)
    requires to <= from < |s| && i < |s|
    ensures MovedFrom(from, to, i) < |s| && Move(s, from, to)[i] == s[MovedFrom(from, to, i)]
  {
  }

  lemma MoveAgrees<T, U>(f: T -> U, s: seq<T>, from: nat, to: nat, c: (T, T) -> Option<int>, d: (U, U) -> Option<int>)
    requires to <= from < |s| && AgreeApart(f, s, c, d)
    ensures AgreeApart(f, Move(s, from, to), c, d)
  {
    var r := Move(s, from, to);
    forall i, j | 0 <= i < |r| && 0 <= j < |r| && i != j
      ensures SameOutcome(c(r[i], r[j]), d(f(r[i]), f(r[j])))
    {
      MoveAt(s, from, to, i);
      MoveAt(s, from, to, j);
    }
  }

  lemma {:induction false} SortFromMap<T, U>(f: T -> U, s: seq<T>, start: nat,
                                             c: (T, T) -> Option<int>, d: (U, U) -> Option<int>)
    requires start <= |s| && AgreeApart(f, s, c, d)
    ensures SortFrom(Map(f, s), start, d).finished == SortFrom(s, start, c).finished
    ensures SortFrom(Map(f, s), start, d).list == Map(f, SortFrom(s, start, c).list)
    decreases |s| - start
  {
    if start < |s| {
      SlotMap(f, s, 0, start, s[start], c, d);
      var slot := Slot(s, 0, start, s[start], c);
      if slot.Some? {
        MoveMap(f, s, start, slot.value);
        MoveAgrees(f, s, start, slot.value, c, d);
        SortFromMap(f, Move(s, start, slot.value), start + 1, c, d);
      }
    }
  }

  lemma {:induction false} RunEndMap<T, U>(f: T -> U, s: seq<T>, n: nat, down: bool,
                                           c: (T, T) -> Option<int>, d: (U, U) -> Option<int>)
    requires 0 < n <= |s| && AgreeApart(f, s, c, d)
    ensures RunEnd(Map(f, s), n, down, d) == RunEnd(s, n, down, c)
    decreases |s| - n
  {
    if n < |s| {
      assert SameOutcome(c(s[n], s[n - 1]), d(f(s[n]), f(s[n - 1])));
      RunEndMap(f, s, n + 1, down, c, d);
    }
  }

  lemma TurnedRoundAt<T>(s: seq<T>, n: nat, i: nat)
    requires n <= |s| && i < |s|
    ensures TurnedRound(s, n)[i] == if i < n then s[n - 1 - i] else s[i]
  {
  }

  lemma TurnedRoundMap<T, U>(f: T -> U, s: seq<T>, n: nat)
    requires n <= |s|
    ensures TurnedRound(Map(f, s), n) == Map(f, TurnedRound(s, n))
  {
    forall i | 0 <= i < |s|
      ensures TurnedRound(Map(f, s), n)[i] == Map(f, TurnedRound(s, n))[i]
    {
      TurnedRoundAt(s, n, i);
      TurnedRoundAt(Map(f, s), n, i);
    }
  }

  lemma TurnedRoundAgrees<T, U>(f: T -> U, s: seq<T>, n: nat, c: (T, T) -> Option<int>, d: (U, U) -> Option<int>)
    requires n <= |s| && AgreeApart(f, s, c, d)
    ensures AgreeApart(f, TurnedRound(s, n), c, d)
  {
    var r := TurnedRound(s, n);
    forall i, j | 0 <= i < |r| && 0 <= j < |r| && i != j
      ensures SameOutcome(c(r[i], r[j]), d(f(r[i]), f(r[j])))
    {
      TurnedRoundAt(s, n, i);
      TurnedRoundAt(s, n, j);
    }
  }

  lemma FirstRunMap<T, U>(f: T -> U, s: seq<T>, c: (T, T) -> Option<int>, d: (U, U) -> Option<int>)
    requires |s| >= 2 && AgreeApart(f, s, c, d)
    ensures var r := FirstRun(s, c);
            && (r.Some? ==> AgreeApart(f, r.value.list, c, d))
            && FirstRun(Map(f, s), d) == if r.None? then None else Some(Begun(Map(f, r.value.list), r.value.sorted))
  {
    assert SameOutcome(c(s[1], s[0]), d(f(s[1]), f(s[0])));
    if c(s[1], s[0]).Some? {
      RunEndMap(f, s, 2, c(s[1], s[0]).value < 0, c, d);
      var end := RunEnd(s, 2, c(s[1], s[0]).value < 0, c);
      if end.Some? {
        TurnedRoundMap(f, s, end.value);
        TurnedRoundAgrees(f, s, end.value, c, d);
      }
    }
  }

  /** Sorting objects by what a comparator reads from them and sorting what it
      reads are the same sort. No element is ever compared with itself. */
  lemma SortMap<T, U>(f: T -> U, s: seq<T>, c: (T, T) -> Option<int>, d: (U, U) -> Option<int>)
    requires AgreeApart(f, s, c, d)
    ensures Sort(Map(f, s), d) == Sorting(Sort(s, c).finished, Map(f, Sort(s, c).list))
  {
    if |s| >= 2 {
      FirstRunMap(f, s, c, d);
      var begun := FirstRun(s, c);
      if begun.Some? {
        SortFromMap(f, begun.value.list, begun.value.sorted, c, d);
      }
    }
  }

  lemma MoveKeepsPrefix<T>(s: seq<T>, start: nat, k: nat)
    requires k <= start < |s|
    ensures IsSubsequence(s[..start], Move(s, start, k)[..start + 1])
  {
    assert SelectedAt(s[..start], Move(s, start, k)[..start + 1], seq(start, i => if i < k then i else i + 1));
  }

  lemma TakeSubsequence<T>(s: seq<T>, n: nat)
    requires n <= |s|
    ensures IsSubsequence(s[..n], s)
  {
    assert SelectedAt(s[..n], s, seq(n, i => i));
  }

  /** Insertion never reorders what is already placed. */
  lemma {:induction false} SortKeepsPrefix<T>(s: seq<T>, start: nat, compare: (T, T) -> Option<int>)
    requires start <= |s|
    ensures IsSubsequence(s[..start], SortFrom(s, start, compare).list)
    decreases |s| - start
  {
    var slot := if start < |s| then Slot(s, 0, start, s[start], compare) else None;
    if slot.None? {
      TakeSubsequence(s, start);
    } else {
      var t := Move(s, start, slot.value);
      MoveKeepsPrefix(s, start, slot.value);
      SortKeepsPrefix(t, start + 1, compare);
      SubsequenceTransitive(s[..start], t[..start + 1], SortFrom(t, start + 1, compare).list);
    }
  }

  // ----- what holds for a lawful comparator -----

  predicate Below<T>(compare: (T, T) -> Option<int>, x: T, y: T)
  {
    match compare(x, y)
    case None => false
    case Some(c) => c < 0
  }

  /** Neither below the other. */
  predicate Tied<T>(compare: (T, T) -> Option<int>, x: T, y: T)
  {
    !Below(compare, x, y) && !Below(compare, y, x)
  }

  function TiedTo<T>(compare: (T, T) -> Option<int>, x: T): T -> bool
  {
    y => Tied(compare, x, y)
  }

  /** On the elements of `s` the comparator never throws and its negative
      outcomes form a strict weak order. Nothing is asked of the other outcomes:
      two elements may each compare as greater than the other. */
  ghost predicate Lawful<T>(s: seq<T>, compare: (T, T) -> Option<int>)
  {
    && (forall x, y :: x in s && y in s ==> compare(x, y).Some?)
    && (forall x :: x in s ==> !Below(compare, x, x))
    && (forall x, y, z :: x in s && y in s && z in s && Below(compare, x, y) && Below(compare, y, z)
         ==> Below(compare, x, z))
    && (forall x, y, z :: x in s && y in s && z in s && Below(compare, x, z)
         ==> Below(compare, x, y) || Below(compare, y, z))
  }

  /** No element stands after one it is below. */
  ghost predicate Ordered<T>(s: seq<T>, compare: (T, T) -> Option<int>)
  {
    forall i, j :: 0 <= i < j < |s| ==> !Below(compare, s[j], s[i])
  }

  /** Tied elements stand in the same order in both lists. */
  ghost predicate SameTies<T(!new)>(r: seq<T>, s: seq<T>, compare: (T, T) -> Option<int>)
  {
    forall x :: x in s ==> Filter(r, TiedTo(compare, x)) == Filter(s, TiedTo(compare, x))
  }

  /** The pivot at `start` is comparable with everything before it, and once it
      is below an element it is below all later ones. */
  ghost predicate Parted<T>(s: seq<T>, start: nat, compare: (T, T) -> Option<int>)
    requires start < |s|
  {
    && (forall i :: 0 <= i < start ==> compare(s[start], s[i]).Some?)
    && (forall i, j :: 0 <= i <= j < start && Below(compare, s[start], s[i]) ==> Below(compare, s[start], s[j]))
  }

  /** `k` parts the prefix into what the pivot is not below and what it is below. */
  ghost predicate PartsAt<T>(s: seq<T>, start: nat, k: nat, compare: (T, T) -> Option<int>)
    requires start < |s|
  {
    && k <= start
    && (forall i :: 0 <= i < k ==> !Below(compare, s[start], s[i]))
    && (forall i :: k <= i < start ==> Below(compare, s[start], s[i]))
  }

  lemma {:induction false} SlotParts<T>(s: seq<T>, start: nat, lo: nat, hi: nat, compare: (T, T) -> Option<int>)
    requires lo <= hi <= start < |s|
    requires Parted(s, start, compare)
    requires forall i :: 0 <= i < lo ==> !Below(compare, s[start], s[i])
    requires forall i :: hi <= i < start ==> Below(compare, s[start], s[i])
    ensures Slot(s, lo, hi, s[start], compare).Some?
    ensures PartsAt(s, start, Slot(s, lo, hi, s[start], compare).value, compare)
    decreases hi - lo
  {
    if lo < hi {
      var mid := (lo + hi) / 2;
      if Below(compare, s[start], s[mid]) {
        SlotParts(s, start, lo, mid, compare);
      } else {
        SlotParts(s, start, mid + 1, hi, compare);
      }
    }
  }

  lemma LawfulParted<T>(s: seq<T>, start: nat, compare: (T, T) -> Option<int>)
    requires start < |s|
    requires Lawful(s, compare)
    requires Ordered(s[..start], compare)
    ensures Parted(s, start, compare)
  {
    forall i, j | 0 <= i <= j < start && Below(compare, s[start], s[i])
      ensures Below(compare, s[start], s[j])
    {
      if i < j {
        assert !Below(compare, s[..start][j], s[..start][i]);
      }
    }
  }

  /** The slot found parts the sorted prefix at the first element above the pivot. */
  lemma SlotExact<T>(s: seq<T>, start: nat, compare: (T, T) -> Option<int>)
    requires start < |s|
    requires Lawful(s, compare)
    requires Ordered(s[..start], compare)
    ensures Slot(s, 0, start, s[start], compare).Some?
    ensures PartsAt(s, start, Slot(s, 0, start, s[start], compare).value, compare)
  {
    LawfulParted(s, start, compare);
    SlotParts(s, start, 0, start, compare);
  }

  lemma MoveOrdered<T>(s: seq<T>, start: nat, k: nat, compare: (T, T) -> Option<int>)
    requires k <= start < |s|
    requires Lawful(s, compare)
    requires Ordered(s[..start], compare)
    requires PartsAt(s, start, k, compare)
    ensures Ordered(Move(s, start, k)[..start + 1], compare)
  {
    var r, p := Move(s, start, k)[..start + 1], s[..start];
    forall i, j | 0 <= i < j < |r|
      ensures !Below(compare, r[j], r[i])
    {
      var i' := if i < k then i else i - 1;
      var j' := if j < k then j else j - 1;
      if i != k && j != k {
        assert r[i] == p[i'] && r[j] == p[j'];
      } else if j == k {
        assert r[i] == s[i] && r[j] == s[start];
      } else {
        assert r[j] == s[j'] && r[i] == s[start];
        assert s[start] in s && s[j'] in s;
      }
    }
  }

  lemma FilterFour<T(!new)>(a: seq<T>, b: seq<T>, c: seq<T>, d: seq<T>, pick: T -> bool)
    ensures Filter(a + b + c + d, pick) == Filter(a, pick) + Filter(b, pick) + Filter(c, pick) + Filter(d, pick)
  {
    FilterConcat(a + b + c, d, pick);
    FilterConcat(a + b, c, pick);
    FilterConcat(a, b, pick);
  }

  lemma FilterSwap<T(!new)>(a: seq<T>, m: seq<T>, p: seq<T>, b: seq<T>, pick: T -> bool)
    requires Filter(m, pick) == [] || Filter(p, pick) == []
    ensures Filter(a + p + m + b, pick) == Filter(a + m + p + b, pick)
  {
    FilterFour(a, p, m, b, pick);
    FilterFour(a, m, p, b, pick);
    SwapEmpty(Filter(a, pick), Filter(m, pick), Filter(p, pick));
  }

  /** Elements above the pivot are not tied to anything the pivot is tied to. */
  lemma TiesSplit<T(!new)>(s: seq<T>, start: nat, k: nat, compare: (T, T) -> Option<int>, x: T)
    requires k <= start < |s|
    requires Lawful(s, compare) && x in s
    requires forall i :: k <= i < start ==> Below(compare, s[start], s[i])
    ensures Filter(s[k..start], TiedTo(compare, x)) == [] || Filter([s[start]], TiedTo(compare, x)) == []
  {
    var pivot := s[start];
    if Tied(compare, x, pivot) {
      forall y | y in s[k..start]
        ensures !Tied(compare, x, y)
      {
        var i :| 0 <= i < |s[k..start]| && s[k..start][i] == y;
        assert y == s[k + i];
        assert Below(compare, pivot, x) || Below(compare, x, y);
      }
      FilterNothing(s[k..start], TiedTo(compare, x));
    } else {
      FilterNothing([pivot], TiedTo(compare, x));
    }
  }

  lemma MoveSameTies<T(!new)>(s: seq<T>, start: nat, k: nat, compare: (T, T) -> Option<int>)
    requires k <= start < |s|
    requires Lawful(s, compare)
    requires forall i :: k <= i < start ==> Below(compare, s[start], s[i])
    ensures SameTies(Move(s, start, k), s, compare)
  {
    assert s == s[..k] + s[k..start] + [s[start]] + s[start + 1..];
    forall x | x in s
      ensures Filter(Move(s, start, k), TiedTo(compare, x)) == Filter(s, TiedTo(compare, x))
    {
      TiesSplit(s, start, k, compare, x);
      FilterSwap(s[..k], s[k..start], [s[start]], s[start + 1..], TiedTo(compare, x));
    }
  }

  lemma LawfulPermuted<T(!new)>(s: seq<T>, t: seq<T>, compare: (T, T) -> Option<int>)
    requires multiset(s) == multiset(t)
    requires Lawful(s, compare)
    ensures Lawful(t, compare)
    ensures forall x :: x in s <==> x in t
  {
    assert forall x :: x in s <==> x in multiset(s);
    assert forall x :: x in t <==> x in multiset(t);
  }

  lemma SameTiesTransitive<T(!new)>(r: seq<T>, t: seq<T>, s: seq<T>, compare: (T, T) -> Option<int>)
    requires forall x :: x in s <==> x in t
    requires SameTies(r, t, compare) && SameTies(t, s, compare)
    ensures SameTies(r, s, compare)
  {
  }

  lemma {:induction false} SortFromStable<T(!new)>(s: seq<T>, start: nat, compare: (T, T) -> Option<int>)
    requires start <= |s|
    requires Lawful(s, compare)
    requires Ordered(s[..start], compare)
    ensures SortFrom(s, start, compare).finished
    ensures Ordered(SortFrom(s, start, compare).list, compare)
    ensures SameTies(SortFrom(s, start, compare).list, s, compare)
    decreases |s| - start
  {
    if start == |s| {
      assert s[..start] == s;
    } else {
      SlotExact(s, start, compare);
      var k := Slot(s, 0, start, s[start], compare).value;
      var t := Move(s, start, k);
      MoveOrdered(s, start, k, compare);
      MovePermutes(s, start, k);
      MoveSameTies(s, start, k, compare);
      LawfulPermuted(s, t, compare);
      SortFromStable(t, start + 1, compare);
      SameTiesTransitive(SortFrom(t, start + 1, compare).list, t, s, compare);
    }
  }

  /** `s[..n]` is a run. */
  ghost predicate IsRun<T>(s: seq<T>, n: nat, down: bool, compare: (T, T) -> Option<int>)
    requires n <= |s|
  {
    forall k :: 0 < k < n ==> compare(s[k], s[k - 1]).Some? && Below(compare, s[k], s[k - 1]) == down
  }

  lemma {:induction false} RunEndIsRun<T>(s: seq<T>, n: nat, down: bool, compare: (T, T) -> Option<int>)
    requires 0 < n <= |s| && IsRun(s, n, down, compare)
    requires forall k :: 0 < k < |s| ==> compare(s[k], s[k - 1]).Some?
    ensures RunEnd(s, n, down, compare).Some?
    ensures IsRun(s, RunEnd(s, n, down, compare).value, down, compare)
    decreases |s| - n
  {
    if n < |s| && Below(compare, s[n], s[n - 1]) == down {
      RunEndIsRun(s, n + 1, down, compare);
    }
  }

  lemma FirstRunIsRun<T>(s: seq<T>, compare: (T, T) -> Option<int>) returns (n: nat, down: bool)
    requires |s| >= 2
    requires forall k :: 0 < k < |s| ==> compare(s[k], s[k - 1]).Some?
    ensures 2 <= n <= |s| && IsRun(s, n, down, compare)
    ensures FirstRun(s, compare) == Some(Begun(if down then TurnedRound(s, n) else s, n))
  {
    assert compare(s[1], s[1 - 1]).Some?;
    down := compare(s[1], s[0]).value < 0;
    RunEndIsRun(s, 2, down, compare);
    n := RunEnd(s, 2, down, compare).value;
  }

  lemma {:induction false} RunSteps<T>(s: seq<T>, n: nat, down: bool, compare: (T, T) -> Option<int>, i: nat, j: nat)
    requires n <= |s| && IsRun(s, n, down, compare) && Lawful(s, compare)
    requires i < j < n
    ensures Below(compare, s[j], s[i]) == down
    decreases j
  {
    if i < j - 1 {
      RunSteps(s, n, down, compare, i, j - 1);
      assert s[i] in s && s[j - 1] in s && s[j] in s;
    }
  }

  lemma UpRunOrdered<T>(s: seq<T>, n: nat, compare: (T, T) -> Option<int>)
    requires n <= |s| && IsRun(s, n, false, compare) && Lawful(s, compare)
    ensures Ordered(s[..n], compare)
  {
    forall i, j | 0 <= i < j < n
      ensures !Below(compare, s[..n][j], s[..n][i])
    {
      RunSteps(s, n, false, compare, i, j);
    }
  }

  lemma DownRunOrdered<T>(s: seq<T>, n: nat, compare: (T, T) -> Option<int>)
    requires n <= |s| && IsRun(s, n, true, compare) && Lawful(s, compare)
    ensures Ordered(TurnedRound(s, n)[..n], compare)
  {
    var r := TurnedRound(s, n)[..n];
    forall i, j | 0 <= i < j < n
      ensures !Below(compare, r[j], r[i])
    {
      TurnedRoundAt(s, n, i);
      TurnedRoundAt(s, n, j);
      var p, q := n - 1 - j, n - 1 - i;
      RunSteps(s, n, true, compare, p, q);
      assert s[p] in s && s[q] in s;
    }
  }

  /** Turning round a part with at most one element picked keeps the picked ones. */
  lemma TurnedRoundFilter<T(!new)>(s: seq<T>, n: nat, pick: T -> bool)
    requires n <= |s| && AtMostOne(s[..n], pick)
    ensures Filter(TurnedRound(s, n), pick) == Filter(s, pick)
  {
    TakeDrop(s, n);
    FilterReversed(s[..n], pick);
    FilterConcat(Reversed(s[..n]), s[n..], pick);
    FilterConcat(s[..n], s[n..], pick);
  }

  lemma DownRunTies<T(!new)>(s: seq<T>, n: nat, compare: (T, T) -> Option<int>)
    requires n <= |s| && IsRun(s, n, true, compare) && Lawful(s, compare)
    ensures SameTies(TurnedRound(s, n), s, compare)
  {
    forall x | x in s
      ensures Filter(TurnedRound(s, n), TiedTo(compare, x)) == Filter(s, TiedTo(compare, x))
    {
      forall i, j | 0 <= i < j < n
        ensures !(TiedTo(compare, x)(s[..n][i]) && TiedTo(compare, x)(s[..n][j]))
      {
        RunSteps(s, n, true, compare, i, j);
        assert s[i] in s && s[j] in s;
      }
      TurnedRoundFilter(s, n, TiedTo(compare, x));
    }
  }

  lemma FirstRunStable<T(!new)>(s: seq<T>, compare: (T, T) -> Option<int>) returns (t: seq<T>, n: nat)
    requires |s| >= 2 && Lawful(s, compare)
    ensures n <= |t| && FirstRun(s, compare) == Some(Begun(t, n))
    ensures multiset(t) == multiset(s) && SameTies(t, s, compare)
    ensures Lawful(t, compare) && Ordered(t[..n], compare)
  {
    var down;
    n, down := FirstRunIsRun(s, compare);
    if down {
      t := TurnedRound(s, n);
      TurnedRoundPermutes(s, n);
      DownRunOrdered(s, n, compare);
      DownRunTies(s, n, compare);
      LawfulPermuted(s, t, compare);
    } else {
      t := s;
      UpRunOrdered(s, n, compare);
    }
  }

  /** With a lawful comparator the sort finishes and is the stable sort. */
  lemma SortStable<T(!new)>(s: seq<T>, compare: (T, T) -> Option<int>)
    requires Lawful(s, compare)
    ensures Sort(s, compare).finished
    ensures multiset(Sort(s, compare).list) == multiset(s)
    ensures Ordered(Sort(s, compare).list, compare)
    ensures SameTies(Sort(s, compare).list, s, compare)
  {
    SortPermutes(s, compare);
    if |s| >= 2 {
      var t, n := FirstRunStable(s, compare);
      LawfulPermuted(s, t, compare);
      SortFromStable(t, n, compare);
      SameTiesTransitive(SortFrom(t, n, compare).list, t, s, compare);
    }
  }

  /** A class of mutually tied elements comes out in the order it went in. */
  lemma SortKeepsClass<T(!new)>(s: seq<T>, compare: (T, T) -> Option<int>, pick: T -> bool)
    requires Lawful(s, compare)
    requires forall x, y :: x in s && y in s && pick(x) ==> (pick(y) <==> Tied(compare, x, y))
    ensures Filter(Sort(s, compare).list, pick) == Filter(s, pick)
  {
    var r := Sort(s, compare).list;
    SortStable(s, compare);
    LawfulPermuted(s, r, compare);
    if x :| x in s && pick(x) {
      FilterAgree(r, pick, TiedTo(compare, x));
      FilterAgree(s, pick, TiedTo(compare, x));
    } else {
      FilterNothing(r, pick);
      FilterNothing(s, pick);
    }
  }

  lemma StableHead<T(!new)>(r: seq<T>, t: seq<T>, compare: (T, T) -> Option<int>)
    requires r != [] && t != [] && r[0] in t && t[0] in r
    requires Lawful(r, compare)
    requires Ordered(r, compare) && Ordered(t, compare)
    requires Filter(r, TiedTo(compare, r[0])) == Filter(t, TiedTo(compare, r[0]))
    ensures r[0] == t[0]
  {
    var x := r[0];
    var i :| 0 <= i < |r| && r[i] == t[0];
    var j :| 0 <= j < |t| && t[j] == x;
    assert !Below(compare, x, x);
    assert Tied(compare, x, t[0]) && Tied(compare, x, x);
    FilterHead(r, TiedTo(compare, x));
    FilterHead(t, TiedTo(compare, x));
    assert Filter(r, TiedTo(compare, x))[0] == Filter(t, TiedTo(compare, x))[0];
  }

  lemma TiesOfTail<T(!new)>(r: seq<T>, t: seq<T>, compare: (T, T) -> Option<int>, y: T)
    requires r != [] && t != [] && r[0] == t[0]
    requires Filter(r, TiedTo(compare, y)) == Filter(t, TiedTo(compare, y))
    ensures Filter(r[1..], TiedTo(compare, y)) == Filter(t[1..], TiedTo(compare, y))
  {
    FilterHead(r, TiedTo(compare, y));
    FilterHead(t, TiedTo(compare, y));
    var h := if TiedTo(compare, y)(r[0]) then 1 else 0;
    assert Filter(r[1..], TiedTo(compare, y)) == Filter(r, TiedTo(compare, y))[h..];
    assert Filter(t[1..], TiedTo(compare, y)) == Filter(t, TiedTo(compare, y))[h..];
  }

  lemma StableTails<T(!new)>(r: seq<T>, t: seq<T>, compare: (T, T) -> Option<int>)
    requires r != [] && t != [] && r[0] == t[0]
    requires SameTies(r, t, compare)
    ensures SameTies(r[1..], t[1..], compare)
  {
    forall y | y in t[1..]
      ensures Filter(r[1..], TiedTo(compare, y)) == Filter(t[1..], TiedTo(compare, y))
    {
      TiesOfTail(r, t, compare, y);
    }
  }

  lemma StableTailsLawful<T(!new)>(r: seq<T>, t: seq<T>, compare: (T, T) -> Option<int>)
    requires r != [] && t != []
    requires Lawful(r, compare) && Ordered(r, compare) && Ordered(t, compare)
    ensures Lawful(r[1..], compare) && Ordered(r[1..], compare) && Ordered(t[1..], compare)
  {
    assert forall x :: x in r[1..] ==> x in r;
    forall i, j | 0 <= i < j < |t[1..]|
      ensures !Below(compare, t[1..][j], t[1..][i])
    {
      assert t[1..][j] == t[j + 1] && t[1..][i] == t[i + 1];
    }
  }

  lemma MultisetTails<T>(r: seq<T>, t: seq<T>)
    requires r != [] && t != [] && r[0] == t[0]
    requires multiset(r) == multiset(t)
    ensures multiset(r[1..]) == multiset(t[1..])
  {
    HeadTail(r);
    HeadTail(t);
    EmptyLeft(r[1..]);
    EmptyLeft(t[1..]);
    EmptyLeft([r[0]]);
    MultisetWithout([], r[0], r[1..]);
    MultisetWithout([], t[0], t[1..]);
  }

  /** Order and ties determine the list: there is only one stable sort. */
  lemma {:induction false} StableUnique<T(!new)>(r: seq<T>, t: seq<T>, compare: (T, T) -> Option<int>)
    requires multiset(r) == multiset(t)
    requires Lawful(r, compare)
    requires Ordered(r, compare) && Ordered(t, compare)
    requires SameTies(r, t, compare)
    ensures r == t
    decreases |r|
  {
    assert |multiset(r)| == |multiset(t)|;
    if r != [] {
      LawfulPermuted(r, t, compare);
      StableHead(r, t, compare);
      StableTails(r, t, compare);
      StableTailsLawful(r, t, compare);
      MultisetTails(r, t);
      StableUnique(r[1..], t[1..], compare);
    }
  }

  /** A list already in order is left as it is. */
  lemma SortKeepsOrdered<T(!new)>(s: seq<T>, compare: (T, T) -> Option<int>)
    requires Lawful(s, compare) && Ordered(s, compare)
    ensures Sort(s, compare) == Sorting(true, s)
  {
    var r := Sort(s, compare).list;
    SortStable(s, compare);
    LawfulPermuted(s, r, compare);
    StableUnique(r, s, compare);
  }
}
