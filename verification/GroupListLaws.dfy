/** What the hash index guarantees: when it agrees with the first-fit clustering,
    and which events are selected as best. */
module GroupListLaws {
  import opened Sequences
  import opened Tokens
  import opened TimeSort
  import opened ComparatorContract
  import opened Events
  import opened Groups
  import opened GroupLaws
  import opened Clustering
  import opened FinalTables
  import opened TimeFlowLaws
  import opened GroupLists

  // ----- a group-by depends only on which events share a key -----

  lemma {:induction false} DedupSamePartition<K, L>(events: seq<Record>, k: Record -> K, l: Record -> L)
    requires forall a, b :: a in events && b in events ==> (k(a) == k(b) <==> l(a) == l(b))
    ensures Dedup(events, k) == Dedup(events, l)
  {
    if events != [] {
      FrontLast(events);
      var front, e := Front(events), Last(events);
      DedupSamePartition(front, k, l);
      AddNewKeys([], front, k, k(e));
      AddNewKeys([], front, l, l(e));
      assert HasKey(front, k, k(e)) <==> HasKey(front, l, l(e));
    }
  }

  lemma GroupBySamePartition<K, L>(events: seq<Record>, k: Record -> K, l: Record -> L)
    requires forall a, b :: a in events && b in events ==> (k(a) == k(b) <==> l(a) == l(b))
    ensures GroupBy(events, k) == GroupBy(events, l)
  {
    DedupSamePartition(events, k, l);
    var firsts := Dedup(events, k);
    forall i | 0 <= i < |firsts|
      ensures KeyGroup(events, k, k(firsts[i])) == KeyGroup(events, l, l(firsts[i]))
    {
      DedupMember(events, k, i);
      FilterAgree(events, SameKey(k, k(firsts[i])), SameKey(l, l(firsts[i])));
    }
  }

  lemma DedupMember<K>(events: seq<Record>, key: Record -> K, i: nat)
    requires i < |Dedup(events, key)|
    ensures Dedup(events, key)[i] in events
  {
    var pos := DedupExact(events, key);
  }

  /** Two events with the same key stand in one group. */
  lemma SameGroup<K>(events: seq<Record>, key: Record -> K, a: Record, b: Record) returns (p: nat)
    requires a in events && b in events && key(a) == key(b)
    ensures p < |GroupBy(events, key)|
    ensures a in GroupBy(events, key)[p].items && b in GroupBy(events, key)[p].items
  {
    HasKeyIn(events, key, a);
    AddNewKeys([], events, key, key(a));
    p :| 0 <= p < |Dedup(events, key)| && key(Dedup(events, key)[p]) == key(a);
    GatherItems(Filter(events, SameKey(key, key(a))));
  }

  /** The events of one group have the same key. */
  lemma GroupHasOneKey<K>(events: seq<Record>, key: Record -> K, p: nat, a: Record)
    requires p < |GroupBy(events, key)| && a in GroupBy(events, key)[p].items
    ensures key(a) == key(Dedup(events, key)[p])
  {
    GatherItems(Filter(events, SameKey(key, key(Dedup(events, key)[p]))));
  }

  /** Two keys group the events alike exactly when they identify the same pairs. */
  lemma GroupByAgree<K, L>(events: seq<Record>, k: Record -> K, l: Record -> L)
    ensures GroupBy(events, k) == GroupBy(events, l) <==>
            forall a, b :: a in events && b in events ==> (k(a) == k(b) <==> l(a) == l(b))
  {
    if GroupBy(events, k) == GroupBy(events, l) {
      forall a, b | a in events && b in events
        ensures k(a) == k(b) <==> l(a) == l(b)
      {
        if k(a) == k(b) {
          var p := SameGroup(events, k, a, b);
          GroupHasOneKey(events, l, p, a);
          GroupHasOneKey(events, l, p, b);
        }
        if l(a) == l(b) {
          var p := SameGroup(events, l, a, b);
          GroupHasOneKey(events, k, p, a);
          GroupHasOneKey(events, k, p, b);
        }
      }
    }
    if forall a, b :: a in events && b in events ==> (k(a) == k(b) <==> l(a) == l(b)) {
      GroupBySamePartition(events, k, l);
    }
  }

  // ----- first fit on plain events is a group-by -----

  /** Exactly one verb, no place, no date. */
  predicate Plain(e: Record)
  {
    |e.skid| == 1 && e.ncid == [] && e.dates == []
  }

  function FoldedVerb(e: Record): string
  {
    if e.skid == [] then "" else Folded(e.skid[0])
  }

  lemma PlainMeet(a: Record, b: Record)
    requires Plain(a) && Plain(b)
    ensures Meet(a.skid, b.skid) <==> FoldedVerb(a) == FoldedVerb(b)
  {
    assert Inside(b.skid, a.skid[0]) <==> Folded(b.skid[0]) == Folded(a.skid[0]);
  }

  /** A group of plain events of one verb accepts exactly the plain events of that verb. */
  lemma PlainAccepts(items: seq<Record>, e: Record, verb: string)
    requires Plain(e) && items != []
    requires forall x :: x in items ==> Plain(x) && FoldedVerb(x) == verb
    ensures Accepts(Gather(items), e) <==> FoldedVerb(e) == verb
  {
    GatherMeets(items, e.skid);
    forall i | 0 <= i < |items|
      ensures Meet(e.skid, items[i].skid) <==> FoldedVerb(e) == verb
    {
      assert items[i] in items;
      PlainMeet(e, items[i]);
    }
    assert Meet(e.skid, items[0].skid) <==> FoldedVerb(e) == verb;
  }

  lemma PlainGroup(events: seq<Record>, e: Record, i: nat)
    requires Plain(e) && (forall x :: x in events ==> Plain(x))
    requires i < |Dedup(events, FoldedVerb)|
    ensures Accepts(GroupBy(events, FoldedVerb)[i], e) <==> FoldedVerb(Dedup(events, FoldedVerb)[i]) == FoldedVerb(e)
  {
    var first := Dedup(events, FoldedVerb)[i];
    DedupMember(events, FoldedVerb, i);
    var items := Filter(events, SameKey(FoldedVerb, FoldedVerb(first)));
    assert first in items;
    PlainAccepts(items, e, FoldedVerb(first));
  }

  lemma PlainPlace(events: seq<Record>, e: Record)
    requires Plain(e) && (forall x :: x in events ==> Plain(x))
    ensures Place(GroupBy(events, FoldedVerb), e) == GroupBy(events + [e], FoldedVerb)
  {
    var gs, firsts := GroupBy(events, FoldedVerb), Dedup(events, FoldedVerb);
    var k := FirstFit(gs, e);
    AddNewKeys([], events, FoldedVerb, FoldedVerb(e));
    if k < |gs| {
      PlainGroup(events, e, k);
      GroupByOld(events, FoldedVerb, e, k);
    } else {
      forall i | 0 <= i < |firsts|
        ensures FoldedVerb(firsts[i]) != FoldedVerb(e)
      {
        PlainGroup(events, e, i);
      }
      GroupByNew(events, FoldedVerb, e);
    }
  }

  lemma {:induction false} PlainCluster(events: seq<Record>)
    requires forall e :: e in events ==> Plain(e)
    ensures Cluster(events) == GroupBy(events, FoldedVerb)
  {
    if events != [] {
      FrontLast(events);
      PlainCluster(Front(events));
      PlainPlace(Front(events), Last(events));
    }
  }

  function ShownVerb(e: Record): string
  {
    if e.skid == [] then "" else e.skid[0].shown
  }

  lemma PlainKeys(a: Record, b: Record)
    requires Plain(a) && Plain(b)
    ensures VerbKey(a) == VerbKey(b) <==> ShownVerb(a) == ShownVerb(b)
  {
    assert VerbKey(a) == "[" + ShownVerb(a) + "]" && VerbKey(b) == "[" + ShownVerb(b) + "]";
    assert ShownVerb(a) == VerbKey(a)[1..|VerbKey(a)| - 1];
    assert ShownVerb(b) == VerbKey(b)[1..|VerbKey(b)| - 1];
  }

  /** No two verbs differ as shown but not as folded, or the other way round. */
  ghost predicate NoVariants(events: seq<Record>)
  {
    forall a, b :: a in events && b in events ==> (ShownVerb(a) == ShownVerb(b) <==> FoldedVerb(a) == FoldedVerb(b))
  }

  /** On plain events the hash index and the first-fit scan build the same list
      of groups, members in the same order, exactly when no verb comes in two
      variants. */
  lemma IndexAgreesWithFirstFit(events: seq<Record>)
    requires forall e :: e in events ==> Plain(e)
    ensures GroupBy(events, VerbKey) == Cluster(events) <==> NoVariants(events)
  {
    PlainCluster(events);
    forall a, b | a in events && b in events
      ensures VerbKey(a) == VerbKey(b) <==> ShownVerb(a) == ShownVerb(b)
    {
      PlainKeys(a, b);
    }
    GroupBySamePartition(events, VerbKey, ShownVerb);
    GroupByAgree(events, ShownVerb, FoldedVerb);
  }

  lemma PlainUndated(events: seq<Record>, k: nat)
    requires forall e :: e in events ==> Plain(e)
    requires k < |Cluster(events)|
    ensures Cluster(events)[k].dates == []
  {
    ClusterGrown(events);
    ClusterMembers(events, k);
    var items := Cluster(events)[k].items;
    forall i | 0 <= i < |items|
      ensures items[i].dates == []
    {
      assert items[i] in items;
    }
    GatherDate(items);
  }

  /** ... and ordering by time leaves those groups where they are. */
  lemma PlainTimeFlow(events: seq<Record>)
    requires forall e :: e in events ==> Plain(e)
    ensures TimeFlow(Cluster(events)) == Cluster(events)
  {
    forall g | g in Cluster(events)
      ensures g.dates == []
    {
      var k :| 0 <= k < |Cluster(events)| && Cluster(events)[k] == g;
      PlainUndated(events, k);
    }
    TimeFlowUndated(Cluster(events));
  }

  // ----- best events -----

  /** A best event is there, and undated or with a known interval start. */
  predicate Timed(b: Option<Record>)
  {
    b.Some? && (b.value.dates == [] || IntervalStart(b.value.dates[0]).Some?)
  }

  function BestStart(b: Option<Record>): int
    requires Timed(b) && b.value.dates != []
  {
    IntervalStart(b.value.dates[0]).value
  }

  /** The comparator orders a list of best events exactly when all are timed. */
  lemma BestLawful(bests: seq<Option<Record>>)
    ensures Lawful(bests, CompareBest) <==> forall b :: b in bests ==> Timed(b)
  {
    if Lawful(bests, CompareBest) {
      forall b | b in bests
        ensures Timed(b)
      {
        assert CompareBest(b, b).Some?;
      }
    }
  }

  function UndatedBest(): Option<Record> -> bool
  {
    (b: Option<Record>) => b.Some? && b.value.dates == []
  }

  function BestStartsAt(k: int): Option<Record> -> bool
  {
    (b: Option<Record>) => b.Some? && b.value.dates != [] && IntervalStart(b.value.dates[0]) == Some(k)
  }

  predicate HasDate(b: Option<Record>)
  {
    b.Some? && b.value.dates != []
  }

  /** `a` is no reason for a comparison with `b` to throw: it is not missing, and
      if both are dated it has an interval start. */
  predicate Harmless(a: Option<Record>, b: Option<Record>)
  {
    a.Some? && (HasDate(a) && HasDate(b) ==> Timed(a))
  }

  /** No comparison of two different positions throws. */
  ghost predicate NoneThrows(bests: seq<Option<Record>>)
  {
    forall i, j :: 0 <= i < |bests| && 0 <= j < |bests| && i != j ==> Harmless(bests[i], bests[j])
  }

  /** Both are there, and `b` may stand after `a`: it is undated, or `a` is dated
      and not known to be later. */
  predicate MayFollow(a: Option<Record>, b: Option<Record>)
  {
    && a.Some? && b.Some?
    && (HasDate(b) ==> HasDate(a) && (Timed(a) && Timed(b) ==> BestStart(a) <= BestStart(b)))
  }

  /** The events are all there, dated ones first and ascending, undated ones last.
      A list of at most one event is in order. */
  ghost predicate InBestOrder(r: seq<Option<Record>>)
  {
    forall i, j :: 0 <= i < j < |r| ==> MayFollow(r[i], r[j])
  }

  lemma NoneThrowsPair(bests: seq<Option<Record>>, x: Option<Record>, y: Option<Record>)
    requires NoneThrows(bests) && x in bests && y in bests && x != y
    ensures Harmless(x, y) && Harmless(y, x)
  {
    var i :| 0 <= i < |bests| && bests[i] == x;
    var j :| 0 <= j < |bests| && bests[j] == y;
    assert Harmless(bests[i], bests[j]) && Harmless(bests[j], bests[i]);
  }

  lemma PatchedBest(x: Option<Record>, y: Option<Record>)
    ensures Patched(CompareBest)(x, y) == if x == y then Some(0) else CompareBest(x, y)
  {
  }

  lemma BelowBest(bests: seq<Option<Record>>, x: Option<Record>, y: Option<Record>)
    requires NoneThrows(bests) && x in bests && y in bests
    ensures Patched(CompareBest)(x, y).Some?
    ensures Below(Patched(CompareBest), x, y) <==>
            x != y && HasDate(x) && (HasDate(y) ==> BestStart(x) < BestStart(y))
  {
    PatchedBest(x, y);
    if x != y {
      NoneThrowsPair(bests, x, y);
    }
  }

  lemma BestTriple(bests: seq<Option<Record>>, x: Option<Record>, y: Option<Record>, z: Option<Record>)
    requires NoneThrows(bests) && x in bests && y in bests && z in bests
    ensures var d := Patched(CompareBest);
            && (Below(d, x, y) && Below(d, y, z) ==> Below(d, x, z))
            && (Below(d, x, z) ==> Below(d, x, y) || Below(d, y, z))
  {
    BelowBest(bests, x, y);
    BelowBest(bests, y, z);
    BelowBest(bests, x, z);
  }

  lemma BestsLawful(bests: seq<Option<Record>>)
    requires NoneThrows(bests)
    ensures Lawful(bests, Patched(CompareBest))
    ensures Sort(bests, Patched(CompareBest)) == Sort(bests, CompareBest)
  {
    forall x, y | x in bests && y in bests
      ensures Patched(CompareBest)(x, y).Some?
    {
      BelowBest(bests, x, y);
    }
    forall x, y, z | x in bests && y in bests && z in bests
      ensures Below(Patched(CompareBest), x, y) && Below(Patched(CompareBest), y, z) ==> Below(Patched(CompareBest), x, z)
      ensures Below(Patched(CompareBest), x, z) ==> Below(Patched(CompareBest), x, y) || Below(Patched(CompareBest), y, z)
    {
      BestTriple(bests, x, y, z);
    }
    SortAgree(bests, CompareBest, Patched(CompareBest));
  }

  /** Equal events at different positions are both undated or both timed. */
  lemma TwinBests(bests: seq<Option<Record>>, r: seq<Option<Record>>, i: nat, j: nat)
    requires NoneThrows(bests) && multiset(r) == multiset(bests)
    requires i < j < |r| && r[i] == r[j]
    ensures Timed(r[i])
  {
    var p, q := TwiceInBoth(r, bests, i, j);
  }

  lemma OrderedInBestOrder(bests: seq<Option<Record>>, r: seq<Option<Record>>)
    requires NoneThrows(bests) && multiset(r) == multiset(bests)
    requires forall b :: b in r <==> b in bests
    requires Ordered(r, Patched(CompareBest))
    ensures InBestOrder(r)
  {
    forall i, j | 0 <= i < j < |r|
      ensures MayFollow(r[i], r[j])
    {
      if r[i] == r[j] {
        TwinBests(bests, r, i, j);
      } else {
        BelowBest(bests, r[j], r[i]);
        NoneThrowsPair(bests, r[j], r[i]);
        assert !Below(Patched(CompareBest), r[j], r[i]);
      }
    }
  }

  lemma BestTies(bests: seq<Option<Record>>, pick: Option<Record> -> bool)
    requires NoneThrows(bests)
    requires pick == UndatedBest() || exists k: int :: pick == BestStartsAt(k)
    ensures Filter(Sort(bests, CompareBest).list, pick) == Filter(bests, pick)
  {
    BestsLawful(bests);
    forall x, y | x in bests && y in bests && pick(x)
      ensures pick(y) <==> Tied(Patched(CompareBest), x, y)
    {
      BelowBest(bests, x, y);
      BelowBest(bests, y, x);
      if x != y {
        NoneThrowsPair(bests, x, y);
      }
    }
    SortKeepsClass(bests, Patched(CompareBest), pick);
  }

  /** When no comparison can throw, the order of the best events is the stable
      order by date: the same events, dated ones first and ascending, undated
      ones last, and ties and undated events in group order. */
  lemma BestSorted(bests: seq<Option<Record>>)
    requires NoneThrows(bests)
    ensures var r := Sort(bests, CompareBest);
            && r.finished
            && multiset(r.list) == multiset(bests)
            && InBestOrder(r.list)
            && (forall k: int :: Filter(r.list, BestStartsAt(k)) == Filter(bests, BestStartsAt(k)))
            && Filter(r.list, UndatedBest()) == Filter(bests, UndatedBest())
  {
    BestsLawful(bests);
    SortStable(bests, Patched(CompareBest));
    SameElements(bests, Sort(bests, CompareBest).list);
    OrderedInBestOrder(bests, Sort(bests, CompareBest).list);
    forall k: int
      ensures Filter(Sort(bests, CompareBest).list, BestStartsAt(k)) == Filter(bests, BestStartsAt(k))
    {
      BestTies(bests, BestStartsAt(k));
    }
    BestTies(bests, UndatedBest());
  }

  lemma NoneThrowsPermuted(bests: seq<Option<Record>>, t: seq<Option<Record>>)
    requires NoneThrows(bests) && multiset(t) == multiset(bests)
    ensures NoneThrows(t)
  {
    SameElements(bests, t);
    forall i, j | 0 <= i < |t| && 0 <= j < |t| && i != j
      ensures Harmless(t[i], t[j])
    {
      if t[i] == t[j] {
        TwinBests(bests, t, if i < j then i else j, if i < j then j else i);
      } else {
        NoneThrowsPair(bests, t[i], t[j]);
      }
    }
  }

  lemma TwoOut<T>(s: seq<T>, i: nat, j: nat) returns (rest: seq<T>)
    requires i < |s| && j < |s| && i != j
    ensures multiset([s[j], s[i]] + rest) == multiset(s)
  {
    var s1 := RemoveFirst(s, s[i]);
    rest := RemoveFirst(s1, s[j]);
    RemoveFirstMultiset(s, s[i]);
    if s[i] == s[j] {
      CountsTwice(s, if i < j then i else j, if i < j then j else i);
    }
    assert s[j] in multiset(s) && s[j] in multiset(s1);
    RemoveFirstMultiset(s1, s[j]);
  }

  lemma FirstComparisonThrows(x: Option<Record>, y: Option<Record>, rest: seq<Option<Record>>)
    requires CompareBest(x, y).None?
    ensures !Sort([y, x] + rest, CompareBest).finished
  {
    var s := [y, x] + rest;
    assert s[0] == y && s[1] == x;
  }

  /** The sort of the best events ends, and in order, for every arrangement of the
      groups exactly when no comparison of two of them can throw. */
  lemma BestsExact(bests: seq<Option<Record>>)
    ensures NoneThrows(bests) <==>
            forall t :: multiset(t) == multiset(bests) ==>
              Sort(t, CompareBest).finished && InBestOrder(Sort(t, CompareBest).list)
  {
    if NoneThrows(bests) {
      forall t | multiset(t) == multiset(bests)
        ensures Sort(t, CompareBest).finished && InBestOrder(Sort(t, CompareBest).list)
      {
        NoneThrowsPermuted(bests, t);
        BestSorted(t);
      }
    } else {
      var i, j :| 0 <= i < |bests| && 0 <= j < |bests| && i != j
                  && !Harmless(bests[i], bests[j]);
      var rest := TwoOut(bests, i, j);
      FirstComparisonThrows(bests[i], bests[j], rest);
    }
  }

  ghost predicate AtMostOneUndatedBest(bests: seq<Option<Record>>)
  {
    forall i, j :: 0 <= i < j < |bests| ==> HasDate(bests[i]) || HasDate(bests[j])
  }

  lemma BestPairTriple(a: Option<Record>, b: Option<Record>, c: Option<Record>)
    requires a.Some? && b.Some? && c.Some?
    requires HasDate(a) || HasDate(b)
    requires HasDate(b) || HasDate(c)
    requires HasDate(a) || HasDate(c)
    requires HasDate(a) && HasDate(b) ==> Timed(a) && Timed(b)
    requires HasDate(b) && HasDate(c) ==> Timed(b) && Timed(c)
    requires HasDate(a) && HasDate(c) ==> Timed(a) && Timed(c)
    ensures CompareBest(a, b).Some? && Sign(CompareBest(a, b)) == -Sign(CompareBest(b, a))
    ensures Sign(CompareBest(a, b)) == 1 && Sign(CompareBest(b, c)) == 1 ==> Sign(CompareBest(a, c)) == 1
    ensures Sign(CompareBest(a, b)) == 0 ==> Sign(CompareBest(a, c)) == Sign(CompareBest(b, c))
  {
  }

  lemma NoneThrowsContract(bests: seq<Option<Record>>)
    requires NoneThrows(bests) && AtMostOneUndatedBest(bests)
    ensures MeetsContract(bests, CompareBest)
  {
    forall i, j | 0 <= i < |bests| && 0 <= j < |bests| && i != j
      ensures CompareBest(bests[i], bests[j]).Some?
      ensures Sign(CompareBest(bests[i], bests[j])) == -Sign(CompareBest(bests[j], bests[i]))
    {
      assert HasDate(bests[i]) || HasDate(bests[j]);
    }
    forall i, j, k | 0 <= i < |bests| && 0 <= j < |bests| && 0 <= k < |bests| && i != j && j != k && i != k
      ensures Sign(CompareBest(bests[i], bests[j])) == 1 && Sign(CompareBest(bests[j], bests[k])) == 1
              ==> Sign(CompareBest(bests[i], bests[k])) == 1
      ensures Sign(CompareBest(bests[i], bests[j])) == 0
              ==> Sign(CompareBest(bests[i], bests[k])) == Sign(CompareBest(bests[j], bests[k]))
    {
      BestPairTriple(bests[i], bests[j], bests[k]);
    }
  }

  /** The comparator of best events meets its contract on a list exactly when no
      comparison can throw and at most one event is undated. */
  lemma BestsContract(bests: seq<Option<Record>>)
    ensures MeetsContract(bests, CompareBest) <==> NoneThrows(bests) && AtMostOneUndatedBest(bests)
  {
    if NoneThrows(bests) && AtMostOneUndatedBest(bests) {
      NoneThrowsContract(bests);
    }
    if MeetsContract(bests, CompareBest) {
      forall i, j | 0 <= i < |bests| && 0 <= j < |bests| && i != j
        ensures Harmless(bests[i], bests[j])
        ensures HasDate(bests[i]) || HasDate(bests[j])
      {
        assert CompareBest(bests[i], bests[j]).Some? && CompareBest(bests[j], bests[i]).Some?;
        assert Sign(CompareBest(bests[i], bests[j])) == -Sign(CompareBest(bests[j], bests[i]));
      }
    }
  }

  /** No group of a hash index is empty, and all their members are events given. */
  lemma KeyGroupMembers<K>(events: seq<Record>, key: Record -> K, p: nat)
    requires p < |GroupBy(events, key)|
    ensures GroupBy(events, key)[p].items != []
    ensures forall e :: e in GroupBy(events, key)[p].items ==> e in events
  {
    var first := Dedup(events, key)[p];
    DedupMember(events, key, p);
    GatherItems(Filter(events, SameKey(key, key(first))));
    assert first in Filter(events, SameKey(key, key(first)));
  }

  /** `b` is the first of the items that no other item outweighs. */
  ghost predicate FirstHeaviest(items: seq<Record>, b: Option<Record>)
  {
    exists i :: && 0 <= i < |items| && b == Some(items[i])
                && (forall j :: 0 <= j < |items| ==> items[j].weight <= items[i].weight)
                && (forall j :: 0 <= j < i ==> items[j].weight < items[i].weight)
  }

  lemma BestIsFirstHeaviest(g: GroupState)
    requires g.items != [] && g.items[0].weight >= 0
    ensures FirstHeaviest(g.items, BestRecord(g)) && BestRecord(g).value in g.items
  {
    var i := Best(g.items).value;
    assert BestRecord(g) == Some(g.items[i]);
  }

  lemma BestInGroup(events: seq<Record>, p: nat)
    requires forall e :: e in events ==> e.weight >= 0
    requires p < |GroupBy(events, VerbKey)|
    ensures var g := GroupBy(events, VerbKey)[p];
            FirstHeaviest(g.items, BestRecord(g)) && BestRecord(g).value in events
  {
    KeyGroupMembers(events, VerbKey, p);
    assert GroupBy(events, VerbKey)[p].items[0] in events;
    BestIsFirstHeaviest(GroupBy(events, VerbKey)[p]);
  }

  lemma BestOfEachGroup(events: seq<Record>)
    requires forall e :: e in events ==> e.weight >= 0
    ensures var gs := GroupBy(events, VerbKey);
            var r := Sort(Bests(gs), CompareBest).list;
            && multiset(r) == multiset(Bests(gs)) && |r| == |gs|
            && (forall k :: 0 <= k < |r| ==> r[k].Some? && r[k].value in events)
            && (forall p :: 0 <= p < |gs| ==> FirstHeaviest(gs[p].items, Bests(gs)[p]))
  {
    var gs := GroupBy(events, VerbKey);
    SortPermutes(Bests(gs), CompareBest);
    forall p | 0 <= p < |gs|
      ensures FirstHeaviest(gs[p].items, Bests(gs)[p])
      ensures Bests(gs)[p].Some? && Bests(gs)[p].value in events
    {
      BestInGroup(events, p);
    }
  }

  /** `r` is a selection of best events: one from every group, never null, the
      first member no other member outweighs; and when no comparison can throw, in
      the stable order by date. */
  ghost predicate Selection(events: seq<Record>, r: seq<Option<Record>>)
  {
    var gs := GroupBy(events, VerbKey);
    var bests := Bests(gs);
    && (forall p :: 0 <= p < |gs| ==> FirstHeaviest(gs[p].items, bests[p]))
    && multiset(r) == multiset(bests) && |r| == |gs|
    && (forall k :: 0 <= k < |r| ==> r[k].Some? && r[k].value in events)
    && (NoneThrows(bests) ==>
          && InBestOrder(r)
          && (forall k: int :: Filter(r, BestStartsAt(k)) == Filter(bests, BestStartsAt(k)))
          && Filter(r, UndatedBest()) == Filter(bests, UndatedBest()))
  }

  lemma BestsSelected(events: seq<Record>)
    requires forall e :: e in events ==> e.weight >= 0
    ensures Selection(events, Sort(Bests(GroupBy(events, VerbKey)), CompareBest).list)
  {
    var bests := Bests(GroupBy(events, VerbKey));
    BestOfEachGroup(events);
    if NoneThrows(bests) {
      BestSorted(bests);
    }
  }

  /** The index built and asked once, as for the headline of a news item. */
  method BestEvents(tableEvent: seq<Event>) returns (best: seq<Event?>)
    requires forall k :: 0 <= k < |tableEvent| ==> tableEvent[k].weight >= 0
    ensures Selection(Records(tableEvent), AllContents(best))
  {
    best := IndexedBest(tableEvent);
    BestsSelected(Records(tableEvent));
  }

  method IndexedBest(tableEvent: seq<Event>) returns (best: seq<Event?>)
    ensures AllContents(best) == Sort(Bests(GroupBy(Records(tableEvent), VerbKey)), CompareBest).list
    ensures Records(tableEvent) == old(Records(tableEvent))
  {
    ghost var data := Records(tableEvent);
    var groupList := new GroupList(tableEvent);
    assert AllContents(groupList.bestList) == [];
    EmptyLeft(Bests(GroupBy(data, VerbKey)));
    best := groupList.GetBest();
    assert forall k :: 0 <= k < |data| ==> tableEvent[k].Data() == data[k];
    RecordsAre(tableEvent, data);
  }
}
