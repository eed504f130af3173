/** `GroupList`: groups found through a hash index from verb text to position,
    and the selection of each group's best event. */
module GroupLists {
  import opened Sequences
  import opened Tokens
  import opened TimeSort
  import opened Events
  import opened Groups
  import opened GroupLaws
  import opened GroupViews

  // ----- the index key -----

  function Separated(tokens: seq<Token>): string
  {
    if tokens == [] then ""
    else if |tokens| == 1 then tokens[0].shown
    else Separated(Front(tokens)) + ", " + Last(tokens).shown
  }

  /** The verb list's `toString()`. */
  function VerbKey(e: Record): string
  {
    "[" + Separated(e.skid) + "]"
  }

  // ----- when two verb lists have the same key -----

  /** The shown texts are put end to end with ", " between them. */
  lemma {:induction false} SeparatedConcat(a: seq<Token>, b: seq<Token>)
    requires a != [] && b != []
    ensures Separated(a + b) == Separated(a) + ", " + Separated(b)
    decreases |b|
  {
    FrontConcat(a, b);
    if |b| == 1 {
      assert Front(b) == [];
      EmptyRight(a);
    } else {
      SeparatedConcat(a, Front(b));
      var x, y, z := Separated(a) + ", ", Separated(Front(b)), ", " + Last(b).shown;
      assert x + y + ", " + Last(b).shown == x + (y + ", " + Last(b).shown);
    }
  }

  function Shown(t: Token): string
  {
    t.shown
  }

  /** No shown text contains a comma. */
  predicate CommaFree(tokens: seq<Token>)
  {
    forall i :: 0 <= i < |tokens| ==> ',' !in tokens[i].shown
  }

  /** What follows the first text. */
  function AfterFirst(tokens: seq<Token>): string
    requires tokens != []
  {
    if |tokens| == 1 then "" else ", " + Separated(tokens[1..])
  }

  lemma SeparatedFirst(tokens: seq<Token>)
    requires tokens != []
    ensures Separated(tokens) == tokens[0].shown + AfterFirst(tokens)
  {
    HeadTail(tokens);
    if |tokens| == 1 {
      EmptyRight(tokens[0].shown);
    } else {
      SeparatedConcat([tokens[0]], tokens[1..]);
      ConcatAssociative(tokens[0].shown, ", ", Separated(tokens[1..]));
    }
  }

  lemma CommaWithin(x: string, u: string, y: string, v: string)
    requires x + u == y + v && |x| < |y| && (u == "" || u[0] == ',')
    ensures ',' in y
  {
    assert (x + u)[|x|] == u[0] && (y + v)[|x|] == y[|x|];
  }

  lemma UpToComma(x: string, u: string, y: string, v: string)
    requires ',' !in x && ',' !in y && x + u == y + v
    requires (u == "" || u[0] == ',') && (v == "" || v[0] == ',')
    ensures x == y && u == v
  {
    if |x| < |y| {
      CommaWithin(x, u, y, v);
    } else if |y| < |x| {
      CommaWithin(y, v, x, u);
    }
    var s := x + u;
    assert s[..|x|] == x && s[|x|..] == u && s[..|y|] == y && s[|y|..] == v;
  }

  lemma {:induction false} SeparatedAgree(a: seq<Token>, b: seq<Token>)
    requires CommaFree(a) && CommaFree(b) && a != [] && b != []
    requires Separated(a) == Separated(b)
    ensures Map(Shown, a) == Map(Shown, b)
    decreases |a|
  {
    SeparatedFirst(a);
    SeparatedFirst(b);
    UpToComma(a[0].shown, AfterFirst(a), b[0].shown, AfterFirst(b));
    if |a| > 1 && |b| > 1 {
      assert Separated(a[1..]) == AfterFirst(a)[2..] && Separated(b[1..]) == AfterFirst(b)[2..];
      SeparatedAgree(a[1..], b[1..]);
    }
    MapHead(a);
    MapHead(b);
  }

  lemma MapHead(tokens: seq<Token>)
    requires tokens != []
    ensures Map(Shown, tokens) == [tokens[0].shown] + Map(Shown, tokens[1..])
  {
    HeadTail(tokens);
    MapConcat(Shown, [tokens[0]], tokens[1..]);
    assert Map(Shown, [tokens[0]]) == [tokens[0].shown];
  }

  lemma {:induction false} SeparatedByTexts(a: seq<Token>, b: seq<Token>)
    requires Map(Shown, a) == Map(Shown, b)
    ensures Separated(a) == Separated(b)
    decreases |a|
  {
    assert |Map(Shown, a)| == |Map(Shown, b)|;
    if a != [] {
      MapFront(Shown, a);
      MapFront(Shown, b);
      assert Last(Map(Shown, a)) == Last(a).shown && Last(Map(Shown, b)) == Last(b).shown;
      FrontSnoc(Map(Shown, Front(a)), Last(a).shown);
      FrontSnoc(Map(Shown, Front(b)), Last(b).shown);
      SeparatedByTexts(Front(a), Front(b));
    }
  }

  /** Two non-empty verb lists of any length, free of commas, have the same key
      exactly when they show the same texts in the same order. */
  lemma KeyExact(a: Record, b: Record)
    requires CommaFree(a.skid) && CommaFree(b.skid) && a.skid != [] && b.skid != []
    ensures VerbKey(a) == VerbKey(b) <==> Map(Shown, a.skid) == Map(Shown, b.skid)
  {
    assert Separated(a.skid) == VerbKey(a)[1..|VerbKey(a)| - 1];
    assert Separated(b.skid) == VerbKey(b)[1..|VerbKey(b)| - 1];
    if VerbKey(a) == VerbKey(b) {
      SeparatedAgree(a.skid, b.skid);
    }
    if Map(Shown, a.skid) == Map(Shown, b.skid) {
      SeparatedByTexts(a.skid, b.skid);
    }
  }

  /** A comma in a text can make different verb lists share a key. */
  lemma CommaCollides(x: Token, y: Token, z: Token)
    requires z.shown == x.shown + ", " + y.shown
    ensures Separated([x, y]) == Separated([z])
  {
    assert [x, y] == [x] + [y];
    SeparatedConcat([x], [y]);
  }

  // ----- the simple group-by -----

  function SameKey<K(==)>(key: Record -> K, k: K): Record -> bool
  {
    (e: Record) => key(e) == k
  }

  /** The group of all the events with key `k`, in order. */
  function KeyGroup<K(==)>(events: seq<Record>, key: Record -> K, k: K): GroupState
  {
    Gather(Filter(events, SameKey(key, k)))
  }

  /** The group of all the events with the key of `first`. */
  function GroupOfFirst<K(==)>(events: seq<Record>, key: Record -> K): Record -> GroupState
  {
    (first: Record) => KeyGroup(events, key, key(first))
  }

  /** One group for each key, in order of the keys' first occurrences. */
  function GroupBy<K(==)>(events: seq<Record>, key: Record -> K): seq<GroupState>
  {
    Map(GroupOfFirst(events, key), Dedup(events, key))
  }

  /** `index` sends exactly the keys seen to their ranks of first occurrence. */
  ghost predicate IsIndex<K(!new)>(index: map<K, nat>, events: seq<Record>, key: Record -> K)
  {
    && (forall k :: k in index <==> HasKey(events, key, k))
    && (forall k :: k in index ==> index[k] < |Dedup(events, key)| && key(Dedup(events, key)[index[k]]) == k)
    && (forall i :: 0 <= i < |Dedup(events, key)| ==>
          key(Dedup(events, key)[i]) in index && index[key(Dedup(events, key)[i])] == i)
  }

  lemma KeyGroupNext<K>(events: seq<Record>, key: Record -> K, e: Record, k: K)
    ensures KeyGroup(events + [e], key, k) ==
            if key(e) == k then Add(KeyGroup(events, key, k), e) else KeyGroup(events, key, k)
  {
    FrontSnoc(events, e);
    FrontSnoc(Filter(events, SameKey(key, k)), e);
  }

  /** An event with a key already seen joins that key's group. */
  lemma GroupByOld<K>(events: seq<Record>, key: Record -> K, e: Record, p: nat)
    requires p < |Dedup(events, key)| && key(Dedup(events, key)[p]) == key(e)
    ensures Dedup(events + [e], key) == Dedup(events, key)
    ensures GroupBy(events + [e], key) == GroupBy(events, key)[p := Add(GroupBy(events, key)[p], e)]
  {
    FrontSnoc(events, e);
    DedupKeys(events, key);
    var firsts := Dedup(events, key);
    forall i | 0 <= i < |firsts|
      ensures KeyGroup(events + [e], key, key(firsts[i])) == GroupBy(events, key)[p := Add(GroupBy(events, key)[p], e)][i]
    {
      KeyGroupNext(events, key, e, key(firsts[i]));
      assert i != p ==> key(firsts[i]) != key(firsts[p]);
    }
  }

  lemma DedupNew<K>(events: seq<Record>, key: Record -> K, e: Record)
    requires !HasKey(events, key, key(e))
    ensures Dedup(events + [e], key) == Dedup(events, key) + [e]
  {
    FrontSnoc(events, e);
    AddNewKeys([], events, key, key(e));
  }

  lemma OtherGroupsStay<K>(events: seq<Record>, key: Record -> K, e: Record)
    requires !HasKey(events, key, key(e))
    ensures Map(GroupOfFirst(events + [e], key), Dedup(events, key)) == GroupBy(events, key)
  {
    var firsts := Dedup(events, key);
    forall i | 0 <= i < |firsts|
      ensures GroupOfFirst(events + [e], key)(firsts[i]) == GroupOfFirst(events, key)(firsts[i])
    {
      KeyGroupNext(events, key, e, key(firsts[i]));
      AddNewKeys([], events, key, key(firsts[i]));
      HasKeyIn(firsts, key, firsts[i]);
    }
    MapAgree(GroupOfFirst(events + [e], key), GroupOfFirst(events, key), firsts);
  }

  /** An event with a new key founds the last group. */
  lemma GroupByNew<K>(events: seq<Record>, key: Record -> K, e: Record)
    requires !HasKey(events, key, key(e))
    ensures Dedup(events + [e], key) == Dedup(events, key) + [e]
    ensures GroupBy(events + [e], key) == GroupBy(events, key) + [Add(EMPTY_GROUP, e)]
  {
    DedupNew(events, key, e);
    OtherGroupsStay(events, key, e);
    MapSnoc(GroupOfFirst(events + [e], key), Dedup(events, key), e);
    FilterNone(events, key, key(e));
    KeyGroupNext(events, key, e, key(e));
  }

  lemma FilterNone<K>(events: seq<Record>, key: Record -> K, k: K)
    requires !HasKey(events, key, k)
    ensures KeyGroup(events, key, k) == EMPTY_GROUP
  {
    forall x | x in events
      ensures key(x) != k
    {
      HasKeyIn(events, key, x);
    }
    FilterNothing(events, SameKey(key, k));
  }

  lemma IndexOld<K(!new)>(index: map<K, nat>, events: seq<Record>, key: Record -> K, e: Record)
    requires IsIndex(index, events, key) && key(e) in index
    ensures IsIndex(index, events + [e], key)
    ensures GroupBy(events + [e], key) ==
            GroupBy(events, key)[index[key(e)] := Add(GroupBy(events, key)[index[key(e)]], e)]
  {
    GroupByOld(events, key, e, index[key(e)]);
    forall k
      ensures HasKey(events + [e], key, k) <==> HasKey(events, key, k)
    {
      HasKeyConcat(events, [e], key, k);
      assert HasKey([e], key, k) <==> key([e][0]) == k;
    }
  }

  lemma IndexNew<K(!new)>(index: map<K, nat>, events: seq<Record>, key: Record -> K, e: Record)
    requires IsIndex(index, events, key) && key(e) !in index
    ensures IsIndex(index[key(e) := |Dedup(events, key)|], events + [e], key)
  {
    GroupByNew(events, key, e);
    forall k
      ensures HasKey(events + [e], key, k) <==> HasKey(events, key, k) || k == key(e)
    {
      HasKeyConcat(events, [e], key, k);
      assert HasKey([e], key, k) <==> key([e][0]) == k;
    }
  }

  // ----- best events -----

  /** The best event of a group: the first of greatest weight, if any is above -1. */
  function BestRecord(g: GroupState): Option<Record>
  {
    var best := Best(g.items);
    if best.Some? then Some(g.items[best.value]) else None
  }

  /** The comparator of `GroupList.timeFlow`. It throws on a missing event, and
      on two dated events one of which has no interval start. */
  function CompareBest(a: Option<Record>, b: Option<Record>): Option<int>
  {
    if a.None? then None
    else if a.value.dates == [] then Some(1)
    else if b.None? then None
    else if b.value.dates == [] then Some(-1)
    else if IntervalStart(a.value.dates[0]).None? || IntervalStart(b.value.dates[0]).None? then None
    else Some(CompareKeys(IntervalStart(a.value.dates[0]).value, IntervalStart(b.value.dates[0]).value))
  }

  function Bests(gs: seq<GroupState>): seq<Option<Record>>
  {
    Map(BestRecord, gs)
  }

  ghost function Contents(e: Event?): Option<Record>
    reads e
  {
    if e == null then None else Some(e.Data())
  }

  ghost function AllContents(events: seq<Event?>): seq<Option<Record>>
    reads events
  {
    seq(|events|, i requires 0 <= i < |events| reads events => Contents(events[i]))
  }

  lemma SortedContents(events: seq<Event?>, compare: (Event?, Event?) -> Option<int>)
    requires forall i, j :: 0 <= i < |events| && 0 <= j < |events| ==>
               compare(events[i], events[j]) == CompareBest(Contents(events[i]), Contents(events[j]))
    ensures AllContents(Sort(events, compare).list) == Sort(AllContents(events), CompareBest).list
  {
    var table := map e | e in events :: Contents(e);
    var contents := (e: Event?) => if e in table then table[e] else None;
    ContentsMap(contents, events, events);
    forall i, j | 0 <= i < |events| && 0 <= j < |events| && i != j
      ensures SameOutcome(compare(events[i], events[j]), CompareBest(contents(events[i]), contents(events[j])))
    {
    }
    SortMap(contents, events, compare, CompareBest);
    SortPermutes(events, compare);
    ContentsMap(contents, events, Sort(events, compare).list);
  }

  lemma ContentsMap(contents: Event? -> Option<Record>, events: seq<Event?>, some: seq<Event?>)
    requires forall e :: e in events ==> contents(e) == Contents(e)
    requires forall i :: 0 <= i < |some| ==> some[i] in events
    ensures Map(contents, some) == AllContents(some)
  {
    forall i | 0 <= i < |some|
      ensures Map(contents, some)[i] == AllContents(some)[i]
    {
      MapIndex(contents, some, i);
    }
    assert |Map(contents, some)| == |AllContents(some)|;
  }

  class GroupList {
    var groupList: seq<Group>
    var bestList: seq<Event?>
    var eventIndex: map<string, nat>

    /** `tableEvent` is the event list of the `TableEvent`. */
    constructor (tableEvent: seq<Event>)
      ensures Distinct(groupList) && bestList == []
      ensures States(groupList) == GroupBy(Records(tableEvent), VerbKey)
      ensures IsIndex(eventIndex, Records(tableEvent), VerbKey)
    {
      groupList, bestList, eventIndex := [], [], map[];
      new;
      ghost var data := Records(tableEvent);
      for i := 0 to |tableEvent|
        invariant Distinct(groupList) && fresh(groupList) && bestList == []
        invariant Records(tableEvent) == data
        invariant States(groupList) == GroupBy(data[..i], VerbKey)
        invariant IsIndex(eventIndex, data[..i], VerbKey)
      {
        assert tableEvent[i].Data() == data[i];
        assert data[..i + 1] == data[..i] + [data[i]];
        IndexEvent(tableEvent[i], data[..i]);
        assert forall k :: 0 <= k < |groupList| ==> fresh(groupList[k]);
        assert Records(tableEvent) == data;
      }
      assert data[..|tableEvent|] == data;
    }

    /** One round of the constructor's loop; `seen` are the events of the rounds before. */
    method IndexEvent(e: Event, ghost seen: seq<Record>)
      requires Distinct(groupList)
      requires States(groupList) == GroupBy(seen, VerbKey) && IsIndex(eventIndex, seen, VerbKey)
      modifies this`groupList, this`eventIndex, groupList
      ensures Distinct(groupList)
      ensures forall k :: 0 <= k < |groupList| ==> groupList[k] in old(groupList) || fresh(groupList[k])
      ensures States(groupList) == GroupBy(seen + [e.Data()], VerbKey)
      ensures IsIndex(eventIndex, seen + [e.Data()], VerbKey)
    {
      var verb := VerbKey(e.Data());
      if verb in eventIndex {
        JoinIndexed(verb, e, seen);
      } else {
        FoundIndexed(verb, e, seen);
      }
    }

    method JoinIndexed(verb: string, e: Event, ghost seen: seq<Record>)
      requires Distinct(groupList) && verb == VerbKey(e.Data()) && verb in eventIndex
      requires States(groupList) == GroupBy(seen, VerbKey) && IsIndex(eventIndex, seen, VerbKey)
      modifies groupList
      ensures States(groupList) == GroupBy(seen + [e.Data()], VerbKey)
      ensures IsIndex(eventIndex, seen + [e.Data()], VerbKey)
    {
      IndexOld(eventIndex, seen, VerbKey, e.Data());
      var index := eventIndex[verb];
      AddTo(groupList, index, e);
    }

    method FoundIndexed(verb: string, e: Event, ghost seen: seq<Record>)
      requires Distinct(groupList) && verb == VerbKey(e.Data()) && verb !in eventIndex
      requires States(groupList) == GroupBy(seen, VerbKey) && IsIndex(eventIndex, seen, VerbKey)
      modifies this`groupList, this`eventIndex
      ensures Distinct(groupList)
      ensures forall k :: 0 <= k < |groupList| ==> groupList[k] in old(groupList) || fresh(groupList[k])
      ensures States(groupList) == GroupBy(seen + [e.Data()], VerbKey)
      ensures IsIndex(eventIndex, seen + [e.Data()], VerbKey)
    {
      GroupByNew(seen, VerbKey, e.Data());
      IndexNew(eventIndex, seen, VerbKey, e.Data());
      ghost var index, rank := eventIndex, |States(groupList)|;
      FoundGroup(e);
      assert |groupList| == |States(groupList)| == rank + 1;
      IndexLast(verb);
      assert eventIndex == index[verb := rank];
    }

    method IndexLast(verb: string)
      requires groupList != []
      modifies this`eventIndex
      ensures eventIndex == old(eventIndex)[verb := |groupList| - 1]
      ensures States(groupList) == old(States(groupList))
    {
      ghost var states := States(groupList);
      eventIndex := eventIndex[verb := |groupList| - 1];
      assert forall k :: 0 <= k < |groupList| ==> groupList[k].State() == states[k];
    }

    method FoundGroup(e: Event)
      requires Distinct(groupList)
      modifies this`groupList
      ensures Distinct(groupList)
      ensures forall k :: 0 <= k < |groupList| ==> groupList[k] in old(groupList) || fresh(groupList[k])
      ensures States(groupList) == old(States(groupList)) + [Add(EMPTY_GROUP, e.Data())]
    {
      groupList := AddGroup(groupList, e);
    }

    /** Adds the best event of every group to the best list and sorts all of it. */
    method GetBest() returns (best: seq<Event?>)
      modifies this`bestList
      ensures best == bestList
      ensures AllContents(bestList) == Sort(old(AllContents(bestList)) + Bests(old(States(groupList))), CompareBest).list
    {
      CollectBest();
      SortByTime();
      best := bestList;
    }

    method CollectBest()
      modifies this`bestList
      ensures AllContents(bestList) == old(AllContents(bestList)) + Bests(old(States(groupList)))
    {
      ghost var before, gs := AllContents(bestList), States(groupList);
      for i := 0 to |groupList|
        invariant AllContents(bestList) == before + Bests(gs[..i])
        invariant States(groupList) == gs
      {
        assert groupList[i].State() == gs[i];
        AppendBest(groupList[i]);
        assert forall k :: 0 <= k < |groupList| ==> groupList[k].State() == gs[k];
        assert Bests(gs[..i + 1]) == Bests(gs[..i]) + [BestRecord(gs[i])];
      }
      assert gs[..|groupList|] == gs;
    }

    method AppendBest(group: Group)
      modifies this`bestList
      ensures AllContents(bestList) == old(AllContents(bestList)) + [BestRecord(old(group.State()))]
    {
      ghost var before := AllContents(bestList);
      var bestEvent := group.GetBest();
      bestList := bestList + [bestEvent];
      assert forall k :: 0 <= k < |before| ==> Contents(bestList[k]) == before[k];
    }

    method SortByTime()
      modifies this`bestList
      ensures AllContents(bestList) == Sort(old(AllContents(bestList)), CompareBest).list
    {
      ghost var before := AllContents(bestList);
      var sorted := SortEvents(bestList);
      ghost var after := AllContents(sorted);
      bestList := sorted;
      assert forall k :: 0 <= k < |sorted| ==> Contents(sorted[k]) == after[k];
    }

    method SortEvents(events: seq<Event?>) returns (sorted: seq<Event?>)
      ensures AllContents(sorted) == Sort(AllContents(events), CompareBest).list
    {
      var contents := map e | e in events :: if e == null then None else Some(e.Data());
      var compare := (a: Event?, b: Event?) =>
        CompareBest(if a in contents then contents[a] else None, if b in contents then contents[b] else None);
      var sorting := SortList(events, compare);
      SortedContents(events, compare);
      sorted := sorting.list;
    }
  }
}
