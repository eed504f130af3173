/** `FinalTableEvent`: all events clustered, the groups put in order of time,
    and their subjects pruned. */
module FinalTables {
  import opened Sequences
  import opened Tokens
  import opened TimeSort
  import opened Events
  import opened Groups
  import opened GroupLaws
  import opened Clustering
  import opened GroupViews

  /** The comparator of `timeFlow`. Two undated groups each compare as the
      greater one, and an unknown start compares as equal to any dated group. */
  function CompareDates(a: seq<Time>, b: seq<Time>): Option<int>
  {
    if a == [] then Some(1)
    else if b == [] then Some(-1)
    else if Start(a[0]).None? || Start(b[0]).None? then Some(0)
    else Some(CompareKeys(Start(a[0]).value, Start(b[0]).value))
  }

  function CompareGroups(a: GroupState, b: GroupState): Option<int>
  {
    CompareDates(a.dates, b.dates)
  }

  function TimeFlow(gs: seq<GroupState>): seq<GroupState>
  {
    Sort(gs, CompareGroups).list
  }

  function WithSubjectPicked(ignore: seq<string>): GroupState -> GroupState
  {
    (g: GroupState) => g.(subject := PickSubject(g.subject, ignore))
  }

  function FinalTable(events: seq<Record>, ignore: seq<string>): seq<GroupState>
  {
    Map(WithSubjectPicked(ignore), TimeFlow(Cluster(events)))
  }

  // ----- the class -----

  lemma FirstFitIs(gs: seq<GroupState>, e: Record, k: nat)
    requires k < |gs| && Accepts(gs[k], e)
    requires forall i :: 0 <= i < k ==> !Accepts(gs[i], e)
    ensures FirstFit(gs, e) == k
  {
    var f := FirstFit(gs, e);
    assert f >= k;
  }

  /** Sorting the group objects by the dates read from them sorts their states. */
  lemma SortedStates(groups: seq<Group>, compare: (Group, Group) -> Option<int>)
    requires forall a, b :: a in groups && b in groups ==>
               compare(a, b) == CompareDates(a.normalizedTime, b.normalizedTime)
    ensures States(Sort(groups, compare).list) == TimeFlow(States(groups))
  {
    var states := map g | g in groups :: g.State();
    var state := (g: Group) => if g in states then states[g] else EMPTY_GROUP;
    StatesMap(state, groups, groups);
    forall i, j | 0 <= i < |groups| && 0 <= j < |groups| && i != j
      ensures SameOutcome(compare(groups[i], groups[j]), CompareGroups(state(groups[i]), state(groups[j])))
    {
    }
    SortMap(state, groups, compare, CompareGroups);
    SortPermutes(groups, compare);
    StatesMap(state, groups, Sort(groups, compare).list);
  }

  lemma StatesMap(state: Group -> GroupState, groups: seq<Group>, some: seq<Group>)
    requires forall g :: g in groups ==> state(g) == g.State()
    requires forall i :: 0 <= i < |some| ==> some[i] in groups
    ensures Map(state, some) == States(some)
  {
    forall i | 0 <= i < |some|
      ensures Map(state, some)[i] == States(some)[i]
    {
      MapIndex(state, some, i);
    }
    assert |Map(state, some)| == |States(some)|;
  }

  class FinalTableEvent {
    var listEvent: seq<Event>
    var listGroup: seq<Group>

    /** `tables` are the event lists of the `TableEvent`s, `ignore` the lines of
        the pronoun file. */
    constructor (tables: seq<seq<Event>>, ignore: seq<string>)
      ensures listEvent == Flatten(tables)
      ensures Distinct(listGroup)
      ensures States(listGroup) == FinalTable(Records(Flatten(tables)), ignore)
      ensures Bag(ItemLists(listGroup)) == multiset(Flatten(tables))
    {
      listEvent, listGroup := [], [];
      new;
      PutEventToList(tables);
      SyntheticEvent(ignore);
    }

    method PutEventToList(tables: seq<seq<Event>>)
      modifies this`listEvent
      ensures listEvent == old(listEvent) + Flatten(tables)
    {
      for i := 0 to |tables|
        invariant listEvent == old(listEvent) + Flatten(tables[..i])
      {
        FrontUpTo(tables, i);
        for j := 0 to |tables[i]|
          invariant listEvent == old(listEvent) + Flatten(tables[..i]) + tables[i][..j]
        {
          listEvent := listEvent + [tables[i][j]];
        }
      }
      assert tables[..|tables|] == tables;
    }

    method SyntheticEvent(ignore: seq<string>)
      requires listGroup == []
      modifies this`listGroup
      ensures Distinct(listGroup) && fresh(listGroup)
      ensures States(listGroup) == FinalTable(Records(listEvent), ignore)
      ensures Bag(ItemLists(listGroup)) == multiset(listEvent)
    {
      ClusterEvents();
      OrderAndPrune(ignore);
    }

    method OrderAndPrune(ignore: seq<string>)
      requires Distinct(listGroup)
      modifies this`listGroup, listGroup
      ensures Distinct(listGroup) && forall k :: 0 <= k < |listGroup| ==> listGroup[k] in old(listGroup)
      ensures States(listGroup) == Map(WithSubjectPicked(ignore), TimeFlow(old(States(listGroup))))
      ensures Bag(ItemLists(listGroup)) == Bag(old(ItemLists(listGroup)))
    {
      SortByTime();
      SubjectFilter(ignore);
    }

    method ClusterEvents()
      requires listGroup == []
      modifies this`listGroup
      ensures Distinct(listGroup) && fresh(listGroup)
      ensures Records(listEvent) == old(Records(listEvent))
      ensures States(listGroup) == Cluster(Records(listEvent))
      ensures Bag(ItemLists(listGroup)) == multiset(listEvent)
    {
      ghost var data, events := Records(listEvent), listEvent;
      for i := 0 to |listEvent|
        invariant listEvent == events && Records(events) == data
        invariant Distinct(listGroup) && fresh(listGroup)
        invariant States(listGroup) == Cluster(data[..i])
        invariant Bag(ItemLists(listGroup)) == multiset(events[..i])
      {
        TakeBag(events, i);
        assert events[i].Data() == data[i];
        PlaceNext(listEvent[i], data, i);
        assert forall k :: 0 <= k < |listGroup| ==> fresh(listGroup[k]);
        assert forall k :: 0 <= k < |data| ==> events[k].Data() == data[k];
      }
      TakeAll(data);
      TakeAll(events);
    }

    /** One round of the loop. */
    method PlaceNext(e: Event, ghost data: seq<Record>, ghost i: nat)
      requires Distinct(listGroup) && i < |data| && e.Data() == data[i]
      requires States(listGroup) == Cluster(data[..i])
      modifies this`listGroup, listGroup
      ensures Distinct(listGroup)
      ensures forall k :: 0 <= k < |listGroup| ==> listGroup[k] in old(listGroup) || fresh(listGroup[k])
      ensures States(listGroup) == Cluster(data[..i + 1])
      ensures Bag(ItemLists(listGroup)) == Bag(old(ItemLists(listGroup))) + multiset{e}
    {
      ClusterNext(data, i);
      PlaceEvent(e);
    }

    method PlaceEvent(e: Event)
      requires Distinct(listGroup)
      modifies this`listGroup, listGroup
      ensures Distinct(listGroup)
      ensures forall k :: 0 <= k < |listGroup| ==> listGroup[k] in old(listGroup) || fresh(listGroup[k])
      ensures States(listGroup) == Place(old(States(listGroup)), e.Data())
      ensures Bag(ItemLists(listGroup)) == Bag(old(ItemLists(listGroup))) + multiset{e}
    {
      var placed := BelongToAnyGroup(e);
      if !placed {
        FoundGroup(e);
      }
    }

    method FoundGroup(e: Event)
      requires Distinct(listGroup)
      modifies this`listGroup
      ensures Distinct(listGroup)
      ensures forall k :: 0 <= k < |listGroup| ==> listGroup[k] in old(listGroup) || fresh(listGroup[k])
      ensures States(listGroup) == old(States(listGroup)) + [Add(EMPTY_GROUP, e.Data())]
      ensures Bag(ItemLists(listGroup)) == Bag(old(ItemLists(listGroup))) + multiset{e}
    {
      ghost var lists := ItemLists(listGroup);
      listGroup := AddGroup(listGroup, e);
      BagSnoc(lists, [e]);
    }

    method BelongToAnyGroup(e: Event) returns (placed: bool)
      requires Distinct(listGroup)
      modifies listGroup
      ensures placed == (FirstFit(old(States(listGroup)), e.Data()) < |listGroup|)
      ensures placed ==> States(listGroup) == Place(old(States(listGroup)), e.Data())
      ensures placed ==> Bag(ItemLists(listGroup)) == Bag(old(ItemLists(listGroup))) + multiset{e}
      ensures !placed ==> States(listGroup) == old(States(listGroup)) && ItemLists(listGroup) == old(ItemLists(listGroup))
    {
      ghost var before := States(listGroup);
      var k := FindGroup(e);
      assert forall i :: 0 <= i < |before| ==> listGroup[i].State() == before[i];
      assert States(listGroup) == before;
      if k < |listGroup| {
        BagAdd(ItemLists(listGroup), k, e);
        AddTo(listGroup, k, e);
        return true;
      }
      return false;
    }

    /** Position of the first group that is the same as `e`, or the number of groups. */
    method FindGroup(e: Event) returns (k: nat)
      ensures k == FirstFit(States(listGroup), e.Data())
    {
      ghost var before, data := States(listGroup), e.Data();
      for i := 0 to |listGroup|
        invariant States(listGroup) == before && e.Data() == data
        invariant forall j :: 0 <= j < i ==> !Accepts(before[j], data)
      {
        assert listGroup[i].State() == before[i];
        var ok := listGroup[i].Same(e);
        assert forall j :: 0 <= j < |before| ==> listGroup[j].State() == before[j];
        if ok {
          assert States(listGroup) == before;
          FirstFitIs(before, data, i);
          return i;
        }
      }
      return |listGroup|;
    }

    method SortByTime()
      requires Distinct(listGroup)
      modifies this`listGroup
      ensures multiset(listGroup) == multiset(old(listGroup))
      ensures forall k :: 0 <= k < |listGroup| ==> listGroup[k] in old(listGroup)
      ensures Distinct(listGroup)
      ensures States(listGroup) == TimeFlow(old(States(listGroup)))
      ensures Bag(ItemLists(listGroup)) == Bag(old(ItemLists(listGroup)))
    {
      var sorted := SortGroups(listGroup);
      DistinctPermuted(listGroup, sorted);
      SetGroups(sorted);
    }

    method SortGroups(groups: seq<Group>) returns (sorted: seq<Group>)
      ensures multiset(sorted) == multiset(groups)
      ensures forall k :: 0 <= k < |sorted| ==> sorted[k] in groups
      ensures States(sorted) == TimeFlow(old(States(groups)))
      ensures Bag(ItemLists(sorted)) == Bag(old(ItemLists(groups)))
    {
      ghost var states, items := States(groups), ItemLists(groups);
      var dates := map g | g in groups :: g.normalizedTime;
      var compare := (a: Group, b: Group) =>
        CompareDates(if a in dates then dates[a] else [], if b in dates then dates[b] else []);
      var sorting := SortList(groups, compare);
      sorted := sorting.list;
      SortPermutes(groups, compare);
      assert forall k :: 0 <= k < |groups| ==> groups[k].State() == states[k] && groups[k].itemList == items[k];
      assert States(groups) == states && ItemLists(groups) == items;
      ItemsPermuted(groups, sorted);
      SortedStates(groups, compare);
    }

    method SetGroups(gs: seq<Group>)
      modifies this`listGroup
      ensures listGroup == gs && States(gs) == old(States(gs)) && ItemLists(gs) == old(ItemLists(gs))
    {
      listGroup := gs;
      assert forall i :: 0 <= i < |gs| ==> gs[i].State() == old(gs[i].State());
    }

    method SubjectFilter(ignore: seq<string>)
      requires Distinct(listGroup)
      modifies listGroup
      ensures States(listGroup) == Map(WithSubjectPicked(ignore), old(States(listGroup)))
      ensures ItemLists(listGroup) == old(ItemLists(listGroup))
    {
      for i := 0 to |listGroup|
        invariant ItemLists(listGroup) == old(ItemLists(listGroup))
        invariant forall k :: 0 <= k < |listGroup| ==>
          listGroup[k].State() == if k < i then WithSubjectPicked(ignore)(old(listGroup[k].State())) else old(listGroup[k].State())
      {
        listGroup[i].PickOneSubject(ignore);
      }
    }

    /** The subject line of every group, in order, as the table is printed. */
    method SubjectLines() returns (lines: seq<string>)
      requires forall k :: 0 <= k < |listGroup| ==> States(listGroup)[k].subject != []
      ensures |lines| == |listGroup|
      ensures forall k :: 0 <= k < |lines| ==>
                States(listGroup)[k].subject != [] && lines[k] == Text(States(listGroup)[k].subject[0])
    {
      ghost var states := States(listGroup);
      lines := [];
      for i := 0 to |listGroup|
        invariant |lines| == i && States(listGroup) == states
        invariant forall k :: 0 <= k < i ==> lines[k] == Text(states[k].subject[0])
      {
        assert listGroup[i].State() == states[i];
        var line := listGroup[i].PrintCTID();
        lines := lines + [line];
      }
    }
  }
}
