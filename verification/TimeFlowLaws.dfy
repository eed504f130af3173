/** What the final table guarantees: the order of its groups, and that ordering
    and pruning lose nothing the clustering established. */
module TimeFlowLaws {
  import opened Sequences
  import opened Tokens
  import opened TimeSort
  import opened ComparatorContract
  import opened Events
  import opened Groups
  import opened GroupLaws
  import opened Clustering
  import opened FinalTables

  /** The group has a date with a known start. */
  predicate Known(g: GroupState)
  {
    g.dates != [] && Start(g.dates[0]).Some?
  }

  /** The group has a date whose start is unknown. */
  predicate Stray(g: GroupState)
  {
    g.dates != [] && Start(g.dates[0]).None?
  }

  function StartOf(g: GroupState): int
    requires Known(g)
  {
    Start(g.dates[0]).value
  }

  /** Dated groups before undated ones, known starts ascending. */
  ghost predicate InDateOrder(gs: seq<GroupState>)
  {
    forall i, j :: 0 <= i < j < |gs| ==>
      && (gs[j].dates != [] ==> gs[i].dates != [])
      && (Known(gs[i]) && Known(gs[j]) ==> StartOf(gs[i]) <= StartOf(gs[j]))
  }

  lemma DateOrderIsOrdered(gs: seq<GroupState>)
    ensures InDateOrder(gs) <==> Ordered(gs, CompareGroups)
  {
    if Ordered(gs, CompareGroups) {
      forall i, j | 0 <= i < j < |gs|
        ensures gs[j].dates != [] ==> gs[i].dates != []
        ensures Known(gs[i]) && Known(gs[j]) ==> StartOf(gs[i]) <= StartOf(gs[j])
      {
        assert !Below(CompareGroups, gs[j], gs[i]);
      }
    }
  }

  /** No stray start among groups of different known starts. */
  ghost predicate Comparable(gs: seq<GroupState>)
  {
    forall x, y, n :: x in gs && y in gs && n in gs && Known(x) && Known(y) && Stray(n) ==> StartOf(x) == StartOf(y)
  }

  lemma ComparableLawful(gs: seq<GroupState>)
    requires Comparable(gs)
    ensures Lawful(gs, CompareGroups)
  {
  }

  function StartsAtKey(k: int): GroupState -> bool
  {
    (g: GroupState) => Known(g) && StartOf(g) == k
  }

  function Undated(): GroupState -> bool
  {
    (g: GroupState) => g.dates == []
  }

  ghost predicate AllKnownOrUndated(gs: seq<GroupState>)
  {
    forall g :: g in gs ==> g.dates == [] || Known(g)
  }

  /** With every start known, `timeFlow` is the stable sort by date: the same
      groups, dated ones first and ascending, undated ones last, and groups with
      equal starts and undated groups each in their old order, although two
      undated groups compare as greater than each other. */
  lemma TimeFlowSorts(gs: seq<GroupState>)
    requires AllKnownOrUndated(gs)
    ensures multiset(TimeFlow(gs)) == multiset(gs)
    ensures InDateOrder(TimeFlow(gs))
    ensures forall k: int :: Filter(TimeFlow(gs), StartsAtKey(k)) == Filter(gs, StartsAtKey(k))
    ensures Filter(TimeFlow(gs), Undated()) == Filter(gs, Undated())
  {
    ComparableLawful(gs);
    SortStable(gs, CompareGroups);
    DateOrderIsOrdered(TimeFlow(gs));
    forall k: int
      ensures Filter(TimeFlow(gs), StartsAtKey(k)) == Filter(gs, StartsAtKey(k))
    {
      SortKeepsClass(gs, CompareGroups, StartsAtKey(k));
    }
    SortKeepsClass(gs, CompareGroups, Undated());
  }

  /** Groups that are all undated keep their order. */
  lemma TimeFlowUndated(gs: seq<GroupState>)
    requires forall g :: g in gs ==> g.dates == []
    ensures TimeFlow(gs) == gs
  {
    ComparableLawful(gs);
    assert Ordered(gs, CompareGroups) by {
      forall i, j | 0 <= i < j < |gs|
        ensures !Below(CompareGroups, gs[j], gs[i])
      {
        assert gs[j] in gs;
      }
    }
    SortKeepsOrdered(gs, CompareGroups);
  }

  // ----- exactly when the order is right -----

  /** The first three groups count as one ascending run and keep their order. */
  lemma StrayRunKept(s: seq<GroupState>)
    requires |s| >= 3 && s[0].dates != [] && Stray(s[1]) && s[2].dates != []
    ensures IsSubsequence(s[..3], TimeFlow(s))
  {
    assert CompareGroups(s[1], s[0]) == Some(0) && CompareGroups(s[2], s[1]) == Some(0);
    var end := RunEnd(s, 3, false, CompareGroups);
    assert RunEnd(s, 2, false, CompareGroups) == end;
    if end.Some? {
      SortKeepsPrefix(s, end.value, CompareGroups);
      TakeSubsequence(s[..end.value], 3);
      TakeTake(s, end.value, 3);
      SubsequenceTransitive(s[..3], s[..end.value], TimeFlow(s));
    } else {
      TakeSubsequence(s, 3);
    }
  }

  /** A stray group between a later and an earlier one stops them from being
      compared: whatever follows, they stay in the wrong order. */
  lemma StrayShields(y: GroupState, n: GroupState, x: GroupState, rest: seq<GroupState>)
    requires Known(x) && Known(y) && Stray(n) && StartOf(x) < StartOf(y)
    ensures !InDateOrder(TimeFlow([y, n, x] + rest))
  {
    var s := [y, n, x] + rest;
    var r := TimeFlow(s);
    StrayRunKept(s);
    assert s[..3] == [y, n, x];
    var pos :| SelectedAt([y, n, x], r, pos);
    assert r[pos[0]] == [y, n, x][0] && r[pos[2]] == [y, n, x][2];
  }

  /** `timeFlow` orders every arrangement of the groups exactly when no group
      of unknown start stands among groups of different known starts. */
  lemma TimeFlowExact(gs: seq<GroupState>)
    ensures Comparable(gs) <==> forall t :: multiset(t) == multiset(gs) ==> InDateOrder(TimeFlow(t))
  {
    if Comparable(gs) {
      ComparableLawful(gs);
      forall t | multiset(t) == multiset(gs)
        ensures InDateOrder(TimeFlow(t))
      {
        LawfulPermuted(gs, t, CompareGroups);
        SortStable(t, CompareGroups);
        DateOrderIsOrdered(TimeFlow(t));
      }
    } else {
      var x, y, n :| x in gs && y in gs && n in gs && Known(x) && Known(y) && Stray(n) && StartOf(x) != StartOf(y);
      var lo, hi := if StartOf(x) < StartOf(y) then x else y, if StartOf(x) < StartOf(y) then y else x;
      var rest := ThreeOut(gs, hi, n, lo);
      StrayShields(hi, n, lo, rest);
    }
  }

  // ----- exactly when the comparator meets its contract -----

  ghost predicate AtMostOneUndated(gs: seq<GroupState>)
  {
    forall i, j :: 0 <= i < j < |gs| ==> gs[i].dates != [] || gs[j].dates != []
  }

  lemma ComparableContract(gs: seq<GroupState>)
    requires Comparable(gs) && AtMostOneUndated(gs)
    ensures MeetsContract(gs, CompareGroups)
  {
    forall i, j | 0 <= i < |gs| && 0 <= j < |gs| && i != j
      ensures CompareGroups(gs[i], gs[j]).Some?
      ensures Sign(CompareGroups(gs[i], gs[j])) == -Sign(CompareGroups(gs[j], gs[i]))
    {
      OneUndated(gs, i, j);
      GroupsReversed(gs[i], gs[j]);
    }
    forall i, j, k | 0 <= i < |gs| && 0 <= j < |gs| && 0 <= k < |gs| && i != j && j != k && i != k
      ensures Sign(CompareGroups(gs[i], gs[j])) == 1 && Sign(CompareGroups(gs[j], gs[k])) == 1
              ==> Sign(CompareGroups(gs[i], gs[k])) == 1
      ensures Sign(CompareGroups(gs[i], gs[j])) == 0
              ==> Sign(CompareGroups(gs[i], gs[k])) == Sign(CompareGroups(gs[j], gs[k]))
    {
      OneUndated(gs, i, j);
      OneUndated(gs, j, k);
      OneUndated(gs, i, k);
      ComparableTriple(gs[i], gs[j], gs[k], gs);
    }
  }

  lemma GroupsReversed(a: GroupState, b: GroupState)
    requires a.dates != [] || b.dates != []
    ensures CompareGroups(a, b).Some? && Sign(CompareGroups(a, b)) == -Sign(CompareGroups(b, a))
  {
  }

  lemma OneUndated(gs: seq<GroupState>, i: nat, j: nat)
    requires AtMostOneUndated(gs) && i < |gs| && j < |gs| && i != j
    ensures gs[i].dates != [] || gs[j].dates != []
  {
  }

  lemma ComparableTriple(a: GroupState, b: GroupState, c: GroupState, gs: seq<GroupState>)
    requires Comparable(gs) && a in gs && b in gs && c in gs
    requires a.dates != [] || b.dates != []
    requires b.dates != [] || c.dates != []
    requires a.dates != [] || c.dates != []
    ensures Sign(CompareGroups(a, b)) == 1 && Sign(CompareGroups(b, c)) == 1 ==> Sign(CompareGroups(a, c)) == 1
    ensures Sign(CompareGroups(a, b)) == 0 ==> Sign(CompareGroups(a, c)) == Sign(CompareGroups(b, c))
  {
    if Known(a) && Known(c) && Stray(b) {
      assert StartOf(a) == StartOf(c);
    }
    if Known(b) && Known(c) && Stray(a) {
      assert StartOf(b) == StartOf(c);
    }
  }

  lemma ContractComparable(gs: seq<GroupState>)
    requires MeetsContract(gs, CompareGroups)
    ensures Comparable(gs)
  {
    forall x, y, n | x in gs && y in gs && n in gs && Known(x) && Known(y) && Stray(n)
      ensures StartOf(x) == StartOf(y)
    {
      if StartOf(x) != StartOf(y) {
        ContractTriple(gs, CompareGroups, n, x, y);
      }
    }
  }

  /** `timeFlow`'s comparator meets the contract of a comparator on a list of
      groups exactly when at most one of them is undated and no stray stands
      among different known starts. */
  lemma GroupsContract(gs: seq<GroupState>)
    ensures MeetsContract(gs, CompareGroups) <==> Comparable(gs) && AtMostOneUndated(gs)
  {
    if Comparable(gs) && AtMostOneUndated(gs) {
      ComparableContract(gs);
    }
    if MeetsContract(gs, CompareGroups) {
      ContractComparable(gs);
      forall i, j | 0 <= i < j < |gs|
        ensures gs[i].dates != [] || gs[j].dates != []
      {
        assert Sign(CompareGroups(gs[i], gs[j])) == -Sign(CompareGroups(gs[j], gs[i]));
      }
    }
  }

  /** Under that condition every stable sort of the clustering, whatever
      comparisons it makes and acts on, gives this table. */
  lemma AnyStableSort(events: seq<Record>, ignore: seq<string>, sorted: seq<GroupState>)
    requires Comparable(Cluster(events)) && AtMostOneUndated(Cluster(events))
    requires StablySorted(sorted, Cluster(events), CompareGroups)
    ensures Map(WithSubjectPicked(ignore), sorted) == FinalTable(events, ignore)
  {
    GroupsContract(Cluster(events));
    ContractSortExact(Cluster(events), sorted, CompareGroups);
  }

  // ----- what the whole table keeps -----

  lemma HeldPicked(gs: seq<GroupState>, ignore: seq<string>)
    ensures Map(ItemsOf, Map(WithSubjectPicked(ignore), gs)) == Map(ItemsOf, gs)
  {
    var picked := Map(WithSubjectPicked(ignore), gs);
    forall i | 0 <= i < |gs|
      ensures Map(ItemsOf, picked)[i] == Map(ItemsOf, gs)[i]
    {
      MapIndex(WithSubjectPicked(ignore), gs, i);
      MapIndex(ItemsOf, picked, i);
      MapIndex(ItemsOf, gs, i);
    }
    assert |Map(ItemsOf, picked)| == |Map(ItemsOf, gs)|;
  }

  /** Each row of the final table is one group of the clustering, its subject pruned. */
  lemma FinalRow(events: seq<Record>, ignore: seq<string>, k: nat)
    requires k < |FinalTable(events, ignore)|
    ensures exists i :: 0 <= i < |Cluster(events)| && FinalTable(events, ignore)[k] == WithSubjectPicked(ignore)(Cluster(events)[i])
  {
    SortPermutes(Cluster(events), CompareGroups);
    assert TimeFlow(Cluster(events))[k] in Cluster(events);
  }

  /** The subject lists of the items, in order. */
  function SubjectLists(items: seq<Record>): seq<seq<Token>>
  {
    seq(|items|, i requires 0 <= i < |items| => items[i].ctid)
  }

  lemma PickedRow(g: GroupState, ignore: seq<string>) returns (pos: seq<nat>)
    requires g == Gather(g.items)
    ensures var row := WithSubjectPicked(ignore)(g);
            && row.items == g.items && row == g.(subject := row.subject)
            && PrunedAt(row.subject, Flatten(SubjectLists(g.items)), ignore, pos)
  {
    GatherSubjects(g.items);
    AllOfFlat(g.items, Subjects);
    assert SubjectLists(g.items) == Map(Subjects, g.items);
    pos := PickedAt(g.subject, ignore);
  }

  /** A row is the group of its members in all but the subject, and its subject is
      what pruning leaves of its members' subjects put end to end. */
  lemma RowExact(events: seq<Record>, ignore: seq<string>, k: nat) returns (pos: seq<nat>)
    requires k < |FinalTable(events, ignore)|
    ensures var row := FinalTable(events, ignore)[k];
            && row == Gather(row.items).(subject := row.subject)
            && PrunedAt(row.subject, Flatten(SubjectLists(row.items)), ignore, pos)
  {
    FinalRow(events, ignore, k);
    var i :| 0 <= i < |Cluster(events)| && FinalTable(events, ignore)[k] == WithSubjectPicked(ignore)(Cluster(events)[i]);
    ClusterGrown(events);
    pos := PickedRow(Cluster(events)[i], ignore);
  }

  /** The rows are the groups of the clustering: the same member lists, rearranged. */
  lemma RowsAreGroups(events: seq<Record>, ignore: seq<string>)
    ensures multiset(Map(ItemsOf, FinalTable(events, ignore))) == multiset(Map(ItemsOf, Cluster(events)))
  {
    SortPermutes(Cluster(events), CompareGroups);
    HeldPicked(TimeFlow(Cluster(events)), ignore);
    MapPermuted(ItemsOf, TimeFlow(Cluster(events)), Cluster(events));
  }

  /** Ordering and pruning keep conservation: the table holds exactly the events
      given, each row in order of arrival, and its weights count them. */
  lemma FinalTableConserves(events: seq<Record>, ignore: seq<string>)
    ensures |FinalTable(events, ignore)| == |Cluster(events)|
    ensures Held(FinalTable(events, ignore)) == multiset(events)
    ensures forall k :: 0 <= k < |FinalTable(events, ignore)| ==>
              var row := FinalTable(events, ignore)[k];
              IsSubsequence(row.items, events) && Grown(row.items) && row.weight == |row.items|
    ensures TotalWeight(FinalTable(events, ignore)) == |events|
  {
    var gs, table := Cluster(events), FinalTable(events, ignore);
    ClusterConserves(events);
    ClusterGrown(events);
    SortPermutes(gs, CompareGroups);
    HeldPermuted(gs, TimeFlow(gs));
    HeldPicked(TimeFlow(gs), ignore);
    forall k | 0 <= k < |table|
      ensures IsSubsequence(table[k].items, events) && Grown(table[k].items) && table[k].weight == |table[k].items|
    {
      FinalRow(events, ignore, k);
      var i :| 0 <= i < |gs| && table[k] == WithSubjectPicked(ignore)(gs[i]);
      ClusterMembers(events, i);
    }
    WeightsCountHeld(table);
    assert |multiset(events)| == |events|;
  }

  lemma PickedOrder(gs: seq<GroupState>, ignore: seq<string>)
    ensures InDateOrder(Map(WithSubjectPicked(ignore), gs)) <==> InDateOrder(gs)
  {
    forall i | 0 <= i < |gs|
      ensures Map(WithSubjectPicked(ignore), gs)[i].dates == gs[i].dates
    {
    }
  }

  /** When no stray group stands among different known starts, the rows of the
      table stand in order of date, undated rows last in founding order. */
  lemma FinalTableInOrder(events: seq<Record>, ignore: seq<string>)
    requires Comparable(Cluster(events))
    ensures InDateOrder(FinalTable(events, ignore))
    ensures Filter(FinalTable(events, ignore), Undated())
            == Map(WithSubjectPicked(ignore), Filter(Cluster(events), Undated()))
  {
    var gs := Cluster(events);
    ComparableLawful(gs);
    SortStable(gs, CompareGroups);
    DateOrderIsOrdered(TimeFlow(gs));
    PickedOrder(TimeFlow(gs), ignore);
    SortKeepsClass(gs, CompareGroups, Undated());
    FilterPicked(TimeFlow(gs), ignore);
  }

  lemma {:induction false} FilterPicked(gs: seq<GroupState>, ignore: seq<string>)
    ensures Filter(Map(WithSubjectPicked(ignore), gs), Undated()) == Map(WithSubjectPicked(ignore), Filter(gs, Undated()))
  {
    if gs != [] {
      FilterPicked(Front(gs), ignore);
      assert Front(Map(WithSubjectPicked(ignore), gs)) == Map(WithSubjectPicked(ignore), Front(gs));
    }
  }

  // ----- exactly when the order is right, on events -----

  /** No two events share a verb. */
  ghost predicate Apart(events: seq<Record>)
  {
    forall i, j :: 0 <= i < |events| && 0 <= j < |events| && i != j ==> !SharesVerb(events[i], events[j])
  }

  function Single(e: Record): GroupState
  {
    Add(EMPTY_GROUP, e)
  }

  lemma SingleRejects(e: Record, x: Record)
    requires !SharesVerb(x, e)
    ensures !Accepts(Single(e), x)
  {
    MeetAddNew(x.skid, [], e.skid);
  }

  lemma ApartFits(events: seq<Record>, e: Record)
    requires forall i :: 0 <= i < |events| ==> !SharesVerb(e, events[i])
    ensures Place(Map(Single, events), e) == Map(Single, events) + [Single(e)]
  {
    var gs := Map(Single, events);
    forall i | 0 <= i < |gs|
      ensures !Accepts(gs[i], e)
    {
      MapIndex(Single, events, i);
      SingleRejects(events[i], e);
    }
  }

  /** Events that share no verbs each found a group. */
  lemma {:induction false} ApartCluster(events: seq<Record>)
    requires Apart(events)
    ensures Cluster(events) == Map(Single, events)
  {
    if events != [] {
      var front, e := Front(events), Last(events);
      assert forall i :: 0 <= i < |front| ==> front[i] == events[i];
      ApartCluster(front);
      ApartFits(front, e);
      MapFront(Single, events);
    }
  }

  lemma ApartPermuted(events: seq<Record>, t: seq<Record>)
    requires Apart(events) && multiset(events) == multiset(t)
    ensures Apart(t)
  {
    SameElements(events, t);
    forall i, j | 0 <= i < |t| && 0 <= j < |t| && i != j
      ensures !SharesVerb(t[i], t[j])
    {
      if t[i] == t[j] {
        var p, q := TwiceInBoth(t, events, if i < j then i else j, if i < j then j else i);
        assert !SharesVerb(events[p], events[q]);
      } else {
        assert t[i] in events && t[j] in events;
        var p :| 0 <= p < |events| && events[p] == t[i];
        var q :| 0 <= q < |events| && events[q] == t[j];
        assert !SharesVerb(events[p], events[q]);
      }
    }
  }

  /** The event's first date has a known start. */
  predicate LeadKnown(e: Record)
  {
    e.dates != [] && Start(e.dates[0]).Some?
  }

  /** The event's first date has no known start. */
  predicate LeadStray(e: Record)
  {
    e.dates != [] && Start(e.dates[0]).None?
  }

  function LeadStart(e: Record): int
    requires LeadKnown(e)
  {
    Start(e.dates[0]).value
  }

  ghost predicate ComparableEvents(events: seq<Record>)
  {
    forall x, y, n :: x in events && y in events && n in events && LeadKnown(x) && LeadKnown(y) && LeadStray(n)
      ==> LeadStart(x) == LeadStart(y)
  }

  /** A dated group has the first date of one of the events. */
  lemma LeadOf(events: seq<Record>, g: GroupState) returns (e: Record)
    requires g in Cluster(events) && g.dates != []
    ensures e in events && (LeadKnown(e) <==> Known(g)) && (LeadStray(e) <==> Stray(g))
    ensures Known(g) ==> LeadStart(e) == StartOf(g)
  {
    var k :| 0 <= k < |Cluster(events)| && Cluster(events)[k] == g;
    ClusterGrown(events);
    ClusterMembers(events, k);
    GatherDate(g.items);
    e := g.items[FirstDated(g.items).value];
    assert e in g.items;
  }

  lemma ClusterComparable(events: seq<Record>)
    requires ComparableEvents(events)
    ensures Comparable(Cluster(events))
  {
    forall x, y, n | x in Cluster(events) && y in Cluster(events) && n in Cluster(events) && Known(x) && Known(y) && Stray(n)
      ensures StartOf(x) == StartOf(y)
    {
      LeadsComparable(events, x, y, n);
    }
  }

  lemma LeadsComparable(events: seq<Record>, x: GroupState, y: GroupState, n: GroupState)
    requires ComparableEvents(events)
    requires x in Cluster(events) && y in Cluster(events) && n in Cluster(events) && Known(x) && Known(y) && Stray(n)
    ensures StartOf(x) == StartOf(y)
  {
    var e := LeadOf(events, x);
    var f := LeadOf(events, y);
    var m := LeadOf(events, n);
  }

  lemma SingleDates(e: Record)
    ensures Known(Single(e)) <==> LeadKnown(e)
    ensures Stray(Single(e)) <==> LeadStray(e)
    ensures LeadKnown(e) ==> StartOf(Single(e)) == LeadStart(e)
  {
  }

  /** A run that goes wrong: events that share no verbs, the first one later than
      the third, and between them one whose first date has no known start. */
  lemma StrayRun(y: Record, n: Record, x: Record, rest: seq<Record>, ignore: seq<string>)
    requires Apart([y, n, x] + rest)
    requires LeadKnown(x) && LeadKnown(y) && LeadStray(n) && LeadStart(x) < LeadStart(y)
    ensures !InDateOrder(FinalTable([y, n, x] + rest, ignore))
  {
    ApartCluster([y, n, x] + rest);
    MapConcat(Single, [y, n, x], rest);
    assert Map(Single, [y, n, x]) == [Single(y), Single(n), Single(x)];
    SingleDates(y);
    SingleDates(n);
    SingleDates(x);
    StrayShields(Single(y), Single(n), Single(x), Map(Single, rest));
    PickedOrder(TimeFlow(Cluster([y, n, x] + rest)), ignore);
  }

  /** When no event whose first date is unknown stands among events of different
      first dates, the table is in order of date, whatever order they arrive in. */
  lemma ArrangedInOrder(events: seq<Record>, t: seq<Record>, ignore: seq<string>)
    requires ComparableEvents(events) && multiset(t) == multiset(events)
    ensures InDateOrder(FinalTable(t, ignore))
  {
    SameElements(events, t);
    ClusterComparable(t);
    FinalTableInOrder(t, ignore);
  }

  /** Such an event among them, some order of arrival makes the run go wrong. */
  lemma StrayArrival(events: seq<Record>, x: Record, y: Record, n: Record, ignore: seq<string>) returns (t: seq<Record>)
    requires Apart(events) && x in events && y in events && n in events
    requires LeadKnown(x) && LeadKnown(y) && LeadStray(n) && LeadStart(x) < LeadStart(y)
    ensures multiset(t) == multiset(events) && !InDateOrder(FinalTable(t, ignore))
  {
    var rest := ThreeOut(events, y, n, x);
    t := [y, n, x] + rest;
    ApartPermuted(events, t);
    StrayRun(y, n, x, rest, ignore);
  }

  /** ... and for events that share no verbs only then. */
  lemma FinalTableExact(events: seq<Record>, ignore: seq<string>)
    requires Apart(events)
    ensures ComparableEvents(events) <==>
            forall t :: multiset(t) == multiset(events) ==> InDateOrder(FinalTable(t, ignore))
  {
    if ComparableEvents(events) {
      forall t | multiset(t) == multiset(events)
        ensures InDateOrder(FinalTable(t, ignore))
      {
        ArrangedInOrder(events, t, ignore);
      }
    } else {
      var x, y, n :| x in events && y in events && n in events && LeadKnown(x) && LeadKnown(y) && LeadStray(n)
                     && LeadStart(x) != LeadStart(y);
      if LeadStart(x) < LeadStart(y) {
        var t := StrayArrival(events, x, y, n, ignore);
      } else {
        var t := StrayArrival(events, y, x, n, ignore);
      }
    }
  }

  /** When every event has a subject, every row of the table has one to print. */
  lemma SubjectsPresent(events: seq<Record>, ignore: seq<string>)
    requires forall e :: e in events ==> e.ctid != []
    ensures forall k :: 0 <= k < |FinalTable(events, ignore)| ==> FinalTable(events, ignore)[k].subject != []
  {
    forall k | 0 <= k < |FinalTable(events, ignore)|
      ensures FinalTable(events, ignore)[k].subject != []
    {
      FinalRow(events, ignore, k);
      var i :| 0 <= i < |Cluster(events)| && FinalTable(events, ignore)[k] == WithSubjectPicked(ignore)(Cluster(events)[i]);
      var g := Cluster(events)[i];
      ClusterGrown(events);
      ClusterMembers(events, i);
      GatherSubjects(g.items);
      AllOfEmpty(g.items, Subjects);
      assert g.items[0] in g.items && Subjects(g.items[0]) != [];
      PickSubjectExact(g.subject, ignore);
    }
  }

  // ----- printing an event's time line changes no clustering -----

  function Printed(e: Record): Record
  {
    e.(tgid := Dedup(e.tgid, Text))
  }

  /** The group as it would be had its members been printed first. */
  function PrintedGroup(g: GroupState): GroupState
  {
    g.(items := Map(Printed, g.items))
  }

  lemma {:induction false} FirstFitPrinted(gs: seq<GroupState>, e: Record)
    ensures FirstFit(Map(PrintedGroup, gs), Printed(e)) == FirstFit(gs, e)
  {
    if gs != [] {
      assert Map(PrintedGroup, gs)[0] == PrintedGroup(gs[0]);
      assert Accepts(PrintedGroup(gs[0]), Printed(e)) == Accepts(gs[0], e);
      FirstFitPrinted(gs[1..], e);
      assert Map(PrintedGroup, gs)[1..] == Map(PrintedGroup, gs[1..]);
    }
  }

  lemma AddPrinted(g: GroupState, e: Record)
    ensures Add(PrintedGroup(g), Printed(e)) == PrintedGroup(Add(g, e))
  {
    assert Map(Printed, g.items) + [Printed(e)] == Map(Printed, g.items + [e]);
  }

  lemma PlacePrinted(gs: seq<GroupState>, e: Record)
    ensures Place(Map(PrintedGroup, gs), Printed(e)) == Map(PrintedGroup, Place(gs, e))
  {
    var k := FirstFit(gs, e);
    FirstFitPrinted(gs, e);
    if k < |gs| {
      AddPrinted(gs[k], e);
    } else {
      AddPrinted(EMPTY_GROUP, e);
      assert PrintedGroup(EMPTY_GROUP) == EMPTY_GROUP;
    }
  }

  /** Printing drops duplicate time tokens from the events, and the clustering
      of the events it leaves is the same clustering. */
  lemma {:induction false} PrintingKeepsClusters(events: seq<Record>)
    ensures Cluster(Map(Printed, events)) == Map(PrintedGroup, Cluster(events))
  {
    if events != [] {
      PrintingKeepsClusters(Front(events));
      assert Front(Map(Printed, events)) == Map(Printed, Front(events));
      PlacePrinted(Cluster(Front(events)), Last(events));
    }
  }
}
