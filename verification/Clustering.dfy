/** The first-fit clustering of a list of events, as a function on values, and
    what every run of it guarantees. */
module Clustering {
  import opened Sequences
  import opened Tokens
  import opened Events
  import opened Groups
  import opened GroupLaws

  /** Index of the first group that accepts `e`, or the number of groups. */
  function FirstFit(gs: seq<GroupState>, e: Record): (k: nat)
    ensures k <= |gs|
    ensures k < |gs| ==> Accepts(gs[k], e)
    ensures forall i :: 0 <= i < k ==> !Accepts(gs[i], e)
  {
    if gs == [] || Accepts(gs[0], e) then 0 else 1 + FirstFit(gs[1..], e)
  }

  /** One event: into the first group that accepts it, else into a new last group. */
  function Place(gs: seq<GroupState>, e: Record): seq<GroupState>
  {
    var k := FirstFit(gs, e);
    if k < |gs| then gs[k := Add(gs[k], e)] else gs + [Add(EMPTY_GROUP, e)]
  }

  function Cluster(events: seq<Record>): seq<GroupState>
  {
    if events == [] then [] else Place(Cluster(Front(events)), Last(events))
  }

  lemma ClusterNext(events: seq<Record>, i: nat)
    requires i < |events|
    ensures Cluster(events[..i + 1]) == Place(Cluster(events[..i]), events[i])
  {
    FrontUpTo(events, i);
  }

  // ----- every group is grown through its own acceptance test -----

  ghost predicate WellGrown(g: GroupState)
  {
    g == Gather(g.items) && Grown(g.items)
  }

  lemma GatherNext(items: seq<Record>, e: Record)
    ensures Gather(items + [e]) == Add(Gather(items), e)
    ensures Gather(items + [e]).items == items + [e]
  {
    FrontSnoc(items, e);
    GatherItems(items + [e]);
  }

  lemma GrownNext(items: seq<Record>, e: Record)
    requires Grown(items) && Accepts(Gather(items), e)
    ensures Grown(items + [e])
  {
    forall j | 0 < j < |items + [e]|
      ensures Accepts(Gather((items + [e])[..j]), (items + [e])[j])
    {
      SnocTake(items, e, j);
      if j == |items| {
        TakeAll(items);
      }
    }
  }

  lemma GrowNext(g: GroupState, e: Record)
    requires WellGrown(g) && Accepts(g, e)
    ensures WellGrown(Add(g, e))
  {
    GatherNext(g.items, e);
    GrownNext(g.items, e);
  }

  lemma NewGroupGrown(e: Record)
    ensures WellGrown(Add(EMPTY_GROUP, e))
  {
    GatherNext([], e);
    assert [] + [e] == [e];
  }

  ghost predicate AllGrown(gs: seq<GroupState>)
  {
    forall k :: 0 <= k < |gs| ==> WellGrown(gs[k])
  }

  lemma GrownUpdate(gs: seq<GroupState>, k: nat, g: GroupState)
    requires AllGrown(gs) && k < |gs| && WellGrown(g)
    ensures AllGrown(gs[k := g])
  {
  }

  lemma GrownSnoc(gs: seq<GroupState>, g: GroupState)
    requires AllGrown(gs) && WellGrown(g)
    ensures AllGrown(gs + [g])
  {
  }

  lemma PlaceGrown(gs: seq<GroupState>, e: Record)
    requires AllGrown(gs)
    ensures AllGrown(Place(gs, e))
  {
    var f := FirstFit(gs, e);
    if f < |gs| {
      GrowNext(gs[f], e);
      GrownUpdate(gs, f, Add(gs[f], e));
    } else {
      NewGroupGrown(e);
      GrownSnoc(gs, Add(EMPTY_GROUP, e));
    }
  }

  /** Every group of every run is the group of its own members, each of which
      was accepted by the group of the members before it. */
  lemma {:induction false} ClusterGrown(events: seq<Record>)
    ensures AllGrown(Cluster(events))
  {
    if events != [] {
      ClusterGrown(Front(events));
      PlaceGrown(Cluster(Front(events)), Last(events));
    }
  }

  /** Two members of the same group are linked through members of that group,
      each sharing a verb with the next. */
  lemma ClusterConnected(events: seq<Record>, k: nat, i: nat, j: nat) returns (path: seq<nat>)
    requires k < |Cluster(events)|
    requires i < |Cluster(events)[k].items| && j < |Cluster(events)[k].items|
    ensures VerbChain(Cluster(events)[k].items, path) && path[0] == i && Last(path) == j
  {
    ClusterGrown(events);
    path := GroupConnected(Cluster(events)[k].items, i, j);
  }

  lemma {:induction false} ChainKeepsColour<C>(items: seq<Record>, path: seq<nat>, colour: Record -> C)
    requires VerbChain(items, path)
    requires forall a, b :: a in items && b in items && SharesVerb(a, b) ==> colour(a) == colour(b)
    ensures colour(items[path[0]]) == colour(items[Last(path)])
  {
    if |path| > 1 {
      var front := Front(path);
      assert VerbChain(items, front);
      ChainKeepsColour(items, front, colour);
      assert SharesVerb(items[path[|path| - 2]], items[path[|path| - 1]]);
    }
  }

  /** Events in different components of the shared-verb graph never share a
      group: any labelling that is constant along shared verbs is constant on
      each group. */
  lemma ComponentsNeverMix<C>(events: seq<Record>, colour: Record -> C, k: nat, i: nat, j: nat)
    requires forall a, b :: a in events && b in events && SharesVerb(a, b) ==> colour(a) == colour(b)
    requires k < |Cluster(events)|
    requires i < |Cluster(events)[k].items| && j < |Cluster(events)[k].items|
    ensures colour(Cluster(events)[k].items[i]) == colour(Cluster(events)[k].items[j])
  {
    var path := ClusterConnected(events, k, i, j);
    ClusterMembers(events, k);
    var items := Cluster(events)[k].items;
    assert forall a :: a in items ==> a in events;
    ChainKeepsColour(items, path, colour);
  }

  /** The group's date, once it has one, starts when some date of each dated
      member starts; when its start is unknown only one member is dated. */
  lemma ClusterCommonDate(events: seq<Record>, k: nat, j: nat)
    requires k < |Cluster(events)| && j < |Cluster(events)[k].items| && Cluster(events)[k].items[j].dates != []
    ensures var g := Cluster(events)[k];
            && |g.dates| == 1
            && (forall i :: BeginsAt(g.dates[0], i) ==> SomeBegins(g.items[j].dates, i))
            && (Start(g.dates[0]).None? ==> forall i :: 0 <= i < |g.items| && g.items[i].dates != [] ==> i == j)
  {
    ClusterGrown(events);
    CommonDate(Cluster(events)[k].items, j);
  }

  /** A located member that follows a located one shares a place with an earlier member. */
  lemma ClusterPlaceLink(events: seq<Record>, k: nat, i: nat, j: nat)
    requires k < |Cluster(events)| && i < j < |Cluster(events)[k].items|
    requires Cluster(events)[k].items[i].ncid != [] && Cluster(events)[k].items[j].ncid != []
    ensures exists h :: 0 <= h < j && Meet(Cluster(events)[k].items[j].ncid, Cluster(events)[k].items[h].ncid)
  {
    ClusterGrown(events);
    PlaceLink(Cluster(events)[k].items, j);
  }

  /** Group `k` as it stood after `p` events, and what it was given since. */
  lemma {:induction false} GroupLater(events: seq<Record>, p: nat, k: nat) returns (more: seq<Record>)
    requires p <= |events| && k < |Cluster(events[..p])|
    ensures k < |Cluster(events)| && Cluster(events)[k] == AddAll(Cluster(events[..p])[k], more)
    decreases |events|
  {
    if p == |events| {
      assert events[..p] == events;
      more := [];
    } else {
      var front, e := Front(events), Last(events);
      assert front[..p] == events[..p];
      more := GroupLater(front, p, k);
      if FirstFit(Cluster(front), e) == k {
        FrontSnoc(more, e);
        more := more + [e];
      }
    }
  }

  /** A group that has both a place and a date only ever accepts more: an event
      it accepts at some point of a run it accepts at every later point. And the
      date of a group never changes once it is there. */
  lemma SettledForGood(events: seq<Record>, p: nat, k: nat, e: Record)
    requires p <= |events| && k < |Cluster(events[..p])|
    ensures k < |Cluster(events)|
    ensures var g := Cluster(events[..p])[k];
            && (g.dates != [] ==> Cluster(events)[k].dates == g.dates)
            && (g.places != [] && g.dates != [] && Accepts(g, e) ==> Accepts(Cluster(events)[k], e))
  {
    var g := Cluster(events[..p])[k];
    var more := GroupLater(events, p, k);
    if g.dates != [] {
      DateKept(g, more);
      if g.places != [] && Accepts(g, e) {
        SettledKept(g, more, e);
      }
    }
  }

  // ----- the history of a run -----

  /** For each event the index of the group it went to. */
  function Homes(events: seq<Record>): seq<nat>
  {
    if events == [] then []
    else Homes(Front(events)) + [FirstFit(Cluster(Front(events)), Last(events))]
  }

  /** The events with home `k`, in order. */
  function Members(events: seq<Record>, homes: seq<nat>, k: nat): seq<Record>
    requires |homes| == |events|
    decreases |events|
  {
    if events == [] then []
    else Members(Front(events), Front(homes), k) + (if Last(homes) == k then [Last(events)] else [])
  }

  /** One more than the greatest home. */
  function Founded(homes: seq<nat>): (n: nat)
    ensures forall p :: 0 <= p < |homes| ==> homes[p] < n
  {
    if homes == [] then 0
    else if Last(homes) < Founded(Front(homes)) then Founded(Front(homes)) else Last(homes) + 1
  }

  function GroupsOf(events: seq<Record>, homes: seq<nat>): seq<GroupState>
    requires |homes| == |events|
  {
    seq(Founded(homes), k requires 0 <= k => Gather(Members(events, homes, k)))
  }

  /** At its arrival event `p` went to the lowest group that accepted it, where a
      group is judged only by the earlier events sent to it; or it founded the
      next group because no group then existing accepted it. */
  ghost predicate FitsAt(events: seq<Record>, homes: seq<nat>, p: nat)
    requires |homes| == |events| && p < |events|
  {
    && homes[p] <= Founded(homes[..p])
    && (homes[p] < Founded(homes[..p]) ==> Accepts(Gather(Members(events[..p], homes[..p], homes[p])), events[p]))
    && forall k: nat :: k < homes[p] ==> !Accepts(Gather(Members(events[..p], homes[..p], k)), events[p])
  }

  ghost predicate IsFirstFit(events: seq<Record>, homes: seq<nat>)
  {
    |homes| == |events| && forall p: nat :: p < |events| ==> FitsAt(events, homes, p)
  }

  lemma {:induction false} NoMembers(events: seq<Record>, homes: seq<nat>, k: nat)
    requires |homes| == |events| && Founded(homes) <= k
    ensures Members(events, homes, k) == []
    decreases |events|
  {
    if events != [] {
      NoMembers(Front(events), Front(homes), k);
    }
  }

  lemma MembersNext(events: seq<Record>, homes: seq<nat>, e: Record, k: nat, i: nat)
    requires |homes| == |events|
    ensures Members(events + [e], homes + [k], i) == Members(events, homes, i) + (if i == k then [e] else [])
  {
    FrontSnoc(events, e);
    FrontSnoc(homes, k);
  }

  lemma FoundedNext(homes: seq<nat>, k: nat)
    requires k <= Founded(homes)
    ensures Founded(homes + [k]) == if k < Founded(homes) then Founded(homes) else k + 1
  {
    assert Front(homes + [k]) == homes;
  }

  lemma GatherMembersNext(events: seq<Record>, homes: seq<nat>, e: Record, k: nat, i: nat)
    requires |homes| == |events|
    ensures Gather(Members(events + [e], homes + [k], i)) ==
            if i == k then Add(Gather(Members(events, homes, i)), e) else Gather(Members(events, homes, i))
  {
    MembersNext(events, homes, e, k, i);
    GatherNext(Members(events, homes, i), e);
    assert Members(events, homes, i) + [] == Members(events, homes, i);
  }

  /** Sending one more event home is placing it. */
  lemma GroupsOfNext(events: seq<Record>, homes: seq<nat>, e: Record, k: nat)
    requires |homes| == |events| && k == FirstFit(GroupsOf(events, homes), e)
    ensures GroupsOf(events + [e], homes + [k]) == Place(GroupsOf(events, homes), e)
  {
    var gs := GroupsOf(events, homes);
    FoundedNext(homes, k);
    NoMembers(events, homes, |gs|);
    forall i | 0 <= i < |Place(gs, e)|
      ensures Gather(Members(events + [e], homes + [k], i)) == Place(gs, e)[i]
    {
      GatherMembersNext(events, homes, e, k, i);
    }
  }

  /** The run is the first-fit assignment: its homes fit, and its groups are
      exactly the groups those homes describe, in founding order. */
  lemma {:induction false} ClusterHistory(events: seq<Record>)
    ensures IsFirstFit(events, Homes(events))
    ensures Cluster(events) == GroupsOf(events, Homes(events))
  {
    if events != [] {
      var front, e := Front(events), Last(events);
      ClusterHistory(front);
      var homes, k := Homes(front), FirstFit(Cluster(front), e);
      FrontLast(events);
      GroupsOfNext(front, homes, e, k);
      FitsNext(front, homes, e, k);
    }
  }

  lemma FitsPrefix(events: seq<Record>, homes: seq<nat>, p: nat, n: nat)
    requires |homes| == |events| && p < n <= |events|
    ensures FitsAt(events, homes, p) <==> FitsAt(events[..n], homes[..n], p)
  {
    assert events[..n][..p] == events[..p] && homes[..n][..p] == homes[..p];
  }

  lemma FitsFront(events: seq<Record>, homes: seq<nat>)
    requires IsFirstFit(events, homes) && events != []
    ensures IsFirstFit(Front(events), Front(homes))
  {
    var n := |events| - 1;
    forall p: nat | p < n
      ensures FitsAt(events[..n], homes[..n], p)
    {
      FitsPrefix(events, homes, p, n);
    }
  }

  lemma FitsNext(events: seq<Record>, homes: seq<nat>, e: Record, k: nat)
    requires IsFirstFit(events, homes)
    ensures IsFirstFit(events + [e], homes + [k]) <==> k == FirstFit(GroupsOf(events, homes), e)
  {
    var es, hs, gs, n := events + [e], homes + [k], GroupsOf(events, homes), |events|;
    assert es[..n] == events && hs[..n] == homes;
    forall p: nat | p < n
      ensures FitsAt(es, hs, p)
    {
      FitsPrefix(es, hs, p, n);
    }
    assert forall i :: 0 <= i < |gs| ==> gs[i] == Gather(Members(es[..n], hs[..n], i));
    if FitsAt(es, hs, n) {
      assert forall i :: 0 <= i < k ==> !Accepts(gs[i], e);
    }
    if k == FirstFit(gs, e) {
      forall i: nat | i < k
        ensures !Accepts(Gather(Members(es[..n], hs[..n], i)), e)
      {
        assert !Accepts(gs[i], e);
      }
      assert FitsAt(es, hs, n);
    }
  }

  lemma LastFits(events: seq<Record>, homes: seq<nat>)
    requires IsFirstFit(events, homes) && events != []
    ensures Last(homes) == FirstFit(GroupsOf(Front(events), Front(homes)), Last(events))
  {
    FitsFront(events, homes);
    FrontLast(events);
    FrontLast(homes);
    FitsNext(Front(events), Front(homes), Last(events), Last(homes));
  }

  lemma ClusterGroups(events: seq<Record>)
    ensures |Homes(events)| == |events| && Cluster(events) == GroupsOf(events, Homes(events))
  {
    ClusterHistory(events);
  }

  /** There is only one assignment that fits. */
  lemma {:induction false} FirstFitUnique(events: seq<Record>, homes: seq<nat>)
    requires IsFirstFit(events, homes)
    ensures homes == Homes(events)
    decreases |events|
  {
    if events != [] {
      FitsFront(events, homes);
      FirstFitUnique(Front(events), Front(homes));
      LastFits(events, homes);
      ClusterGroups(Front(events));
      FrontLast(homes);
    }
  }

  /** Every group index up to the number of groups is some event's home. */
  lemma {:induction false} EveryGroupFounded(events: seq<Record>, homes: seq<nat>, k: nat)
    requires IsFirstFit(events, homes) && k < Founded(homes)
    ensures exists q :: 0 <= q < |homes| && homes[q] == k
    decreases |events|
  {
    var n := |events| - 1;
    assert homes != [];
    if Last(homes) == k {
      assert homes[n] == k;
    } else {
      assert FitsAt(events, homes, n);
      assert k < Founded(Front(homes));
      FitsFront(events, homes);
      EveryGroupFounded(Front(events), Front(homes), k);
      var q :| 0 <= q < |Front(homes)| && Front(homes)[q] == k;
      assert homes[q] == k;
    }
  }

  /** Event `p` is the first one sent to group `k`. */
  ghost predicate FounderAt(homes: seq<nat>, k: nat, p: nat)
  {
    p < |homes| && homes[p] == k && forall q :: 0 <= q < p ==> homes[q] != k
  }

  lemma FitsTaken(events: seq<Record>, homes: seq<nat>, n: nat)
    requires IsFirstFit(events, homes) && n <= |events|
    ensures IsFirstFit(events[..n], homes[..n])
  {
    forall p: nat | p < n
      ensures FitsAt(events[..n], homes[..n], p)
    {
      FitsPrefix(events, homes, p, n);
    }
  }

  /** Groups stand in the order of their founders. */
  lemma FoundersInOrder(events: seq<Record>, homes: seq<nat>, a: nat, b: nat, p: nat, q: nat)
    requires IsFirstFit(events, homes)
    requires a < b && FounderAt(homes, a, p) && FounderAt(homes, b, q)
    ensures p < q
  {
    assert FitsAt(events, homes, q);
    FitsTaken(events, homes, q);
    EveryGroupFounded(events[..q], homes[..q], a);
    var r :| 0 <= r < q && homes[..q][r] == a;
    assert homes[r] == a;
  }

  /** A founder was rejected by every group there was. */
  lemma FounderRejected(events: seq<Record>, homes: seq<nat>, k: nat, p: nat, i: nat)
    requires IsFirstFit(events, homes) && FounderAt(homes, k, p) && i < Founded(homes[..p])
    ensures k == Founded(homes[..p])
    ensures !Accepts(Gather(Members(events[..p], homes[..p], i)), events[p])
  {
    assert FitsAt(events, homes, p);
    if k < Founded(homes[..p]) {
      FitsTaken(events, homes, p);
      EveryGroupFounded(events[..p], homes[..p], k);
    }
  }

  // ----- conservation -----

  function ItemsOf(g: GroupState): seq<Record>
  {
    g.items
  }

  /** All the events the groups hold. */
  function Held(gs: seq<GroupState>): multiset<Record>
  {
    Bag(Map(ItemsOf, gs))
  }

  function TotalWeight(gs: seq<GroupState>): int
  {
    if gs == [] then 0 else TotalWeight(Front(gs)) + Last(gs).weight
  }

  lemma PlaceHeld(gs: seq<GroupState>, e: Record)
    ensures Held(Place(gs, e)) == Held(gs) + multiset{e}
  {
    var k := FirstFit(gs, e);
    if k < |gs| {
      MapUpdate(ItemsOf, gs, k, Add(gs[k], e));
      MapIndex(ItemsOf, gs, k);
      assert ItemsOf(gs[k]) == gs[k].items;
      BagAdd(Map(ItemsOf, gs), k, e);
    } else {
      MapSnoc(ItemsOf, gs, Add(EMPTY_GROUP, e));
      BagSnoc(Map(ItemsOf, gs), [e]);
      EmptyLeft([e]);
    }
  }

  lemma {:induction false} ClusterHolds(events: seq<Record>)
    ensures Held(Cluster(events)) == multiset(events)
  {
    if events != [] {
      ClusterHolds(Front(events));
      PlaceHeld(Cluster(Front(events)), Last(events));
      FrontLast(events);
      SnocBag(Front(events), Last(events));
    }
  }

  lemma {:induction false} WeightsCountHeld(gs: seq<GroupState>)
    requires forall k :: 0 <= k < |gs| ==> gs[k].weight == |gs[k].items|
    ensures TotalWeight(gs) == |Held(gs)|
  {
    if gs != [] {
      WeightsCountHeld(Front(gs));
      MapFront(ItemsOf, gs);
      BagSnoc(Map(ItemsOf, Front(gs)), Last(gs).items);
      assert |multiset(Last(gs).items)| == |Last(gs).items|;
    }
  }

  /** Nothing is lost or doubled: the groups hold exactly the events given, and
      their weights count them. */
  lemma ClusterConserves(events: seq<Record>)
    ensures Held(Cluster(events)) == multiset(events)
    ensures forall k :: 0 <= k < |Cluster(events)| ==> Cluster(events)[k].weight == |Cluster(events)[k].items|
    ensures TotalWeight(Cluster(events)) == |events|
  {
    var gs := Cluster(events);
    ClusterHolds(events);
    ClusterGrown(events);
    forall k | 0 <= k < |gs|
      ensures gs[k].weight == |gs[k].items|
    {
      GatherBooks(gs[k].items);
    }
    WeightsCountHeld(gs);
    assert |multiset(events)| == |events|;
  }

  /** Each group lists its events in the order they came. */
  lemma ClusterMembers(events: seq<Record>, k: nat)
    requires k < |Cluster(events)|
    ensures IsSubsequence(Cluster(events)[k].items, events)
    ensures forall a :: a in Cluster(events)[k].items ==> a in events
  {
    ClusterHistory(events);
    GatherItems(Members(events, Homes(events), k));
    MembersSubsequence(events, Homes(events), k);
    var pos :| SelectedAt(Cluster(events)[k].items, events, pos);
  }

  lemma {:induction false} MembersSubsequence(events: seq<Record>, homes: seq<nat>, k: nat)
    requires |homes| == |events|
    ensures IsSubsequence(Members(events, homes, k), events)
    decreases |events|
  {
    if events == [] {
      SubsequenceEmpty(events);
    } else {
      var last := [Last(events)];
      var more := if Last(homes) == k then last else [];
      MembersSubsequence(Front(events), Front(homes), k);
      SubsequenceSelf(last);
      SubsequenceEmpty(last);
      SubsequenceConcat(Members(Front(events), Front(homes), k), more, Front(events), last);
      assert events == Front(events) + last;
    }
  }

  /** Reordering groups changes nothing about what they hold. */
  lemma HeldPermuted(gs: seq<GroupState>, hs: seq<GroupState>)
    requires multiset(gs) == multiset(hs)
    ensures Held(gs) == Held(hs)
  {
    MapPermuted(ItemsOf, gs, hs);
    BagPermuted(Map(ItemsOf, gs), Map(ItemsOf, hs));
  }
}
