/** Lists of group objects seen as lists of their states, and the two updates
    both clients make to such a list. */
module GroupViews {
  import opened Sequences
  import opened Events
  import opened Groups

  ghost function MembersOf(gs: seq<Group>): set<Event>
    reads gs
  {
    set g, e | g in gs && e in g.itemList :: e
  }

  ghost function States(gs: seq<Group>): seq<GroupState>
    reads gs, MembersOf(gs)
  {
    seq(|gs|, i requires 0 <= i < |gs| reads gs, MembersOf(gs) =>
      assert forall e :: e in gs[i].itemList ==> gs[i] in gs && e in MembersOf(gs);
      gs[i].State())
  }

  /** The event objects in each group. */
  ghost function ItemLists(gs: seq<Group>): seq<seq<Event>>
    reads gs
  {
    seq(|gs|, i requires 0 <= i < |gs| reads gs => gs[i].itemList)
  }

  ghost predicate Distinct(gs: seq<Group>)
  {
    forall i, j :: 0 <= i < j < |gs| ==> gs[i] != gs[j]
  }

  lemma {:induction false} DistinctCount(gs: seq<Group>, g: Group)
    requires Distinct(gs)
    ensures multiset(gs)[g] <= 1
  {
    if gs != [] {
      FrontLast(gs);
      DistinctCount(Front(gs), g);
      if Last(gs) == g {
        assert g !in Front(gs);
      }
    }
  }

  lemma DistinctPermuted(gs: seq<Group>, hs: seq<Group>)
    requires Distinct(gs) && multiset(gs) == multiset(hs)
    ensures Distinct(hs)
  {
    forall i, j | 0 <= i < j < |hs|
      ensures hs[i] != hs[j]
    {
      DistinctCount(gs, hs[j]);
      SplitAt(hs, j);
      MiddleBag(hs[..j], hs[j], hs[j + 1..]);
      assert hs[i] in hs[..j];
    }
  }

  /** Reordering the groups changes nothing about the event objects they hold. */
  lemma ItemsPermuted(gs: seq<Group>, hs: seq<Group>)
    requires multiset(gs) == multiset(hs)
    requires forall k :: 0 <= k < |hs| ==> hs[k] in gs
    ensures Bag(ItemLists(gs)) == Bag(ItemLists(hs))
  {
    var lists := map g | g in gs :: g.itemList;
    var items := (g: Group) => if g in lists then lists[g] else [];
    MapPermuted(items, gs, hs);
    assert Map(items, gs) == ItemLists(gs);
    assert Map(items, hs) == ItemLists(hs);
    BagPermuted(ItemLists(gs), ItemLists(hs));
  }

  /** Adds `e` to group `i` of the list. */
  method AddTo(gs: seq<Group>, i: nat, e: Event)
    requires Distinct(gs) && i < |gs|
    modifies gs[i]
    ensures States(gs) == old(States(gs))[i := Add(old(States(gs))[i], e.Data())]
    ensures ItemLists(gs) == old(ItemLists(gs))[i := old(ItemLists(gs))[i] + [e]]
  {
    gs[i].AddEvent(e);
    forall k | 0 <= k < |gs| && k != i
      ensures gs[k].State() == old(States(gs))[k] && gs[k].itemList == old(ItemLists(gs))[k]
    {
      assert gs[k] != gs[i];
    }
  }

  /** The list with a new group founded by `e`. */
  method AddGroup(gs: seq<Group>, e: Event) returns (more: seq<Group>)
    requires Distinct(gs)
    ensures Distinct(more)
    ensures forall k :: 0 <= k < |more| ==> more[k] in gs || fresh(more[k])
    ensures States(more) == old(States(gs)) + [Add(EMPTY_GROUP, e.Data())]
    ensures ItemLists(more) == old(ItemLists(gs)) + [[e]]
  {
    var g := new Group.FromEvent(e);
    more := gs + [g];
    forall i | 0 <= i < |gs|
      ensures more[i].State() == old(States(gs))[i] && more[i].itemList == old(ItemLists(gs))[i]
    {
      assert more[i] == gs[i];
    }
  }
}
