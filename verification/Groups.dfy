/** A group of events: the signature it has accumulated, the test by which it
    accepts a further event, and the methods that keep it up to date. */
module Groups {
  import opened Sequences
  import opened Tokens
  import opened TimeSort
  import opened Events

  /** The contents of a `Group`. */
  datatype GroupState = GroupState(
    verbs: seq<Token>,
    dates: seq<Time>,
    places: seq<Token>,
    items: seq<Record>,
    subject: seq<Token>,
    objects: seq<Token>,
    other: seq<Token>,
    weight: int)

  const EMPTY_GROUP := GroupState([], [], [], [], [], [], [], 0)

  // ----- acceptance -----

  /** Two times with the same known start. */
  predicate SameStart(a: Time, b: Time)
  {
    Start(a).Some? && Start(b).Some? && Start(a).value == Start(b).value
  }

  predicate AnySameStart(representative: Time, dates: seq<Time>)
  {
    exists i :: 0 <= i < |dates| && SameStart(representative, dates[i])
  }

  /** The same known start is a common instant at which both begin. */
  lemma SameStartExact(a: Time, b: Time)
    ensures SameStart(a, b) <==> exists k :: BeginsAt(a, k) && BeginsAt(b, k)
  {
    if SameStart(a, b) {
      assert BeginsAt(a, Start(a).value) && BeginsAt(b, Start(a).value);
    }
  }

  lemma AnySameStartExact(d: Time, dates: seq<Time>)
    ensures AnySameStart(d, dates) <==> exists k :: BeginsAt(d, k) && SomeBegins(dates, k)
  {
    if AnySameStart(d, dates) {
      var i :| 0 <= i < |dates| && SameStart(d, dates[i]);
      SameStartExact(d, dates[i]);
      var k :| BeginsAt(d, k) && BeginsAt(dates[i], k);
      assert dates[i] in dates && SomeBegins(dates, k);
    }
    if k :| BeginsAt(d, k) && SomeBegins(dates, k) {
      var t :| t in dates && BeginsAt(t, k);
      var i :| 0 <= i < |dates| && dates[i] == t;
      SameStartExact(d, dates[i]);
    }
  }

  predicate VerbsAgree(g: GroupState, e: Record)
  {
    Meet(e.skid, g.verbs)
  }

  predicate PlacesAgree(g: GroupState, e: Record)
  {
    e.ncid == [] || g.places == [] || Meet(e.ncid, g.places)
  }

  predicate DatesAgree(g: GroupState, e: Record)
  {
    e.dates == [] || g.dates == [] || AnySameStart(g.dates[0], e.dates)
  }

  predicate Accepts(g: GroupState, e: Record)
  {
    VerbsAgree(g, e) && PlacesAgree(g, e) && DatesAgree(g, e)
  }

  /** A group accepts an event exactly when a verb of each has the same text up to
      case; if both have places, so do two of these; and if both are dated, a date
      of the event begins when the group's date begins. */
  lemma AcceptsExact(g: GroupState, e: Record)
    ensures Accepts(g, e) <==>
            && (exists x, y :: x in e.skid && y in g.verbs
                               && FOLD(if x.annotation.Some? then x.annotation.value else x.shown)
                                  == FOLD(if y.annotation.Some? then y.annotation.value else y.shown))
            && (e.ncid == [] || g.places == []
                || exists x, y :: x in e.ncid && y in g.places
                                  && FOLD(if x.annotation.Some? then x.annotation.value else x.shown)
                                     == FOLD(if y.annotation.Some? then y.annotation.value else y.shown))
            && (e.dates == [] || g.dates == [] || exists k :: BeginsAt(g.dates[0], k) && SomeBegins(e.dates, k))
  {
    MeetExact(e.skid, g.verbs);
    MeetExact(e.ncid, g.places);
    if g.dates != [] {
      AnySameStartExact(g.dates[0], e.dates);
    }
  }

  // ----- growth -----

  /** The first date ever offered stays the only one. */
  function AddDate(dates: seq<Time>, offered: seq<Time>): seq<Time>
  {
    if dates == [] && offered != [] then [offered[0]] else dates
  }

  function Add(g: GroupState, e: Record): GroupState
  {
    GroupState(
      AddNew(g.verbs, e.skid, Folded),
      AddDate(g.dates, e.dates),
      AddNew(g.places, e.ncid, Folded),
      g.items + [e],
      g.subject + e.ctid,
      AddNew(g.objects, e.objID, Folded),
      if g.other == [] then [] else g.other + e.otherID,
      g.weight + 1)
  }

  // ----- subject pruning -----

  predicate Ignored(ignore: seq<string>, t: Token)
  {
    exists i :: 0 <= i < |ignore| && FOLD(ignore[i]) == FOLD(t.shown)
  }

  /** The pruning loop: `kept` is the copy being pruned, `rest` what is left to visit. */
  function Prune(kept: seq<Token>, rest: seq<Token>, ignore: seq<string>): seq<Token>
    decreases |rest|
  {
    if rest == [] then kept
    else Prune(if Ignored(ignore, rest[0]) && |kept| > 1 then RemoveFirst(kept, rest[0]) else kept, rest[1..], ignore)
  }

  function PickSubject(subject: seq<Token>, ignore: seq<string>): seq<Token>
  {
    Prune(subject, subject, ignore)
  }

  // ----- best event -----

  /** Position of the first item of greatest weight, if any weight is above -1. */
  function Best(items: seq<Record>): (best: Option<nat>)
    ensures best.None? ==> forall i :: 0 <= i < |items| ==> items[i].weight <= -1
    ensures best.Some? ==>
              && best.value < |items| && items[best.value].weight > -1
              && (forall i :: 0 <= i < |items| ==> items[i].weight <= items[best.value].weight)
              && (forall i :: 0 <= i < best.value ==> items[i].weight < items[best.value].weight)
  {
    if items == [] then None
    else
      var b := Best(Front(items));
      if Last(items).weight > (if b.Some? then items[b.value].weight else -1) then Some(|items| - 1) else b
  }

  class Group {
    var eventVerb: seq<Token>
    var normalizedTime: seq<Time>
    var location: seq<Token>
    var itemList: seq<Event>
    var subject: seq<Token>
    var objects: seq<Token>
    var other: seq<Token>
    var weight: int

    ghost function State(): GroupState
      reads this, itemList
    {
      GroupState(eventVerb, normalizedTime, location, Records(itemList), subject, objects, other, weight)
    }

    constructor ()
      ensures State() == EMPTY_GROUP && itemList == []
    {
      eventVerb, normalizedTime, location, itemList := [], [], [], [];
      subject, objects, other, weight := [], [], [], 0;
    }

    constructor FromEvent(e: Event)
      ensures State() == Add(EMPTY_GROUP, e.Data()) && itemList == [e]
    {
      eventVerb, normalizedTime, location, itemList := [], [], [], [];
      subject, objects, other, weight := [], [], [], 0;
      new;
      assert State() == EMPTY_GROUP;
      AddEvent(e);
    }

    method AddVerbs(tokens: seq<Token>)
      modifies this`eventVerb
      ensures eventVerb == AddNew(old(eventVerb), tokens, Folded)
    {
      for i := 0 to |tokens|
        invariant eventVerb == AddNew(old(eventVerb), tokens[..i], Folded)
      {
        FrontUpTo(tokens, i);
        var known := Contains(eventVerb, tokens[i]);
        if !known {
          eventVerb := eventVerb + [tokens[i]];
        }
      }
      assert tokens[..|tokens|] == tokens;
    }

    method AddLocation(tokens: seq<Token>)
      modifies this`location
      ensures location == AddNew(old(location), tokens, Folded)
    {
      for i := 0 to |tokens|
        invariant location == AddNew(old(location), tokens[..i], Folded)
      {
        FrontUpTo(tokens, i);
        var known := Contains(location, tokens[i]);
        if !known {
          location := location + [tokens[i]];
        }
      }
      assert tokens[..|tokens|] == tokens;
    }

    method AddObject(tokens: seq<Token>)
      modifies this`objects
      ensures objects == AddNew(old(objects), tokens, Folded)
    {
      for i := 0 to |tokens|
        invariant objects == AddNew(old(objects), tokens[..i], Folded)
      {
        FrontUpTo(tokens, i);
        var known := Contains(objects, tokens[i]);
        if !known {
          objects := objects + [tokens[i]];
        }
      }
      assert tokens[..|tokens|] == tokens;
    }

    method AddTime(dates: seq<Time>)
      modifies this`normalizedTime
      ensures normalizedTime == AddDate(old(normalizedTime), dates)
    {
      if dates != [] {
        if normalizedTime == [] {
          normalizedTime := normalizedTime + [dates[0]];
        }
      }
    }

    method AddSubject(tokens: seq<Token>)
      modifies this`subject
      ensures subject == old(subject) + tokens
    {
      for i := 0 to |tokens|
        invariant subject == old(subject) + tokens[..i]
      {
        subject := subject + [tokens[i]];
      }
    }

    /** Adds only to a list that already holds something. */
    method AddOther(tokens: seq<Token>)
      modifies this`other
      ensures other == if old(other) == [] then [] else old(other) + tokens
    {
      if other != [] {
        for i := 0 to |tokens|
          invariant other == old(other) + tokens[..i]
        {
          other := other + [tokens[i]];
        }
      }
    }

    /** `Group.add`. */
    method AddEvent(e: Event)
      modifies this
      ensures State() == Add(old(State()), e.Data())
      ensures itemList == old(itemList) + [e]
    {
      var data := e.Data();
      itemList := itemList + [e];
      AddVerbs(data.skid);
      AddLocation(data.ncid);
      AddTime(data.dates);
      AddSubject(data.ctid);
      AddObject(data.objID);
      AddOther(data.otherID);
      weight := weight + 1;
      assert Records(itemList) == old(Records(itemList)) + [data];
    }

    /** `inside` on tokens. */
    method Contains(list: seq<Token>, t: Token) returns (found: bool)
      ensures found == Inside(list, t)
    {
      for i := 0 to |list|
        invariant forall k :: 0 <= k < i ==> Folded(list[k]) != Folded(t)
      {
        if FOLD(Text(t)) == FOLD(Text(list[i])) {
          return true;
        }
      }
      return false;
    }

    /** `inside` on times looks at the first listed time only. */
    method ContainsTime(list: seq<Time>, t: Time) returns (found: bool)
      requires list != []
      ensures found == SameStart(list[0], t)
      ensures found <==> exists k :: BeginsAt(list[0], k) && BeginsAt(t, k)
    {
      SameStartExact(list[0], t);
      var time1 := if list[0].interval.None? then list[0].own else list[0].interval.value;
      var time2 := if t.interval.None? then t.own else t.interval.value;
      if time1.None? || time2.None? {
        return false;
      }
      return CompareKeys(time1.value, time2.value) == 0;
    }

    method Same(e: Event) returns (ok: bool)
      ensures ok == Accepts(State(), e.Data())
    {
      var ok1, ok2, ok3 := false, false, false;
      for i := 0 to |e.skid|
        invariant !ok1
        invariant forall k :: 0 <= k < i ==> !Inside(eventVerb, e.skid[k])
      {
        var hit := Contains(eventVerb, e.skid[i]);
        if hit {
          ok1 := true;
          break;
        }
      }
      assert ok1 == VerbsAgree(State(), e.Data());
      if ok1 {
        if e.ncid == [] || location == [] {
          ok2 := true;
        } else {
          for i := 0 to |e.ncid|
            invariant !ok2
            invariant forall k :: 0 <= k < i ==> !Inside(location, e.ncid[k])
          {
            var hit := Contains(location, e.ncid[i]);
            if hit {
              ok2 := true;
              break;
            }
          }
        }
        assert ok2 == PlacesAgree(State(), e.Data());
      }
      if ok2 {
        if e.normalizeDate == [] || normalizedTime == [] {
          ok3 := true;
        } else {
          for i := 0 to |e.normalizeDate|
            invariant !ok3
            invariant forall k :: 0 <= k < i ==> !SameStart(normalizedTime[0], e.normalizeDate[k])
          {
            var hit := ContainsTime(normalizedTime, e.normalizeDate[i]);
            if hit {
              ok3 := true;
              break;
            }
          }
        }
        assert ok3 == DatesAgree(State(), e.Data());
      }
      return ok3;
    }

    method ContainIgnoreCase(list: seq<string>, t: Token) returns (found: bool)
      ensures found == Ignored(list, t)
    {
      for i := 0 to |list|
        invariant forall k :: 0 <= k < i ==> FOLD(list[k]) != FOLD(t.shown)
      {
        if FOLD(list[i]) == FOLD(t.shown) {
          return true;
        }
      }
      return false;
    }

    method PickOneSubject(ignore: seq<string>)
      modifies this`subject
      ensures subject == PickSubject(old(subject), ignore)
    {
      var tmp, visited := subject, subject;
      for i := 0 to |visited|
        invariant PickSubject(visited, ignore) == Prune(tmp, visited[i..], ignore)
      {
        assert visited[i..][0] == visited[i] && visited[i..][1..] == visited[i + 1..];
        var drop := ContainIgnoreCase(ignore, visited[i]);
        if drop && |tmp| > 1 {
          tmp := RemoveFirst(tmp, visited[i]);
        }
      }
      subject := tmp;
    }

    method PrintCTID() returns (line: string)
      requires subject != []
      ensures line == Text(subject[0])
    {
      line := Text(subject[0]);
    }

    method GetBest() returns (bestEvent: Event?)
      ensures bestEvent == BestOf(itemList)
    {
      var maxWeight := -1;
      bestEvent := null;
      for i := 0 to |itemList|
        invariant bestEvent == BestOf(itemList[..i])
        invariant maxWeight == if bestEvent == null then -1 else bestEvent.weight
      {
        var upTo := itemList[..i + 1];
        assert Front(upTo) == itemList[..i];
        assert Front(Records(upTo)) == Records(itemList[..i]);
        if itemList[i].weight > maxWeight {
          maxWeight := itemList[i].weight;
          bestEvent := itemList[i];
        }
      }
      assert itemList[..|itemList|] == itemList;
    }
  }

  ghost function BestOf(events: seq<Event>): Event?
    reads events
  {
    var best := Best(Records(events));
    if best.Some? then events[best.value] else null
  }
}
