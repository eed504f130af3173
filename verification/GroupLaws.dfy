/** What a group built by repeated `add` is, and what being grown through its own
    acceptance test forces on its members. */
module GroupLaws {
  import opened Sequences
  import opened Tokens
  import opened Events
  import opened Groups

  /** The group that holds exactly `items`, added in this order. */
  function Gather(items: seq<Record>): GroupState
  {
    if items == [] then EMPTY_GROUP else Add(Gather(Front(items)), Last(items))
  }

  function AddAll(g: GroupState, more: seq<Record>): GroupState
    decreases |more|
  {
    if more == [] then g else Add(AddAll(g, Front(more)), Last(more))
  }

  /** Each item after the first was accepted by the group of those before it. */
  ghost predicate Grown(items: seq<Record>)
  {
    items != [] && forall j :: 0 < j < |items| ==> Accepts(Gather(items[..j]), items[j])
  }

  // ----- closed form of a gathered group -----

  function Verbs(e: Record): seq<Token> { e.skid }
  function Places(e: Record): seq<Token> { e.ncid }
  function Objects(e: Record): seq<Token> { e.objID }
  function Subjects(e: Record): seq<Token> { e.ctid }

  /** All the tokens the items have in one field, in order. */
  function AllOf(items: seq<Record>, field: Record -> seq<Token>): seq<Token>
  {
    if items == [] then [] else AllOf(Front(items), field) + field(Last(items))
  }

  lemma {:induction false} AllOfFlat(items: seq<Record>, field: Record -> seq<Token>)
    ensures AllOf(items, field) == Flatten(Map(field, items))
  {
    if items != [] {
      AllOfFlat(Front(items), field);
      MapFront(field, items);
      FlattenSnoc(Map(field, Front(items)), field(Last(items)));
    }
  }

  lemma {:induction false} GatherItems(items: seq<Record>)
    ensures Gather(items).items == items
  {
    if items != [] {
      GatherItems(Front(items));
      FrontLast(items);
    }
  }

  lemma {:induction false} GatherBooks(items: seq<Record>)
    ensures Gather(items).weight == |items|
    ensures Gather(items).other == []
  {
    if items != [] {
      GatherBooks(Front(items));
    }
  }

  lemma {:induction false} GatherSubjects(items: seq<Record>)
    ensures Gather(items).subject == AllOf(items, Subjects)
  {
    if items != [] {
      GatherSubjects(Front(items));
    }
  }

  lemma {:induction false} GatherVerbs(items: seq<Record>)
    ensures Gather(items).verbs == Dedup(AllOf(items, Verbs), Folded)
  {
    if items != [] {
      GatherVerbs(Front(items));
      AddNewConcat([], AllOf(Front(items), Verbs), Last(items).skid, Folded);
    }
  }

  lemma {:induction false} GatherPlaces(items: seq<Record>)
    ensures Gather(items).places == Dedup(AllOf(items, Places), Folded)
  {
    if items != [] {
      GatherPlaces(Front(items));
      AddNewConcat([], AllOf(Front(items), Places), Last(items).ncid, Folded);
    }
  }

  lemma {:induction false} GatherObjects(items: seq<Record>)
    ensures Gather(items).objects == Dedup(AllOf(items, Objects), Folded)
  {
    if items != [] {
      GatherObjects(Front(items));
      AddNewConcat([], AllOf(Front(items), Objects), Last(items).objID, Folded);
    }
  }

  /** Position of the first dated member. */
  function FirstDated(items: seq<Record>): (first: Option<nat>)
    ensures first.None? ==> forall i :: 0 <= i < |items| ==> items[i].dates == []
    ensures first.Some? ==>
              && first.value < |items| && items[first.value].dates != []
              && forall i :: 0 <= i < first.value ==> items[i].dates == []
  {
    if items == [] then None
    else
      var f := FirstDated(Front(items));
      if f.None? && Last(items).dates != [] then Some(|items| - 1) else f
  }

  lemma FirstDatedIs(items: seq<Record>, f: nat)
    requires f < |items| && items[f].dates != []
    requires forall i :: 0 <= i < f ==> items[i].dates == []
    ensures FirstDated(items) == Some(f)
  {
    var first := FirstDated(items);
    assert first.Some?;
  }

  lemma FirstDatedPrefix(items: seq<Record>, j: nat)
    requires j <= |items|
    ensures FirstDated(items[..j]).Some? ==> FirstDated(items) == FirstDated(items[..j])
    ensures FirstDated(items).Some? && FirstDated(items).value < j ==> FirstDated(items[..j]) == FirstDated(items)
  {
    var before, all := FirstDated(items[..j]), FirstDated(items);
    if before.Some? {
      forall i | 0 <= i < before.value
        ensures items[i].dates == []
      {
        assert items[..j][i] == items[i];
      }
      FirstDatedIs(items, before.value);
    }
    if all.Some? && all.value < j {
      FirstDatedIs(items[..j], all.value);
    }
  }

  lemma {:induction false} GatherDate(items: seq<Record>)
    ensures var f := FirstDated(items);
            Gather(items).dates == if f.Some? then [items[f.value].dates[0]] else []
  {
    if items != [] {
      GatherDate(Front(items));
    }
  }

  /** A gathered group is a function of its members alone: its verb, place and
      object lists are the case-insensitive first occurrences in the members'
      lists put end to end, its subject list is all of the members' subjects,
      its one date is the first date of its first dated member, `other` never
      fills, and the weight counts the members. */
  lemma GatherClosedForm(items: seq<Record>)
    ensures Gather(items) == GroupState(
                               Dedup(AllOf(items, Verbs), Folded),
                               if FirstDated(items).Some? then [items[FirstDated(items).value].dates[0]] else [],
                               Dedup(AllOf(items, Places), Folded),
                               items,
                               AllOf(items, Subjects),
                               Dedup(AllOf(items, Objects), Folded),
                               [],
                               |items|)
  {
    GatherItems(items);
    GatherBooks(items);
    GatherSubjects(items);
    GatherVerbs(items);
    GatherDate(items);
    GatherPlaces(items);
    GatherObjects(items);
  }

  /** Some member of `items` meets a token list exactly when all their tokens do. */
  lemma {:induction false} MeetAllOf(a: seq<Token>, items: seq<Record>, field: Record -> seq<Token>)
    ensures Meet(a, AllOf(items, field)) <==> exists i :: 0 <= i < |items| && Meet(a, field(items[i]))
  {
    if items != [] {
      var front, last := AllOf(Front(items), field), field(Last(items));
      MeetAllOf(a, Front(items), field);
      forall i | 0 <= i < |a|
        ensures Inside(front + last, a[i]) <==> Inside(front, a[i]) || Inside(last, a[i])
      {
        HasKeyConcat(front, last, Folded, Folded(a[i]));
      }
      assert Meet(a, front + last) <==> Meet(a, front) || Meet(a, last);
      FrontLast(items);
    }
  }

  /** A gathered group meets a verb list exactly when one of its members does; so for places. */
  lemma GatherMeets(items: seq<Record>, a: seq<Token>)
    ensures Meet(a, Gather(items).verbs) <==> exists i :: 0 <= i < |items| && Meet(a, items[i].skid)
    ensures Meet(a, Gather(items).places) <==> exists i :: 0 <= i < |items| && Meet(a, items[i].ncid)
    ensures Gather(items).places == [] <==> forall i :: 0 <= i < |items| ==> items[i].ncid == []
  {
    GatherClosedForm(items);
    MeetAllOf(a, items, Verbs);
    MeetAllOf(a, items, Places);
    MeetAddNew(a, [], AllOf(items, Verbs));
    MeetAddNew(a, [], AllOf(items, Places));
    DedupIdempotent(AllOf(items, Places), Folded);
    AllOfEmpty(items, Places);
  }

  lemma {:induction false} AllOfEmpty(items: seq<Record>, field: Record -> seq<Token>)
    ensures AllOf(items, field) == [] <==> forall i :: 0 <= i < |items| ==> field(items[i]) == []
  {
    if items != [] {
      AllOfEmpty(Front(items), field);
      FrontLast(items);
    }
  }

  // ----- connectivity by verb -----

  predicate SharesVerb(a: Record, b: Record)
  {
    Meet(a.skid, b.skid)
  }

  lemma SharesVerbSymmetric(a: Record, b: Record)
    ensures SharesVerb(a, b) <==> SharesVerb(b, a)
  {
    MeetSymmetric(a.skid, b.skid);
  }

  ghost predicate VerbAmong(items: seq<Record>, e: Record)
  {
    exists i :: 0 <= i < |items| && SharesVerb(e, items[i])
  }

  ghost predicate PlaceAmong(items: seq<Record>, e: Record)
  {
    exists i :: 0 <= i < |items| && Meet(e.ncid, items[i].ncid)
  }

  ghost predicate NoneLocated(items: seq<Record>)
  {
    forall i :: 0 <= i < |items| ==> items[i].ncid == []
  }

  /** The acceptance test on the accumulated lists, told in terms of the members:
      some member shares a verb; if both sides are located some member shares a
      place; if both sides are dated one of the event's dates begins at the instant
      at which the first dated member's first date begins. So an event is rejected
      when none of its dates does, or when that instant is unknown. */
  lemma AcceptsByMembers(items: seq<Record>, e: Record)
    ensures Accepts(Gather(items), e) <==>
            && VerbAmong(items, e)
            && (e.ncid == [] || NoneLocated(items) || PlaceAmong(items, e))
            && (e.dates == [] || FirstDated(items).None?
                || exists k :: BeginsAt(items[FirstDated(items).value].dates[0], k) && SomeBegins(e.dates, k))
  {
    if FirstDated(items).Some? {
      AnySameStartExact(items[FirstDated(items).value].dates[0], e.dates);
    }
    GatherMeets(items, e.skid);
    GatherMeets(items, e.ncid);
    GatherDate(items);
  }

  /** Every member after the first shares a verb with an earlier one. */
  lemma VerbLink(items: seq<Record>, j: nat)
    requires Grown(items) && 0 < j < |items|
    ensures exists i :: 0 <= i < j && SharesVerb(items[j], items[i])
  {
    GatherMeets(items[..j], items[j].skid);
    var i :| 0 <= i < |items[..j]| && Meet(items[j].skid, items[..j][i].skid);
    assert SharesVerb(items[j], items[i]);
  }

  /** `path` walks through members of the group, each step sharing a verb. */
  ghost predicate VerbChain(items: seq<Record>, path: seq<nat>)
  {
    && path != []
    && (forall k :: 0 <= k < |path| ==> path[k] < |items|)
    && (forall k :: 0 < k < |path| ==> SharesVerb(items[path[k - 1]], items[path[k]]))
  }

  lemma {:induction false} ChainToFounder(items: seq<Record>, j: nat) returns (path: seq<nat>)
    requires Grown(items) && j < |items|
    ensures VerbChain(items, path) && path[0] == j && Last(path) == 0
    decreases j
  {
    if j == 0 {
      path := [0];
    } else {
      VerbLink(items, j);
      var i :| 0 <= i < j && SharesVerb(items[j], items[i]);
      var rest := ChainToFounder(items, i);
      LongerChain(items, j, rest);
      path := [j] + rest;
    }
  }

  lemma LongerChain(items: seq<Record>, j: nat, rest: seq<nat>)
    requires VerbChain(items, rest) && j < |items| && SharesVerb(items[j], items[rest[0]])
    ensures VerbChain(items, [j] + rest) && Last([j] + rest) == Last(rest)
  {
    var path := [j] + rest;
    forall k | 0 < k < |path|
      ensures SharesVerb(items[path[k - 1]], items[path[k]])
    {
      assert path[k] == rest[k - 1];
    }
  }

  lemma ReverseChain(items: seq<Record>, path: seq<nat>) returns (back: seq<nat>)
    requires VerbChain(items, path)
    ensures VerbChain(items, back) && back[0] == Last(path) && Last(back) == path[0]
  {
    back := seq(|path|, k requires 0 <= k < |path| => path[|path| - 1 - k]);
    forall k | 0 < k < |back|
      ensures SharesVerb(items[back[k - 1]], items[back[k]])
    {
      var m := |path| - k;
      assert SharesVerb(items[path[m - 1]], items[path[m]]);
      SharesVerbSymmetric(items[path[m - 1]], items[path[m]]);
    }
  }

  /** Any two members of a grown group are linked by a chain of its members. */
  lemma GroupConnected(items: seq<Record>, i: nat, j: nat) returns (path: seq<nat>)
    requires Grown(items) && i < |items| && j < |items|
    ensures VerbChain(items, path) && path[0] == i && Last(path) == j
  {
    var down := ChainToFounder(items, i);
    var up := ChainToFounder(items, j);
    up := ReverseChain(items, up);
    path := down + up[1..];
    forall k | 0 < k < |path|
      ensures SharesVerb(items[path[k - 1]], items[path[k]])
    {
      if k >= |down| {
        assert path[k] == up[k - |down| + 1] && path[k - 1] == up[k - |down|];
      }
    }
  }

  // ----- connectivity by place -----

  /** A located member that follows another located member shares a place with
      an earlier one. */
  lemma PlaceLink(items: seq<Record>, j: nat)
    requires Grown(items) && 0 < j < |items|
    requires items[j].ncid != [] && exists i :: 0 <= i < j && items[i].ncid != []
    ensures exists i :: 0 <= i < j && Meet(items[j].ncid, items[i].ncid)
  {
    GatherMeets(items[..j], items[j].ncid);
    var w :| 0 <= w < j && items[w].ncid != [];
    assert items[..j][w].ncid != [];
    var i :| 0 <= i < |items[..j]| && Meet(items[j].ncid, items[..j][i].ncid);
    assert Meet(items[j].ncid, items[i].ncid);
  }

  // ----- the common date -----

  /** Once a group has a date, adding members never changes it. */
  lemma DateFixed(items: seq<Record>, j: nat)
    requires j <= |items| && Gather(items[..j]).dates != []
    ensures Gather(items).dates == Gather(items[..j]).dates
  {
    GatherDate(items[..j]);
    GatherDate(items);
    FirstDatedPrefix(items, j);
  }

  /** Position `i` is the first dated member, or its dates include the group's start. */
  ghost predicate DateAgrees(items: seq<Record>, d: Time, i: nat)
    requires i < |items|
  {
    FirstDated(items) == Some(i) || AnySameStart(d, items[i].dates)
  }

  lemma LaterDateAgrees(items: seq<Record>, i: nat)
    requires Grown(items) && i < |items| && items[i].dates != []
    ensures |Gather(items).dates| == 1 && DateAgrees(items, Gather(items).dates[0], i)
    ensures Start(Gather(items).dates[0]).Some? ==> AnySameStart(Gather(items).dates[0], items[i].dates)
  {
    GatherDate(items);
    assert FirstDated(items).Some? && FirstDated(items).value <= i;
    if FirstDated(items).value < i {
      FirstDatedPrefix(items, i);
      GatherDate(items[..i]);
      assert Accepts(Gather(items[..i]), items[i]);
    } else if Start(Gather(items).dates[0]).Some? {
      assert SameStart(Gather(items).dates[0], items[i].dates[0]);
    }
  }

  /** The start of a grown group's date occurs among the dates of every dated
      member; when that start is unknown the dated member is the only one. */
  lemma CommonDate(items: seq<Record>, j: nat)
    requires Grown(items) && j < |items| && items[j].dates != []
    ensures |Gather(items).dates| == 1
    ensures var d := Gather(items).dates[0];
            && (forall k :: BeginsAt(d, k) ==> SomeBegins(items[j].dates, k))
            && (Start(d).None? ==> forall i :: 0 <= i < |items| && items[i].dates != [] ==> i == j)
  {
    LaterDateAgrees(items, j);
    var d := Gather(items).dates[0];
    AnySameStartExact(d, items[j].dates);
    forall k | BeginsAt(d, k)
      ensures SomeBegins(items[j].dates, k)
    {
      var k' :| BeginsAt(d, k') && SomeBegins(items[j].dates, k');
    }
    if Start(d).None? {
      forall i | 0 <= i < |items| && items[i].dates != []
        ensures i == j
      {
        LaterDateAgrees(items, i);
      }
    }
  }

  // ----- when acceptance is kept -----

  /** Adding `x` makes the place list non-empty with places `e` does not share. */
  predicate PlaceShuts(g: GroupState, x: Record, e: Record)
  {
    g.places == [] && x.ncid != [] && e.ncid != [] && !Meet(e.ncid, x.ncid)
  }

  /** Adding `x` gives the group its date, and `e` has dates but none that begins then. */
  ghost predicate DateShuts(g: GroupState, x: Record, e: Record)
  {
    g.dates == [] && x.dates != [] && e.dates != []
    && !exists k :: BeginsAt(x.dates[0], k) && SomeBegins(e.dates, k)
  }

  /** An accepted event stays accepted after an `add` exactly when that `add`
      does not fill an empty place list or date list against it. */
  lemma AcceptanceKept(g: GroupState, x: Record, e: Record)
    requires Accepts(g, e)
    ensures Accepts(Add(g, x), e) <==> !PlaceShuts(g, x, e) && !DateShuts(g, x, e)
  {
    MeetAddNew(e.skid, g.verbs, x.skid);
    MeetAddNew(e.ncid, g.places, x.ncid);
    if x.dates != [] {
      AnySameStartExact(x.dates[0], e.dates);
    }
    if g.places == [] {
      assert !Meet(e.ncid, g.places);
      DedupIdempotent(x.ncid, Folded);
    } else {
      AddNewKeys(g.places, x.ncid, Folded, Folded(g.places[0]));
      assert HasKey(g.places, Folded, Folded(g.places[0]));
      assert Add(g, x).places != [];
    }
  }

  lemma {:induction false} SettledKept(g: GroupState, more: seq<Record>, e: Record)
    requires g.places != [] && g.dates != []
    requires Accepts(g, e)
    ensures Accepts(AddAll(g, more), e)
    ensures AddAll(g, more).places != [] && AddAll(g, more).dates == g.dates
    decreases |more|
  {
    if more != [] {
      SettledKept(g, Front(more), e);
      var before := AddAll(g, Front(more));
      AcceptanceKept(before, Last(more), e);
      AddNewKeys(before.places, Last(more).ncid, Folded, Folded(before.places[0]));
      assert HasKey(before.places, Folded, Folded(before.places[0]));
    }
  }

  lemma {:induction false} DateKept(g: GroupState, more: seq<Record>)
    requires g.dates != []
    ensures AddAll(g, more).dates == g.dates
    decreases |more|
  {
    if more != [] {
      DateKept(g, Front(more));
    }
  }

  // ----- pruning the subject -----

  function Spared(ignore: seq<string>): Token -> bool
  {
    t => !Ignored(ignore, t)
  }

  /** One visit of the loop: the copy is what was spared so far followed by
      everything not yet visited, before and after. */
  lemma PruneVisit(done: seq<Token>, rest: seq<Token>, ignore: seq<string>)
    requires |rest| > 0
    requires |Filter(done, Spared(ignore)) + rest| > 1
    ensures var kept := Filter(done, Spared(ignore)) + rest;
            (if Ignored(ignore, rest[0]) then RemoveFirst(kept, rest[0]) else kept)
            == Filter(done + [rest[0]], Spared(ignore)) + rest[1..]
  {
    var p, t := Spared(ignore), rest[0];
    FrontSnoc(done, t);
    HeadTail(rest);
    ConcatAssociative(Filter(done, p), [t], rest[1..]);
    if Ignored(ignore, t) {
      RemoveFirstSkips(Filter(done, p), t, rest[1..]);
    }
  }

  lemma FilterOne<T(!new)>(x: T, p: T -> bool)
    ensures Filter([x], p) == if p(x) then [x] else []
  {
    assert Front([x]) == [] && Last([x]) == x;
  }

  lemma PruneLast(done: seq<Token>, rest: seq<Token>, ignore: seq<string>)
    requires |rest| > 0
    requires |Filter(done, Spared(ignore)) + rest| <= 1
    ensures Prune(Filter(done, Spared(ignore)) + rest, rest, ignore) == [Last(rest)]
    ensures Filter(done + rest, Spared(ignore)) == [] || Filter(done + rest, Spared(ignore)) == [Last(rest)]
  {
    var p := Spared(ignore);
    assert |Filter(done, p)| == 0 && |rest| == 1;
    assert rest == [Last(rest)];
    EmptyLeft(rest);
    assert Prune(rest, rest, ignore) == rest;
    FilterConcat(done, rest, p);
    FilterOne(Last(rest), p);
    EmptyLeft(Filter(rest, p));
  }

  lemma {:induction false} PruneExact(done: seq<Token>, rest: seq<Token>, ignore: seq<string>)
    ensures var spared := Filter(done + rest, Spared(ignore));
            Prune(Filter(done, Spared(ignore)) + rest, rest, ignore) ==
            if rest == [] || spared != [] then spared else [Last(rest)]
    decreases |rest|
  {
    var p := Spared(ignore);
    if rest == [] {
      EmptyRight(done);
      EmptyRight(Filter(done, p));
    } else if |Filter(done, p) + rest| > 1 {
      PruneVisit(done, rest, ignore);
      HeadTail(rest);
      ConcatAssociative(done, [rest[0]], rest[1..]);
      PruneExact(done + [rest[0]], rest[1..], ignore);
      if rest[1..] == [] {
        FilterConcat(done, rest, p);
        assert Filter(done, p) != [];
      }
    } else {
      PruneLast(done, rest, ignore);
    }
  }

  /** Pruning keeps exactly the subjects not ignored, in order; when all are
      ignored it keeps the last one. So it never empties a list. */
  lemma PickSubjectExact(subject: seq<Token>, ignore: seq<string>)
    ensures var spared := Filter(subject, Spared(ignore));
            PickSubject(subject, ignore) == if subject == [] || spared != [] then spared else [Last(subject)]
    ensures PickSubject(subject, ignore) == [] <==> subject == []
  {
    PruneExact([], subject, ignore);
    EmptyLeft(subject);
  }

  /** The token shows one of the words, up to case. */
  ghost predicate ShowsAny(words: seq<string>, t: Token)
  {
    exists w :: w in words && FOLD(w) == FOLD(t.shown)
  }

  /** What pruning `all` against the words of `ignore` leaves: the tokens at `pos`,
      which are exactly those that show none of the words; or, when every token
      shows one of them, the last. */
  ghost predicate PrunedAt(picked: seq<Token>, all: seq<Token>, ignore: seq<string>, pos: seq<nat>)
  {
    if forall t :: t in all ==> ShowsAny(ignore, t) then
      picked == (if all == [] then [] else [Last(all)])
    else
      && SelectedAt(picked, all, pos)
      && forall i: nat :: i in pos <==> i < |all| && !ShowsAny(ignore, all[i])
  }

  lemma IgnoredExact(ignore: seq<string>, t: Token)
    ensures Ignored(ignore, t) <==> ShowsAny(ignore, t)
  {
    if w :| w in ignore && FOLD(w) == FOLD(t.shown) {
      var i :| 0 <= i < |ignore| && ignore[i] == w;
    }
  }

  lemma PickedAt(all: seq<Token>, ignore: seq<string>) returns (pos: seq<nat>)
    ensures PrunedAt(PickSubject(all, ignore), all, ignore, pos)
  {
    PickSubjectExact(all, ignore);
    pos := FilterExact(all, Spared(ignore));
    if forall t :: t in all ==> ShowsAny(ignore, t) {
      NoneSpared(all, ignore);
    } else {
      SomeSpared(all, ignore);
      forall i: nat | i < |all|
        ensures Spared(ignore)(all[i]) <==> !ShowsAny(ignore, all[i])
      {
        IgnoredExact(ignore, all[i]);
      }
    }
  }

  lemma NoneSpared(all: seq<Token>, ignore: seq<string>)
    requires forall t :: t in all ==> ShowsAny(ignore, t)
    ensures Filter(all, Spared(ignore)) == []
  {
    forall t | t in all
      ensures !Spared(ignore)(t)
    {
      IgnoredExact(ignore, t);
    }
    FilterNothing(all, Spared(ignore));
  }

  lemma SomeSpared(all: seq<Token>, ignore: seq<string>)
    requires !forall t :: t in all ==> ShowsAny(ignore, t)
    ensures Filter(all, Spared(ignore)) != []
  {
    var t :| t in all && !ShowsAny(ignore, t);
    IgnoredExact(ignore, t);
    assert t in Filter(all, Spared(ignore));
  }
}
