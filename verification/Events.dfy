/** One extracted event: its record of token lists and resolved dates, and the
    methods that update it. */
module Events {
  import opened Sequences
  import opened Tokens
  import opened TimeSort
  import opened ComparatorContract

  /** The contents of an `Event`. */
  datatype Record = Record(
    skid: seq<Token>,
    ctid: seq<Token>,
    tgid: seq<Token>,
    ncid: seq<Token>,
    objID: seq<Token>,
    otherID: seq<Token>,
    dates: seq<Time>,
    weight: int)

  const BLANK := Record([], [], [], [], [], [], [], 0)

  function CompareKeys(a: int, b: int): int
  {
    if a < b then -1 else if a == b then 0 else 1
  }

  /** The comparator of `earliestFirst`: an unknown instant goes first. */
  function CompareEarliest(a: Time, b: Time): Option<int>
  {
    if Start(a).None? then Some(-1)
    else if Start(b).None? then Some(1)
    else Some(CompareKeys(Start(a).value, Start(b).value))
  }

  /** The times the tokens resolve to, in order, unresolved tokens skipped. */
  function Resolved(tokens: seq<Token>): seq<Time>
  {
    if tokens == [] then []
    else Resolved(Front(tokens)) + (if Last(tokens).time.Some? then [Last(tokens).time.value] else [])
  }

  function EarliestFirst(dates: seq<Time>): seq<Time>
  {
    Sort(dates, CompareEarliest).list
  }

  function Point(b: bool): int
  {
    if b then 1 else 0
  }

  function Weigh(r: Record): int
  {
    Point(r.tgid != []) + Point(r.ncid != []) + Point(r.objID != [])
  }

  function Joined(tokens: seq<Token>): string
  {
    if tokens == [] then "" else Joined(Front(tokens)) + Text(Last(tokens)) + " "
  }

  class Event {
    var skid: seq<Token>
    var ctid: seq<Token>
    var tgid: seq<Token>
    var ncid: seq<Token>
    var objID: seq<Token>
    var otherID: seq<Token>
    var normalizeDate: seq<Time>
    var weight: int

    function Data(): Record
      reads this
    {
      Record(skid, ctid, tgid, ncid, objID, otherID, normalizeDate, weight)
    }

    constructor ()
      ensures Data() == BLANK
    {
      skid, ctid, tgid, ncid, objID, otherID := [], [], [], [], [], [];
      normalizeDate, weight := [], 0;
    }

    /** Setting the time tokens also resolves them: the resolved times join the
        dates already there, and all of them are sorted again. */
    method SetTGID(tokens: seq<Token>)
      modifies this
      ensures Data() == old(Data()).(tgid := tokens, dates := EarliestFirst(old(normalizeDate) + Resolved(tokens)))
    {
      tgid := tokens;
      UpdateNormalizedTime();
    }

    method UpdateNormalizedTime()
      modifies this`normalizeDate
      ensures normalizeDate == EarliestFirst(old(normalizeDate) + Resolved(tgid))
    {
      for i := 0 to |tgid|
        invariant normalizeDate == old(normalizeDate) + Resolved(tgid[..i])
      {
        FrontUpTo(tgid, i);
        if tgid[i].time.Some? {
          normalizeDate := normalizeDate + [tgid[i].time.value];
        }
      }
      assert tgid[..|tgid|] == tgid;
      SortDates();
    }

    method SortDates()
      modifies this`normalizeDate
      ensures normalizeDate == EarliestFirst(old(normalizeDate))
    {
      var sorting := SortList(normalizeDate, CompareEarliest);
      normalizeDate := sorting.list;
    }

    method CalWeight()
      modifies this`weight
      ensures weight == Weigh(Data())
      ensures weight == (if tgid != [] then 1 else 0) + (if ncid != [] then 1 else 0) + (if objID != [] then 1 else 0)
    {
      var count := 0;
      if tgid != [] {
        count := count + 1;
      }
      if ncid != [] {
        count := count + 1;
      }
      if objID != [] {
        count := count + 1;
      }
      weight := count;
    }

    /** Keeps the first time token of each exact text. */
    method FilterDuplicate()
      modifies this`tgid
      ensures tgid == Dedup(old(tgid), Text)
    {
      var tokens, res := tgid, [];
      for i := 0 to |tokens|
        invariant res == Dedup(tokens[..i], Text)
      {
        var ok := true;
        for j := 0 to |res|
          invariant ok <==> forall k :: 0 <= k < j ==> Text(res[k]) != Text(tokens[i])
        {
          if Text(tokens[i]) == Text(res[j]) {
            ok := false;
            break;
          }
        }
        FrontUpTo(tokens, i);
        assert ok <==> !HasKey(res, Text, Text(tokens[i]));
        if ok {
          res := res + [tokens[i]];
        }
      }
      assert tokens[..|tokens|] == tokens;
      tgid := res;
    }

    /** The printed time line; printing drops duplicate time tokens for good. */
    method PrintTGID() returns (line: string)
      modifies this`tgid
      ensures tgid == Dedup(old(tgid), Text)
      ensures line == if old(tgid) == [] then "" else "on " + Joined(Dedup(old(tgid), Text))
    {
      FilterDuplicate();
      DedupIdempotent(old(tgid), Text);
      var tokens := tgid;
      line := "";
      for i := 0 to |tokens|
        invariant line == Joined(tokens[..i])
        invariant line == "" <==> i == 0
        invariant tgid == tokens
      {
        FrontUpTo(tokens, i);
        line := line + Text(tokens[i]) + " ";
      }
      assert tokens[..|tokens|] == tokens;
      if line != "" {
        line := "on " + line;
      }
    }
  }

  ghost function Records(events: seq<Event>): seq<Record>
    reads events
  {
    seq(|events|, i requires 0 <= i < |events| reads events => events[i].Data())
  }

  lemma RecordsAre(events: seq<Event>, data: seq<Record>)
    requires |events| == |data| && forall k :: 0 <= k < |data| ==> events[k].Data() == data[k]
    ensures Records(events) == data
  {
  }

  lemma RecordsConcat(a: seq<Event>, b: seq<Event>)
    ensures Records(a + b) == Records(a) + Records(b)
  {
  }

  /** The times resolved are those of exactly the tokens that resolve to one, in order. */
  lemma {:induction false} ResolvedExact(tokens: seq<Token>) returns (pos: seq<nat>)
    ensures |pos| == |Resolved(tokens)| && Increasing(pos)
    ensures forall i: nat :: i in pos <==> i < |tokens| && tokens[i].time.Some?
    ensures forall k :: 0 <= k < |pos| ==> pos[k] < |tokens| && tokens[pos[k]].time == Some(Resolved(tokens)[k])
  {
    if tokens == [] {
      pos := [];
    } else {
      var before := Front(tokens);
      pos := ResolvedExact(before);
      FrontLast(tokens);
      forall k | 0 <= k < |pos|
        ensures pos[k] < |before| && tokens[pos[k]].time == Some(Resolved(before)[k])
      {
        assert pos[k] in pos;
      }
      if Last(tokens).time.Some? {
        pos := pos + [|before|];
      }
    }
  }

  /** The printed line puts the texts one after another, each followed by a space. */
  lemma {:induction false} JoinedConcat(a: seq<Token>, b: seq<Token>)
    ensures Joined(a + b) == Joined(a) + Joined(b)
    ensures forall t: Token :: Joined([t]) == (if t.annotation.Some? then t.annotation.value else t.shown) + " "
    decreases |b|
  {
    forall t: Token
      ensures Joined([t]) == (if t.annotation.Some? then t.annotation.value else t.shown) + " "
    {
      assert Front([t]) == [];
      EmptyLeft(Text(t));
    }
    if b == [] {
      EmptyRight(a);
      EmptyRight(Joined(a));
    } else {
      FrontConcat(a, b);
      JoinedConcat(a, Front(b));
      ConcatAssociative(Joined(a), Joined(Front(b)), Text(Last(b)) + " ");
    }
  }

  // ----- the dates of an event -----

  predicate AllKnown(dates: seq<Time>)
  {
    forall t :: t in dates ==> Start(t).Some?
  }

  /** `earliestFirst`'s comparator orders a list exactly when every instant is known. */
  lemma EarliestLawful(dates: seq<Time>)
    ensures Lawful(dates, CompareEarliest) <==> AllKnown(dates)
  {
    if Lawful(dates, CompareEarliest) {
      forall t | t in dates
        ensures Start(t).Some?
      {
        assert !Below(CompareEarliest, t, t);
      }
    }
  }

  /** Unknown starts first, known starts after them, ascending. */
  ghost predicate UnknownFirst(dates: seq<Time>)
  {
    forall i, j :: 0 <= i < j < |dates| ==>
      && (Start(dates[j]).None? ==> Start(dates[i]).None?)
      && (Start(dates[i]).Some? && Start(dates[j]).Some? ==> Start(dates[i]).value <= Start(dates[j]).value)
  }

  function StartsAt(k: int): Time -> bool
  {
    (t: Time) => Start(t) == Some(k)
  }

  lemma EarliestParted(s: seq<Time>, start: nat)
    requires start < |s| && UnknownFirst(s[..start])
    ensures Parted(s, start, CompareEarliest)
  {
    forall i, j | 0 <= i <= j < start && Below(CompareEarliest, s[start], s[i])
      ensures Below(CompareEarliest, s[start], s[j])
    {
      assert s[..start][i] == s[i] && s[..start][j] == s[j];
    }
  }

  lemma EarliestMove(s: seq<Time>, start: nat, k: nat)
    requires start < |s| && UnknownFirst(s[..start]) && PartsAt(s, start, k, CompareEarliest)
    ensures UnknownFirst(Move(s, start, k)[..start + 1])
  {
    var r, p := Move(s, start, k)[..start + 1], s[..start];
    forall i, j | 0 <= i < j < |r|
      ensures Start(r[j]).None? ==> Start(r[i]).None?
      ensures Start(r[i]).Some? && Start(r[j]).Some? ==> Start(r[i]).value <= Start(r[j]).value
    {
      MoveAt(s, start, k, i);
      MoveAt(s, start, k, j);
      var i', j' := MovedFrom(start, k, i), MovedFrom(start, k, j);
      assert r[i] == s[i'] && r[j] == s[j'];
      assert i' < start ==> p[i'] == s[i'];
      assert j' < start ==> p[j'] == s[j'];
    }
  }

  lemma EarliestTies(s: seq<Time>, start: nat, k: nat, key: int)
    requires start < |s| && PartsAt(s, start, k, CompareEarliest)
    ensures Filter(Move(s, start, k), StartsAt(key)) == Filter(s, StartsAt(key))
  {
    SplitAt(s, start);
    assert s[..start] == s[..k] + s[k..start];
    if Start(s[start]) == Some(key) {
      forall t | t in s[k..start]
        ensures !StartsAt(key)(t)
      {
        var i :| 0 <= i < |s[k..start]| && s[k..start][i] == t;
        assert Below(CompareEarliest, s[start], s[k + i]);
      }
      FilterNothing(s[k..start], StartsAt(key));
    } else {
      FilterNothing([s[start]], StartsAt(key));
    }
    FilterSwap(s[..k], s[k..start], [s[start]], s[start + 1..], StartsAt(key));
  }

  /** One round of the sort keeps what it has placed in order. */
  lemma EarliestRound(s: seq<Time>, start: nat, key: int) returns (k: nat)
    requires start < |s| && UnknownFirst(s[..start])
    ensures k <= start && Slot(s, 0, start, s[start], CompareEarliest) == Some(k)
    ensures UnknownFirst(Move(s, start, k)[..start + 1])
    ensures Filter(Move(s, start, k), StartsAt(key)) == Filter(s, StartsAt(key))
  {
    EarliestParted(s, start);
    SlotParts(s, start, 0, start, CompareEarliest);
    k := Slot(s, 0, start, s[start], CompareEarliest).value;
    EarliestMove(s, start, k);
    EarliestTies(s, start, k, key);
  }

  lemma {:induction false} EarliestFrom(s: seq<Time>, start: nat, key: int)
    requires start <= |s| && UnknownFirst(s[..start])
    ensures SortFrom(s, start, CompareEarliest).finished
    ensures UnknownFirst(SortFrom(s, start, CompareEarliest).list)
    ensures Filter(SortFrom(s, start, CompareEarliest).list, StartsAt(key)) == Filter(s, StartsAt(key))
    decreases |s| - start
  {
    if start == |s| {
      TakeAll(s);
    } else {
      var k := EarliestRound(s, start, key);
      EarliestFrom(Move(s, start, k), start + 1, key);
    }
  }

  /** In a descending run each date is unknown or strictly earlier than all before
      it; in an ascending one only the first can be unknown. */
  lemma {:induction false} EarliestSteps(s: seq<Time>, n: nat, down: bool, i: nat, j: nat)
    requires n <= |s| && IsRun(s, n, down, CompareEarliest) && i < j < n
    ensures down && Start(s[j]).Some? ==> Start(s[i]).Some? && Start(s[j]).value < Start(s[i]).value
    ensures !down ==> Start(s[j]).Some? && (Start(s[i]).Some? ==> Start(s[i]).value <= Start(s[j]).value)
    decreases j
  {
    assert Below(CompareEarliest, s[j], s[j - 1]) == down;
    if i < j - 1 {
      EarliestSteps(s, n, down, i, j - 1);
    }
  }

  lemma EarliestTurned(s: seq<Time>, n: nat)
    requires n <= |s| && IsRun(s, n, true, CompareEarliest)
    ensures UnknownFirst(TurnedRound(s, n)[..n])
  {
    var r := TurnedRound(s, n)[..n];
    forall i, j | 0 <= i < j < n
      ensures Start(r[j]).None? ==> Start(r[i]).None?
      ensures Start(r[i]).Some? && Start(r[j]).Some? ==> Start(r[i]).value <= Start(r[j]).value
    {
      var p, q := n - 1 - j, n - 1 - i;
      TurnedRoundAt(s, n, i);
      TurnedRoundAt(s, n, j);
      assert r[i] == s[q] && r[j] == s[p];
      EarliestSteps(s, n, true, p, q);
    }
  }

  lemma EarliestTurnedTies(s: seq<Time>, n: nat, key: int)
    requires n <= |s| && IsRun(s, n, true, CompareEarliest)
    ensures Filter(TurnedRound(s, n), StartsAt(key)) == Filter(s, StartsAt(key))
  {
    forall i, j | 0 <= i < j < n
      ensures !(StartsAt(key)(s[..n][i]) && StartsAt(key)(s[..n][j]))
    {
      EarliestSteps(s, n, true, i, j);
    }
    TurnedRoundFilter(s, n, StartsAt(key));
  }

  lemma EarliestUp(s: seq<Time>, n: nat)
    requires n <= |s| && IsRun(s, n, false, CompareEarliest)
    ensures UnknownFirst(s[..n])
  {
    forall i, j | 0 <= i < j < n
      ensures Start(s[j]).None? ==> Start(s[i]).None?
      ensures Start(s[i]).Some? && Start(s[j]).Some? ==> Start(s[i]).value <= Start(s[j]).value
    {
      EarliestSteps(s, n, false, i, j);
    }
  }

  lemma EarliestSort(dates: seq<Time>, key: int)
    ensures Sort(dates, CompareEarliest).finished
    ensures UnknownFirst(EarliestFirst(dates))
    ensures Filter(EarliestFirst(dates), StartsAt(key)) == Filter(dates, StartsAt(key))
  {
    if |dates| >= 2 {
      var n, down := FirstRunIsRun(dates, CompareEarliest);
      if down {
        EarliestTurned(dates, n);
        EarliestTurnedTies(dates, n, key);
        EarliestFrom(TurnedRound(dates, n), n, key);
      } else {
        EarliestUp(dates, n);
        EarliestFrom(dates, n, key);
      }
    }
  }

  /** Sorting any dates permutes them, unknown starts first, then the known ones
      ascending, simultaneous ones in their old order. So the first date is known
      only when every date is: one unknown start hides all the known ones. */
  lemma EarliestFirstExact(dates: seq<Time>)
    ensures var r := EarliestFirst(dates);
            && multiset(r) == multiset(dates) && |r| == |dates|
            && UnknownFirst(r)
            && (forall key: int :: Filter(r, StartsAt(key)) == Filter(dates, StartsAt(key)))
            && (r != [] ==> (Start(r[0]).Some? <==> AllKnown(dates)))
  {
    var r := EarliestFirst(dates);
    SortPermutes(dates, CompareEarliest);
    forall key: int
      ensures UnknownFirst(r) && Filter(r, StartsAt(key)) == Filter(dates, StartsAt(key))
    {
      EarliestSort(dates, key);
    }
    assert UnknownFirst(r) by {
      EarliestSort(dates, 0);
    }
    SameElements(dates, r);
    if r != [] {
      FirstKnown(r);
    }
  }

  lemma FirstKnown(dates: seq<Time>)
    requires UnknownFirst(dates) && dates != []
    ensures Start(dates[0]).Some? <==> AllKnown(dates)
  {
    assert dates[0] in dates;
    if Start(dates[0]).Some? {
      forall t | t in dates
        ensures Start(t).Some?
      {
        var i :| 0 <= i < |dates| && dates[i] == t;
      }
    }
  }

  ghost predicate AtMostOneUnknown(dates: seq<Time>)
  {
    forall i, j :: 0 <= i < j < |dates| ==> Start(dates[i]).Some? || Start(dates[j]).Some?
  }

  lemma EarliestReversed(a: Time, b: Time)
    requires Start(a).Some? || Start(b).Some?
    ensures Sign(CompareEarliest(a, b)) == -Sign(CompareEarliest(b, a))
  {
  }

  lemma EarliestTriple(a: Time, b: Time, c: Time)
    requires Start(a).Some? || Start(b).Some?
    requires Start(b).Some? || Start(c).Some?
    requires Start(a).Some? || Start(c).Some?
    ensures Sign(CompareEarliest(a, b)) == 1 && Sign(CompareEarliest(b, c)) == 1 ==> Sign(CompareEarliest(a, c)) == 1
    ensures Sign(CompareEarliest(a, b)) == 0 ==> Sign(CompareEarliest(a, c)) == Sign(CompareEarliest(b, c))
  {
  }

  lemma EarliestContract(dates: seq<Time>)
    requires AtMostOneUnknown(dates)
    ensures MeetsContract(dates, CompareEarliest)
  {
    forall i, j | 0 <= i < |dates| && 0 <= j < |dates| && i != j
      ensures Sign(CompareEarliest(dates[i], dates[j])) == -Sign(CompareEarliest(dates[j], dates[i]))
    {
      assert Start(dates[i]).Some? || Start(dates[j]).Some?;
      EarliestReversed(dates[i], dates[j]);
    }
    forall i, j, k | 0 <= i < |dates| && 0 <= j < |dates| && 0 <= k < |dates| && i != j && j != k && i != k
      ensures Sign(CompareEarliest(dates[i], dates[j])) == 1 && Sign(CompareEarliest(dates[j], dates[k])) == 1
              ==> Sign(CompareEarliest(dates[i], dates[k])) == 1
      ensures Sign(CompareEarliest(dates[i], dates[j])) == 0
              ==> Sign(CompareEarliest(dates[i], dates[k])) == Sign(CompareEarliest(dates[j], dates[k]))
    {
      EarliestTriple(dates[i], dates[j], dates[k]);
    }
  }

  /** The comparator of `earliestFirst` meets its contract on a list exactly when
      at most one start is unknown. */
  lemma DatesContract(dates: seq<Time>)
    ensures MeetsContract(dates, CompareEarliest) <==> AtMostOneUnknown(dates)
  {
    if AtMostOneUnknown(dates) {
      EarliestContract(dates);
    }
    if MeetsContract(dates, CompareEarliest) {
      forall i, j | 0 <= i < j < |dates|
        ensures Start(dates[i]).Some? || Start(dates[j]).Some?
      {
        assert Sign(CompareEarliest(dates[i], dates[j])) == -Sign(CompareEarliest(dates[j], dates[i]));
      }
    }
  }
}
