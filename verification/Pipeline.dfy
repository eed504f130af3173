/** From annotated sentences to the printed table: the intake of events, the
    clustering of all of them, and what holds from end to end. */
module Pipeline {
  import opened Sequences
  import opened Tokens
  import opened TimeSort
  import opened Events
  import opened Groups
  import opened GroupLaws
  import opened Clustering
  import opened GroupViews
  import opened FinalTables
  import opened TimeFlowLaws
  import opened Trees
  import opened Sentences

  /** A sentence as the annotators leave it. */
  datatype Sentence = Sentence(tree: Option<Tree>, tokens: seq<Token>, places: seq<Token>, dates: seq<Token>)

  function Analysed(verbs: seq<string>): Sentence -> Record
  {
    (s: Sentence) => Analyse(s.tree, verbs, s.tokens, s.places, s.dates)
  }

  function HasVerb(): Record -> bool
  {
    (r: Record) => r.skid != []
  }

  /** The events of one piece of news: those with a listed verb. */
  function NewsEvents(sentences: seq<Sentence>, verbs: seq<string>): seq<Record>
  {
    Filter(Map(Analysed(verbs), sentences), HasVerb())
  }

  /** The events of all the news, after their time lines were printed. */
  function AllEvents(news: seq<seq<Sentence>>, verbs: seq<string>): seq<Record>
  {
    if news == [] then [] else AllEvents(Front(news), verbs) + Map(Printed, NewsEvents(Last(news), verbs))
  }

  // ----- the program -----

  ghost predicate DistinctEvents(events: seq<Event>)
  {
    forall i, j :: 0 <= i < j < |events| ==> events[i] != events[j]
  }

  method AnnotationProcessing(sentences: seq<Sentence>, verbs: seq<string>) returns (table: seq<Event>)
    ensures fresh(table) && DistinctEvents(table)
    ensures Records(table) == NewsEvents(sentences, verbs)
  {
    table := [];
    ghost var all := Map(Analysed(verbs), sentences);
    for i := 0 to |sentences|
      invariant fresh(table) && DistinctEvents(table)
      invariant Records(table) == Filter(all[..i], HasVerb())
    {
      FrontUpTo(all, i);
      ghost var before := Records(table);
      var event := AnalyseOne(sentences[i], verbs);
      assert forall k :: 0 <= k < |table| ==> table[k].Data() == before[k];
      assert Records(table) == before && event.Data() == all[i];
      table := TakeIn(event, table);
    }
    assert all[..|sentences|] == all;
  }

  /** An event joins the table if it has a verb. */
  method TakeIn(event: Event, table: seq<Event>) returns (more: seq<Event>)
    requires DistinctEvents(table) && event !in table
    ensures DistinctEvents(more)
    ensures forall k :: 0 <= k < |more| ==> more[k] in table || more[k] == event
    ensures Records(more) == Records(table) + (if event.skid != [] then [event.Data()] else [])
  {
    if event.skid != [] {
      RecordsConcat(table, [event]);
      assert Records([event]) == [event.Data()];
      return table + [event];
    }
    EmptyRight(Records(table));
    return table;
  }

  method AnalyseOne(s: Sentence, verbs: seq<string>) returns (event: Event)
    ensures fresh(event) && event.Data() == Analysed(verbs)(s)
  {
    var analysis := new SentenceAnalysis(s.tree, verbs, s.tokens, s.places, s.dates);
    analysis.AnalysisSentence();
    event := analysis.event;
  }

  /** Printing an event table prints each event's time line. */
  method PrintTable(table: seq<Event>)
    requires DistinctEvents(table)
    modifies table
    ensures Records(table) == Map(Printed, old(Records(table)))
  {
    ghost var before := Records(table);
    for i := 0 to |table|
      invariant forall k :: 0 <= k < i ==> table[k].Data() == Printed(before[k])
      invariant forall k :: i <= k < |table| ==> table[k].Data() == before[k]
    {
      PrintOne(table[i], table);
    }
  }

  /** Prints one event and leaves the others alone. */
  method PrintOne(event: Event, ghost table: seq<Event>)
    modifies event
    ensures event.Data() == Printed(old(event.Data()))
    ensures forall k :: 0 <= k < |table| && table[k] != event ==> table[k].Data() == old(table[k].Data())
  {
    var line := event.PrintTGID();
  }

  method ReadOne(sentences: seq<Sentence>, verbs: seq<string>) returns (table: seq<Event>)
    ensures fresh(table)
    ensures Records(table) == Map(Printed, NewsEvents(sentences, verbs))
  {
    table := AnnotationProcessing(sentences, verbs);
    PrintTable(table);
  }

  method ReadNews(news: seq<seq<Sentence>>, verbs: seq<string>) returns (tables: seq<seq<Event>>)
    ensures Records(Flatten(tables)) == AllEvents(news, verbs)
  {
    tables := [];
    for i := 0 to |news|
      invariant Records(Flatten(tables)) == AllEvents(news[..i], verbs)
    {
      FrontUpTo(news, i);
      ghost var before, seen := Records(Flatten(tables)), Flatten(tables);
      var table := ReadOne(news[i], verbs);
      assert forall k :: 0 <= k < |seen| ==> seen[k].Data() == before[k];
      FlattenSnoc(tables, table);
      tables := tables + [table];
      RecordsConcat(seen, table);
      assert Records(seen) == before;
    }
    assert news[..|news|] == news;
  }

  /** The whole run. The table is that of the printed analyses of all sentences of
      all news that have a listed verb, and its weights count them. Every subject
      lookup is in bounds; each line is the first subject left in its row, and it
      shows an ignored word only when every subject of the row does. */
  method Summarise(news: seq<seq<Sentence>>, verbs: seq<string>, ignore: seq<string>)
    returns (lines: seq<string>, ghost events: seq<Record>, ghost pos: seq<nat>)
    ensures Intake(events, news, verbs, pos)
    ensures var table := FinalTable(events, ignore);
            && |lines| == |table| && TotalWeight(table) == |pos|
            && forall k :: 0 <= k < |table| ==>
                 table[k].subject != [] && lines[k] == table[k].subject[0].shown && LineSpared(lines[k], table[k], ignore)
  {
    var tables := ReadNews(news, verbs);
    events := AllEvents(news, verbs);
    pos := AllEventsExact(news, verbs);
    SubjectsOfNews(news, verbs, ignore);
    FinalTableConserves(events, ignore);
    lines := GenerateFinalTable(tables, ignore, FinalTable(events, ignore));
    forall k | 0 <= k < |lines|
      ensures lines[k] == FinalTable(events, ignore)[k].subject[0].shown
      ensures LineSpared(lines[k], FinalTable(events, ignore)[k], ignore)
    {
      RowLine(news, verbs, ignore, k);
    }
  }

  method MakeLines(final: FinalTableEvent, ghost table: seq<GroupState>) returns (lines: seq<string>)
    requires table == States(final.listGroup)
    requires forall k :: 0 <= k < |table| ==> table[k].subject != []
    ensures |lines| == |table|
    ensures forall k :: 0 <= k < |table| ==> lines[k] == Text(table[k].subject[0])
  {
    lines := final.SubjectLines();
    assert forall k :: 0 <= k < |table| ==> final.listGroup[k].State() == table[k];
  }

  method GenerateFinalTable(tables: seq<seq<Event>>, ignore: seq<string>, ghost table: seq<GroupState>)
    returns (lines: seq<string>)
    requires table == FinalTable(Records(Flatten(tables)), ignore)
    requires forall k :: 0 <= k < |table| ==> table[k].subject != []
    ensures |lines| == |table|
    ensures forall k :: 0 <= k < |table| ==> lines[k] == Text(table[k].subject[0])
  {
    ghost var events, data := Flatten(tables), Records(Flatten(tables));
    var final := new FinalTableEvent(tables, ignore);
    assert forall k :: 0 <= k < |events| ==> events[k].Data() == data[k];
    assert Records(events) == data;
    lines := MakeLines(final, table);
  }

  // ----- what reaches the table -----

  /** The events are the analyses, their time tokens deduplicated by text, of the
      sentences at `pos`, which lists in order exactly those sentences of the news,
      put end to end, whose analysis has a verb. */
  ghost predicate Intake(events: seq<Record>, news: seq<seq<Sentence>>, verbs: seq<string>, pos: seq<nat>)
  {
    var all := Flatten(news);
    && Increasing(pos) && |pos| == |events|
    && (forall i: nat :: i in pos <==>
          i < |all| && Analyse(all[i].tree, verbs, all[i].tokens, all[i].places, all[i].dates).skid != [])
    && forall k :: 0 <= k < |pos| ==>
         && pos[k] < |all|
         && var s := all[pos[k]];
            var r := Analyse(s.tree, verbs, s.tokens, s.places, s.dates);
            events[k] == r.(tgid := Dedup(r.tgid, Text))
  }

  lemma {:induction false} AllEventsFlat(news: seq<seq<Sentence>>, verbs: seq<string>)
    ensures AllEvents(news, verbs) == Map(Printed, NewsEvents(Flatten(news), verbs))
  {
    if news == [] {
      assert Map(Analysed(verbs), Flatten(news)) == [];
    } else {
      var front, last := Flatten(Front(news)), Last(news);
      AllEventsFlat(Front(news), verbs);
      MapConcat(Analysed(verbs), front, last);
      FilterConcat(Map(Analysed(verbs), front), Map(Analysed(verbs), last), HasVerb());
      MapConcat(Printed, NewsEvents(front, verbs), NewsEvents(last, verbs));
    }
  }

  /** No sentence with a listed verb is lost, none is taken twice, and their order is kept. */
  lemma AllEventsExact(news: seq<seq<Sentence>>, verbs: seq<string>) returns (pos: seq<nat>)
    ensures Intake(AllEvents(news, verbs), news, verbs, pos)
  {
    var all := Flatten(news);
    var found := Map(Analysed(verbs), all);
    AllEventsFlat(news, verbs);
    pos := FilterExact(found, HasVerb());
    forall k | 0 <= k < |pos|
      ensures pos[k] < |all| && AllEvents(news, verbs)[k] == Printed(Analysed(verbs)(all[pos[k]]))
    {
      MapIndex(Printed, NewsEvents(all, verbs), k);
      MapIndex(Analysed(verbs), all, pos[k]);
    }
  }

  /** The line shows an ignored word only if every subject of every member does. */
  ghost predicate LineSpared(line: string, row: GroupState, ignore: seq<string>)
  {
    (exists w :: w in ignore && FOLD(w) == FOLD(line)) ==>
      forall e, t :: e in row.items && t in e.ctid ==> ShowsAny(ignore, t)
  }

  /** Subject tokens come from leaves: they have no text annotation. */
  lemma SubjectsShown(news: seq<seq<Sentence>>, verbs: seq<string>, e: Record, t: Token)
    requires e in AllEvents(news, verbs) && t in e.ctid
    ensures Text(t) == t.shown
  {
    var s := EventOrigin(news, verbs, e);
    var leaves := Leaves(FirstMatch(s.tree.value, NP).value);
    var i :| 0 <= i < |Map(LeafToken, leaves)| && Map(LeafToken, leaves)[i] == t;
    MapIndex(LeafToken, leaves, i);
  }

  lemma PrunedHead(picked: seq<Token>, all: seq<Token>, ignore: seq<string>, pos: seq<nat>)
    requires PrunedAt(picked, all, ignore, pos) && picked != []
    ensures picked[0] in all
    ensures ShowsAny(ignore, picked[0]) ==> forall t :: t in all ==> ShowsAny(ignore, t)
  {
    if !forall t :: t in all ==> ShowsAny(ignore, t) {
      assert pos[0] in pos && picked[0] == all[pos[0]];
    }
  }

  lemma InSubjectLists(items: seq<Record>, t: Token)
    ensures t in Flatten(SubjectLists(items)) <==> exists e :: e in items && t in e.ctid
  {
    var lists := SubjectLists(items);
    FlattenMember(lists, t);
    if t in Flatten(lists) {
      var i :| 0 <= i < |lists| && t in lists[i];
      assert items[i] in items && lists[i] == items[i].ctid;
    }
    if e :| e in items && t in e.ctid {
      var j :| 0 <= j < |items| && items[j] == e;
      assert t in lists[j];
    }
  }

  lemma RowLine(news: seq<seq<Sentence>>, verbs: seq<string>, ignore: seq<string>, k: nat)
    requires k < |FinalTable(AllEvents(news, verbs), ignore)|
    requires FinalTable(AllEvents(news, verbs), ignore)[k].subject != []
    ensures var row := FinalTable(AllEvents(news, verbs), ignore)[k];
            Text(row.subject[0]) == row.subject[0].shown && LineSpared(row.subject[0].shown, row, ignore)
  {
    var events := AllEvents(news, verbs);
    var row := FinalTable(events, ignore)[k];
    var pos := RowExact(events, ignore, k);
    HeadSpared(row, ignore, pos);
    RowMembers(events, ignore, k);
    InSubjectLists(row.items, row.subject[0]);
    PrunedHead(row.subject, Flatten(SubjectLists(row.items)), ignore, pos);
    var e :| e in row.items && row.subject[0] in e.ctid;
    SubjectsShown(news, verbs, e, row.subject[0]);
  }

  lemma HeadSpared(row: GroupState, ignore: seq<string>, pos: seq<nat>)
    requires PrunedAt(row.subject, Flatten(SubjectLists(row.items)), ignore, pos) && row.subject != []
    ensures LineSpared(row.subject[0].shown, row, ignore)
  {
    PrunedHead(row.subject, Flatten(SubjectLists(row.items)), ignore, pos);
    if ShowsAny(ignore, row.subject[0]) {
      forall e, t | e in row.items && t in e.ctid
        ensures ShowsAny(ignore, t)
      {
        InSubjectLists(row.items, t);
      }
    }
  }

  lemma RowMembers(events: seq<Record>, ignore: seq<string>, k: nat)
    requires k < |FinalTable(events, ignore)|
    ensures forall e :: e in FinalTable(events, ignore)[k].items ==> e in events
  {
    FinalTableConserves(events, ignore);
    var row := FinalTable(events, ignore)[k];
    var pos :| SelectedAt(row.items, events, pos);
  }

  // ----- from end to end -----

  lemma NewsHaveSubjects(sentences: seq<Sentence>, verbs: seq<string>, e: Record)
    requires e in NewsEvents(sentences, verbs)
    ensures e.ctid != [] && e.skid != []
  {
    assert e in Map(Analysed(verbs), sentences) && HasVerb()(e);
    var j :| 0 <= j < |sentences| && Map(Analysed(verbs), sentences)[j] == e;
    var s := sentences[j];
    VerbImpliesSubject(s.tree, verbs, s.tokens, s.places, s.dates);
  }

  lemma {:induction false} EventsHaveSubjects(news: seq<seq<Sentence>>, verbs: seq<string>)
    ensures forall e :: e in AllEvents(news, verbs) ==> e.ctid != [] && e.skid != []
  {
    if news != [] {
      EventsHaveSubjects(Front(news), verbs);
      var found := NewsEvents(Last(news), verbs);
      forall i | 0 <= i < |found|
        ensures Printed(found[i]).ctid != [] && Printed(found[i]).skid != []
      {
        NewsHaveSubjects(Last(news), verbs, found[i]);
      }
    }
  }

  /** Every row of the final table of any news has a subject. */
  lemma SubjectsOfNews(news: seq<seq<Sentence>>, verbs: seq<string>, ignore: seq<string>)
    ensures forall k :: 0 <= k < |FinalTable(AllEvents(news, verbs), ignore)| ==>
              FinalTable(AllEvents(news, verbs), ignore)[k].subject != []
  {
    EventsHaveSubjects(news, verbs);
    SubjectsPresent(AllEvents(news, verbs), ignore);
  }

  lemma PickPrinted(gs: seq<GroupState>, ignore: seq<string>)
    ensures Map(WithSubjectPicked(ignore), Map(PrintedGroup, gs)) == Map(PrintedGroup, Map(WithSubjectPicked(ignore), gs))
  {
    var left := Map(WithSubjectPicked(ignore), Map(PrintedGroup, gs));
    var right := Map(PrintedGroup, Map(WithSubjectPicked(ignore), gs));
    forall k | 0 <= k < |gs|
      ensures left[k] == right[k]
    {
      MapIndex(PrintedGroup, gs, k);
      MapIndex(WithSubjectPicked(ignore), gs, k);
      MapIndex(WithSubjectPicked(ignore), Map(PrintedGroup, gs), k);
      MapIndex(PrintedGroup, Map(WithSubjectPicked(ignore), gs), k);
    }
    assert |left| == |right|;
  }

  /** Printing the events beforehand changes nothing in the final table but the
      members' own duplicate time tokens. */
  lemma PrintingKeepsTable(events: seq<Record>, ignore: seq<string>)
    ensures FinalTable(Map(Printed, events), ignore) == Map(PrintedGroup, FinalTable(events, ignore))
  {
    var gs := Cluster(events);
    PrintingKeepsClusters(events);
    assert AgreeApart(PrintedGroup, gs, CompareGroups, CompareGroups);
    SortMap(PrintedGroup, gs, CompareGroups, CompareGroups);
    PickPrinted(TimeFlow(gs), ignore);
  }

  // ----- dates, from the time tokens of a sentence to the rows of the table -----

  /** The times an analysis gets to read: without a noun phrase it reads none. */
  function TimesRead(s: Sentence): seq<Time>
  {
    if s.tree.None? || FirstMatch(s.tree.value, NP).None? then [] else Resolved(s.dates)
  }

  /** The dates of an analysed event are the times read from its sentence, those
      of unknown start first, the others ascending; the first one is known
      exactly when all of them are. */
  lemma EventDates(s: Sentence, verbs: seq<string>)
    ensures var dates := Analysed(verbs)(s).dates;
            && multiset(dates) == multiset(TimesRead(s))
            && UnknownFirst(dates)
            && (forall key: int :: Filter(dates, StartsAt(key)) == Filter(TimesRead(s), StartsAt(key)))
            && (dates != [] ==> (Start(dates[0]).Some? <==> AllKnown(TimesRead(s))))
  {
    EarliestFirstExact(TimesRead(s));
  }

  lemma NewsOrigin(sentences: seq<Sentence>, verbs: seq<string>, e: Record) returns (s: Sentence)
    requires e in NewsEvents(sentences, verbs)
    ensures s in sentences && e == Analysed(verbs)(s) && e.skid != []
  {
    assert e in Map(Analysed(verbs), sentences) && HasVerb()(e);
    var j :| 0 <= j < |sentences| && Map(Analysed(verbs), sentences)[j] == e;
    s := sentences[j];
  }

  /** Every event of the table comes from a sentence of the news. */
  lemma {:induction false} EventOrigin(news: seq<seq<Sentence>>, verbs: seq<string>, e: Record) returns (s: Sentence)
    requires e in AllEvents(news, verbs)
    ensures InNews(s, news) && e == Printed(Analysed(verbs)(s)) && e.skid != []
  {
    FrontLast(news);
    var found := NewsEvents(Last(news), verbs);
    if e in Map(Printed, found) {
      var j :| 0 <= j < |found| && Map(Printed, found)[j] == e;
      s := NewsOrigin(Last(news), verbs, found[j]);
      assert news[|news| - 1] == Last(news);
    } else {
      s := EventOrigin(Front(news), verbs, e);
      var i :| 0 <= i < |Front(news)| && s in Front(news)[i];
      assert news[i] == Front(news)[i];
    }
  }

  ghost predicate InNews(s: Sentence, news: seq<seq<Sentence>>)
  {
    exists i :: 0 <= i < |news| && s in news[i]
  }

  /** `d` is one of the dates, and when it is known it is the earliest of them,
      all of them being known. */
  ghost predicate Earliest(d: Time, dates: seq<Time>)
  {
    && d in dates
    && (Start(d).Some? <==> AllKnown(dates))
    && (Start(d).Some? ==> forall t :: t in dates ==> Start(t).Some? && Start(d).value <= Start(t).value)
  }

  lemma LeadEarliest(s: Sentence, verbs: seq<string>)
    requires Analysed(verbs)(s).dates != []
    ensures Earliest(Analysed(verbs)(s).dates[0], TimesRead(s))
  {
    var dates := Analysed(verbs)(s).dates;
    EventDates(s, verbs);
    SameElements(dates, TimesRead(s));
    assert dates[0] in dates;
    if AllKnown(TimesRead(s)) {
      forall t | t in TimesRead(s)
        ensures Start(dates[0]).value <= Start(t).value
      {
        assert t in dates;
        var i :| 0 <= i < |dates| && dates[i] == t;
      }
    }
  }

  /** A dated row of the table takes its date from the sentence of its first
      dated member: the earliest of the times read there when all of them are
      known. A single time of unknown start makes the row a stray. */
  lemma RowDate(news: seq<seq<Sentence>>, verbs: seq<string>, ignore: seq<string>, k: nat) returns (s: Sentence)
    requires k < |FinalTable(AllEvents(news, verbs), ignore)|
    requires FinalTable(AllEvents(news, verbs), ignore)[k].dates != []
    ensures var row := FinalTable(AllEvents(news, verbs), ignore)[k];
            && FirstDated(row.items).Some?
            && InNews(s, news) && row.items[FirstDated(row.items).value] == Printed(Analysed(verbs)(s))
            && |row.dates| == 1 && Earliest(row.dates[0], TimesRead(s))
            && (Stray(row) <==> !AllKnown(TimesRead(s)))
  {
    var events := AllEvents(news, verbs);
    var row := FinalTable(events, ignore)[k];
    FinalRow(events, ignore, k);
    var i :| 0 <= i < |Cluster(events)| && row == WithSubjectPicked(ignore)(Cluster(events)[i]);
    ClusterGrown(events);
    ClusterMembers(events, i);
    GatherDate(row.items);
    var first := row.items[FirstDated(row.items).value];
    assert first in row.items;
    s := EventOrigin(news, verbs, first);
    LeadEarliest(s, verbs);
  }

  /** When every time resolved in the news has a known start, the rows of the
      table stand in order of date. */
  lemma NewsInOrder(news: seq<seq<Sentence>>, verbs: seq<string>, ignore: seq<string>)
    requires forall s: Sentence :: InNews(s, news) ==> AllKnown(TimesRead(s))
    ensures InDateOrder(FinalTable(AllEvents(news, verbs), ignore))
  {
    var events := AllEvents(news, verbs);
    forall e | e in events && e.dates != []
      ensures !LeadStray(e)
    {
      var s := EventOrigin(news, verbs, e);
      EventDates(s, verbs);
    }
    ClusterComparable(events);
    FinalTableInOrder(events, ignore);
  }
}
