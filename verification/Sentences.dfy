/** `SentenceAnalysis`: one sentence becomes one event. The parse tree, the token
    list and the entity recogniser's places and dates are given. */
module Sentences {
  import opened Sequences
  import opened Tokens
  import opened Events
  import opened Trees

  const NP := Literal("NP")
  const VP := Literal("VP")
  const VB := Prefixed("VB")
  const OBJECT_TAGS := ["NP", "NNP", "NN", "NNPS", "PRP"]

  // ----- specification -----

  /** The token made from a leaf carries the word as value and no text annotation. */
  function LeafToken(word: string): Token
  {
    Token(None, word, word, None, None, None)
  }

  function TokensOf(t: Tree): seq<Token>
  {
    Map(LeafToken, Leaves(t))
  }

  predicate IsListed(verbs: seq<string>, t: Token)
  {
    exists i :: 0 <= i < |verbs| && FOLD(t.value) == FOLD(verbs[i])
  }

  function Listed(verbs: seq<string>): Token -> bool
  {
    (t: Token) => IsListed(verbs, t)
  }

  /** The listed verbs below the topmost VB nodes of the verb phrase. */
  function VerbsOf(vp: Option<Tree>, verbs: seq<string>): seq<Token>
  {
    if vp.None? then [] else Filter(Flatten(Map(TokensOf, TopMatches(vp.value, VB))), Listed(verbs))
  }

  predicate IsObject(r: Record, t: Token)
  {
    t.tag.Some? && t.tag.value in OBJECT_TAGS && !Inside(r.ctid, t) && !Inside(r.ncid, t) && !Inside(r.tgid, t)
  }

  function ObjectOf(r: Record): Token -> bool
  {
    (t: Token) => IsObject(r, t)
  }

  /** `t` text-matches a token of one of the five classified lists. */
  predicate Classified(r: Record, t: Token)
  {
    Inside(r.ctid, t) || Inside(r.ncid, t) || Inside(r.tgid, t) || Inside(r.objID, t) || Inside(r.skid, t)
  }

  function Unclassified(r: Record): Token -> bool
  {
    (t: Token) => !Classified(r, t)
  }

  predicate Trimmable(t: Token)
  {
    Text(t) == "on" || Text(t) == "in" || Text(t) == "."
  }

  /** One `trim`: it asks about the last token, and removes the first one equal to it. */
  function Trim(s: seq<Token>): seq<Token>
  {
    if s == [] || !Trimmable(Last(s)) then s else RemoveFirst(s, Last(s))
  }

  /** The event before its objects and other tokens are filled in. */
  function Started(np: Tree, vp: Option<Tree>, verbs: seq<string>, places: seq<Token>, dates: seq<Token>): Record
  {
    var r := Record(VerbsOf(vp, verbs), TokensOf(np), dates, places, [], [], EarliestFirst(Resolved(dates)), 0);
    r.(weight := Weigh(r))
  }

  /** The event of one sentence, analysed when `objects` and `others` are already
      on the object and other lists. Without a noun phrase the analysis breaks
      off at once and leaves a blank event. */
  function AnalyseFrom(tree: Option<Tree>, verbs: seq<string>, tokens: seq<Token>, places: seq<Token>,
                       dates: seq<Token>, objects: seq<Token>, others: seq<Token>): Record
  {
    if tree.None? || FirstMatch(tree.value, NP).None? then BLANK
    else
      var started := Started(FirstMatch(tree.value, NP).value, FirstMatch(tree.value, VP), verbs, places, dates);
      var r := started.(objID := objects + Filter(tokens, ObjectOf(started)));
      r.(otherID := Trim(Trim(Trim(others + Filter(tokens, Unclassified(r))))))
  }

  /** The first analysis of a sentence. */
  function Analyse(tree: Option<Tree>, verbs: seq<string>, tokens: seq<Token>, places: seq<Token>,
                   dates: seq<Token>): Record
  {
    AnalyseFrom(tree, verbs, tokens, places, dates, [], [])
  }

  // ----- the class -----

  class SentenceAnalysis {
    const tree: Option<Tree>
    const listVerb: seq<string>
    const tokens: seq<Token>
    const places: seq<Token>
    const dates: seq<Token>
    var npNode: Option<Tree>
    var vpNode: Option<Tree>
    var event: Event
    var objectList: seq<Token>
    var otherList: seq<Token>

    constructor (tree: Option<Tree>, listVerb: seq<string>, tokens: seq<Token>, places: seq<Token>, dates: seq<Token>)
      ensures this.tree == tree && this.listVerb == listVerb && this.tokens == tokens
      ensures this.places == places && this.dates == dates
      ensures objectList == [] && otherList == [] && fresh(event)
    {
      this.tree, this.listVerb, this.tokens, this.places, this.dates := tree, listVerb, tokens, places, dates;
      npNode, vpNode, objectList, otherList := None, None, [], [];
      event := new Event();
    }

    /** `analysisSentence`. The two lists are never emptied: a second call goes on
        from what the first one left in them. */
    method AnalysisSentence()
      modifies this
      ensures fresh(event)
      ensures event.Data() == AnalyseFrom(tree, listVerb, tokens, places, dates, old(objectList), old(otherList))
      ensures npNode.Some? ==> objectList == event.objID && otherList == event.otherID
      ensures npNode.None? ==> objectList == old(objectList) && otherList == old(otherList)
    {
      event := new Event();
      npNode := GetFirstInterestingSubTree(tree, NP);
      if npNode.None? {
        return;  // a null pointer exception, caught and logged
      }
      StartEvent(npNode.value);
      PutObject();
      MakeOtherList();
    }

    /** The event up to its weight: subject, verbs, places and times. */
    method StartEvent(np: Tree)
      requires event.Data() == BLANK
      modifies this`vpNode, event
      ensures vpNode == if tree.None? then None else FirstMatch(tree.value, VP)
      ensures event.Data() == Started(np, vpNode, listVerb, places, dates)
    {
      PutSbToEvent(np);
      vpNode := GetFirstInterestingSubTree(tree, VP);
      FindVbInVp();
      PutStuffOfEvent();
      EmptyLeft(VerbsOf(vpNode, listVerb));
      EmptyLeft(Resolved(dates));
    }

    method PutSbToEvent(np: Tree)
      modifies event
      ensures event.Data() == old(event.Data()).(ctid := TokensOf(np))
    {
      event.ctid := GetTokenFromTree(np);
    }

    method FindVbInVp()
      modifies event
      ensures event.Data() == old(event.Data()).(skid := old(event.skid) + VerbsOf(vpNode, listVerb))
    {
      var vb := GetInterestingSubTree(vpNode, VB);
      var listWord := WordsBelow(vb);
      AddVerbs(listWord);
    }

    method WordsBelow(trees: Option<seq<Tree>>) returns (words: seq<Token>)
      ensures words == if trees.None? then [] else Flatten(Map(TokensOf, trees.value))
    {
      words := [];
      if trees.Some? {
        ghost var all := Map(TokensOf, trees.value);
        for i := 0 to |trees.value|
          invariant words == Flatten(all[..i])
        {
          FrontUpTo(all, i);
          var more := GetTokenFromTree(trees.value[i]);
          words := words + more;
        }
        assert all[..|trees.value|] == all;
      }
    }

    method AddVerbs(words: seq<Token>)
      modifies event
      ensures event.Data() == old(event.Data()).(skid := old(event.skid) + Filter(words, Listed(listVerb)))
    {
      ghost var before := event.Data();
      for i := 0 to |words|
        invariant event.Data() == before.(skid := before.skid + Filter(words[..i], Listed(listVerb)))
      {
        FrontUpTo(words, i);
        var listed := InListVerb(words[i]);
        if listed {
          event.skid := event.skid + [words[i]];
        }
      }
      assert words[..|words|] == words;
    }

    /** The weight is taken here, before there are any objects. */
    method PutStuffOfEvent()
      modifies event
      ensures event.Data() ==
              var r := old(event.Data()).(ncid := places, tgid := dates,
                                          dates := EarliestFirst(old(event.normalizeDate) + Resolved(dates)));
              r.(weight := Weigh(r))
    {
      event.ncid := places;
      event.SetTGID(dates);
      event.CalWeight();
    }

    method PutObject()
      modifies this`objectList, event
      ensures objectList == old(objectList) + Filter(tokens, ObjectOf(old(event.Data())))
      ensures event.Data() == old(event.Data()).(objID := objectList)
    {
      ghost var before := event.Data();
      for i := 0 to |tokens|
        invariant event.Data() == before
        invariant objectList == old(objectList) + Filter(tokens[..i], ObjectOf(before))
      {
        FrontUpTo(tokens, i);
        var inSubject := Contain(event.ctid, tokens[i]);
        var inPlace := Contain(event.ncid, tokens[i]);
        var inTime := Contain(event.tgid, tokens[i]);
        if tokens[i].tag.Some? && tokens[i].tag.value in OBJECT_TAGS && !inSubject && !inPlace && !inTime {
          objectList := objectList + [tokens[i]];
        }
      }
      assert tokens[..|tokens|] == tokens;
      event.objID := objectList;
    }

    method MakeOtherList()
      modifies this`otherList, event
      ensures otherList == Trim(Trim(Trim(old(otherList) + Filter(tokens, Unclassified(old(event.Data()))))))
      ensures event.Data() == old(event.Data()).(otherID := otherList)
    {
      ghost var before := event.Data();
      for i := 0 to |tokens|
        invariant event.Data() == before
        invariant otherList == old(otherList) + Filter(tokens[..i], Unclassified(before))
      {
        FrontUpTo(tokens, i);
        var inSubject := Contain(event.ctid, tokens[i]);
        var inPlace := Contain(event.ncid, tokens[i]);
        var inTime := Contain(event.tgid, tokens[i]);
        var inObject := Contain(event.objID, tokens[i]);
        var inVerb := Contain(event.skid, tokens[i]);
        if !inSubject && !inPlace && !inTime && !inObject && !inVerb {
          otherList := otherList + [tokens[i]];
        }
      }
      assert tokens[..|tokens|] == tokens;
      otherList := TrimLast(otherList);
      otherList := TrimLast(otherList);
      otherList := TrimLast(otherList);
      event.otherID := otherList;
    }

    method TrimLast(list: seq<Token>) returns (trimmed: seq<Token>)
      ensures trimmed == Trim(list)
    {
      if list == [] {
        return list;
      }
      var text := Text(list[|list| - 1]);
      if text == "on" || text == "in" || text == "." {
        return RemoveFirst(list, list[|list| - 1]);
      }
      return list;
    }

    method Contain(list: seq<Token>, t: Token) returns (found: bool)
      ensures found == Inside(list, t)
    {
      for i := 0 to |list|
        invariant forall k :: 0 <= k < i ==> Folded(list[k]) != Folded(t)
      {
        if FOLD(Text(t)) == FOLD(Text(list[i])) {
          return true;
        }
      }
      return false;
    }

    method InListVerb(t: Token) returns (found: bool)
      ensures found == IsListed(listVerb, t)
    {
      for i := 0 to |listVerb|
        invariant forall k :: 0 <= k < i ==> FOLD(t.value) != FOLD(listVerb[k])
      {
        if FOLD(t.value) == FOLD(listVerb[i]) {
          return true;
        }
      }
      return false;
    }

    method GetTokenFromTree(t: Tree) returns (result: seq<Token>)
      ensures result == TokensOf(t)
    {
      var leaves := Leaves(t);
      result := [];
      for i := 0 to |leaves|
        invariant result == Map(LeafToken, leaves[..i])
      {
        result := result + [LeafToken(leaves[i])];
      }
    }

    method GetFirstInterestingSubTree(t: Option<Tree>, p: Pattern) returns (r: Option<Tree>)
      ensures r == if t.None? then None else FirstMatch(t.value, p)
    {
      if t.None? {
        return None;
      }
      r := FirstSubTree(t.value, p);
    }

    method GetInterestingSubTree(t: Option<Tree>, p: Pattern) returns (r: Option<seq<Tree>>)
      ensures r == if t.None? then None else Some(TopMatches(t.value, p))
    {
      if t.None? {
        return None;
      }
      var found := SubTrees(t.value, p);
      return Some(found);
    }
  }

  // ----- the verbs -----

  lemma {:induction false} FlattenTokens(ts: seq<Tree>)
    ensures Flatten(Map(TokensOf, ts)) == Map(LeafToken, LeavesOf(ts))
  {
    if ts == [] {
      assert Map(TokensOf, ts) == [] && Map(Leaves, ts) == [];
    } else {
      FlattenTokens(Front(ts));
      assert Front(Map(TokensOf, ts)) == Map(TokensOf, Front(ts));
      assert Front(Map(Leaves, ts)) == Map(Leaves, Front(ts));
      MapConcat(LeafToken, LeavesOf(Front(ts)), Leaves(Last(ts)));
    }
  }

  lemma SubsequenceMap<T, U>(f: T -> U, a: seq<T>, b: seq<T>)
    requires IsSubsequence(a, b)
    ensures IsSubsequence(Map(f, a), Map(f, b))
  {
    var pos :| SelectedAt(a, b, pos);
    assert SelectedAt(Map(f, a), Map(f, b), pos);
  }

  /** The verbs of an analysed sentence are exactly the listed words below the
      topmost VB nodes of the first VP, and they stand in sentence order. */
  lemma VerbsInSentenceOrder(tree: Tree, verbs: seq<string>, tokens: seq<Token>, places: seq<Token>, dates: seq<Token>)
    ensures var r := Analyse(Some(tree), verbs, tokens, places, dates);
            && IsSubsequence(r.skid, TokensOf(tree))
            && (FirstMatch(tree, NP).Some? && FirstMatch(tree, VP).Some? ==>
                  r.skid == Filter(Map(LeafToken, LeavesOf(TopMatches(FirstMatch(tree, VP).value, VB))), Listed(verbs)))
  {
    var r := Analyse(Some(tree), verbs, tokens, places, dates);
    if FirstMatch(tree, NP).Some? && FirstMatch(tree, VP).Some? {
      var vp := FirstMatch(tree, VP).value;
      var words := LeavesOf(TopMatches(vp, VB));
      FlattenTokens(TopMatches(vp, VB));
      TopLeavesInOrder(vp, VB);
      FirstLeavesInOrder(tree, VP);
      SubsequenceTransitive(words, Leaves(vp), Leaves(tree));
      SubsequenceMap(LeafToken, words, Leaves(tree));
      FilterSubsequence(Map(LeafToken, words), Listed(verbs));
      SubsequenceTransitive(r.skid, Map(LeafToken, words), TokensOf(tree));
    } else {
      SubsequenceEmpty(TokensOf(tree));
    }
  }

  // ----- an analysis told on labels, positions and texts -----

  /** The tokens are made of the words of the leaves at `paths`, which run left to right. */
  ghost predicate TokensAt(tokens: seq<Token>, t: Tree, paths: seq<Path>)
  {
    && |paths| == |tokens| && LeftToRight(paths)
    && forall i :: 0 <= i < |paths| ==>
         && LeafAt(t, paths[i])
         && var word := At(t, paths[i]).value.tag; tokens[i] == Token(None, word, word, None, None, None)
  }

  lemma TokensAtWords(words: seq<string>, t: Tree, paths: seq<Path>)
    requires WordsAt(words, t, paths)
    ensures TokensAt(Map(LeafToken, words), t, paths)
  {
    forall i | 0 <= i < |paths|
      ensures Map(LeafToken, words)[i] == Token(None, words[i], words[i], None, None, None)
    {
      MapIndex(LeafToken, words, i);
    }
  }

  /** The subject of an event is made of all the leaves below the first NP node of
      its sentence, left to right. */
  lemma SubjectExact(tree: Tree, verbs: seq<string>, tokens: seq<Token>, places: seq<Token>, dates: seq<Token>,
                     objects: seq<Token>, others: seq<Token>, np: Path) returns (paths: seq<Path>)
    requires FirstNode(tree, "NP", np)
    ensures TokensAt(AnalyseFrom(Some(tree), verbs, tokens, places, dates, objects, others).ctid, tree, paths)
    ensures forall q: Path :: q in paths <==> LeafAt(tree, q) && np <= q
  {
    FirstNodeIs(tree, "NP", np);
    paths := SubtreeLeaves(tree, np);
    TokensAtWords(Leaves(At(tree, np).value), tree, paths);
  }

  ghost predicate ListedWord(verbs: seq<string>, word: string)
  {
    exists i :: 0 <= i < |verbs| && FOLD(verbs[i]) == FOLD(word)
  }

  /** The positions of the tokens a filter keeps. */
  lemma TokensAtFilter(tokens: seq<Token>, t: Tree, paths: seq<Path>, verbs: seq<string>) returns (some: seq<Path>)
    requires TokensAt(tokens, t, paths)
    ensures TokensAt(Filter(tokens, Listed(verbs)), t, some)
    ensures forall q: Path :: q in some <==> q in paths && LeafAt(t, q) && ListedWord(verbs, At(t, q).value.tag)
  {
    var pos := FilterExact(tokens, Listed(verbs));
    some := Chosen(paths, pos);
    forall i | 0 <= i < |paths|
      ensures Listed(verbs)(tokens[i]) <==> ListedWord(verbs, At(t, paths[i]).value.tag)
    {
      ListedIs(verbs, tokens[i], At(t, paths[i]).value.tag);
    }
    forall q: Path
      ensures q in some <==> q in paths && LeafAt(t, q) && ListedWord(verbs, At(t, q).value.tag)
    {
      ChosenMember(paths, pos, q);
    }
    forall i | 0 <= i < |some|
      ensures some[i] == paths[pos[i]] && Filter(tokens, Listed(verbs))[i] == tokens[pos[i]]
    {
    }
  }

  function Chosen(paths: seq<Path>, pos: seq<nat>): seq<Path>
    requires forall i :: 0 <= i < |pos| ==> pos[i] < |paths|
  {
    seq(|pos|, i requires 0 <= i < |pos| => paths[pos[i]])
  }

  lemma ChosenMember(paths: seq<Path>, pos: seq<nat>, q: Path)
    requires forall i :: 0 <= i < |pos| ==> pos[i] < |paths|
    ensures q in Chosen(paths, pos) <==> exists j: nat :: j in pos && j < |paths| && paths[j] == q
  {
    var some := Chosen(paths, pos);
    if q in some {
      var i :| 0 <= i < |some| && some[i] == q;
      assert pos[i] in pos && paths[pos[i]] == q;
    }
    if j: nat :| j in pos && j < |paths| && paths[j] == q {
      var i :| 0 <= i < |pos| && pos[i] == j;
      assert some[i] == q;
    }
  }

  lemma ListedIs(verbs: seq<string>, t: Token, word: string)
    requires t == Token(None, word, word, None, None, None)
    ensures Listed(verbs)(t) <==> ListedWord(verbs, word)
  {
  }

  /** The verbs of an event are made of exactly those leaves below the first VP
      node of its sentence that have a node labelled "VB" and word characters
      above them, not above that VP, and whose word is in the verb list up to
      case; left to right. */
  lemma VerbsExact(tree: Tree, verbs: seq<string>, tokens: seq<Token>, places: seq<Token>, dates: seq<Token>,
                   objects: seq<Token>, others: seq<Token>, np: Path, vp: Path) returns (paths: seq<Path>)
    requires FirstNode(tree, "NP", np) && FirstNode(tree, "VP", vp)
    ensures TokensAt(AnalyseFrom(Some(tree), verbs, tokens, places, dates, objects, others).skid, tree, paths)
    ensures forall q: Path :: q in paths <==>
              LeafAt(tree, q) && vp <= q && VerbAbove(tree, vp, q) && ListedWord(verbs, At(tree, q).value.tag)
  {
    FirstNodeIs(tree, "NP", np);
    FirstNodeIs(tree, "VP", vp);
    var found := TopMatches(At(tree, vp).value, Prefixed("VB"));
    var all := VerbLeaves(tree, vp);
    TokensAtWords(LeavesOf(found), tree, all);
    FlattenTokens(found);
    paths := TokensAtFilter(Map(LeafToken, LeavesOf(found)), tree, all, verbs);
  }

  /** Without a VP node there are no verbs; without an NP node, or without a tree,
      the event stays blank. */
  lemma WithoutPhrase(tree: Tree, verbs: seq<string>, tokens: seq<Token>, places: seq<Token>, dates: seq<Token>,
                      objects: seq<Token>, others: seq<Token>)
    ensures (forall q: Path :: !LabelAt(tree, q, "VP")) ==>
              AnalyseFrom(Some(tree), verbs, tokens, places, dates, objects, others).skid == []
    ensures (forall q: Path :: !LabelAt(tree, q, "NP")) ==>
              AnalyseFrom(Some(tree), verbs, tokens, places, dates, objects, others)
              == Record([], [], [], [], [], [], [], 0)
    ensures AnalyseFrom(None, verbs, tokens, places, dates, objects, others) == Record([], [], [], [], [], [], [], 0)
  {
    var np := FirstNodeFound(tree, "NP");
    var vp := FirstNodeFound(tree, "VP");
  }

  lemma ObjectsAt(r: Record, tokens: seq<Token>) returns (pos: seq<nat>)
    ensures SelectedAt(Filter(tokens, ObjectOf(r)), tokens, pos)
    ensures forall i: nat :: i in pos <==>
              && i < |tokens| && tokens[i].tag.Some?
              && tokens[i].tag.value in ["NP", "NNP", "NN", "NNPS", "PRP"]
              && !Inside(r.ctid, tokens[i]) && !Inside(r.ncid, tokens[i]) && !Inside(r.tgid, tokens[i])
  {
    pos := FilterExact(tokens, ObjectOf(r));
  }

  lemma OthersAt(r: Record, tokens: seq<Token>) returns (pos: seq<nat>)
    ensures SelectedAt(Filter(tokens, Unclassified(r)), tokens, pos)
    ensures forall i: nat :: i in pos <==>
              && i < |tokens|
              && !Inside(r.ctid, tokens[i]) && !Inside(r.ncid, tokens[i]) && !Inside(r.tgid, tokens[i])
              && !Inside(r.objID, tokens[i]) && !Inside(r.skid, tokens[i])
  {
    pos := FilterExact(tokens, Unclassified(r));
  }

  /** The lists an analysis fills besides subject and verbs: the recogniser's
      places and times, each in its own field; the objects, which are the old ones
      followed by exactly the tokens with an object tag that text-match neither
      subject nor places nor times; and the other tokens, which are the old ones
      followed by exactly the tokens that text-match none of the five lists, trimmed
      three times. The weight counts one for times and one for places. */
  lemma ListsExact(tree: Tree, verbs: seq<string>, tokens: seq<Token>, places: seq<Token>, dates: seq<Token>,
                   objects: seq<Token>, others: seq<Token>, np: Path)
    returns (more: seq<Token>, moreAt: seq<nat>, open: seq<Token>, openAt: seq<nat>)
    requires FirstNode(tree, "NP", np)
    ensures var r := AnalyseFrom(Some(tree), verbs, tokens, places, dates, objects, others);
            && r.ncid == places && r.tgid == dates
            && r.weight == (if dates != [] then 1 else 0) + (if places != [] then 1 else 0)
            && r.objID == objects + more && SelectedAt(more, tokens, moreAt)
            && (forall i: nat :: i in moreAt <==>
                  && i < |tokens| && tokens[i].tag.Some?
                  && tokens[i].tag.value in ["NP", "NNP", "NN", "NNPS", "PRP"]
                  && !Inside(r.ctid, tokens[i]) && !Inside(places, tokens[i]) && !Inside(dates, tokens[i]))
            && r.otherID == Trim(Trim(Trim(others + open))) && SelectedAt(open, tokens, openAt)
            && (forall i: nat :: i in openAt <==>
                  && i < |tokens|
                  && !Inside(r.ctid, tokens[i]) && !Inside(places, tokens[i]) && !Inside(dates, tokens[i])
                  && !Inside(r.objID, tokens[i]) && !Inside(r.skid, tokens[i]))
  {
    FirstNodeIs(tree, "NP", np);
    var r := AnalyseFrom(Some(tree), verbs, tokens, places, dates, objects, others);
    var started := Started(At(tree, np).value, FirstMatch(tree, VP), verbs, places, dates);
    more := Filter(tokens, ObjectOf(started));
    moreAt := ObjectsAt(started, tokens);
    SameUnclassified(r, started.(objID := r.objID), tokens);
    open := Filter(tokens, Unclassified(r));
    openAt := OthersAt(r, tokens);
  }

  // ----- subject and weight -----

  /** An event with a verb has a subject: it passed the noun phrase, whose
      leaves are never empty. */
  lemma VerbImpliesSubject(tree: Option<Tree>, verbs: seq<string>, tokens: seq<Token>, places: seq<Token>,
                           dates: seq<Token>)
    ensures var r := Analyse(tree, verbs, tokens, places, dates);
            r.skid != [] ==> r.ctid != []
  {
    if tree.Some? && FirstMatch(tree.value, NP).Some? {
      LeavesNotEmpty(FirstMatch(tree.value, NP).value);
    }
  }

  /** Objects never count towards the weight, however many there are. */
  lemma WeightIgnoresObjects(tree: Tree, verbs: seq<string>, tokens: seq<Token>, places: seq<Token>, dates: seq<Token>)
    requires FirstMatch(tree, NP).Some?
    ensures Analyse(Some(tree), verbs, tokens, places, dates).weight
            == (if dates != [] then 1 else 0) + (if places != [] then 1 else 0)
    ensures forall more: seq<Token> :: Analyse(Some(tree), verbs, more, places, dates).weight
                                       == Analyse(Some(tree), verbs, tokens, places, dates).weight
  {
  }

  // ----- the partition of the sentence's tokens -----

  /** `gone` are the tokens three trims removed. */
  ghost predicate TrimmedBy(before: seq<Token>, after: seq<Token>, gone: seq<Token>)
  {
    && |gone| <= 3
    && (forall t :: t in gone ==> Trimmable(t))
    && multiset(before) == multiset(after) + multiset(gone)
    && IsSubsequence(after, before)
  }

  lemma TrimStep(s: seq<Token>) returns (gone: seq<Token>)
    ensures |gone| <= 1 && (forall t :: t in gone ==> Trimmable(t))
    ensures multiset(s) == multiset(Trim(s)) + multiset(gone)
    ensures IsSubsequence(Trim(s), s)
  {
    if s != [] && Trimmable(Last(s)) {
      gone := [Last(s)];
      RemoveFirstMultiset(s, Last(s));
      RemoveFirstSubsequence(s, Last(s));
    } else {
      gone := [];
      SubsequenceSelf(s);
    }
  }

  lemma ThreeTrims(s: seq<Token>) returns (gone: seq<Token>)
    ensures TrimmedBy(s, Trim(Trim(Trim(s))), gone)
  {
    var a := TrimStep(s);
    var b := TrimStep(Trim(s));
    var c := TrimStep(Trim(Trim(s)));
    gone := a + b + c;
    SubsequenceTransitive(Trim(Trim(s)), Trim(s), s);
    SubsequenceTransitive(Trim(Trim(Trim(s))), Trim(Trim(s)), s);
  }

  lemma OpenTokens(r: Record, tokens: seq<Token>, others: seq<Token>, gone: seq<Token>)
    requires TrimmedBy(Filter(tokens, Unclassified(r)), others, gone)
    ensures forall t :: t in tokens ==> Classified(r, t) || t in others || t in gone
    ensures forall t :: t in others ==> t in tokens && !Classified(r, t)
    ensures IsSubsequence(others, tokens)
  {
    var open := Filter(tokens, Unclassified(r));
    forall t
      ensures t in open <==> t in others || t in gone
    {
      assert t in open <==> t in multiset(others) + multiset(gone);
    }
    FilterSubsequence(tokens, Unclassified(r));
    SubsequenceTransitive(others, open, tokens);
  }

  lemma SameUnclassified(r: Record, other: Record, tokens: seq<Token>)
    requires r == other.(otherID := r.otherID)
    ensures Filter(tokens, Unclassified(r)) == Filter(tokens, Unclassified(other))
  {
    FilterAgree(tokens, Unclassified(r), Unclassified(other));
  }

  lemma FirstAnalysis(np: Tree, vp: Option<Tree>, verbs: seq<string>, tokens: seq<Token>, places: seq<Token>,
                      dates: seq<Token>, tree: Tree)
    requires FirstMatch(tree, NP) == Some(np) && FirstMatch(tree, VP) == vp
    ensures var started := Started(np, vp, verbs, places, dates);
            var r := Analyse(Some(tree), verbs, tokens, places, dates);
            && r.objID == Filter(tokens, ObjectOf(started))
            && r == started.(objID := r.objID, otherID := r.otherID)
            && r.otherID == Trim(Trim(Trim(Filter(tokens, Unclassified(started.(objID := r.objID))))))
  {
    var started := Started(np, vp, verbs, places, dates);
    var objects := Filter(tokens, ObjectOf(started));
    var others := Filter(tokens, Unclassified(started.(objID := objects)));
    EmptyLeft(objects);
    EmptyLeft(others);
  }

  /** Every token of the sentence text-matches one of the five lists, or is among
      the other tokens, or is one of at most three trimmed "on", "in" and "."
      tokens. The other tokens match none of the five lists and the objects match
      neither subject nor places nor times; both stand in sentence order. */
  lemma TokensCovered(tree: Tree, verbs: seq<string>, tokens: seq<Token>, places: seq<Token>, dates: seq<Token>)
    returns (gone: seq<Token>)
    requires FirstMatch(tree, NP).Some?
    ensures var r := Analyse(Some(tree), verbs, tokens, places, dates);
            && |gone| <= 3
            && (forall t :: t in gone ==> Text(t) == "on" || Text(t) == "in" || Text(t) == ".")
            && multiset(Filter(tokens, Unclassified(r))) == multiset(r.otherID) + multiset(gone)
            && (forall t :: t in tokens ==> Classified(r, t) || t in r.otherID || t in gone)
            && (forall t :: t in r.otherID ==> !Classified(r, t))
            && (forall t :: t in r.objID <==> t in tokens && t.tag.Some?
                                              && t.tag.value in ["NP", "NNP", "NN", "NNPS", "PRP"]
                                              && !Inside(r.ctid, t) && !Inside(r.ncid, t) && !Inside(r.tgid, t))
            && IsSubsequence(r.otherID, tokens) && IsSubsequence(r.objID, tokens)
  {
    var np, vp := FirstMatch(tree, NP).value, FirstMatch(tree, VP);
    FirstAnalysis(np, vp, verbs, tokens, places, dates, tree);
    var r := Analyse(Some(tree), verbs, tokens, places, dates);
    var started := Started(np, vp, verbs, places, dates);
    SameUnclassified(r, started.(objID := r.objID), tokens);
    gone := ThreeTrims(Filter(tokens, Unclassified(r)));
    OpenTokens(r, tokens, r.otherID, gone);
    FilterSubsequence(tokens, ObjectOf(started));
  }

  // ----- what trimming removes -----

  /** A trim takes out the first token equal to the last one if the text of that
      is "on", "in" or ".", and otherwise nothing. */
  lemma TrimExact(s: seq<Token>) returns (i: nat)
    ensures s == [] || Text(Last(s)) !in ["on", "in", "."] ==> Trim(s) == s
    ensures s != [] && Text(Last(s)) in ["on", "in", "."] ==>
              i < |s| && s[i] == Last(s) && s[i] !in s[..i] && Trim(s) == s[..i] + s[i + 1..]
  {
    i := 0;
    if s != [] && Trimmable(Last(s)) {
      i := RemoveFirstAt(s, Last(s));
    }
  }

  /** From its first occurrence on, `x` is all there is. */
  ghost predicate OnlyAtEnd(s: seq<Token>, x: Token)
  {
    forall i, j :: 0 <= i < j < |s| && s[i] == x ==> s[j] == x
  }

  lemma {:induction false} RemoveFirstIsLast(s: seq<Token>)
    requires s != []
    ensures RemoveFirst(s, Last(s)) == Front(s) <==> OnlyAtEnd(s, Last(s))
  {
    var x, rest := Last(s), s[1..];
    if |s| == 1 {
      assert rest == Front(s);
    } else if s[0] == x {
      HeadIsLast(s);
    } else {
      RemoveFirstIsLast(rest);
      FrontOfTail(s);
      OnlyAtEndTail(s, x);
      assert RemoveFirst(s, x)[1..] == RemoveFirst(rest, x);
    }
  }

  lemma FrontOfTail(s: seq<Token>)
    requires |s| > 1
    ensures Front(s) == [s[0]] + Front(s[1..]) && Front(s)[1..] == Front(s[1..]) && Last(s[1..]) == Last(s)
  {
  }

  lemma OnlyAtEndTail(s: seq<Token>, x: Token)
    requires s != [] && s[0] != x
    ensures OnlyAtEnd(s, x) <==> OnlyAtEnd(s[1..], x)
  {
    var rest := s[1..];
    assert forall i :: 0 < i < |s| ==> s[i] == rest[i - 1];
  }

  lemma HeadIsLast(s: seq<Token>)
    requires s != [] && s[0] == Last(s)
    ensures s[1..] == Front(s) <==> OnlyAtEnd(s, Last(s))
  {
    if s[1..] == Front(s) {
      AllEqual(s, Last(s));
    }
    if OnlyAtEnd(s, Last(s)) {
      assert s[1..] == Front(s);
    }
  }

  lemma {:induction false} AllEqual(s: seq<Token>, x: Token)
    requires |s| > 0 && s[0] == x && s[1..] == Front(s)
    ensures forall i :: 0 <= i < |s| ==> s[i] == x
  {
    for i := 0 to |s|
      invariant forall k :: 0 <= k < i ==> s[k] == x
    {
      if i > 0 {
        assert s[1..][i - 1] == Front(s)[i - 1];
      }
    }
  }

  /** One trim of a trimmable last token takes that token away exactly when
      nothing else follows an equal one. */
  lemma TrimTakesLast(s: seq<Token>)
    requires s != [] && Trimmable(Last(s))
    ensures Trim(s) == Front(s) <==> OnlyAtEnd(s, Last(s))
  {
    RemoveFirstIsLast(s);
  }

  /** With "on a on", trimming takes the leading "on" as well. */
  lemma TrimTakesEarlier(a: Token, on: Token)
    requires Text(on) == "on" && !Trimmable(a)
    ensures Trim([on, a, on]) == [a, on]
    ensures Trim(Trim(Trim([on, a, on]))) == [a]
  {
    var s := [on, a, on];
    assert s[0] == Last(s) && s[1..] == [a, on];
    assert [a, on][1..] == [on] && [on][0] == on && [on][1..] == [];
    assert RemoveFirst([on], on) == [];
    assert RemoveFirst([a, on], on) == [a] + RemoveFirst([on], on);
    assert Trim([a, on]) == [a];
  }

  /** The last `d` tokens are the longest trimmable suffix of length up to `n`. */
  ghost predicate LongestSuffix(s: seq<Token>, n: nat, d: nat)
  {
    && d <= n && d <= |s|
    && (forall i :: |s| - d <= i < |s| ==> Trimmable(s[i]))
    && (d < n && d < |s| ==> !Trimmable(s[|s| - d - 1]))
  }

  ghost predicate PairwiseDistinct(s: seq<Token>)
  {
    forall i, j :: 0 <= i < j < |s| ==> s[i] != s[j]
  }

  lemma TrimDistinct(s: seq<Token>)
    requires PairwiseDistinct(s)
    ensures Trim(s) == if s != [] && Trimmable(Last(s)) then Front(s) else s
    ensures PairwiseDistinct(Trim(s))
  {
    if s != [] && Trimmable(Last(s)) {
      TrimTakesLast(s);
    }
  }

  function TrimTimes(s: seq<Token>, n: nat): seq<Token>
    decreases n
  {
    if n == 0 then s else TrimTimes(Trim(s), n - 1)
  }

  lemma {:induction false} TrimTimesStops(s: seq<Token>, n: nat)
    requires s == [] || !Trimmable(Last(s))
    ensures TrimTimes(s, n) == s
    decreases n
  {
    if n > 0 {
      TrimTimesStops(s, n - 1);
    }
  }

  /** How many trimmable tokens end the list, counting up to `n`. */
  function TrimmableTail(s: seq<Token>, n: nat): (d: nat)
    ensures d <= n && d <= |s|
    decreases n
  {
    if n == 0 || s == [] || !Trimmable(Last(s)) then 0 else 1 + TrimmableTail(Front(s), n - 1)
  }

  lemma {:induction false} TrimmableTailExact(s: seq<Token>, n: nat)
    ensures LongestSuffix(s, n, TrimmableTail(s, n))
    decreases n
  {
    if n == 0 || s == [] || !Trimmable(Last(s)) {
      EmptySuffix(s, n);
    } else {
      TrimmableTailExact(Front(s), n - 1);
      LongerSuffix(s, n, TrimmableTail(Front(s), n - 1));
    }
  }

  lemma TrimTimesNext(s: seq<Token>, n: nat)
    requires n > 0 && PairwiseDistinct(s) && s != [] && Trimmable(Last(s))
    ensures PairwiseDistinct(Front(s)) && TrimTimes(s, n) == TrimTimes(Front(s), n - 1)
  {
    TrimDistinct(s);
  }

  /** The list without its trimmable tail. */
  function Kept(s: seq<Token>, n: nat): seq<Token>
  {
    s[..|s| - TrimmableTail(s, n)]
  }

  lemma KeptNext(s: seq<Token>, n: nat)
    requires n > 0 && s != [] && Trimmable(Last(s))
    ensures Kept(s, n) == Kept(Front(s), n - 1)
  {
    var front, d := Front(s), TrimmableTail(Front(s), n - 1);
    assert front[..|front| - d] == s[..|s| - (d + 1)];
  }

  lemma KeptAll(s: seq<Token>, n: nat)
    requires n == 0 || s == [] || !Trimmable(Last(s))
    ensures Kept(s, n) == s
  {
    TakeAll(s);
  }

  lemma {:induction false} TrimTimesExact(s: seq<Token>, n: nat)
    requires PairwiseDistinct(s)
    ensures TrimTimes(s, n) == Kept(s, n)
    decreases n
  {
    if n == 0 {
      KeptAll(s, n);
    } else if s == [] || !Trimmable(Last(s)) {
      KeptAll(s, n);
      TrimTimesStops(s, n);
    } else {
      KeptNext(s, n);
      TrimTimesNext(s, n);
      TrimTimesExact(Front(s), n - 1);
    }
  }

  /** On pairwise distinct tokens `n` trims remove exactly the longest trimmable
      suffix of length up to `n`. */
  lemma TrimLongestSuffix(s: seq<Token>, n: nat) returns (d: nat)
    requires PairwiseDistinct(s)
    ensures LongestSuffix(s, n, d) && TrimTimes(s, n) == s[..|s| - d]
  {
    d := TrimmableTail(s, n);
    TrimmableTailExact(s, n);
    TrimTimesExact(s, n);
  }

  lemma EmptySuffix(s: seq<Token>, n: nat)
    requires n == 0 || s == [] || !Trimmable(Last(s))
    ensures LongestSuffix(s, n, 0) && s[..|s| - 0] == s
  {
  }

  lemma LongerSuffix(s: seq<Token>, n: nat, d: nat)
    requires n > 0 && s != [] && Trimmable(Last(s)) && LongestSuffix(Front(s), n - 1, d)
    ensures LongestSuffix(s, n, d + 1)
  {
    forall i | |s| - (d + 1) <= i < |s|
      ensures Trimmable(s[i])
    {
      if i < |s| - 1 {
        assert Front(s)[i] == s[i];
      }
    }
    if d + 1 < |s| {
      assert Front(s)[|Front(s)| - d - 1] == s[|s| - (d + 1) - 1];
    }
  }

  lemma SubsequenceDistinct(a: seq<Token>, b: seq<Token>)
    requires IsSubsequence(a, b) && PairwiseDistinct(b)
    ensures PairwiseDistinct(a)
  {
    var pos :| SelectedAt(a, b, pos);
    forall i, j | 0 <= i < j < |a|
      ensures a[i] != a[j]
    {
      assert pos[i] < pos[j];
    }
  }

  /** When the sentence's tokens are pairwise distinct, the other tokens are the
      unclassified ones, in order, without their longest suffix of at most three
      "on", "in" and "." tokens. */
  lemma OtherTokensExact(tree: Tree, verbs: seq<string>, tokens: seq<Token>, places: seq<Token>, dates: seq<Token>)
    returns (d: nat)
    requires FirstMatch(tree, NP).Some? && PairwiseDistinct(tokens)
    ensures var r := Analyse(Some(tree), verbs, tokens, places, dates);
            var open := Filter(tokens, Unclassified(r));
            LongestSuffix(open, 3, d) && r.otherID == open[..|open| - d]
  {
    var np, vp := FirstMatch(tree, NP).value, FirstMatch(tree, VP);
    FirstAnalysis(np, vp, verbs, tokens, places, dates, tree);
    var r := Analyse(Some(tree), verbs, tokens, places, dates);
    var r' := Started(np, vp, verbs, places, dates).(objID := r.objID);
    FilterAgree(tokens, Unclassified(r), Unclassified(r'));
    FilterSubsequence(tokens, Unclassified(r));
    SubsequenceDistinct(Filter(tokens, Unclassified(r)), tokens);
    var open := Filter(tokens, Unclassified(r));
    d := TrimLongestSuffix(open, 3);
    assert TrimTimes(open, 3) == Trim(Trim(Trim(open)));
  }
}
