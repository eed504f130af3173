/** Parse trees, the two label searches, and what each of them finds. */
module Trees {
  import opened Sequences

  datatype Tree = Tree(tag: string, children: seq<Tree>)

  /** The two kinds of regular expression the searches use: a literal label, and
      a prefix followed by word characters. */
  datatype Pattern = Literal(name: string) | Prefixed(prefix: string)

  predicate WordCharacter(c: char)
  {
    'a' <= c <= 'z' || 'A' <= c <= 'Z' || '0' <= c <= '9' || c == '_'
  }

  predicate Matches(p: Pattern, tag: string)
  {
    match p
    case Literal(name) => tag == name
    case Prefixed(prefix) => prefix <= tag && forall i :: |prefix| <= i < |tag| ==> WordCharacter(tag[i])
  }

  // ----- leaves -----

  function Leaves(t: Tree): seq<string>
    decreases t, |t.children| + 1
  {
    if t.children == [] then [t.tag] else LeavesUpTo(t, |t.children|)
  }

  /** The leaves below the first `n` children. */
  function LeavesUpTo(t: Tree, n: nat): seq<string>
    requires n <= |t.children|
    decreases t, n
  {
    if n == 0 then [] else LeavesUpTo(t, n - 1) + Leaves(t.children[n - 1])
  }

  lemma {:induction false} LeavesNotEmpty(t: Tree)
    ensures Leaves(t) != []
  {
    if t.children != [] {
      LeavesNotEmpty(t.children[|t.children| - 1]);
    }
  }

  // ----- first match -----

  function FirstMatch(t: Tree, p: Pattern): Option<Tree>
    decreases t, |t.children| + 1
  {
    if Matches(p, t.tag) then Some(t) else FirstUpTo(t, p, |t.children|)
  }

  function FirstUpTo(t: Tree, p: Pattern, n: nat): Option<Tree>
    requires n <= |t.children|
    decreases t, n
  {
    if n == 0 then None
    else if FirstUpTo(t, p, n - 1).Some? then FirstUpTo(t, p, n - 1)
    else FirstMatch(t.children[n - 1], p)
  }

  // ----- topmost matches -----

  function TopMatches(t: Tree, p: Pattern): seq<Tree>
    decreases t, |t.children| + 1
  {
    if Matches(p, t.tag) then [t] else TopUpTo(t, p, |t.children|)
  }

  function TopUpTo(t: Tree, p: Pattern, n: nat): seq<Tree>
    requires n <= |t.children|
    decreases t, n
  {
    if n == 0 then [] else TopUpTo(t, p, n - 1) + TopMatches(t.children[n - 1], p)
  }

  /** `getFirstInterestingSubTree` on a tree that is not null. */
  method FirstSubTree(t: Tree, p: Pattern) returns (r: Option<Tree>)
    ensures r == FirstMatch(t, p)
    decreases t
  {
    if Matches(p, t.tag) {
      return Some(t);
    }
    for i := 0 to |t.children|
      invariant FirstUpTo(t, p, i) == None
    {
      r := FirstSubTree(t.children[i], p);
      if r.Some? {
        FirstStays(t, p, i + 1, |t.children|);
        return r;
      }
    }
    return None;
  }

  lemma {:induction false} FirstStays(t: Tree, p: Pattern, m: nat, n: nat)
    requires m <= n <= |t.children| && FirstUpTo(t, p, m).Some?
    ensures FirstUpTo(t, p, n) == FirstUpTo(t, p, m)
    decreases n
  {
    if m < n {
      FirstStays(t, p, m, n - 1);
    }
  }

  /** `getInterestingSubTree` on a tree that is not null. */
  method SubTrees(t: Tree, p: Pattern) returns (r: seq<Tree>)
    ensures r == TopMatches(t, p)
    decreases t
  {
    if Matches(p, t.tag) {
      return [t];
    }
    r := [];
    for i := 0 to |t.children|
      invariant r == TopUpTo(t, p, i)
    {
      var below := SubTrees(t.children[i], p);
      r := r + below;
    }
  }

  // ----- positions in a tree -----

  /** A node's position: the child taken at each step down from the root. */
  type Path = seq<nat>

  function At(t: Tree, path: Path): Option<Tree>
    decreases |path|
  {
    if path == [] then Some(t)
    else if path[0] < |t.children| then At(t.children[path[0]], path[1..])
    else None
  }

  /** There is a node at `path` and its label matches. */
  predicate MatchesAt(t: Tree, p: Pattern, path: Path)
  {
    At(t, path).Some? && Matches(p, At(t, path).value.tag)
  }

  /** The positions of the topmost matches, left to right. */
  function TopPaths(t: Tree, p: Pattern): seq<Path>
    decreases t, |t.children| + 1
  {
    if Matches(p, t.tag) then [[]] else TopPathsUpTo(t, p, |t.children|)
  }

  function TopPathsUpTo(t: Tree, p: Pattern, n: nat): seq<Path>
    requires n <= |t.children|
    decreases t, n
  {
    if n == 0 then [] else TopPathsUpTo(t, p, n - 1) + Map(Under(n - 1), TopPaths(t.children[n - 1], p))
  }

  function Under(k: nat): Path -> Path
  {
    (path: Path) => [k] + path
  }

  function Locate(t: Tree): Path -> Option<Tree>
  {
    (path: Path) => At(t, path)
  }

  function Found(t: Tree): Option<Tree>
  {
    Some(t)
  }

  lemma LocateBelow(t: Tree, k: nat, paths: seq<Path>)
    requires k < |t.children|
    ensures Map(Locate(t), Map(Under(k), paths)) == Map(Locate(t.children[k]), paths)
  {
    forall i | 0 <= i < |paths|
      ensures At(t, [k] + paths[i]) == At(t.children[k], paths[i])
    {
      assert ([k] + paths[i])[1..] == paths[i];
    }
  }

  /** The trees found are the nodes at these positions. */
  lemma {:induction false} TopLocated(t: Tree, p: Pattern)
    ensures Map(Locate(t), TopPaths(t, p)) == Map(Found, TopMatches(t, p))
    decreases t, |t.children| + 1
  {
    if Matches(p, t.tag) {
      assert Map(Locate(t), [[]]) == [Some(t)] == Map(Found, [t]);
    } else {
      TopLocatedUpTo(t, p, |t.children|);
    }
  }

  lemma {:induction false} TopLocatedUpTo(t: Tree, p: Pattern, n: nat)
    requires n <= |t.children|
    ensures Map(Locate(t), TopPathsUpTo(t, p, n)) == Map(Found, TopUpTo(t, p, n))
    decreases t, n
  {
    if n > 0 {
      TopLocatedUpTo(t, p, n - 1);
      TopLocated(t.children[n - 1], p);
      LocateBelow(t, n - 1, TopPaths(t.children[n - 1], p));
      MapConcat(Locate(t), TopPathsUpTo(t, p, n - 1), Map(Under(n - 1), TopPaths(t.children[n - 1], p)));
      MapConcat(Found, TopUpTo(t, p, n - 1), TopMatches(t.children[n - 1], p));
    }
  }

  lemma InBelow(k: nat, paths: seq<Path>, q: Path)
    ensures q in Map(Under(k), paths) <==> q != [] && q[0] == k && q[1..] in paths
  {
    if q != [] && q[0] == k && q[1..] in paths {
      var i :| 0 <= i < |paths| && paths[i] == q[1..];
      assert Map(Under(k), paths)[i] == [k] + q[1..] == q;
    }
    if q in Map(Under(k), paths) {
      var i :| 0 <= i < |paths| && Map(Under(k), paths)[i] == q;
      assert q == [k] + paths[i] && q[1..] == paths[i];
    }
  }

  lemma {:induction false} TopPathsMember(t: Tree, p: Pattern, n: nat, q: Path)
    requires n <= |t.children|
    ensures q in TopPathsUpTo(t, p, n) <==> q != [] && q[0] < n && q[1..] in TopPaths(t.children[q[0]], p)
    decreases n
  {
    if n > 0 {
      TopPathsMember(t, p, n - 1, q);
      InBelow(n - 1, TopPaths(t.children[n - 1], p), q);
    }
  }

  /** A position found matches, and no node above it does. */
  lemma {:induction false} TopSound(t: Tree, p: Pattern, q: Path)
    requires q in TopPaths(t, p)
    ensures MatchesAt(t, p, q)
    ensures forall d :: 0 <= d < |q| ==> !MatchesAt(t, p, q[..d])
    decreases |q|
  {
    if !Matches(p, t.tag) {
      TopPathsMember(t, p, |t.children|, q);
      TopSound(t.children[q[0]], p, q[1..]);
      forall d | 0 <= d < |q|
        ensures !MatchesAt(t, p, q[..d])
      {
        if d > 0 {
          assert q[..d][1..] == q[1..][..d - 1];
        }
      }
    }
  }

  /** Every matching node lies at or below a position found. */
  lemma {:induction false} TopCovers(t: Tree, p: Pattern, q: Path)
    requires MatchesAt(t, p, q)
    ensures exists r :: r in TopPaths(t, p) && r <= q
    decreases |q|
  {
    if Matches(p, t.tag) {
      assert TopPaths(t, p) == [[]] && [] in TopPaths(t, p) && [] <= q;
    } else {
      TopCovers(t.children[q[0]], p, q[1..]);
      var r :| r in TopPaths(t.children[q[0]], p) && r <= q[1..];
      var s := [q[0]] + r;
      assert s[1..] == r && s <= q;
      TopPathsMember(t, p, |t.children|, s);
      assert s in TopPaths(t, p);
    }
  }

  /** `a` parts from `b` to the left: neither lies above the other. */
  ghost predicate Before(a: Path, b: Path)
  {
    exists d :: 0 <= d < |a| && d < |b| && a[..d] == b[..d] && a[d] < b[d]
  }

  ghost predicate LeftToRight(paths: seq<Path>)
  {
    forall i, j :: 0 <= i < j < |paths| ==> Before(paths[i], paths[j])
  }

  lemma BeforeBelow(k: nat, a: Path, b: Path)
    requires Before(a, b)
    ensures Before([k] + a, [k] + b)
  {
    var d :| 0 <= d < |a| && d < |b| && a[..d] == b[..d] && a[d] < b[d];
    var x, y := [k] + a, [k] + b;
    assert x[..d + 1] == [k] + a[..d] && y[..d + 1] == [k] + b[..d];
    assert x[d + 1] == a[d] && y[d + 1] == b[d];
  }

  lemma {:induction false} TopOrdered(t: Tree, p: Pattern)
    ensures LeftToRight(TopPaths(t, p))
    decreases t, |t.children| + 1
  {
    if !Matches(p, t.tag) {
      TopOrderedUpTo(t, p, |t.children|);
    }
  }

  lemma {:induction false} TopOrderedUpTo(t: Tree, p: Pattern, n: nat)
    requires n <= |t.children|
    ensures LeftToRight(TopPathsUpTo(t, p, n))
    decreases t, n
  {
    if n > 0 {
      var child := TopPaths(t.children[n - 1], p);
      TopOrderedUpTo(t, p, n - 1);
      TopOrdered(t.children[n - 1], p);
      UnderOrdered(n - 1, child);
      var left := TopPathsUpTo(t, p, n - 1);
      forall i | 0 <= i < |left|
        ensures left[i] != [] && left[i][0] < n - 1
      {
        TopPathsMember(t, p, n - 1, left[i]);
      }
      ConcatOrdered(left, n - 1, child);
    }
  }

  lemma UnderOrdered(k: nat, paths: seq<Path>)
    requires LeftToRight(paths)
    ensures LeftToRight(Map(Under(k), paths))
  {
    forall i, j | 0 <= i < j < |paths|
      ensures Before(Map(Under(k), paths)[i], Map(Under(k), paths)[j])
    {
      BeforeBelow(k, paths[i], paths[j]);
    }
  }

  lemma ConcatOrdered(left: seq<Path>, k: nat, paths: seq<Path>)
    requires LeftToRight(left) && LeftToRight(Map(Under(k), paths))
    requires forall i :: 0 <= i < |left| ==> left[i] != [] && left[i][0] < k
    ensures LeftToRight(left + Map(Under(k), paths))
  {
    var right := Map(Under(k), paths);
    var all := left + right;
    forall i, j | 0 <= i < j < |all|
      ensures Before(all[i], all[j])
    {
      if j < |left| {
        assert all[i] == left[i] && all[j] == left[j];
      } else if |left| <= i {
        assert all[i] == right[i - |left|] && all[j] == right[j - |left|];
      } else {
        assert all[i] == left[i] && all[j] == [k] + paths[j - |left|];
        FirstStepBefore(all[i], all[j]);
      }
    }
  }

  lemma FirstStepBefore(a: Path, b: Path)
    requires a != [] && b != [] && a[0] < b[0]
    ensures Before(a, b)
  {
    assert a[..0] == b[..0];
  }

  lemma BeforeNotAbove(a: Path, b: Path, q: Path)
    requires a <= q && b <= q
    ensures !Before(a, b)
  {
  }

  /** `i` is the only position in `paths` at or above `q`. */
  ghost predicate OnlyAbove(paths: seq<Path>, q: Path, i: nat)
  {
    i < |paths| && paths[i] <= q && forall j :: 0 <= j < |paths| && paths[j] <= q ==> j == i
  }

  /** Every matching node lies at or below exactly one of the positions found. */
  lemma TopExactlyOne(t: Tree, p: Pattern, q: Path) returns (i: nat)
    requires MatchesAt(t, p, q)
    ensures OnlyAbove(TopPaths(t, p), q, i)
  {
    var paths := TopPaths(t, p);
    TopCovers(t, p, q);
    TopOrdered(t, p);
    var r :| r in paths && r <= q;
    i :| 0 <= i < |paths| && paths[i] == r;
    forall j | 0 <= j < |paths| && paths[j] <= q
      ensures j == i
    {
      BeforeNotAbove(paths[i], paths[j], q);
      BeforeNotAbove(paths[j], paths[i], q);
    }
  }

  /** The first search finds the head of the list the second one finds. */
  lemma {:induction false} FirstIsTopmost(t: Tree, p: Pattern)
    ensures FirstMatch(t, p) == if TopMatches(t, p) == [] then None else Some(TopMatches(t, p)[0])
    decreases t, |t.children| + 1
  {
    if !Matches(p, t.tag) {
      FirstIsTopmostUpTo(t, p, |t.children|);
    }
  }

  lemma {:induction false} FirstIsTopmostUpTo(t: Tree, p: Pattern, n: nat)
    requires n <= |t.children|
    ensures FirstUpTo(t, p, n) == if TopUpTo(t, p, n) == [] then None else Some(TopUpTo(t, p, n)[0])
    decreases t, n
  {
    if n > 0 {
      FirstIsTopmostUpTo(t, p, n - 1);
      FirstIsTopmost(t.children[n - 1], p);
    }
  }

  /** Both searches report nothing exactly when no node of the tree matches. */
  lemma NothingFound(t: Tree, p: Pattern)
    ensures TopMatches(t, p) == [] <==> forall q :: !MatchesAt(t, p, q)
    ensures FirstMatch(t, p) == None <==> forall q :: !MatchesAt(t, p, q)
  {
    TopLocated(t, p);
    FirstIsTopmost(t, p);
    assert |TopPaths(t, p)| == |Map(Locate(t), TopPaths(t, p))| == |TopMatches(t, p)|;
    if TopMatches(t, p) == [] {
      forall q
        ensures !MatchesAt(t, p, q)
      {
        if MatchesAt(t, p, q) {
          TopCovers(t, p, q);
        }
      }
    } else {
      assert TopPaths(t, p)[0] in TopPaths(t, p);
      TopSound(t, p, TopPaths(t, p)[0]);
    }
  }

  // ----- the words below what is found -----

  /** All leaves of a list of trees, in order. */
  function LeavesOf(ts: seq<Tree>): seq<string>
  {
    Flatten(Map(Leaves, ts))
  }

  lemma LeavesOfConcat(a: seq<Tree>, b: seq<Tree>)
    ensures LeavesOf(a + b) == LeavesOf(a) + LeavesOf(b)
  {
    MapConcat(Leaves, a, b);
    FlattenConcat(Map(Leaves, a), Map(Leaves, b));
  }

  lemma LeavesOfOne(t: Tree)
    ensures LeavesOf([t]) == Leaves(t)
  {
    assert Map(Leaves, [t]) == [Leaves(t)];
    FlattenOne(Leaves(t));
  }

  /** The words of the topmost matches stand in the tree in the same order. */
  lemma {:induction false} TopLeavesInOrder(t: Tree, p: Pattern)
    ensures IsSubsequence(LeavesOf(TopMatches(t, p)), Leaves(t))
    decreases t, |t.children| + 1
  {
    if Matches(p, t.tag) {
      LeavesOfOne(t);
      SubsequenceSelf(Leaves(t));
    } else if t.children == [] {
      assert Map(Leaves, TopMatches(t, p)) == [];
      SubsequenceEmpty(Leaves(t));
    } else {
      TopLeavesUpTo(t, p, |t.children|);
    }
  }

  lemma {:induction false} TopLeavesUpTo(t: Tree, p: Pattern, n: nat)
    requires n <= |t.children|
    ensures IsSubsequence(LeavesOf(TopUpTo(t, p, n)), LeavesUpTo(t, n))
    decreases t, n
  {
    if n == 0 {
      SubsequenceEmpty(LeavesUpTo(t, 0));
    } else {
      var left, child := TopUpTo(t, p, n - 1), t.children[n - 1];
      TopLeavesUpTo(t, p, n - 1);
      TopLeavesInOrder(child, p);
      LeavesOfConcat(left, TopMatches(child, p));
      SubsequenceConcat(LeavesOf(left), LeavesOf(TopMatches(child, p)), LeavesUpTo(t, n - 1), Leaves(child));
    }
  }

  /** The words of the first match stand in the tree in the same order. */
  lemma FirstLeavesInOrder(t: Tree, p: Pattern)
    requires FirstMatch(t, p).Some?
    ensures IsSubsequence(Leaves(FirstMatch(t, p).value), Leaves(t))
  {
    FirstIsTopmost(t, p);
    TopLeavesInOrder(t, p);
    var top := TopMatches(t, p);
    assert top == [top[0]] + top[1..];
    LeavesOfConcat([top[0]], top[1..]);
    LeavesOfOne(top[0]);
    SubsequenceSelf(Leaves(top[0]));
    SubsequenceEmpty(LeavesOf(top[1..]));
    SubsequenceConcat(Leaves(top[0]), [], Leaves(top[0]), LeavesOf(top[1..]));
    assert Leaves(top[0]) + [] == Leaves(top[0]);
    SubsequenceTransitive(Leaves(top[0]), LeavesOf(top), Leaves(t));
  }

  // ----- what is found, told on labels and positions alone -----

  /** The label is "VB" followed by letters, digits and underscores only. */
  predicate VerbTag(tag: string)
  {
    && |tag| >= 2 && tag[0] == 'V' && tag[1] == 'B'
    && forall i :: 2 <= i < |tag| ==>
         tag[i] == '_' || '0' <= tag[i] <= '9' || 'A' <= tag[i] <= 'Z' || 'a' <= tag[i] <= 'z'
  }

  lemma VerbTagMatches(tag: string)
    ensures Matches(Prefixed("VB"), tag) <==> VerbTag(tag)
  {
    if VerbTag(tag) {
      assert tag[..2] == "VB";
    }
  }

  /** The trees found for `VB\w*` stand left to right at `paths`, each is labelled
      "VB" and word characters, and every node so labelled lies at or below
      exactly one of them. */
  lemma VerbTreesExact(t: Tree) returns (paths: seq<Path>)
    ensures var found := TopMatches(t, Prefixed("VB"));
            && |paths| == |found| && LeftToRight(paths)
            && (forall i :: 0 <= i < |found| ==> At(t, paths[i]) == Some(found[i]) && VerbTag(found[i].tag))
            && (forall q: Path :: At(t, q).Some? && VerbTag(At(t, q).value.tag) ==> exists i :: OnlyAbove(paths, q, i))
  {
    var p := Prefixed("VB");
    paths := TopPaths(t, p);
    FoundAt(t, p);
    TopOrdered(t, p);
    forall i | 0 <= i < |paths|
      ensures VerbTag(TopMatches(t, p)[i].tag)
    {
      TopSound(t, p, paths[i]);
      VerbTagMatches(TopMatches(t, p)[i].tag);
    }
    forall q: Path | At(t, q).Some? && VerbTag(At(t, q).value.tag)
      ensures exists i :: OnlyAbove(paths, q, i)
    {
      VerbTagMatches(At(t, q).value.tag);
      var i := TopExactlyOne(t, p, q);
    }
  }

  lemma FoundAt(t: Tree, p: Pattern)
    ensures |TopPaths(t, p)| == |TopMatches(t, p)|
    ensures forall i :: 0 <= i < |TopPaths(t, p)| ==> At(t, TopPaths(t, p)[i]) == Some(TopMatches(t, p)[i])
  {
    TopLocated(t, p);
    var paths, found := TopPaths(t, p), TopMatches(t, p);
    assert |Map(Locate(t), paths)| == |Map(Found, found)|;
    forall i | 0 <= i < |paths|
      ensures At(t, paths[i]) == Some(found[i])
    {
      MapIndex(Locate(t), paths, i);
      MapIndex(Found, found, i);
    }
  }

  /** A node labelled `name` stands at `q`. */
  predicate LabelAt(t: Tree, q: Path, name: string)
  {
    At(t, q).Some? && At(t, q).value.tag == name
  }

  /** The node at `q` is labelled `name`, and every other node so labelled lies
      below it or to its right. */
  ghost predicate FirstNode(t: Tree, name: string, q: Path)
  {
    && LabelAt(t, q, name)
    && forall r: Path :: LabelAt(t, r, name) ==> q <= r || Before(q, r)
  }

  lemma BeforeExtends(a: Path, b: Path, c: Path)
    requires Before(a, b) && b <= c
    ensures Before(a, c)
  {
    var d :| 0 <= d < |a| && d < |b| && a[..d] == b[..d] && a[d] < b[d];
    assert c[..d] == b[..d];
  }

  /** The first search for a plain label finds the first node with that label, and
      nothing exactly when there is none. */
  lemma FirstNodeFound(t: Tree, name: string) returns (q: Path)
    ensures FirstMatch(t, Literal(name)).None? <==> forall r: Path :: !LabelAt(t, r, name)
    ensures FirstMatch(t, Literal(name)).Some? ==> FirstNode(t, name, q) && At(t, q) == FirstMatch(t, Literal(name))
  {
    var p := Literal(name);
    q := [];
    FirstIsTopmost(t, p);
    FoundAt(t, p);
    TopOrdered(t, p);
    var paths := TopPaths(t, p);
    if paths != [] {
      q := paths[0];
      TopSound(t, p, q);
      assert LabelAt(t, q, name);
      assert FirstMatch(t, p).Some?;
    } else {
      assert TopMatches(t, p) == [] && FirstMatch(t, p).None?;
    }
    forall r: Path | LabelAt(t, r, name)
      ensures paths != [] && (q <= r || Before(q, r))
    {
      assert MatchesAt(t, p, r);
      var i := TopExactlyOne(t, p, r);
      if i > 0 {
        BeforeExtends(q, paths[i], r);
      }
    }
  }

  lemma FirstNodeUnique(t: Tree, name: string, q: Path, r: Path)
    requires FirstNode(t, name, q) && FirstNode(t, name, r)
    ensures q == r
  {
    if !(q <= r && r <= q) {
      if q <= r {
        BeforeNotAbove(r, q, r);
      } else if r <= q {
        BeforeNotAbove(q, r, q);
      } else {
        BeforeOneWay(q, r);
      }
    }
  }

  lemma BeforeOneWay(a: Path, b: Path)
    requires Before(a, b)
    ensures !Before(b, a)
  {
    var d :| 0 <= d < |a| && d < |b| && a[..d] == b[..d] && a[d] < b[d];
    if Before(b, a) {
      var c :| 0 <= c < |b| && c < |a| && b[..c] == a[..c] && b[c] < a[c];
    }
  }

  lemma FirstNodeIs(t: Tree, name: string, q: Path)
    requires FirstNode(t, name, q)
    ensures FirstMatch(t, Literal(name)) == At(t, q)
  {
    var r := FirstNodeFound(t, name);
    assert LabelAt(t, q, name);
    FirstNodeUnique(t, name, q, r);
  }

  // ----- leaves by position -----

  /** A node without children stands at `q`. */
  predicate LeafAt(t: Tree, q: Path)
  {
    At(t, q).Some? && At(t, q).value.children == []
  }

  /** The words are those of the leaves at `paths`, which run left to right. */
  ghost predicate WordsAt(words: seq<string>, t: Tree, paths: seq<Path>)
  {
    && |paths| == |words| && LeftToRight(paths)
    && forall i :: 0 <= i < |paths| ==> LeafAt(t, paths[i]) && At(t, paths[i]).value.tag == words[i]
  }

  lemma AtUnder(t: Tree, k: nat, q: Path)
    requires k < |t.children|
    ensures At(t, [k] + q) == At(t.children[k], q)
  {
    assert ([k] + q)[1..] == q;
  }

  lemma WordsUnder(words: seq<string>, t: Tree, k: nat, paths: seq<Path>)
    requires k < |t.children| && WordsAt(words, t.children[k], paths)
    ensures WordsAt(words, t, Map(Under(k), paths))
  {
    var below := Map(Under(k), paths);
    UnderOrdered(k, paths);
    forall i | 0 <= i < |below|
      ensures LeafAt(t, below[i]) && At(t, below[i]).value.tag == words[i]
    {
      MapIndex(Under(k), paths, i);
      AtUnder(t, k, paths[i]);
    }
  }

  lemma WordsConcat(left: seq<string>, right: seq<string>, t: Tree, a: seq<Path>, k: nat, paths: seq<Path>)
    requires WordsAt(left, t, a) && WordsAt(right, t, Map(Under(k), paths))
    requires forall i :: 0 <= i < |a| ==> a[i] != [] && a[i][0] < k
    ensures WordsAt(left + right, t, a + Map(Under(k), paths))
  {
    var b := Map(Under(k), paths);
    ConcatOrdered(a, k, paths);
    forall i | 0 <= i < |a + b|
      ensures LeafAt(t, (a + b)[i]) && At(t, (a + b)[i]).value.tag == (left + right)[i]
    {
      if i < |a| {
        assert (a + b)[i] == a[i] && (left + right)[i] == left[i];
      } else {
        assert (a + b)[i] == b[i - |a|] && (left + right)[i] == right[i - |a|];
      }
    }
  }

  lemma WordsJoined(left: seq<string>, right: seq<string>, t: Tree, a: seq<Path>, k: nat, b: seq<Path>)
    requires k < |t.children| && WordsAt(left, t, a) && WordsAt(right, t.children[k], b)
    requires forall q :: q in a ==> q != [] && q[0] < k
    ensures WordsAt(left + right, t, a + Map(Under(k), b))
  {
    WordsUnder(right, t, k, b);
    forall i | 0 <= i < |a|
      ensures a[i] != [] && a[i][0] < k
    {
      assert a[i] in a;
    }
    WordsConcat(left, right, t, a, k, b);
  }

  lemma LeafInChild(t: Tree, k: nat, b: seq<Path>, q: Path)
    requires k < |t.children|
    requires q != [] ==> (q[1..] in b <==> LeafAt(t.children[k], q[1..]))
    ensures q in Map(Under(k), b) <==> q != [] && q[0] == k && LeafAt(t, q)
  {
    InBelow(k, b, q);
  }

  /** The leaves of a tree are the words of all its childless nodes, left to right. */
  lemma {:induction false} LeavesExact(t: Tree) returns (paths: seq<Path>)
    ensures WordsAt(Leaves(t), t, paths)
    ensures forall q: Path :: q in paths <==> LeafAt(t, q)
    decreases t, |t.children| + 1
  {
    if t.children == [] {
      paths := [[]];
    } else {
      paths := LeavesExactUpTo(t, |t.children|);
    }
  }

  lemma {:induction false} LeavesExactUpTo(t: Tree, n: nat) returns (paths: seq<Path>)
    requires n <= |t.children|
    ensures WordsAt(LeavesUpTo(t, n), t, paths)
    ensures forall q: Path :: q in paths <==> q != [] && q[0] < n && LeafAt(t, q)
    decreases t, n
  {
    paths := [];
    if n > 0 {
      var a := LeavesExactUpTo(t, n - 1);
      var b := LeavesExact(t.children[n - 1]);
      paths := a + Map(Under(n - 1), b);
      WordsJoined(LeavesUpTo(t, n - 1), Leaves(t.children[n - 1]), t, a, n - 1, b);
      forall q: Path
        ensures q in paths <==> q != [] && q[0] < n && LeafAt(t, q)
      {
        LeafInChild(t, n - 1, b, q);
      }
    }
  }

  /** A node at or above `q` matches. */
  ghost predicate MatchAbove(t: Tree, p: Pattern, q: Path)
  {
    exists d :: 0 <= d <= |q| && MatchesAt(t, p, q[..d])
  }

  lemma MatchAboveBelow(t: Tree, p: Pattern, q: Path)
    requires q != [] && q[0] < |t.children| && !Matches(p, t.tag)
    ensures MatchAbove(t, p, q) <==> MatchAbove(t.children[q[0]], p, q[1..])
  {
    if MatchAbove(t, p, q) {
      var d :| 0 <= d <= |q| && MatchesAt(t, p, q[..d]);
      assert d > 0 && q[..d][1..] == q[1..][..d - 1];
    }
    if MatchAbove(t.children[q[0]], p, q[1..]) {
      var d :| 0 <= d <= |q[1..]| && MatchesAt(t.children[q[0]], p, q[1..][..d]);
      assert q[..d + 1][1..] == q[1..][..d];
      assert MatchesAt(t, p, q[..d + 1]);
    }
  }

  /** The words below the topmost matches are those of the leaves that have a
      match above them, left to right. */
  lemma {:induction false} TopLeavesExact(t: Tree, p: Pattern) returns (paths: seq<Path>)
    ensures WordsAt(LeavesOf(TopMatches(t, p)), t, paths)
    ensures forall q: Path :: q in paths <==> LeafAt(t, q) && MatchAbove(t, p, q)
    decreases t, |t.children| + 1
  {
    if Matches(p, t.tag) {
      LeavesOfOne(t);
      paths := LeavesExact(t);
      forall q: Path
        ensures MatchAbove(t, p, q)
      {
        assert MatchesAt(t, p, q[..0]);
      }
    } else {
      paths := TopLeavesExactUpTo(t, p, |t.children|);
      forall q: Path | LeafAt(t, q) && MatchAbove(t, p, q)
        ensures q != []
      {
        var d :| 0 <= d <= |q| && MatchesAt(t, p, q[..d]);
        assert q[..0] == [];
        assert d != 0;
      }
    }
  }

  lemma {:induction false} TopLeavesExactUpTo(t: Tree, p: Pattern, n: nat) returns (paths: seq<Path>)
    requires n <= |t.children| && !Matches(p, t.tag)
    ensures WordsAt(LeavesOf(TopUpTo(t, p, n)), t, paths)
    ensures forall q: Path :: q in paths <==> q != [] && q[0] < n && LeafAt(t, q) && MatchAbove(t, p, q)
    decreases t, n
  {
    paths := [];
    if n == 0 {
      assert LeavesOf([]) == [];
    } else {
      var child := t.children[n - 1];
      var a := TopLeavesExactUpTo(t, p, n - 1);
      var b := TopLeavesExact(child, p);
      paths := a + Map(Under(n - 1), b);
      LeavesOfConcat(TopUpTo(t, p, n - 1), TopMatches(child, p));
      WordsJoined(LeavesOf(TopUpTo(t, p, n - 1)), LeavesOf(TopMatches(child, p)), t, a, n - 1, b);
      forall q: Path
        ensures q in paths <==> q != [] && q[0] < n && LeafAt(t, q) && MatchAbove(t, p, q)
      {
        InLastChild(t, p, n, b, q);
      }
    }
  }

  lemma InLastChild(t: Tree, p: Pattern, n: nat, b: seq<Path>, q: Path)
    requires 0 < n <= |t.children| && !Matches(p, t.tag)
    requires q != [] ==> (q[1..] in b <==> LeafAt(t.children[n - 1], q[1..]) && MatchAbove(t.children[n - 1], p, q[1..]))
    ensures q in Map(Under(n - 1), b) <==> q != [] && q[0] == n - 1 && LeafAt(t, q) && MatchAbove(t, p, q)
  {
    InBelow(n - 1, b, q);
    if q != [] && q[0] == n - 1 {
      MatchAboveBelow(t, p, q);
    }
  }

  // ----- positions below a node -----

  lemma {:induction false} AtConcat(t: Tree, v: Path, q: Path)
    requires At(t, v).Some?
    ensures At(t, v + q) == At(At(t, v).value, q)
    decreases |v|
  {
    if v == [] {
      EmptyLeft(q);
    } else {
      AtConcat(t.children[v[0]], v[1..], q);
      assert (v + q)[1..] == v[1..] + q;
    }
  }

  function Beneath(v: Path): Path -> Path
  {
    (path: Path) => v + path
  }

  lemma BeforeBeneath(v: Path, a: Path, b: Path)
    requires Before(a, b)
    ensures Before(v + a, v + b)
  {
    var d :| 0 <= d < |a| && d < |b| && a[..d] == b[..d] && a[d] < b[d];
    var x, y := v + a, v + b;
    assert x[..|v| + d] == v + a[..d] && y[..|v| + d] == v + b[..d];
    assert x[|v| + d] == a[d] && y[|v| + d] == b[d];
  }

  lemma InBeneath(v: Path, paths: seq<Path>, q: Path)
    ensures q in Map(Beneath(v), paths) <==> v <= q && q[|v|..] in paths
  {
    if v <= q && q[|v|..] in paths {
      var i :| 0 <= i < |paths| && paths[i] == q[|v|..];
      MapIndex(Beneath(v), paths, i);
      assert v + q[|v|..] == q;
    }
    if q in Map(Beneath(v), paths) {
      var i :| 0 <= i < |paths| && Map(Beneath(v), paths)[i] == q;
      MapIndex(Beneath(v), paths, i);
      assert q[|v|..] == paths[i];
    }
  }

  /** Words found below the node at `v`, seen from the root. */
  lemma WordsBeneath(words: seq<string>, t: Tree, v: Path, paths: seq<Path>)
    requires At(t, v).Some? && WordsAt(words, At(t, v).value, paths)
    ensures WordsAt(words, t, Map(Beneath(v), paths))
  {
    var below := Map(Beneath(v), paths);
    forall i, j | 0 <= i < j < |below|
      ensures Before(below[i], below[j])
    {
      BeforeBeneath(v, paths[i], paths[j]);
    }
    forall i | 0 <= i < |below|
      ensures LeafAt(t, below[i]) && At(t, below[i]).value.tag == words[i]
    {
      MapIndex(Beneath(v), paths, i);
      AtConcat(t, v, paths[i]);
    }
  }

  /** The leaves of a subtree are those of the whole tree that lie below it. */
  lemma SubtreeLeaves(t: Tree, v: Path) returns (paths: seq<Path>)
    requires At(t, v).Some?
    ensures WordsAt(Leaves(At(t, v).value), t, paths)
    ensures forall q: Path :: q in paths <==> LeafAt(t, q) && v <= q
  {
    var own := LeavesExact(At(t, v).value);
    paths := Map(Beneath(v), own);
    WordsBeneath(Leaves(At(t, v).value), t, v, own);
    forall q: Path
      ensures q in paths <==> LeafAt(t, q) && v <= q
    {
      InBeneath(v, own, q);
      if v <= q {
        AtConcat(t, v, q[|v|..]);
        assert v + q[|v|..] == q;
      }
    }
  }

  /** A node labelled "VB" and word characters stands at or above `q`, not above `v`. */
  ghost predicate VerbAbove(t: Tree, v: Path, q: Path)
  {
    exists d :: |v| <= d <= |q| && At(t, q[..d]).Some? && VerbTag(At(t, q[..d]).value.tag)
  }

  lemma VerbAboveBeneath(t: Tree, v: Path, q: Path)
    requires At(t, v).Some? && v <= q
    ensures VerbAbove(t, v, q) <==> MatchAbove(At(t, v).value, Prefixed("VB"), q[|v|..])
  {
    var rest := q[|v|..];
    forall d | |v| <= d <= |q|
      ensures At(t, q[..d]) == At(At(t, v).value, rest[..d - |v|])
    {
      AtConcat(t, v, rest[..d - |v|]);
      assert v + rest[..d - |v|] == q[..d];
    }
    if VerbAbove(t, v, q) {
      var d :| |v| <= d <= |q| && At(t, q[..d]).Some? && VerbTag(At(t, q[..d]).value.tag);
      VerbTagMatches(At(t, q[..d]).value.tag);
      assert MatchesAt(At(t, v).value, Prefixed("VB"), rest[..d - |v|]);
    }
    if MatchAbove(At(t, v).value, Prefixed("VB"), rest) {
      var d :| 0 <= d <= |rest| && MatchesAt(At(t, v).value, Prefixed("VB"), rest[..d]);
      assert At(t, q[..d + |v|]) == At(At(t, v).value, rest[..d]);
      VerbTagMatches(At(t, q[..d + |v|]).value.tag);
    }
  }

  /** The words below the verb trees of the node at `v` are those of the leaves
      below it that have a verb label above them, left to right. */
  lemma VerbLeaves(t: Tree, v: Path) returns (paths: seq<Path>)
    requires At(t, v).Some?
    ensures WordsAt(LeavesOf(TopMatches(At(t, v).value, Prefixed("VB"))), t, paths)
    ensures forall q: Path :: q in paths <==> LeafAt(t, q) && v <= q && VerbAbove(t, v, q)
  {
    var vp := At(t, v).value;
    var own := TopLeavesExact(vp, Prefixed("VB"));
    paths := Map(Beneath(v), own);
    WordsBeneath(LeavesOf(TopMatches(vp, Prefixed("VB"))), t, v, own);
    forall q: Path
      ensures q in paths <==> LeafAt(t, q) && v <= q && VerbAbove(t, v, q)
    {
      InBeneath(v, own, q);
      if v <= q {
        AtConcat(t, v, q[|v|..]);
        assert v + q[|v|..] == q;
        VerbAboveBeneath(t, v, q);
      }
    }
  }
}
