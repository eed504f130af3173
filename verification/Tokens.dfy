/** Tokens, times and the text comparisons the engine makes on them. */
module Tokens {
  import opened Sequences

  /** Two strings are equal for `compareToIgnoreCase` exactly when they fold to
      the same string. The folding itself is left open: every result of this
      project holds for whatever folding it is. */
  const FOLD: string -> string

  /** A resolved time. `interval` is `None` when `getInterval()` is null and
      otherwise holds the interval's first instant, which may itself be null;
      `own` is what `getTime()` gives. Instants are compared by their key. */
  datatype Time = Time(interval: Option<Option<int>>, own: Option<int>)

  /** The instant that `Group.inside`, `timeFlow` and `earliestFirst` compare. */
  function Start(t: Time): Option<int>
  {
    if t.interval.None? then t.own else t.interval.value
  }

  /** The instant that `GroupList.timeFlow` compares: it never falls back to `getTime()`. */
  function IntervalStart(t: Time): Option<int>
  {
    if t.interval.None? then None else t.interval.value
  }

  /** `t` begins at `k`: its interval's first instant is `k`, or it has no interval
      and is itself `k`. */
  predicate BeginsAt(t: Time, k: int)
  {
    t.interval == Some(Some(k)) || (t.interval == None && t.own == Some(k))
  }

  /** The instants compared, told without the two functions. */
  lemma StartBegins(t: Time, k: int)
    ensures Start(t) == Some(k) <==> BeginsAt(t, k)
    ensures IntervalStart(t) == Some(k) <==> t.interval == Some(Some(k))
  {
  }

  /** Some time of the list begins at `k`. */
  ghost predicate SomeBegins(dates: seq<Time>, k: int)
  {
    exists t :: t in dates && BeginsAt(t, k)
  }

  /** A CoreMap as far as the engine looks at it: its text annotation (may be
      null), its `toString()`, its `value()`, its part-of-speech tag, the time it
      resolves to, and its index; two tokens are `equals` when all of it agrees. */
  datatype Token = Token(
    annotation: Option<string>,
    shown: string,
    value: string,
    tag: Option<string>,
    time: Option<Time>,
    index: Option<nat>)

  /** The text annotation, or `toString()` when there is none. */
  function Text(t: Token): string
  {
    if t.annotation.Some? then t.annotation.value else t.shown
  }

  /** The key under which `compareToIgnoreCase` identifies two tokens. */
  function Folded(t: Token): string
  {
    FOLD(Text(t))
  }

  /** `t` text-matches some token of `list`, up to case. */
  predicate Inside(list: seq<Token>, t: Token)
  {
    HasKey(list, Folded, Folded(t))
  }

  /** Two token lists text-match somewhere, up to case. */
  predicate Meet(a: seq<Token>, b: seq<Token>)
  {
    exists i :: 0 <= i < |a| && Inside(b, a[i])
  }

  lemma MeetSymmetric(a: seq<Token>, b: seq<Token>)
    ensures Meet(a, b) <==> Meet(b, a)
  {
    if Meet(a, b) {
      var i :| 0 <= i < |a| && Inside(b, a[i]);
      var j :| 0 <= j < |b| && Folded(b[j]) == Folded(a[i]);
      assert Inside(a, b[j]);
    }
    if Meet(b, a) {
      var i :| 0 <= i < |b| && Inside(a, b[i]);
      var j :| 0 <= j < |a| && Folded(a[j]) == Folded(b[i]);
      assert Inside(b, a[j]);
    }
  }

  /** A token is inside a list exactly when some listed token has the same text up
      to case, its text being its annotation or, without one, what it shows. */
  lemma InsideExact(list: seq<Token>, t: Token)
    ensures Inside(list, t) <==>
            exists x :: x in list && FOLD(if x.annotation.Some? then x.annotation.value else x.shown)
                                     == FOLD(if t.annotation.Some? then t.annotation.value else t.shown)
  {
    if x :| x in list && FOLD(if x.annotation.Some? then x.annotation.value else x.shown)
                         == FOLD(if t.annotation.Some? then t.annotation.value else t.shown) {
      HasKeyIn(list, Folded, x);
    }
    if Inside(list, t) {
      var i :| 0 <= i < |list| && Folded(list[i]) == Folded(t);
      assert list[i] in list;
    }
  }

  /** Two lists meet exactly when a token of each has the same text up to case. */
  lemma MeetExact(a: seq<Token>, b: seq<Token>)
    ensures Meet(a, b) <==>
            exists x, y :: x in a && y in b && FOLD(if x.annotation.Some? then x.annotation.value else x.shown)
                                               == FOLD(if y.annotation.Some? then y.annotation.value else y.shown)
  {
    if Meet(a, b) {
      var i :| 0 <= i < |a| && Inside(b, a[i]);
      InsideExact(b, a[i]);
      assert a[i] in a;
    }
    if x, y :| x in a && y in b && FOLD(if x.annotation.Some? then x.annotation.value else x.shown)
                                   == FOLD(if y.annotation.Some? then y.annotation.value else y.shown) {
      var i :| 0 <= i < |a| && a[i] == x;
      InsideExact(b, a[i]);
    }
  }

  /** Meeting `b` depends only on the folded texts in `b`, so meeting a list
      grown by keyed appends is meeting what it was grown from. */
  lemma MeetAddNew(a: seq<Token>, base: seq<Token>, xs: seq<Token>)
    ensures Meet(a, AddNew(base, xs, Folded)) <==> Meet(a, base) || Meet(a, xs)
  {
    var grown := AddNew(base, xs, Folded);
    forall i | 0 <= i < |a|
      ensures Inside(grown, a[i]) <==> Inside(base, a[i]) || Inside(xs, a[i])
    {
      AddNewKeys(base, xs, Folded, Folded(a[i]));
    }
  }
}
