/**
 * The breadth-first search of solve: the queue, the levels it works
 * through, and what the state it returns is.
 */
module Search {
  import opened Wrappers
  import opened Tubes
  import opened Puzzle

  /** The choices of the states of q, state by state, in the order of q. */
  function Expand(q: seq<State>, m: int): seq<State> {
    if q == [] then [] else Expand(q[..|q| - 1], m) + Choices(q[|q| - 1], m)
  }

  /**
   * Level d of the search from s0: s0 alone at 0, then the choices of the
   * states of level d - 1, in their order. The queue holds the levels one
   * after another.
   */
  function Level(s0: State, m: int, d: nat): seq<State> {
    if d == 0 then [s0] else Expand(Level(s0, m, d - 1), m)
  }

  /** The state the moves p reach from s, pour after pour, or None once a move is invalid or its pour fails. */
  function Run(s: State, p: seq<Move>, m: int): Option<State> {
    if p == [] then Some(s)
    else match Run(s, p[..|p| - 1], m)
      case None => None
      case Some(y) => Try(y, p[|p| - 1], m)
  }

  // ---------------------------------------------------------------------
  // Expand and the levels.

  lemma ExpandSnoc(q: seq<State>, x: State, m: int)
    ensures Expand(q + [x], m) == Expand(q, m) + Choices(x, m)
  {
    assert (q + [x])[..|q|] == q;
  }

  /** A state is in Expand(q) exactly when it is a choice of some state of q. */
  lemma {:induction false} ExpandMember(q: seq<State>, m: int, y: State)
    ensures y in Expand(q, m) <==> exists k :: 0 <= k < |q| && y in Choices(q[k], m)
  {
    if q != [] {
      var n := |q| - 1;
      ExpandMember(q[..n], m, y);
      if y in Expand(q, m) {
        if y !in Choices(q[n], m) {
          var k :| 0 <= k < n && y in Choices(q[..n][k], m);
          assert q[..n][k] == q[k];
        }
      } else {
        forall k | 0 <= k < |q| ensures y !in Choices(q[k], m) {
          if k < n {
            assert q[..n][k] == q[k];
          }
        }
      }
    }
  }

  /** Once a level is empty, every later one is. */
  lemma {:induction false} LevelEmptyStays(s0: State, m: int, d: nat, e: nat)
    requires d <= e && Level(s0, m, d) == []
    ensures Level(s0, m, e) == []
    decreases e
  {
    if d < e {
      LevelEmptyStays(s0, m, d, e - 1);
    }
  }

  /**
   * Every state of level d has the tubes of s0 (as many, the same colour
   * units, within capacity if s0 is) and a potential d less than s0's.
   */
  lemma {:induction false} LevelInvariants(s0: State, m: int, d: nat)
    ensures forall x <- Level(s0, m, d) ::
      Potential(x.tubes) + d == Potential(s0.tubes) && |x.tubes| == |s0.tubes| &&
      Colours(x.tubes) == Colours(s0.tubes) && (Fits(s0.tubes, m) ==> Fits(x.tubes, m))
  {
    if d > 0 {
      var q := Level(s0, m, d - 1);
      LevelInvariants(s0, m, d - 1);
      forall x <- Level(s0, m, d)
        ensures Potential(x.tubes) + d == Potential(s0.tubes) && |x.tubes| == |s0.tubes| &&
          Colours(x.tubes) == Colours(s0.tubes) && (Fits(s0.tubes, m) ==> Fits(x.tubes, m))
      {
        ExpandMember(q, m, x);
        var k :| 0 <= k < |q| && x in Choices(q[k], m);
        ChoiceProperties(q[k], m, x);
      }
    }
  }

  /** Levels deeper than the potential of s0 are empty: the search cannot go on for ever. */
  lemma LevelBound(s0: State, m: int, d: nat)
    requires Level(s0, m, d) != []
    ensures d <= Potential(s0.tubes)
  {
    LevelInvariants(s0, m, d);
    assert Level(s0, m, d)[0] in Level(s0, m, d);
  }

  /**
   * Every state of level d extends the log of s0 by exactly d moves, and
   * replaying those moves from s0 reaches it.
   */
  lemma {:induction false} LevelReplay(s0: State, m: int, d: nat)
    ensures forall x <- Level(s0, m, d) ::
      |x.log| == |s0.log| + d && x.log[..|s0.log|] == s0.log &&
      Run(s0, x.log[|s0.log|..], m) == Some(x)
  {
    if d == 0 {
      assert Level(s0, m, 0) == [s0];
      assert s0.log[|s0.log|..] == [];
    } else {
      var q := Level(s0, m, d - 1);
      LevelReplay(s0, m, d - 1);
      forall x <- Level(s0, m, d)
        ensures |x.log| == |s0.log| + d && x.log[..|s0.log|] == s0.log &&
          Run(s0, x.log[|s0.log|..], m) == Some(x)
      {
        ExpandMember(q, m, x);
        var k :| 0 <= k < |q| && x in Choices(q[k], m);
        var y := q[k];
        ChoiceProperties(y, m, x);
        ReplayStep(s0, m, y, x);
      }
    }
  }

  /**
   * A reached state is determined by its log: two states the search reaches
   * with the same log are on the same level and are equal. What the search
   * enqueues more than once is a tube layout, once per move sequence.
   */
  lemma SameLogSameState(s0: State, m: int, d1: nat, d2: nat, x: State, y: State)
    requires x in Level(s0, m, d1) && y in Level(s0, m, d2) && x.log == y.log
    ensures d1 == d2 && x == y
  {
    LevelReplay(s0, m, d1);
    LevelReplay(s0, m, d2);
  }

  /** One more logged move extends a replay by that move. */
  lemma ReplayStep(s0: State, m: int, y: State, x: State)
    requires |y.log| >= |s0.log| && y.log[..|s0.log|] == s0.log
    requires Run(s0, y.log[|s0.log|..], m) == Some(y)
    requires x.log == y.log + [LastMove(x)]
    requires ValidMove(y, LastMove(x)) && Apply(y, LastMove(x), m) == Some(x)
    ensures x.log[..|s0.log|] == s0.log
    ensures Run(s0, x.log[|s0.log|..], m) == Some(x)
  {
    var p := x.log[|s0.log|..];
    assert p[..|p| - 1] == y.log[|s0.log|..];
    assert p[|p| - 1] == LastMove(x);
  }

  /** Every state some sequence of p successful moves reaches from s0 is on level |p|. */
  lemma {:induction false} LevelComplete(s0: State, m: int, p: seq<Move>)
    requires Run(s0, p, m).Some?
    ensures Run(s0, p, m).value in Level(s0, m, |p|)
  {
    if p != [] {
      var n := |p| - 1;
      var y := Run(s0, p[..n], m).value;
      var mv := p[n];
      LevelComplete(s0, m, p[..n]);
      ChoicesComplete(y, m, mv);
      ExpandMember(Level(s0, m, n), m, Run(s0, p, m).value);
    }
  }

  /** No sequence of successful moves is longer than the potential of the state it starts from. */
  lemma RunBound(s0: State, m: int, p: seq<Move>)
    requires Run(s0, p, m).Some?
    ensures |p| <= Potential(s0.tubes)
  {
    LevelComplete(s0, m, p);
    LevelBound(s0, m, |p|);
  }

  // ---------------------------------------------------------------------
  // The queue and solve.

  /** No state the queue yields before level d's state i is solved: all of levels 0 to d - 1, and the first i of level d. */
  predicate NoneSolvedBefore(s0: State, m: int, d: nat, i: nat) {
    (forall e, k :: 0 <= e < d && 0 <= k < |Level(s0, m, e)| ==> UnsolvedTubes(Level(s0, m, e)[k].tubes) > 0) &&
    (forall k :: 0 <= k < i && k < |Level(s0, m, d)| ==> UnsolvedTubes(Level(s0, m, d)[k].tubes) > 0)
  }

  /**
   * a is level d's state i and solve stops there: no earlier state is solved,
   * and either a is solved, or a is the last state of the last non-empty
   * level, so the queue runs dry after it.
   */
  predicate ResultAt(s0: State, m: int, a: State, d: nat, i: nat) {
    i < |Level(s0, m, d)| && a == Level(s0, m, d)[i] && NoneSolvedBefore(s0, m, d, i) &&
    (UnsolvedTubes(a.tubes) == 0 || (i + 1 == |Level(s0, m, d)| && Level(s0, m, d + 1) == []))
  }

  /** a is what solve returns for s0 and capacity m. */
  ghost predicate SearchResult(s0: State, m: int, a: State) {
    exists d: nat, i: nat :: ResultAt(s0, m, a, d, i)
  }

  /** The queue while the search is at level d with i of its states dequeued. */
  function Queue(s0: State, m: int, d: nat, i: nat): seq<State>
    requires i <= |Level(s0, m, d)|
  {
    Level(s0, m, d)[i..] + Expand(Level(s0, m, d)[..i], m)
  }

  /** At the start the queue holds s0 alone, and nothing has been dequeued. */
  lemma QueueStart(s0: State, m: int)
    ensures Queue(s0, m, 0, 0) == [s0]
    ensures NoneSolvedBefore(s0, m, 0, 0)
  {
    assert Level(s0, m, 0)[0..] == [s0] && Level(s0, m, 0)[..0] == [];
  }

  /** When every state of level d is dequeued, the queue is level d + 1. */
  lemma QueueNext(s0: State, m: int, d: nat)
    ensures Queue(s0, m, d, |Level(s0, m, d)|) == Level(s0, m, d + 1) == Queue(s0, m, d + 1, 0)
  {
    var q := Level(s0, m, d);
    assert q[|q|..] == [] && q[..|q|] == q;
    assert Level(s0, m, d + 1)[0..] == Level(s0, m, d + 1);
    assert Level(s0, m, d + 1)[..0] == [];
  }

  /** Dequeuing level d's state i and enqueuing its choices gives the queue with i + 1 dequeued. */
  lemma QueuePop(s0: State, m: int, d: nat, i: nat)
    requires i < |Level(s0, m, d)|
    ensures Queue(s0, m, d, i) != [] && Queue(s0, m, d, i)[0] == Level(s0, m, d)[i]
    ensures Queue(s0, m, d, i)[1..] + Choices(Level(s0, m, d)[i], m) == Queue(s0, m, d, i + 1)
  {
    var q := Level(s0, m, d);
    var e := Expand(q[..i], m);
    var c := Choices(q[i], m);
    assert q[..i + 1] == q[..i] + [q[i]];
    ExpandSnoc(q[..i], q[i], m);
    assert (q[i..] + e)[1..] == q[i + 1..] + e;
    AppendAssociative(q[i + 1..], e, c);
  }

  /** The queue runs dry exactly when level d is used up and level d + 1 is empty. */
  lemma QueueEmpty(s0: State, m: int, d: nat, i: nat)
    requires i <= |Level(s0, m, d)|
    ensures Queue(s0, m, d, i) == [] <==> i == |Level(s0, m, d)| && Level(s0, m, d + 1) == []
  {
    var q := Level(s0, m, d);
    if i == |q| {
      QueueNext(s0, m, d);
    }
  }

  /** An unsolved state at position i carries NoneSolvedBefore one position on. */
  lemma NoneSolvedStep(s0: State, m: int, d: nat, i: nat)
    requires NoneSolvedBefore(s0, m, d, i) && i < |Level(s0, m, d)|
    requires UnsolvedTubes(Level(s0, m, d)[i].tubes) > 0
    ensures NoneSolvedBefore(s0, m, d, i + 1)
  {
  }

  /** A used-up level carries NoneSolvedBefore to the start of the next one. */
  lemma NoneSolvedNext(s0: State, m: int, d: nat)
    requires NoneSolvedBefore(s0, m, d, |Level(s0, m, d)|)
    ensures NoneSolvedBefore(s0, m, d + 1, 0)
  {
  }

  /** solve stops at a solved state when none before it is solved. */
  lemma ResultSolved(s0: State, m: int, d: nat, i: nat)
    requires NoneSolvedBefore(s0, m, d, i) && i < |Level(s0, m, d)|
    requires UnsolvedTubes(Level(s0, m, d)[i].tubes) == 0
    ensures ResultAt(s0, m, Level(s0, m, d)[i], d, i)
  {
  }

  /** solve returns the last state it dequeued when the queue runs dry. */
  lemma ResultExhausted(s0: State, m: int, d: nat, i: nat)
    requires 0 < i <= |Level(s0, m, d)| && NoneSolvedBefore(s0, m, d, i)
    requires Queue(s0, m, d, i) == []
    ensures ResultAt(s0, m, Level(s0, m, d)[i - 1], d, i - 1)
  {
    QueueEmpty(s0, m, d, i);
  }

  /**
   * solve: breadth-first search from s0, returning the first solved state
   * it dequeues, or the last state dequeued when the queue runs dry.
   */
  method Solve(s0: State, m: int) returns (a: State)
    ensures SearchResult(s0, m, a)
  {
    // The queue lemmas state all this needs of the levels.
    hide Level, Expand, Choices, Queue, NoneSolvedBefore, ResultAt;
    var todo := [s0];
    a := s0;
    ghost var d: nat := 0;
    ghost var i: nat := 0;
    // Set only just before the break, so at the loop head it is always
    // false; after the loop it tells a solved exit from an empty queue.
    ghost var found := false;
    QueueStart(s0, m);
    while |todo| > 0
      invariant d <= Potential(s0.tubes) && i <= |Level(s0, m, d)|
      invariant todo == Queue(s0, m, d, i)
      invariant NoneSolvedBefore(s0, m, d, i)
      invariant i == 0 ==> d == 0
      invariant i > 0 ==> a == Level(s0, m, d)[i - 1]
      invariant !found
      decreases Potential(s0.tubes) - d, |Level(s0, m, d)| - i
    {
      if i == |Level(s0, m, d)| {
        // Level d is used up: the queue now holds level d + 1.
        QueueNext(s0, m, d);
        LevelBound(s0, m, d + 1);
        NoneSolvedNext(s0, m, d);
        d, i := d + 1, 0;
      }
      QueuePop(s0, m, d, i);
      a := todo[0];
      todo := todo[1..];
      var unsolved := NotSolved(a);
      if unsolved == 0 {
        ResultSolved(s0, m, d, i);
        found := true;
        break;
      }
      NoneSolvedStep(s0, m, d, i);
      i := i + 1;
      var b := GetChoices(a, m);
      todo := todo + b;
    }
    if !found {
      ResultExhausted(s0, m, d, i);
    }
  }

  // ---------------------------------------------------------------------
  // What solve returns.

  /** Only one state and one position satisfy ResultAt: the search's stopping point is determined. */
  lemma ResultAtUnique(s0: State, m: int, a: State, d1: nat, i1: nat, b: State, d2: nat, i2: nat)
    requires ResultAt(s0, m, a, d1, i1) && ResultAt(s0, m, b, d2, i2)
    ensures d1 == d2 && i1 == i2 && a == b
  {
    if d1 < d2 || (d1 == d2 && i1 < i2) {
      NothingAfterResult(s0, m, a, d1, i1, d2, i2);
      assert false;
    } else if d2 < d1 || (d1 == d2 && i2 < i1) {
      NothingAfterResult(s0, m, b, d2, i2, d1, i1);
      assert false;
    }
  }

  /**
   * Once the search has passed a stopping point with every state before it
   * unsolved, nothing is left to dequeue: the stopping point was unsolved
   * and last, so the later position lies past the end of its level.
   */
  lemma NothingAfterResult(s0: State, m: int, a: State, d1: nat, i1: nat, d2: nat, i2: nat)
    requires ResultAt(s0, m, a, d1, i1) && NoneSolvedBefore(s0, m, d2, i2)
    requires d1 < d2 || (d1 == d2 && i1 < i2)
    ensures i2 >= |Level(s0, m, d2)|
  {
    assert UnsolvedTubes(Level(s0, m, d1)[i1].tubes) > 0;
    if d1 < d2 {
      LevelEmptyStays(s0, m, d1 + 1, d2);
    }
  }

  /** solve's result is unique. */
  lemma SearchResultUnique(s0: State, m: int, a: State, b: State)
    requires SearchResult(s0, m, a) && SearchResult(s0, m, b)
    ensures a == b
  {
    var d1: nat, i1: nat :| ResultAt(s0, m, a, d1, i1);
    var d2: nat, i2: nat :| ResultAt(s0, m, b, d2, i2);
    ResultAtUnique(s0, m, a, d1, i1, b, d2, i2);
  }

  /**
   * solve's result extends the log of s0 by the moves that reach it from s0;
   * it has the tubes of s0 (as many, the same colour units, within capacity
   * if s0 is) and a potential lower by the number of those moves.
   */
  lemma SearchResultReached(s0: State, m: int, a: State)
    requires SearchResult(s0, m, a)
    ensures |a.log| >= |s0.log| && a.log[..|s0.log|] == s0.log
    ensures Run(s0, a.log[|s0.log|..], m) == Some(a)
    ensures Potential(a.tubes) + (|a.log| - |s0.log|) == Potential(s0.tubes)
    ensures |a.tubes| == |s0.tubes| && Colours(a.tubes) == Colours(s0.tubes)
    ensures Fits(s0.tubes, m) ==> Fits(a.tubes, m)
  {
    var d: nat, i: nat :| ResultAt(s0, m, a, d, i);
    assert a in Level(s0, m, d);
    LevelReplay(s0, m, d);
    LevelInvariants(s0, m, d);
  }

  /**
   * If level e's state k is solved, solve stops at a solved state no deeper
   * than e.
   */
  lemma ResultBeforeSolved(s0: State, m: int, a: State, d: nat, i: nat, e: nat, k: nat)
    requires ResultAt(s0, m, a, d, i)
    requires k < |Level(s0, m, e)| && UnsolvedTubes(Level(s0, m, e)[k].tubes) == 0
    ensures UnsolvedTubes(a.tubes) == 0 && d <= e
  {
    hide Level, Expand, Choices;
    if e < d || (e == d && k < i) {
      assert false;
    } else if UnsolvedTubes(a.tubes) > 0 {
      if e > d {
        LevelEmptyStays(s0, m, d + 1, e);
      }
      assert false;
    }
  }

  /**
   * If some sequence of moves p solves s0, solve's result is solved and
   * takes no more moves than p: breadth-first search finds a shortest
   * solution.
   */
  lemma SearchResultShortest(s0: State, m: int, a: State, p: seq<Move>)
    requires SearchResult(s0, m, a)
    requires Run(s0, p, m).Some? && UnsolvedTubes(Run(s0, p, m).value.tubes) == 0
    ensures UnsolvedTubes(a.tubes) == 0
    ensures |a.log| - |s0.log| <= |p|
  {
    var d: nat, i: nat :| ResultAt(s0, m, a, d, i);
    var q := Level(s0, m, |p|);
    LevelComplete(s0, m, p);
    var k :| 0 <= k < |q| && q[k] == Run(s0, p, m).value;
    ResultBeforeSolved(s0, m, a, d, i, |p|, k);
    assert a in Level(s0, m, d);
    LevelReplay(s0, m, d);
  }

  /** solve's result is solved exactly when some sequence of moves solves s0. */
  lemma SearchResultSolvable(s0: State, m: int, a: State)
    requires SearchResult(s0, m, a)
    ensures UnsolvedTubes(a.tubes) == 0 <==>
      exists p :: Run(s0, p, m).Some? && UnsolvedTubes(Run(s0, p, m).value.tubes) == 0
  {
    SearchResultReached(s0, m, a);
    var p := a.log[|s0.log|..];
    assert Run(s0, p, m) == Some(a);
    forall q | Run(s0, q, m).Some? && UnsolvedTubes(Run(s0, q, m).value.tubes) == 0
      ensures UnsolvedTubes(a.tubes) == 0
    {
      SearchResultShortest(s0, m, a, q);
    }
  }

  /** A state that is already solved is its own result. */
  lemma SearchResultOfSolved(s0: State, m: int, a: State)
    requires SearchResult(s0, m, a) && UnsolvedTubes(s0.tubes) == 0
    ensures a == s0
  {
    var d: nat, i: nat :| ResultAt(s0, m, a, d, i);
    assert Level(s0, m, 0) == [s0];
    assert ResultAt(s0, m, s0, 0, 0);
    ResultAtUnique(s0, m, a, d, i, s0, 0, 0);
  }
}
