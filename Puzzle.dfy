/**
 * Puzzle states, the successor states one pour reaches (get_choices) and
 * the count of unsolved tubes (not_solved).
 */
module Puzzle {
  import opened Wrappers
  import opened Tubes

  /**
   * A pour from tube src to tube dst. Tubes are numbered as in the source's
   * state list, from 1: tube k is tubes[k - 1].
   */
  datatype Move = Move(src: nat, dst: nat)

  /**
   * The source's state list: its entry 0, the move log, becomes log; its
   * entries 1.. become tubes.
   */
  datatype State = State(log: seq<Move>, tubes: seq<Tube>)

  /** The smaller and the larger of the two tube numbers a move names. */
  function Lo(mv: Move): nat { if mv.src < mv.dst then mv.src else mv.dst }
  function Hi(mv: Move): nat { if mv.src < mv.dst then mv.dst else mv.src }

  /** mv names two different tubes of s. */
  predicate ValidMove(s: State, mv: Move) {
    1 <= mv.src <= |s.tubes| && 1 <= mv.dst <= |s.tubes| && mv.src != mv.dst
  }

  /**
   * The state one pour produces: the two tubes replaced by the pour's
   * outputs and the move appended to the log (ApplyLayout shows this is the
   * list get_choices assembles from slices).
   */
  function Apply(s: State, mv: Move, m: int): Option<State>
    requires ValidMove(s, mv)
  {
    var src := mv.src - 1;
    var dst := mv.dst - 1;
    match Pour(s.tubes[src], s.tubes[dst], m)
    case None => None
    case Some(p) => Some(State(s.log + [mv], s.tubes[src := p.0][dst := p.1]))
  }

  /** All colour units of ts, with multiplicity. */
  function Colours(ts: seq<Tube>): multiset<Colour> {
    if ts == [] then multiset{} else Colours(ts[..|ts| - 1]) + multiset(ts[|ts| - 1])
  }

  /** Termination measure: the number of same-colour runs over all tubes plus the number of empty tubes. */
  function Potential(ts: seq<Tube>): nat {
    if ts == [] then 0 else Potential(ts[..|ts| - 1]) + Weight(ts[|ts| - 1])
  }

  /** No tube holds more than m units. */
  predicate Fits(ts: seq<Tube>, m: int) {
    forall k :: 0 <= k < |ts| ==> |ts[k]| <= m
  }

  lemma {:induction false} ColoursUpdate(ts: seq<Tube>, k: nat, t: Tube)
    requires k < |ts|
    ensures Colours(ts[k := t]) + multiset(ts[k]) == Colours(ts) + multiset(t)
  {
    var n := |ts| - 1;
    if k == n {
      assert ts[k := t][..n] == ts[..n];
    } else {
      assert ts[k := t][..n] == ts[..n][k := t];
      assert ts[k := t][n] == ts[n];
      assert ts[..n][k] == ts[k];
      ColoursUpdate(ts[..n], k, t);
      calc {
        Colours(ts[k := t]) + multiset(ts[k]);
        Colours(ts[..n][k := t]) + multiset(ts[n]) + multiset(ts[k]);
        Colours(ts[..n]) + multiset(t) + multiset(ts[n]);
      }
    }
  }

  lemma {:induction false} PotentialUpdate(ts: seq<Tube>, k: nat, t: Tube)
    requires k < |ts|
    ensures Potential(ts[k := t]) + Weight(ts[k]) == Potential(ts) + Weight(t)
  {
    var n := |ts| - 1;
    if k == n {
      assert ts[k := t][..n] == ts[..n];
    } else {
      assert ts[k := t][..n] == ts[..n][k := t];
      PotentialUpdate(ts[..n], k, t);
    }
  }

  /** The source's state list built by slicing equals the tube list with both entries replaced. */
  lemma Splice(ts: seq<Tube>, i: nat, j: nat, x: Tube, y: Tube)
    requires 1 <= i < j <= |ts|
    ensures ts[..i - 1] + [x] + ts[i..j - 1] + [y] + ts[j..] == ts[i - 1 := x][j - 1 := y]
    ensures ts[i - 1 := x][j - 1 := y] == ts[j - 1 := y][i - 1 := x]
  {
  }

  /**
   * A valid move succeeds exactly when its pour does; the new state has the
   * same number of tubes, differs from s only at the two tubes, which hold
   * the pour's outputs, and has the move appended to the log.
   */
  lemma ApplyFrame(s: State, mv: Move, m: int)
    requires ValidMove(s, mv)
    ensures Apply(s, mv, m).Some? <==> Pour(s.tubes[mv.src - 1], s.tubes[mv.dst - 1], m).Some?
    ensures Apply(s, mv, m).Some? ==>
      var x := Apply(s, mv, m).value;
      var p := Pour(s.tubes[mv.src - 1], s.tubes[mv.dst - 1], m).value;
      x.log == s.log + [mv] && x.tubes == s.tubes[mv.src - 1 := p.0][mv.dst - 1 := p.1] &&
      |x.tubes| == |s.tubes| && x.tubes[mv.src - 1] == p.0 && x.tubes[mv.dst - 1] == p.1 &&
      forall k :: 0 <= k < |s.tubes| && k != mv.src - 1 && k != mv.dst - 1 ==> x.tubes[k] == s.tubes[k]
  {
  }

  /**
   * get_choices assembles a successor from slices: the tubes before the
   * lower-numbered tube, its new content, the tubes between, the
   * higher-numbered tube's new content, the tubes after. That is Apply's
   * tube list, for i->j and for j->i.
   */
  lemma ApplyLayout(s: State, m: int, i: nat, j: nat)
    requires 1 <= i < j <= |s.tubes|
    ensures var r := Pour(s.tubes[i - 1], s.tubes[j - 1], m);
      r.Some? ==>
        Apply(s, Move(i, j), m) ==
        Some(State(s.log + [Move(i, j)], s.tubes[..i - 1] + [r.value.0] + s.tubes[i..j - 1] + [r.value.1] + s.tubes[j..]))
    ensures var r := Pour(s.tubes[j - 1], s.tubes[i - 1], m);
      r.Some? ==>
        Apply(s, Move(j, i), m) ==
        Some(State(s.log + [Move(j, i)], s.tubes[..i - 1] + [r.value.1] + s.tubes[i..j - 1] + [r.value.0] + s.tubes[j..]))
  {
    var r := Pour(s.tubes[i - 1], s.tubes[j - 1], m);
    if r.Some? {
      Splice(s.tubes, i, j, r.value.0, r.value.1);
    }
    r := Pour(s.tubes[j - 1], s.tubes[i - 1], m);
    if r.Some? {
      Splice(s.tubes, i, j, r.value.1, r.value.0);
    }
  }

  /**
   * A successful move conserves the colour units, keeps every tube within
   * capacity m if s did, and lowers the potential by exactly one.
   */
  lemma ApplyInvariants(s: State, mv: Move, m: int)
    requires ValidMove(s, mv) && Apply(s, mv, m).Some?
    ensures var x := Apply(s, mv, m).value;
      Colours(x.tubes) == Colours(s.tubes) &&
      Potential(x.tubes) + 1 == Potential(s.tubes) &&
      (Fits(s.tubes, m) ==> Fits(x.tubes, m))
  {
    var i, j := mv.src - 1, mv.dst - 1;
    var a, b := s.tubes[i], s.tubes[j];
    var p := Pour(a, b, m).value;
    var ts1 := s.tubes[i := p.0];
    var ts2 := ts1[j := p.1];
    ApplyFrame(s, mv, m);
    assert Apply(s, mv, m).value.tubes == ts2;
    PairInvariants(s.tubes, i, j, m);
  }

  /** Replacing tubes i and j by the outputs of a successful pour from i to j. */
  lemma PairInvariants(ts: seq<Tube>, i: nat, j: nat, m: int)
    requires i < |ts| && j < |ts| && i != j && Pour(ts[i], ts[j], m).Some?
    ensures var p := Pour(ts[i], ts[j], m).value;
      var ts2 := ts[i := p.0][j := p.1];
      Colours(ts2) == Colours(ts) &&
      Potential(ts2) + 1 == Potential(ts) &&
      (Fits(ts, m) ==> Fits(ts2, m))
  {
    var p := Pour(ts[i], ts[j], m).value;
    PourMoves(ts[i], ts[j], m);
    PourWeight(ts[i], ts[j], m);
    PairColours(ts, i, j, p.0, p.1);
    PairPotential(ts, i, j, p.0, p.1);
  }

  lemma PairColours(ts: seq<Tube>, i: nat, j: nat, x: Tube, y: Tube)
    requires i < |ts| && j < |ts| && i != j
    requires multiset(x) + multiset(y) == multiset(ts[i]) + multiset(ts[j])
    ensures Colours(ts[i := x][j := y]) == Colours(ts)
  {
    var ts1 := ts[i := x];
    var ts2 := ts1[j := y];
    assert ts1[j] == ts[j];
    ColoursUpdate(ts, i, x);
    ColoursUpdate(ts1, j, y);
    forall c ensures Colours(ts2)[c] == Colours(ts)[c] {
      assert (Colours(ts1) + multiset(ts[i]))[c] == (Colours(ts) + multiset(x))[c];
      assert (Colours(ts2) + multiset(ts[j]))[c] == (Colours(ts1) + multiset(y))[c];
      assert (multiset(x) + multiset(y))[c] == (multiset(ts[i]) + multiset(ts[j]))[c];
    }
    assert Colours(ts2) == Colours(ts);
  }

  lemma PairPotential(ts: seq<Tube>, i: nat, j: nat, x: Tube, y: Tube)
    requires i < |ts| && j < |ts| && i != j
    requires Weight(x) + Weight(y) + 1 == Weight(ts[i]) + Weight(ts[j])
    ensures Potential(ts[i := x][j := y]) + 1 == Potential(ts)
  {
    var ts1 := ts[i := x];
    assert ts1[j] == ts[j];
    PotentialUpdate(ts, i, x);
    PotentialUpdate(ts1, j, y);
  }

  // ---------------------------------------------------------------------
  // The order in which get_choices tries moves.

  /**
   * u is tried before v: by the smaller tube number, then by the larger one,
   * and the pour towards the larger number first.
   */
  predicate Before(u: Move, v: Move) {
    Lo(u) < Lo(v) ||
    (Lo(u) == Lo(v) && (Hi(u) < Hi(v) || (Hi(u) == Hi(v) && u.src < u.dst && v.dst < v.src)))
  }

  predicate Ascending(mvs: seq<Move>) {
    forall p, q :: 0 <= p < q < |mvs| ==> Before(mvs[p], mvs[q])
  }

  /** Moves the inner loop tries for outer index i, with inner index j from i + 1 to jEnd - 1. */
  function Row(i: nat, jEnd: nat): (r: seq<Move>)
    ensures forall mv <- r :: Lo(mv) == i && i < Hi(mv) < jEnd
    decreases jEnd
  {
    if jEnd <= i + 1 then [] else Row(i, jEnd - 1) + [Move(i, jEnd - 1), Move(jEnd - 1, i)]
  }

  /** Moves the nested loops try, over n tubes, for outer indices 1 to iEnd - 1. */
  function Rows(iEnd: nat, n: nat): (r: seq<Move>)
    ensures forall mv <- r :: 1 <= Lo(mv) < iEnd && Lo(mv) < Hi(mv) <= n
  {
    if iEnd <= 1 then [] else Rows(iEnd - 1, n) + Row(iEnd - 1, n + 1)
  }

  /** Every move get_choices tries on n tubes, in the order it tries them. */
  function Candidates(n: nat): seq<Move> {
    Rows(n + 1, n)
  }

  lemma AscendingConcat(a: seq<Move>, b: seq<Move>)
    requires Ascending(a) && Ascending(b)
    requires forall x, y :: x in a && y in b ==> Before(x, y)
    ensures Ascending(a + b)
  {
    forall p, q | 0 <= p < q < |a + b| ensures Before((a + b)[p], (a + b)[q]) {
      if q < |a| {
        assert (a + b)[p] == a[p] && (a + b)[q] == a[q];
      } else if p < |a| {
        assert (a + b)[p] in a && (a + b)[q] in b;
      } else {
        assert (a + b)[p] == b[p - |a|] && (a + b)[q] == b[q - |a|];
      }
    }
  }

  lemma {:induction false} RowSpec(i: nat, jEnd: nat)
    ensures forall mv :: mv in Row(i, jEnd) <==> Lo(mv) == i && i < Hi(mv) < jEnd
    ensures Ascending(Row(i, jEnd))
    decreases jEnd
  {
    if jEnd > i + 1 {
      var j := jEnd - 1;
      RowSpec(i, j);
      var front, tail := Row(i, j), [Move(i, j), Move(j, i)];
      forall mv ensures mv in front + tail <==> Lo(mv) == i && i < Hi(mv) < jEnd {
        assert mv in tail <==> mv == Move(i, j) || mv == Move(j, i);
      }
      assert Ascending(tail);
      AscendingConcat(front, tail);
    }
  }

  lemma {:induction false} RowsSpec(iEnd: nat, n: nat)
    ensures forall mv :: mv in Rows(iEnd, n) <==> 1 <= Lo(mv) < iEnd && Lo(mv) < Hi(mv) <= n
    ensures Ascending(Rows(iEnd, n))
  {
    if iEnd > 1 {
      var front, row := Rows(iEnd - 1, n), Row(iEnd - 1, n + 1);
      RowsSpec(iEnd - 1, n);
      RowSpec(iEnd - 1, n + 1);
      forall mv ensures mv in front + row <==> 1 <= Lo(mv) < iEnd && Lo(mv) < Hi(mv) <= n {
      }
      AscendingConcat(front, row);
    }
  }

  /**
   * The candidates are exactly the ordered pairs of distinct tube numbers in
   * 1..n, each once, ordered by smaller number, then larger number, with
   * i->j before j->i.
   */
  lemma CandidatesSpec(n: nat)
    ensures forall mv :: mv in Candidates(n) <==> 1 <= mv.src <= n && 1 <= mv.dst <= n && mv.src != mv.dst
    ensures Ascending(Candidates(n))
  {
    RowsSpec(n + 1, n);
  }

  // ---------------------------------------------------------------------
  // Successor states.

  lemma AppendAssociative<T>(a: seq<T>, b: seq<T>, c: seq<T>)
    ensures (a + b) + c == a + (b + c)
  {
  }

  function Succeeded(o: Option<State>): seq<State> {
    match o
    case Some(x) => [x]
    case None => []
  }

  /** The result of move mv on s, if mv is valid and its pour succeeds. */
  function Try(s: State, mv: Move, m: int): Option<State> {
    if ValidMove(s, mv) then Apply(s, mv, m) else None
  }

  /**
   * The states reached by those moves of mvs that are valid and whose pour
   * succeeds, in the order of mvs.
   */
  function Successors(s: State, m: int, mvs: seq<Move>): seq<State>
    decreases |mvs|
  {
    if mvs == [] then []
    else Successors(s, m, mvs[..|mvs| - 1]) + Succeeded(Try(s, mvs[|mvs| - 1], m))
  }

  /** What get_choices pushes for the pair i < j: the result of i->j, then that of j->i, each if it succeeds. */
  function PairChoices(s: State, m: int, i: nat, j: nat): seq<State> {
    Succeeded(Try(s, Move(i, j), m)) + Succeeded(Try(s, Move(j, i), m))
  }

  /** What the inner loop pushes for outer index i, over inner indices i + 1 to jEnd - 1. */
  function RowChoices(s: State, m: int, i: nat, jEnd: nat): seq<State>
    decreases jEnd
  {
    if jEnd <= i + 1 then [] else RowChoices(s, m, i, jEnd - 1) + PairChoices(s, m, i, jEnd - 1)
  }

  /** What the outer loop pushes for outer indices 1 to iEnd - 1. */
  function RowsChoices(s: State, m: int, iEnd: nat): seq<State> {
    if iEnd <= 1 then [] else RowsChoices(s, m, iEnd - 1) + RowChoices(s, m, iEnd - 1, |s.tubes| + 1)
  }

  /** get_choices, as a value. */
  function Choices(s: State, m: int): seq<State> {
    RowsChoices(s, m, |s.tubes| + 1)
  }

  /**
   * The move that produced a state from its parent: the last entry of its
   * log (Move(0, 0), which names no tube, for an empty log).
   */
  function LastMove(x: State): Move {
    if x.log == [] then Move(0, 0) else x.log[|x.log| - 1]
  }

  lemma {:induction false} SuccessorsConcat(s: State, m: int, a: seq<Move>, b: seq<Move>)
    ensures Successors(s, m, a + b) == Successors(s, m, a) + Successors(s, m, b)
  {
    if b != [] {
      var n := |b| - 1;
      assert (a + b)[..|a + b| - 1] == a + b[..n];
      assert (a + b)[|a + b| - 1] == b[n];
      SuccessorsConcat(s, m, a, b[..n]);
      AppendAssociative(Successors(s, m, a), Successors(s, m, b[..n]), Succeeded(Try(s, b[n], m)));
    } else {
      assert a + b == a;
      assert Successors(s, m, a) + [] == Successors(s, m, a);
    }
  }

  lemma SuccessorsPair(s: State, m: int, u: Move, v: Move)
    ensures Successors(s, m, [u, v]) == Succeeded(Try(s, u, m)) + Succeeded(Try(s, v, m))
  {
    assert [u, v][..1] == [u];
    assert [u][..0] == [];
    assert Successors(s, m, [u]) == Successors(s, m, []) + Succeeded(Try(s, u, m));
    assert Successors(s, m, [u, v]) == Successors(s, m, [u]) + Succeeded(Try(s, v, m));
    assert [] + Succeeded(Try(s, u, m)) == Succeeded(Try(s, u, m));
  }

  lemma {:induction false} RowChoicesSpec(s: State, m: int, i: nat, jEnd: nat)
    ensures RowChoices(s, m, i, jEnd) == Successors(s, m, Row(i, jEnd))
    decreases jEnd
  {
    if jEnd > i + 1 {
      var j := jEnd - 1;
      var front, pair := Row(i, j), [Move(i, j), Move(j, i)];
      assert Row(i, jEnd) == front + pair;
      assert RowChoices(s, m, i, jEnd) == RowChoices(s, m, i, j) + PairChoices(s, m, i, j);
      assert RowChoices(s, m, i, j) == Successors(s, m, front) by { RowChoicesSpec(s, m, i, j); }
      assert PairChoices(s, m, i, j) == Successors(s, m, pair) by { SuccessorsPair(s, m, Move(i, j), Move(j, i)); }
      SuccessorsConcat(s, m, front, pair);
    }
  }

  lemma {:induction false} RowsChoicesSpec(s: State, m: int, iEnd: nat)
    ensures RowsChoices(s, m, iEnd) == Successors(s, m, Rows(iEnd, |s.tubes|))
  {
    if iEnd > 1 {
      RowsChoicesSpec(s, m, iEnd - 1);
      RowChoicesSpec(s, m, iEnd - 1, |s.tubes| + 1);
      SuccessorsConcat(s, m, Rows(iEnd - 1, |s.tubes|), Row(iEnd - 1, |s.tubes| + 1));
    }
  }

  /**
   * The choices are the successors, in their order, of the candidate moves:
   * the loop structure of get_choices enumerates exactly Candidates.
   */
  lemma ChoicesAreSuccessors(s: State, m: int)
    ensures Choices(s, m) == Successors(s, m, Candidates(|s.tubes|))
  {
    RowsChoicesSpec(s, m, |s.tubes| + 1);
  }

  lemma {:induction false} SuccessorsSound(s: State, m: int, mvs: seq<Move>)
    ensures forall x <- Successors(s, m, mvs) ::
      LastMove(x) in mvs && ValidMove(s, LastMove(x)) && Apply(s, LastMove(x), m) == Some(x)
  {
    if mvs != [] {
      var init := mvs[..|mvs| - 1];
      SuccessorsSound(s, m, init);
      forall x <- Successors(s, m, mvs)
        ensures LastMove(x) in mvs && ValidMove(s, LastMove(x)) && Apply(s, LastMove(x), m) == Some(x)
      {
        if x !in Successors(s, m, init) {
          ApplyFrame(s, mvs[|mvs| - 1], m);
        }
      }
    }
  }

  lemma {:induction false} SuccessorsComplete(s: State, m: int, mvs: seq<Move>, mv: Move)
    requires mv in mvs && ValidMove(s, mv) && Apply(s, mv, m).Some?
    ensures Apply(s, mv, m).value in Successors(s, m, mvs)
  {
    var init := mvs[..|mvs| - 1];
    if mv != mvs[|mvs| - 1] {
      assert mv in init by {
        var k :| 0 <= k < |mvs| && mvs[k] == mv;
        assert init[k] == mv;
      }
      SuccessorsComplete(s, m, init, mv);
    }
  }

  lemma {:induction false} SuccessorsEmpty(s: State, m: int, mvs: seq<Move>)
    ensures Successors(s, m, mvs) == [] <==> forall mv <- mvs :: Try(s, mv, m).None?
  {
    if mvs != [] {
      var init := mvs[..|mvs| - 1];
      SuccessorsEmpty(s, m, init);
      assert mvs == init + [mvs[|mvs| - 1]];
    }
  }

  lemma {:induction false} SuccessorsAscending(s: State, m: int, mvs: seq<Move>)
    requires Ascending(mvs)
    ensures var xs := Successors(s, m, mvs);
      forall p, q :: 0 <= p < q < |xs| ==> Before(LastMove(xs[p]), LastMove(xs[q]))
  {
    if mvs != [] {
      var n := |mvs| - 1;
      var init := mvs[..n];
      assert Ascending(init);
      SuccessorsAscending(s, m, init);
      var ys := Successors(s, m, init);
      var xs := Successors(s, m, mvs);
      if |xs| > |ys| {
        assert ValidMove(s, mvs[n]);
        ApplyFrame(s, mvs[n], m);
        assert LastMove(xs[|ys|]) == mvs[n];
        forall p | 0 <= p < |ys| ensures Before(LastMove(ys[p]), mvs[n]) {
          SuccessorsFromEarlier(s, m, mvs, ys[p]);
        }
      }
    }
  }

  lemma SuccessorsFromEarlier(s: State, m: int, mvs: seq<Move>, x: State)
    requires Ascending(mvs) && mvs != []
    requires x in Successors(s, m, mvs[..|mvs| - 1])
    ensures Before(LastMove(x), mvs[|mvs| - 1])
  {
    var n := |mvs| - 1;
    SuccessorsSound(s, m, mvs[..n]);
    var k :| 0 <= k < n && mvs[..n][k] == LastMove(x);
    assert mvs[k] == LastMove(x);
  }

  /**
   * Every choice is one successful valid move away from s; its tubes are
   * s's except the two the move names, which hold the pour's outputs; its log
   * is s's plus that move; it conserves the colour units, keeps capacity m if
   * s did, and has potential one less than s.
   */
  lemma ChoiceProperties(s: State, m: int, x: State)
    requires x in Choices(s, m)
    ensures ValidMove(s, LastMove(x)) && Apply(s, LastMove(x), m) == Some(x)
    ensures x.log == s.log + [LastMove(x)] && |x.tubes| == |s.tubes|
    ensures var mv := LastMove(x);
      Pour(s.tubes[mv.src - 1], s.tubes[mv.dst - 1], m) == Some((x.tubes[mv.src - 1], x.tubes[mv.dst - 1]))
    ensures forall k :: 0 <= k < |s.tubes| && k != LastMove(x).src - 1 && k != LastMove(x).dst - 1 ==>
      x.tubes[k] == s.tubes[k]
    ensures Colours(x.tubes) == Colours(s.tubes)
    ensures Potential(x.tubes) + 1 == Potential(s.tubes)
    ensures Fits(s.tubes, m) ==> Fits(x.tubes, m)
  {
    ChoiceIsMove(s, m, x);
    var mv := LastMove(x);
    ApplyFrame(s, mv, m);
    ApplyInvariants(s, mv, m);
  }

  lemma ChoiceIsMove(s: State, m: int, x: State)
    requires x in Choices(s, m)
    ensures ValidMove(s, LastMove(x)) && Apply(s, LastMove(x), m) == Some(x)
  {
    ChoicesAreSuccessors(s, m);
    SuccessorsSound(s, m, Candidates(|s.tubes|));
  }

  /** Every valid move whose pour succeeds yields one of the choices. */
  lemma ChoicesComplete(s: State, m: int, mv: Move)
    requires ValidMove(s, mv) && Apply(s, mv, m).Some?
    ensures Apply(s, mv, m).value in Choices(s, m)
  {
    ChoicesAreSuccessors(s, m);
    CandidatesSpec(|s.tubes|);
    SuccessorsComplete(s, m, Candidates(|s.tubes|), mv);
  }

  /**
   * The choices are listed in the order the nested loops try their moves,
   * so no two come from the same move.
   */
  lemma ChoicesOrdered(s: State, m: int)
    ensures var xs := Choices(s, m);
      forall p, q :: 0 <= p < q < |xs| ==>
        Before(LastMove(xs[p]), LastMove(xs[q]))
  {
    ChoicesAreSuccessors(s, m);
    CandidatesSpec(|s.tubes|);
    SuccessorsAscending(s, m, Candidates(|s.tubes|));
  }

  /** There are no choices exactly when no valid move's pour succeeds. */
  lemma ChoicesEmpty(s: State, m: int)
    ensures Choices(s, m) == [] <==> forall mv :: ValidMove(s, mv) ==> Apply(s, mv, m).None?
  {
    ChoicesAreSuccessors(s, m);
    CandidatesSpec(|s.tubes|);
    SuccessorsEmpty(s, m, Candidates(|s.tubes|));
  }

  /** The pair's choices, stated with Apply as get_choices computes them. */
  lemma PairApply(s: State, m: int, i: nat, j: nat)
    requires 1 <= i < j <= |s.tubes|
    ensures PairChoices(s, m, i, j) == Succeeded(Apply(s, Move(i, j), m)) + Succeeded(Apply(s, Move(j, i), m))
  {
  }

  /** get_choices: the nested loops over tube pairs i < j, trying i->j then j->i. */
  method GetChoices(s: State, m: int) returns (result: seq<State>)
    ensures result == Choices(s, m)
  {
    // Only PairApply's statement of the pair's choices is needed here.
    hide PairChoices;
    var n := |s.tubes| + 1;
    result := [];
    var i := 1;
    while i < n
      invariant 1 <= i <= n
      invariant result == RowsChoices(s, m, i)
    {
      var j := i + 1;
      while j < n
        invariant i + 1 <= j <= n
        invariant result == RowsChoices(s, m, i) + RowChoices(s, m, i, j)
      {
        ghost var before := result;
        var r := Apply(s, Move(i, j), m);
        if r.Some? {
          result := result + [r.value];
        }
        ghost var u := Succeeded(r);
        assert result == before + u;
        ghost var middle := result;
        r := Apply(s, Move(j, i), m);
        if r.Some? {
          result := result + [r.value];
        }
        ghost var v := Succeeded(r);
        assert result == middle + v;
        PairApply(s, m, i, j);
        AppendAssociative(before, u, v);
        AppendAssociative(RowsChoices(s, m, i), RowChoices(s, m, i, j), u + v);
        j := j + 1;
      }
      i := i + 1;
    }
  }

  // ---------------------------------------------------------------------
  // Unsolved tubes.

  /** Number of tubes of ts holding more than one colour. */
  function UnsolvedTubes(ts: seq<Tube>): (r: nat)
    ensures r <= |ts|
    ensures r == 0 <==> forall k :: 0 <= k < |ts| ==> SingleColour(ts[k])
  {
    if ts == [] then 0
    else
      var last := ts[|ts| - 1];
      TopRunWhole(last);
      UnsolvedTubes(ts[..|ts| - 1]) + (if TopRun(last) < |last| then 1 else 0)
  }

  /** not_solved: counts the tubes whose top run is shorter than the tube. */
  method NotSolved(s: State) returns (n: nat)
    ensures n == UnsolvedTubes(s.tubes)
  {
    n := 0;
    var i := 1;
    while i < |s.tubes| + 1
      invariant 1 <= i <= |s.tubes| + 1
      invariant n == UnsolvedTubes(s.tubes[..i - 1])
    {
      var k := TopLength(s.tubes[i - 1]);
      assert s.tubes[..i][..i - 1] == s.tubes[..i - 1];
      if k < |s.tubes[i - 1]| {
        n := n + 1;
      }
      i := i + 1;
    }
    assert s.tubes[..|s.tubes|] == s.tubes;
  }

  /** A state whose every tube is single-coloured has no choices: pour refuses single-coloured sources. */
  lemma SolvedHasNoChoices(s: State, m: int)
    requires UnsolvedTubes(s.tubes) == 0
    ensures Choices(s, m) == []
  {
    ChoicesEmpty(s, m);
  }
}
