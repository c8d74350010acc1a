/**
 * Tubes of the water-sort puzzle. A tube is the list of its colour units,
 * read from the top (index 0) to the bottom; each unit is a one-character
 * colour code.
 */
module Tubes {
  import opened Wrappers

  type Colour = char
  type Tube = seq<Colour>

  /** Every unit of t has the colour of its top unit (true of an empty tube). */
  predicate SingleColour(t: Tube) {
    forall k :: 0 <= k < |t| ==> t[k] == t[0]
  }

  /** Length of the top run of t: the units, from the top, that share t[0]'s colour. */
  function TopRun(t: Tube): (r: nat)
    ensures r <= |t|
    ensures r == 0 <==> t == []
    ensures forall k :: 0 <= k < r ==> t[k] == t[0]
    ensures r < |t| ==> t[r] != t[0]
  {
    if |t| <= 1 then |t|
    else if t[1] == t[0] then 1 + TopRun(t[1..])
    else 1
  }

  /** top_length: counts units from the top while they match the top unit. */
  method TopLength(tube: Tube) returns (i: nat)
    ensures i == TopRun(tube)
  {
    i := 0;
    while i < |tube| && tube[i] == tube[0]
      invariant i <= |tube|
      invariant forall k :: 0 <= k < i ==> tube[k] == tube[0]
    {
      i := i + 1;
    }
    TopRunUnique(tube, i);
  }

  /** The four properties in TopRun's contract determine it. */
  lemma TopRunUnique(t: Tube, r: nat)
    requires r <= |t|
    requires forall k :: 0 <= k < r ==> t[k] == t[0]
    requires r < |t| ==> t[r] != t[0]
    requires t != [] ==> r > 0
    ensures r == TopRun(t)
  {
  }

  /** The top run covers the whole tube exactly when the tube is single-coloured. */
  lemma TopRunWhole(t: Tube)
    ensures TopRun(t) == |t| <==> SingleColour(t)
  {
  }

  /** Stacking a single-coloured run x on a tube y whose top has x's colour lengthens y's top run by |x|. */
  lemma TopRunStack(x: Tube, y: Tube)
    requires x != [] && SingleColour(x)
    requires y == [] || y[0] == x[0]
    ensures TopRun(x + y) == |x| + TopRun(y)
    ensures (x + y)[TopRun(x + y)..] == y[TopRun(y)..]
  {
    var t := x + y;
    var r := |x| + TopRun(y);
    forall k | 0 <= k < r ensures t[k] == t[0] {
      if k >= |x| { assert t[k] == y[k - |x|]; }
    }
    if r < |t| { assert t[r] == y[TopRun(y)]; }
    TopRunUnique(t, r);
    assert t[r..] == y[TopRun(y)..];
  }

  /** Number of maximal same-colour runs in t (0 for an empty tube). */
  function Runs(t: Tube): nat
    decreases |t|
  {
    if t == [] then 0 else 1 + Runs(t[TopRun(t)..])
  }

  /** A tube's share of the search's termination measure: its runs, or 1 when it is empty. */
  function Weight(t: Tube): nat {
    if t == [] then 1 else Runs(t)
  }

  /** A run stacked on a matching tube merges with that tube's top run. */
  lemma RunsStack(x: Tube, y: Tube)
    requires x != [] && SingleColour(x)
    requires y == [] || y[0] == x[0]
    ensures Runs(x + y) == Weight(y)
  {
    TopRunStack(x, y);
    if y == [] {
      assert (x + y)[TopRun(x + y)..] == [];
    }
  }

  /**
   * pour: moves the whole top run of a onto b, where the capacity of a tube
   * is m. It fails, and only then, when a is empty, when b's top colour
   * differs from a's, when a is single-coloured, or when the run does not fit.
   */
  function Pour(a: Tube, b: Tube, m: int): (r: Option<(Tube, Tube)>)
    ensures r.None? <==>
      a == [] || (b != [] && b[0] != a[0]) || SingleColour(a) || TopRun(a) + |b| > m
  {
    if |a| > 0 && (|b| == 0 || a[0] == b[0]) then
      var i := TopRun(a);
      if i < |a| && i + |b| <= m then Some((a[i..], a[..i] + b)) else None
    else None
  }

  /**
   * A successful pour takes the whole top run off a (what remains is non-empty
   * and starts with another colour), puts it on top of b without exceeding m,
   * and neither creates nor destroys a unit.
   */
  lemma PourMoves(a: Tube, b: Tube, m: int)
    requires Pour(a, b, m).Some?
    ensures var (a', b') := Pour(a, b, m).value; var k := TopRun(a);
      a[..k] + a' == a && a' != [] && a'[0] != a[0] &&
      b' == a[..k] + b && SingleColour(a[..k]) && |b'| <= m &&
      TopRun(b') == k + TopRun(b) &&
      |a'| + |b'| == |a| + |b| &&
      multiset(a') + multiset(b') == multiset(a) + multiset(b)
  {
    var k := TopRun(a);
    TopRunSplit(a);
    TopRunStack(a[..k], b);
    assert Pour(a, b, m).value == (a[k..], a[..k] + b);
  }

  /** Cutting a tube after its top run: a single-coloured top, and the rest, of another colour. */
  lemma TopRunSplit(a: Tube)
    ensures var k := TopRun(a);
      a[..k] + a[k..] == a && SingleColour(a[..k]) &&
      (k < |a| ==> a[k..][0] != a[0]) &&
      multiset(a) == multiset(a[..k]) + multiset(a[k..])
  {
    var k := TopRun(a);
    SplitAt(a, k);
    assert SingleColour(a[..k]) by {
      forall q | 0 <= q < k ensures a[..k][q] == a[..k][0] {
        assert a[..k][q] == a[q];
      }
    }
    if k < |a| {
      assert a[k..][0] == a[k];
    }
  }

  /** Cutting a sequence in two keeps its elements. */
  lemma SplitAt<T>(a: seq<T>, k: nat)
    requires k <= |a|
    ensures a[..k] + a[k..] == a
    ensures multiset(a) == multiset(a[..k]) + multiset(a[k..])
  {
    assert a[..k] + a[k..] == a;
  }

  /** A successful pour lowers the total weight of the two tubes by exactly one. */
  lemma PourWeight(a: Tube, b: Tube, m: int)
    requires Pour(a, b, m).Some?
    ensures var (a', b') := Pour(a, b, m).value;
      Weight(a') + Weight(b') + 1 == Weight(a) + Weight(b)
  {
    var k := TopRun(a);
    PourMoves(a, b, m);
    RunsStack(a[..k], b);
  }
}
