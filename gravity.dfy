/**
 * What `fillInRunes` does to one column: the unflagged runes survive, keep their
 * top-to-bottom order and drop to the bottom; the rows above them receive fresh
 * runes; no rune is left flagged.
 */
module Gravity {
  import opened Runes

  /** The unflagged runes of a column, top to bottom. */
  function Survivors(s: seq<Rune>): (t: seq<Rune>)
    ensures |t| <= |s|
  {
    if s == [] then []
    else Survivors(s[..|s| - 1]) + (if s[|s| - 1].isMatched then [] else [s[|s| - 1]])
  }

  /** The number of flagged runes of a column. */
  function FlaggedCount(s: seq<Rune>): nat {
    if s == [] then 0
    else FlaggedCount(s[..|s| - 1]) + (if s[|s| - 1].isMatched then 1 else 0)
  }

  predicate AllFlagged(s: seq<Rune>) {
    forall i :: 0 <= i < |s| ==> s[i].isMatched
  }

  predicate NoFlags(s: seq<Rune>) {
    forall i :: 0 <= i < |s| ==> !s[i].isMatched
  }

  lemma {:induction false} SurvivorsAppend(a: seq<Rune>, b: seq<Rune>)
    ensures Survivors(a + b) == Survivors(a) + Survivors(b)
  {
    if b == [] {
      assert a + b == a;
    } else {
      var n := |b| - 1;
      assert (a + b)[..|a + b| - 1] == a + b[..n];
      SurvivorsAppend(a, b[..n]);
    }
  }

  lemma {:induction false} SurvivorsOfFlagged(s: seq<Rune>)
    requires AllFlagged(s)
    ensures Survivors(s) == []
  {
    if s != [] {
      SurvivorsOfFlagged(s[..|s| - 1]);
    }
  }

  lemma {:induction false} SurvivorsOfUnflagged(s: seq<Rune>)
    requires NoFlags(s)
    ensures Survivors(s) == s
  {
    if s != [] {
      var n := |s| - 1;
      SurvivorsOfUnflagged(s[..n]);
      assert s == s[..n] + [s[n]];
    }
  }

  /** Survivors are unflagged and appear in the column in the same order. */
  lemma {:induction false} SurvivorsAreUnflagged(s: seq<Rune>)
    ensures NoFlags(Survivors(s))
  {
    if s != [] {
      SurvivorsAreUnflagged(s[..|s| - 1]);
    }
  }

  /** Every rune of a column either survives or is flagged: the two counts make up the height. */
  lemma {:induction false} SurvivorsCount(s: seq<Rune>)
    ensures |Survivors(s)| + FlaggedCount(s) == |s|
  {
    if s != [] {
      SurvivorsCount(s[..|s| - 1]);
    }
  }

  /**
   * Column s is what fillInRunes makes of column o: nothing flagged, and the
   * survivors of o, in order, fill the bottom rows.
   */
  ghost predicate ColumnFilled(o: seq<Rune>, s: seq<Rune>) {
    && |s| == |o|
    && NoFlags(s)
    && s[|s| - |Survivors(o)|..] == Survivors(o)
  }

  /** Rune r is the new rune made from one of the draws lo .. hi - 1 of the stream. */
  ghost predicate Drawn(r: Rune, stream: nat -> nat, lo: nat, hi: nat) {
    exists j: nat :: lo <= j < hi && r == NewRune(stream(j))
  }

  /** The rows of s above the survivors of o hold new runes made from the draws lo .. hi - 1. */
  ghost predicate FreshDrawn(o: seq<Rune>, s: seq<Rune>, stream: nat -> nat, lo: nat, hi: nat) {
    forall i :: 0 <= i < |s| - |Survivors(o)| ==> Drawn(s[i], stream, lo, hi)
  }

  /**
   * Tile conservation: the filled column is one new rune per flagged rune of
   * o, each made from a draw, followed by the survivors of o.
   */
  lemma FilledConservesTiles(o: seq<Rune>, s: seq<Rune>, stream: nat -> nat, lo: nat, hi: nat)
    requires ColumnFilled(o, s) && FreshDrawn(o, s, stream, lo, hi)
    ensures FlaggedCount(o) + |Survivors(o)| == |s|
    ensures s == s[..FlaggedCount(o)] + Survivors(o)
    ensures forall i :: 0 <= i < FlaggedCount(o) ==> !s[i].isMatched && Drawn(s[i], stream, lo, hi)
  {
    SurvivorsCount(o);
    assert s == s[..|s| - |Survivors(o)|] + s[|s| - |Survivors(o)|..];
  }

  /** The rows below the lowest flagged rune do not move. */
  lemma FilledKeepsBottom(o: seq<Rune>, s: seq<Rune>, m: int)
    requires ColumnFilled(o, s)
    requires 0 <= m <= |o| && NoFlags(o[m..])
    ensures s[m..] == o[m..]
  {
    assert o == o[..m] + o[m..];
    SurvivorsAppend(o[..m], o[m..]);
    SurvivorsOfUnflagged(o[m..]);
    var k := |Survivors(o)|;
    var t := Survivors(o[..m]);
    assert Survivors(o) == t + o[m..];
    forall i | m <= i < |s|
      ensures s[i] == o[i]
    {
      assert s[i] == s[|s| - k..][i - (|s| - k)];
      assert (t + o[m..])[i - (|s| - k)] == o[m..][i - m];
    }
  }

  /**
   * A column part-way through fillInRunes, which works from the bottom row up:
   * rows b.. are done and unflagged, the f runes at the top of them are fresh,
   * and the survivors still above row b followed by the done rows below the
   * fresh ones are exactly the survivors of the original column o.
   */
  ghost predicate FillProgress(s: seq<Rune>, o: seq<Rune>, b: int, f: int) {
    && |s| == |o|
    && 0 <= b && 0 <= f && b + f <= |s|
    && NoFlags(s[b..])
    && Survivors(s[..b]) + s[b + f..] == Survivors(o)
    && (f > 0 ==> AllFlagged(s[..b]))
  }

  lemma FillStart(o: seq<Rune>)
    ensures FillProgress(o, o, |o|, 0)
  {
    assert o[..|o|] == o;
    assert o[|o|..] == [];
  }

  lemma FillDone(s: seq<Rune>, o: seq<Rune>, f: int)
    requires FillProgress(s, o, 0, f)
    ensures ColumnFilled(o, s)
  {
    assert s[..0] == [];
    assert s[0..] == s;
    assert s[f..] == Survivors(o);
  }

  /** Row b-1 holds an unflagged rune: it stays where it is. */
  lemma FillKeep(s: seq<Rune>, o: seq<Rune>, b: int, f: int)
    requires FillProgress(s, o, b, f) && b > 0 && !s[b - 1].isMatched
    ensures FillProgress(s, o, b - 1, f) && f == 0
  {
    assert s[..b] == s[..b - 1] + [s[b - 1]];
    assert s[..b][..b - 1] == s[..b - 1];
    assert f == 0 by {
      assert s[..b][b - 1] == s[b - 1];
    }
    assert s[b - 1..] == [s[b - 1]] + s[b..];
  }

  /** Row b-1 is flagged and every row above it too: it receives a fresh rune x. */
  lemma FillFresh(s: seq<Rune>, o: seq<Rune>, b: int, f: int, x: Rune)
    requires FillProgress(s, o, b, f) && b > 0 && s[b - 1].isMatched
    requires AllFlagged(s[..b - 1]) && !x.isMatched
    ensures FillProgress(s[b - 1 := x], o, b - 1, f + 1)
  {
    var s' := s[b - 1 := x];
    assert s'[..b - 1] == s[..b - 1];
    assert s[..b] == s[..b - 1] + [s[b - 1]];
    assert s[..b][..b - 1] == s[..b - 1];
    SurvivorsOfFlagged(s[..b - 1]);
    assert s'[b - 1 + (f + 1)..] == s[b + f..];
    assert s'[b - 1..] == [x] + s[b..];
  }

  /** Flagged runes appended to a column add no survivor. */
  lemma SurvivorsFlaggedSuffix(a: seq<Rune>, c: seq<Rune>)
    requires AllFlagged(c)
    ensures Survivors(a + c) == Survivors(a)
  {
    SurvivorsAppend(a, c);
    SurvivorsOfFlagged(c);
  }

  /** The survivors above row b, when t is the lowest unflagged row above b. */
  lemma SurvivorsAboveMove(s: seq<Rune>, b: int, t: int)
    requires 0 <= t < b <= |s| && !s[t].isMatched
    requires forall i :: t < i < b ==> s[i].isMatched
    ensures Survivors(s[..b]) == Survivors(s[..t]) + [s[t]]
  {
    var head := s[..t] + [s[t]];
    assert s[..b] == head + s[t + 1..b];
    assert AllFlagged(s[t + 1..b]);
    SurvivorsFlaggedSuffix(head, s[t + 1..b]);
    assert head[..|head| - 1] == s[..t];
  }

  /**
   * Row b-1 is flagged, t is the nearest unflagged row above it: that rune drops
   * into row b-1 and row t receives a flagged placeholder y.
   */
  lemma FillMove(s: seq<Rune>, o: seq<Rune>, b: int, f: int, t: int, y: Rune)
    requires FillProgress(s, o, b, f) && b > 0 && s[b - 1].isMatched
    requires 0 <= t < b - 1 && !s[t].isMatched
    requires forall i :: t < i < b - 1 ==> s[i].isMatched
    requires y.isMatched
    ensures FillProgress(s[b - 1 := s[t]][t := y], o, b - 1, f) && f == 0
  {
    var s' := s[b - 1 := s[t]][t := y];
    assert f == 0 by {
      assert s[..b][t] == s[t];
    }
    SurvivorsAboveMove(s, b, t);
    var rest := [y] + s[t + 1..b - 1];
    assert s'[..b - 1] == s[..t] + rest;
    assert AllFlagged(rest);
    SurvivorsFlaggedSuffix(s[..t], rest);
    assert s'[b - 1..] == [s[t]] + s[b..];
  }

  /** How many fresh runes sit at the top of the done rows, read off the column itself. */
  function FreshCount(s: seq<Rune>, o: seq<Rune>, b: int): int
    requires 0 <= b <= |s|
  {
    |s| - b - |Survivors(o)| + |Survivors(s[..b])|
  }

  /** Column s is fillInRunes part-way through column o, with rows b.. done. */
  ghost predicate ColumnProgress(s: seq<Rune>, o: seq<Rune>, b: int) {
    0 <= b <= |s| && FillProgress(s, o, b, FreshCount(s, o, b))
  }

  lemma FreshDetermined(s: seq<Rune>, o: seq<Rune>, b: int, f: int)
    requires FillProgress(s, o, b, f)
    ensures ColumnProgress(s, o, b) && FreshCount(s, o, b) == f
  {
    assert |Survivors(s[..b]) + s[b + f..]| == |Survivors(o)|;
  }

  /** Before the first row is processed, nothing is done. */
  lemma ProgressStart(o: seq<Rune>)
    ensures ColumnProgress(o, o, |o|)
  {
    FillStart(o);
    FreshDetermined(o, o, |o|, 0);
  }

  /** Once every row is processed, the column is filled. */
  lemma ProgressDone(s: seq<Rune>, o: seq<Rune>)
    requires ColumnProgress(s, o, 0)
    ensures ColumnFilled(o, s)
  {
    FillDone(s, o, FreshCount(s, o, 0));
  }

  lemma ProgressKeep(s: seq<Rune>, o: seq<Rune>, b: int)
    requires ColumnProgress(s, o, b) && b > 0 && !s[b - 1].isMatched
    ensures ColumnProgress(s, o, b - 1) && FreshCount(s, o, b - 1) == 0
  {
    FillKeep(s, o, b, FreshCount(s, o, b));
    FreshDetermined(s, o, b - 1, FreshCount(s, o, b));
  }

  lemma ProgressFresh(s: seq<Rune>, o: seq<Rune>, b: int, x: Rune)
    requires ColumnProgress(s, o, b) && b > 0 && s[b - 1].isMatched
    requires AllFlagged(s[..b - 1]) && !x.isMatched
    ensures ColumnProgress(s[b - 1 := x], o, b - 1)
    ensures FreshCount(s[b - 1 := x], o, b - 1) == FreshCount(s, o, b) + 1
  {
    FillFresh(s, o, b, FreshCount(s, o, b), x);
    FreshDetermined(s[b - 1 := x], o, b - 1, FreshCount(s, o, b) + 1);
  }

  lemma ProgressMove(s: seq<Rune>, o: seq<Rune>, b: int, t: int, y: Rune)
    requires ColumnProgress(s, o, b) && b > 0 && s[b - 1].isMatched
    requires 0 <= t < b - 1 && !s[t].isMatched
    requires forall i :: t < i < b - 1 ==> s[i].isMatched
    requires y.isMatched
    ensures ColumnProgress(s[b - 1 := s[t]][t := y], o, b - 1)
    ensures FreshCount(s[b - 1 := s[t]][t := y], o, b - 1) == 0
  {
    FillMove(s, o, b, FreshCount(s, o, b), t, y);
    FreshDetermined(s[b - 1 := s[t]][t := y], o, b - 1, FreshCount(s, o, b));
  }

  /** A done row is unflagged. */
  lemma ProgressDoneRowsClear(s: seq<Rune>, o: seq<Rune>, b: int, i: int)
    requires ColumnProgress(s, o, b) && b <= i < |s|
    ensures !s[i].isMatched
  {
    assert s[b..][i - b] == s[i];
  }

  /** The nearest unflagged row above row k, or -1 when every row above is flagged. */
  function LastUnflaggedBefore(s: seq<Rune>, k: int): (t: int)
    requires 0 <= k <= |s|
    ensures -1 <= t < k
    ensures t >= 0 ==> !s[t].isMatched
    ensures forall i :: t < i < k ==> s[i].isMatched
  {
    if k == 0 then -1
    else if !s[k - 1].isMatched then k - 1
    else LastUnflaggedBefore(s, k - 1)
  }

  /**
   * `moveRuneFromAbove` on one column, with x the new rune it creates: the
   * nearest unflagged rune above `row` drops into `row` and leaves x, flagged,
   * in its place; with none above, x itself fills `row`.
   */
  function PullDown(s: seq<Rune>, row: int, x: Rune): seq<Rune>
    requires 0 <= row < |s|
  {
    var t := LastUnflaggedBefore(s, row);
    if t < 0 then s[row := x] else s[row := s[t]][t := SetIsMatched(x, true)]
  }

  /** Pulling a rune down into the flagged row above the done rows extends the done rows by one. */
  lemma ProgressPull(s: seq<Rune>, o: seq<Rune>, b: int, x: Rune)
    requires ColumnProgress(s, o, b) && b > 0 && s[b - 1].isMatched && !x.isMatched
    ensures ColumnProgress(PullDown(s, b - 1, x), o, b - 1)
    ensures FreshCount(PullDown(s, b - 1, x), o, b - 1)
            == if LastUnflaggedBefore(s, b - 1) < 0 then FreshCount(s, o, b) + 1 else 0
  {
    var t := LastUnflaggedBefore(s, b - 1);
    if t < 0 {
      assert AllFlagged(s[..b - 1]);
      ProgressFresh(s, o, b, x);
    } else {
      ProgressMove(s, o, b, t, SetIsMatched(x, true));
    }
  }

  /**
   * How many runes fillInRunes draws for column o. Every row from the top down
   * to the lowest flagged one is filled once, and each fill draws a new rune:
   * the fresh rune itself, or the flagged placeholder a dropping rune leaves.
   */
  function FillDraws(o: seq<Rune>): (n: nat)
    ensures n <= |o|
    ensures n > 0 ==> o[n - 1].isMatched
    ensures forall i :: n <= i < |o| ==> !o[i].isMatched
  {
    if o == [] then 0
    else if o[|o| - 1].isMatched then |o|
    else FillDraws(o[..|o| - 1])
  }

  /** The fill draws at least one rune per flagged rune, and none for a column with no flag. */
  lemma {:induction false} FillDrawsCoverFlagged(o: seq<Rune>)
    ensures FlaggedCount(o) <= FillDraws(o)
    ensures FillDraws(o) == 0 <==> NoFlags(o)
  {
    if o != [] {
      var n := |o| - 1;
      FillDrawsCoverFlagged(o[..n]);
      if o[n].isMatched {
        SurvivorsCount(o);
      }
    }
  }

  /**
   * The draws part-way through the fill of column o, rows b.. done: while the
   * fill is above the lowest flagged row, the next row is flagged; below it,
   * nothing above the done rows has moved.
   */
  ghost predicate DrawProgress(s: seq<Rune>, o: seq<Rune>, b: int) {
    && |s| == |o| && 0 <= b <= |s|
    && (0 < b <= FillDraws(o) ==> s[b - 1].isMatched)
    && (b >= FillDraws(o) ==> s[..b] == o[..b])
  }

  /** How many runes the fill has drawn for column o once rows b.. are done. */
  function DrawsDone(o: seq<Rune>, b: int): nat {
    if b < FillDraws(o) then FillDraws(o) - b else 0
  }

  /** Column s is the fill of column o with rows b.. done, its fresh rows made from the draws lo .. hi - 1. */
  ghost predicate FillStep(s: seq<Rune>, o: seq<Rune>, b: int, stream: nat -> nat, lo: nat, hi: nat) {
    && ColumnProgress(s, o, b)
    && DrawProgress(s, o, b)
    && (forall i :: b <= i < b + FreshCount(s, o, b) && i < |s| ==> Drawn(s[i], stream, lo, hi))
  }

  lemma FillStepStart(o: seq<Rune>, stream: nat -> nat, lo: nat, hi: nat)
    ensures FillStep(o, o, |o|, stream, lo, hi)
  {
    ProgressStart(o);
    assert o[..|o|] == o;
  }

  /** An unflagged row stays, drawing nothing. */
  lemma FillStepKeep(s: seq<Rune>, o: seq<Rune>, b: int, stream: nat -> nat, lo: nat, hi: nat)
    requires FillStep(s, o, b, stream, lo, hi) && b > 0 && !s[b - 1].isMatched
    ensures FillStep(s, o, b - 1, stream, lo, hi)
    ensures DrawsDone(o, b - 1) == DrawsDone(o, b)
  {
    ProgressKeep(s, o, b);
    assert s[..b - 1] == s[..b][..b - 1];
    if 0 < b - 1 <= FillDraws(o) {
      assert s[b - 2] == s[..b][b - 2];
    }
  }

  /** A flagged row is filled from above with the rune made from draw d. */
  lemma FillStepPull(s: seq<Rune>, o: seq<Rune>, b: int, stream: nat -> nat, lo: nat, hi: nat, d: nat)
    requires FillStep(s, o, b, stream, lo, hi) && b > 0 && s[b - 1].isMatched && lo <= d < hi
    ensures FillStep(PullDown(s, b - 1, NewRune(stream(d))), o, b - 1, stream, lo, hi)
    ensures DrawsDone(o, b - 1) == DrawsDone(o, b) + 1
  {
    var x := NewRune(stream(d));
    var s' := PullDown(s, b - 1, x);
    var t := LastUnflaggedBefore(s, b - 1);
    ProgressPull(s, o, b, x);
    FillStepCount(s, o, b, stream, lo, hi);
    if b - 1 > 0 {
      assert s'[b - 2].isMatched;
    }
    if t < 0 {
      forall i | b - 1 <= i < b - 1 + FreshCount(s', o, b - 1) && i < |s'|
        ensures Drawn(s'[i], stream, lo, hi)
      {
        if i == b - 1 {
          assert lo <= d < hi && s'[i] == NewRune(stream(d));
        }
      }
    }
  }

  /** Filling a flagged row makes one more draw. */
  lemma FillStepCount(s: seq<Rune>, o: seq<Rune>, b: int, stream: nat -> nat, lo: nat, hi: nat)
    requires FillStep(s, o, b, stream, lo, hi) && b > 0 && s[b - 1].isMatched
    ensures DrawsDone(o, b - 1) == DrawsDone(o, b) + 1
  {
    assert b <= FillDraws(o);
  }

  /** Once every row is done the column is filled, its fresh rows drawn, and all of its draws made. */
  lemma FillStepDone(s: seq<Rune>, o: seq<Rune>, stream: nat -> nat, lo: nat, hi: nat)
    requires FillStep(s, o, 0, stream, lo, hi)
    ensures ColumnFilled(o, s) && FreshDrawn(o, s, stream, lo, hi)
    ensures DrawsDone(o, 0) == FillDraws(o)
  {
    ProgressDone(s, o);
    assert s[..0] == [];
  }
}
