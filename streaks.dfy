/** The clue report of getCarClues: the clue positions 1..26 (A..Z) whose
    bit is still unset, written as runs of consecutive letters, where the
    alphabet is circular (A follows Z).  ClueRuns gives the runs,
    ClueList the text; ClueRunsAreMaximal proves that the runs are exactly
    the maximal circular runs of unset positions, in the order the report
    uses. */
module Streaks {
  import opened GoStrings
  import opened ScanCodes

  /** Clue p (1 = A .. 26 = Z) has not been scanned. */
  predicate Unset(row: seq<bool>, p: int)
    requires IsRow(row) && 1 <= p <= ClueNum
  {
    !row[ClueOffset + p]
  }

  predicate AllUnset(row: seq<bool>)
    requires IsRow(row)
  {
    forall p :: 1 <= p <= ClueNum ==> Unset(row, p)
  }

  /** A run of clue positions from start to end; start > end means the run
      goes through Z and on at A. */
  datatype Streak = Streak(start: int, end: int)

  predicate Covers(st: Streak, p: int)
  {
    if st.start <= st.end then st.start <= p <= st.end
    else st.start <= p || p <= st.end
  }

  /** The position before p and the one after p, on the circle A..Z. */
  function Before(p: int): int
  {
    if p == 1 then ClueNum else p - 1
  }

  function After(p: int): int
  {
    if p == ClueNum then 1 else p + 1
  }

  predicate ValidStreaks(runs: seq<Streak>)
  {
    forall k :: 0 <= k < |runs| ==> 1 <= runs[k].start <= ClueNum && 1 <= runs[k].end <= ClueNum
  }

  /** The abstract description: the runs cover exactly the unset positions,
      no position twice, and each run is maximal on the circle (its
      neighbours are set), except the run of the whole alphabet. */
  ghost predicate MaximalCircularRuns(row: seq<bool>, runs: seq<Streak>)
    requires IsRow(row)
  {
    ValidStreaks(runs)
    && (forall k, p :: 0 <= k < |runs| && 1 <= p <= ClueNum && Covers(runs[k], p) ==> Unset(row, p))
    && (forall p :: 1 <= p <= ClueNum && Unset(row, p) ==> exists k :: 0 <= k < |runs| && Covers(runs[k], p))
    && (forall k1, k2, p :: 0 <= k1 < k2 < |runs| && 1 <= p <= ClueNum && Covers(runs[k1], p) ==> !Covers(runs[k2], p))
    && (forall k :: 0 <= k < |runs| && runs[k] != Streak(1, ClueNum) ==>
          !Unset(row, Before(runs[k].start)) && !Unset(row, After(runs[k].end)))
  }

  /** The report's order: a run through Z and A, if there is one, comes
      first; the others do not wrap and follow in ascending order. */
  ghost predicate ReportOrder(row: seq<bool>, runs: seq<Streak>)
    requires IsRow(row)
  {
    (forall k :: 1 <= k < |runs| ==> runs[k].start <= runs[k].end)
    && (forall k1, k2 :: 0 <= k1 < k2 < |runs| && runs[k1].start <= runs[k1].end ==> runs[k1].end < runs[k2].start)
    && ((|runs| > 0 && runs[0].start > runs[0].end) <==>
          (Unset(row, ClueNum) && Unset(row, 1) && !AllUnset(row)))
  }

  /** The start of the run of unset positions that ends at j, not going
      below lo. */
  function RunFrom(row: seq<bool>, lo: int, j: int): (s: int)
    requires IsRow(row) && 1 <= lo <= j <= ClueNum && Unset(row, j)
    ensures lo <= s <= j && (s == lo || !Unset(row, s - 1))
    ensures forall p :: s <= p <= j ==> Unset(row, p)
    decreases j - lo
  {
    if j > lo && Unset(row, j - 1) then RunFrom(row, lo, j - 1) else j
  }

  /** The end of the run of unset positions that starts at i, not going
      above hi. */
  function RunTo(row: seq<bool>, i: int, hi: int): (e: int)
    requires IsRow(row) && 1 <= i <= hi <= ClueNum && Unset(row, i)
    ensures i <= e <= hi && (e == hi || !Unset(row, e + 1))
    ensures forall p :: i <= p <= e ==> Unset(row, p)
    decreases hi - i
  {
    if i < hi && Unset(row, i + 1) then RunTo(row, i + 1, hi) else i
  }

  /** The maximal runs of unset positions inside lo..hi, in ascending
      order. */
  function LinearRuns(row: seq<bool>, lo: int, hi: int): seq<Streak>
    requires IsRow(row) && 1 <= lo && hi <= ClueNum && lo <= hi + 1
    decreases hi - lo + 1
  {
    if hi < lo then []
    else if !Unset(row, hi) then LinearRuns(row, lo, hi - 1)
    else
      var s := RunFrom(row, lo, hi);
      LinearRuns(row, lo, s - 1) + [Streak(s, hi)]
  }

  /** LinearRuns one position further up.  A set position adds no run. */
  lemma SetStep(row: seq<bool>, lo: int, i: int)
    requires IsRow(row) && 1 <= lo <= i <= ClueNum && !Unset(row, i)
    ensures LinearRuns(row, lo, i) == LinearRuns(row, lo, i - 1)
  {
  }

  /** An unset position after a set one (or at lo) starts a new run. */
  lemma StartStep(row: seq<bool>, lo: int, i: int)
    requires IsRow(row) && 1 <= lo <= i <= ClueNum && Unset(row, i)
    requires i == lo || !Unset(row, i - 1)
    ensures LinearRuns(row, lo, i) == LinearRuns(row, lo, i - 1) + [Streak(i, i)]
  {
  }

  /** An unset position after an unset one extends the last run. */
  lemma ExtendStep(row: seq<bool>, lo: int, i: int, r: seq<Streak>, st: Streak)
    requires IsRow(row) && 1 <= lo < i <= ClueNum && Unset(row, i) && Unset(row, i - 1)
    requires LinearRuns(row, lo, i - 1) == r + [st]
    ensures LinearRuns(row, lo, i) == r + [st.(end := i)]
  {
    var s := RunFrom(row, lo, i - 1);
    assert RunFrom(row, lo, i) == s;
    var r0 := LinearRuns(row, lo, s - 1);
    assert r0 + [Streak(s, i - 1)] == r + [st];
    assert st == (r + [st])[|r|] == Streak(s, i - 1);
    assert r == (r + [st])[..|r|] == r0;
  }

  /** The runs getCarClues reports: when Z and A are both unset, the run
      through them first (the whole alphabet if nothing is set), then the
      runs strictly between its ends; otherwise the runs of A..Z. */
  function ClueRuns(row: seq<bool>): seq<Streak>
    requires IsRow(row)
  {
    if Unset(row, ClueNum) && Unset(row, 1) then
      var s := RunFrom(row, 1, ClueNum);
      if s == 1 then [Streak(1, ClueNum)]
      else
        var e := RunTo(row, 1, ClueNum);
        [Streak(s, e)] + LinearRuns(row, e + 1, s - 1)
    else LinearRuns(row, 1, ClueNum)
  }

  /** ClueRuns when Z and A are both unset: the whole alphabet, or the run
      through Z and A followed by the runs between its ends. */
  lemma ClueRunsRollover(row: seq<bool>)
    requires IsRow(row) && Unset(row, ClueNum) && Unset(row, 1)
    ensures RunFrom(row, 1, ClueNum) == 1 ==> ClueRuns(row) == [Streak(1, ClueNum)]
    ensures RunFrom(row, 1, ClueNum) != 1 ==>
      ClueRuns(row) == [Streak(RunFrom(row, 1, ClueNum), RunTo(row, 1, ClueNum))]
        + LinearRuns(row, RunTo(row, 1, ClueNum) + 1, RunFrom(row, 1, ClueNum) - 1)
  {
  }

  /** ClueRuns otherwise: the runs of A..Z. */
  lemma ClueRunsPlain(row: seq<bool>)
    requires IsRow(row) && !(Unset(row, ClueNum) && Unset(row, 1))
    ensures ClueRuns(row) == LinearRuns(row, 1, ClueNum)
  {
  }

  /** st is a maximal run of unset positions inside lo..hi: the positions
      next to it are set unless they lie outside lo..hi. */
  ghost predicate RunInside(row: seq<bool>, lo: int, hi: int, st: Streak)
    requires IsRow(row) && 1 <= lo && hi <= ClueNum
  {
    lo <= st.start <= st.end <= hi
    && (forall p :: st.start <= p <= st.end ==> Unset(row, p))
    && (st.start == lo || !Unset(row, st.start - 1))
    && (st.end == hi || !Unset(row, st.end + 1))
  }

  /** The properties of the runs inside lo..hi: each is maximal, they come
      in ascending order with a gap between neighbours, and every unset
      position of lo..hi is in one of them. */
  ghost predicate LinearRunsOf(row: seq<bool>, lo: int, hi: int, r: seq<Streak>)
    requires IsRow(row) && 1 <= lo && hi <= ClueNum
  {
    (forall k :: 0 <= k < |r| ==> RunInside(row, lo, hi, r[k]))
    && (forall k1, k2 :: 0 <= k1 < k2 < |r| ==> r[k1].end + 1 < r[k2].start)
    && (forall p :: lo <= p <= hi && Unset(row, p) ==> exists k :: 0 <= k < |r| && r[k].start <= p <= r[k].end)
  }

  lemma {:induction false} LinearRunsAreMaximal(row: seq<bool>, lo: int, hi: int)
    requires IsRow(row) && 1 <= lo && hi <= ClueNum && lo <= hi + 1
    ensures LinearRunsOf(row, lo, hi, LinearRuns(row, lo, hi))
    decreases hi - lo + 1, 1
  {
    if hi < lo {
    } else if !Unset(row, hi) {
      SetTopKeepsRuns(row, lo, hi);
    } else {
      UnsetTopEndsRun(row, lo, hi);
    }
  }

  /** A set position at the top adds no run. */
  lemma {:induction false} SetTopKeepsRuns(row: seq<bool>, lo: int, hi: int)
    requires IsRow(row) && 1 <= lo <= hi <= ClueNum && !Unset(row, hi)
    ensures LinearRunsOf(row, lo, hi, LinearRuns(row, lo, hi))
    decreases hi - lo + 1, 0
  {
    var r := LinearRuns(row, lo, hi - 1);
    LinearRunsAreMaximal(row, lo, hi - 1);
    forall k | 0 <= k < |r|
      ensures RunInside(row, lo, hi, r[k])
    {
      assert RunInside(row, lo, hi - 1, r[k]);
    }
    assert LinearRuns(row, lo, hi) == r;
  }

  /** An unset position at the top ends the last run. */
  lemma {:induction false} UnsetTopEndsRun(row: seq<bool>, lo: int, hi: int)
    requires IsRow(row) && 1 <= lo <= hi <= ClueNum && Unset(row, hi)
    ensures LinearRunsOf(row, lo, hi, LinearRuns(row, lo, hi))
    decreases hi - lo + 1, 0
  {
    var s := RunFrom(row, lo, hi);
    var r0 := LinearRuns(row, lo, s - 1);
    LinearRunsAreMaximal(row, lo, s - 1);
    AppendRun(row, lo, hi, r0, s);
    assert LinearRuns(row, lo, hi) == r0 + [Streak(s, hi)];
  }

  /** The runs below a maximal run s..hi, followed by that run, are the
      runs inside lo..hi. */
  lemma AppendRun(row: seq<bool>, lo: int, hi: int, r0: seq<Streak>, s: int)
    requires IsRow(row) && 1 <= lo <= s <= hi <= ClueNum
    requires s == lo || !Unset(row, s - 1)
    requires forall p :: s <= p <= hi ==> Unset(row, p)
    requires LinearRunsOf(row, lo, s - 1, r0)
    ensures LinearRunsOf(row, lo, hi, r0 + [Streak(s, hi)])
  {
    AppendRunInside(row, lo, hi, r0, s);
    AppendRunOrdered(row, lo, hi, r0, s);
    AppendRunCovers(row, lo, hi, r0, s);
  }

  /** The runs below a maximal run s..hi end before s - 1. */
  lemma RunsBelowEnd(row: seq<bool>, lo: int, hi: int, r0: seq<Streak>, s: int)
    requires IsRow(row) && 1 <= lo <= s <= hi <= ClueNum
    requires s == lo || !Unset(row, s - 1)
    requires LinearRunsOf(row, lo, s - 1, r0)
    ensures forall k :: 0 <= k < |r0| ==> r0[k].end + 1 < s && RunInside(row, lo, hi, r0[k])
  {
    forall k | 0 <= k < |r0|
      ensures r0[k].end + 1 < s && RunInside(row, lo, hi, r0[k])
    {
      assert RunInside(row, lo, s - 1, r0[k]);
      assert Unset(row, r0[k].end);
    }
  }

  lemma AppendRunInside(row: seq<bool>, lo: int, hi: int, r0: seq<Streak>, s: int)
    requires IsRow(row) && 1 <= lo <= s <= hi <= ClueNum
    requires s == lo || !Unset(row, s - 1)
    requires forall p :: s <= p <= hi ==> Unset(row, p)
    requires LinearRunsOf(row, lo, s - 1, r0)
    ensures forall k :: 0 <= k < |r0| + 1 ==> RunInside(row, lo, hi, (r0 + [Streak(s, hi)])[k])
  {
    RunsBelowEnd(row, lo, hi, r0, s);
    var r := r0 + [Streak(s, hi)];
    assert RunInside(row, lo, hi, r[|r0|]);
    forall k | 0 <= k < |r0|
      ensures RunInside(row, lo, hi, r[k])
    {
      assert r[k] == r0[k];
    }
  }

  lemma AppendRunOrdered(row: seq<bool>, lo: int, hi: int, r0: seq<Streak>, s: int)
    requires IsRow(row) && 1 <= lo <= s <= hi <= ClueNum
    requires s == lo || !Unset(row, s - 1)
    requires LinearRunsOf(row, lo, s - 1, r0)
    ensures var r := r0 + [Streak(s, hi)];
      forall k1, k2 :: 0 <= k1 < k2 < |r| ==> r[k1].end + 1 < r[k2].start
  {
    RunsBelowEnd(row, lo, hi, r0, s);
    var r := r0 + [Streak(s, hi)];
    forall k1, k2 | 0 <= k1 < k2 < |r|
      ensures r[k1].end + 1 < r[k2].start
    {
      assert r[k1] == r0[k1];
      if k2 < |r0| {
        assert r[k2] == r0[k2];
      }
    }
  }

  lemma AppendRunCovers(row: seq<bool>, lo: int, hi: int, r0: seq<Streak>, s: int)
    requires IsRow(row) && 1 <= lo <= s <= hi <= ClueNum
    requires LinearRunsOf(row, lo, s - 1, r0)
    ensures var r := r0 + [Streak(s, hi)];
      forall p :: lo <= p <= hi && Unset(row, p) ==> exists k :: 0 <= k < |r| && r[k].start <= p <= r[k].end
  {
    var r := r0 + [Streak(s, hi)];
    forall p | lo <= p <= hi && Unset(row, p)
      ensures exists k :: 0 <= k < |r| && r[k].start <= p <= r[k].end
    {
      if p >= s {
        assert r[|r0|] == Streak(s, hi);
      } else {
        var k :| 0 <= k < |r0| && r0[k].start <= p <= r0[k].end;
        assert r[k] == r0[k];
      }
    }
  }

  lemma ClueRunsAreMaximal(row: seq<bool>)
    requires IsRow(row)
    ensures MaximalCircularRuns(row, ClueRuns(row))
    ensures ReportOrder(row, ClueRuns(row))
  {
    if Unset(row, ClueNum) && Unset(row, 1) {
      var s := RunFrom(row, 1, ClueNum);
      if s == 1 {
        assert AllUnset(row);
        assert ClueRuns(row) == [Streak(1, ClueNum)];
        WholeAlphabetRun(row);
      } else {
        WrapRuns(row);
      }
    } else {
      var runs := LinearRuns(row, 1, ClueNum);
      assert LinearRunsOf(row, 1, ClueNum, runs) by {
        LinearRunsAreMaximal(row, 1, ClueNum);
      }
      PlainRunsMaximal(row, runs);
      PlainRunsOrdered(row, runs);
    }
  }

  /** A row with no clue scanned: one run, A..Z. */
  lemma WholeAlphabetRun(row: seq<bool>)
    requires IsRow(row) && AllUnset(row)
    ensures MaximalCircularRuns(row, [Streak(1, ClueNum)]) && ReportOrder(row, [Streak(1, ClueNum)])
  {
    var runs := [Streak(1, ClueNum)];
    forall p | 1 <= p <= ClueNum && Unset(row, p)
      ensures exists k :: 0 <= k < |runs| && Covers(runs[k], p)
    {
      assert Covers(runs[0], p);
    }
  }

  /** The case of a run through Z and A that is not the whole alphabet. */
  lemma WrapRuns(row: seq<bool>)
    requires IsRow(row) && Unset(row, ClueNum) && Unset(row, 1) && RunFrom(row, 1, ClueNum) != 1
    ensures MaximalCircularRuns(row, ClueRuns(row)) && ReportOrder(row, ClueRuns(row))
  {
    var s := RunFrom(row, 1, ClueNum);
    var e := RunTo(row, 1, ClueNum);
    assert e < s - 1 by {
      assert !Unset(row, s - 1);
    }
    var lin := LinearRuns(row, e + 1, s - 1);
    assert WrapSetting(row, s, e, lin) by {
      LinearRunsAreMaximal(row, e + 1, s - 1);
    }
    WrapRunsMaximal(row, s, e, lin);
    WrapRunsOrdered(row, s, e, lin);
    assert ClueRuns(row) == [Streak(s, e)] + lin;
  }

  /** When Z and A are not both unset, the runs of A..Z are already
      maximal on the circle. */
  lemma PlainRunsMaximal(row: seq<bool>, runs: seq<Streak>)
    requires IsRow(row) && !(Unset(row, ClueNum) && Unset(row, 1))
    requires LinearRunsOf(row, 1, ClueNum, runs)
    ensures MaximalCircularRuns(row, runs)
  {
    forall k | 0 <= k < |runs|
      ensures runs[k].start == 1 ==> !Unset(row, ClueNum)
      ensures runs[k].end == ClueNum ==> !Unset(row, 1)
    {
      assert RunInside(row, 1, ClueNum, runs[k]);
      assert Unset(row, runs[k].start) && Unset(row, runs[k].end);
    }
    forall p | 1 <= p <= ClueNum && Unset(row, p)
      ensures exists k :: 0 <= k < |runs| && Covers(runs[k], p)
    {
      var k :| 0 <= k < |runs| && runs[k].start <= p <= runs[k].end;
      assert RunInside(row, 1, ClueNum, runs[k]);
      assert Covers(runs[k], p);
    }
    forall k1, k2, p | 0 <= k1 < k2 < |runs| && 1 <= p <= ClueNum && Covers(runs[k1], p)
      ensures !Covers(runs[k2], p)
    {
      assert RunInside(row, 1, ClueNum, runs[k1]);
      assert RunInside(row, 1, ClueNum, runs[k2]);
    }
  }

  lemma PlainRunsOrdered(row: seq<bool>, runs: seq<Streak>)
    requires IsRow(row) && !(Unset(row, ClueNum) && Unset(row, 1))
    requires LinearRunsOf(row, 1, ClueNum, runs)
    ensures ReportOrder(row, runs)
  {
    if |runs| > 0 {
      assert RunInside(row, 1, ClueNum, runs[0]);
    }
  }

  /** The facts about the run through Z and A, from s up to Z and on from A
      to e, and the runs strictly between e and s. */
  ghost predicate WrapSetting(row: seq<bool>, s: int, e: int, lin: seq<Streak>)
    requires IsRow(row)
  {
    1 <= e && e + 1 < s <= ClueNum
    && (forall p :: s <= p <= ClueNum ==> Unset(row, p))
    && (forall p :: 1 <= p <= e ==> Unset(row, p))
    && !Unset(row, s - 1) && !Unset(row, e + 1)
    && LinearRunsOf(row, e + 1, s - 1, lin)
  }

  lemma WrapInnerRuns(row: seq<bool>, s: int, e: int, lin: seq<Streak>)
    requires IsRow(row) && WrapSetting(row, s, e, lin)
    ensures forall k :: 0 <= k < |lin| ==> e + 1 < lin[k].start <= lin[k].end < s - 1
    ensures forall k :: 0 <= k < |lin| ==> !Unset(row, lin[k].start - 1) && !Unset(row, lin[k].end + 1)
  {
    forall k | 0 <= k < |lin|
      ensures e + 1 < lin[k].start <= lin[k].end < s - 1
      ensures !Unset(row, lin[k].start - 1) && !Unset(row, lin[k].end + 1)
    {
      assert RunInside(row, e + 1, s - 1, lin[k]);
      assert Unset(row, lin[k].start) && Unset(row, lin[k].end);
    }
  }

  lemma WrapRunsMaximal(row: seq<bool>, s: int, e: int, lin: seq<Streak>)
    requires IsRow(row) && WrapSetting(row, s, e, lin)
    ensures MaximalCircularRuns(row, [Streak(s, e)] + lin)
  {
    WrapRunsUnset(row, s, e, lin);
    WrapRunsCover(row, s, e, lin);
    WrapRunsDisjoint(row, s, e, lin);
    WrapRunsNeighbours(row, s, e, lin);
  }

  lemma WrapRunsNeighbours(row: seq<bool>, s: int, e: int, lin: seq<Streak>)
    requires IsRow(row) && WrapSetting(row, s, e, lin)
    ensures var runs := [Streak(s, e)] + lin;
      ValidStreaks(runs)
      && forall k :: 0 <= k < |runs| && runs[k] != Streak(1, ClueNum) ==>
           !Unset(row, Before(runs[k].start)) && !Unset(row, After(runs[k].end))
  {
    WrapInnerRuns(row, s, e, lin);
    var runs := [Streak(s, e)] + lin;
    assert forall k :: 1 <= k < |runs| ==> runs[k] == lin[k - 1];
  }

  lemma WrapRunsUnset(row: seq<bool>, s: int, e: int, lin: seq<Streak>)
    requires IsRow(row) && WrapSetting(row, s, e, lin)
    ensures var runs := [Streak(s, e)] + lin;
      forall k, p :: 0 <= k < |runs| && 1 <= p <= ClueNum && Covers(runs[k], p) ==> Unset(row, p)
  {
    WrapInnerRuns(row, s, e, lin);
    var runs := [Streak(s, e)] + lin;
    forall k, p | 0 <= k < |runs| && 1 <= p <= ClueNum && Covers(runs[k], p)
      ensures Unset(row, p)
    {
      if k > 0 {
        assert runs[k] == lin[k - 1];
        assert RunInside(row, e + 1, s - 1, lin[k - 1]);
      }
    }
  }

  lemma WrapRunsCover(row: seq<bool>, s: int, e: int, lin: seq<Streak>)
    requires IsRow(row) && WrapSetting(row, s, e, lin)
    ensures var runs := [Streak(s, e)] + lin;
      forall p :: 1 <= p <= ClueNum && Unset(row, p) ==> exists k :: 0 <= k < |runs| && Covers(runs[k], p)
  {
    WrapInnerRuns(row, s, e, lin);
    var runs := [Streak(s, e)] + lin;
    forall p | 1 <= p <= ClueNum && Unset(row, p)
      ensures exists k :: 0 <= k < |runs| && Covers(runs[k], p)
    {
      if p >= s || p <= e {
        assert Covers(runs[0], p);
      } else {
        var k :| 0 <= k < |lin| && lin[k].start <= p <= lin[k].end;
        assert runs[k + 1] == lin[k];
        assert Covers(runs[k + 1], p);
      }
    }
  }

  lemma WrapRunsDisjoint(row: seq<bool>, s: int, e: int, lin: seq<Streak>)
    requires IsRow(row) && WrapSetting(row, s, e, lin)
    ensures var runs := [Streak(s, e)] + lin;
      forall k1, k2, p :: 0 <= k1 < k2 < |runs| && 1 <= p <= ClueNum && Covers(runs[k1], p) ==> !Covers(runs[k2], p)
  {
    WrapInnerRuns(row, s, e, lin);
    var runs := [Streak(s, e)] + lin;
    forall k1, k2, p | 0 <= k1 < k2 < |runs| && 1 <= p <= ClueNum && Covers(runs[k1], p)
      ensures !Covers(runs[k2], p)
    {
      assert runs[k2] == lin[k2 - 1];
      if k1 > 0 {
        assert runs[k1] == lin[k1 - 1];
      }
    }
  }

  lemma WrapRunsOrdered(row: seq<bool>, s: int, e: int, lin: seq<Streak>)
    requires IsRow(row) && WrapSetting(row, s, e, lin)
    ensures ReportOrder(row, [Streak(s, e)] + lin)
  {
    WrapInnerRuns(row, s, e, lin);
    var runs := [Streak(s, e)] + lin;
    assert forall k :: 1 <= k < |runs| ==> runs[k] == lin[k - 1];
    assert !AllUnset(row) by {
      assert !Unset(row, s - 1);
    }
    forall k1, k2 | 0 <= k1 < k2 < |runs| && runs[k1].start <= runs[k1].end
      ensures runs[k1].end < runs[k2].start
    {
      assert k1 > 0;
      assert runs[k1] == lin[k1 - 1] && runs[k2] == lin[k2 - 1];
    }
  }

  /** string(rune(64 + p)): the capital letter of clue p. */
  function Letter(p: int): char
    requires 1 <= p <= ClueNum
  {
    (64 + p) as char
  }

  /** One run as getCarClues writes it before lower-casing: its first
      letter, and "-" and its last letter when these differ. */
  function RenderStreak(st: Streak): string
    requires 1 <= st.start <= ClueNum && 1 <= st.end <= ClueNum
  {
    [Letter(st.start)] + (if st.start != st.end then "-" + [Letter(st.end)] else "")
  }

  function Rendered(runs: seq<Streak>): (r: seq<string>)
    requires ValidStreaks(runs)
    ensures |r| == |runs|
    decreases |runs|
  {
    if |runs| == 0 then []
    else Rendered(runs[..|runs| - 1]) + [RenderStreak(runs[|runs| - 1])]
  }

  /** The text getCarClues returns for a row. */
  function ClueList(row: seq<bool>): string
    requires IsRow(row)
  {
    ClueRunsValid(row);
    ToLower(Join(Rendered(ClueRuns(row)), ", "))
  }

  lemma ClueRunsValid(row: seq<bool>)
    requires IsRow(row)
    ensures ValidStreaks(ClueRuns(row))
  {
    ClueRunsAreMaximal(row);
  }

  /** LinearRuns finds no run where every position is set. */
  lemma {:induction false} NoRunsWhenSet(row: seq<bool>, lo: int, hi: int)
    requires IsRow(row) && 1 <= lo && hi <= ClueNum && lo <= hi + 1
    requires forall p :: lo <= p <= hi ==> !Unset(row, p)
    ensures LinearRuns(row, lo, hi) == []
    decreases hi - lo + 1
  {
    if lo <= hi {
      NoRunsWhenSet(row, lo, hi - 1);
    }
  }

  /** Every clue scanned: the clue report is empty. */
  lemma ClueListAllSet(row: seq<bool>)
    requires IsRow(row) && forall p :: 1 <= p <= ClueNum ==> !Unset(row, p)
    ensures ClueList(row) == ""
  {
    NoRunsWhenSet(row, 1, ClueNum);
    ClueRunsPlain(row);
  }

  /** With nothing set, the run of every position reaches down to lo. */
  lemma {:induction false} RunFromAllUnset(row: seq<bool>, lo: int, j: int)
    requires IsRow(row) && 1 <= lo <= j <= ClueNum && AllUnset(row)
    ensures RunFrom(row, lo, j) == lo
    decreases j - lo
  {
    if j > lo {
      RunFromAllUnset(row, lo, j - 1);
    }
  }

  /** No clue scanned: the clue report is the whole alphabet, "a-z". */
  lemma ClueListAllUnset(row: seq<bool>)
    requires IsRow(row) && AllUnset(row)
    ensures ClueList(row) == "a-z"
  {
    RunFromAllUnset(row, 1, ClueNum);
    assert ClueRuns(row) == [Streak(1, ClueNum)];
    assert Rendered([Streak(1, ClueNum)]) == [RenderStreak(Streak(1, ClueNum))];
    assert RenderStreak(Streak(1, ClueNum)) == "A-Z";
    assert ToLower("A-Z") == "a-z";
  }

  /** Only Y, Z and A unset: one run through the end of the alphabet,
      reported as "y-a". */
  lemma ClueListWrapExample(row: seq<bool>)
    requires IsRow(row)
    requires forall p :: 1 <= p <= ClueNum ==> (Unset(row, p) <==> p == 1 || p == 25 || p == ClueNum)
    ensures ClueList(row) == "y-a"
  {
    assert RunFrom(row, 1, 25) == 25;
    assert RunFrom(row, 1, ClueNum) == 25;
    assert RunTo(row, 1, ClueNum) == 1;
    NoRunsWhenSet(row, 2, 24);
    assert ClueRuns(row) == [Streak(25, 1)];
    assert Rendered([Streak(25, 1)]) == [RenderStreak(Streak(25, 1))];
    assert RenderStreak(Streak(25, 1)) == "Y-A";
    assert ToLower("Y-A") == "y-a";
  }

  /** Set positions above m add no run. */
  lemma {:induction false} SetAboveKeepsRuns(row: seq<bool>, lo: int, m: int, hi: int)
    requires IsRow(row) && 1 <= lo <= m + 1 && m <= hi <= ClueNum
    requires forall p :: m < p <= hi ==> !Unset(row, p)
    ensures LinearRuns(row, lo, hi) == LinearRuns(row, lo, m)
    decreases hi - m
  {
    if hi > m {
      SetAboveKeepsRuns(row, lo, m, hi - 1);
    }
  }

  /** Only M unset: a run of one letter, reported as "m". */
  lemma ClueListOnlyM(row: seq<bool>)
    requires IsRow(row)
    requires forall p :: 1 <= p <= ClueNum ==> (Unset(row, p) <==> p == 13)
    ensures ClueList(row) == "m"
  {
    ClueRunsPlain(row);
    SetAboveKeepsRuns(row, 1, 13, ClueNum);
    assert RunFrom(row, 1, 13) == 13;
    NoRunsWhenSet(row, 1, 12);
    assert ClueRuns(row) == [Streak(13, 13)];
    assert Rendered([Streak(13, 13)]) == [RenderStreak(Streak(13, 13))];
    assert RenderStreak(Streak(13, 13)) == "M";
    assert ToLower("M") == "m";
  }

  /** A rendered run is letters and '-', so it holds no tab. */
  lemma {:induction false} RenderedNoTab(runs: seq<Streak>)
    requires ValidStreaks(runs)
    ensures forall k :: 0 <= k < |runs| ==> '\t' !in Rendered(runs)[k]
    decreases |runs|
  {
    if |runs| > 0 {
      var init, last := runs[..|runs| - 1], runs[|runs| - 1];
      RenderedNoTab(init);
      assert Rendered(runs) == Rendered(init) + [RenderStreak(last)];
      assert '\t' !in RenderStreak(last);
    }
  }

  /** The clue report holds no tab, so it stays one field of a text line. */
  lemma ClueListNoTab(row: seq<bool>)
    requires IsRow(row)
    ensures '\t' !in ClueList(row)
  {
    ClueRunsValid(row);
    var parts := Rendered(ClueRuns(row));
    RenderedNoTab(ClueRuns(row));
    JoinAvoids(parts, ", ", '\t');
    ToLowerAvoids(Join(parts, ", "), '\t');
  }
}
