/** The read-only reports built from the count table: the emergency list of
    getCarEmergencies, the counts of getSolveCount, the per-car summary of
    buildCarData, the tally of getTally, the scanned-car count of
    hasCars/status and the text line writeTextStream writes per car. */
module Reports {
  import opened GoStrings
  import opened ScanCodes
  import opened Streaks

  /** The indices lo <= i < hi whose bit is unset, from the lowest up. */
  function UnsetIndices(row: seq<bool>, lo: nat, hi: nat): (r: seq<nat>)
    requires lo <= hi <= |row|
    decreases hi - lo
  {
    if hi == lo then []
    else UnsetIndices(row, lo, hi - 1) + (if !row[hi - 1] then [hi - 1] else [])
  }

  /** UnsetIndices lists only unset indices of lo..hi-1. */
  lemma {:induction false} UnsetIndicesWithin(row: seq<bool>, lo: nat, hi: nat)
    requires lo <= hi <= |row|
    ensures forall k :: 0 <= k < |UnsetIndices(row, lo, hi)| ==>
      lo <= UnsetIndices(row, lo, hi)[k] < hi && !row[UnsetIndices(row, lo, hi)[k]]
    decreases hi - lo
  {
    if hi > lo {
      UnsetIndicesWithin(row, lo, hi - 1);
      var r0, r := UnsetIndices(row, lo, hi - 1), UnsetIndices(row, lo, hi);
      assert r == r0 + (if !row[hi - 1] then [hi - 1] else []);
      assert forall k :: 0 <= k < |r0| ==> r[k] == r0[k];
    }
  }

  /** UnsetIndices lists them from the lowest up, each once. */
  lemma {:induction false} UnsetIndicesAscending(row: seq<bool>, lo: nat, hi: nat)
    requires lo <= hi <= |row|
    ensures forall k1, k2 :: 0 <= k1 < k2 < |UnsetIndices(row, lo, hi)| ==>
      UnsetIndices(row, lo, hi)[k1] < UnsetIndices(row, lo, hi)[k2]
    decreases hi - lo
  {
    if hi > lo {
      UnsetIndicesAscending(row, lo, hi - 1);
      UnsetIndicesWithin(row, lo, hi - 1);
      var r0, r := UnsetIndices(row, lo, hi - 1), UnsetIndices(row, lo, hi);
      assert r == r0 + (if !row[hi - 1] then [hi - 1] else []);
      assert forall k :: 0 <= k < |r0| ==> r[k] == r0[k] && r[k] < hi - 1;
    }
  }

  /** UnsetIndices misses no unset index of lo..hi-1. */
  lemma {:induction false} UnsetIndicesComplete(row: seq<bool>, lo: nat, hi: nat)
    requires lo <= hi <= |row|
    ensures forall i :: lo <= i < hi && !row[i] ==> i in UnsetIndices(row, lo, hi)
    decreases hi - lo
  {
    if hi > lo {
      UnsetIndicesComplete(row, lo, hi - 1);
      var r0 := UnsetIndices(row, lo, hi - 1);
      assert UnsetIndices(row, lo, hi) == r0 + (if !row[hi - 1] then [hi - 1] else []);
    }
  }

  /** strconv.Itoa of each index. */
  function Decimals(ns: seq<nat>): (r: seq<string>)
    ensures |r| == |ns|
    decreases |ns|
  {
    if |ns| == 0 then [] else Decimals(ns[..|ns| - 1]) + [Itoa(ns[|ns| - 1])]
  }

  /** One more index for the joined list of unset indices. */
  lemma UnsetListStep(row: seq<bool>, lo: nat, i: nat)
    requires lo <= i < |row|
    ensures var before, after := UnsetIndices(row, lo, i), UnsetIndices(row, lo, i + 1);
      Join(Decimals(after), ", ") ==
        if row[i] then Join(Decimals(before), ", ")
        else if |before| == 0 then Itoa(i)
        else Join(Decimals(before), ", ") + ", " + Itoa(i)
    ensures (|UnsetIndices(row, lo, i + 1)| == 0) == (row[i] && |UnsetIndices(row, lo, i)| == 0)
  {
    var xs := UnsetIndices(row, lo, i);
    if row[i] {
      assert UnsetIndices(row, lo, i + 1) == xs;
    } else {
      assert UnsetIndices(row, lo, i + 1) == xs + [i];
      assert (xs + [i])[..|xs|] == xs;
      assert Decimals(xs + [i]) == Decimals(xs) + [Itoa(i)];
      JoinSnoc(Decimals(xs), Itoa(i), ", ");
    }
  }

  /** Each decimal is a string of digits. */
  lemma {:induction false} DecimalsAreDigits(ns: seq<nat>)
    ensures forall k :: 0 <= k < |ns| ==> AllDigits(Decimals(ns)[k])
    decreases |ns|
  {
    if |ns| > 0 {
      DecimalsAreDigits(ns[..|ns| - 1]);
      assert Decimals(ns) == Decimals(ns[..|ns| - 1]) + [Itoa(ns[|ns| - 1])];
    }
  }

  /** The emergencies 1..26 not yet scanned, as getCarEmergencies writes
      them: decimal numbers in ascending order separated by ", ". */
  function EmergencyList(row: seq<bool>): string
    requires IsRow(row)
  {
    Join(Decimals(UnsetIndices(row, 1 + EmergencyOffset, ClueNum + 1)), ", ")
  }

  /** The numbers 1..n, from the lowest up. */
  function OneTo(n: nat): (r: seq<nat>)
    ensures |r| == n && forall k :: 0 <= k < n ==> r[k] == k + 1
  {
    seq(n, k requires 0 <= k < n => k + 1)
  }

  /** Nothing set below hi: every index from 1 up is listed. */
  lemma {:induction false} UnsetIndicesAll(row: seq<bool>, hi: nat)
    requires 1 <= hi <= |row|
    requires forall i :: 1 <= i < hi ==> !row[i]
    ensures UnsetIndices(row, 1, hi) == OneTo(hi - 1)
    decreases hi
  {
    if hi > 1 {
      UnsetIndicesAll(row, hi - 1);
      assert OneTo(hi - 1) == OneTo(hi - 2) + [hi - 1];
    }
  }

  /** The decimals of 1..n are strconv.Itoa of each number in turn. */
  lemma {:induction false} DecimalsOneTo(n: nat)
    ensures Decimals(OneTo(n)) == seq(n, k requires 0 <= k < n => Itoa(k + 1))
    decreases n
  {
    if n > 0 {
      DecimalsOneTo(n - 1);
      assert OneTo(n)[..n - 1] == OneTo(n - 1);
    }
  }

  /** No emergency scanned: the report lists all 26, "1, 2, ..., 26"
      (emergency i is bit EmergencyOffset + i, and EmergencyOffset is 0). */
  lemma EmergencyListAllUnset(row: seq<bool>)
    requires IsRow(row)
    requires forall i :: 1 <= i <= ClueNum ==> !row[i]
    ensures EmergencyList(row) == Join(seq(ClueNum, k requires 0 <= k < ClueNum => Itoa(k + 1)), ", ")
  {
    assert UnsetIndices(row, 1, ClueNum + 1) == OneTo(ClueNum) by {
      UnsetIndicesAll(row, ClueNum + 1);
    }
    JoinDecimalsOneTo(ClueNum);
  }

  /** The joined decimals of 1..n, as a comprehension. */
  lemma JoinDecimalsOneTo(n: nat)
    ensures Join(Decimals(OneTo(n)), ", ") == Join(seq(n, k requires 0 <= k < n => Itoa(k + 1)), ", ")
  {
    DecimalsOneTo(n);
  }

  /** Nothing unset in lo..hi-1: nothing listed. */
  lemma {:induction false} NoneUnset(row: seq<bool>, lo: nat, hi: nat)
    requires lo <= hi <= |row|
    requires forall i :: lo <= i < hi ==> row[i]
    ensures UnsetIndices(row, lo, hi) == []
    decreases hi - lo
  {
    if hi > lo {
      NoneUnset(row, lo, hi - 1);
    }
  }

  /** Every emergency scanned: the report is empty. */
  lemma EmergencyListAllSet(row: seq<bool>)
    requires IsRow(row)
    requires forall i :: 1 <= i <= ClueNum ==> row[i]
    ensures EmergencyList(row) == ""
  {
    NoneUnset(row, 1, ClueNum + 1);
  }

  /** The number of set bits at indices lo <= i < hi. */
  function CountSet(row: seq<bool>, lo: nat, hi: nat): nat
    requires lo <= hi <= |row|
    decreases hi - lo
  {
    if hi == lo then 0 else CountSet(row, lo, hi - 1) + (if row[hi - 1] then 1 else 0)
  }

  /** Every index of lo..hi is either counted as set or listed as unset. */
  lemma {:induction false} CountSetPlusUnset(row: seq<bool>, lo: nat, hi: nat)
    requires lo <= hi <= |row|
    ensures CountSet(row, lo, hi) + |UnsetIndices(row, lo, hi)| == hi - lo
    decreases hi - lo
  {
    if hi > lo {
      CountSetPlusUnset(row, lo, hi - 1);
    }
  }

  /** getSolveCount: the set emergency bits (1..26) and the set clue bits
      (27..52) of a row. */
  function SolveCount(row: seq<bool>): (int, int)
    requires IsRow(row)
  {
    (CountSet(row, 1, ClueNum + 1), CountSet(row, ClueNum + 1, TotalCol))
  }

  /** Each of the two counts lies in 0..26, and 26 minus it is the number of
      emergencies (clues) still unset. */
  lemma SolveCountRange(row: seq<bool>)
    requires IsRow(row)
    ensures 0 <= SolveCount(row).0 <= ClueNum && 0 <= SolveCount(row).1 <= ClueNum
    ensures ClueNum - SolveCount(row).0 == |UnsetIndices(row, 1, ClueNum + 1)|
    ensures ClueNum - SolveCount(row).1 == |UnsetIndices(row, ClueNum + 1, TotalCol)|
  {
    CountSetPlusUnset(row, 1, ClueNum + 1);
    CountSetPlusUnset(row, ClueNum + 1, TotalCol);
  }

  /** One entry of the list buildCarData returns. */
  datatype CarData = CarData(
    carNum: nat,
    scanned: bool,
    emergencies: int,
    clues: int,
    emergencyList: string,
    clueList: string,
    scanTime: int)

  /** The zero CarData Go leaves at index 0 of the list. */
  const NoCar := CarData(0, false, 0, 0, "", "", 0)

  /** buildCarData's entry for car i: its flag, the numbers of emergencies
      and clues still unset, both lists and the last scan time. */
  function CarSummary(row: seq<bool>, i: nat, scanTime: int): CarData
    requires IsRow(row)
  {
    var (emergencies, clues) := SolveCount(row);
    CarData(i, row[0], ClueNum - emergencies, ClueNum - clues,
            EmergencyList(row), ClueList(row), scanTime)
  }

  /** The counts in a summary lie in 0..26 and are the numbers of unset
      emergency and clue positions. */
  lemma CarSummaryCounts(row: seq<bool>, i: nat, t: int)
    requires IsRow(row)
    ensures var c := CarSummary(row, i, t);
      0 <= c.emergencies <= ClueNum && 0 <= c.clues <= ClueNum
      && c.emergencies == |UnsetIndices(row, 1, ClueNum + 1)|
      && c.clues == |UnsetIndices(row, ClueNum + 1, TotalCol)|
      && c.scanned == row[0]
  {
    SolveCountRange(row);
  }

  /** The reports of getTally. */
  datatype TallyData = TallyData(
    totalClues: int,
    countedClues: int,
    totalEmergencies: int,
    countedEmergencies: int)

  /** The set bits at lo <= j < hi summed over the cars 0 <= i < n. */
  function CountedIn(t: seq<seq<bool>>, n: nat, lo: nat, hi: nat): nat
    requires IsTable(t) && n <= CarMax && lo <= hi <= TotalCol
    decreases n
  {
    if n == 0 then 0 else CountedIn(t, n - 1, lo, hi) + CountSet(t[n - 1], lo, hi)
  }

  lemma {:induction false} CountedInBound(t: seq<seq<bool>>, n: nat, lo: nat, hi: nat)
    requires IsTable(t) && n <= CarMax && lo <= hi <= TotalCol
    ensures CountedIn(t, n, lo, hi) <= n * (hi - lo)
    decreases n
  {
    if n > 0 {
      var w := hi - lo;
      CountedInBound(t, n - 1, lo, hi);
      CountSetPlusUnset(t[n - 1], lo, hi);
      assert CountSet(t[n - 1], lo, hi) <= w;
      assert (n - 1) * w + w == n * w;
    }
  }

  /** getTally as written: over the cars 0..99 it counts the set bits at
      0..25 as emergencies and at 26..52 as clues. */
  function Tally(t: seq<seq<bool>>): TallyData
    requires IsTable(t)
  {
    TallyData(CarMax * ClueNum, CountedIn(t, CarMax, ClueOffset, TotalCol),
              CarMax * ClueNum, CountedIn(t, CarMax, EmergencyOffset, ClueNum))
  }

  /** The totals are 2600 each; the counted emergencies stay within theirs
      but the counted clues can reach 2700. */
  lemma TallyBounds(t: seq<seq<bool>>)
    requires IsTable(t)
    ensures Tally(t).totalClues == 2600 && Tally(t).totalEmergencies == 2600
    ensures Tally(t).countedEmergencies <= 2600 && Tally(t).countedClues <= 2700
  {
    assert CountedIn(t, CarMax, ClueOffset, TotalCol) <= CarMax * (ClueNum + 1) by {
      CountedInBound(t, CarMax, ClueOffset, TotalCol);
    }
    assert CountedIn(t, CarMax, EmergencyOffset, ClueNum) <= CarMax * ClueNum by {
      CountedInBound(t, CarMax, EmergencyOffset, ClueNum);
    }
  }

  /** The table with every bit set. */
  function FullTable(): (t: seq<seq<bool>>)
    ensures IsTable(t)
  {
    seq(CarMax, _ => seq(TotalCol, _ => true))
  }

  lemma {:induction false} CountSetFull(row: seq<bool>, lo: nat, hi: nat)
    requires lo <= hi <= |row| && forall j :: 0 <= j < |row| ==> row[j]
    ensures CountSet(row, lo, hi) == hi - lo
    decreases hi - lo
  {
    if hi > lo {
      CountSetFull(row, lo, hi - 1);
    }
  }

  lemma {:induction false} CountedInFull(n: nat, lo: nat, hi: nat)
    requires n <= CarMax && lo <= hi <= TotalCol
    ensures CountedIn(FullTable(), n, lo, hi) == n * (hi - lo)
    decreases n
  {
    if n > 0 {
      CountedInFull(n - 1, lo, hi);
      assert CountSet(FullTable()[n - 1], lo, hi) == hi - lo by {
        CountSetFull(FullTable()[n - 1], lo, hi);
      }
      assert (n - 1) * (hi - lo) + (hi - lo) == n * (hi - lo);
    }
  }

  /** getTally over-counts: on the full table it reports 2700 counted clues
      out of 2600. */
  lemma TallyOverCounts()
    ensures Tally(FullTable()).countedClues == 2700 > Tally(FullTable()).totalClues
  {
    CountedInFull(CarMax, ClueOffset, TotalCol);
  }

  /** The tally getTally evidently means: the emergencies at 1..26 and the
      clues at 27..52, the same columns getSolveCount counts. */
  function IntendedTally(t: seq<seq<bool>>): TallyData
    requires IsTable(t)
  {
    TallyData(CarMax * ClueNum, CountedIn(t, CarMax, ClueNum + 1, TotalCol),
              CarMax * ClueNum, CountedIn(t, CarMax, 1 + EmergencyOffset, ClueNum + 1))
  }

  /** The intended tally never counts more than the totals. */
  lemma IntendedTallyBounds(t: seq<seq<bool>>)
    requires IsTable(t)
    ensures IntendedTally(t).countedClues <= IntendedTally(t).totalClues
    ensures IntendedTally(t).countedEmergencies <= IntendedTally(t).totalEmergencies
  {
    assert CountedIn(t, CarMax, ClueNum + 1, TotalCol) <= CarMax * ClueNum by {
      CountedInBound(t, CarMax, ClueNum + 1, TotalCol);
    }
    assert CountedIn(t, CarMax, 1, ClueNum + 1) <= CarMax * ClueNum by {
      CountedInBound(t, CarMax, 1, ClueNum + 1);
    }
  }

  /** The number of cars 1 <= i < n whose flag is set. */
  function ScannedCars(t: seq<seq<bool>>, n: nat): nat
    requires IsTable(t) && n <= CarMax
    decreases n
  {
    if n <= 1 then 0 else ScannedCars(t, n - 1) + (if t[n - 1][0] then 1 else 0)
  }

  /** Some car 1..n-1 has been scanned exactly when the count is positive. */
  lemma {:induction false} ScannedCarsPositive(t: seq<seq<bool>>, n: nat)
    requires IsTable(t) && n <= CarMax
    ensures ScannedCars(t, n) > 0 <==> exists i :: 1 <= i < n && t[i][0]
    decreases n
  {
    if n > 1 {
      ScannedCarsPositive(t, n - 1);
      if t[n - 1][0] {
        assert 1 <= n - 1 < n && t[n - 1][0];
      }
    }
  }

  /** The list buildCarData returns: the zero entry at index 0, then the
      summary of each car 1..99 with its last scan time. */
  function CarList(t: seq<seq<bool>>, scanTime: seq<int>): (cars: seq<CarData>)
    requires IsTable(t) && |scanTime| == CarMax
    ensures |cars| == CarMax
  {
    seq(CarMax, i requires 0 <= i < CarMax => if i == 0 then NoCar else CarSummary(t[i], i, scanTime[i]))
  }

  /** The line writeTextStream writes for car i. */
  function TextLine(i: nat, c: CarData): string
  {
    "\t" + Itoa(i) + "\t0\t" + c.clueList + "\t" + c.emergencyList + "\n"
  }

  /** The tab-separated fields of a line: an empty first field, the car
      number, 0, the clue list and the emergency list (with the newline). */
  lemma TextLineFields(i: nat, c: CarData)
    requires '\t' !in c.clueList && '\t' !in c.emergencyList
    ensures Split(TextLine(i, c), '\t') == ["", Itoa(i), "0", c.clueList, c.emergencyList + "\n"]
  {
    var parts := ["", Itoa(i), "0", c.clueList, c.emergencyList + "\n"];
    var el := c.emergencyList + "\n";
    assert parts[1..][1..][1..][1..] == [el];
    assert Join(parts[1..][1..][1..], "\t") == c.clueList + "\t" + el;
    assert Join(parts[1..][1..], "\t") == "0" + "\t" + (c.clueList + "\t" + el);
    assert Join(parts[1..], "\t") == Itoa(i) + "\t" + ("0" + "\t" + (c.clueList + "\t" + el));
    assert Join(parts, "\t") == "" + "\t" + (Itoa(i) + "\t" + ("0" + "\t" + (c.clueList + "\t" + el)));
    assert Join(parts, "\t") == TextLine(i, c);
    forall k | 0 <= k < |parts|
      ensures '\t' !in parts[k]
    {
      if k == 1 {
        assert forall m :: 0 <= m < |Itoa(i)| ==> IsDigit(Itoa(i)[m]);
      }
    }
    SplitJoin(parts, '\t');
  }

  /** The emergency report holds no tab, so it stays one field of a text
      line. */
  lemma EmergencyListNoTab(row: seq<bool>)
    requires IsRow(row)
    ensures '\t' !in EmergencyList(row)
  {
    var parts := Decimals(UnsetIndices(row, 1 + EmergencyOffset, ClueNum + 1));
    DecimalsAreDigits(UnsetIndices(row, 1 + EmergencyOffset, ClueNum + 1));
    forall k | 0 <= k < |parts|
      ensures '\t' !in parts[k]
    {
      assert AllDigits(parts[k]);
    }
    JoinAvoids(parts, ", ", '\t');
  }

  /** The line writeTextStream writes for a car 1..99 splits on tabs into
      an empty field, the car number, 0, the car's clue report and its
      emergency report (with the newline). */
  lemma TextLineOfCar(t: seq<seq<bool>>, scanTime: seq<int>, i: nat)
    requires IsTable(t) && |scanTime| == CarMax && 1 <= i < CarMax
    ensures Split(TextLine(i, CarList(t, scanTime)[i]), '\t')
      == ["", Itoa(i), "0", ClueList(t[i]), EmergencyList(t[i]) + "\n"]
  {
    ClueListNoTab(t[i]);
    EmergencyListNoTab(t[i]);
    TextLineFields(i, CarList(t, scanTime)[i]);
  }

  /** The text writeTextStream writes: the lines of the cars 1 <= i < n. */
  function TextStream(cars: seq<CarData>, n: nat): string
    requires n <= |cars|
    decreases n
  {
    if n <= 1 then "" else TextStream(cars, n - 1) + TextLine(n - 1, cars[n - 1])
  }
}
