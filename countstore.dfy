/** countData, the in-memory store of thcount.go: the count table, the
    per-car scan times and check-in/check-out times, and the per-scanner
    records, together with the program-wide quit flag and the operating
    mode of the -command option.  Every method is proved against the value
    model of StoreModel and the report functions of Reports. */
module CountStore {
  import opened GoStrings
  import opened ScanCodes
  import opened Streaks
  import opened Reports
  import opened StoreModel

  class CountData {
    var thCount: array2<bool>
    var scanTime: array<int>
    var thTimes: array<CarTime>
    var scanners: array<ScannerData>
    var quit: bool
    /** The operating mode: "count", "checkin", "checkout" or another. */
    const command: string

    ghost predicate Valid()
      reads this
    {
      thCount.Length0 == CarMax && thCount.Length1 == TotalCol
      && scanTime.Length == CarMax && thTimes.Length == CarMax && scanners.Length == ScannerMax
    }

    /** The row of the count table for one car. */
    ghost function Row(car: nat): (r: seq<bool>)
      reads this, thCount
      requires Valid() && car < CarMax
      ensures IsRow(r) && forall j :: 0 <= j < TotalCol ==> r[j] == thCount[car, j]
    {
      seq(TotalCol, j requires 0 <= j < TotalCol && Valid() && car < CarMax reads this, thCount => thCount[car, j])
    }

    ghost function Table(): (t: seq<seq<bool>>)
      reads this, thCount
      requires Valid()
      ensures IsTable(t) && forall i :: 0 <= i < CarMax ==> t[i] == Row(i)
    {
      seq(CarMax, i requires 0 <= i < CarMax && Valid() reads this, thCount => Row(i))
    }

    /** The store as a value. */
    ghost function Abs(): (s: State)
      reads this, thCount, scanTime, thTimes, scanners
      requires Valid()
      ensures WellFormed(s)
    {
      State(Table(), scanTime[..], thTimes[..], scanners[..], quit)
    }

    /** A store with nothing scanned, as the program starts without saved
        state, in the given operating mode. */
    constructor (mode: string)
      ensures Valid() && Abs() == Initial() && command == mode
    {
      thCount := new bool[CarMax, TotalCol]((i, j) => false);
      scanTime := new int[CarMax](_ => 0);
      thTimes := new CarTime[CarMax](_ => NoTimes);
      scanners := new ScannerData[ScannerMax](_ => ScannerData(0, 0, 0));
      quit := false;
      command := mode;
      new;
      forall i | 0 <= i < CarMax ensures Table()[i] == EmptyTable()[i] {
        assert Row(i) == EmptyRow();
      }
      assert Table() == EmptyTable();
      assert scanTime[..] == seq(CarMax, _ => 0);
      assert thTimes[..] == ZeroTimes();
      assert scanners[..] == seq(ScannerMax, _ => ScannerData(0, 0, 0));
    }

    /** getCarEmergencies: the emergencies not yet scanned, ascending and
        separated by ", ". */
    method GetCarEmergencies(car: nat) returns (emergencies: string)
      requires Valid() && car < CarMax
      ensures emergencies == EmergencyList(Row(car))
    {
      ghost var row := Row(car);
      emergencies := "";
      var i := 1 + EmergencyOffset;
      while i <= ClueNum
        invariant 1 <= i <= ClueNum + 1
        invariant emergencies == Join(Decimals(UnsetIndices(row, 1, i)), ", ")
        invariant (|emergencies| == 0) == (|UnsetIndices(row, 1, i)| == 0)
      {
        assert row[i] == thCount[car, i];
        ghost var after := UnsetIndices(row, 1, i + 1);
        if !thCount[car, i] {
          if |emergencies| > 0 {
            assert Join(Decimals(after), ", ") == emergencies + ", " + Itoa(i) && |after| > 0 by {
              UnsetListStep(row, 1, i);
            }
            emergencies := emergencies + ", ";
          } else {
            assert Join(Decimals(after), ", ") == Itoa(i) && |after| > 0 by {
              UnsetListStep(row, 1, i);
            }
          }
          emergencies := emergencies + Itoa(i);
        } else {
          assert Join(Decimals(after), ", ") == emergencies && (|after| == 0) == (|emergencies| == 0) by {
            UnsetListStep(row, 1, i);
          }
        }
        i := i + 1;
      }
    }

    /** getSolveCount: the scanned emergencies (bits 1..26) and the scanned
        clues (bits 27..52) of a car. */
    method GetSolveCount(car: nat) returns (emergencies: int, clues: int)
      requires Valid() && car < CarMax
      ensures (emergencies, clues) == SolveCount(Row(car))
    {
      ghost var row := Row(car);
      emergencies, clues := 0, 0;
      var i := 1;
      while i < TotalCol
        invariant 1 <= i <= TotalCol
        invariant emergencies == CountSet(row, 1, if i <= ClueNum + 1 then i else ClueNum + 1)
        invariant clues == CountSet(row, ClueNum + 1, if i <= ClueNum + 1 then ClueNum + 1 else i)
      {
        if thCount[car, i] {
          if i <= ClueNum {
            emergencies := emergencies + 1;
          } else {
            clues := clues + 1;
          }
        }
        i := i + 1;
      }
    }

    /** getCarClues: the unset clues of a car as circular letter runs,
        lower-cased and separated by ", ". */
    method GetCarClues(car: nat) returns (clues: string)
      requires Valid() && car < CarMax
      ensures clues == ClueList(Row(car))
    {
      ghost var row := Row(car);
      var streaks := ClueStreaks(car, row);
      ClueRunsValid(row);
      var text := FormatStreaks(streaks);
      clues := ToLower(text);
      assert clues == ClueList(row);
    }

    /** The passes of getCarClues that collect the runs: the one through Z
        and A, when both are unset, then the runs between its ends. */
    method ClueStreaks(car: nat, ghost row: seq<bool>) returns (streaks: seq<Streak>)
      requires Valid() && car < CarMax && row == Row(car)
      ensures streaks == ClueRuns(row)
    {
      streaks := [];
      var end, start, clue := ClueOffset, 0, 0;
      if !thCount[car, ClueOffset + ClueNum] && !thCount[car, ClueOffset + 1] {
        assert Unset(row, ClueNum) && Unset(row, 1);
        var current;
        current, start, end, clue := RolloverStreak(car, row);
        streaks := [current];
        end := end - 1;
        assert clue == ClueNum ==> streaks == ClueRuns(row) by {
          ClueRunsRollover(row);
        }
        assert clue != ClueNum ==>
          0 <= start < end <= ClueNum && streaks + LinearRuns(row, start + 1, end) == ClueRuns(row) by {
          ClueRunsRollover(row);
        }
      } else {
        assert streaks + LinearRuns(row, start + 1, end) == ClueRuns(row) by {
          ClueRunsPlain(row);
        }
      }
      if clue != ClueNum {
        var middle := LinearStreaks(car, start + 1, end, row);
        streaks := streaks + middle;
      }
      assert streaks == ClueRuns(row);
    }

    /** The first pass of getCarClues when Z and A are both unset: the run
        through Z and A, found by walking down from Z and then up from A.
        With every clue unset it is A..Z and clue is 26; otherwise it runs
        from RunFrom(row, 1, 26) on to RunTo(row, 1, 26), end is its start and
        start its end. */
    method RolloverStreak(car: nat, ghost row: seq<bool>) returns (current: Streak, start: int, end: int, clue: int)
      requires Valid() && car < CarMax && row == Row(car) && Unset(row, ClueNum) && Unset(row, 1)
      ensures var s := RunFrom(row, 1, ClueNum);
        if s == 1 then clue == ClueNum && current == Streak(1, ClueNum)
        else clue != ClueNum && end == s && current == Streak(s, RunTo(row, 1, ClueNum))
             && start == current.end && start + 1 < end
    {
      current := Streak(0, 0);
      end, start, clue := ClueOffset, 0, 0;
      var first := 0;
      var i := ClueNum;
      while i >= 1
        invariant 0 <= i <= ClueNum
        invariant clue == ClueNum - i
        invariant first == if i < ClueNum then i + 1 else 0
        invariant forall p :: i < p <= ClueNum ==> Unset(row, p)
        invariant end == ClueOffset && current == Streak(0, 0)
      {
        if !thCount[car, ClueOffset + i] {
          first := i;
          clue := clue + 1;
        } else {
          assert !Unset(row, i);
          current := current.(start := first);
          end := first;
          break;
        }
        i := i - 1;
      }
      ghost var s := RunFrom(row, 1, ClueNum);
      if clue == ClueNum {
        assert s == 1;
        current := Streak(1, ClueNum);
      } else {
        assert s == end && s > 1 && current == Streak(end, 0);
        var last := 0;
        var j := 1;
        while j < end
          invariant 1 <= j <= end
          invariant last == j - 1
          invariant forall p :: 1 <= p < j ==> Unset(row, p)
          invariant start == 0 && current == Streak(end, 0)
        {
          if !thCount[car, ClueOffset + j] {
            last := j;
          } else {
            assert !Unset(row, j);
            current := current.(end := last);
            start := last;
            break;
          }
          j := j + 1;
        }
        assert current == Streak(s, RunTo(row, 1, ClueNum)) && start == current.end;
      }
    }

    /** The linear pass of getCarClues: the maximal runs of unset clues
        inside lo..hi, in ascending order. */
    method LinearStreaks(car: nat, lo: int, hi: int, ghost row: seq<bool>) returns (streaks: seq<Streak>)
      requires Valid() && car < CarMax && 1 <= lo && hi <= ClueNum && lo <= hi + 1 && row == Row(car)
      ensures streaks == LinearRuns(row, lo, hi)
    {
      streaks := [];
      var current := Streak(0, 0);
      var i := lo;
      while i <= hi
        invariant lo <= i <= hi + 1
        invariant LinearRuns(row, lo, i - 1) == if current.start == 0 then streaks else streaks + [current]
        invariant current.start == 0 ==> i == lo || !Unset(row, i - 1)
        invariant current.start != 0 ==> lo < i && current.end == i - 1 && Unset(row, i - 1)
      {
        if !thCount[car, ClueOffset + i] {
          if current.start == 0 {
            assert LinearRuns(row, lo, i) == streaks + [Streak(i, i)] by {
              StartStep(row, lo, i);
            }
            current := Streak(i, i);
          } else {
            assert LinearRuns(row, lo, i) == streaks + [current.(end := i)] by {
              ExtendStep(row, lo, i, streaks, current);
            }
            current := current.(end := i);
          }
        } else {
          assert LinearRuns(row, lo, i) == LinearRuns(row, lo, i - 1) by {
            SetStep(row, lo, i);
          }
          if current.start != 0 {
            streaks := streaks + [current];
            current := Streak(0, 0);
          }
        }
        i := i + 1;
      }
      if current.start != 0 {
        streaks := streaks + [current];
      }
    }

    /** Some car 1..99 carries its scanned flag. */
    ghost predicate Scanned()
      reads this, thCount
      requires Valid()
    {
      exists i :: 1 <= i < CarMax && thCount[i, 0]
    }

    /** hasCars: whether some car 1..99 carries its scanned flag. */
    method HasCars() returns (b: bool)
      requires Valid()
      ensures b == Scanned()
    {
      ghost var t := Table();
      var cars := 0;
      var i := 1;
      while i < CarMax
        invariant 1 <= i <= CarMax && cars == ScannedCars(t, i)
      {
        assert t[i][0] == thCount[i, 0];
        if thCount[i, 0] {
          cars := cars + 1;
        }
        i := i + 1;
      }
      ScannedCarsPositive(t, CarMax);
      assert forall i :: 1 <= i < CarMax ==> t[i][0] == thCount[i, 0];
      b := cars > 0;
    }

    /** status: the number of cars 1..99 that carry their scanned flag
        (the program logs it). */
    method Status() returns (cars: nat)
      requires Valid()
      ensures cars == ScannedCars(Table(), CarMax)
    {
      ghost var t := Table();
      cars := 0;
      var i := 1;
      while i < CarMax
        invariant 1 <= i <= CarMax && cars == ScannedCars(t, i)
      {
        assert t[i][0] == thCount[i, 0];
        if thCount[i, 0] {
          cars := cars + 1;
        }
        i := i + 1;
      }
    }

    /** buildCarData: the summary list of every car. */
    method BuildCarData() returns (carList: seq<CarData>)
      requires Valid()
      ensures carList == CarList(Table(), scanTime[..])
    {
      ghost var t := Table();
      ghost var list := CarList(t, scanTime[..]);
      carList := seq(CarMax, _ => NoCar);
      var i := 1;
      while i < CarMax
        invariant 1 <= i <= CarMax && |carList| == CarMax
        invariant forall k :: 0 <= k < CarMax ==> carList[k] == if k < i then list[k] else NoCar
      {
        var currentCar := BuildCar(i);
        assert Row(i) == t[i];
        carList := carList[i := currentCar];
        i := i + 1;
      }
      assert carList == list;
    }

    /** The body of buildCarData's loop: the entry for one car. */
    method BuildCar(i: nat) returns (currentCar: CarData)
      requires Valid() && 0 < i < CarMax
      ensures currentCar == CarSummary(Row(i), i, scanTime[i])
    {
      ghost var row := Row(i);
      var emergencyStr := GetCarEmergencies(i);
      var clueStr := GetCarClues(i);
      var emergencies, clues := GetSolveCount(i);
      assert Row(i) == row && row[0] == thCount[i, 0];
      currentCar := CarData(i, thCount[i, 0], ClueNum - emergencies, ClueNum - clues,
                            emergencyStr, clueStr, scanTime[i]);
      assert currentCar == CarSummary(row, i, scanTime[i]);
    }

    /** writeTextStream: one line per car 1..99 with its number, a 0, its
        clue list and its emergency list, separated by tabs. */
    method WriteTextStream() returns (text: string)
      requires Valid()
      ensures text == TextStream(CarList(Table(), scanTime[..]), CarMax)
    {
      var carList := BuildCarData();
      text := "";
      var i := 1;
      while i < CarMax
        invariant 1 <= i <= CarMax && text == TextStream(carList, i)
      {
        var line := "\t" + Itoa(i) + "\t0\t" + carList[i].clueList + "\t" + carList[i].emergencyList + "\n";
        text := text + line;
        i := i + 1;
      }
    }

    /** saveData: nothing when no car has been scanned, otherwise the text
        of writeTextStream. */
    method SaveData() returns (saved: Option<string>)
      requires Valid()
      ensures saved.Some? == Scanned()
      ensures saved.Some? ==> saved.value == TextStream(CarList(Table(), scanTime[..]), CarMax)
    {
      var any := HasCars();
      if !any {
        return None;
      }
      var text := WriteTextStream();
      saved := Some(text);
    }

    /** getTally, as written: see Reports.Tally. */
    method GetTally() returns (tally: TallyData)
      requires Valid()
      ensures tally == Tally(Table())
    {
      ghost var t := Table();
      tally := TallyData(CarMax * ClueNum, 0, CarMax * ClueNum, 0);
      var i := 0;
      while i < CarMax
        invariant 0 <= i <= CarMax
        invariant tally == TallyData(CarMax * ClueNum, CountedIn(t, i, ClueOffset, TotalCol),
                                     CarMax * ClueNum, CountedIn(t, i, EmergencyOffset, ClueNum))
      {
        var j := 0;
        while j < ClueNum
          invariant 0 <= j <= ClueNum
          invariant tally == TallyData(CarMax * ClueNum, CountedIn(t, i, ClueOffset, TotalCol),
                                       CarMax * ClueNum, CountedIn(t, i, EmergencyOffset, ClueNum) + CountSet(t[i], 0, j))
        {
          assert t[i][j] == thCount[i, j];
          if thCount[i, j] {
            tally := tally.(countedEmergencies := tally.countedEmergencies + 1);
          }
          j := j + 1;
        }
        j := ClueOffset;
        while j < TotalCol
          invariant ClueOffset <= j <= TotalCol
          invariant tally == TallyData(CarMax * ClueNum, CountedIn(t, i, ClueOffset, TotalCol) + CountSet(t[i], ClueOffset, j),
                                       CarMax * ClueNum, CountedIn(t, i + 1, EmergencyOffset, ClueNum))
        {
          assert t[i][j] == thCount[i, j];
          if thCount[i, j] {
            tally := tally.(countedClues := tally.countedClues + 1);
          }
          j := j + 1;
        }
        i := i + 1;
      }
    }

    /** The loop of worker over the codes of one chunk: each code is
        trimmed and processed, the scanner's count is raised for each
        accepted one, and the last code is carried to the next chunk when
        it is refused. */
    method FeedCodes(id: nat, codes: seq<string>, now: int) returns (lastVal: string)
      requires Valid() && id < ScannerMax && |codes| > 0 && PiecesSafe(codes)
      modifies this, thCount, scanTime, thTimes, scanners
      ensures Valid() && scanners == old(scanners) && scanTime == old(scanTime)
      ensures (thCount == old(thCount) || fresh(thCount)) && (thTimes == old(thTimes) || fresh(thTimes))
      ensures Abs() == Feed(old(Abs()), command, id, codes, now)
      ensures lastVal == Carry(codes)
    {
      ghost var s := Abs();
      lastVal := "";
      var i := 0;
      while i < |codes|
        invariant 0 <= i <= |codes| && Valid() && scanners == old(scanners) && scanTime == old(scanTime)
        invariant (thCount == old(thCount) || fresh(thCount)) && (thTimes == old(thTimes) || fresh(thTimes))
        invariant PiecesSafe(codes[..i])
        invariant Abs() == Feed(s, command, id, codes[..i], now)
        invariant i == |codes| ==> lastVal == Carry(codes)
      {
        PiecesSafePrefix(codes, i);
        PiecesSafePrefix(codes, i + 1);
        var v, valid := FeedCode(id, codes[i], now);
        if i == |codes| - 1 {
          if valid {
            lastVal := "";
          } else {
            lastVal := v;
          }
        }
        assert codes[..i + 1][..i] == codes[..i];
        i := i + 1;
      }
      assert codes[..i] == codes;
    }

    /** A successful non-empty read of worker: the scanner's last scan time
        is stamped and the carried text and the chunk are fed line by line. */
    method IngestChunk(id: nat, lastVal: string, chunk: string, now: int) returns (carry: string)
      requires Valid() && id < ScannerMax && PiecesSafe(Split(lastVal + chunk, '\n'))
      modifies this, thCount, scanTime, thTimes, scanners
      ensures Valid() && scanners == old(scanners) && scanTime == old(scanTime)
      ensures (thCount == old(thCount) || fresh(thCount)) && (thTimes == old(thTimes) || fresh(thTimes))
      ensures Abs() == Ingest(old(Abs()), command, id, Split(lastVal + chunk, '\n'), now)
      ensures carry == Carry(Split(lastVal + chunk, '\n'))
    {
      scanners[id] := scanners[id].(lastScanTime := now);
      var code := lastVal + chunk;
      var codes := Split(code, '\n');
      carry := FeedCodes(id, codes, now);
    }

    /** One turn of that loop: the trimmed code and processCode's verdict. */
    method FeedCode(id: nat, piece: string, now: int) returns (v: string, valid: bool)
      requires Valid() && id < ScannerMax && !Panics(Parse(TrimSpace(piece)))
      modifies this, thCount, scanTime, thTimes, scanners
      ensures Valid() && scanners == old(scanners) && scanTime == old(scanTime)
      ensures (thCount == old(thCount) || fresh(thCount)) && (thTimes == old(thTimes) || fresh(thTimes))
      ensures Abs() == FeedOne(old(Abs()), command, id, piece, now)
      ensures v == TrimSpace(piece) && valid == Parse(v).Accepted()
    {
      v := TrimSpace(piece);
      ghost var before := Abs();
      valid := ProcessCode(v, now);
      ProcessResult(before, command, v, now);
      if valid {
        scanners[id] := scanners[id].(scanCount := scanners[id].scanCount + 1);
      }
    }

    /** worker: the read loop of one scanner over the given read results.
        The store ends as the value model Worker says. */
    method Worker(id: nat, results: seq<ReadResult>)
      requires Valid() && id < ScannerMax && StoreModel.Worker(Abs(), command, id, results).Some?
      modifies this, thCount, scanTime, thTimes, scanners
      ensures Valid()
      ensures Abs() == StoreModel.Worker(old(Abs()), command, id, results).value.state
    {
      ghost var final := StoreModel.Worker(Abs(), command, id, results).value;
      var errorCount: nat := 0;
      var lastVal := "";
      scanners[id] := scanners[id].(scannerNum := id);
      var k := 0;
      while true
        invariant 0 <= k <= |results| && Valid() && scanners == old(scanners) && scanTime == old(scanTime)
        invariant (thCount == old(thCount) || fresh(thCount)) && (thTimes == old(thTimes) || fresh(thTimes))
        invariant Run(Abs(), command, id, results[k..], errorCount, lastVal) == Some(final)
        decreases |results| - k
      {
        if quit {
          return;
        }
        if errorCount > 10 {
          ghost var t := Table();
          quit := true;
          TableOfCells(t);
          return;
        }
        if k == |results| {
          return;
        }
        var r := results[k];
        assert results[k..][0] == r && results[k..][1..] == results[k + 1..];
        k := k + 1;
        match r
        case Eof =>
        case ReadFailure =>
          errorCount := errorCount + 1;
        case Bytes(chunk, now) =>
          errorCount := 0;
          if |chunk| > 0 {
            lastVal := IngestChunk(id, lastVal, chunk, now);
          }
      }
    }

    /** A table whose every cell agrees with thCount is the table. */
    lemma TableOfCells(t: seq<seq<bool>>)
      requires Valid() && IsTable(t)
      requires forall i, j :: 0 <= i < CarMax && 0 <= j < TotalCol ==> thCount[i, j] == t[i][j]
      ensures Table() == t
    {
      forall i | 0 <= i < CarMax
        ensures Table()[i] == t[i]
      {
        assert Row(i) == t[i];
      }
    }

    /** The assignment thCount[car][j] = true of processCode. */
    method SetCell(car: nat, j: nat)
      requires Valid() && car < CarMax && j < TotalCol
      modifies thCount
      ensures Valid() && Table() == SetBit(old(Table()), car, j)
    {
      ghost var t := SetBit(Table(), car, j);
      thCount[car, j] := true;
      TableOfCells(t);
    }

    /** The loop of processCode that clears one car's row. */
    method ClearRow(car: nat)
      requires Valid() && car < CarMax
      modifies thCount
      ensures Valid() && Table() == old(Table())[car := EmptyRow()]
    {
      ghost var t := Table()[car := EmptyRow()];
      var i := 0;
      while i < TotalCol
        invariant 0 <= i <= TotalCol
        invariant forall p, q :: 0 <= p < CarMax && 0 <= q < TotalCol ==>
          thCount[p, q] == if p == car && q < i then false else old(thCount[p, q])
      {
        thCount[car, i] := false;
        i := i + 1;
      }
      TableOfCells(t);
    }

    /** processCode: the store changes exactly as Process says, and the
        result is Process's verdict.  Saving, the status report and the
        count-mode printout only write output and are left out here. */
    method ProcessCode(code: string, now: int) returns (valid: bool)
      requires Valid() && !Panics(Parse(code))
      modifies this, thCount, scanTime, thTimes
      ensures Valid() && scanners == old(scanners) && scanTime == old(scanTime)
      ensures (thCount == old(thCount) || fresh(thCount)) && (thTimes == old(thTimes) || fresh(thTimes))
      ensures (Abs(), valid) == Process(old(Abs()), command, code, now)
    {
      ghost var s := Abs();
      if |code| == 0 {
        return true;
      }
      var features := Split(code, '-');
      if |features| != 3 {
        return false;
      }
      var car := Atoi(features[0]);
      var cmd := features[1];
      if car >= CarMax {
        return false;
      }
      assert Parse(code) == Code(car, cmd, features[2]);
      SetCell(car, 0);
      assert Abs() == s.(table := SetBit(s.table, car, 0));
      Command(car, cmd, features[2], now);
      return true;
    }

    /** The switch on the command in processCode, after the car's flag is
        set: the store changes as Dispatch says. */
    method Command(car: nat, cmd: string, payload: string, now: int)
      requires Valid() && car < CarMax && '-' !in payload && !Panics(Code(car, cmd, payload))
      modifies this, thCount, scanTime, thTimes
      ensures Valid() && scanners == old(scanners) && scanTime == old(scanTime)
      ensures (thCount == old(thCount) || fresh(thCount)) && (thTimes == old(thTimes) || fresh(thTimes))
      ensures Abs() == Dispatch(old(Abs()), command, car, cmd, payload, now)
    {
      ghost var t := Table();
      if cmd == "QUIT" {
        quit := true;
        TableOfCells(t);
      } else if cmd == "CLEAR" {
        if car == 0 {
          thCount := new bool[CarMax, TotalCol]((i, j) => false);
          thTimes := new CarTime[CarMax](_ => NoTimes);
          TableOfCells(EmptyTable());
          assert thTimes[..] == ZeroTimes();
        } else {
          ClearRow(car);
        }
      } else if cmd == "CL" {
        var clue := (Utf8LeadByte(payload[0]) - 64) % 256;
        SetCell(car, (ClueOffset + clue) % 256);
        scanTime[car] := now;
      } else if cmd == "EM" {
        var emergency := Atoi(payload);
        SetCell(car, emergency);
        scanTime[car] := now;
      } else if cmd == "CA" && command == "checkin" {
        thTimes[car] := thTimes[car].(checkIn := now);
      } else if cmd == "CA" && command == "checkout" {
        thTimes[car] := thTimes[car].(checkOut := now);
      }
    }
  }

  /** The formatting pass of getCarClues, before lower-casing: each run as
      RenderStreak writes it, separated by ", ". */
  method FormatStreaks(streaks: seq<Streak>) returns (text: string)
    requires ValidStreaks(streaks)
    ensures text == Join(Rendered(streaks), ", ")
  {
    text := "";
    var i := 0;
    while i < |streaks|
      invariant 0 <= i <= |streaks|
      invariant text == Join(Rendered(streaks[..i]), ", ")
      invariant (|text| == 0) == (i == 0)
    {
      assert streaks[..i + 1][..i] == streaks[..i];
      JoinSnoc(Rendered(streaks[..i]), RenderStreak(streaks[i]), ", ");
      if |text| > 0 {
        text := text + ", ";
      }
      text := text + [Letter(streaks[i].start)];
      if streaks[i].start != streaks[i].end {
        text := text + "-" + [Letter(streaks[i].end)];
      }
      i := i + 1;
    }
    assert streaks[..i] == streaks;
  }
}
