/** The count store as a value: the table, the scan times, the check-in and
    check-out times, the scanner records and the quit flag; what one call of
    processCode does to it (Process), what one chunk read by a worker does
    (Ingest), and a worker's run over a sequence of read results (Run). */
module StoreModel {
  import opened GoStrings
  import opened ScanCodes

  datatype Option<T> = None | Some(value: T)

  /** A car's check-in and check-out times; 0 stands for Go's zero time. */
  datatype CarTime = CarTime(checkOut: int, checkIn: int)

  const NoTimes := CarTime(0, 0)

  datatype ScannerData = ScannerData(scannerNum: int, scanCount: int, lastScanTime: int)

  datatype State = State(
    table: seq<seq<bool>>,
    scanTime: seq<int>,
    thTimes: seq<CarTime>,
    scanners: seq<ScannerData>,
    quit: bool)

  predicate WellFormed(s: State)
  {
    IsTable(s.table) && |s.scanTime| == CarMax && |s.thTimes| == CarMax && |s.scanners| == ScannerMax
  }

  function EmptyRow(): (r: seq<bool>)
    ensures IsRow(r)
  {
    seq(TotalCol, _ => false)
  }

  function EmptyTable(): (t: seq<seq<bool>>)
    ensures IsTable(t)
  {
    seq(CarMax, _ => EmptyRow())
  }

  function ZeroTimes(): seq<CarTime>
  {
    seq(CarMax, _ => NoTimes)
  }

  /** The store as the program starts without saved state: nothing scanned,
      every time zero, every scanner record zero. */
  function Initial(): (s: State)
    ensures WellFormed(s)
  {
    State(EmptyTable(), seq(CarMax, _ => 0), ZeroTimes(), seq(ScannerMax, _ => ScannerData(0, 0, 0)), false)
  }

  function SetBit(t: seq<seq<bool>>, car: nat, j: nat): (r: seq<seq<bool>>)
    requires IsTable(t) && car < CarMax && j < TotalCol
    ensures IsTable(r)
  {
    t[car := t[car][j := true]]
  }

  /** The switch of processCode, after the flag of car has been set; mode is
      the operating mode given on the command line. */
  function Dispatch(s: State, mode: string, car: nat, cmd: string, payload: string, now: int): (r: State)
    requires WellFormed(s) && car < CarMax && '-' !in payload && !Panics(Code(car, cmd, payload))
    ensures WellFormed(r)
  {
    if cmd == "QUIT" then s.(quit := true)
    else if cmd == "CLEAR" then
      if car == 0 then s.(table := EmptyTable(), thTimes := ZeroTimes())
      else s.(table := s.table[car := EmptyRow()])
    else if cmd == "CL" then
      s.(table := SetBit(s.table, car, ClueIndex(payload[0])), scanTime := s.scanTime[car := now])
    else if cmd == "EM" then
      assert |payload| == 0 || payload[0] in payload;
      s.(table := SetBit(s.table, car, Atoi(payload)), scanTime := s.scanTime[car := now])
    else if cmd == "CA" && mode == "checkin" then
      s.(thTimes := s.thTimes[car := s.thTimes[car].(checkIn := now)])
    else if cmd == "CA" && mode == "checkout" then
      s.(thTimes := s.thTimes[car := s.thTimes[car].(checkOut := now)])
    else s
  }

  /** processCode: the new state and the result it returns. */
  function Process(s: State, mode: string, code: string, now: int): (r: (State, bool))
    requires WellFormed(s) && !Panics(Parse(code))
    ensures WellFormed(r.0)
  {
    match Parse(code)
    case Code(car, cmd, payload) =>
      (Dispatch(s.(table := SetBit(s.table, car, 0)), mode, car, cmd, payload, now), true)
    case _ => (s, Parse(code).Accepted())
  }

  /** The empty code is accepted and changes nothing. */
  lemma ProcessEmpty(s: State, mode: string, now: int)
    requires WellFormed(s)
    ensures Process(s, mode, "", now) == (s, true)
  {
  }

  /** A code that is not three fields, or names a car of 100 or more, is
      refused and changes nothing. */
  lemma ProcessRefused(s: State, mode: string, code: string, now: int)
    requires WellFormed(s)
    requires |code| > 0 && (|Split(code, '-')| != 3 || Atoi(Split(code, '-')[0]) >= CarMax)
    ensures Process(s, mode, code, now) == (s, false)
  {
  }

  /** A code of two fields is refused and changes nothing. */
  lemma ProcessRefusesTwoFields(s: State, mode: string, now: int)
    requires WellFormed(s)
    ensures Process(s, mode, "5-BADCMD", now) == (s, false)
  {
    ParseTwoFieldsExample();
  }

  /** Car 100 is refused and changes nothing. */
  lemma ProcessRefusesCar100(s: State, mode: string, now: int)
    requires WellFormed(s)
    ensures Process(s, mode, "100-CL-A", now) == (s, false)
  {
    ParseCar100Example();
  }

  /** Every code that names a car in range is accepted and, except CLEAR,
      leaves that car's flag set. */
  lemma ProcessSetsFlag(s: State, mode: string, code: string, now: int)
    requires WellFormed(s) && !Panics(Parse(code)) && Parse(code).Code?
    ensures Process(s, mode, code, now).1
    ensures Parse(code).cmd != "CLEAR" ==> Process(s, mode, code, now).0.table[Parse(code).car][0]
  {
  }

  /** Unknown commands, SAVE, STATUS and CA outside check-in and check-out
      mode set the car's flag and change nothing else. */
  lemma ProcessOnlyFlags(s: State, mode: string, code: string, now: int)
    requires WellFormed(s) && Parse(code).Code?
    requires Parse(code).cmd !in {"QUIT", "CLEAR", "CL", "EM"}
    requires Parse(code).cmd == "CA" ==> mode != "checkin" && mode != "checkout"
    ensures Process(s, mode, code, now) == (s.(table := SetBit(s.table, Parse(code).car, 0)), true)
  {
  }

  /** QUIT sets the car's flag and the quit flag. */
  lemma ProcessQuit(s: State, mode: string, code: string, now: int)
    requires WellFormed(s) && Parse(code).Code? && Parse(code).cmd == "QUIT"
    ensures Process(s, mode, code, now) == (s.(table := SetBit(s.table, Parse(code).car, 0), quit := true), true)
  {
  }

  /** CA in check-in (check-out) mode sets the car's flag and stamps its
      check-in (check-out) time and nothing else. */
  lemma ProcessCheckInOut(s: State, mode: string, code: string, now: int)
    requires WellFormed(s) && Parse(code).Code? && Parse(code).cmd == "CA"
    requires mode == "checkin" || mode == "checkout"
    ensures var car := Parse(code).car;
      var times := s.thTimes[car];
      Process(s, mode, code, now) ==
        (s.(table := SetBit(s.table, car, 0),
            thTimes := s.thTimes[car := if mode == "checkin" then times.(checkIn := now) else times.(checkOut := now)]),
         true)
  {
  }

  /** A bit of the table after the call: the old bit, or one of the bits
      the call sets. */
  predicate OnlySets(before: seq<seq<bool>>, after: seq<seq<bool>>, car: nat, j: nat)
    requires IsTable(before) && IsTable(after)
  {
    forall i, k :: 0 <= i < CarMax && 0 <= k < TotalCol ==>
      after[i][k] == (before[i][k] || (i == car && (k == 0 || k == j)))
  }

  /** CL with a letter L in A..Z sets exactly the car's flag and its bit
      26 + (L - 64), and stamps the car's scan time. */
  lemma ProcessClue(s: State, mode: string, code: string, now: int)
    requires WellFormed(s) && Parse(code).Code? && Parse(code).cmd == "CL"
    requires |Parse(code).payload| > 0 && 'A' <= Parse(code).payload[0] <= 'Z'
    ensures var car, r := Parse(code).car, Process(s, mode, code, now).0;
      OnlySets(s.table, r.table, car, ClueOffset + (Parse(code).payload[0] as int - 64))
      && r == s.(table := r.table, scanTime := s.scanTime[car := now])
  {
    ClueIndexRange(Parse(code).payload[0]);
  }

  /** EM with a payload that reads as n < 53 sets exactly the car's flag and
      its bit n, and stamps the car's scan time; a clue bit when n > 26. */
  lemma ProcessEmergency(s: State, mode: string, code: string, now: int)
    requires WellFormed(s) && !Panics(Parse(code)) && Parse(code).Code? && Parse(code).cmd == "EM"
    ensures var car, r := Parse(code).car, Process(s, mode, code, now).0;
      OnlySets(s.table, r.table, car, Atoi(Parse(code).payload))
      && r == s.(table := r.table, scanTime := s.scanTime[car := now])
  {
  }

  /** CLEAR for car 0 empties the whole table (car 0's flag included) and
      every check-in and check-out time, and keeps scan times and scanners. */
  lemma ProcessClearAll(s: State, mode: string, code: string, now: int)
    requires WellFormed(s) && Parse(code).Code? && Parse(code).cmd == "CLEAR" && Parse(code).car == 0
    ensures Process(s, mode, code, now) == (s.(table := EmptyTable(), thTimes := ZeroTimes()), true)
  {
  }

  /** CLEAR for another car empties that car's row, flag included, and
      changes nothing else. */
  lemma ProcessClearCar(s: State, mode: string, code: string, now: int)
    requires WellFormed(s) && Parse(code).Code? && Parse(code).cmd == "CLEAR" && Parse(code).car != 0
    ensures Process(s, mode, code, now) == (s.(table := s.table[Parse(code).car := EmptyRow()]), true)
  {
    var car := Parse(code).car;
    assert SetBit(s.table, car, 0)[car := EmptyRow()] == s.table[car := EmptyRow()];
  }

  /** What a code other than CLEAR for car 0 does to its own car: the new
      row, scan time and check times. */
  function CarEffect(row: seq<bool>, scan: int, times: CarTime, mode: string, cmd: string, payload: string, now: int): (r: (seq<bool>, int, CarTime))
    requires IsRow(row) && '-' !in payload && !Panics(Code(0, cmd, payload))
    ensures IsRow(r.0)
  {
    var flagged := row[0 := true];
    if cmd == "CLEAR" then (EmptyRow(), scan, times)
    else if cmd == "CL" then (flagged[ClueIndex(payload[0]) := true], now, times)
    else if cmd == "EM" then
      assert |payload| == 0 || payload[0] in payload;
      (flagged[Atoi(payload) := true], now, times)
    else if cmd == "CA" && mode == "checkin" then (flagged, scan, times.(checkIn := now))
    else if cmd == "CA" && mode == "checkout" then (flagged, scan, times.(checkOut := now))
    else (flagged, scan, times)
  }

  /** Except CLEAR for car 0, a code acts on its own car's row, scan time and
      check times alone, and QUIT also sets the quit flag. */
  lemma ProcessLocal(s: State, mode: string, code: string, now: int)
    requires WellFormed(s) && !Panics(Parse(code)) && Parse(code).Code?
    requires Parse(code).cmd == "CLEAR" ==> Parse(code).car != 0
    ensures var p := Parse(code);
      var e := CarEffect(s.table[p.car], s.scanTime[p.car], s.thTimes[p.car], mode, p.cmd, p.payload, now);
      Process(s, mode, code, now) ==
        (s.(table := s.table[p.car := e.0], scanTime := s.scanTime[p.car := e.1],
            thTimes := s.thTimes[p.car := e.2], quit := s.quit || p.cmd == "QUIT"), true)
  {
    var p := Parse(code);
    var e := CarEffect(s.table[p.car], s.scanTime[p.car], s.thTimes[p.car], mode, p.cmd, p.payload, now);
    var r := Process(s, mode, code, now).0;
    var flagged := s.table[p.car := s.table[p.car][0 := true]];
    if p.cmd == "CLEAR" {
      assert r.table == flagged[p.car := EmptyRow()];
    } else if p.cmd == "CL" {
      assert r.table == flagged[p.car := flagged[p.car][ClueIndex(p.payload[0]) := true]];
    } else if p.cmd == "EM" {
      assert r.table == flagged[p.car := flagged[p.car][Atoi(p.payload) := true]];
    } else {
      assert r.table == flagged;
    }
    assert r.table == s.table[p.car := e.0];
    assert r.scanTime == s.scanTime[p.car := e.1];
    assert r.thTimes == s.thTimes[p.car := e.2];
    assert r.quit == (s.quit || p.cmd == "QUIT");
    assert r.scanners == s.scanners;
  }

  /** A car's effect, applied again at the same time, changes nothing more. */
  lemma CarEffectIdempotent(row: seq<bool>, scan: int, times: CarTime, mode: string, cmd: string, payload: string, now: int)
    requires IsRow(row) && '-' !in payload && !Panics(Code(0, cmd, payload))
    ensures var e := CarEffect(row, scan, times, mode, cmd, payload, now);
      CarEffect(e.0, e.1, e.2, mode, cmd, payload, now) == e
  {
    var e := CarEffect(row, scan, times, mode, cmd, payload, now);
    assert CarEffect(e.0, e.1, e.2, mode, cmd, payload, now).0 == e.0;
  }

  /** Applying a code a second time (at the same time) changes nothing more. */
  lemma ProcessIdempotent(s: State, mode: string, code: string, now: int)
    requires WellFormed(s) && !Panics(Parse(code))
    ensures var once := Process(s, mode, code, now);
      Process(once.0, mode, code, now) == once
  {
    match Parse(code)
    case Code(car, cmd, payload) =>
      var once := Process(s, mode, code, now).0;
      if cmd == "CLEAR" && car == 0 {
        assert SetBit(EmptyTable(), car, 0)[car := EmptyRow()] == EmptyTable();
      } else {
        ProcessLocal(s, mode, code, now);
        ProcessLocal(once, mode, code, now);
        CarEffectIdempotent(s.table[car], s.scanTime[car], s.thTimes[car], mode, cmd, payload, now);
        var e := CarEffect(s.table[car], s.scanTime[car], s.thTimes[car], mode, cmd, payload, now);
        assert s.table[car := e.0][car := e.0] == s.table[car := e.0];
        assert s.scanTime[car := e.1][car := e.1] == s.scanTime[car := e.1];
        assert s.thTimes[car := e.2][car := e.2] == s.thTimes[car := e.2];
      }
    case _ =>
  }

  /** Re-applying a code at a later time leaves the table as after the first
      application. */
  lemma ProcessIdempotentTable(s: State, mode: string, code: string, t1: int, t2: int)
    requires WellFormed(s) && !Panics(Parse(code))
    ensures var once := Process(s, mode, code, t1).0;
      Process(once, mode, code, t2).0.table == once.table
  {
    match Parse(code)
    case Code(car, cmd, payload) =>
      var once := Process(s, mode, code, t1).0;
      if cmd == "CLEAR" && car == 0 {
        assert SetBit(EmptyTable(), car, 0)[car := EmptyRow()] == EmptyTable();
      } else {
        ProcessLocal(s, mode, code, t1);
        ProcessLocal(once, mode, code, t2);
        var e := CarEffect(s.table[car], s.scanTime[car], s.thTimes[car], mode, cmd, payload, t1);
        var e2 := CarEffect(e.0, e.1, e.2, mode, cmd, payload, t2);
        assert e2.0 == e.0;
        assert s.table[car := e.0][car := e.0] == s.table[car := e.0];
      }
    case _ =>
  }

  /** processCode returns true exactly for the codes it accepts. */
  lemma ProcessResult(s: State, mode: string, code: string, now: int)
    requires WellFormed(s) && !Panics(Parse(code))
    ensures Process(s, mode, code, now).1 <==> Parse(code).Accepted()
  {
  }

  /** No code changes the scanner records. */
  lemma ProcessKeepsScanners(s: State, mode: string, code: string, now: int)
    requires WellFormed(s) && !Panics(Parse(code))
    ensures Process(s, mode, code, now).0.scanners == s.scanners
  {
  }

  /** Except CLEAR for car 0, a code changes only its own car's row, scan
      time and check times. */
  lemma ProcessFrame(s: State, mode: string, code: string, now: int)
    requires WellFormed(s) && !Panics(Parse(code)) && Parse(code).Code?
    requires Parse(code).cmd == "CLEAR" ==> Parse(code).car != 0
    ensures var car, r := Parse(code).car, Process(s, mode, code, now).0;
      forall i :: 0 <= i < CarMax && i != car ==>
        r.table[i] == s.table[i] && r.scanTime[i] == s.scanTime[i] && r.thTimes[i] == s.thTimes[i]
  {
    ProcessLocal(s, mode, code, now);
  }

  /** Except CLEAR, no code unsets a bit. */
  lemma ProcessMonotone(s: State, mode: string, code: string, now: int)
    requires WellFormed(s) && !Panics(Parse(code))
    requires Parse(code).Code? ==> Parse(code).cmd != "CLEAR"
    ensures var r := Process(s, mode, code, now).0;
      forall i, j :: 0 <= i < CarMax && 0 <= j < TotalCol && s.table[i][j] ==> r.table[i][j]
  {
  }

  /** Codes for two different cars, neither of them CLEAR for car 0, give
      the same state in either order. */
  lemma ProcessCommutes(s: State, mode: string, c1: string, t1: int, c2: string, t2: int)
    requires WellFormed(s) && !Panics(Parse(c1)) && !Panics(Parse(c2))
    requires Parse(c1).Code? && Parse(c2).Code? && Parse(c1).car != Parse(c2).car
    requires Parse(c1).cmd == "CLEAR" ==> Parse(c1).car != 0
    requires Parse(c2).cmd == "CLEAR" ==> Parse(c2).car != 0
    ensures Process(Process(s, mode, c1, t1).0, mode, c2, t2).0 == Process(Process(s, mode, c2, t2).0, mode, c1, t1).0
  {
    var p1, p2 := Parse(c1), Parse(c2);
    var a, b := p1.car, p2.car;
    var s1 := Process(s, mode, c1, t1).0;
    var s2 := Process(s, mode, c2, t2).0;
    ProcessLocal(s, mode, c1, t1);
    ProcessLocal(s, mode, c2, t2);
    ProcessLocal(s1, mode, c2, t2);
    ProcessLocal(s2, mode, c1, t1);
    var e1 := CarEffect(s.table[a], s.scanTime[a], s.thTimes[a], mode, p1.cmd, p1.payload, t1);
    var e2 := CarEffect(s.table[b], s.scanTime[b], s.thTimes[b], mode, p2.cmd, p2.payload, t2);
    assert s.table[a := e1.0][b := e2.0] == s.table[b := e2.0][a := e1.0];
    assert s.scanTime[a := e1.1][b := e2.1] == s.scanTime[b := e2.1][a := e1.1];
    assert s.thTimes[a := e1.2][b := e2.2] == s.thTimes[b := e2.2][a := e1.2];
  }

  /** Every row with a set bit has its flag set. */
  predicate FlagsCover(t: seq<seq<bool>>)
    requires IsTable(t)
  {
    forall i, j :: 0 <= i < CarMax && 0 <= j < TotalCol && t[i][j] ==> t[i][0]
  }

  lemma EmptyTableFlagsCover()
    ensures FlagsCover(EmptyTable())
  {
  }

  /** Every code keeps it so, which makes it hold of every table reached
      from an empty one. */
  lemma ProcessKeepsFlagsCover(s: State, mode: string, code: string, now: int)
    requires WellFormed(s) && !Panics(Parse(code)) && FlagsCover(s.table)
    ensures FlagsCover(Process(s, mode, code, now).0.table)
  {
    match Parse(code)
    case Code(car, cmd, payload) =>
      var r := Process(s, mode, code, now).0;
      if cmd == "CLEAR" && car == 0 {
        assert r.table == EmptyTable();
      } else {
        forall i, j | 0 <= i < CarMax && 0 <= j < TotalCol && r.table[i][j]
          ensures r.table[i][0]
        {
          if i != car {
            assert r.table[i] == s.table[i];
          }
        }
      }
    case _ =>
  }

  /** One result of s.Read: a chunk of text (read at time at), the end of
      the input, or another error. */
  datatype ReadResult = Bytes(chunk: string, at: int) | Eof | ReadFailure

  /** The codes of a chunk, trimmed, as the worker feeds them. */
  predicate PiecesSafe(pieces: seq<string>)
    decreases |pieces|
  {
    |pieces| == 0
    || (PiecesSafe(pieces[..|pieces| - 1]) && !Panics(Parse(TrimSpace(pieces[|pieces| - 1]))))
  }

  /** A prefix of safe pieces is safe, and so is each piece. */
  lemma {:induction false} PiecesSafePrefix(pieces: seq<string>, n: nat)
    requires PiecesSafe(pieces) && n <= |pieces|
    ensures PiecesSafe(pieces[..n])
    ensures n < |pieces| ==> !Panics(Parse(TrimSpace(pieces[n])))
    decreases |pieces|
  {
    if n == |pieces| {
      assert pieces[..n] == pieces;
    } else {
      var init := pieces[..|pieces| - 1];
      if n < |pieces| - 1 {
        PiecesSafePrefix(init, n);
        assert init[..n] == pieces[..n] && init[n] == pieces[n];
      } else {
        assert pieces[..n] == init;
      }
    }
  }

  function CountScan(s: State, id: nat): (r: State)
    requires WellFormed(s) && id < ScannerMax
    ensures WellFormed(r)
  {
    s.(scanners := s.scanners[id := s.scanners[id].(scanCount := s.scanners[id].scanCount + 1)])
  }

  /** One piece of a chunk: trimmed and processed, and the scanner's count
      raised when processCode accepts it. */
  function FeedOne(s: State, mode: string, id: nat, piece: string, now: int): (r: State)
    requires WellFormed(s) && id < ScannerMax && !Panics(Parse(TrimSpace(piece)))
    ensures WellFormed(r)
    ensures var bump := if Parse(TrimSpace(piece)).Accepted() then 1 else 0;
      r.scanners == s.scanners[id := s.scanners[id].(scanCount := s.scanners[id].scanCount + bump)]
    ensures FlagsCover(s.table) ==> FlagsCover(r.table)
  {
    var code := TrimSpace(piece);
    ProcessKeepsScanners(s, mode, code, now);
    ProcessResult(s, mode, code, now);
    assert FlagsCover(s.table) ==> FlagsCover(Process(s, mode, code, now).0.table) by {
      if FlagsCover(s.table) { ProcessKeepsFlagsCover(s, mode, code, now); }
    }
    var (after, valid) := Process(s, mode, code, now);
    if valid then CountScan(after, id) else after
  }

  /** The number of pieces processCode accepts. */
  function AcceptedCount(pieces: seq<string>): nat
    decreases |pieces|
  {
    if |pieces| == 0 then 0
    else AcceptedCount(pieces[..|pieces| - 1]) + (if Parse(TrimSpace(pieces[|pieces| - 1])).Accepted() then 1 else 0)
  }

  /** The worker's loop over the pieces of a chunk.  It raises this
      scanner's count by the number of accepted pieces, leaves the other
      scanners alone, and keeps every set bit covered by its car's flag. */
  function Feed(s: State, mode: string, id: nat, pieces: seq<string>, now: int): (r: State)
    requires WellFormed(s) && id < ScannerMax && PiecesSafe(pieces)
    ensures WellFormed(r)
    ensures r.scanners == s.scanners[id := s.scanners[id].(scanCount := s.scanners[id].scanCount + AcceptedCount(pieces))]
    ensures FlagsCover(s.table) ==> FlagsCover(r.table)
    decreases |pieces|
  {
    if |pieces| == 0 then
      assert s.scanners[id := s.scanners[id].(scanCount := s.scanners[id].scanCount + 0)] == s.scanners;
      s
    else
      var init, last := pieces[..|pieces| - 1], pieces[|pieces| - 1];
      BumpTwice(s.scanners, id, AcceptedCount(init), if Parse(TrimSpace(last)).Accepted() then 1 else 0);
      FeedOne(Feed(s, mode, id, init, now), mode, id, last, now)
  }

  lemma BumpTwice(scanners: seq<ScannerData>, id: nat, a: int, b: int)
    requires id < |scanners|
    ensures var m := scanners[id := scanners[id].(scanCount := scanners[id].scanCount + a)];
      m[id := m[id].(scanCount := m[id].scanCount + b)]
        == scanners[id := scanners[id].(scanCount := scanners[id].scanCount + (a + b))]
  {
    var m := scanners[id := scanners[id].(scanCount := scanners[id].scanCount + a)];
    assert m[id := m[id].(scanCount := m[id].scanCount + b)]
        == scanners[id := scanners[id].(scanCount := scanners[id].scanCount + (a + b))];
  }

  /** The text a worker carries to the next chunk: nothing when the last
      piece was accepted, else that piece trimmed (a code cut off by the
      read). */
  function Carry(pieces: seq<string>): string
    requires |pieces| > 0
  {
    var last := TrimSpace(pieces[|pieces| - 1]);
    if Parse(last).Accepted() then "" else last
  }

  /** A chunk that ends with a newline carries nothing to the next one. */
  lemma CarryAfterNewline(lastVal: string, chunk: string)
    requires |chunk| > 0 && chunk[|chunk| - 1] == '\n'
    ensures Carry(Split(lastVal + chunk, '\n')) == ""
  {
    var text := lastVal + chunk;
    assert text[|text| - 1] == '\n';
    SplitLastAfterSep(text, '\n');
  }

  /** Carried text is a single line that processCode refused. */
  lemma CarryRefused(lastVal: string, chunk: string)
    ensures Carry(Split(lastVal + chunk, '\n')) == ""
      || ('\n' !in Carry(Split(lastVal + chunk, '\n')) && !Parse(Carry(Split(lastVal + chunk, '\n'))).Accepted())
  {
    var pieces := Split(lastVal + chunk, '\n');
    assert '\n' !in pieces[|pieces| - 1];
    CarryOneLine(pieces);
  }

  lemma CarryOneLine(pieces: seq<string>)
    requires |pieces| > 0 && '\n' !in pieces[|pieces| - 1]
    ensures Carry(pieces) == "" || ('\n' !in Carry(pieces) && !Parse(Carry(pieces)).Accepted())
  {
    TrimSpaceWithin(pieces[|pieces| - 1]);
  }

  /** One successful read of a non-empty chunk: the scanner's last scan time,
      then the carried text and the chunk split on newlines and fed piece
      by piece (pieces is the split of the carried text and the chunk on
      newlines); the text carried on is Carry of the same pieces.  The
      reading scanner's count rises by the number of accepted pieces and
      its last scan time becomes now; the other scanners stay as they were. */
  function Ingest(s: State, mode: string, id: nat, pieces: seq<string>, now: int): (r: State)
    requires WellFormed(s) && id < ScannerMax && PiecesSafe(pieces)
    ensures WellFormed(r)
    ensures r.scanners == s.scanners[id := ScannerData(s.scanners[id].scannerNum, s.scanners[id].scanCount + AcceptedCount(pieces), now)]
    ensures FlagsCover(s.table) ==> FlagsCover(r.table)
  {
    StampThenCount(s.scanners, id, AcceptedCount(pieces), now);
    Feed(s.(scanners := s.scanners[id := s.scanners[id].(lastScanTime := now)]), mode, id, pieces, now)
  }

  lemma StampThenCount(scanners: seq<ScannerData>, id: nat, n: int, now: int)
    requires id < |scanners|
    ensures var m := scanners[id := scanners[id].(lastScanTime := now)];
      m[id := m[id].(scanCount := m[id].scanCount + n)]
        == scanners[id := ScannerData(scanners[id].scannerNum, scanners[id].scanCount + n, now)]
  {
    var m := scanners[id := scanners[id].(lastScanTime := now)];
    assert m[id := m[id].(scanCount := m[id].scanCount + n)]
        == scanners[id := ScannerData(scanners[id].scannerNum, scanners[id].scanCount + n, now)];
  }

  /** What a worker has when it stops or runs out of read results. */
  datatype WorkerEnd = WorkerEnd(state: State, errorCount: nat, lastVal: string)

  /** The worker loop from the given state: it stops when quit is set, and
      sets quit and stops after more than 10 consecutive failed reads; EOF
      is ignored, a successful read resets the error count, and an empty
      chunk is skipped.  None: a chunk holds a code that makes Go panic. */
  function Run(s: State, mode: string, id: nat, results: seq<ReadResult>, errorCount: nat, lastVal: string): (r: Option<WorkerEnd>)
    requires WellFormed(s) && id < ScannerMax
    ensures r.Some? ==> WellFormed(r.value.state)
    decreases |results|
  {
    if s.quit then Some(WorkerEnd(s, errorCount, lastVal))
    else if errorCount > 10 then Some(WorkerEnd(s.(quit := true), errorCount, lastVal))
    else if |results| == 0 then Some(WorkerEnd(s, errorCount, lastVal))
    else
      match results[0]
      case Eof => Run(s, mode, id, results[1..], errorCount, lastVal)
      case ReadFailure => Run(s, mode, id, results[1..], errorCount + 1, lastVal)
      case Bytes(chunk, now) =>
        if |chunk| == 0 then Run(s, mode, id, results[1..], 0, lastVal)
        else if !PiecesSafe(Split(lastVal + chunk, '\n')) then None
        else
          var pieces := Split(lastVal + chunk, '\n');
          Run(Ingest(s, mode, id, pieces, now), mode, id, results[1..], 0, Carry(pieces))
  }

  /** worker: record the scanner's number, then run with no errors and
      nothing carried. */
  function Worker(s: State, mode: string, id: nat, results: seq<ReadResult>): Option<WorkerEnd>
    requires WellFormed(s) && id < ScannerMax
  {
    Run(s.(scanners := s.scanners[id := s.scanners[id].(scannerNum := id)]), mode, id, results, 0, "")
  }

  function Failures(n: nat): (r: seq<ReadResult>)
    ensures |r| == n && forall k :: 0 <= k < n ==> r[k] == ReadFailure
  {
    seq(n, _ => ReadFailure)
  }

  /** Failed reads only raise the error count, while it stays at most 10. */
  lemma {:induction false} FailuresCount(s: State, mode: string, id: nat, n: nat, rest: seq<ReadResult>, errorCount: nat, lastVal: string)
    requires WellFormed(s) && id < ScannerMax && !s.quit
    requires errorCount + n <= 11
    ensures Run(s, mode, id, Failures(n) + rest, errorCount, lastVal) == Run(s, mode, id, rest, errorCount + n, lastVal)
    decreases n
  {
    if n == 0 {
      assert Failures(n) + rest == rest;
    } else {
      assert (Failures(n) + rest)[0] == ReadFailure;
      assert (Failures(n) + rest)[1..] == Failures(n - 1) + rest;
      FailuresCount(s, mode, id, n - 1, rest, errorCount + 1, lastVal);
    }
  }

  /** Eleven failed reads in a row set quit and stop the worker, whatever
      would have come next. */
  lemma ElevenFailuresQuit(s: State, mode: string, id: nat, rest: seq<ReadResult>, lastVal: string)
    requires WellFormed(s) && id < ScannerMax && !s.quit
    ensures Run(s, mode, id, Failures(11) + rest, 0, lastVal) == Some(WorkerEnd(s.(quit := true), 11, lastVal))
  {
    FailuresCount(s, mode, id, 11, rest, 0, lastVal);
  }

  /** Up to ten failed reads followed by a successful one leave no trace:
      the error count starts again from 0. */
  lemma SuccessResetsErrors(s: State, mode: string, id: nat, n: nat, now: int, rest: seq<ReadResult>, lastVal: string)
    requires WellFormed(s) && id < ScannerMax && !s.quit && n <= 10
    ensures Run(s, mode, id, Failures(n) + [Bytes("", now)] + rest, 0, lastVal) == Run(s, mode, id, rest, 0, lastVal)
  {
    assert Failures(n) + [Bytes("", now)] + rest == Failures(n) + ([Bytes("", now)] + rest);
    FailuresCount(s, mode, id, n, [Bytes("", now)] + rest, 0, lastVal);
    assert ([Bytes("", now)] + rest)[1..] == rest;
  }

  /** Up to ten failed reads followed by a read with data: the chunk is
      ingested and the error count starts again from 0. */
  lemma NonEmptyReadResets(s: State, mode: string, id: nat, n: nat, chunk: string, now: int, rest: seq<ReadResult>, lastVal: string)
    requires WellFormed(s) && id < ScannerMax && !s.quit && n <= 10
    requires |chunk| > 0 && PiecesSafe(Split(lastVal + chunk, '\n'))
    ensures var pieces := Split(lastVal + chunk, '\n');
      Run(s, mode, id, Failures(n) + [Bytes(chunk, now)] + rest, 0, lastVal)
        == Run(Ingest(s, mode, id, pieces, now), mode, id, rest, 0, Carry(pieces))
  {
    assert Failures(n) + [Bytes(chunk, now)] + rest == Failures(n) + ([Bytes(chunk, now)] + rest);
    FailuresCount(s, mode, id, n, [Bytes(chunk, now)] + rest, 0, lastVal);
    assert ([Bytes(chunk, now)] + rest)[1..] == rest;
  }

  /** An EOF leaves everything as it was, the error count included: EOFs
      between failed reads do not reset it. */
  lemma EofIgnored(s: State, mode: string, id: nat, rest: seq<ReadResult>, errorCount: nat, lastVal: string)
    requires WellFormed(s) && id < ScannerMax
    ensures Run(s, mode, id, [Eof] + rest, errorCount, lastVal) == Run(s, mode, id, rest, errorCount, lastVal)
  {
    assert ([Eof] + rest)[1..] == rest;
  }

  /** A worker's run keeps every set bit covered by its car's flag. */
  lemma {:induction false} RunKeepsFlagsCover(s: State, mode: string, id: nat, results: seq<ReadResult>, errorCount: nat, lastVal: string)
    requires WellFormed(s) && id < ScannerMax && FlagsCover(s.table)
    requires Run(s, mode, id, results, errorCount, lastVal).Some?
    ensures FlagsCover(Run(s, mode, id, results, errorCount, lastVal).value.state.table)
    decreases |results|
  {
    if !s.quit && errorCount <= 10 && |results| > 0 {
      match results[0]
      case Eof => RunKeepsFlagsCover(s, mode, id, results[1..], errorCount, lastVal);
      case ReadFailure => RunKeepsFlagsCover(s, mode, id, results[1..], errorCount + 1, lastVal);
      case Bytes(chunk, now) =>
        if |chunk| == 0 {
          RunKeepsFlagsCover(s, mode, id, results[1..], 0, lastVal);
        } else {
          var pieces := Split(lastVal + chunk, '\n');
          RunKeepsFlagsCover(Ingest(s, mode, id, pieces, now), mode, id, results[1..], 0, Carry(pieces));
        }
    }
  }
}
