/** The shape of the count table and the scan-code parser of processCode:
    a code "{car}-{command}-{payload}" becomes a car number, a command and a
    payload, or is refused. */
module ScanCodes {
  import opened GoStrings

  const CarMax := 100
  const ClueNum := 26
  const ScannerMax := 20
  const EmergencyOffset := 0
  const ClueOffset := EmergencyOffset + ClueNum
  const TotalCol := ClueNum * 2 + 1 + EmergencyOffset

  /** One car's row of the count table: index 0 is the "scanned" flag,
      1..26 the emergencies, 27..52 the clues A..Z. */
  predicate IsRow(row: seq<bool>)
  {
    |row| == TotalCol
  }

  /** The whole count table, one row per car 0..99. */
  predicate IsTable(t: seq<seq<bool>>)
  {
    |t| == CarMax && forall i :: 0 <= i < |t| ==> IsRow(t[i])
  }

  /** What processCode makes of a code before acting on it. */
  datatype Parsed =
    | Blank                                        // the empty string
    | WrongFieldCount(fields: nat)                 // not exactly three '-'-separated fields
    | CarOutOfRange(number: int)                   // car number 100 or more
    | Code(car: nat, cmd: string, payload: string)
  {
    /** processCode's result: true for the empty string and for every
        three-field code with a car in range, whatever its command. */
    predicate Accepted()
    {
      Blank? || Code?
    }
  }

  function Parse(code: string): (p: Parsed)
    ensures p.Code? ==> p.car < CarMax && '-' !in p.cmd && '-' !in p.payload
  {
    if |code| == 0 then Blank
    else
      var fields := Split(code, '-');
      if |fields| != 3 then WrongFieldCount(|fields|)
      else
        var car := Atoi(fields[0]);
        if car >= CarMax then CarOutOfRange(car)
        else Code(car, fields[1], fields[2])
  }

  /** A code as a scanner prints it. */
  function FormatCode(car: nat, cmd: string, payload: string): string
  {
    Itoa(car) + "-" + cmd + "-" + payload
  }

  /** Parsing a printed code gives back its car, command and payload, or
      refuses a car number of 100 or more. */
  lemma ParseFormatCode(car: nat, cmd: string, payload: string)
    requires '-' !in cmd && '-' !in payload
    ensures Parse(FormatCode(car, cmd, payload))
      == if car < CarMax then Code(car, cmd, payload) else CarOutOfRange(car)
  {
    var parts := [Itoa(car), cmd, payload];
    assert parts[1..] == [cmd, payload];
    assert Join(parts[1..], "-") == cmd + "-" + payload;
    assert Join(parts, "-") == FormatCode(car, cmd, payload);
    SplitJoin(parts, '-');
    AtoiItoa(car);
  }

  /** The codes processCode refuses: not the empty string, and either not
      three fields or a car number of 100 or more. */
  lemma ParseRefuses(code: string)
    ensures !Parse(code).Accepted() <==>
      |code| > 0 && (|Split(code, '-')| != 3 || Atoi(Split(code, '-')[0]) >= CarMax)
  {
  }

  /** A clue scan as a scanner prints it. */
  lemma ParseClueExample()
    ensures Parse("5-CL-A") == Code(5, "CL", "A")
  {
    ParseFormatCode(5, "CL", "A");
    assert FormatCode(5, "CL", "A") == "5-CL-A";
  }

  /** A code of two fields is refused. */
  lemma ParseTwoFieldsExample()
    ensures Parse("5-BADCMD") == WrongFieldCount(2)
  {
    SplitNoSeparator("BADCMD", '-');
    SplitAfterPiece("5", '-', "BADCMD");
    assert "5-BADCMD" == "5" + ['-'] + "BADCMD";
  }

  /** Car 100 is past the table. */
  lemma ParseCar100Example()
    ensures Parse("100-CL-A") == CarOutOfRange(100)
  {
    ParseFormatCode(100, "CL", "A");
    assert Itoa(100) == "100" by {
      assert Itoa(10) == "10";
    }
    assert FormatCode(100, "CL", "A") == "100-CL-A";
  }

  /** The column a CL code sets: Go computes clueOffset + (c - 64) in byte
      arithmetic on the first byte of the payload. */
  function ClueIndex(c: char): nat
  {
    (ClueOffset + (Utf8LeadByte(c) as int - 64) % 256) % 256
  }

  /** The letters A..Z select the clue columns 27..52; the other characters
      that do not make Go index past the row are '&'..'@', which select the
      columns 0..26. */
  lemma ClueIndexRange(c: char)
    ensures ClueIndex(c) < TotalCol <==> '&' <= c <= 'Z'
    ensures '&' <= c <= 'Z' ==> ClueIndex(c) == c as int - 38
    ensures 'A' <= c <= 'Z' ==> ClueIndex(c) == ClueOffset + (c as int - 64)
  {
    var b: int := Utf8LeadByte(c);
    if b >= 64 {
      assert (b - 64) % 256 == b - 64;
      assert ClueIndex(c) == b - 38;
    } else {
      assert (b - 64) % 256 == b + 192;
      if b >= 38 {
        assert ClueIndex(c) == b - 38;
      } else {
        assert ClueIndex(c) == b + 218;
      }
    }
  }

  /** The codes that make processCode index past the end of a row: a CL code
      with an empty payload or a first character outside '&'..'Z', and an EM
      code whose payload reads as 53 or more.  Go stops the program there. */
  predicate Panics(p: Parsed)
  {
    p.Code? &&
    ((p.cmd == "CL" && (|p.payload| == 0 || ClueIndex(p.payload[0]) >= TotalCol))
     || (p.cmd == "EM" && Atoi(p.payload) >= TotalCol))
  }
}
