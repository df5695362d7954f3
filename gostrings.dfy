/** Models of the Go standard-library string operations that the scan-code
    handling relies on: strings.Split with a one-character separator, the
    ", "-joining the report loops do by hand, strings.TrimSpace,
    strconv.Atoi, strconv.Itoa, strings.ToLower on ASCII text, and the first
    byte of a character's UTF-8 encoding (what indexing a Go string yields). */
module GoStrings {

  /** strings.Split(s, string(sep)): the pieces of s between the
      separators, in order; the empty string splits into one empty piece. */
  function Split(s: string, sep: char): (r: seq<string>)
    ensures |r| >= 1
    ensures forall k :: 0 <= k < |r| ==> sep !in r[k]
    decreases |s|
  {
    if |s| == 0 then [""]
    else
      var rest := Split(s[1..], sep);
      if s[0] == sep then [""] + rest
      else [[s[0]] + rest[0]] + rest[1..]
  }

  /** The pieces written one after another with sep between neighbours. */
  function Join(parts: seq<string>, sep: string): string
    decreases |parts|
  {
    if |parts| == 0 then ""
    else if |parts| == 1 then parts[0]
    else parts[0] + sep + Join(parts[1..], sep)
  }

  /** Joining the pieces of a split gives back the string split. */
  lemma {:induction false} JoinSplit(s: string, sep: char)
    ensures Join(Split(s, sep), [sep]) == s
    decreases |s|
  {
    if |s| > 0 {
      var rest := Split(s[1..], sep);
      JoinSplit(s[1..], sep);
      if s[0] == sep {
        assert Split(s, sep) == [""] + rest;
        assert ([""] + rest)[1..] == rest;
      } else if |rest| == 1 {
        assert Split(s, sep) == [[s[0]] + rest[0]];
      } else {
        var parts := [[s[0]] + rest[0]] + rest[1..];
        assert Split(s, sep) == parts;
        assert parts[1..] == rest[1..];
        assert Join(rest, [sep]) == rest[0] + [sep] + Join(rest[1..], [sep]);
      }
    }
  }

  /** A string without the separator is a single piece. */
  lemma {:induction false} SplitNoSeparator(a: string, sep: char)
    requires sep !in a
    ensures Split(a, sep) == [a]
    decreases |a|
  {
    if |a| > 0 {
      SplitNoSeparator(a[1..], sep);
      assert [a[0]] + a[1..] == a;
    }
  }

  /** A separator preceded by a separator-free prefix ends the first piece. */
  lemma {:induction false} SplitAfterPiece(a: string, sep: char, b: string)
    requires sep !in a
    ensures Split(a + [sep] + b, sep) == [a] + Split(b, sep)
    decreases |a|
  {
    var s := a + [sep] + b;
    if |a| == 0 {
      assert s == [sep] + b;
      assert s[1..] == b;
    } else {
      assert s[1..] == a[1..] + [sep] + b;
      SplitAfterPiece(a[1..], sep, b);
      assert [a[0]] + a[1..] == a;
    }
  }

  /** A string that ends with the separator splits with an empty last
      piece. */
  lemma {:induction false} SplitLastAfterSep(s: string, sep: char)
    requires |s| > 0 && s[|s| - 1] == sep
    ensures var r := Split(s, sep); r[|r| - 1] == ""
    decreases |s|
  {
    var rest := Split(s[1..], sep);
    if |s| == 1 {
      assert s[1..] == "";
    } else {
      SplitLastAfterSep(s[1..], sep);
      JoinSplit(s[1..], sep);
    }
  }

  /** Splitting a join of separator-free pieces gives back the pieces. */
  lemma {:induction false} SplitJoin(parts: seq<string>, sep: char)
    requires |parts| >= 1
    requires forall k :: 0 <= k < |parts| ==> sep !in parts[k]
    ensures Split(Join(parts, [sep]), sep) == parts
    decreases |parts|
  {
    if |parts| == 1 {
      SplitNoSeparator(parts[0], sep);
    } else {
      SplitJoin(parts[1..], sep);
      SplitAfterPiece(parts[0], sep, Join(parts[1..], [sep]));
      assert [parts[0]] + parts[1..] == parts;
    }
  }

  /** Appending one more piece to a join. */
  lemma {:induction false} JoinSnoc(parts: seq<string>, x: string, sep: string)
    ensures Join(parts + [x], sep) == if |parts| == 0 then x else Join(parts, sep) + sep + x
    decreases |parts|
  {
    if |parts| >= 2 {
      assert (parts + [x])[1..] == parts[1..] + [x];
      JoinSnoc(parts[1..], x, sep);
    } else if |parts| == 1 {
      assert (parts + [x])[1..] == [x];
    }
  }

  /** A character the join introduces only through a piece or the separator. */
  lemma {:induction false} JoinAvoids(parts: seq<string>, sep: string, c: char)
    requires c !in sep
    requires forall k :: 0 <= k < |parts| ==> c !in parts[k]
    ensures c !in Join(parts, sep)
    decreases |parts|
  {
    if |parts| >= 2 {
      JoinAvoids(parts[1..], sep, c);
    }
  }

  /** unicode.IsSpace: the white-space characters strings.TrimSpace removes. */
  predicate IsSpace(c: char)
  {
    var n := c as int;
    n == 0x20 || (0x09 <= n <= 0x0D) || n == 0x85 || n == 0xA0 || n == 0x1680
    || (0x2000 <= n <= 0x200A) || n == 0x2028 || n == 0x2029 || n == 0x202F
    || n == 0x205F || n == 0x3000
  }

  /** Drops leading white space (see TrimLeftSuffix). */
  function TrimLeft(s: string): (r: string)
    ensures |r| <= |s|
    decreases |s|
  {
    if |s| > 0 && IsSpace(s[0]) then TrimLeft(s[1..]) else s
  }

  /** TrimLeft gives the suffix of s that starts at its first non-space
      character. */
  lemma {:induction false} TrimLeftSuffix(s: string)
    ensures var r := TrimLeft(s);
      r == s[|s| - |r|..]
      && (forall k :: 0 <= k < |s| - |r| ==> IsSpace(s[k]))
      && (|r| == 0 || !IsSpace(r[0]))
    decreases |s|
  {
    if |s| > 0 && IsSpace(s[0]) {
      TrimLeftSuffix(s[1..]);
    }
  }

  /** Drops trailing white space (see TrimRightPrefix). */
  function TrimRight(s: string): (r: string)
    ensures |r| <= |s|
    decreases |s|
  {
    if |s| > 0 && IsSpace(s[|s| - 1]) then TrimRight(s[..|s| - 1]) else s
  }

  /** TrimRight gives the prefix of s that ends at its last non-space
      character. */
  lemma {:induction false} TrimRightPrefix(s: string)
    ensures var r := TrimRight(s);
      r == s[..|r|]
      && (forall k :: |r| <= k < |s| ==> IsSpace(s[k]))
      && (|r| == 0 || !IsSpace(r[|r| - 1]))
    decreases |s|
  {
    if |s| > 0 && IsSpace(s[|s| - 1]) {
      TrimRightPrefix(s[..|s| - 1]);
    }
  }

  /** strings.TrimSpace. */
  function TrimSpace(s: string): string
  {
    TrimRight(TrimLeft(s))
  }

  /** Trimming takes a piece of the string: it adds no character. */
  lemma TrimSpaceWithin(s: string)
    ensures forall c :: c in TrimSpace(s) ==> c in s
  {
    var l := TrimLeft(s);
    TrimLeftSuffix(s);
    TrimRightPrefix(l);
    assert forall c :: c in TrimRight(l) ==> c in l;
    assert forall c :: c in l ==> c in s;
  }

  /** Trimming keeps a string without white space at either end as it is. */
  lemma TrimSpaceKeeps(s: string)
    requires |s| == 0 || (!IsSpace(s[0]) && !IsSpace(s[|s| - 1]))
    ensures TrimSpace(s) == s
  {
  }

  predicate IsDigit(c: char)
  {
    '0' <= c <= '9'
  }

  predicate AllDigits(s: string)
  {
    forall k :: 0 <= k < |s| ==> IsDigit(s[k])
  }

  /** The decimal value of a string of digits. */
  function DigitsValue(s: string): nat
    requires AllDigits(s)
    decreases |s|
  {
    if |s| == 0 then 0
    else 10 * DigitsValue(s[..|s| - 1]) + (s[|s| - 1] as int - '0' as int)
  }

  /** strconv.Atoi with its error ignored: an optionally signed string of one
      or more decimal digits gives its value, anything else gives 0.  Go's
      clamping of values beyond 64 bits is not modelled (integers here are
      unbounded). */
  function Atoi(s: string): (n: int)
    ensures (|s| == 0 || s[0] != '-') ==> n >= 0
  {
    if |s| > 0 && (s[0] == '+' || s[0] == '-') then
      var d := s[1..];
      if |d| > 0 && AllDigits(d) then
        (if s[0] == '-' then -(DigitsValue(d) as int) else DigitsValue(d) as int)
      else 0
    else if |s| > 0 && AllDigits(s) then DigitsValue(s)
    else 0
  }

  function DigitChar(d: nat): char
    requires d < 10
  {
    ('0' as int + d) as char
  }

  /** strconv.Itoa for non-negative values: decimal digits without leading
      zeros. */
  function Itoa(n: nat): (r: string)
    ensures |r| >= 1 && AllDigits(r)
    ensures r[0] != '0' || n == 0
    decreases n
  {
    if n < 10 then [DigitChar(n)] else Itoa(n / 10) + [DigitChar(n % 10)]
  }

  lemma {:induction false} DigitsValueItoa(n: nat)
    ensures DigitsValue(Itoa(n)) == n
    decreases n
  {
    if n >= 10 {
      DigitsValueItoa(n / 10);
      var r := Itoa(n);
      assert r[..|r| - 1] == Itoa(n / 10);
    }
  }

  /** Atoi reads back what Itoa writes. */
  lemma AtoiItoa(n: nat)
    ensures Atoi(Itoa(n)) == n
  {
    DigitsValueItoa(n);
  }

  function LowerChar(c: char): char
  {
    if 'A' <= c <= 'Z' then (c as int + 32) as char else c
  }

  /** strings.ToLower, for the ASCII text the reports build. */
  function ToLower(s: string): string
  {
    seq(|s|, k requires 0 <= k < |s| => LowerChar(s[k]))
  }

  /** Lower-casing brings in no character outside 'a'..'z' that was not
      there before. */
  lemma ToLowerAvoids(s: string, c: char)
    requires c !in s && !('a' <= c <= 'z')
    ensures c !in ToLower(s)
  {
    forall k | 0 <= k < |s|
      ensures ToLower(s)[k] != c
    {
      assert s[k] != c;
    }
  }

  /** The first byte of the UTF-8 encoding of c: the value Go's s[0] gives
      for a string whose first character is c. */
  function Utf8LeadByte(c: char): (b: nat)
    ensures b < 256
    ensures (c as int < 0x80) == (b < 0x80)
    ensures c as int < 0x80 ==> b == c as int
    ensures c as int >= 0x80 ==> b >= 0xC0
  {
    var n := c as int;
    if n < 0x80 then n
    else if n < 0x800 then 0xC0 + n / 0x40
    else if n < 0x10000 then 0xE0 + n / 0x1000
    else 0xF0 + n / 0x40000
  }
}
