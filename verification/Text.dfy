/** The string operations of the Go standard library that the daemon relies on, each as a
    small specification over sequences of characters. */
module Text {

  datatype Option<T> = None | Some(value: T)

  // ----- White space -----

  /** Unicode white space, as `unicode.IsSpace` decides it. */
  predicate IsSpace(c: char) {
    var v := c as int;
    || 0x09 <= v <= 0x0D || v == 0x20 || v == 0x85 || v == 0xA0 || v == 0x1680
    || 0x2000 <= v <= 0x200A || v == 0x2028 || v == 0x2029 || v == 0x202F || v == 0x205F || v == 0x3000
  }

  function TrimLeft(s: string): string {
    if s != "" && IsSpace(s[0]) then TrimLeft(s[1..]) else s
  }

  function TrimRight(s: string): string {
    if s != "" && IsSpace(s[|s| - 1]) then TrimRight(s[..|s| - 1]) else s
  }

  /** `strings.TrimSpace`. */
  function Trim(s: string): string { TrimRight(TrimLeft(s)) }

  predicate IsTrimmed(s: string) {
    s == "" || (!IsSpace(s[0]) && !IsSpace(s[|s| - 1]))
  }

  predicate AllSpace(s: string) { forall i :: 0 <= i < |s| ==> IsSpace(s[i]) }

  lemma {:induction false} TrimTrimmed(s: string)
    requires IsTrimmed(s)
    ensures Trim(s) == s
  {
  }

  lemma {:induction false} TrimLeftOfSpaces(lead: string, s: string)
    requires AllSpace(lead)
    ensures TrimLeft(lead + s) == TrimLeft(s)
  {
    if lead == "" {
      assert lead + s == s;
    } else {
      assert (lead + s)[1..] == lead[1..] + s;
      TrimLeftOfSpaces(lead[1..], s);
    }
  }

  lemma {:induction false} TrimRightOfSpaces(s: string, tail: string)
    requires AllSpace(tail)
    ensures TrimRight(s + tail) == TrimRight(s)
  {
    if tail == "" {
      assert s + tail == s;
    } else {
      assert (s + tail)[..|s + tail| - 1] == s + tail[..|tail| - 1];
      TrimRightOfSpaces(s, tail[..|tail| - 1]);
    }
  }

  /** White space around a text that has none at its ends disappears, and nothing else. */
  lemma {:induction false} TrimSurrounded(lead: string, s: string, tail: string)
    requires AllSpace(lead) && AllSpace(tail) && IsTrimmed(s) && s != ""
    ensures Trim(lead + s + tail) == s
  {
    assert lead + s + tail == lead + (s + tail);
    TrimLeftOfSpaces(lead, s + tail);
    assert (s + tail)[0] == s[0];
    TrimRightOfSpaces(s, tail);
  }

  lemma {:induction false} TrimLeftIsSuffix(s: string) returns (lead: string)
    ensures s == lead + TrimLeft(s) && AllSpace(lead)
    ensures TrimLeft(s) == "" || !IsSpace(TrimLeft(s)[0])
  {
    if s != "" && IsSpace(s[0]) {
      var rest := TrimLeftIsSuffix(s[1..]);
      lead := [s[0]] + rest;
    } else {
      lead := "";
    }
  }

  lemma {:induction false} TrimRightIsPrefix(s: string) returns (tail: string)
    ensures s == TrimRight(s) + tail && AllSpace(tail)
    ensures TrimRight(s) == "" || !IsSpace(TrimRight(s)[|TrimRight(s)| - 1])
  {
    if s != "" && IsSpace(s[|s| - 1]) {
      var rest := TrimRightIsPrefix(s[..|s| - 1]);
      tail := rest + [s[|s| - 1]];
    } else {
      tail := "";
    }
  }

  /** Trimming only removes white space, from both ends, and leaves none there. */
  lemma {:induction false} TrimParts(s: string) returns (lead: string, tail: string)
    ensures s == lead + Trim(s) + tail && AllSpace(lead) && AllSpace(tail)
    ensures IsTrimmed(Trim(s))
  {
    lead := TrimLeftIsSuffix(s);
    tail := TrimRightIsPrefix(TrimLeft(s));
    assert Trim(s) != "" ==> Trim(s)[0] == TrimLeft(s)[0];
  }

  lemma {:induction false} TrimIsTrimmed(s: string)
    ensures IsTrimmed(Trim(s)) && Trim(Trim(s)) == Trim(s)
  {
    var _, _ := TrimParts(s);
    TrimTrimmed(Trim(s));
  }

  // ----- Splitting and joining -----

  /** `strings.Split` on a one-character separator. */
  function Split(s: string, sep: char): (fields: seq<string>)
    ensures fields != []
  {
    if s == "" then [""]
    else
      var rest := Split(s[1..], sep);
      if s[0] == sep then [""] + rest else [[s[0]] + rest[0]] + rest[1..]
  }

  /** `strings.Join` with a one-character separator. */
  function Join(fields: seq<string>, sep: char): string {
    if fields == [] then ""
    else if |fields| == 1 then fields[0]
    else fields[0] + [sep] + Join(fields[1..], sep)
  }

  /** `strings.ReplaceAll(s, c, "")`. */
  function Without(s: string, c: char): string {
    if s == "" then "" else (if s[0] == c then "" else [s[0]]) + Without(s[1..], c)
  }

  predicate Lacks(s: string, c: char) { forall i :: 0 <= i < |s| ==> s[i] != c }

  lemma {:induction false} SplitField(field: string, rest: string, sep: char)
    requires Lacks(field, sep)
    ensures Split(field, sep) == [field]
    ensures Split(field + [sep] + rest, sep) == [field] + Split(rest, sep)
  {
    var s := field + [sep] + rest;
    if field == "" {
      assert s[1..] == rest;
    } else {
      assert s[1..] == field[1..] + [sep] + rest;
      SplitField(field[1..], rest, sep);
      assert [field[0]] + field[1..] == field;
    }
  }

  /** Joining and splitting are inverse on separator-free fields. */
  lemma {:induction false} SplitJoin(fields: seq<string>, sep: char)
    requires fields != [] && forall i :: 0 <= i < |fields| ==> Lacks(fields[i], sep)
    ensures Split(Join(fields, sep), sep) == fields
  {
    if |fields| == 1 {
      SplitField(fields[0], "", sep);
    } else {
      SplitJoin(fields[1..], sep);
      SplitField(fields[0], Join(fields[1..], sep), sep);
    }
  }

  lemma {:induction false} JoinSplit(s: string, sep: char)
    ensures Join(Split(s, sep), sep) == s
  {
    if s != "" {
      JoinSplit(s[1..], sep);
      var rest := Split(s[1..], sep);
      assert s == [s[0]] + s[1..];
      if s[0] == sep {
        assert ([""] + rest)[1..] == rest;
      } else if |rest| > 1 {
        assert ([[s[0]] + rest[0]] + rest[1..])[1..] == rest[1..];
      }
    }
  }

  lemma {:induction false} SplitLacks(s: string, sep: char)
    ensures forall i :: 0 <= i < |Split(s, sep)| ==> Lacks(Split(s, sep)[i], sep)
  {
    if s != "" {
      SplitLacks(s[1..], sep);
      var rest := Split(s[1..], sep);
      forall i | 0 <= i < |Split(s, sep)| ensures Lacks(Split(s, sep)[i], sep) {
        if s[0] != sep && i == 0 { assert Lacks(rest[0], sep); }
      }
    }
  }

  lemma {:induction false} WithoutLacks(s: string, c: char)
    ensures Lacks(Without(s, c), c)
    ensures Lacks(s, c) ==> Without(s, c) == s
  {
    if s != "" {
      WithoutLacks(s[1..], c);
      if Lacks(s, c) {
        assert Lacks(s[1..], c);
        assert [s[0]] + s[1..] == s;
      }
    }
  }

  lemma {:induction false} WithoutAppend(s: string, t: string, c: char)
    ensures Without(s + t, c) == Without(s, c) + Without(t, c)
  {
    if s == "" {
      assert s + t == t;
    } else {
      assert (s + t)[1..] == s[1..] + t;
      WithoutAppend(s[1..], t, c);
    }
  }

  lemma {:induction false} JoinLacks(fields: seq<string>, sep: char, c: char)
    requires sep != c && forall i :: 0 <= i < |fields| ==> Lacks(fields[i], c)
    ensures Lacks(Join(fields, sep), c)
  {
    if |fields| > 1 {
      JoinLacks(fields[1..], sep, c);
    }
  }

  predicate HasPrefix(s: string, prefix: string) { prefix <= s }

  // ----- Decimal numbers -----

  const MAX_INT: nat := 0x7FFF_FFFF_FFFF_FFFF

  predicate IsDigit(c: char) { '0' <= c <= '9' }

  function DigitValue(c: char): nat
    requires IsDigit(c)
  { c as int - '0' as int }

  predicate AllDigits(s: string) { forall i :: 0 <= i < |s| ==> IsDigit(s[i]) }

  function DecimalValue(s: string): nat
    requires AllDigits(s)
  {
    if s == "" then 0 else 10 * DecimalValue(s[..|s| - 1]) + DigitValue(s[|s| - 1])
  }

  datatype Parsed = Number(n: int) | Syntax | Range(clamped: int)

  /** `strconv.Atoi` on a 64-bit host: an optional sign, then at least one digit. */
  function Atoi(s: string): Parsed {
    var negative := s != "" && s[0] == '-';
    var digits := if s != "" && (s[0] == '-' || s[0] == '+') then s[1..] else s;
    if digits == "" || !AllDigits(digits) then Syntax
    else
      var v: int := DecimalValue(digits);
      if negative && v > MAX_INT + 1 then Range(-(MAX_INT + 1))
      else if !negative && v > MAX_INT then Range(MAX_INT)
      else Number(if negative then -v else v)
  }

  /** The value left behind when the error of `Atoi` is ignored. */
  function AtoiIgnored(s: string): int {
    match Atoi(s)
    case Number(n) => n
    case Syntax => 0
    case Range(c) => c
  }

  function Decimal(n: nat): string {
    if n < 10 then [('0' as int + n) as char] else Decimal(n / 10) + [('0' as int + n % 10) as char]
  }

  lemma {:induction false} DecimalRoundTrip(n: nat)
    ensures Decimal(n) != "" && AllDigits(Decimal(n)) && DecimalValue(Decimal(n)) == n
  {
    if n >= 10 {
      DecimalRoundTrip(n / 10);
      var d := Decimal(n);
      assert d[..|d| - 1] == Decimal(n / 10);
    } else {
      assert Decimal(n)[..0] == "";
    }
  }

  lemma {:induction false} AtoiDecimal(n: nat)
    ensures Atoi(Decimal(n)) == if n <= MAX_INT then Number(n) else Range(MAX_INT)
  {
    DecimalRoundTrip(n);
    assert IsDigit(Decimal(n)[0]);
  }
}
