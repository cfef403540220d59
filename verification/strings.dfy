/**
  The text primitives the service leans on: `fmt`'s %d verb, `strconv.ParseInt`,
  and `strings.Split` with its inverse. The proofs are round trips.
 */
module Strings {

  type int32 = x: int | -0x8000_0000 <= x < 0x8000_0000
  type int64 = x: int | -0x8000_0000_0000_0000 <= x < 0x8000_0000_0000_0000
  type uint32 = x: int | 0 <= x < 0x1_0000_0000

  const MAX_INT64: int64 := 0x7fff_ffff_ffff_ffff

  predicate IsDigit(c: char) {
    '0' <= c <= '9'
  }

  predicate AllDigits(s: string) {
    forall i :: 0 <= i < |s| ==> IsDigit(s[i])
  }

  function DigitChar(d: nat): char
    requires d < 10
  {
    '0' + d as char
  }

  // The number a digit string denotes, whatever its size.
  function DigitsValue(s: string): nat
    requires AllDigits(s)
  {
    if s == "" then 0
    else 10 * DigitsValue(s[..|s| - 1]) + (s[|s| - 1] as int - '0' as int)
  }

  function PrintNat(n: nat): string {
    if n < 10 then [DigitChar(n)] else PrintNat(n / 10) + [DigitChar(n % 10)]
  }

  // The %d verb, also `fmt.Sprint` of an integer.
  function PrintInt(n: int): string {
    if n < 0 then "-" + PrintNat(-n) else PrintNat(n)
  }

  lemma {:induction false} PrintNatValue(n: nat)
    ensures PrintNat(n) != "" && AllDigits(PrintNat(n))
    ensures DigitsValue(PrintNat(n)) == n
  {
    if n < 10 {
      assert PrintNat(n)[..0] == "";
    } else {
      PrintNatValue(n / 10);
      assert PrintNat(n)[..|PrintNat(n)| - 1] == PrintNat(n / 10);
    }
  }

  // Digits are read in base ten.
  lemma DigitsStep(s: string, d: nat)
    requires AllDigits(s) && d < 10
    ensures AllDigits(s + ["0123456789"[d]]) && DigitsValue("") == 0
    ensures DigitsValue(s + ["0123456789"[d]]) == 10 * DigitsValue(s) + d
  {
    assert (s + ["0123456789"[d]])[..|s|] == s;
  }

  // And printed in base ten.
  lemma PrintNatStep(n: nat, d: nat)
    requires d < 10
    ensures PrintNat(d) == ["0123456789"[d]]
    ensures n > 0 ==> PrintNat(10 * n + d) == PrintNat(n) + ["0123456789"[d]]
  {
  }

  // A number prints to digits with at most one sign, in front.
  lemma PrintIntChars(n: int)
    ensures PrintInt(n) != "" && '_' !in PrintInt(n)
    ensures forall i :: 0 < i < |PrintInt(n)| ==> IsDigit(PrintInt(n)[i])
  {
    PrintNatValue(if n < 0 then -n else n);
  }

  datatype ParseResult = Parsed(value: int) | BadSyntax | OutOfRange(clamped: int)

  // strconv.ParseInt(s, 10, bits), where limit is 2 to the power bits - 1: an
  // optional sign and digits, and a value clamped to the range next to the error.
  function ParseInt(s: string, limit: int): ParseResult
    requires limit > 0
  {
    var signed := s != "" && (s[0] == '-' || s[0] == '+');
    var digits := if signed then s[1..] else s;
    if digits == "" || !AllDigits(digits) then BadSyntax
    else
      var v: int := DigitsValue(digits);
      if signed && s[0] == '-' then
        if v <= limit then Parsed(-v) else OutOfRange(-limit)
      else
        if v < limit then Parsed(v) else OutOfRange(limit - 1)
  }

  // Accepted are digits behind at most one sign.
  lemma ParseIntSyntax(s: string, limit: int)
    requires limit > 0
    ensures ParseInt(s, limit).BadSyntax? <==>
            !(s != "" && (forall i :: 1 <= i < |s| ==> '0' <= s[i] <= '9')
              && ('0' <= s[0] <= '9' || ((s[0] == '+' || s[0] == '-') && |s| > 1)))
  {
    var signed := s != "" && (s[0] == '-' || s[0] == '+');
    var digits := if signed then s[1..] else s;
    if signed {
      assert forall i :: 1 <= i < |s| ==> s[i] == digits[i - 1];
      assert forall i :: 0 <= i < |digits| ==> digits[i] == s[i + 1];
    }
  }

  // Their value counts, with its sign, as far as it is in range.
  lemma ParseIntValue(digits: string, limit: int)
    requires limit > 0 && digits != "" && AllDigits(digits)
    ensures ParseInt(digits, limit) ==
            if DigitsValue(digits) < limit then Parsed(DigitsValue(digits)) else OutOfRange(limit - 1)
    ensures ParseInt("+" + digits, limit) == ParseInt(digits, limit)
    ensures ParseInt("-" + digits, limit) ==
            if DigitsValue(digits) <= limit then Parsed(-(DigitsValue(digits) as int)) else OutOfRange(-limit)
  {
    assert IsDigit(digits[0]);
    hide DigitsValue, AllDigits;
    assert ("+" + digits)[1..] == digits && ("-" + digits)[1..] == digits;
  }

  lemma ParsePrintInt(n: int, limit: int)
    requires limit > 0 && -limit <= n < limit
    ensures ParseInt(PrintInt(n), limit) == Parsed(n)
  {
    hide ParseInt, DigitsValue, PrintNat, AllDigits;
    var size := if n < 0 then -n else n;
    PrintNatValue(size);
    ParseIntValue(PrintNat(size), limit);
  }

  // strings.Split for a one-character separator.
  function Split(s: string, sep: char): (parts: seq<string>)
    ensures parts != []
  {
    if s == "" then [""]
    else
      var rest := Split(s[1..], sep);
      if s[0] == sep then [""] + rest else [[s[0]] + rest[0]] + rest[1..]
  }

  function Join(parts: seq<string>, sep: char): string
    requires parts != []
  {
    if |parts| == 1 then parts[0] else parts[0] + [sep] + Join(parts[1..], sep)
  }

  // Splitting loses nothing, and no part keeps a separator.
  lemma {:induction false} JoinSplit(s: string, sep: char)
    ensures Join(Split(s, sep), sep) == s
    ensures forall i :: 0 <= i < |Split(s, sep)| ==> sep !in Split(s, sep)[i]
  {
    if s != "" {
      JoinSplit(s[1..], sep);
      var rest := Split(s[1..], sep);
      var parts := Split(s, sep);
      if s[0] == sep {
        assert parts[1..] == rest;
      } else {
        assert parts[1..] == rest[1..];
        assert s == [s[0]] + s[1..];
        if |rest| > 1 {
          assert Join(parts, sep) == [s[0]] + (rest[0] + [sep] + Join(rest[1..], sep));
        }
      }
    }
  }

  lemma {:induction false} SplitFirst(head: string, tail: string, sep: char)
    requires sep !in head
    ensures Split(head + [sep] + tail, sep) == [head] + Split(tail, sep)
  {
    var s := head + [sep] + tail;
    if head == "" {
      assert s[1..] == tail;
    } else {
      SplitFirst(head[1..], tail, sep);
      assert s[1..] == head[1..] + [sep] + tail;
      assert Split(s, sep) == [[s[0]] + head[1..]] + Split(tail, sep);
      assert [s[0]] + head[1..] == head;
    }
  }

  lemma {:induction false} SplitWhole(s: string, sep: char)
    requires sep !in s
    ensures Split(s, sep) == [s]
  {
    if s != "" {
      SplitWhole(s[1..], sep);
      assert [s[0]] + s[1..] == s;
    }
  }

  // Parts that hold no separator survive a join and a split.
  lemma {:induction false} SplitJoin(parts: seq<string>, sep: char)
    requires parts != [] && forall i :: 0 <= i < |parts| ==> sep !in parts[i]
    ensures Split(Join(parts, sep), sep) == parts
  {
    if |parts| == 1 {
      SplitWhole(parts[0], sep);
    } else {
      SplitJoin(parts[1..], sep);
      SplitFirst(parts[0], Join(parts[1..], sep), sep);
    }
  }
}
