/** Decimal numbers and blank-separated words, as printed by one side and scanned by the other. */
module Text {
  import opened Records

  const NUL: char := '\0'
  const INT_MAX: int := 0x7FFF_FFFF
  const INT_MIN: int := -0x8000_0000
  const UINT_RANGE: int := 0x1_0000_0000

  // ----- Numbers -----

  function DigitChar(d: nat): char
    requires d < 10
  {
    "0123456789"[d]
  }

  predicate IsDigit(c: char) {
    '0' <= c <= '9'
  }

  function DigitValue(c: char): nat
    requires IsDigit(c)
  {
    c as int - '0' as int
  }

  function Decimal(n: nat): string {
    if n < 10 then [DigitChar(n)] else Decimal(n / 10) + [DigitChar(n % 10)]
  }

  /** String.valueOf and string concatenation of an int. */
  function IntString(v: int): string {
    if v < 0 then "-" + Decimal(-v) else Decimal(v)
  }

  /** Long.toUnsignedString: the two's complement of v read as an unsigned 64-bit number. */
  function UnsignedString(v: int): string {
    Decimal(v % 0x1_0000_0000_0000_0000)
  }

  /** The value of the leading digits of s, after the digits read so far. */
  function ReadDigits(s: string, acc: nat): nat {
    if s != [] && IsDigit(s[0]) then ReadDigits(s[1..], acc * 10 + DigitValue(s[0])) else acc
  }

  predicate IsBlank(c: char) {
    c == ' ' || 9 <= c as int <= 13
  }

  /** An optionally signed number after blanks; None when there is no digit. */
  function ScanSigned(s: string): Option<int> {
    if s == [] then None
    else if IsBlank(s[0]) then ScanSigned(s[1..])
    else
      var digits := if s[0] == '-' || s[0] == '+' then s[1..] else s;
      if digits == [] || !IsDigit(digits[0]) then None
      else
        var v: int := ReadDigits(digits, 0);
        Some(if s[0] == '-' then -v else v)
  }

  /** sscanf with "%d" into an unsigned int that starts at 0. */
  function ScanInt(s: string): nat {
    match ScanSigned(s)
    case None => 0
    case Some(v) => v % UINT_RANGE
  }

  predicate AllDigits(s: string) {
    forall c :: c in s ==> IsDigit(c)
  }

  lemma {:induction false} DecimalIsDigits(n: nat)
    ensures Decimal(n) != [] && AllDigits(Decimal(n))
  {
    if n >= 10 {
      DecimalIsDigits(n / 10);
    }
  }

  lemma {:induction false} ReadDigitsAppend(s: string, c: char, acc: nat)
    requires AllDigits(s) && IsDigit(c)
    ensures ReadDigits(s + [c], acc) == ReadDigits(s, acc) * 10 + DigitValue(c)
  {
    if s == [] {
      assert (s + [c])[1..] == [];
    } else {
      assert (s + [c])[1..] == s[1..] + [c];
      ReadDigitsAppend(s[1..], c, acc * 10 + DigitValue(s[0]));
    }
  }

  lemma {:induction false} ReadDecimal(n: nat)
    ensures ReadDigits(Decimal(n), 0) == n
  {
    if n < 10 {
      assert Decimal(n)[1..] == [];
    } else {
      ReadDecimal(n / 10);
      DecimalIsDigits(n / 10);
      ReadDigitsAppend(Decimal(n / 10), DigitChar(n % 10), 0);
    }
  }

  /** Scanning what was printed gives the number back. */
  lemma ScanDecimal(n: nat)
    ensures ScanSigned(Decimal(n)) == Some(n)
    ensures n <= INT_MAX ==> ScanInt(Decimal(n)) == n
  {
    DecimalIsDigits(n);
    ReadDecimal(n);
    assert IsDigit(Decimal(n)[0]);
  }

  /** The same for a number with a sign. */
  lemma ScanIntString(v: int)
    ensures ScanSigned(IntString(v)) == Some(v) && ScanInt(IntString(v)) == v % UINT_RANGE
  {
    if v < 0 {
      DecimalIsDigits(-v);
      ReadDecimal(-v);
      assert IntString(v)[1..] == Decimal(-v) && IsDigit(Decimal(-v)[0]);
    } else {
      ScanDecimal(v);
    }
  }

  lemma {:induction false} ReadDigitsUpTo(digits: string, rest: string, acc: nat)
    requires AllDigits(digits) && (rest == [] || !IsDigit(rest[0]))
    ensures ReadDigits(digits + rest, acc) == ReadDigits(digits, acc)
  {
    if digits == [] {
      assert digits + rest == rest;
    } else {
      assert (digits + rest)[1..] == digits[1..] + rest;
      ReadDigitsUpTo(digits[1..], rest, acc * 10 + DigitValue(digits[0]));
    }
  }

  lemma ScanDigits(digits: string, rest: string)
    requires digits != [] && AllDigits(digits) && (rest == [] || !IsDigit(rest[0]))
    ensures ScanSigned(digits + rest) == Some(ReadDigits(digits, 0))
  {
    ReadDigitsUpTo(digits, rest, 0);
    assert (digits + rest)[0] == digits[0] && digits[0] in digits;
  }

  lemma FirstDigit(digits: string, rest: string)
    requires digits != [] && AllDigits(digits)
    ensures IsDigit((digits + rest)[0])
  {
    assert (digits + rest)[0] == digits[0] && digits[0] in digits;
  }

  lemma ScanMinus(s: string, digits: string)
    requires s == "-" + digits && digits != [] && IsDigit(digits[0])
    ensures ScanSigned(s) == var v: int := ReadDigits(digits, 0); Some(-v)
  {
    hide ReadDigits;
    assert s[0] == '-' && s[1..] == digits;
  }

  lemma ScanUpTo(v: int, rest: string)
    requires rest == [] || !IsDigit(rest[0])
    ensures ScanSigned(IntString(v) + rest) == Some(v)
  {
    hide Decimal, ReadDigits, ScanSigned, AllDigits;
    var n := if v < 0 then -v else v;
    DecimalIsDigits(n);
    ReadDecimal(n);
    if v < 0 {
      FirstDigit(Decimal(n), rest);
      ReadDigitsUpTo(Decimal(n), rest, 0);
      ScanMinus(IntString(v) + rest, Decimal(n) + rest);
    } else {
      ScanDigits(Decimal(n), rest);
    }
  }

  /** A scan skips blanks, and stops at the first character that is no digit. */
  lemma {:induction false} ScanAmid(blanks: string, v: int, rest: string)
    requires (forall c :: c in blanks ==> IsBlank(c)) && (rest == [] || !IsDigit(rest[0]))
    ensures ScanSigned(blanks + IntString(v) + rest) == Some(v)
  {
    hide IntString;
    if blanks == [] {
      ScanUpTo(v, rest);
      assert blanks + IntString(v) == IntString(v);
    } else {
      assert (blanks + IntString(v) + rest)[1..] == blanks[1..] + IntString(v) + rest;
      ScanAmid(blanks[1..], v, rest);
    }
  }

  lemma DecimalZero(n: nat)
    ensures Decimal(n) == "0" <==> n == 0
  {
  }

  // ----- Words -----

  datatype Delimiter = Space | Comma | Invalid

  predicate IsDelimiter(d: Delimiter, c: char) {
    match d
    case Space => IsBlank(c)
    case Comma => c == ','
    case Invalid => false
  }

  /** The longest prefix of s without a delimiter. */
  function Word(d: Delimiter, s: string): (w: string)
    ensures |w| <= |s|
  {
    if s == [] || IsDelimiter(d, s[0]) then [] else [s[0]] + Word(d, s[1..])
  }

  /** The maximal runs of non-delimiters, from left to right. */
  function Split(d: Delimiter, s: string): seq<string>
    decreases |s|
  {
    if s == [] then []
    else if IsDelimiter(d, s[0]) then Split(d, s[1..])
    else [Word(d, s)] + Split(d, s[|Word(d, s)|..])
  }

  lemma {:induction false} WordUpTo(d: Delimiter, a: string, rest: string)
    requires rest != [] && IsDelimiter(d, rest[0])
    ensures Word(d, a + rest) == Word(d, a)
  {
    if a == [] {
      assert a + rest == rest;
    } else {
      assert (a + rest)[1..] == a[1..] + rest;
      WordUpTo(d, a[1..], rest);
    }
  }

  /** A text splits at every delimiter, and an empty run gives no part; with SplitRun this fixes all of Split. */
  lemma {:induction false} SplitAtDelimiter(d: Delimiter, a: string, c: char, b: string)
    requires IsDelimiter(d, c)
    ensures Split(d, a + [c] + b) == Split(d, a) + Split(d, b)
    decreases |a|
  {
    var s := a + [c] + b;
    if a == [] {
      assert s[0] == c && s[1..] == b;
    } else if IsDelimiter(d, a[0]) {
      assert s[1..] == a[1..] + [c] + b;
      SplitAtDelimiter(d, a[1..], c, b);
    } else {
      var n := |Word(d, a)|;
      assert s == a + ([c] + b);
      WordUpTo(d, a, [c] + b);
      assert s[n..] == a[n..] + [c] + b && s[0] == a[0];
      assert Split(d, s) == [Word(d, a)] + Split(d, s[n..]);
      SplitAtDelimiter(d, a[n..], c, b);
    }
  }

  /** A text without delimiters is one part, unless it is empty. */
  lemma {:induction false} SplitRun(d: Delimiter, a: string)
    requires forall c :: c in a ==> !IsDelimiter(d, c)
    ensures Word(d, a) == a && Split(d, a) == if a == [] then [] else [a]
  {
    if a != [] {
      assert a[0] in a && forall c :: c in a[1..] ==> c in a;
      SplitRun(d, a[1..]);
      assert Split(d, a[|a|..]) == [];
    }
  }

  function Join(words: seq<string>): string {
    if words == [] then []
    else if |words| == 1 then words[0]
    else words[0] + " " + Join(words[1..])
  }

  predicate IsWord(w: string) {
    w != [] && forall c :: c in w ==> !IsBlank(c) && c != NUL
  }

  lemma {:induction false} WordPrefix(w: string, rest: string)
    requires (forall c :: c in w ==> !IsBlank(c)) && (rest == [] || IsBlank(rest[0]))
    ensures Word(Space, w + rest) == w
  {
    if w == [] {
      assert w + rest == rest;
    } else {
      assert (w + rest)[1..] == w[1..] + rest;
      WordPrefix(w[1..], rest);
    }
  }

  /** Words joined by single spaces and ended by a newline are split back into the same words. */
  lemma {:induction false} SplitJoin(words: seq<string>)
    requires forall w :: w in words ==> IsWord(w)
    ensures Split(Space, Join(words) + "\n") == words
  {
    if words == [] {
      assert Split(Space, "\n") == Split(Space, "\n"[1..]);
    } else if |words| == 1 {
      var w := words[0];
      assert IsWord(w);
      WordPrefix(w, "\n");
      assert !IsDelimiter(Space, (w + "\n")[0]);
      assert (w + "\n")[|w|..] == "\n";
      assert Split(Space, "\n") == Split(Space, "\n"[1..]) == [];
    } else {
      var w, rest := words[0], Join(words[1..]) + "\n";
      assert IsWord(w);
      assert Join(words) + "\n" == w + (" " + rest);
      WordPrefix(w, " " + rest);
      assert !IsDelimiter(Space, (w + (" " + rest))[0]);
      assert (w + (" " + rest))[|w|..] == " " + rest;
      assert Split(Space, " " + rest) == Split(Space, (" " + rest)[1..]);
      assert (" " + rest)[1..] == rest;
      SplitJoin(words[1..]);
    }
  }
}
