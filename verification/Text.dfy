/** Text as the programs print and read it: decimal integers, booleans, and the
    formatted extraction of words and numbers from an input stream. */
module Text {
  import opened Sums

  const INT_MIN: int := -0x8000_0000
  const INT_MAX: int := 0x7fff_ffff

  predicate IsInt32(n: int) {
    INT_MIN <= n <= INT_MAX
  }

  // ----- characters and words -----

  predicate IsSpace(c: char) {
    c == ' ' || ('\t' <= c <= '\r')
  }

  predicate IsDigit(c: char) {
    '0' <= c <= '9'
  }

  predicate IsWord(s: string) {
    s != "" && forall i :: 0 <= i < |s| ==> !IsSpace(s[i])
  }

  /** Nothing that would extend a preceding word or number. */
  predicate Delimited(tail: string) {
    tail == "" || IsSpace(tail[0])
  }

  // ----- printing -----

  function DigitChar(d: int): (c: char)
    requires 0 <= d < 10
    ensures IsDigit(c)
  {
    "0123456789"[d]
  }

  function DigitValue(c: char): (d: int)
    requires IsDigit(c)
    ensures 0 <= d < 10
  {
    (c - '0') as int
  }

  function PrintNat(n: nat): (s: string)
    ensures s != "" && forall i :: 0 <= i < |s| ==> IsDigit(s[i])
  {
    if n < 10 then [DigitChar(n)] else PrintNat(n / 10) + [DigitChar(n % 10)]
  }

  function PrintInt(n: int): string {
    if n < 0 then "-" + PrintNat(-n) else PrintNat(n)
  }

  function PrintBool(b: bool): string {
    PrintInt(if b then 1 else 0)
  }

  lemma PrintIntIsWord(n: int)
    ensures IsWord(PrintInt(n))
  {
    assert forall c: char :: IsDigit(c) ==> !IsSpace(c);
    assert !IsSpace('-');
  }

  // ----- extraction -----

  /** An input string stream: what is left to read, and whether it is still good.
      A failed extraction makes it bad, and a bad stream extracts nothing. */
  datatype Stream = Stream(rest: string, good: bool)

  function SkipSpaces(s: string): string {
    if s != "" && IsSpace(s[0]) then SkipSpaces(s[1..]) else s
  }

  function WordLength(s: string): (n: nat)
    ensures n <= |s|
  {
    if s == "" || IsSpace(s[0]) then 0 else 1 + WordLength(s[1..])
  }

  function DigitRun(s: string): (n: nat)
    ensures n <= |s|
    ensures forall i :: 0 <= i < n ==> IsDigit(s[i])
  {
    if s == "" || !IsDigit(s[0]) then 0 else 1 + DigitRun(s[1..])
  }

  function ReadWord(st: Stream): (Option<string>, Stream) {
    var s := SkipSpaces(st.rest);
    if !st.good || s == "" then (None, Stream(s, false))
    else (Some(s[..WordLength(s)]), Stream(s[WordLength(s)..], true))
  }

  function DigitsValue(s: string): (n: nat)
    requires forall i :: 0 <= i < |s| ==> IsDigit(s[i])
  {
    if s == "" then 0
    else 10 * DigitsValue(s[..|s| - 1]) + DigitValue(s[|s| - 1])
  }

  function Signed(negative: bool, magnitude: int): int {
    if negative then -magnitude else magnitude
  }

  /** The outcome of extracting the numeral n: out of range, it fails. */
  function Extracted(n: int, tail: string): (Option<int>, Stream) {
    if IsInt32(n) then (Some(n), Stream(tail, true)) else (None, Stream(tail, false))
  }

  /** The longest run of digits as a number of the given sign, which must be in range. */
  function ReadDigits(negative: bool, body: string): (Option<int>, Stream) {
    var n := DigitRun(body);
    if n == 0 then (None, Stream(body, false))
    else Extracted(Signed(negative, DigitsValue(body[..n])), body[n..])
  }

  /** Extraction of an int: an optional sign, then digits. */
  function ReadInt(st: Stream): (Option<int>, Stream) {
    var s := SkipSpaces(st.rest);
    if !st.good || s == "" then (None, Stream(s, false))
    else if s[0] == '-' || s[0] == '+' then ReadDigits(s[0] == '-', s[1..])
    else ReadDigits(false, s)
  }

  /** Extraction of a bool: an integer that is 0 or 1. */
  function ReadBool(st: Stream): (Option<bool>, Stream) {
    var (n, rest) := ReadInt(st);
    if n.Some? && (n.value == 0 || n.value == 1) then (Some(n.value == 1), rest)
    else (None, Stream(rest.rest, false))
  }

  // ----- round trips -----

  lemma {:induction false} DigitsValuePrint(n: nat)
    ensures DigitsValue(PrintNat(n)) == n
  {
    if n < 10 {
      assert [DigitChar(n)][..0] == "";
    } else {
      DigitsValuePrint(n / 10);
      assert PrintNat(n)[..|PrintNat(n)| - 1] == PrintNat(n / 10);
    }
  }

  lemma {:induction false} DigitRunAppend(digits: string, tail: string)
    requires forall i :: 0 <= i < |digits| ==> IsDigit(digits[i])
    requires tail == "" || !IsDigit(tail[0])
    ensures DigitRun(digits + tail) == |digits|
  {
    if digits == "" {
      assert digits + tail == tail;
    } else {
      assert (digits + tail)[1..] == digits[1..] + tail;
      DigitRunAppend(digits[1..], tail);
    }
  }

  lemma {:induction false} WordLengthAppend(word: string, tail: string)
    requires forall i :: 0 <= i < |word| ==> !IsSpace(word[i])
    requires Delimited(tail)
    ensures WordLength(word + tail) == |word|
  {
    if word == "" {
      assert word + tail == tail;
    } else {
      assert (word + tail)[1..] == word[1..] + tail;
      WordLengthAppend(word[1..], tail);
    }
  }

  lemma ReadDigitsOf(negative: bool, digits: string, tail: string)
    requires digits != "" && forall i :: 0 <= i < |digits| ==> IsDigit(digits[i])
    requires Delimited(tail)
    ensures ReadDigits(negative, digits + tail) == Extracted(Signed(negative, DigitsValue(digits)), tail)
  {
    DigitRunAppend(digits, tail);
    assert (digits + tail)[..|digits|] == digits && (digits + tail)[|digits|..] == tail;
  }

  lemma ReadIntSigned(digits: string, tail: string)
    requires digits != "" && IsDigit(digits[0])
    ensures ReadInt(Stream(digits + tail, true)) == ReadDigits(false, digits + tail)
    ensures ReadInt(Stream("-" + digits + tail, true)) == ReadDigits(true, digits + tail)
  {
    assert ("-" + digits + tail)[1..] == digits + tail;
  }

  /** An integer, printed and followed by a delimiter, is read back exactly when it
      fits an int; otherwise the stream goes bad. */
  lemma ReadIntPrint(n: int, tail: string)
    requires Delimited(tail)
    ensures ReadInt(Stream(PrintInt(n) + tail, true)) == Extracted(n, tail)
    ensures ReadInt(Stream(PrintInt(n) + tail, true)).0 ==
            if -2147483648 <= n <= 2147483647 then Some(n) else None
  {
    var magnitude: nat := if n < 0 then -n else n;
    DigitsValuePrint(magnitude);
    ReadIntSigned(PrintNat(magnitude), tail);
    ReadDigitsOf(n < 0, PrintNat(magnitude), tail);
  }

  lemma PrintIntInjective(m: int, n: int)
    requires PrintInt(m) == PrintInt(n)
    ensures m == n
  {
    DigitsValuePrint(if m < 0 then -m else m);
    DigitsValuePrint(if n < 0 then -n else n);
    assert IsDigit(PrintNat(if m < 0 then -m else m)[0]) && IsDigit(PrintNat(if n < 0 then -n else n)[0]);
    if m < 0 {
      assert PrintInt(m)[0] == '-' && PrintInt(m)[1..] == PrintNat(-m);
    }
    if n < 0 {
      assert PrintInt(n)[0] == '-' && PrintInt(n)[1..] == PrintNat(-n);
    }
  }

  lemma ReadBoolPrint(b: bool)
    ensures ReadBool(Stream(PrintBool(b), true)) == (Some(b), Stream("", true))
  {
    ReadIntPrint(if b then 1 else 0, "");
    assert PrintBool(b) + "" == PrintBool(b);
  }

  lemma ReadIntExact(n: int)
    requires IsInt32(n)
    ensures ReadInt(Stream(PrintInt(n), true)) == (Some(n), Stream("", true))
  {
    ReadIntPrint(n, "");
    assert PrintInt(n) + "" == PrintInt(n);
  }

  lemma ReadWordAppend(word: string, tail: string)
    requires IsWord(word) && Delimited(tail)
    ensures ReadWord(Stream(word + tail, true)) == (Some(word), Stream(tail, true))
  {
    WordLengthAppend(word, tail);
    assert (word + tail)[0] == word[0];
    assert SkipSpaces(word + tail) == word + tail;
    assert (word + tail)[..|word|] == word && (word + tail)[|word|..] == tail;
  }

  lemma ReadWordExact(word: string)
    requires IsWord(word)
    ensures ReadWord(Stream(word, true)) == (Some(word), Stream("", true))
  {
    ReadWordAppend(word, "");
    assert word + "" == word;
  }

  /** A space before the next field changes nothing. */
  lemma LeadingSpace(s: string)
    ensures SkipSpaces(" " + s) == SkipSpaces(s)
  {
    assert (" " + s)[1..] == s;
  }
}
