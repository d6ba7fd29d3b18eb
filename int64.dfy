/**
 * `System.Int64`: the 64-bit range, `Int64.Parse(string)` with the default `NumberStyles.Integer`
 * (optional white space around an optional sign and at least one ASCII digit) and the
 * invariant-culture decimal form produced by `Int64.ToString()`.
 */
module Int64 {
  import opened Wrappers

  const MinValue: int := -0x8000_0000_0000_0000
  const MaxValue: int := 0x7FFF_FFFF_FFFF_FFFF

  newtype int64 = x: int | -0x8000_0000_0000_0000 <= x <= 0x7FFF_FFFF_FFFF_FFFF

  /** The exceptions the core can raise while deriving an ID. */
  datatype ParseError =
    | NullReference   // a member was called on a null string
    | FormatError     // `FormatException`: the text is not an integer
    | OverflowError   // `OverflowException`: the integer does not fit in 64 bits

  /** White space allowed around a number: U+0009..U+000D and U+0020. */
  predicate IsNumberWhite(c: char) {
    c == ' ' || '\t' <= c <= '\r'
  }

  predicate IsDigit(c: char) {
    '0' <= c <= '9'
  }

  predicate AllDigits(s: string) {
    forall i :: 0 <= i < |s| ==> IsDigit(s[i])
  }

  /** `s` without its leading white space: a suffix of `s` that is empty or starts with a non-white character. */
  function TrimStart(s: string): (r: string)
    ensures |r| <= |s| && r == s[|s| - |r|..]
    ensures forall m :: 0 <= m < |s| - |r| ==> IsNumberWhite(s[m])
    ensures r == [] || !IsNumberWhite(r[0])
  {
    if |s| > 0 && IsNumberWhite(s[0]) then
      var r := TrimStart(s[1..]);
      assert s[1..][|s[1..]| - |r|..] == s[|s| - |r|..];
      assert forall m :: 1 <= m < |s| ==> s[m] == s[1..][m - 1];
      r
    else s
  }

  /** `s` without its trailing white space: a prefix of `s` that is empty or ends with a non-white character. */
  function TrimEnd(s: string): (r: string)
    ensures |r| <= |s| && r == s[..|r|]
    ensures forall m :: |r| <= m < |s| ==> IsNumberWhite(s[m])
    ensures r == [] || !IsNumberWhite(r[|r| - 1])
  {
    if |s| > 0 && IsNumberWhite(s[|s| - 1]) then
      var r := TrimEnd(s[..|s| - 1]);
      assert s[..|s| - 1][..|r|] == s[..|r|];
      assert forall m :: 0 <= m < |s| - 1 ==> s[m] == s[..|s| - 1][m];
      r
    else s
  }

  function Trim(s: string): string {
    TrimEnd(TrimStart(s))
  }

  function DigitValue(c: char): (d: nat)
    requires IsDigit(c)
    ensures d < 10
  {
    (c as int) - ('0' as int)
  }

  function DigitChar(d: nat): (c: char)
    requires d < 10
    ensures IsDigit(c) && DigitValue(c) == d
  {
    (('0' as int) + d) as char
  }

  /** The value of a string of decimal digits, most significant first. */
  function DigitsValue(s: string): nat
    requires AllDigits(s)
  {
    if |s| == 0 then 0 else DigitsValue(s[..|s| - 1]) * 10 + DigitValue(s[|s| - 1])
  }

  /** The shortest decimal form of `n`: no sign and no leading zero. */
  function Decimal(n: nat): (s: string)
    ensures |s| >= 1 && AllDigits(s)
    ensures |s| > 1 ==> s[0] != '0'
  {
    if n < 10 then [DigitChar(n)] else Decimal(n / 10) + [DigitChar(n % 10)]
  }

  /** `Int64.ToString()` in the invariant culture. */
  function Format(n: int64): (s: string)
    ensures |s| >= 1
    ensures forall i :: 0 <= i < |s| ==> !IsNumberWhite(s[i])
  {
    if n < 0 then "-" + Decimal(-(n as int)) else Decimal(n as nat)
  }

  /**
   * `Int64.Parse(s)` for a non-null `s`: a malformed text is a `FormatError` even when its
   * digits would also overflow; a well-formed one outside the range is an `OverflowError`.
   */
  function Parse(s: string): (r: Result<int64, ParseError>)
    ensures r != Failure(NullReference)
    ensures r.Success? ==> exists i :: 0 <= i < |s| && IsDigit(s[i])
  {
    var r := ParseSigned(Trim(s));
    assert r.Success? ==> exists i :: 0 <= i < |s| && IsDigit(s[i]) by {
      if r.Success? {
        var t := Trim(s);
        TrimInside(s);
        assert IsDigit(t[|t| - 1]) && t[|t| - 1] in t;
      }
    }
    r
  }

  /** The trimmed text: an optional sign followed by at least one digit, within the range. */
  function ParseSigned(t: string): (r: Result<int64, ParseError>)
    ensures r != Failure(NullReference)
    ensures r.Success? ==> |t| > 0 && IsDigit(t[|t| - 1])
  {
    var negative := |t| > 0 && t[0] == '-';
    var digits := if |t| > 0 && (t[0] == '-' || t[0] == '+') then t[1..] else t;
    if |digits| == 0 || !AllDigits(digits) then Failure(FormatError)
    else
      var v: int := if negative then -(DigitsValue(digits) as int) else DigitsValue(digits);
      if MinValue <= v <= MaxValue then Success(v as int64) else Failure(OverflowError)
  }

  /** Every character of the trimmed text comes from the original. */
  lemma {:induction false} TrimInside(s: string)
    ensures forall c :: c in Trim(s) ==> c in s
  {
    TrimStartInside(s);
    TrimEndInside(TrimStart(s));
  }

  lemma {:induction false} TrimStartInside(s: string)
    ensures forall c :: c in TrimStart(s) ==> c in s
  {
    if |s| > 0 && IsNumberWhite(s[0]) {
      TrimStartInside(s[1..]);
    }
  }

  lemma {:induction false} TrimEndInside(s: string)
    ensures forall c :: c in TrimEnd(s) ==> c in s
  {
    if |s| > 0 && IsNumberWhite(s[|s| - 1]) {
      TrimEndInside(s[..|s| - 1]);
    }
  }

  /**
   * The grammar of `NumberStyles.Integer`, stated on positions of `s` independently of `Parse`:
   * white space in `s[..i]`, an optional sign in `s[i..j]`, at least one digit in `s[j..k]`,
   * white space in `s[k..]`, and `v` the signed value of the digits.
   */
  predicate SignedDigitsAt(s: string, i: nat, j: nat, k: nat, v: int) {
    i <= j < k <= |s|
    && (forall m :: 0 <= m < i ==> IsNumberWhite(s[m]))
    && (forall m :: k <= m < |s| ==> IsNumberWhite(s[m]))
    && (j == i || (j == i + 1 && (s[i] == '-' || s[i] == '+')))
    && AllDigits(s[j..k])
    && v == (if j == i + 1 && s[i] == '-' then -(DigitsValue(s[j..k]) as int) else DigitsValue(s[j..k]))
  }

  /** `s` is an integer text whose value is `v` (in range or not). */
  ghost predicate WellFormed(s: string, v: int) {
    exists i: nat, j: nat, k: nat :: SignedDigitsAt(s, i, j, k, v)
  }

  /** A well-formed text parses to its value when that fits in 64 bits, and overflows otherwise. */
  lemma ParseWellFormed(s: string, i: nat, j: nat, k: nat, v: int)
    requires SignedDigitsAt(s, i, j, k, v)
    ensures Parse(s) == if MinValue <= v <= MaxValue then Success(v as int64) else Failure(OverflowError)
  {
    assert s[j..k][0] == s[j] && s[j..k][k - 1 - j] == s[k - 1];
    TrimBetween(s, i, k);
    var t := s[i..k];
    ParseOfTrimmed(s, t);
    assert t[j - i..] == s[j..k] && t[0] == s[i];
    SignedValue(t, j - i, v);
  }

  /** `Parse` is the signed step applied to the trimmed text. */
  lemma ParseOfTrimmed(s: string, t: string)
    requires Trim(s) == t
    ensures Parse(s) == ParseSigned(t)
  {
  }

  /** White space before `i` and a non-white `s[i]`: trimming the start stops exactly at `i`. */
  lemma {:induction false} TrimStartAt(s: string, i: nat)
    requires i < |s| && !IsNumberWhite(s[i])
    requires forall m :: 0 <= m < i ==> IsNumberWhite(s[m])
    ensures TrimStart(s) == s[i..]
  {
    if i == 0 {
      assert s[0..] == s;
    } else {
      var s' := s[1..];
      assert s'[i - 1] == s[i];
      assert forall m :: 0 <= m < i - 1 ==> s'[m] == s[m + 1];
      TrimStartAt(s', i - 1);
      assert s'[i - 1..] == s[i..];
    }
  }

  /** White space from `k` on and a non-white `t[k - 1]`: trimming the end stops exactly at `k`. */
  lemma {:induction false} TrimEndAt(t: string, k: nat)
    requires 0 < k <= |t| && !IsNumberWhite(t[k - 1])
    requires forall m :: k <= m < |t| ==> IsNumberWhite(t[m])
    ensures TrimEnd(t) == t[..k]
    decreases |t|
  {
    if k == |t| {
      assert t[..k] == t;
    } else {
      var t' := t[..|t| - 1];
      assert t'[k - 1] == t[k - 1];
      assert forall m :: k <= m < |t'| ==> t'[m] == t[m];
      TrimEndAt(t', k);
      assert t'[..k] == t[..k];
    }
  }

  /** White space outside `s[i..k]`, non-white ends inside: trimming leaves `s[i..k]`. */
  lemma TrimBetween(s: string, i: nat, k: nat)
    requires i < k <= |s|
    requires forall m :: 0 <= m < i ==> IsNumberWhite(s[m])
    requires forall m :: k <= m < |s| ==> IsNumberWhite(s[m])
    requires !IsNumberWhite(s[i]) && !IsNumberWhite(s[k - 1])
    ensures Trim(s) == s[i..k]
  {
    TrimStartAt(s, i);
    TrimEndSlice(s, i, k);
  }

  /** The end-trimming step of `TrimBetween`, on the suffix `s[i..]`. */
  lemma TrimEndSlice(s: string, i: nat, k: nat)
    requires i < k <= |s| && !IsNumberWhite(s[k - 1])
    requires forall m :: k <= m < |s| ==> IsNumberWhite(s[m])
    ensures TrimEnd(s[i..]) == s[i..k]
  {
    var t := s[i..];
    forall m | k - i <= m < |t|
      ensures IsNumberWhite(t[m])
    {
      assert t[m] == s[m + i];
    }
    assert t[k - i - 1] == s[k - 1];
    TrimEndAt(t, k - i);
    assert t[..k - i] == s[i..k];
  }

  /** The signed step of `Parse` on a sign of length `p` (0 or 1) followed by digits. */
  lemma SignedValue(t: string, p: nat, v: int)
    requires p < |t| && (p == 0 || (p == 1 && (t[0] == '-' || t[0] == '+')))
    requires AllDigits(t[p..])
    requires v == (if p == 1 && t[0] == '-' then -(DigitsValue(t[p..]) as int) else DigitsValue(t[p..]))
    ensures ParseSigned(t) == if MinValue <= v <= MaxValue then Success(v as int64) else Failure(OverflowError)
  {
    if p == 0 {
      assert t[0..] == t;
      assert IsDigit(t[0]);
    }
  }

  /** Trimming keeps a slice `s[i..k]` with white space only outside it. */
  lemma TrimShape(s: string) returns (i: nat, k: nat)
    ensures i <= k <= |s| && Trim(s) == s[i..k]
    ensures forall m :: 0 <= m < i ==> IsNumberWhite(s[m])
    ensures forall m :: k <= m < |s| ==> IsNumberWhite(s[m])
  {
    var t0 := TrimStart(s);
    i := |s| - |t0|;
    var n := |TrimEnd(t0)|;
    k := i + n;
    assert t0 == s[i..];
    forall m | k <= m < |s|
      ensures IsNumberWhite(s[m])
    {
      assert s[m] == t0[m - i];
    }
    assert Trim(s) == TrimEnd(t0) == t0[..n];
    assert t0[..n] == s[i..k];
  }

  /** A trimmed text that passes the format check is a sign of length `p` (0 or 1) and digits. */
  lemma SignedShape(t: string) returns (p: nat)
    requires ParseSigned(t) != Failure(FormatError)
    ensures p < |t| && (p == 0 || (p == 1 && (t[0] == '-' || t[0] == '+')))
    ensures AllDigits(t[p..])
  {
    p := if |t| > 0 && (t[0] == '-' || t[0] == '+') then 1 else 0;
    if p == 0 {
      assert t[p..] == t;
    }
  }

  /** A sign of length `p` and digits in the slice `s[i..k]`, white space outside: the grammar holds. */
  lemma SliceWellFormed(s: string, i: nat, k: nat, p: nat) returns (v: int)
    requires i <= k <= |s|
    requires forall m :: 0 <= m < i ==> IsNumberWhite(s[m])
    requires forall m :: k <= m < |s| ==> IsNumberWhite(s[m])
    requires p < k - i && (p == 0 || (p == 1 && (s[i] == '-' || s[i] == '+')))
    requires AllDigits(s[i + p..k])
    ensures SignedDigitsAt(s, i, i + p, k, v) && WellFormed(s, v)
    ensures v == (if p == 1 && s[i] == '-' then -(DigitsValue(s[i + p..k]) as int) else DigitsValue(s[i + p..k]))
  {
    v := if p == 1 && s[i] == '-' then -(DigitsValue(s[i + p..k]) as int) else DigitsValue(s[i + p..k]);
    assert SignedDigitsAt(s, i, i + p, k, v);
  }

  /** Whatever passes the format check of `Parse` is well formed: the converse of `ParseWellFormed`. */
  lemma ParseFormatOk(s: string)
    requires Parse(s) != Failure(FormatError)
    ensures exists v :: WellFormed(s, v) && (Parse(s).Success? ==> v == Parse(s).value as int)
  {
    var i, k := TrimShape(s);
    var t := s[i..k];
    ParseOfTrimmed(s, t);
    var p := SignedShape(t);
    assert t[p..] == s[i + p..k] && t[0] == s[i];
    var v := SliceWellFormed(s, i, k, p);
    SignedValue(t, p, v);
  }

  /** `Parse` succeeds with `v` exactly when `s` is a well-formed integer text of value `v` in range. */
  lemma ParseIff(s: string, v: int64)
    ensures Parse(s) == Success(v) <==> WellFormed(s, v as int)
  {
    if WellFormed(s, v as int) {
      var i: nat, j: nat, k: nat :| SignedDigitsAt(s, i, j, k, v as int);
      ParseWellFormed(s, i, j, k, v as int);
    }
    if Parse(s) == Success(v) {
      ParseFormatOk(s);
    }
  }

  /** A text that is not a well-formed integer is a `FormatError`, and only such a text is. */
  lemma ParseMalformed(s: string)
    ensures Parse(s) == Failure(FormatError) <==> forall v :: !WellFormed(s, v)
  {
    if Parse(s) != Failure(FormatError) {
      ParseFormatOk(s);
    }
    if exists v :: WellFormed(s, v) {
      var v :| WellFormed(s, v);
      var i: nat, j: nat, k: nat :| SignedDigitsAt(s, i, j, k, v);
      ParseWellFormed(s, i, j, k, v);
    }
  }

  /** An explicit plus sign is accepted. */
  lemma ParsePlusExample()
    ensures Parse("+5") == Success(5)
  {
    var d := "+5"[1..2];
    assert d == "5" && d[..0] == "";
    assert DigitsValue(d) == 5;
    assert SignedDigitsAt("+5", 0, 1, 2, 5);
    ParseWellFormed("+5", 0, 1, 2, 5);
  }

  /** A minus sign with leading zeros is accepted. */
  lemma ParseMinusZerosExample()
    ensures Parse("-007") == Success(-7)
  {
    var d := "-007"[1..4];
    assert d == "007";
    assert d[..2] == "00" && d[..2][..1] == "0" && d[..2][..1][..0] == "";
    assert DigitsValue("0") == 0 by { assert "0"[..0] == ""; }
    assert DigitsValue("00") == 0 by { assert "00"[..1] == "0"; }
    assert DigitsValue(d[..2]) == 0;
    assert DigitsValue(d) == 7;
    assert SignedDigitsAt("-007", 0, 1, 4, -7);
    ParseWellFormed("-007", 0, 1, 4, -7);
  }

  /** The characters a well-formed text is made of, by position within the grammar. */
  lemma SignedDigitsChar(s: string, i: nat, j: nat, k: nat, v: int, m: nat)
    requires SignedDigitsAt(s, i, j, k, v) && m < |s|
    ensures m < i || k <= m ==> IsNumberWhite(s[m])
    ensures i <= m < j ==> s[m] == '-' || s[m] == '+'
    ensures j <= m < k ==> IsDigit(s[m])
  {
    if j <= m < k {
      assert s[j..k][m - j] == s[m];
    }
  }

  predicate NumberChar(c: char) {
    IsNumberWhite(c) || IsDigit(c) || c == '-' || c == '+'
  }

  /** A well-formed text is made of white space, signs and digits. */
  lemma WellFormedChars(s: string, m: nat)
    requires m < |s|
    ensures forall v :: WellFormed(s, v) ==> NumberChar(s[m])
  {
    forall v | WellFormed(s, v)
      ensures NumberChar(s[m])
    {
      var i: nat, j: nat, k: nat :| SignedDigitsAt(s, i, j, k, v);
      SignedDigitsChar(s, i, j, k, v, m);
    }
  }

  /** A well-formed text holds a digit. */
  lemma WellFormedHasDigit(s: string)
    ensures forall v :: WellFormed(s, v) ==> exists n :: 0 <= n < |s| && IsDigit(s[n])
  {
    forall v | WellFormed(s, v)
      ensures exists n :: 0 <= n < |s| && IsDigit(s[n])
    {
      var i: nat, j: nat, k: nat :| SignedDigitsAt(s, i, j, k, v);
      SignedDigitsChar(s, i, j, k, v, j);
    }
  }

  /** In a well-formed text, nothing but digits and white space follows a digit. */
  lemma WellFormedAfterDigit(s: string, m: nat, n: nat)
    requires m < n < |s|
    ensures forall v :: WellFormed(s, v) && IsDigit(s[m]) ==> IsDigit(s[n]) || IsNumberWhite(s[n])
  {
    forall v | WellFormed(s, v) && IsDigit(s[m])
      ensures IsDigit(s[n]) || IsNumberWhite(s[n])
    {
      var i: nat, j: nat, k: nat :| SignedDigitsAt(s, i, j, k, v);
      SignedDigitsChar(s, i, j, k, v, m);
      SignedDigitsChar(s, i, j, k, v, n);
    }
  }

  /** In a well-formed text, the digits are contiguous: white space after a digit ends them. */
  lemma WellFormedDigitsContiguous(s: string, m: nat, n: nat, p: nat)
    requires m < n < p < |s|
    ensures forall v :: WellFormed(s, v) && IsDigit(s[m]) && IsNumberWhite(s[n]) ==> !IsDigit(s[p])
  {
    forall v | WellFormed(s, v) && IsDigit(s[m]) && IsNumberWhite(s[n])
      ensures !IsDigit(s[p])
    {
      var i: nat, j: nat, k: nat :| SignedDigitsAt(s, i, j, k, v);
      SignedDigitsChar(s, i, j, k, v, m);
      SignedDigitsChar(s, i, j, k, v, n);
      SignedDigitsChar(s, i, j, k, v, p);
    }
  }

  /** A text holding a character that is neither white space, a digit nor a sign is a `FormatError`. */
  lemma ParseForeignChar(s: string, i: nat)
    requires i < |s| && !IsNumberWhite(s[i]) && !IsDigit(s[i]) && s[i] != '-' && s[i] != '+'
    ensures Parse(s) == Failure(FormatError)
  {
    WellFormedChars(s, i);
    ParseMalformed(s);
  }

  /** A text without a digit (empty, only white space, a sign alone) is a `FormatError`. */
  lemma ParseNoDigit(s: string)
    requires forall i :: 0 <= i < |s| ==> !IsDigit(s[i])
    ensures Parse(s) == Failure(FormatError)
  {
    WellFormedHasDigit(s);
    ParseMalformed(s);
  }

  /** A text that is empty or only white space is a `FormatError`. */
  lemma ParseBlank(s: string)
    requires forall i :: 0 <= i < |s| ==> IsNumberWhite(s[i])
    ensures Parse(s) == Failure(FormatError)
  {
    ParseNoDigit(s);
  }

  /** A sign after a digit is a `FormatError`. */
  lemma ParseSignAfterDigit(s: string, m: nat, n: nat)
    requires m < n < |s| && IsDigit(s[m]) && (s[n] == '-' || s[n] == '+')
    ensures Parse(s) == Failure(FormatError)
  {
    WellFormedAfterDigit(s, m, n);
    ParseMalformed(s);
  }

  /** White space between two digits is a `FormatError`. */
  lemma ParseSpaceBetweenDigits(s: string, m: nat, n: nat, p: nat)
    requires m < n < p < |s| && IsDigit(s[m]) && IsNumberWhite(s[n]) && IsDigit(s[p])
    ensures Parse(s) == Failure(FormatError)
  {
    WellFormedDigitsContiguous(s, m, n, p);
    ParseMalformed(s);
  }

  /** A sign inside the digits, a sign alone and white space between digits are format errors. */
  lemma ParseRejectExamples()
    ensures Parse("1-2") == Failure(FormatError)
    ensures Parse("-") == Failure(FormatError)
    ensures Parse(" 1 2 ") == Failure(FormatError)
  {
    ParseInnerSignExample();
    ParseLoneSignExample();
    ParseInnerSpaceExample();
  }

  lemma ParseInnerSignExample()
    ensures Parse("1-2") == Failure(FormatError)
  {
    var s := "1-2";
    assert IsDigit(s[0]) && s[1] == '-';
    ParseSignAfterDigit(s, 0, 1);
  }

  lemma ParseLoneSignExample()
    ensures Parse("-") == Failure(FormatError)
  {
    var s := "-";
    assert forall i :: 0 <= i < |s| ==> s[i] == '-';
    ParseNoDigit(s);
  }

  lemma ParseInnerSpaceExample()
    ensures Parse(" 1 2 ") == Failure(FormatError)
  {
    var s := " 1 2 ";
    assert IsDigit(s[1]) && IsNumberWhite(s[2]) && IsDigit(s[3]);
    ParseSpaceBetweenDigits(s, 1, 2, 3);
  }

  /** Reading back the decimal form of `n` gives `n`. */
  lemma {:induction false} DecimalValue(n: nat)
    ensures DigitsValue(Decimal(n)) == n
  {
    if n >= 10 {
      var s := Decimal(n);
      DecimalValue(n / 10);
      assert s[..|s| - 1] == Decimal(n / 10);
    }
  }

  /** `Int64.Parse(n.ToString()) == n` for every 64-bit `n`. */
  lemma ParseFormat(n: int64)
    ensures Parse(Format(n)) == Success(n)
  {
    var s := Format(n);
    if n < 0 {
      var m := -(n as int);
      DecimalValue(m);
      assert s[1..|s|] == Decimal(m);
      assert SignedDigitsAt(s, 0, 1, |s|, n as int);
      ParseWellFormed(s, 0, 1, |s|, n as int);
    } else {
      DecimalValue(n as nat);
      assert s[0..|s|] == s;
      assert SignedDigitsAt(s, 0, 0, |s|, n as int);
      ParseWellFormed(s, 0, 0, |s|, n as int);
    }
  }

  /** Leading zeros and white space around the number do not change the value. */
  lemma ParsePadded(n: nat, zeros: nat, before: string, after: string)
    requires n <= MaxValue
    requires forall i :: 0 <= i < |before| ==> IsNumberWhite(before[i])
    requires forall i :: 0 <= i < |after| ==> IsNumberWhite(after[i])
    ensures Parse(before + seq(zeros, _ => '0') + Decimal(n) + after) == Success(n as int64)
  {
    var d := seq(zeros, _ => '0') + Decimal(n);
    var s := before + d + after;
    assert before + seq(zeros, _ => '0') + Decimal(n) + after == s;
    PaddedValue(zeros, Decimal(n));
    DecimalValue(n);
    var j, k := |before|, |before| + |d|;
    assert s[j..k] == d;
    assert forall m :: 0 <= m < j ==> s[m] == before[m];
    assert forall m :: k <= m < |s| ==> s[m] == after[m - k];
    assert SignedDigitsAt(s, j, j, k, n);
    ParseWellFormed(s, j, j, k, n);
  }

  /** A well-formed run of digits whose value exceeds the range is an overflow, not a format error. */
  lemma ParseTooLarge(digits: string)
    requires |digits| >= 1 && AllDigits(digits) && DigitsValue(digits) > MaxValue
    ensures Parse(digits) == Failure(OverflowError)
  {
    assert digits[0..|digits|] == digits;
    assert SignedDigitsAt(digits, 0, 0, |digits|, DigitsValue(digits));
    ParseWellFormed(digits, 0, 0, |digits|, DigitsValue(digits));
  }

  /** The same below the range: `-9223372036854775809` and beyond overflow. */
  lemma ParseTooSmall(digits: string)
    requires |digits| >= 1 && AllDigits(digits) && DigitsValue(digits) > -MinValue
    ensures Parse("-" + digits) == Failure(OverflowError)
  {
    var neg := "-" + digits;
    assert neg[1..|neg|] == digits;
    assert SignedDigitsAt(neg, 0, 1, |neg|, -(DigitsValue(digits) as int));
    ParseWellFormed(neg, 0, 1, |neg|, -(DigitsValue(digits) as int));
  }

  lemma {:induction false} PaddedValue(zeros: nat, d: string)
    requires AllDigits(d)
    ensures AllDigits(seq(zeros, _ => '0') + d)
    ensures DigitsValue(seq(zeros, _ => '0') + d) == DigitsValue(d)
    decreases |d|
  {
    var z := seq(zeros, _ => '0');
    if |d| == 0 {
      assert z + d == z;
      ZerosValue(zeros);
    } else {
      PaddedValue(zeros, d[..|d| - 1]);
      assert (z + d)[..|z + d| - 1] == z + d[..|d| - 1];
    }
  }

  lemma {:induction false} ZerosValue(zeros: nat)
    ensures DigitsValue(seq(zeros, _ => '0')) == 0
  {
    if zeros > 0 {
      ZerosValue(zeros - 1);
      assert seq(zeros, _ => '0')[..zeros - 1] == seq(zeros - 1, _ => '0');
    }
  }
}
