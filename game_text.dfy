/** Text helpers of the game: whitespace trimming, the column-letter codec of
    the grid (A, B, ..., Z, AA, AB, ...: bijective base 26) and strict integer
    parsing. Characters are classified as in the "C" locale. */
module GameText {
  import opened Wrappers

  /** The six whitespace characters of the "C" locale. */
  predicate IsSpace(c: char) {
    c == ' ' || c == '\t' || c == '\n' || c == '\r' || c == '\U{B}' || c == '\U{C}'
  }

  predicate IsDigit(c: char) {
    '0' <= c <= '9'
  }

  /** Upper-case of an ASCII letter; every other character is unchanged. */
  function Upper(c: char): (u: char)
    ensures 'a' <= c <= 'z' ==> 'A' <= u <= 'Z' && u as int - 'A' as int == c as int - 'a' as int
    ensures !('a' <= c <= 'z') ==> u == c
  {
    if 'a' <= c <= 'z' then (c as int - 32) as char else c
  }

  /** A letter of either case. */
  predicate IsLetter(c: char) {
    'A' <= Upper(c) <= 'Z'
  }

  // ---------------------------------------------------------------- trimming

  /** Index of the first non-space character (|s| when there is none). */
  function TrimBegin(s: string, b: nat := 0): (r: nat)
    requires b <= |s|
    ensures b <= r <= |s|
    ensures forall i :: b <= i < r ==> IsSpace(s[i])
    ensures r < |s| ==> !IsSpace(s[r])
    decreases |s| - b
  {
    if b < |s| && IsSpace(s[b]) then TrimBegin(s, b + 1) else b
  }

  /** One past the last non-space character at or after b (b when there is
      none). */
  function TrimEnd(s: string, b: nat, e: nat): (r: nat)
    requires b <= e <= |s|
    ensures b <= r <= e
    ensures forall i :: r <= i < e ==> IsSpace(s[i])
    ensures r > b ==> !IsSpace(s[r - 1])
  {
    if e > b && IsSpace(s[e - 1]) then TrimEnd(s, b, e - 1) else e
  }

  /** The text without its leading and trailing whitespace. */
  function TrimWs(s: string): (r: string)
    ensures TrimBegin(s) + |r| <= |s|
    ensures r == s[TrimBegin(s)..TrimBegin(s) + |r|]
    ensures forall i :: 0 <= i < TrimBegin(s) ==> IsSpace(s[i])
    ensures forall i :: TrimBegin(s) + |r| <= i < |s| ==> IsSpace(s[i])
    ensures r != [] ==> !IsSpace(r[0]) && !IsSpace(r[|r| - 1])
  {
    var b := TrimBegin(s);
    s[b..TrimEnd(s, b, |s|)]
  }

  /** Only an all-whitespace text trims to nothing. */
  lemma TrimWsEmpty(s: string)
    ensures TrimWs(s) == [] <==> forall i :: 0 <= i < |s| ==> IsSpace(s[i])
  {
    var b := TrimBegin(s);
    if b < |s| {
      assert !IsSpace(s[b]);
      assert TrimEnd(s, b, |s|) > b;
    }
  }

  /** A text without leading or trailing whitespace trims to itself. */
  lemma TrimWsOfTrimmed(s: string)
    requires s != [] ==> !IsSpace(s[0]) && !IsSpace(s[|s| - 1])
    ensures TrimWs(s) == s
  {
    if s != [] {
      assert TrimBegin(s) == 0;
      assert TrimEnd(s, 0, |s|) == |s|;
    }
  }

  /** Trimming twice is trimming once. */
  lemma TrimWsIdempotent(s: string)
    ensures TrimWs(TrimWs(s)) == TrimWs(s)
  {
    TrimWsOfTrimmed(TrimWs(s));
  }

  // ------------------------------------------------------------ column codec

  function Letter(k: int): (c: char)
    requires 0 <= k < 26
    ensures 'A' <= c <= 'Z' && c as int - 'A' as int == k
  {
    ('A' as int + k) as char
  }

  /** The column name of index i: "A" for 0, "Z" for 25, "AA" for 26, ...;
      made of upper-case letters only, and empty exactly for a negative index. */
  function ColToLetters(i: int): (r: string)
    ensures forall k :: 0 <= k < |r| ==> 'A' <= r[k] <= 'Z'
    ensures r == [] <==> i < 0
    decreases i + 1
  {
    if i < 0 then "" else ColToLetters(i / 26 - 1) + [Letter(i % 26)]
  }

  /** Letter value 1..26 of a letter of either case. */
  function Digit(c: char): (d: int)
    requires IsLetter(c)
    ensures 1 <= d <= 26
  {
    Upper(c) as int - 'A' as int + 1
  }

  /** The loop of the decoder, started with accumulated value `val` and flag
      `any` (some letter seen): whitespace is skipped, a character that is
      neither space nor letter is an error (-1), and at the end the value less
      one is the index, or -1 when no letter was seen. Whatever the start, a
      bad character anywhere, or no letter at all, gives -1. */
  function Scan(s: string, val: int, any: bool): (r: int)
    ensures (exists k :: 0 <= k < |s| && !IsSpace(s[k]) && !IsLetter(s[k])) ==> r == -1
    ensures !any && (forall k :: 0 <= k < |s| ==> IsSpace(s[k])) ==> r == -1
  {
    if s == [] then (if any then val - 1 else -1)
    else if IsSpace(s[0]) then ShiftExists(s); Scan(s[1..], val, any)
    else if !IsLetter(s[0]) then -1
    else ShiftExists(s); Scan(s[1..], val * 26 + Digit(s[0]), true)
  }

  /** The index a column name denotes: -1 exactly when the text has a
      character that is neither whitespace nor a letter, or no letter at all;
      otherwise an index of at least 0. */
  function LettersToCol(s: string): (r: int)
    ensures r == -1 <==>
              (exists k :: 0 <= k < |s| && !IsSpace(s[k]) && !IsLetter(s[k])) ||
              (forall k :: 0 <= k < |s| ==> IsSpace(s[k]))
    ensures r >= -1
  {
    ScanResult(s, 0, false);
    Scan(s, 0, false)
  }

  /** Bijective base-26 value of a word of letters, read left to right from
      `val`. */
  function Fold(val: int, w: string): int
    requires forall k :: 0 <= k < |w| ==> IsLetter(w[k])
    decreases w
  {
    if w == [] then val else Fold(val * 26 + Digit(w[0]), w[1..])
  }

  lemma {:induction false} FoldAppend(val: int, w: string, c: char)
    requires forall k :: 0 <= k < |w| ==> IsLetter(w[k])
    requires IsLetter(c)
    ensures Fold(val, w + [c]) == Fold(val, w) * 26 + Digit(c)
    decreases w
  {
    if w != [] {
      assert (w + [c])[1..] == w[1..] + [c];
      FoldAppend(val * 26 + Digit(w[0]), w[1..], c);
    }
  }

  lemma {:induction false} FoldPositive(val: int, w: string)
    requires forall k :: 0 <= k < |w| ==> IsLetter(w[k])
    requires val >= 0 && w != []
    ensures Fold(val, w) >= 1
    decreases w
  {
    if w[1..] != [] {
      FoldPositive(val * 26 + Digit(w[0]), w[1..]);
    }
  }

  /** The name of index i >= -1 folds to i + 1. */
  lemma {:induction false} FoldColToLetters(i: int)
    requires i >= -1
    ensures forall k :: 0 <= k < |ColToLetters(i)| ==> IsLetter(ColToLetters(i)[k])
    ensures Fold(0, ColToLetters(i)) == i + 1
    decreases i + 1
  {
    if i >= 0 {
      var q, r := i / 26 - 1, i % 26;
      FoldColToLetters(q);
      FoldAppend(0, ColToLetters(q), Letter(r));
      assert (q + 1) * 26 + r + 1 == i + 1;
    }
  }

  /** On a non-empty word of letters the decoder computes its value less one. */
  lemma {:induction false} ScanLetters(w: string, val: int, any: bool)
    requires forall k :: 0 <= k < |w| ==> IsLetter(w[k])
    requires any || w != []
    ensures Scan(w, val, any) == Fold(val, w) - 1
  {
    if w != [] {
      ScanLetters(w[1..], val * 26 + Digit(w[0]), true);
    }
  }

  /** Decoding the name of a column gives back its index. */
  lemma ColumnRoundTrip(i: int)
    requires i >= 0
    ensures LettersToCol(ColToLetters(i)) == i
  {
    FoldColToLetters(i);
    ScanLetters(ColToLetters(i), 0, false);
  }

  /** Different indices have different names. */
  lemma ColumnNamesDistinct(i: int, j: int)
    requires 0 <= i && 0 <= j && i != j
    ensures ColToLetters(i) != ColToLetters(j)
  {
    ColumnRoundTrip(i);
    ColumnRoundTrip(j);
  }

  /** The text with every whitespace character removed. */
  function WithoutSpaces(s: string): (r: string)
    ensures forall k :: 0 <= k < |r| ==> !IsSpace(r[k])
  {
    if s == [] then []
    else if IsSpace(s[0]) then WithoutSpaces(s[1..])
    else [s[0]] + WithoutSpaces(s[1..])
  }

  /** Every ASCII letter to upper case. */
  function UpperAll(s: string): (r: string)
    ensures |r| == |s| && forall k :: 0 <= k < |s| ==> r[k] == Upper(s[k])
  {
    if s == [] then [] else [Upper(s[0])] + UpperAll(s[1..])
  }

  lemma {:induction false} ScanIgnoresSpaces(s: string, val: int, any: bool)
    ensures Scan(s, val, any) == Scan(WithoutSpaces(s), val, any)
  {
    if s != [] {
      ScanIgnoresSpaces(s[1..], val, any);
      ScanIgnoresSpaces(s[1..], val * 26, true);
      if !IsSpace(s[0]) {
        var t := [s[0]] + WithoutSpaces(s[1..]);
        assert t[0] == s[0] && t[1..] == WithoutSpaces(s[1..]);
        if IsLetter(s[0]) {
          ScanIgnoresSpaces(s[1..], val * 26 + Digit(s[0]), true);
        }
      }
    }
  }

  lemma {:induction false} ScanIgnoresCase(s: string, val: int, any: bool)
    ensures Scan(s, val, any) == Scan(UpperAll(s), val, any)
  {
    if s != [] {
      var t := UpperAll(s);
      assert t[0] == Upper(s[0]) && t[1..] == UpperAll(s[1..]);
      assert IsSpace(Upper(s[0])) <==> IsSpace(s[0]);
      assert IsLetter(Upper(s[0])) <==> IsLetter(s[0]);
      ScanIgnoresCase(s[1..], val, any);
      if IsLetter(s[0]) {
        ScanIgnoresCase(s[1..], val * 26 + Digit(s[0]), true);
      }
    }
  }

  /** The decoder ignores whitespace and letter case. */
  lemma LettersToColNormalizes(s: string)
    ensures LettersToCol(s) == LettersToCol(WithoutSpaces(s))
    ensures LettersToCol(s) == LettersToCol(UpperAll(s))
  {
    ScanIgnoresSpaces(s, 0, false);
    ScanIgnoresCase(s, 0, false);
  }

  /** The decoder fails (-1) exactly on a text with a character that is neither
      whitespace nor a letter, or with no letter at all; otherwise it gives an
      index of at least 0. */
  lemma {:induction false} ScanResult(s: string, val: int, any: bool)
    requires val >= 0 && (any ==> val >= 1)
    ensures Scan(s, val, any) == -1 <==>
              (exists k :: 0 <= k < |s| && !IsSpace(s[k]) && !IsLetter(s[k])) ||
              (!any && forall k :: 0 <= k < |s| ==> IsSpace(s[k]))
    ensures Scan(s, val, any) >= -1
  {
    if s != [] {
      if IsSpace(s[0]) {
        ScanResult(s[1..], val, any);
        ShiftExists(s);
      } else if !IsLetter(s[0]) {
        assert !IsSpace(s[0]) && !IsLetter(s[0]);
      } else {
        ScanResult(s[1..], val * 26 + Digit(s[0]), true);
        ShiftExists(s);
        assert !IsSpace(s[0]);
      }
    }
  }

  lemma ShiftExists(s: string)
    requires s != [] && (IsSpace(s[0]) || IsLetter(s[0]))
    ensures (exists k :: 0 <= k < |s| && !IsSpace(s[k]) && !IsLetter(s[k])) <==>
            (exists k :: 0 <= k < |s[1..]| && !IsSpace(s[1..][k]) && !IsLetter(s[1..][k]))
  {
    if exists k :: 0 <= k < |s| && !IsSpace(s[k]) && !IsLetter(s[k]) {
      var k :| 0 <= k < |s| && !IsSpace(s[k]) && !IsLetter(s[k]);
      assert s[1..][k - 1] == s[k];
    }
    if exists k :: 0 <= k < |s[1..]| && !IsSpace(s[1..][k]) && !IsLetter(s[1..][k]) {
      var k :| 0 <= k < |s[1..]| && !IsSpace(s[1..][k]) && !IsLetter(s[1..][k]);
      assert s[k + 1] == s[1..][k];
    }
  }

  // ---------------------------------------------------------- integer parsing

  const IntMin: int := -0x8000_0000
  const IntMax: int := 0x7FFF_FFFF

  /** Decimal value of a digit string, most significant digit first. */
  function DecimalValue(ds: string): (v: nat)
    requires forall k :: 0 <= k < |ds| ==> IsDigit(ds[k])
  {
    if ds == [] then 0
    else
      var d := ds[|ds| - 1];
      assert IsDigit(d);
      DecimalValue(ds[..|ds| - 1]) * 10 + (d as int - '0' as int)
  }

  /** Where the digits start: after an optional leading sign. */
  function DigitsStart(t: string): (i: nat)
    ensures i <= 1 && (t == [] ==> i == 0)
  {
    if t != [] && (t[0] == '+' || t[0] == '-') then 1 else 0
  }

  /** Every character from index i on is a digit. */
  function AllDigitsFrom(t: string, i: nat): (ok: bool)
    requires i <= |t|
    ensures ok <==> forall k :: i <= k < |t| ==> IsDigit(t[k])
    decreases |t| - i
  {
    i == |t| || (IsDigit(t[i]) && AllDigitsFrom(t, i + 1))
  }

  /** The trimmed text is an optional sign followed by at least one digit. */
  predicate IsSignedDecimal(t: string) {
    DigitsStart(t) < |t| && forall k :: DigitsStart(t) <= k < |t| ==> IsDigit(t[k])
  }

  /** Value of a signed decimal text. */
  function SignedValue(t: string): int
    requires IsSignedDecimal(t)
  {
    var m: int := DecimalValue(t[DigitsStart(t)..]);
    if t[0] == '-' then -m else m
  }

  /** Reads an int from s, allowing surrounding whitespace: returns (true, v) on
      success and (false, out) otherwise, `out` being the caller's variable that
      is left as it was. */
  function ParseIntStrict(s: string, out: int): (r: (bool, int))
    ensures r.0 <==> IsSignedDecimal(TrimWs(s)) && IntMin <= SignedValue(TrimWs(s)) <= IntMax
    ensures r.0 ==> r.1 == SignedValue(TrimWs(s))
    ensures !r.0 ==> r.1 == out
  {
    var t := TrimWs(s);
    if t == [] then (false, out)
    else if (t[0] == '+' || t[0] == '-') && |t| == 1 then (false, out)
    else if !AllDigitsFrom(t, DigitsStart(t)) then (false, out)
    else
      var v := SignedValue(t);
      if v < IntMin || v > IntMax then (false, out) else (true, v)
  }

  /** Decimal digits of a natural number, without leading zeros. */
  function Digits(n: nat): (ds: string)
    ensures ds != [] && forall k :: 0 <= k < |ds| ==> IsDigit(ds[k])
  {
    if n < 10 then [('0' as int + n) as char]
    else Digits(n / 10) + [('0' as int + n % 10) as char]
  }

  lemma {:induction false} DigitsValue(n: nat)
    ensures DecimalValue(Digits(n)) == n
  {
    if n >= 10 {
      DigitsValue(n / 10);
      var ds := Digits(n);
      assert ds[..|ds| - 1] == Digits(n / 10);
    }
  }

  /** The decimal text of an int, with a leading '-' when negative. */
  function IntText(n: int): (t: string)
    ensures t != []
  {
    if n < 0 then "-" + Digits(-n) else Digits(n)
  }

  /** The decimal text of an int is a signed decimal denoting that int. */
  lemma IntTextValue(n: int)
    ensures IsSignedDecimal(IntText(n)) && SignedValue(IntText(n)) == n
  {
    var t := IntText(n);
    if n < 0 {
      assert t[1..] == Digits(-n);
      DigitsValue(-n);
    } else {
      DigitsValue(n);
      assert t[DigitsStart(t)..] == t;
    }
  }

  /** Printing an int and parsing it back gives the same int. */
  lemma ParseIntText(n: int, out: int)
    requires IntMin <= n <= IntMax
    ensures ParseIntStrict(IntText(n), out) == (true, n)
  {
    var t := IntText(n);
    assert !IsSpace(t[0]) && !IsSpace(t[|t| - 1]);
    TrimWsOfTrimmed(t);
    IntTextValue(n);
  }
}
