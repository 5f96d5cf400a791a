/** The Python string built-ins the engine relies on: strip, lstrip, rstrip,
    find (as a prefix or containment test), replace and int(). */
module Strings {
  import opened Errors

  /** The characters for which Python's str.isspace() holds; str.strip(),
      lstrip() and rstrip() without arguments remove exactly these. */
  predicate IsSpace(c: char)
  {
    || c == ' '
    || '\t' <= c <= '\r'
    || '\U{1C}' <= c <= '\U{1F}'
    || c == '\U{85}'
    || c == '\U{A0}'
    || c == '\U{1680}'
    || '\U{2000}' <= c <= '\U{200A}'
    || c == '\U{2028}'
    || c == '\U{2029}'
    || c == '\U{202F}'
    || c == '\U{205F}'
    || c == '\U{3000}'
  }

  predicate AllSpace(s: string)
  {
    forall k :: 0 <= k < |s| ==> IsSpace(s[k])
  }

  /** The index of the first character at or after `i` that is not whitespace
      (|s| when there is none). */
  function SpaceEnd(s: string, i: nat): (r: nat)
    requires i <= |s|
    ensures i <= r <= |s|
    decreases |s| - i
  {
    if i < |s| && IsSpace(s[i]) then SpaceEnd(s, i + 1) else i
  }

  /** The index just after the last character before `j` that is not whitespace
      (0 when there is none). */
  function SpaceStart(s: string, j: nat): (r: nat)
    requires j <= |s|
    ensures r <= j
  {
    if j > 0 && IsSpace(s[j - 1]) then SpaceStart(s, j - 1) else j
  }

  lemma {:induction false} SpaceEndIsMaximal(s: string, i: nat)
    requires i <= |s|
    ensures forall k :: i <= k < SpaceEnd(s, i) ==> IsSpace(s[k])
    ensures SpaceEnd(s, i) == |s| || !IsSpace(s[SpaceEnd(s, i)])
    decreases |s| - i
  {
    if i < |s| && IsSpace(s[i]) {
      SpaceEndIsMaximal(s, i + 1);
    }
  }

  lemma {:induction false} SpaceStartIsMaximal(s: string, j: nat)
    requires j <= |s|
    ensures forall k :: SpaceStart(s, j) <= k < j ==> IsSpace(s[k])
    ensures SpaceStart(s, j) == 0 || !IsSpace(s[SpaceStart(s, j) - 1])
  {
    if j > 0 && IsSpace(s[j - 1]) {
      SpaceStartIsMaximal(s, j - 1);
    }
  }

  /** s.lstrip() */
  function LStrip(s: string): string
  {
    s[SpaceEnd(s, 0)..]
  }

  /** s.rstrip() */
  function RStrip(s: string): string
  {
    s[..SpaceStart(s, |s|)]
  }

  /** s.strip() */
  function Strip(s: string): string
  {
    RStrip(LStrip(s))
  }

  /** lstrip() removes exactly the maximal whitespace prefix. */
  lemma {:induction false} LStripIsMaximal(s: string)
    ensures var r := LStrip(s);
      && |r| <= |s| && r == s[|s| - |r|..]
      && AllSpace(s[..|s| - |r|])
      && (r == [] || !IsSpace(r[0]))
  {
    SpaceEndIsMaximal(s, 0);
  }

  /** rstrip() removes exactly the maximal whitespace suffix. */
  lemma {:induction false} RStripIsMaximal(s: string)
    ensures var r := RStrip(s);
      && |r| <= |s| && r == s[..|r|]
      && AllSpace(s[|r|..])
      && (r == [] || !IsSpace(r[|r| - 1]))
  {
    SpaceStartIsMaximal(s, |s|);
  }

  /** The leading whitespace of an instruction, computed as replaceVariableRunInstruction
      does it: from the length that lstrip() removes. */
  function LeadingSpace(s: string): string
  {
    var n := |s| - |LStrip(s)|;
    if n > 0 then s[..n] else ""
  }

  /** The trailing whitespace of an instruction, from the length that rstrip() removes
      (`s[-n:]` in Python). */
  function TrailingSpace(s: string): string
  {
    var n := |s| - |RStrip(s)|;
    if n > 0 then s[|s| - n..] else ""
  }

  /** The leading whitespace is the maximal whitespace prefix. */
  lemma {:induction false} LeadingSpaceIsMaximal(s: string)
    ensures var l := LeadingSpace(s);
      && |l| <= |s| && l == s[..|l|] && AllSpace(l) && (|l| == |s| || !IsSpace(s[|l|]))
  {
    var n := SpaceEnd(s, 0);
    SpaceEndIsMaximal(s, 0);
    assert |LStrip(s)| == |s| - n;
    var l := LeadingSpace(s);
    assert |l| == n;
    assert forall k :: 0 <= k < n ==> l[k] == s[k];
  }

  /** The trailing whitespace is the maximal whitespace suffix. */
  lemma {:induction false} TrailingSpaceIsMaximal(s: string)
    ensures var t := TrailingSpace(s);
      && |t| <= |s| && t == s[|s| - |t|..] && AllSpace(t) && (|t| == |s| || !IsSpace(s[|s| - |t| - 1]))
  {
    var m := SpaceStart(s, |s|);
    SpaceStartIsMaximal(s, |s|);
    assert |RStrip(s)| == m;
    var t := TrailingSpace(s);
    assert |t| == |s| - m;
    assert forall k :: 0 <= k < |t| ==> t[k] == s[m + k];
  }

  /** The string that replaces an instruction: the value wrapped in the instruction's
      own leading and trailing whitespace. */
  function Replacement(instruction: string, value: string): string
  {
    LeadingSpace(instruction) + value + TrailingSpace(instruction)
  }

  /** Splitting off the whitespace loses nothing: a string that is not all whitespace is
      its leading whitespace, its stripped text and its trailing whitespace; a string that
      is all whitespace is its own leading and its own trailing whitespace, so its
      replacement is the value wrapped in two copies of it. */
  lemma {:induction false} SplitAroundStrip(s: string, value: string)
    ensures Strip(s) == [] <==> AllSpace(s)
    ensures Strip(s) != [] ==> s == LeadingSpace(s) + Strip(s) + TrailingSpace(s)
    ensures AllSpace(s) ==> LeadingSpace(s) == s == TrailingSpace(s)
    ensures AllSpace(s) ==> Replacement(s, value) == s + value + s
  {
    if AllSpace(s) {
      AllSpaceIsItsOwnMargin(s);
    } else {
      StripDecomposition(s);
    }
  }

  lemma {:induction false} AllSpaceIsItsOwnMargin(s: string)
    requires AllSpace(s)
    ensures Strip(s) == []
    ensures LeadingSpace(s) == s == TrailingSpace(s)
  {
    SpaceEndIsMaximal(s, 0);
    assert SpaceEnd(s, 0) == |s|;
    SpaceStartIsMaximal(s, |s|);
    assert SpaceStart(s, |s|) == 0;
  }

  lemma {:induction false} StripDecomposition(s: string)
    requires !AllSpace(s)
    ensures Strip(s) != []
    ensures s == LeadingSpace(s) + Strip(s) + TrailingSpace(s)
  {
    var a, c := SpaceEnd(s, 0), SpaceStart(s, |s|);
    StripIsSlice(s);
    assert LeadingSpace(s) == s[..a];
    assert TrailingSpace(s) == s[c..];
    SplitThree(s, a, c);
  }

  /** The stripped text of a string that is not all whitespace is the part between its
      leading and its trailing whitespace, and it is not empty. */
  lemma {:induction false} StripIsSlice(s: string)
    requires !AllSpace(s)
    ensures SpaceEnd(s, 0) < SpaceStart(s, |s|)
    ensures Strip(s) == s[SpaceEnd(s, 0)..SpaceStart(s, |s|)]
  {
    var a := SpaceEnd(s, 0);
    SpaceEndIsMaximal(s, 0);
    var l := s[a..];
    var b := SpaceStart(l, |l|);
    SpaceStartIsMaximal(l, |l|);
    assert a < |s|;
    assert b > 0 by { assert !IsSpace(l[0]); }
    SpaceStartOfSuffix(s, a, b);
  }

  lemma {:induction false} SplitThree(s: string, a: nat, c: nat)
    requires a <= c <= |s|
    ensures s == s[..a] + s[a..c] + s[c..]
  {
  }

  /** rstrip() of a string looks no further back than where its lstrip() starts when that
      part is not all whitespace. */
  lemma {:induction false} SpaceStartOfSuffix(s: string, a: nat, b: nat)
    requires a <= |s| && b == SpaceStart(s[a..], |s| - a) && b > 0
    ensures SpaceStart(s, |s|) == a + b
  {
    var l := s[a..];
    SpaceStartIsMaximal(l, |l|);
    SpaceStartAt(s, |s|, a + b);
  }

  /** SpaceStart stops at `m` when everything from `m` to `j` is whitespace and the
      character before `m` is not. */
  lemma {:induction false} SpaceStartAt(s: string, j: nat, m: nat)
    requires 0 < m <= j <= |s|
    requires forall k :: m <= k < j ==> IsSpace(s[k])
    requires !IsSpace(s[m - 1])
    ensures SpaceStart(s, j) == m
  {
    if j > m {
      SpaceStartAt(s, j - 1, m);
    }
  }

  lemma {:induction false} ConcatAssoc(a: string, b: string, c: string)
    ensures (a + b) + c == a + (b + c)
  {
  }

  /** s.find(prefix) == 0 */
  predicate StartsWith(s: string, prefix: string)
  {
    |prefix| <= |s| && s[..|prefix|] == prefix
  }

  /** s.find(t) != -1 */
  predicate Contains(s: string, t: string)
    decreases |s|
  {
    StartsWith(s, t) || (s != [] && Contains(s[1..], t))
  }

  /** `sub` after every character of `s` ("abc" gives "aXbXcX" for "X"). */
  function Interleave(s: string, sub: string): string
  {
    if s == [] then [] else [s[0]] + sub + Interleave(s[1..], sub)
  }

  /** s.replace(pattern, sub): every non-overlapping occurrence of `pattern`, scanning
      left to right, replaced by `sub`; an empty pattern puts `sub` before and after
      every character. */
  function ReplaceAll(s: string, pattern: string, sub: string): (r: string)
    ensures s == pattern ==> r == sub
    ensures pattern != [] && !Contains(s, pattern) ==> r == s
    decreases |s|
  {
    if pattern == [] then sub + Interleave(s, sub)
    else if |s| < |pattern| then s
    else if s[..|pattern|] == pattern then sub + ReplaceAll(s[|pattern|..], pattern, sub)
    else [s[0]] + ReplaceAll(s[1..], pattern, sub)
  }

  predicate IsDigit(c: char)
  {
    '0' <= c <= '9'
  }

  /** The digit strings int() accepts in base 10: ASCII digits, with single
      underscores allowed between two digits. Read from the end: a digit, preceded by
      nothing, by a digit string, or by an underscore and a digit string. */
  predicate IsDigitString(s: string)
    decreases |s|
  {
    && |s| > 0
    && IsDigit(s[|s| - 1])
    && (|| |s| == 1
        || IsDigitString(s[..|s| - 1])
        || (s[|s| - 2] == '_' && IsDigitString(s[..|s| - 2])))
  }

  /** A digit string starts with a digit (so it has no sign). */
  lemma {:induction false} DigitStringStartsWithDigit(s: string)
    requires IsDigitString(s)
    ensures IsDigit(s[0])
    decreases |s|
  {
    if |s| > 1 {
      if IsDigitString(s[..|s| - 1]) {
        DigitStringStartsWithDigit(s[..|s| - 1]);
      } else {
        DigitStringStartsWithDigit(s[..|s| - 2]);
      }
    }
  }

  /** The number a digit string denotes, underscores ignored. */
  function DigitsValue(s: string): nat
  {
    if s == [] then 0
    else if IsDigit(s[|s| - 1]) then 10 * DigitsValue(s[..|s| - 1]) + (s[|s| - 1] as int - '0' as int)
    else DigitsValue(s[..|s| - 1])
  }

  /** The four ASCII separator characters U+001C..U+001F: str.isspace() accepts them,
      but int() does not skip them as whitespace. */
  predicate IsSeparatorControl(c: char)
  {
    '\U{1C}' <= c <= '\U{1F}'
  }

  /** int(s) in base 10: surrounding whitespace, an optional sign, then a digit string;
      anything else raises ValueError. A separator control character is neither
      whitespace to int() nor a digit, so wherever it stands it raises. */
  function ParseInt(s: string): Result<int>
  {
    if exists k :: 0 <= k < |s| && IsSeparatorControl(s[k]) then Err(ValueError)
    else ParseSigned(Strip(s))
  }

  /** int() of a string without surrounding whitespace. */
  function ParseSigned(t: string): Result<int>
  {
    var signed := |t| > 0 && (t[0] == '+' || t[0] == '-');
    var digits := if signed then t[1..] else t;
    var magnitude: int := DigitsValue(digits);
    if !IsDigitString(digits) then Err(ValueError)
    else if signed && t[0] == '-' then Ok(-magnitude)
    else Ok(magnitude)
  }

  /** The decimal digits of n, most significant first, as str(n) writes them. */
  function Digits(n: nat): (r: string)
    ensures |r| > 0 && forall k :: 0 <= k < |r| ==> IsDigit(r[k])
  {
    var d := ['0' + (n % 10) as char];
    if n < 10 then d else Digits(n / 10) + d
  }

  /** str(n) */
  function DecimalString(n: int): string
  {
    if n < 0 then "-" + Digits(-n) else Digits(n)
  }

  lemma {:induction false} DigitsValueOfDigits(n: nat)
    ensures DigitsValue(Digits(n)) == n
  {
    var s := Digits(n);
    assert s[..|s| - 1] == (if n < 10 then [] else Digits(n / 10));
    if n >= 10 {
      DigitsValueOfDigits(n / 10);
    }
  }

  /** int() reads back what str() writes: ParseInt and DecimalString are inverse. */
  lemma {:induction false} ParseIntOfDecimal(n: int)
    ensures ParseInt(DecimalString(n)) == Ok(n)
  {
    var m: nat := if n < 0 then -n else n;
    DigitsParse(m);
    ParseSignedDigits(Digits(m));
    DecimalHasNoMargin(n);
    var d := DecimalString(n);
    assert forall k :: 0 <= k < |d| ==> !IsSeparatorControl(d[k]) by {
      forall k | 0 <= k < |d| ensures !IsSeparatorControl(d[k]) {
        if n < 0 && k > 0 {
          assert d[k] == Digits(m)[k - 1];
        }
      }
    }
  }

  /** The digits of m form a digit string whose value is m. */
  lemma DigitsParse(m: nat)
    ensures IsDigitString(Digits(m)) && DigitsValue(Digits(m)) == m
  {
    DigitsValueOfDigits(m);
    DigitsAreDigitString(m);
  }

  lemma {:induction false} DigitsAreDigitString(m: nat)
    ensures IsDigitString(Digits(m))
  {
    var s := Digits(m);
    if m >= 10 {
      DigitsAreDigitString(m / 10);
      assert s[..|s| - 1] == Digits(m / 10);
    }
  }

  /** str(n) has no surrounding whitespace. */
  lemma {:induction false} DecimalHasNoMargin(n: int)
    ensures Strip(DecimalString(n)) == DecimalString(n)
  {
    var s := DecimalString(n);
    var ds := Digits(if n < 0 then -n else n);
    assert s[|s| - 1] == ds[|ds| - 1];
    NoMarginIsOwnStrip(s);
  }

  /** A digit string, with or without a minus sign, reads as its value. */
  lemma {:induction false} ParseSignedDigits(ds: string)
    requires IsDigitString(ds)
    ensures ParseSigned(ds) == Ok(DigitsValue(ds) as int)
    ensures ParseSigned("-" + ds) == Ok(-(DigitsValue(ds) as int))
  {
    DigitStringStartsWithDigit(ds);
    assert ("-" + ds)[1..] == ds;
  }

  /** A string that neither starts nor ends with whitespace is its own strip(). */
  lemma {:induction false} NoMarginIsOwnStrip(s: string)
    requires s != [] && !IsSpace(s[0]) && !IsSpace(s[|s| - 1])
    ensures Strip(s) == s
  {
    assert SpaceEnd(s, 0) == 0;
    assert s[0..] == s;
  }
}
