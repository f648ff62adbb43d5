/**
 * The pieces of JavaScript's string library the chat screens rely on:
 * `String.prototype.trim`, `String.prototype.split` with a one-character
 * separator, and the decimal rendering of a non-negative integer inside a
 * template literal.
 */
module JsText {

  /** ECMAScript WhiteSpace and LineTerminator code points, the characters `trim` removes. */
  predicate IsWhiteSpace(c: char) {
    || ('\t' <= c <= '\r')  // tab, line feed, vertical tab, form feed, carriage return
    || c == ' ' || c == '\U{00A0}' || c == '\U{1680}'
    || ('\U{2000}' <= c <= '\U{200A}')
    || c == '\U{2028}' || c == '\U{2029}' || c == '\U{202F}' || c == '\U{205F}'
    || c == '\U{3000}' || c == '\U{FEFF}'
  }

  const WhiteSpaceChars: set<char> := set c: char | IsWhiteSpace(c)

  /** Every character of `s` is in `cs`. */
  predicate AllIn(s: string, cs: set<char>) {
    forall i :: 0 <= i < |s| ==> s[i] in cs
  }

  predicate AllWhiteSpace(s: string) {
    AllIn(s, WhiteSpaceChars)
  }

  /** Drops the leading characters in `cs`: what is left is a suffix that starts outside `cs`. */
  function TrimStart(s: string, cs: set<char>): (r: string)
    ensures |r| <= |s| && r == s[|s| - |r|..]
    ensures forall i :: 0 <= i < |s| - |r| ==> s[i] in cs
    ensures r == [] || r[0] !in cs
    decreases |s|
  {
    if |s| > 0 && s[0] in cs then TrimStart(s[1..], cs) else s
  }

  /** Drops the trailing characters in `cs`: what is left is a prefix that ends outside `cs`. */
  function TrimEnd(s: string, cs: set<char>): (r: string)
    ensures |r| <= |s| && r == s[..|r|]
    ensures forall i :: |r| <= i < |s| ==> s[i] in cs
    ensures r == [] || r[|r| - 1] !in cs
    decreases |s|
  {
    if |s| > 0 && s[|s| - 1] in cs then TrimEnd(s[..|s| - 1], cs) else s
  }

  /** Drops the characters in `cs` at both ends: empty exactly when all of `s` is in `cs`. */
  function TrimChars(s: string, cs: set<char>): (r: string)
    ensures |r| <= |s|
    ensures r == [] <==> AllIn(s, cs)
    ensures r != [] ==> r[0] !in cs && r[|r| - 1] !in cs
  {
    var t := TrimStart(s, cs);
    var r := TrimEnd(t, cs);
    assert r != [] ==> s[|s| - |t|] == r[0];
    r
  }

  /** `s.trim()`: the result is empty exactly when `s` is white space only. */
  function Trim(s: string): (r: string)
    ensures |r| <= |s|
    ensures r == [] <==> AllWhiteSpace(s)
    ensures r != [] ==> !IsWhiteSpace(r[0]) && !IsWhiteSpace(r[|r| - 1])
  {
    TrimChars(s, WhiteSpaceChars)
  }

  /**
   * `r` is `s` with its margins of characters from `cs` removed: `r` is the
   * slice of `s` starting at `k`, everything outside the slice is in `cs`, and
   * the slice neither starts nor ends with a character from `cs`.
   */
  ghost predicate IsTrimmedSlice(s: string, cs: set<char>, k: nat, r: string) {
    && k + |r| <= |s|
    && r == s[k..k + |r|]
    && (forall i :: 0 <= i < k ==> s[i] in cs)
    && (forall i :: k + |r| <= i < |s| ==> s[i] in cs)
    && (r != [] ==> r[0] !in cs && r[|r| - 1] !in cs)
  }

  /** Trimming removes exactly the margins. */
  lemma TrimIsTrimmedSlice(s: string, cs: set<char>)
    ensures IsTrimmedSlice(s, cs, |s| - |TrimStart(s, cs)|, TrimChars(s, cs))
  {
    TrimmedIsSlice(s, cs);
    TrimmedTailIsMargin(s, cs);
  }

  lemma TrimmedIsSlice(s: string, cs: set<char>)
    ensures var k := |s| - |TrimStart(s, cs)|;
      k + |TrimChars(s, cs)| <= |s| && TrimChars(s, cs) == s[k..k + |TrimChars(s, cs)|]
  {
    var t := TrimStart(s, cs);
    var r := TrimEnd(t, cs);
    assert r == t[..|r|];
  }

  lemma TrimmedTailIsMargin(s: string, cs: set<char>)
    ensures var k := |s| - |TrimStart(s, cs)|;
      forall i :: k + |TrimChars(s, cs)| <= i < |s| ==> s[i] in cs
  {
    var t := TrimStart(s, cs);
    var k := |s| - |t|;
    var r := TrimEnd(t, cs);
    forall i | k + |r| <= i < |s| ensures s[i] in cs {
      assert s[i] == t[i - k];
    }
  }

  /** The margins determine the trimmed string: any trimmed slice is the result of trimming. */
  lemma TrimmedSliceIsUnique(s: string, cs: set<char>, k: nat, r: string)
    requires IsTrimmedSlice(s, cs, k, r)
    ensures r == TrimChars(s, cs)
  {
    if r != [] {
      TrimmedSliceStartsAtFirstKept(s, cs, k, r);
      TrimmedSliceEndsAtLastKept(s, cs, k, r);
    }
  }

  /** A non-empty trimmed slice starts where `TrimStart` stops. */
  lemma TrimmedSliceStartsAtFirstKept(s: string, cs: set<char>, k: nat, r: string)
    requires IsTrimmedSlice(s, cs, k, r) && r != []
    ensures TrimStart(s, cs) == s[k..]
  {
  }

  /** ... and ends where `TrimEnd` stops. */
  lemma TrimmedSliceEndsAtLastKept(s: string, cs: set<char>, k: nat, r: string)
    requires IsTrimmedSlice(s, cs, k, r) && r != []
    requires TrimStart(s, cs) == s[k..]
    ensures TrimEnd(s[k..], cs) == r
  {
    var t := s[k..];
    var u := TrimEnd(t, cs);
    assert u == t[..|r|];
  }

  /**
   * `s.split(sep)` for a one-character separator: the pieces between
   * occurrences of `sep`, always at least one (`"".split(".")` is `[""]`).
   */
  function Split(s: string, sep: char): (parts: seq<string>)
    ensures |parts| >= 1
    decreases |s|
  {
    if |s| == 0 then [""]
    else
      var rest := Split(s[1..], sep);
      if s[0] == sep then [""] + rest
      else [[s[0]] + rest[0]] + rest[1..]
  }

  /** `parts.join(sep)`, the inverse of `Split`. */
  function Join(parts: seq<string>, sep: char): string
    requires |parts| >= 1
    decreases |parts|
  {
    if |parts| == 1 then parts[0] else parts[0] + [sep] + Join(parts[1..], sep)
  }

  /** `Array.prototype.pop` on a non-empty array: its last element. */
  function Last<T>(xs: seq<T>): T
    requires |xs| >= 1
  {
    xs[|xs| - 1]
  }

  /** Joining the pieces again gives back the string that was split. */
  lemma {:induction false} JoinSplit(s: string, sep: char)
    ensures Join(Split(s, sep), sep) == s
    decreases |s|
  {
    if |s| > 0 {
      var rest := Split(s[1..], sep);
      JoinSplit(s[1..], sep);
      if s[0] != sep && |rest| > 1 {
        assert Split(s, sep)[1..] == rest[1..];
      }
    }
  }

  /** No piece of a split contains the separator. */
  lemma {:induction false} SplitPiecesHaveNoSeparator(s: string, sep: char)
    ensures forall i :: 0 <= i < |Split(s, sep)| ==> sep !in Split(s, sep)[i]
    decreases |s|
  {
    if |s| > 0 {
      SplitPiecesHaveNoSeparator(s[1..], sep);
    }
  }

  /** A string without the separator splits into itself alone. */
  lemma {:induction false} SplitWithoutSeparator(s: string, sep: char)
    requires sep !in s
    ensures Split(s, sep) == [s]
    decreases |s|
  {
    if |s| > 0 {
      assert sep !in s[1..] by {
        forall i | 0 <= i < |s[1..]| ensures s[1..][i] != sep {
          assert s[1..][i] == s[i + 1];
        }
      }
      SplitWithoutSeparator(s[1..], sep);
      assert [s[0]] + s[1..] == s;
    }
  }

  /** Splitting at a separator splits the two sides independently. */
  lemma {:induction false} SplitAtSeparator(a: string, sep: char, b: string)
    ensures Split(a + [sep] + b, sep) == Split(a, sep) + Split(b, sep)
    decreases |a|
  {
    var s := a + [sep] + b;
    if |a| == 0 {
      assert s[1..] == b;
    } else {
      assert s[1..] == a[1..] + [sep] + b;
      SplitAtSeparator(a[1..], sep, b);
    }
  }

  function DigitChar(d: nat): (c: char)
    requires d < 10
    ensures '0' <= c <= '9'
  {
    (48 + d) as char
  }

  function DigitValue(c: char): (d: nat)
    requires '0' <= c <= '9'
    ensures d < 10
  {
    c as int - 48
  }

  predicate IsDigits(s: string) {
    forall i :: 0 <= i < |s| ==> '0' <= s[i] <= '9'
  }

  /**
   * `${n}` for a non-negative integer (such as `Date.now()`): its decimal
   * digits, most significant first, with no leading zero.
   */
  function Decimal(n: nat): (r: string)
    ensures |r| >= 1 && IsDigits(r)
    ensures |r| > 1 ==> r[0] != '0'
    decreases n
  {
    if n < 10 then [DigitChar(n)] else Decimal(n / 10) + [DigitChar(n % 10)]
  }

  /** The number a string of decimal digits denotes. */
  function DecimalValue(s: string): nat
    requires IsDigits(s)
    decreases |s|
  {
    if s == [] then 0 else 10 * DecimalValue(s[..|s| - 1]) + DigitValue(s[|s| - 1])
  }

  /** Reading the digits back gives the number that was rendered. */
  lemma {:induction false} DecimalRoundTrip(n: nat)
    ensures DecimalValue(Decimal(n)) == n
    decreases n
  {
    var r := Decimal(n);
    if n >= 10 {
      DecimalRoundTrip(n / 10);
      assert r[..|r| - 1] == Decimal(n / 10);
    }
  }
}
