/**
 * The few pieces of the Java string library the services rely on:
 * `trim().isEmpty()`, `isBlank()`, `String.join`, `Long.toString` and
 * `List.toString`.
 */
module JavaText {

  /** `String.trim`, leading half: drops every character up to U+0020 from the front. */
  function TrimLeading(s: string): (r: string)
    ensures |r| <= |s| && r == s[|s| - |r|..]
    ensures r == [] || r[0] > ' '
    ensures forall k :: 0 <= k < |s| - |r| ==> s[k] <= ' '
    decreases |s|
  {
    if |s| > 0 && s[0] <= ' ' then TrimLeading(s[1..]) else s
  }

  /** `String.trim`, trailing half: drops every character up to U+0020 from the back. */
  function TrimTrailing(s: string): (r: string)
    ensures |r| <= |s| && r == s[..|r|]
    ensures r == [] || r[|r| - 1] > ' '
    ensures forall k :: |r| <= k < |s| ==> s[k] <= ' '
    decreases |s|
  {
    if |s| > 0 && s[|s| - 1] <= ' ' then TrimTrailing(s[..|s| - 1]) else s
  }

  /** `s.trim()`: neither end of the result is a character up to U+0020. */
  function Trim(s: string): (r: string)
    ensures |r| <= |s|
    ensures r == [] || (r[0] > ' ' && r[|r| - 1] > ' ')
    ensures exists i :: SliceBetweenLow(s, r, i)
  {
    var t := TrimLeading(s);
    var r := TrimTrailing(t);
    assert r != [] ==> r[0] == t[0];
    TrimHalvesSlice(s);
    r
  }

  /** Trimming the front and then the back leaves a slice of the input with only low characters around it. */
  lemma TrimHalvesSlice(s: string)
    ensures SliceBetweenLow(s, TrimTrailing(TrimLeading(s)), |s| - |TrimLeading(s)|)
  {
    var t := TrimLeading(s);
    SuffixThenPrefix(s, t, TrimTrailing(t));
  }

  /** A prefix `r` of a suffix `t` of `s`, each cut away part low, is a slice of `s` with only low characters around it. */
  lemma SuffixThenPrefix(s: string, t: string, r: string)
    requires |t| <= |s| && t == s[|s| - |t|..]
    requires forall k :: 0 <= k < |s| - |t| ==> s[k] <= ' '
    requires |r| <= |t| && r == t[..|r|]
    requires forall k :: |r| <= k < |t| ==> t[k] <= ' '
    ensures SliceBetweenLow(s, r, |s| - |t|)
  {
    var i := |s| - |t|;
    assert r == s[i..i + |r|] by {
      forall k | 0 <= k < |r|
        ensures r[k] == s[i + k]
      {
        assert r[k] == t[k];
      }
    }
    forall k | i + |r| <= k < |s|
      ensures s[k] <= ' '
    {
      assert s[k] == t[k - i];
    }
  }

  /** `r` sits at index `i` of `s`, with only characters up to U+0020 before and after it. */
  predicate SliceBetweenLow(s: string, r: string, i: int)
  {
    && 0 <= i && i + |r| <= |s| && r == s[i..i + |r|]
    && (forall k :: 0 <= k < i ==> s[k] <= ' ')
    && (forall k :: i + |r| <= k < |s| ==> s[k] <= ' ')
  }

  /** `s.trim().isEmpty()`: every character is at most U+0020. */
  predicate TrimEmpty(s: string)
  {
    forall i :: 0 <= i < |s| ==> s[i] <= ' '
  }

  /** `trim()` leaves nothing exactly when no character is above U+0020, which is how `TrimEmpty` reads `trim().isEmpty()`. */
  lemma TrimmedEmptyExactlyWhenLow(s: string)
    ensures Trim(s) == [] <==> TrimEmpty(s)
  {
    var t := TrimLeading(s);
    if Trim(s) == [] {
      assert t == [];
    }
  }

  /** `Character.isWhitespace`: the Unicode space, line and paragraph separators other than the no-break ones, and the controls U+0009-U+000D and U+001C-U+001F. */
  predicate IsJavaWhitespace(c: char)
  {
    || ('\t' <= c <= '\r')
    || ('\U{1C}' <= c <= ' ')
    || c == '\U{1680}'
    || ('\U{2000}' <= c <= '\U{2006}')
    || ('\U{2008}' <= c <= '\U{200A}')
    || c == '\U{2028}' || c == '\U{2029}'
    || c == '\U{205F}' || c == '\U{3000}'
  }

  /** `s.isBlank()`: every character is Java whitespace. */
  predicate IsBlank(s: string)
  {
    forall i :: 0 <= i < |s| ==> IsJavaWhitespace(s[i])
  }

  /**
   * The two blank tests disagree both ways: an em space is blank but
   * survives `trim()`, and a NUL is trimmed away but is not blank.
   */
  lemma BlankTestsDisagree()
    ensures exists s :: IsBlank(s) && !TrimEmpty(s)
    ensures exists s :: TrimEmpty(s) && !IsBlank(s)
  {
    var em := "\U{2003}";
    assert em[0] > ' ';
    assert IsBlank(em) && !TrimEmpty(em);
    var nul := "\0";
    assert nul[0] < '\t';
    assert TrimEmpty(nul) && !IsBlank(nul);
  }

  // ---------------------------------------------------------------- joining

  /** The total length of the strings. */
  function TotalLength(xs: seq<string>): nat
    decreases |xs|
  {
    if |xs| == 0 then 0 else |xs[0]| + TotalLength(xs[1..])
  }

  /** `String.join(sep, xs)`: every element once, a separator between each two. */
  function Join(xs: seq<string>, sep: string): (r: string)
    ensures |xs| == 0 ==> r == ""
    ensures |xs| > 0 ==> |r| == TotalLength(xs) + (|xs| - 1) * |sep|
    ensures |xs| > 0 ==> r[..|xs[0]|] == xs[0]
    decreases |xs|
  {
    if |xs| == 0 then ""
    else if |xs| == 1 then xs[0]
    else xs[0] + sep + Join(xs[1..], sep)
  }

  /** Joining one element gives that element back, whatever the separator. */
  lemma JoinSingleton(x: string, sep: string)
    ensures Join([x], sep) == x
  {
  }

  /** Appending an element to a non-empty list appends the separator and the element to the joined text. */
  lemma {:induction false} JoinSnoc(xs: seq<string>, y: string, sep: string)
    requires |xs| > 0
    ensures Join(xs + [y], sep) == Join(xs, sep) + sep + y
    decreases |xs|
  {
    if |xs| == 1 {
      assert xs + [y] == [xs[0], y];
      assert [xs[0], y][1..] == [y];
    } else {
      assert (xs + [y])[1..] == xs[1..] + [y];
      JoinSnoc(xs[1..], y, sep);
    }
  }

  /** `t` occurs in `s` starting at offset `k`. */
  predicate OccursAt(s: string, t: string, k: int)
  {
    0 <= k && k + |t| <= |s| && s[k..k + |t|] == t
  }

  /** An occurrence inside `s` is still one, shifted by `|a|`, once text is put around `s`. */
  lemma OccursWithin(a: string, s: string, b: string, t: string, k: int)
    requires OccursAt(s, t, k)
    ensures OccursAt(a + s + b, t, |a| + k)
  {
    var w := a + s + b;
    forall m | 0 <= m < |t| ensures w[|a| + k + m] == t[m] {
      assert s[k..k + |t|][m] == s[k + m];
    }
  }

  /** Every element of the list occurs in the joined text, starting where the preceding elements and separators end. */
  lemma {:induction false} JoinContains(xs: seq<string>, sep: string, i: int)
    requires 0 <= i < |xs|
    ensures exists k :: OccursAt(Join(xs, sep), xs[i], k)
    decreases |xs|
  {
    var j := Join(xs, sep);
    if i == 0 {
      assert OccursAt(j, xs[0], 0);
    } else {
      JoinContains(xs[1..], sep, i - 1);
      var rest := Join(xs[1..], sep);
      var k :| OccursAt(rest, xs[1..][i - 1], k);
      assert j == (xs[0] + sep) + rest + "";
      OccursWithin(xs[0] + sep, rest, "", xs[i], k);
    }
  }

  // ------------------------------------------------------- decimal rendering

  predicate IsDigit(c: char)
  {
    '0' <= c <= '9'
  }

  function DigitChar(d: int): (c: char)
    requires 0 <= d < 10
    ensures IsDigit(c)
  {
    ('0' as int + d) as char
  }

  function DigitValue(c: char): int
    requires IsDigit(c)
  {
    c as int - '0' as int
  }

  /** The decimal digits of `n`, most significant first, with no leading zero. */
  function NatToDecimal(n: nat): (s: string)
    ensures |s| >= 1 && forall i :: 0 <= i < |s| ==> IsDigit(s[i])
    ensures |s| > 1 ==> s[0] != '0'
    decreases n
  {
    if n < 10 then [DigitChar(n)] else NatToDecimal(n / 10) + [DigitChar(n % 10)]
  }

  /** `Long.toString(n)`: a minus sign for negative numbers, then the digits of the magnitude. */
  function LongToString(n: int): (r: string)
    ensures |r| >= 1 && (r[0] == '-' <==> n < 0)
    ensures forall i :: (if n < 0 then 1 else 0) <= i < |r| ==> IsDigit(r[i])
  {
    if n < 0 then "-" + NatToDecimal(-n) else NatToDecimal(n)
  }

  /** Reads a run of decimal digits back, least significant digit last. */
  function ParseDecimal(s: string): nat
    requires forall i :: 0 <= i < |s| ==> IsDigit(s[i])
    decreases |s|
  {
    if |s| == 0 then 0 else ParseDecimal(s[..|s| - 1]) * 10 + DigitValue(s[|s| - 1])
  }

  /** Reads what `LongToString` writes. */
  function ParseLong(s: string): int
  {
    if |s| > 0 && s[0] == '-' && (forall i :: 1 <= i < |s| ==> IsDigit(s[i])) then -(ParseDecimal(s[1..]) as int)
    else if forall i :: 0 <= i < |s| ==> IsDigit(s[i]) then ParseDecimal(s)
    else 0
  }

  /** The decimal rendering of a natural number reads back as that number. */
  lemma {:induction false} NatToDecimalRoundTrip(n: nat)
    ensures ParseDecimal(NatToDecimal(n)) == n
    decreases n
  {
    var s := NatToDecimal(n);
    if n < 10 {
      assert s[..0] == [];
    } else {
      NatToDecimalRoundTrip(n / 10);
      assert s[..|s| - 1] == NatToDecimal(n / 10);
    }
  }

  /** `Long.toString` loses nothing: the rendering of any integer reads back as that integer. */
  lemma LongToStringRoundTrip(n: int)
    ensures ParseLong(LongToString(n)) == n
  {
    if n < 0 {
      NatToDecimalRoundTrip(-n);
      assert ("-" + NatToDecimal(-n))[1..] == NatToDecimal(-n);
    } else {
      NatToDecimalRoundTrip(n);
    }
  }

  /** Distinct ids render as distinct strings. */
  lemma LongToStringInjective(a: int, b: int)
    requires LongToString(a) == LongToString(b)
    ensures a == b
  {
    LongToStringRoundTrip(a);
    LongToStringRoundTrip(b);
  }

  /** Each id of the list rendered by `Long.toString`, in order. */
  function Decimals(xs: seq<int>): (r: seq<string>)
    ensures |r| == |xs| && forall i :: 0 <= i < |xs| ==> r[i] == LongToString(xs[i])
    decreases |xs|
  {
    if |xs| == 0 then [] else [LongToString(xs[0])] + Decimals(xs[1..])
  }

  /** `List<Long>.toString()`: the elements joined by ", " between brackets. */
  function LongListToString(xs: seq<int>): (r: string)
    ensures |r| >= 2 && r[0] == '[' && r[|r| - 1] == ']'
    ensures r == "[]" <==> xs == []
  {
    "[" + Join(Decimals(xs), ", ") + "]"
  }

  /** The rendering of a list mentions every element of it. */
  lemma LongListMentionsEach(xs: seq<int>, i: int)
    requires 0 <= i < |xs|
    ensures exists k :: OccursAt(LongListToString(xs), LongToString(xs[i]), k)
  {
    var ds := Decimals(xs);
    JoinContains(ds, ", ", i);
    var j := Join(ds, ", ");
    var k :| OccursAt(j, ds[i], k);
    OccursWithin("[", j, "]", ds[i], k);
    assert LongListToString(xs) == "[" + j + "]" && ds[i] == LongToString(xs[i]);
  }
}
