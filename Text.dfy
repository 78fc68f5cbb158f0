/**
 * The Python string operations the converter relies on, written over
 * `string` (a sequence of Unicode scalar values): substring tests,
 * `str.replace`, `str.split(sep)[0]`, `str.strip()`, `str.lower()`,
 * `str.isnumeric()`, `re.sub("[^0-9]", "", s)` and `int(s)`.
 */
module Text {
  import opened Wrappers

  /** Python's `s.startswith(p)`. */
  predicate StartsWith(s: string, p: string) {
    |p| <= |s| && s[..|p|] == p
  }

  /** Python's `sub in s`: `sub` occurs in `s` as a contiguous block. */
  predicate Contains(s: string, sub: string)
    decreases |s|
  {
    StartsWith(s, sub) || (s != [] && Contains(s[1..], sub))
  }

  /** `sub` occurs in `s` starting at position `i`. */
  predicate OccursAt(s: string, sub: string, i: nat) {
    i + |sub| <= |s| && s[i..i + |sub|] == sub
  }

  /** An occurrence at a known position makes `Contains` true. */
  lemma {:induction false} ContainsAt(s: string, sub: string, i: nat)
    requires OccursAt(s, sub, i)
    ensures Contains(s, sub)
    decreases i
  {
    if i > 0 {
      assert s[1..][i - 1..i - 1 + |sub|] == s[i..i + |sub|];
      ContainsAt(s[1..], sub, i - 1);
    }
  }

  /** `Contains` always has a witness position. */
  lemma {:induction false} ContainsWitness(s: string, sub: string)
    requires Contains(s, sub)
    ensures exists i: nat :: OccursAt(s, sub, i)
    decreases |s|
  {
    if StartsWith(s, sub) {
      assert OccursAt(s, sub, 0);
    } else {
      ContainsWitness(s[1..], sub);
      var k: nat :| OccursAt(s[1..], sub, k);
      assert s[1..][k..k + |sub|] == s[k + 1..k + 1 + |sub|];
      assert OccursAt(s, sub, k + 1);
    }
  }

  /** An occurrence inside a slice is an occurrence in the whole string. */
  lemma ContainsSlice(s: string, sub: string, lo: nat, hi: nat)
    requires lo <= hi <= |s| && Contains(s[lo..hi], sub)
    ensures Contains(s, sub)
  {
    ContainsWitness(s[lo..hi], sub);
    var k: nat :| OccursAt(s[lo..hi], sub, k);
    assert forall j :: 0 <= j < |sub| ==> sub[j] == s[lo + k + j];
    assert s[lo..hi][k..k + |sub|] == s[lo + k..lo + k + |sub|];
    ContainsAt(s, sub, lo + k);
  }

  /** A string never contains anything longer than itself. */
  lemma {:induction false} ContainsLength(s: string, sub: string)
    requires Contains(s, sub)
    ensures |sub| <= |s|
    decreases |s|
  {
    if !StartsWith(s, sub) {
      ContainsLength(s[1..], sub);
    }
  }

  /** Every character of a contained string occurs in the containing one. */
  lemma ContainsChars(s: string, sub: string)
    requires Contains(s, sub)
    ensures forall c :: c in sub ==> c in s
  {
    ContainsWitness(s, sub);
    var k: nat :| OccursAt(s, sub, k);
    forall c | c in sub ensures c in s {
      var j :| 0 <= j < |sub| && sub[j] == c;
      assert s[k + j] == s[k..k + |sub|][j];
    }
  }

  /**
   * Python's `s.replace(pat, by)`: scan left to right and replace every
   * non-overlapping occurrence of `pat`.
   */
  function Replace(s: string, pat: string, repl: string): (r: string)
    requires pat != []
    ensures !Contains(s, pat) ==> r == s
    ensures forall c :: c in r ==> c in s || c in repl
    decreases |s|
  {
    if StartsWith(s, pat) then repl + Replace(s[|pat|..], pat, repl)
    else if s == [] then []
    else [s[0]] + Replace(s[1..], pat, repl)
  }

  /**
   * `Replace` is fixed by two facts: a string without the pattern is
   * copied, and the first occurrence is replaced before the scan goes on
   * after it. Together they give the result for every input.
   */
  lemma {:induction false} ReplaceFirst(a: string, pat: string, repl: string, b: string)
    requires pat != []
    requires forall i :: 0 <= i < |a| ==> !OccursAt(a + pat + b, pat, i)
    ensures Replace(a + pat + b, pat, repl) == a + repl + Replace(b, pat, repl)
    decreases |a|
  {
    var s := a + pat + b;
    if a == [] {
      assert s == pat + b && s[..|pat|] == pat && s[|pat|..] == b;
    } else {
      assert !OccursAt(s, pat, 0);
      assert !StartsWith(s, pat) && s[0] == a[0];
      var t := a[1..] + pat + b;
      assert s[1..] == t;
      forall i | 0 <= i < |a[1..]|
        ensures !OccursAt(t, pat, i)
      {
        OccursShift(s, pat, i);
      }
      ReplaceFirst(a[1..], pat, repl, b);
      assert Replace(s, pat, repl) == [a[0]] + Replace(t, pat, repl);
      assert [a[0]] + (a[1..] + repl + Replace(b, pat, repl)) == a + repl + Replace(b, pat, repl);
    }
  }

  /** Python's `sep.join(pieces)`. */
  function Join(pieces: seq<string>, sep: string): string
    decreases |pieces|
  {
    if pieces == [] then [] else if |pieces| == 1 then pieces[0] else pieces[0] + sep + Join(pieces[1..], sep)
  }

  /** An occurrence one position further in `s` is an occurrence in `s[1..]`. */
  lemma OccursShift(s: string, pat: string, i: nat)
    requires s != []
    ensures OccursAt(s, pat, i + 1) <==> OccursAt(s[1..], pat, i)
  {
    if i + 1 + |pat| <= |s| {
      assert s[1..][i..i + |pat|] == s[i + 1..i + 1 + |pat|];
    }
  }

  /** Replacing a one-character pattern removes that character entirely. */
  lemma {:induction false} ReplaceRemovesChar(s: string, c: char, repl: string)
    requires c !in repl
    ensures c !in Replace(s, [c], repl)
    decreases |s|
  {
    if s != [] {
      assert s[..1] == [s[0]];
      ReplaceRemovesChar(s[1..], c, repl);
    }
  }

  /** Python's `s.split(sep)[0]`: the part of `s` before the first `sep`. */
  function BeforeFirst(s: string, sep: string): (r: string)
    requires sep != []
    ensures StartsWith(s, r)
    ensures !Contains(r, sep)
    ensures forall i :: 0 <= i < |r| ==> !OccursAt(s, sep, i)
    ensures |r| < |s| ==> StartsWith(s[|r|..], sep)
    ensures !Contains(s, sep) ==> r == s
    decreases |s|
  {
    if StartsWith(s, sep) then []
    else if s == [] then []
    else
      var t := BeforeFirst(s[1..], sep);
      assert ([s[0]] + t)[1..] == t;
      assert [s[0]] + t == s[..|t| + 1];
      assert s[|t| + 1..] == s[1..][|t|..];
      assert forall i :: 1 <= i <= |t| ==> (OccursAt(s, sep, i) ==> OccursAt(s[1..], sep, i - 1));
      [s[0]] + t
  }

  /** Python's `str.isspace()` for one character. */
  predicate IsSpace(c: char) {
    c == ' ' || ('\t' <= c <= '\r') || ('\U{1C}' <= c <= '\U{1F}') || c == '\U{85}' || c == '\U{A0}'
    || c == '\U{1680}' || ('\U{2000}' <= c <= '\U{200A}') || c == '\U{2028}' || c == '\U{2029}'
    || c == '\U{202F}' || c == '\U{205F}' || c == '\U{3000}'
  }

  /** Python's `s.lstrip()`. */
  function StripStart(s: string): (r: string)
    ensures |r| <= |s| && r == s[|s| - |r|..]
    ensures r == [] || !IsSpace(r[0])
    ensures forall k :: 0 <= k < |s| - |r| ==> IsSpace(s[k])
    decreases |s|
  {
    if s != [] && IsSpace(s[0]) then StripStart(s[1..]) else s
  }

  /** Python's `s.rstrip()`. */
  function StripEnd(s: string): (r: string)
    ensures |r| <= |s| && r == s[..|r|]
    ensures r == [] || !IsSpace(r[|r| - 1])
    ensures forall k :: |r| <= k < |s| ==> IsSpace(s[k])
    decreases |s|
  {
    if s != [] && IsSpace(s[|s| - 1]) then StripEnd(s[..|s| - 1]) else s
  }

  /** Python's `s.strip()`. */
  function Strip(s: string): string {
    StripEnd(StripStart(s))
  }

  /** Stripping never introduces an occurrence of anything. */
  lemma StripKeepsAbsent(s: string, sub: string)
    requires !Contains(s, sub)
    ensures !Contains(Strip(s), sub)
  {
    var t := StripStart(s);
    if Contains(t, sub) {
      assert s[|s| - |t|..|s|] == t;
      ContainsSlice(s, sub, |s| - |t|, |s|);
    }
    var u := StripEnd(t);
    if Contains(u, sub) {
      assert t[0..|u|] == u;
      ContainsSlice(t, sub, 0, |u|);
    }
  }

  /** Python's `c.lower()` restricted to ASCII letters. */
  function LowerChar(c: char): char {
    if 'A' <= c <= 'Z' then (c as int + 32) as char else c
  }

  /** Python's `s.lower()` restricted to ASCII letters. */
  function Lower(s: string): (r: string)
    ensures |r| == |s|
    ensures forall k :: 0 <= k < |s| ==> r[k] == LowerChar(s[k])
    decreases |s|
  {
    if s == [] then [] else [LowerChar(s[0])] + Lower(s[1..])
  }

  predicate IsDigit(c: char) {
    '0' <= c <= '9'
  }

  /**
   * Python's `c.isnumeric()`: the ASCII digits and the Latin-1 numeric
   * characters (superscript one to three, the vulgar fractions).
   */
  predicate IsNumericChar(c: char) {
    IsDigit(c) || c == '\U{B2}' || c == '\U{B3}' || c == '\U{B9}'
    || c == '\U{BC}' || c == '\U{BD}' || c == '\U{BE}'
  }

  /** Python's `s.isnumeric()`: false on the empty string. */
  predicate IsNumeric(s: string) {
    s != [] && forall k :: 0 <= k < |s| ==> IsNumericChar(s[k])
  }

  predicate AllDigits(s: string) {
    forall k :: 0 <= k < |s| ==> IsDigit(s[k])
  }

  /** `re.sub("[^0-9]", "", s)`: keep the ASCII digits, in order. */
  function DigitsOnly(s: string): (r: string)
    ensures AllDigits(r)
    ensures |r| <= |s|
    ensures AllDigits(s) ==> r == s
    ensures forall c :: IsDigit(c) ==> multiset(r)[c] == multiset(s)[c]
    decreases |s|
  {
    if s == [] then []
    else
      assert s == [s[0]] + s[1..];
      if IsDigit(s[0]) then [s[0]] + DigitsOnly(s[1..])
      else DigitsOnly(s[1..])
  }

  /**
   * `re.sub` works character by character: the digits of a concatenation
   * are the digits of each part, in order.
   */
  lemma {:induction false} DigitsOnlyConcat(a: string, b: string)
    ensures DigitsOnly(a + b) == DigitsOnly(a) + DigitsOnly(b)
    decreases |a|
  {
    if a == [] {
      assert a + b == b;
    } else {
      var s := a + b;
      assert s != [] && s[0] == a[0] && s[1..] == a[1..] + b;
      DigitsOnlyConcat(a[1..], b);
      if IsDigit(a[0]) {
        assert DigitsOnly(s) == [a[0]] + (DigitsOnly(a[1..]) + DigitsOnly(b));
      } else {
        assert DigitsOnly(s) == DigitsOnly(a[1..]) + DigitsOnly(b);
      }
    }
  }

  /** The value of a string of ASCII digits read in base ten. */
  function DigitsValue(s: string): nat
    requires AllDigits(s)
    decreases |s|
  {
    if s == [] then 0
    else DigitsValue(s[..|s| - 1]) * 10 + (s[|s| - 1] as int - '0' as int)
  }

  /** Python's `int(s)` on a collector number: `None` is the ValueError. */
  function ParseInt(s: string): Option<nat> {
    if s != [] && AllDigits(s) then Some(DigitsValue(s)) else None
  }

  /** Python's `str(n)` for a natural number: its decimal digits, without leading zeros. */
  function Decimal(n: nat): (r: string)
    ensures r != [] && AllDigits(r)
    decreases n
  {
    var d := [(n % 10 + '0' as int) as char];
    if n < 10 then d else Decimal(n / 10) + d
  }

  /** `int(str(n)) == n`. */
  lemma {:induction false} ParseIntDecimal(n: nat)
    ensures ParseInt(Decimal(n)) == Some(n)
    decreases n
  {
    if n >= 10 {
      ParseIntDecimal(n / 10);
      var s := Decimal(n);
      assert s == Decimal(n / 10) + [(n % 10 + '0' as int) as char];
      assert s[..|s| - 1] == Decimal(n / 10);
      assert s[|s| - 1] as int - '0' as int == n % 10;
      assert DigitsValue(s) == DigitsValue(Decimal(n / 10)) * 10 + n % 10;
    }
  }

  /**
   * `int()` accepts exactly the numeric strings made of ASCII digits: a
   * string `isnumeric()` accepts can still make `int()` fail only through
   * a Latin-1 numeric character.
   */
  lemma ParseIntIsNumeric(s: string)
    ensures ParseInt(s).Some? ==> IsNumeric(s)
    ensures IsNumeric(s) && (forall k :: 0 <= k < |s| ==> s[k] < '\U{80}') ==> ParseInt(s).Some?
  {
  }

  /** A leading zero does not change the value a digit string denotes. */
  lemma {:induction false} LeadingZeroValue(s: string)
    requires AllDigits(s)
    ensures AllDigits("0" + s) && DigitsValue("0" + s) == DigitsValue(s)
    decreases |s|
  {
    if s != [] {
      var init := s[..|s| - 1];
      assert ("0" + s)[..|s|] == "0" + init;
      LeadingZeroValue(init);
    }
  }

  /** Prepending "0" to a number `int()` accepts keeps its value. */
  lemma ParseIntLeadingZero(s: string)
    requires ParseInt(s).Some?
    ensures ParseInt("0" + s) == ParseInt(s)
  {
    LeadingZeroValue(s);
  }

  /** `s.encode('ascii', 'ignore').decode('ascii')`: drop every non-ASCII character. */
  function AsciiOnly(s: string): (r: string)
    ensures forall c :: c in r ==> c < '\U{80}'
    ensures (forall c :: c in s ==> c < '\U{80}') ==> r == s
    ensures forall c :: c in r ==> c in s
    decreases |s|
  {
    if s == [] then []
    else if s[0] < '\U{80}' then
      assert forall c :: c in s[1..] ==> c in s;
      [s[0]] + AsciiOnly(s[1..])
    else
      assert s[0] in s && forall c :: c in s[1..] ==> c in s;
      AsciiOnly(s[1..])
  }
}
