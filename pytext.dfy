/** The Python built-ins on `str` and `list` that the code-block tool relies on,
    written out so that their edge cases are explicit. */
module PyText {

  import opened Results

  // ---------------------------------------------------------------------
  // Runs of elements at either end of a sequence
  // ---------------------------------------------------------------------

  /** Length of the longest prefix of `s` whose elements all satisfy `p`. */
  function PrefixRun<T>(s: seq<T>, p: T -> bool): (k: nat)
    ensures k <= |s|
    ensures forall i :: 0 <= i < k ==> p(s[i])
    ensures k < |s| ==> !p(s[k])
    decreases |s|
  {
    if s != [] && p(s[0]) then 1 + PrefixRun(s[1..], p) else 0
  }

  /** Length of the longest suffix of `s` whose elements all satisfy `p`. */
  function SuffixRun<T>(s: seq<T>, p: T -> bool): (k: nat)
    ensures k <= |s|
    ensures forall i :: |s| - k <= i < |s| ==> p(s[i])
    ensures k < |s| ==> !p(s[|s| - 1 - k])
    decreases |s|
  {
    if s != [] && p(s[|s| - 1]) then 1 + SuffixRun(s[..|s| - 1], p) else 0
  }

  /** The run lengths are the only numbers with their defining property. */
  lemma PrefixRunUnique<T>(s: seq<T>, p: T -> bool, k: nat)
    requires k <= |s|
    requires forall i :: 0 <= i < k ==> p(s[i])
    requires k < |s| ==> !p(s[k])
    ensures PrefixRun(s, p) == k
  {
  }

  lemma SuffixRunUnique<T>(s: seq<T>, p: T -> bool, k: nat)
    requires k <= |s|
    requires forall i :: |s| - k <= i < |s| ==> p(s[i])
    requires k < |s| ==> !p(s[|s| - 1 - k])
    ensures SuffixRun(s, p) == k
  {
  }

  // ---------------------------------------------------------------------
  // str.isspace, str.strip, str.startswith
  // ---------------------------------------------------------------------

  /** `c.isspace()`: the characters Python counts as whitespace. */
  predicate IsSpace(c: char) {
    var n := c as int;
    (9 <= n <= 13) || (28 <= n <= 32) || n == 0x85 || n == 0xA0 || n == 0x1680
    || (0x2000 <= n <= 0x200A) || n == 0x2028 || n == 0x2029 || n == 0x202F
    || n == 0x205F || n == 0x3000
  }

  /** `s.strip()` with no argument. */
  function Strip(s: string): (r: string)
    ensures |r| <= |s|
    ensures r == [] <==> forall i :: 0 <= i < |s| ==> IsSpace(s[i])
    ensures r != [] ==> !IsSpace(r[0]) && !IsSpace(r[|r| - 1])
  {
    var a := PrefixRun(s, IsSpace);
    var t := s[a..];
    var r := t[..|t| - SuffixRun(t, IsSpace)];
    assert t != [] ==> !IsSpace(t[0]);
    assert t != [] ==> SuffixRun(t, IsSpace) < |t|;
    assert r != [] ==> r[0] == s[a];
    r
  }

  /** `s.strip()` is a stretch of `s` with only whitespace cut off on either
      side; with `Strip`'s own ensures this fixes the result. */
  lemma StripCutsOnlyWhitespace(s: string)
    ensures exists a, b ::
              && 0 <= a <= b <= |s| && Strip(s) == s[a..b]
              && (forall i :: 0 <= i < a ==> IsSpace(s[i]))
              && (forall i :: b <= i < |s| ==> IsSpace(s[i]))
  {
    var a := PrefixRun(s, IsSpace);
    var t := s[a..];
    var b := a + |t| - SuffixRun(t, IsSpace);
    assert Strip(s) == s[a..b];
    forall i | b <= i < |s| ensures IsSpace(s[i]) {
      assert s[i] == t[i - a];
    }
  }

  /** A line made of whitespace only; `BlankIsStripEmpty` shows this is
      `s.strip() == ""`. */
  predicate IsBlank(s: string) {
    PrefixRun(s, IsSpace) == |s|
  }

  lemma BlankIsStripEmpty(s: string)
    ensures IsBlank(s) <==> Strip(s) == ""
  {
    if Strip(s) == "" {
      PrefixRunUnique(s, IsSpace, |s|);
    }
  }

  /** `s.startswith(p)`. */
  predicate StartsWith(s: string, p: string) {
    |p| <= |s| && s[..|p|] == p
  }

  /** `re.sub("^" + p, "", s)` for a pattern `p` without metacharacters:
      drops one leading occurrence of `p`, if any. */
  function RemovePrefix(s: string, p: string): (r: string)
    ensures StartsWith(s, p) ==> p + r == s
    ensures !StartsWith(s, p) ==> r == s
  {
    if StartsWith(s, p) then s[|p|..] else s
  }

  // ---------------------------------------------------------------------
  // List slicing xs[i:j]
  // ---------------------------------------------------------------------

  /** How Python turns a slice bound into an index of a list of length n:
      a negative bound counts from the end, and both are clamped. */
  function SliceBound(i: int, n: nat): (k: nat)
    ensures k <= n
    ensures 0 <= i <= n ==> k == i
  {
    if i < 0 then (if i + n < 0 then 0 else i + n)
    else if i > n then n
    else i
  }

  /** `xs[i:j]`. */
  function PySlice<T>(xs: seq<T>, i: int, j: int): (r: seq<T>)
    ensures 0 <= i <= j <= |xs| ==> r == xs[i..j]
    ensures |r| <= |xs|
  {
    var a, b := SliceBound(i, |xs|), SliceBound(j, |xs|);
    if a < b then xs[a..b] else []
  }

  // ---------------------------------------------------------------------
  // str.replace, str.split, str.join
  // ---------------------------------------------------------------------

  /** `s.replace(pat, rep)` for a non-empty `pat`: every occurrence, left to
      right, without overlaps. */
  function ReplaceAll(s: string, pat: string, rep: string): string
    requires pat != []
    decreases |s|
  {
    if |s| < |pat| then s
    else if s[..|pat|] == pat then rep + ReplaceAll(s[|pat|..], pat, rep)
    else [s[0]] + ReplaceAll(s[1..], pat, rep)
  }

  /** `s.split(sep)` for a non-empty `sep`. */
  function Split(s: string, sep: string): (parts: seq<string>)
    requires sep != []
    ensures |parts| >= 1
    decreases |s|
  {
    if |s| < |sep| then [s]
    else if s[..|sep|] == sep then [""] + Split(s[|sep|..], sep)
    else
      var rest := Split(s[1..], sep);
      [[s[0]] + rest[0]] + rest[1..]
  }

  /** `sep.join(parts)`. */
  function Join(parts: seq<string>, sep: string): string
    requires |parts| >= 1
    decreases |parts|
  {
    if |parts| == 1 then parts[0] else parts[0] + sep + Join(parts[1..], sep)
  }

  /** Putting a piece in front of the first part of a split. */
  lemma {:induction false} JoinConsFirst(c: string, parts: seq<string>, sep: string)
    requires |parts| >= 1
    ensures Join([c + parts[0]] + parts[1..], sep) == c + Join(parts, sep)
  {
    var ps := [c + parts[0]] + parts[1..];
    if |parts| > 1 {
      assert ps[1..] == parts[1..];
    }
  }

  /** `s.replace(pat, rep) == rep.join(s.split(pat))`: replacing cuts `s` at
      the occurrences of `pat` and glues the same pieces back with `rep`. */
  lemma {:induction false} ReplaceIsJoinOfSplit(s: string, pat: string, rep: string)
    requires pat != []
    ensures ReplaceAll(s, pat, rep) == Join(Split(s, pat), rep)
    decreases |s|
  {
    if |s| < |pat| {
    } else if s[..|pat|] == pat {
      ReplaceIsJoinOfSplit(s[|pat|..], pat, rep);
      var ps := [""] + Split(s[|pat|..], pat);
      assert ps[1..] == Split(s[|pat|..], pat);
    } else {
      ReplaceIsJoinOfSplit(s[1..], pat, rep);
      JoinConsFirst([s[0]], Split(s[1..], pat), rep);
    }
  }

  /** `pat.join(s.split(pat)) == s`: the pieces with the separator put back
      are the original string. */
  lemma {:induction false} JoinSplitIdentity(s: string, pat: string)
    requires pat != []
    ensures Join(Split(s, pat), pat) == s
    decreases |s|
  {
    if |s| < |pat| {
    } else if s[..|pat|] == pat {
      JoinSplitIdentity(s[|pat|..], pat);
      var ps := [""] + Split(s[|pat|..], pat);
      assert ps[1..] == Split(s[|pat|..], pat);
      assert s == pat + s[|pat|..];
    } else {
      JoinSplitIdentity(s[1..], pat);
      JoinConsFirst([s[0]], Split(s[1..], pat), pat);
      assert s == [s[0]] + s[1..];
    }
  }

  /** `sep` occurs in `part` at position `i`. */
  predicate OccursAt(part: string, sep: string, i: nat) {
    i + |sep| <= |part| && part[i..i + |sep|] == sep
  }

  /** `sep` occurs nowhere in `part`. */
  predicate Free(part: string, sep: string) {
    forall i: nat :: i <= |part| ==> !OccursAt(part, sep, i)
  }

  /** The first piece of a split is a prefix of the string. */
  lemma {:induction false} SplitFirstIsPrefix(s: string, sep: string)
    requires sep != []
    ensures |Split(s, sep)[0]| <= |s| && Split(s, sep)[0] == s[..|Split(s, sep)[0]|]
    decreases |s|
  {
    if |s| >= |sep| && s[..|sep|] != sep {
      SplitFirstIsPrefix(s[1..], sep);
    }
  }

  /** `s.split(sep)` cuts at every occurrence of `sep`: no piece holds one. */
  lemma {:induction false} SplitPiecesAreFree(s: string, sep: string)
    requires sep != []
    ensures forall k :: 0 <= k < |Split(s, sep)| ==> Free(Split(s, sep)[k], sep)
    decreases |s|
  {
    if |s| < |sep| {
    } else if s[..|sep|] == sep {
      var rest := Split(s[|sep|..], sep);
      SplitPiecesAreFree(s[|sep|..], sep);
      var ps := [""] + rest;
      assert Split(s, sep) == ps;
      forall k | 0 <= k < |ps| ensures Free(ps[k], sep) {
        if k > 0 {
          assert ps[k] == rest[k - 1];
        }
      }
    } else {
      var rest := Split(s[1..], sep);
      SplitPiecesAreFree(s[1..], sep);
      SplitFirstIsPrefix(s[1..], sep);
      var first := [s[0]] + rest[0];
      assert first == s[..|first|];
      assert Free(rest[0], sep);
      forall i: nat | i <= |first| ensures !OccursAt(first, sep, i) {
        if i + |sep| <= |first| {
          if i == 0 {
            assert first[i..i + |sep|] == s[..|sep|];
          } else {
            assert !OccursAt(rest[0], sep, i - 1);
            assert first[i..i + |sep|] == rest[0][i - 1..i - 1 + |sep|];
          }
        }
      }
      assert Free(first, sep);
      var ps := [first] + rest[1..];
      assert Split(s, sep) == ps;
      forall k | 0 <= k < |ps| ensures Free(ps[k], sep) {
        if k > 0 {
          assert ps[k] == rest[k];
        }
      }
    }
  }

  // ---------------------------------------------------------------------
  // str(n) for an int, and reading it back
  // ---------------------------------------------------------------------

  predicate IsDigit(c: char) {
    '0' <= c <= '9'
  }

  predicate AllDigits(s: string) {
    forall i :: 0 <= i < |s| ==> IsDigit(s[i])
  }

  function DigitChar(d: nat): (c: char)
    requires d < 10
    ensures IsDigit(c)
  {
    (('0' as int) + d) as char
  }

  /** Decimal numeral of a natural number, without leading zeros. */
  function NatToString(n: nat): (s: string)
    ensures |s| >= 1 && AllDigits(s)
    decreases n
  {
    if n < 10 then [DigitChar(n)] else NatToString(n / 10) + [DigitChar(n % 10)]
  }

  /** `str(n)` for a Python int: a minus sign for negative numbers. */
  function IntToString(n: int): string {
    if n < 0 then "-" + NatToString(-n) else NatToString(n)
  }

  /** The number a string of decimal digits denotes. */
  function DigitsValue(s: string): nat
    requires AllDigits(s)
    decreases |s|
  {
    if s == [] then 0
    else DigitsValue(s[..|s| - 1]) * 10 + ((s[|s| - 1] as int) - ('0' as int))
  }

  lemma {:induction false} NatToStringRoundTrip(n: nat)
    ensures DigitsValue(NatToString(n)) == n
    decreases n
  {
    if n >= 10 {
      NatToStringRoundTrip(n / 10);
      var s := NatToString(n);
      assert s[..|s| - 1] == NatToString(n / 10);
    }
  }

  /** Reads the longest run of digits at the start of `s`; gives its value
      and its length. */
  function ParseNat(s: string): (r: Option<(nat, nat)>)
    ensures r.Some? ==> 0 < r.value.1 <= |s|
  {
    var k := PrefixRun(s, IsDigit);
    if k == 0 then None else Some((DigitsValue(s[..k]), k))
  }

  /** Reads an optionally negative integer at the start of `s`; gives the
      value and the number of characters read. */
  function ParseInt(s: string): (r: Option<(int, nat)>)
    ensures r.Some? ==> 0 < r.value.1 <= |s|
  {
    if s != [] && s[0] == '-' then
      match ParseNat(s[1..])
      case None => None
      case Some((v, k)) => Some((-(v as int), 1 + k))
    else
      match ParseNat(s)
      case None => None
      case Some((v, k)) => Some((v as int, k))
  }

  /** Reading back a digit string followed by a non-digit gives its value. */
  lemma ParseNatDigits(d: string, rest: string)
    requires |d| >= 1 && AllDigits(d)
    requires rest == [] || !IsDigit(rest[0])
    ensures ParseNat(d + rest) == Some((DigitsValue(d), |d|))
  {
    var s := d + rest;
    PrefixRunUnique(s, IsDigit, |d|);
    assert s[..|d|] == d;
  }

  /** Reading back what `str(n)` wrote gives `n`, when no digit follows it. */
  lemma ParseIntOfIntToString(n: int, rest: string)
    requires rest == [] || !IsDigit(rest[0])
    ensures ParseInt(IntToString(n) + rest) == Some((n, |IntToString(n)|))
  {
    if n < 0 {
      var d := NatToString(-n);
      NatToStringRoundTrip(-n);
      assert IntToString(n) == "-" + d;
      var s := IntToString(n) + rest;
      assert s == "-" + (d + rest);
      assert s[0] == '-' && s[1..] == d + rest;
      ParseNatDigits(d, rest);
    } else {
      var d := NatToString(n);
      NatToStringRoundTrip(n);
      assert IntToString(n) == d;
      var s := d + rest;
      assert s[0] == d[0];
      ParseNatDigits(d, rest);
    }
  }
}
