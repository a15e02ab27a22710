/**
 * The Python `str` operations the integration relies on, over `seq<char>`
 * (one `char` per Unicode code point, as Python's `str` counts them).
 * Case mapping is ASCII only. Whitespace is Python's full `str.isspace()` set,
 * except for `int()`, which does not strip the separators U+001C to U+001F.
 */
module PyStr {
  import opened Wrappers

  // ----- characters -----

  /** Python's `str.isspace()`, the set shared by `strip()` and the regex class `\s`. */
  predicate IsSpace(c: char) {
    ('\t' <= c <= '\r') || ('\U{1C}' <= c <= ' ') || c == '\U{85}' || c == '\U{A0}'
    || c == '\U{1680}' || ('\U{2000}' <= c <= '\U{200A}') || c == '\U{2028}' || c == '\U{2029}'
    || c == '\U{202F}' || c == '\U{205F}' || c == '\U{3000}'
  }

  /**
   * The whitespace `int()` strips: ASCII characters reach its scanner as they
   * are and only tab to carriage return and space count there, while other
   * Unicode whitespace is first turned into a space. So it is `isspace()`
   * without the four separators U+001C to U+001F.
   */
  predicate IsIntSpace(c: char) {
    IsSpace(c) && !('\U{1C}' <= c <= '\U{1F}')
  }

  predicate IsAsciiDigit(c: char) { '0' <= c <= '9' }

  predicate IsAsciiUpper(c: char) { 'A' <= c <= 'Z' }

  predicate IsAsciiLower(c: char) { 'a' <= c <= 'z' }

  predicate IsAsciiAlpha(c: char) { IsAsciiUpper(c) || IsAsciiLower(c) }

  function UpperChar(c: char): (u: char)
    ensures !IsAsciiLower(u)
  {
    if IsAsciiLower(c) then (c as int - 32) as char else c
  }

  function LowerChar(c: char): (l: char)
    ensures !IsAsciiUpper(l)
  {
    if IsAsciiUpper(c) then (c as int + 32) as char else c
  }

  // ----- case mapping -----

  /**
   * `s.upper()`: no lower-case letter is left, each lower-case letter becomes
   * its capital (32 code points lower), and every other character stays.
   */
  function Upper(s: string): (r: string)
    ensures |r| == |s|
    ensures forall i :: 0 <= i < |r| ==> !IsAsciiLower(r[i])
    ensures forall i :: 0 <= i < |s| ==> if IsAsciiLower(s[i]) then r[i] as int == s[i] as int - 32 else r[i] == s[i]
  {
    seq(|s|, i requires 0 <= i < |s| => UpperChar(s[i]))
  }

  /**
   * `s.lower()`: no capital is left, each capital becomes its lower-case letter
   * (32 code points higher), and every other character stays.
   */
  function Lower(s: string): (r: string)
    ensures |r| == |s|
    ensures forall i :: 0 <= i < |r| ==> !IsAsciiUpper(r[i])
    ensures forall i :: 0 <= i < |s| ==> if IsAsciiUpper(s[i]) then r[i] as int == s[i] as int + 32 else r[i] == s[i]
  {
    seq(|s|, i requires 0 <= i < |s| => LowerChar(s[i]))
  }

  /** Upper-casing twice is upper-casing once, and lower-casing forgets an upper-casing. */
  lemma CaseMappingIdempotent(s: string)
    ensures Upper(Upper(s)) == Upper(s)
    ensures Lower(Lower(s)) == Lower(s)
    ensures Lower(Upper(s)) == Lower(s)
  {
    var u := Upper(s);
    assert Lower(u) == Lower(s) by {
      forall i | 0 <= i < |s| ensures Lower(u)[i] == Lower(s)[i] {
        assert IsAsciiUpper(s[i]) || IsAsciiLower(s[i]) || u[i] == s[i];
      }
    }
  }

  /** Upper-casing commutes with taking a slice. */
  lemma UpperSlice(s: string, i: nat, j: nat)
    requires i <= j <= |s|
    ensures Upper(s)[i..j] == Upper(s[i..j])
  {
  }

  // ----- searching -----

  /** `sub` occurs in `s` at index `i`. */
  predicate OccursAt(s: string, sub: string, i: int) {
    0 <= i && i + |sub| <= |s| && s[i..i + |sub|] == sub
  }

  /** Python's substring test `sub in s`. */
  function Contains(s: string, sub: string): (b: bool)
    ensures b <==> exists i :: OccursAt(s, sub, i)
    decreases |s|
  {
    if |s| < |sub| then false
    else if s[..|sub|] == sub then
      assert OccursAt(s, sub, 0);
      true
    else
      var rest := Contains(s[1..], sub);
      assert forall i :: OccursAt(s[1..], sub, i) <==> OccursAt(s, sub, i + 1) by {
        forall i ensures OccursAt(s[1..], sub, i) <==> OccursAt(s, sub, i + 1) {
          if 0 <= i && i + 1 + |sub| <= |s| {
            assert s[1..][i..i + |sub|] == s[i + 1..i + 1 + |sub|];
          }
        }
      }
      assert !OccursAt(s, sub, 0);
      assert (exists i :: OccursAt(s, sub, i)) ==> exists i :: OccursAt(s[1..], sub, i) by {
        if exists i :: OccursAt(s, sub, i) {
          var i :| OccursAt(s, sub, i);
          assert OccursAt(s[1..], sub, i - 1);
        }
      }
      rest
  }

  /** `s.startswith(p)` */
  predicate StartsWith(s: string, p: string) {
    |p| <= |s| && s[..|p|] == p
  }

  /** `s.find(c)` for a single character: the first index of `c`, or -1. */
  function FindChar(s: string, c: char): (r: int)
    ensures -1 <= r < |s|
    ensures r == -1 <==> c !in s
    ensures 0 <= r ==> s[r] == c && c !in s[..r]
  {
    if |s| == 0 then -1
    else if s[0] == c then 0
    else
      var k := FindChar(s[1..], c);
      if k == -1 then -1
      else
        assert s[..k + 1] == [s[0]] + s[1..][..k];
        k + 1
  }

  /** The first index of a character of `cs` in `s`, or `|s|` when there is none. */
  function FindAny(s: string, cs: set<char>): (r: nat)
    ensures r <= |s|
    ensures forall i :: 0 <= i < r ==> s[i] !in cs
    ensures r < |s| ==> s[r] in cs
  {
    if |s| == 0 then 0
    else if s[0] in cs then 0
    else 1 + FindAny(s[1..], cs)
  }

  /** `find` returns the index of the first occurrence. */
  lemma FindCharAt(s: string, c: char, k: nat)
    requires k < |s| && s[k] == c && c !in s[..k]
    ensures FindChar(s, c) == k
  {
    var r := FindChar(s, c);
    assert forall j :: 0 <= j < k ==> s[j] != c by {
      forall j | 0 <= j < k ensures s[j] != c { assert s[..k][j] == s[j]; }
    }
    assert forall j :: 0 <= j < r ==> s[j] != c by {
      forall j | 0 <= j < r ensures s[j] != c { assert s[..r][j] == s[j]; }
    }
  }

  /** Splitting `x + [c] + y` at its first `c` when `x` holds none. */
  lemma SplitOnceAt(x: string, c: char, y: string)
    requires c !in x
    ensures c in x + [c] + y
    ensures SplitOnce(x + [c] + y, c) == (x, y)
  {
    var s := x + [c] + y;
    assert s[..|x|] == x;
    FindCharAt(s, c, |x|);
    assert s[|x| + 1..] == y;
  }

  /** `FindAny` stops at the first character of the set. */
  lemma FindAnyAt(s: string, cs: set<char>, k: nat)
    requires k < |s| && s[k] in cs && forall j :: 0 <= j < k ==> s[j] !in cs
    ensures FindAny(s, cs) == k
  {
  }

  // ----- splitting and joining -----

  /** `s.split(c, 1)` when `c` occurs in `s`: the text before its first occurrence and the text after. */
  function SplitOnce(s: string, c: char): (r: (string, string))
    requires c in s
    ensures s == r.0 + [c] + r.1
    ensures c !in r.0
  {
    var k := FindChar(s, c);
    assert s == s[..k] + [c] + s[k + 1..];
    (s[..k], s[k + 1..])
  }

  /** `s.split(c)` for a single-character separator: never empty, and no piece holds `c`. */
  function SplitAll(s: string, c: char): (r: seq<string>)
    ensures |r| >= 1
    ensures forall i :: 0 <= i < |r| ==> c !in r[i]
    decreases |s|
  {
    if c !in s then [s]
    else
      var (head, tail) := SplitOnce(s, c);
      [head] + SplitAll(tail, c)
  }

  /** `sep.join(parts)` */
  function Join(parts: seq<string>, sep: string): string {
    if |parts| == 0 then ""
    else if |parts| == 1 then parts[0]
    else parts[0] + sep + Join(parts[1..], sep)
  }

  /** Splitting on a character and joining on it again gives back the original text. */
  lemma {:induction false} JoinSplitAll(s: string, c: char)
    ensures Join(SplitAll(s, c), [c]) == s
    decreases |s|
  {
    if c in s {
      var (head, tail) := SplitOnce(s, c);
      JoinSplitAll(tail, c);
      assert SplitAll(s, c) == [head] + SplitAll(tail, c);
      var pieces := SplitAll(tail, c);
      if |pieces| == 1 {
        assert Join(pieces, [c]) == pieces[0];
      }
      assert ([head] + pieces)[1..] == pieces;
    }
  }

  // ----- rewriting -----

  /** `s.replace(a, b)` for single characters. */
  function ReplaceChar(s: string, a: char, b: char): (r: string)
    ensures |r| == |s|
    ensures forall i :: 0 <= i < |s| ==> r[i] == if s[i] == a then b else s[i]
  {
    seq(|s|, i requires 0 <= i < |s| => if s[i] == a then b else s[i])
  }

  /** `s.lstrip(c)` for a single character. */
  function LStripChar(s: string, c: char): (r: string)
    ensures |r| <= |s| && r == s[|s| - |r|..]
    ensures forall i :: 0 <= i < |s| - |r| ==> s[i] == c
    ensures |r| > 0 ==> r[0] != c
  {
    if |s| > 0 && s[0] == c then
      var r := LStripChar(s[1..], c);
      assert s[1..][|s| - 1 - |r|..] == s[|s| - |r|..];
      r
    else s
  }

  /** Leading whitespace removed. */
  function LStripSpace(s: string): (r: string)
    ensures |r| <= |s| && r == s[|s| - |r|..]
    ensures forall i :: 0 <= i < |s| - |r| ==> IsSpace(s[i])
    ensures |r| > 0 ==> !IsSpace(r[0])
  {
    if |s| > 0 && IsSpace(s[0]) then LStripSpace(s[1..]) else s
  }

  /** Trailing whitespace removed. */
  function RStripSpace(s: string): (r: string)
    ensures |r| <= |s| && r == s[..|r|]
    ensures forall i :: |r| <= i < |s| ==> IsSpace(s[i])
    ensures |r| > 0 ==> !IsSpace(r[|r| - 1])
  {
    if |s| > 0 && IsSpace(s[|s| - 1]) then RStripSpace(s[..|s| - 1]) else s
  }

  /** `s.strip()`: no longer than `s`, and neither starting nor ending with whitespace. */
  function Strip(s: string): (r: string)
    ensures |r| <= |s|
    ensures |r| > 0 ==> !IsSpace(r[0]) && !IsSpace(r[|r| - 1])
  {
    RStripSpace(LStripSpace(s))
  }

  /** `strip()` keeps the slice of `s` between its leading and its trailing run of whitespace. */
  lemma StripExactly(s: string)
    ensures var r := Strip(s);
            var k := |s| - |LStripSpace(s)|;
            && k + |r| <= |s| && r == s[k..k + |r|]
            && (forall i :: 0 <= i < k ==> IsSpace(s[i]))
            && (forall i :: k + |r| <= i < |s| ==> IsSpace(s[i]))
  {
    var l := LStripSpace(s);
    var r := RStripSpace(l);
    var k := |s| - |l|;
    assert l == s[k..];
    assert r == l[..|r|];
    forall i | k + |r| <= i < |s| ensures IsSpace(s[i]) {
      assert s[i] == l[i - k];
    }
  }

  /** Text without whitespace is its own `strip()`. */
  lemma StripNoSpace(s: string)
    requires forall i :: 0 <= i < |s| ==> !IsSpace(s[i])
    ensures Strip(s) == s
  {
  }

  /** `"0" * n` */
  function Zeros(n: nat): (r: string)
    ensures |r| == n && forall i :: 0 <= i < n ==> r[i] == '0'
  {
    seq(n, i => '0')
  }

  /** `s.zfill(width)`: zeros inserted on the left, after a leading sign if there is one. */
  function ZFill(s: string, width: int): (r: string)
    ensures |r| == if width <= |s| then |s| else width
  {
    if width <= |s| then s
    else if |s| > 0 && (s[0] == '+' || s[0] == '-') then [s[0]] + Zeros(width - |s|) + s[1..]
    else Zeros(width - |s|) + s
  }

  /** `zfill` never shortens, pads to exactly `width`, and keeps an unsigned text as its suffix. */
  lemma ZFillShape(s: string, width: int)
    ensures |ZFill(s, width)| == if width <= |s| then |s| else width
    ensures (|s| == 0 || (s[0] != '+' && s[0] != '-')) ==>
      var r := ZFill(s, width);
      r[|r| - |s|..] == s && forall i :: 0 <= i < |r| - |s| ==> r[i] == '0'
  {
  }

  // ----- integers -----

  /** Leading `int()` whitespace removed. */
  function LStripIntSpace(s: string): (r: string)
    ensures |r| <= |s| && r == s[|s| - |r|..]
    ensures forall i :: 0 <= i < |s| - |r| ==> IsIntSpace(s[i])
    ensures |r| > 0 ==> !IsIntSpace(r[0])
  {
    if |s| > 0 && IsIntSpace(s[0]) then LStripIntSpace(s[1..]) else s
  }

  /** Trailing `int()` whitespace removed. */
  function RStripIntSpace(s: string): (r: string)
    ensures |r| <= |s| && r == s[..|r|]
    ensures forall i :: |r| <= i < |s| ==> IsIntSpace(s[i])
    ensures |r| > 0 ==> !IsIntSpace(r[|r| - 1])
  {
    if |s| > 0 && IsIntSpace(s[|s| - 1]) then RStripIntSpace(s[..|s| - 1]) else s
  }

  /** The text `int()` reads once it has skipped its whitespace at both ends. */
  function StripIntSpace(s: string): (r: string)
    ensures |r| <= |s|
    ensures |r| > 0 ==> !IsIntSpace(r[0]) && !IsIntSpace(r[|r| - 1])
  {
    RStripIntSpace(LStripIntSpace(s))
  }

  function DigitValue(c: char): nat
    requires IsAsciiDigit(c)
  {
    c as int - '0' as int
  }

  /** A run of digits with single underscores between digits, as `int()` accepts them. */
  predicate IsDigitGroup(d: string) {
    && |d| > 0
    && IsAsciiDigit(d[0])
    && IsAsciiDigit(d[|d| - 1])
    && (forall i :: 0 <= i < |d| ==> IsAsciiDigit(d[i]) || d[i] == '_')
    && !Contains(d, "__")
  }

  /** The decimal value of a run of digits, underscores ignored. */
  function DecimalValue(d: string): nat
    requires forall i :: 0 <= i < |d| ==> IsAsciiDigit(d[i]) || d[i] == '_'
  {
    if |d| == 0 then 0
    else if d[|d| - 1] == '_' then DecimalValue(d[..|d| - 1])
    else 10 * DecimalValue(d[..|d| - 1]) + DigitValue(d[|d| - 1])
  }

  /**
   * Python's `int(s)` on a `str`: surrounding whitespace (`IsIntSpace`), an
   * optional sign and a digit group; `None` where `int()` raises `ValueError`.
   */
  function ParseInt(s: string): (r: Option<int>)
    ensures StripIntSpace(s) == "" ==> r.None?
    ensures r.Some? && r.value < 0 ==> StripIntSpace(s)[0] == '-'
    ensures |s| > 0 && ('\U{1C}' <= s[0] <= '\U{1F}' || '\U{1C}' <= s[|s| - 1] <= '\U{1F}') ==> r.None?
  {
    var t := StripIntSpace(s);
    if |t| == 0 then None
    else
      var negative := t[0] == '-';
      var body := if t[0] == '-' || t[0] == '+' then t[1..] else t;
      if IsDigitGroup(body) then
        var v: int := DecimalValue(body);
        Some(if negative then -v else v)
      else None
  }

  function DigitChar(n: nat): (c: char)
    requires n < 10
    ensures IsAsciiDigit(c) && DigitValue(c) == n
  {
    ('0' as int + n) as char
  }

  /** `str(n)` for a natural number. */
  function NatToString(n: nat): (r: string)
    ensures |r| > 0
    ensures forall i :: 0 <= i < |r| ==> IsAsciiDigit(r[i])
  {
    if n < 10 then [DigitChar(n)] else NatToString(n / 10) + [DigitChar(n % 10)]
  }

  /** The decimal digits of `n` have value `n`. */
  lemma {:induction false} DecimalValueOfNatToString(n: nat)
    ensures DecimalValue(NatToString(n)) == n
  {
    var r := NatToString(n);
    if n < 10 {
      assert r[..0] == [];
    } else {
      DecimalValueOfNatToString(n / 10);
      assert r[..|r| - 1] == NatToString(n / 10);
    }
  }

  /** Python's round trip `int(str(n)) == n` for natural numbers. */
  lemma ParseIntNatToString(n: nat)
    ensures ParseInt(NatToString(n)) == Some(n)
  {
    var r := NatToString(n);
    StripIntSpaceNoSpace(r);
    assert r[0] != '-' && r[0] != '+';
    DigitsAreGroup(r);
    DecimalValueOfNatToString(n);
  }

  /** Text without `int()` whitespace is read as it is. */
  lemma StripIntSpaceNoSpace(s: string)
    requires forall i :: 0 <= i < |s| ==> !IsIntSpace(s[i])
    ensures StripIntSpace(s) == s
  {
  }

  /** A non-empty run of plain digits is a digit group. */
  lemma DigitsAreGroup(r: string)
    requires |r| > 0 && forall i :: 0 <= i < |r| ==> IsAsciiDigit(r[i])
    ensures IsDigitGroup(r)
  {
    forall i | 0 <= i && i + 2 <= |r| ensures !OccursAt(r, "__", i) {
      assert r[i..i + 2][0] == r[i];
    }
  }

  /**
   * Python's `a % b`: the remainder of floor division, which has the sign of `b`
   * (Dafny's `%` is Euclidean, so the two differ when `b < 0`).
   */
  function FloorMod(a: int, b: int): (r: int)
    requires b != 0
    ensures b > 0 ==> 0 <= r < b
    ensures b < 0 ==> b < r <= 0
  {
    if b > 0 then a % b else -((-a) % (-b))
  }
}
