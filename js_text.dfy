/**
 * The string primitives of the browser script: `String.prototype.trim`, `toLowerCase`,
 * `includes`, `split`, decimal digits and the decimal text of a number (`${n}`).
 */
module JsText {
  import opened Wrappers

  /** The characters `trim` removes: ECMAScript WhiteSpace and LineTerminator code points. */
  predicate IsJsSpace(c: char) {
    || c == '\t' || c == '\n' || c == '\U{000B}' || c == '\U{000C}' || c == '\r' || c == ' '
    || c == '\U{00A0}' || c == '\U{1680}' || ('\U{2000}' <= c <= '\U{200A}')
    || c == '\U{2028}' || c == '\U{2029}' || c == '\U{202F}' || c == '\U{205F}'
    || c == '\U{3000}' || c == '\U{FEFF}'
  }

  /** Number of whitespace characters at the start of `s`. */
  function LeadingSpaces(s: string): (n: nat)
    ensures n <= |s|
    ensures forall k :: 0 <= k < n ==> IsJsSpace(s[k])
    ensures n < |s| ==> !IsJsSpace(s[n])
  {
    if s != [] && IsJsSpace(s[0]) then 1 + LeadingSpaces(s[1..]) else 0
  }

  /** Number of whitespace characters at the end of `s`. */
  function TrailingSpaces(s: string): (n: nat)
    ensures n <= |s|
    ensures forall k :: |s| - n <= k < |s| ==> IsJsSpace(s[k])
    ensures n < |s| ==> !IsJsSpace(s[|s| - 1 - n])
  {
    if s != [] && IsJsSpace(s[|s| - 1]) then 1 + TrailingSpaces(s[..|s| - 1]) else 0
  }

  /** `s.trim()`: the slice of `s` between its leading and its trailing whitespace. */
  function Trim(s: string): (r: string)
    ensures |r| <= |s|
  {
    var t := s[LeadingSpaces(s)..];
    t[..|t| - TrailingSpaces(t)]
  }

  /** `trim` leaves the slice of `s` that starts right after the leading whitespace. */
  lemma TrimSlice(s: string)
    ensures LeadingSpaces(s) + |Trim(s)| <= |s|
    ensures Trim(s) == s[LeadingSpaces(s)..LeadingSpaces(s) + |Trim(s)|]
  {
    var i := LeadingSpaces(s);
    var t := s[i..];
    assert Trim(s) == t[..|t| - TrailingSpaces(t)];
  }

  /**
   * What `trim` leaves neither begins nor ends with whitespace, and only whitespace follows it.
   */
  lemma TrimShape(s: string)
    ensures LeadingSpaces(s) + |Trim(s)| <= |s|
    ensures Trim(s) == s[LeadingSpaces(s)..LeadingSpaces(s) + |Trim(s)|]
    ensures Trim(s) == [] || (!IsJsSpace(Trim(s)[0]) && !IsJsSpace(Trim(s)[|Trim(s)| - 1]))
    ensures forall k :: LeadingSpaces(s) + |Trim(s)| <= k < |s| ==> IsJsSpace(s[k])
  {
    TrimSlice(s);
    var i := LeadingSpaces(s);
    var t := s[i..];
    var j := TrailingSpaces(t);
    var r := Trim(s);
    assert |r| == |t| - j;
    forall k | i + |r| <= k < |s| ensures IsJsSpace(s[k]) {
      assert s[k] == t[k - i];
    }
    if r != [] {
      assert r[0] == s[i];
      assert r[|r| - 1] == t[|t| - 1 - j];
    }
  }

  /** Trimming keeps every non-whitespace character of `s`, and adds nothing. */
  lemma TrimKeeps(s: string)
    ensures forall k :: 0 <= k < |s| && !IsJsSpace(s[k]) ==> s[k] in Trim(s)
    ensures forall c :: c in Trim(s) ==> c in s
  {
    var i, r := LeadingSpaces(s), Trim(s);
    TrimShape(s);
    forall k | 0 <= k < |s| && !IsJsSpace(s[k]) ensures s[k] in r {
      assert i <= k < i + |r|;
      assert s[k] == r[k - i];
    }
  }

  /** A string is blank when `trim` leaves nothing of it. */
  lemma TrimEmptyIffBlank(s: string)
    ensures Trim(s) == [] <==> forall k :: 0 <= k < |s| ==> IsJsSpace(s[k])
  {
    TrimShape(s);
    if Trim(s) == [] {
      forall k | 0 <= k < |s| ensures IsJsSpace(s[k]) {
        if k < LeadingSpaces(s) { } else { }
      }
    }
  }

  /** Trimming a string without whitespace at either end changes nothing. */
  lemma TrimUnpadded(s: string)
    requires s == [] || (!IsJsSpace(s[0]) && !IsJsSpace(s[|s| - 1]))
    ensures Trim(s) == s
  {
    if s != [] {
      assert LeadingSpaces(s) == 0;
      assert TrailingSpaces(s) == 0;
    }
  }

  /** `trim` is idempotent. */
  lemma {:induction false} TrimIdempotent(s: string)
    ensures Trim(Trim(s)) == Trim(s)
  {
    TrimUnpadded(Trim(s));
  }

  /** `norm(v)`: `(v ?? '').toString().trim()`. */
  function Norm(v: Option<string>): string {
    Trim(v.GetOr(""))
  }

  /** ASCII case mapping of `toLowerCase`. */
  function LowerChar(c: char): char {
    if 'A' <= c <= 'Z' then (c as int + 32) as char else c
  }

  function Lower(s: string): (r: string)
    ensures |r| == |s|
    ensures forall k :: 0 <= k < |s| ==> r[k] == LowerChar(s[k])
  {
    seq(|s|, k requires 0 <= k < |s| => LowerChar(s[k]))
  }

  /** `nlow(v)`: `norm(v).toLowerCase()`. */
  function NLow(v: Option<string>): string {
    Lower(Norm(v))
  }

  /** `nlow` gives a string that is already trimmed and lower-cased. */
  lemma NLowIsNormal(v: Option<string>)
    ensures Trim(NLow(v)) == NLow(v)
    ensures Lower(NLow(v)) == NLow(v)
  {
    var n := Norm(v);
    var r := NLow(v);
    TrimShape(v.GetOr(""));
    if r != [] {
      LowerCharSpace(n[0]);
      LowerCharSpace(n[|n| - 1]);
    }
    TrimUnpadded(r);
  }

  /** Lower-casing neither makes nor removes white space. */
  lemma LowerCharSpace(c: char)
    ensures IsJsSpace(LowerChar(c)) <==> IsJsSpace(c)
  {
  }

  lemma {:induction false} LeadingSpacesLower(s: string)
    ensures LeadingSpaces(Lower(s)) == LeadingSpaces(s)
    decreases |s|
  {
    if s != [] {
      assert Lower(s)[1..] == Lower(s[1..]);
      LowerCharSpace(s[0]);
      LeadingSpacesLower(s[1..]);
    }
  }

  lemma {:induction false} TrailingSpacesLower(s: string)
    ensures TrailingSpaces(Lower(s)) == TrailingSpaces(s)
    decreases |s|
  {
    if s != [] {
      assert Lower(s)[..|s| - 1] == Lower(s[..|s| - 1]);
      LowerCharSpace(s[|s| - 1]);
      TrailingSpacesLower(s[..|s| - 1]);
    }
  }

  /** Lower-casing and trimming can be done in either order. */
  lemma TrimLower(s: string)
    ensures Trim(Lower(s)) == Lower(Trim(s))
  {
    LeadingSpacesLower(s);
    var i := LeadingSpaces(s);
    assert Lower(s)[i..] == Lower(s[i..]);
    TrailingSpacesLower(s[i..]);
  }

  /** `nlow` does not see the case of ASCII letters. */
  lemma NLowIgnoresCase(s: string)
    ensures NLow(Some(Lower(s))) == NLow(Some(s))
  {
    TrimLower(s);
    assert Lower(Lower(Trim(s))) == Lower(Trim(s));
  }

  predicate StartsWith(s: string, prefix: string) {
    |prefix| <= |s| && s[..|prefix|] == prefix
  }

  /** `h.includes(q)`: `q` occurs in `h` at some position. */
  predicate Includes(h: string, q: string)
    decreases |h|
  {
    StartsWith(h, q) || (h != [] && Includes(h[1..], q))
  }

  /** `q` stands in `h` at position `i`. */
  predicate OccursAt(h: string, q: string, i: nat) {
    i + |q| <= |h| && h[i..i + |q|] == q
  }

  /** `includes` finds exactly the infixes of `h`. */
  lemma {:induction false} IncludesIff(h: string, q: string)
    ensures Includes(h, q) <==> exists i: nat :: OccursAt(h, q, i)
  {
    if h == [] {
      if exists i: nat :: OccursAt(h, q, i) {
        var i: nat :| OccursAt(h, q, i);
        assert StartsWith(h, q);
      }
      if Includes(h, q) {
        assert OccursAt(h, q, 0);
      }
    } else {
      IncludesIff(h[1..], q);
      if exists i: nat :: OccursAt(h, q, i) {
        var i: nat :| OccursAt(h, q, i);
        if i > 0 {
          assert h[1..][i - 1..i - 1 + |q|] == h[i..i + |q|];
          assert OccursAt(h[1..], q, i - 1);
        } else {
          assert StartsWith(h, q);
        }
      }
      if Includes(h, q) {
        if StartsWith(h, q) {
          assert OccursAt(h, q, 0);
        } else {
          var i: nat :| OccursAt(h[1..], q, i);
          assert h[i + 1..i + 1 + |q|] == h[1..][i..i + |q|];
          assert OccursAt(h, q, i + 1);
        }
      }
    }
  }

  /** `s.split(sep)` for a one-character separator: the pieces between separators. */
  function Split(s: string, sep: char): (r: seq<string>)
    ensures |r| >= 1
    decreases |s|
  {
    if s == [] then [[]]
    else
      var rest := Split(s[1..], sep);
      if s[0] == sep then [[]] + rest else [[s[0]] + rest[0]] + rest[1..]
  }

  /** A string without the separator is one piece. */
  lemma {:induction false} SplitNoSeparator(s: string, sep: char)
    requires sep !in s
    ensures Split(s, sep) == [s]
  {
    if s != [] {
      SplitNoSeparator(s[1..], sep);
      assert [s[0]] + s[1..] == s;
    }
  }

  /** The first separator ends the first piece. */
  lemma {:induction false} SplitAtFirst(x: string, sep: char, y: string)
    requires sep !in x
    ensures Split(x + [sep] + y, sep) == [x] + Split(y, sep)
  {
    if x == [] {
      assert x + [sep] + y == [sep] + y;
      assert ([sep] + y)[1..] == y;
    } else {
      SplitAtFirst(x[1..], sep, y);
      assert (x + [sep] + y)[1..] == x[1..] + [sep] + y;
      assert [x[0]] + x[1..] == x;
    }
  }

  predicate IsDigit(c: char) {
    '0' <= c <= '9'
  }

  predicate AllDigits(s: string) {
    forall k :: 0 <= k < |s| ==> IsDigit(s[k])
  }

  function DigitValue(c: char): nat
    requires IsDigit(c)
  {
    c as int - '0' as int
  }

  function DigitChar(d: nat): (c: char)
    requires d < 10
    ensures IsDigit(c) && DigitValue(c) == d
  {
    ('0' as int + d) as char
  }

  /** The number a string of decimal digits denotes (what `parseInt(t, 10)` gives for it). */
  function DigitsValue(s: string): nat
    requires AllDigits(s)
    decreases |s|
  {
    if s == [] then 0 else DigitsValue(s[..|s| - 1]) * 10 + DigitValue(s[|s| - 1])
  }

  /** The decimal text of a natural number, as `${n}` writes it; reading it back gives `n`. */
  function NatStr(n: nat): (r: string)
    ensures |r| >= 1 && AllDigits(r)
    ensures DigitsValue(r) == n
    decreases n
  {
    if n < 10 then [DigitChar(n)]
    else
      var r := NatStr(n / 10) + [DigitChar(n % 10)];
      assert r[..|r| - 1] == NatStr(n / 10);
      r
  }

  /** The decimal text of an integer, with a leading `-` when negative. */
  function IntStr(i: int): (r: string)
    ensures |r| >= 1
  {
    if i < 0 then "-" + NatStr(-i) else NatStr(i)
  }

  lemma NatStrInjective(a: nat, b: nat)
    requires NatStr(a) == NatStr(b)
    ensures a == b
  {
  }

  lemma IntStrInjective(a: int, b: int)
    requires IntStr(a) == IntStr(b)
    ensures a == b
  {
    assert (IntStr(a)[0] == '-') == (a < 0);
    assert (IntStr(b)[0] == '-') == (b < 0);
    if a < 0 {
      assert NatStr(-a) == IntStr(a)[1..];
      assert NatStr(-b) == IntStr(b)[1..];
    }
  }
}
