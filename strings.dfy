/** The JavaScript string built-ins the application relies on, over `seq<char>`:
    `trim`, `split` on a run of separators, `includes`, `endsWith`, ASCII case
    mapping and the decimal rendering of a non-negative integer in a template
    literal. */
module Strings {

  // ---- Character classes ----

  /** The characters of the tokenizer's pattern `[, \n]`. */
  predicate IsSeparator(c: char) { c == ',' || c == ' ' || c == '\n' }

  /** What `String.prototype.trim` removes: the WhiteSpace and LineTerminator
      code points of ECMAScript (tab, vertical tab, form feed, space, no-break
      space, byte order mark, the Zs category, LF, CR, LS and PS). */
  predicate IsJsSpace(c: char)
  {
    || c == '\t' || c == '\n' || c == '\U{000B}' || c == '\U{000C}' || c == '\r' || c == ' '
    || c == '\U{00A0}' || c == '\U{1680}' || ('\U{2000}' <= c <= '\U{200A}')
    || c == '\U{2028}' || c == '\U{2029}' || c == '\U{202F}' || c == '\U{205F}'
    || c == '\U{3000}' || c == '\U{FEFF}'
  }

  predicate IsDigit(c: char) { '0' <= c <= '9' }

  predicate NoSeparator(s: string) { forall i :: 0 <= i < |s| ==> !IsSeparator(s[i]) }

  predicate AllSeparators(s: string) { forall i :: 0 <= i < |s| ==> IsSeparator(s[i]) }

  /** No leading and no trailing whitespace. */
  predicate Trimmed(s: string)
  {
    s == [] || (!IsJsSpace(s[0]) && !IsJsSpace(s[|s| - 1]))
  }

  // ---- trim ----

  /** Number of whitespace characters that start `s`. */
  function LeadingSpaces(s: string): (k: nat)
    ensures k <= |s|
    ensures forall i :: 0 <= i < k ==> IsJsSpace(s[i])
    ensures k < |s| ==> !IsJsSpace(s[k])
  {
    if s == [] || !IsJsSpace(s[0]) then 0 else 1 + LeadingSpaces(s[1..])
  }

  /** Number of whitespace characters that end `s`. */
  function TrailingSpaces(s: string): (k: nat)
    ensures k <= |s|
    ensures forall i :: |s| - k <= i < |s| ==> IsJsSpace(s[i])
    ensures k < |s| ==> !IsJsSpace(s[|s| - 1 - k])
  {
    if s == [] || !IsJsSpace(s[|s| - 1]) then 0 else 1 + TrailingSpaces(s[..|s| - 1])
  }

  /** `s.trim()`: the middle of `s` between its leading and its trailing
      whitespace. */
  function Trim(s: string): (r: string)
    ensures |r| <= |s|
    ensures Trimmed(r)
    ensures Trimmed(s) ==> r == s
  {
    var a := LeadingSpaces(s);
    var rest := s[a..];
    var t := TrailingSpaces(rest);
    assert forall i :: a + |rest| - t <= i < |s| ==> s[i] == rest[i - a];
    rest[..|rest| - t]
  }

  /** What `trim` keeps is one contiguous piece of `s`. */
  lemma TrimIsSlice(s: string)
    ensures LeadingSpaces(s) + |Trim(s)| <= |s|
    ensures Trim(s) == s[LeadingSpaces(s)..LeadingSpaces(s) + |Trim(s)|]
  {
    var a := LeadingSpaces(s);
    var rest := s[a..];
    assert Trim(s) == rest[..|Trim(s)|];
  }

  /** Everything `trim` drops is whitespace. */
  lemma TrimDropsWhitespace(s: string, i: nat)
    requires i < |s|
    requires !(LeadingSpaces(s) <= i < LeadingSpaces(s) + |Trim(s)|)
    ensures IsJsSpace(s[i])
  {
    var a := LeadingSpaces(s);
    var rest := s[a..];
    var t := TrailingSpaces(rest);
    if i >= a {
      assert |Trim(s)| == |rest| - t;
      assert s[i] == rest[i - a];
    }
  }

  /** Trimming cannot bring in a separator. */
  lemma TrimNoSeparator(s: string)
    requires NoSeparator(s)
    ensures NoSeparator(Trim(s))
  {
    TrimIsSlice(s);
    var a, r := LeadingSpaces(s), Trim(s);
    forall i | 0 <= i < |r| ensures !IsSeparator(r[i]) {
      assert r[i] == s[a + i];
    }
  }

  // ---- split(/[, \n]+/) ----

  /** Index of the first separator of `s`, or |s| when there is none. */
  function FirstSeparator(s: string): (k: nat)
    ensures k <= |s|
    ensures forall i :: 0 <= i < k ==> !IsSeparator(s[i])
    ensures k < |s| ==> IsSeparator(s[k])
  {
    if s == [] || IsSeparator(s[0]) then 0 else 1 + FirstSeparator(s[1..])
  }

  /** Length of the run of separators that starts `s`. */
  function SeparatorRun(s: string): (k: nat)
    ensures k <= |s|
    ensures forall i :: 0 <= i < k ==> IsSeparator(s[i])
    ensures k < |s| ==> !IsSeparator(s[k])
  {
    if s == [] || !IsSeparator(s[0]) then 0 else 1 + SeparatorRun(s[1..])
  }

  /** `s.split(/[, \n]+/)`: the fields between maximal runs of separators, left
      to right. A leading or trailing run yields an empty field, and "" gives [""]. */
  function Split(s: string): (r: seq<string>)
    ensures |r| >= 1
    ensures forall i :: 0 <= i < |r| ==> NoSeparator(r[i])
    decreases |s|
  {
    var k := FirstSeparator(s);
    if k == |s| then [s]
    else
      var rest := s[k..];
      [s[..k]] + Split(rest[SeparatorRun(rest)..])
  }

  // ---- includes, endsWith ----

  /** `sub` occurs in `s` starting at index `i`. */
  predicate OccursAt(s: string, sub: string, i: nat)
  {
    i + |sub| <= |s| && s[i..i + |sub|] == sub
  }

  /** `s.includes(sub)`. */
  function Contains(s: string, sub: string): (r: bool)
    ensures r <==> exists i: nat :: OccursAt(s, sub, i)
    decreases |s|
  {
    if |sub| > |s| then false
    else if s[..|sub|] == sub then assert OccursAt(s, sub, 0); true
    else
      var r := Contains(s[1..], sub);
      assert r ==> exists i: nat :: OccursAt(s, sub, i) by {
        if r {
          var i: nat :| OccursAt(s[1..], sub, i);
          assert s[i + 1..i + 1 + |sub|] == s[1..][i..i + |sub|];
          assert OccursAt(s, sub, i + 1);
        }
      }
      assert (exists i: nat :: OccursAt(s, sub, i)) ==> r by {
        if i: nat :| OccursAt(s, sub, i) {
          assert i != 0;
          assert s[1..][i - 1..i - 1 + |sub|] == s[i..i + |sub|];
          assert OccursAt(s[1..], sub, i - 1);
        }
      }
      r
  }

  /** `s.endsWith(suffix)`. */
  predicate EndsWith(s: string, suffix: string)
  {
    |suffix| <= |s| && s[|s| - |suffix|..] == suffix
  }

  // ---- ASCII case mapping ----

  function LowerChar(c: char): (r: char)
    ensures r == c || ('A' <= c <= 'Z' && 'a' <= r <= 'z')
  {
    if 'A' <= c <= 'Z' then (c as int + 32) as char else c
  }

  function UpperChar(c: char): (r: char)
    ensures r == c || ('a' <= c <= 'z' && 'A' <= r <= 'Z')
  {
    if 'a' <= c <= 'z' then (c as int - 32) as char else c
  }

  /** `s.toLowerCase()` on the ASCII letters. */
  function Lower(s: string): (r: string)
    ensures |r| == |s|
  {
    if s == [] then [] else [LowerChar(s[0])] + Lower(s[1..])
  }

  lemma {:induction false} LowerAt(s: string, i: nat)
    requires i < |s|
    ensures Lower(s)[i] == LowerChar(s[i])
  {
    if i > 0 { LowerAt(s[1..], i - 1); }
  }

  /** `s.charAt(0).toUpperCase() + s.slice(1)`. */
  function Capitalize(s: string): (r: string)
    ensures |r| == |s|
    ensures s != [] ==> r[0] == UpperChar(s[0]) && r[1..] == s[1..]
  {
    if s == [] then [] else [UpperChar(s[0])] + s[1..]
  }

  // ---- Decimal rendering of a non-negative integer ----

  function Digit(d: nat): (c: char)
    requires d < 10
    ensures IsDigit(c)
  {
    (48 + d) as char
  }

  /** `${n}` for a non-negative integer: up to 1e21 JavaScript prints integral
      numbers in plain decimal. */
  function Dec(n: nat): (r: string)
    ensures |r| >= 1
    ensures forall c :: c in r ==> IsDigit(c)
    decreases n
  {
    if n < 10 then [Digit(n)] else Dec(n / 10) + [Digit(n % 10)]
  }

  function DigitValue(c: char): (d: nat)
    requires IsDigit(c)
    ensures d < 10
  {
    c as int - '0' as int
  }

  /** Reads a decimal string back; the inverse of Dec. */
  function ParseDec(s: string): nat
    requires forall c :: c in s ==> IsDigit(c)
  {
    if s == [] then 0
    else
      assert s[|s| - 1] in s;
      ParseDec(s[..|s| - 1]) * 10 + DigitValue(s[|s| - 1])
  }

  lemma {:induction false} ParseDecOfDec(n: nat)
    ensures ParseDec(Dec(n)) == n
    decreases n
  {
    if n >= 10 {
      var s := Dec(n);
      assert s[..|s| - 1] == Dec(n / 10);
      ParseDecOfDec(n / 10);
    }
  }

  lemma DecInjective(a: nat, b: nat)
    ensures Dec(a) == Dec(b) ==> a == b
  {
    ParseDecOfDec(a);
    ParseDecOfDec(b);
  }

  /** Index of the first '-' of `s`, or |s| when there is none. */
  function FirstDash(s: string): nat
  {
    if s == [] || s[0] == '-' then 0 else 1 + FirstDash(s[1..])
  }

  lemma {:induction false} FirstDashAfterDigits(a: string, x: string)
    requires forall c :: c in a ==> IsDigit(c)
    ensures FirstDash(a + "-" + x) == |a|
  {
    if a != [] {
      assert a[0] in a;
      assert (a + "-" + x)[1..] == a[1..] + "-" + x;
      FirstDashAfterDigits(a[1..], x);
    }
  }

  /** Two digit strings each followed by a dash: the dash ends the digits. */
  lemma DigitsBeforeDash(a: string, x: string, b: string, y: string)
    requires forall c :: c in a ==> IsDigit(c)
    requires forall c :: c in b ==> IsDigit(c)
    requires a + "-" + x == b + "-" + y
    ensures a == b && x == y
  {
    var l, r := a + "-" + x, b + "-" + y;
    FirstDashAfterDigits(a, x);
    FirstDashAfterDigits(b, y);
    assert a == l[..|a|] && b == r[..|b|];
    assert x == l[|a| + 1..] && y == r[|b| + 1..];
  }

  /** The id shape `${prefix}${i}-${t}` used for generated records. */
  function Tagged(prefix: string, i: nat, t: nat): string
  {
    prefix + Dec(i) + "-" + Dec(t)
  }

  lemma PrefixCancel(p: string, x: string, y: string)
    requires p + x == p + y
    ensures x == y
  {
    assert x == (p + x)[|p|..];
    assert y == (p + y)[|p|..];
  }

  lemma SuffixCancel(x: string, y: string, s: string)
    requires x + s == y + s
    ensures x == y
  {
    assert |x| == |y|;
    assert x == (x + s)[..|x|];
    assert y == (y + s)[..|y|];
  }

  /** Such an id determines both numbers: the first dash after the prefix ends
      the first number, since decimal digits are never dashes. */
  lemma TaggedInjective(prefix: string, i: nat, t: nat, j: nat, u: nat)
    requires Tagged(prefix, i, t) == Tagged(prefix, j, u)
    ensures i == j && t == u
  {
    var a, b, c, d := Dec(i), Dec(t), Dec(j), Dec(u);
    assert Tagged(prefix, i, t) == prefix + (a + "-" + b);
    assert Tagged(prefix, j, u) == prefix + (c + "-" + d);
    PrefixCancel(prefix, a + "-" + b, c + "-" + d);
    DigitsBeforeDash(a, b, c, d);
    DecInjective(i, j);
    DecInjective(t, u);
  }
}
