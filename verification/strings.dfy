/** String facts the services rely on: the `[A-Za-z0-9_]` charset rule of the
    validators, PHP's `empty`, ASCII `strtolower`, the decimal rendering of ids
    inside cache keys, and the lexicographic order used for `ORDER BY`.
    Lengths are counted in characters, where PHP's `strlen` counts bytes. */
module Strings {
  import opened Wrappers

  predicate IsWordChar(c: char) {
    ('a' <= c <= 'z') || ('A' <= c <= 'Z') || ('0' <= c <= '9') || c == '_'
  }

  /** The charset rule `[A-Za-z0-9_]+` applied to the whole string, as the
      validators intend it: non-empty and nothing but word characters. */
  predicate IsWordString(s: string) {
    |s| > 0 && forall i :: 0 <= i < |s| ==> IsWordChar(s[i])
  }

  /** `preg_match('/^[a-zA-Z0-9_]+$/', s)` as PCRE evaluates it: without the `D`
      modifier, `$` also matches just before a newline that ends the subject. */
  predicate PcreWordMatch(s: string) {
    IsWordString(s) || (|s| >= 2 && s[|s| - 1] == '\n' && IsWordString(s[..|s| - 1]))
  }

  /** The pattern as written accepts a name that ends in a line feed. */
  lemma PcreWordMatchAcceptsTrailingNewline()
    ensures PcreWordMatch("abc\n") && !IsWordString("abc\n")
  {
    assert IsWordString("abc\n"[..3]) by { assert "abc\n"[..3] == "abc"; }
    assert !IsWordChar("abc\n"[3]);
  }

  /** The pattern as written accepts exactly one thing more than the rule: a
      word string followed by a single line feed. */
  lemma PcreWordMatchExtra(s: string)
    requires PcreWordMatch(s) && !IsWordString(s)
    ensures |s| >= 2 && s[|s| - 1] == '\n' && '\n' !in s[..|s| - 1] && ':' !in s
  {
  }

  /** Every word string followed by one line feed gets through the pattern as
      written, while a second line feed does not. */
  lemma PcreWordMatchAfterWord(w: string)
    requires IsWordString(w)
    ensures PcreWordMatch(w + "\n") && !IsWordString(w + "\n")
    ensures !PcreWordMatch(w + "\n\n")
  {
    assert (w + "\n")[..|w|] == w;
    assert (w + "\n")[|w|] == '\n';
    assert (w + "\n\n")[|w|] == '\n' && (w + "\n\n")[..|w| + 1] == w + "\n";
  }

  /** The intended rule excludes every separator the cache keys use, and line breaks. */
  lemma WordStringHasNoSeparators(s: string)
    requires IsWordString(s)
    ensures ':' !in s && '\n' !in s && PcreWordMatch(s)
  {
  }

  /** `3 <= strlen(s) <= 50` and the like. */
  predicate LengthBetween(s: string, lo: nat, hi: nat) {
    lo <= |s| <= hi
  }

  /** PHP `empty($data[k])` for an optional string field: absent, null, "" or "0". */
  predicate IsEmpty(o: Option<string>)
    ensures IsEmpty(o) ==> o.None? || |o.value| <= 1
  {
    o.None? || o.value == "" || o.value == "0"
  }

  /** Of the strings a field may hold, `empty` is true of "" and "0" only:
      "00", " " and "false" are present. */
  lemma EmptyValues()
    ensures IsEmpty(None) && IsEmpty(Some("")) && IsEmpty(Some("0"))
    ensures !IsEmpty(Some("00")) && !IsEmpty(Some(" ")) && !IsEmpty(Some("false"))
  {
  }

  function LowerChar(c: char): char {
    if 'A' <= c <= 'Z' then (c as int + 32) as char else c
  }

  /** `strtolower`, which since PHP 8.2 only maps the ASCII letters. */
  function ToLower(s: string): (r: string)
    ensures |r| == |s|
    ensures forall i :: 0 <= i < |s| ==> r[i] == LowerChar(s[i])
  {
    if s == [] then [] else [LowerChar(s[0])] + ToLower(s[1..])
  }

  /** Two names that are equal once case is ignored, compared position by position. */
  predicate SameName(a: string, b: string) {
    |a| == |b| && forall i :: 0 <= i < |a| ==> LowerChar(a[i]) == LowerChar(b[i])
  }

  lemma SameNameIsLowerEqual(a: string, b: string)
    ensures SameName(a, b) <==> ToLower(a) == ToLower(b)
  {
    if ToLower(a) == ToLower(b) {
      assert |a| == |b|;
      forall i | 0 <= i < |a|
        ensures LowerChar(a[i]) == LowerChar(b[i])
      {
        assert ToLower(a)[i] == ToLower(b)[i];
      }
    }
  }

  predicate IsDigit(c: char) {
    '0' <= c <= '9'
  }

  function DigitChar(d: nat): (c: char)
    requires d < 10
    ensures IsDigit(c)
  {
    (48 + d) as char
  }

  /** Decimal rendering of a natural number, as PHP interpolates an int. */
  function NatToString(n: nat): (s: string)
    ensures 1 <= |s|
    ensures n >= 10 ==> |s| >= 2
    ensures forall i :: 0 <= i < |s| ==> IsDigit(s[i])
    decreases n
  {
    if n < 10 then [DigitChar(n)] else NatToString(n / 10) + [DigitChar(n % 10)]
  }

  /** Decimal rendering of an int: a minus sign for negative values. */
  function IntToString(i: int): (s: string)
    ensures ':' !in s
  {
    if i < 0 then "-" + NatToString(-i) else NatToString(i)
  }

  lemma {:induction false} NatToStringInjective(a: nat, b: nat)
    requires NatToString(a) == NatToString(b)
    ensures a == b
    decreases a
  {
    var sa, sb := NatToString(a), NatToString(b);
    if a < 10 && b < 10 {
      assert DigitChar(a) == sa[0] == DigitChar(b);
    } else if a >= 10 && b >= 10 {
      assert sa[|sa| - 1] == DigitChar(a % 10);
      assert sb[|sb| - 1] == DigitChar(b % 10);
      assert NatToString(a / 10) == sa[..|sa| - 1] == sb[..|sb| - 1] == NatToString(b / 10);
      NatToStringInjective(a / 10, b / 10);
    }
  }

  lemma IntToStringInjective(a: int, b: int)
    requires IntToString(a) == IntToString(b)
    ensures a == b
  {
    var sa, sb := IntToString(a), IntToString(b);
    assert (a < 0 <==> sa[0] == '-') && (b < 0 <==> sb[0] == '-');
    if a < 0 && b < 0 {
      assert NatToString(-a) == sa[1..] == sb[1..] == NatToString(-b);
      NatToStringInjective(-a, -b);
    } else if a >= 0 && b >= 0 {
      NatToStringInjective(a, b);
    }
  }

  /** Where each character of `x + ":" + y` comes from. */
  lemma ColonJoinAt(x: string, y: string)
    ensures (x + ":" + y)[|x|] == ':'
    ensures forall i :: 0 <= i < |x| ==> (x + ":" + y)[i] == x[i]
    ensures forall i :: |x| < i < |x| + 1 + |y| ==> (x + ":" + y)[i] == y[i - |x| - 1]
  {
  }

  /** Splitting `x + ":" + y` at its first colon recovers `x` when `x` has none. */
  lemma SplitAtFirstColon(x1: string, y1: string, x2: string, y2: string)
    requires ':' !in x1 && ':' !in x2
    requires x1 + ":" + y1 == x2 + ":" + y2
    ensures x1 == x2 && y1 == y2
  {
    var s := x1 + ":" + y1;
    ColonJoinAt(x1, y1);
    ColonJoinAt(x2, y2);
    assert x1 == s[..|x1|] == x2;
    assert y1 == s[|x1| + 1..] == y2;
  }

  /** Splitting `x + ":" + y` at its last colon recovers `y` when `y` has none. */
  lemma SplitAtLastColon(x1: string, y1: string, x2: string, y2: string)
    requires ':' !in y1 && ':' !in y2
    requires x1 + ":" + y1 == x2 + ":" + y2
    ensures x1 == x2 && y1 == y2
  {
    var s := x1 + ":" + y1;
    ColonJoinAt(x1, y1);
    ColonJoinAt(x2, y2);
    assert x1 == s[..|x1|] == x2;
    assert y1 == s[|x1| + 1..] == y2;
  }

  /** A string with a single colon splits only one way. */
  lemma SplitAtOnlyColon(x1: string, y1: string, x2: string, y2: string)
    requires ':' !in x1 && ':' !in y1
    requires x1 + ":" + y1 == x2 + ":" + y2
    ensures x1 == x2 && y1 == y2
  {
    var s := x1 + ":" + y1;
    ColonJoinAt(x1, y1);
    ColonJoinAt(x2, y2);
    assert forall i :: 0 <= i < |s| && i != |x1| ==> s[i] != ':';
    assert s[|x2|] == ':';
    assert x1 == s[..|x1|] == x2;
    assert y1 == s[|x1| + 1..] == y2;
  }

  /** `x + ":"` starts `y + ":" + z` only when `x` is `y`, for colon-free `x` and `y`. */
  lemma ColonPrefixSame(x: string, y: string, z: string)
    requires ':' !in x && ':' !in y
    requires x + ":" <= y + ":" + z
    ensures x == y
  {
    var s := y + ":" + z;
    ColonJoinAt(y, z);
    assert (x + ":")[|x|] == ':';
    assert s[|x|] == ':';
    assert forall i :: 0 <= i < |x| ==> s[i] == x[i] && s[i] != ':';
    assert forall i :: 0 <= i < |y| ==> s[i] != ':';
    assert x == s[..|x|] == y;
  }

  /** Lexicographic order by character code, the order `ORDER BY` is modelled with. */
  predicate StrLe(a: string, b: string) {
    a == [] || (b != [] && (a[0] < b[0] || (a[0] == b[0] && StrLe(a[1..], b[1..]))))
  }

  lemma {:induction false} StrLeTotal(a: string, b: string)
    ensures StrLe(a, b) || StrLe(b, a)
    decreases |a|
  {
    if a != [] && b != [] && a[0] == b[0] {
      StrLeTotal(a[1..], b[1..]);
    }
  }

  lemma {:induction false} StrLeAntisymmetric(a: string, b: string)
    requires StrLe(a, b) && StrLe(b, a)
    ensures a == b
    decreases |a|
  {
    if a != [] {
      StrLeAntisymmetric(a[1..], b[1..]);
      assert a == [a[0]] + a[1..];
      assert b == [b[0]] + b[1..];
    }
  }

  lemma {:induction false} StrLeTransitive(a: string, b: string, c: string)
    requires StrLe(a, b) && StrLe(b, c)
    ensures StrLe(a, c)
    decreases |a|
  {
    if a != [] && b != [] && c != [] && a[0] == b[0] == c[0] {
      StrLeTransitive(a[1..], b[1..], c[1..]);
    }
  }
}
