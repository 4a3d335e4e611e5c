/** The Python string operations the services rely on: `str.strip()`,
    `str.lower()`, `in`, `str.replace(c, "")`, `str.split(c)`, `sep.join(xs)`
    and the built-in `int(str)`, each stated over `seq<char>`. */
module Text {
  import opened Wrappers

  /** The characters Python's `str.isspace()` accepts; `str.strip()`
      drops exactly these at either end. */
  predicate IsSpace(c: char) {
    || c == ' ' || c == '\t' || c == '\n' || c == '\r' || c == '\U{000B}' || c == '\U{000C}'
    || ('\U{001C}' <= c <= '\U{001F}') || c == '\U{0085}' || c == '\U{00A0}' || c == '\U{1680}'
    || ('\U{2000}' <= c <= '\U{200A}') || c == '\U{2028}' || c == '\U{2029}' || c == '\U{202F}'
    || c == '\U{205F}' || c == '\U{3000}'
  }

  /** The whitespace `int()` skips around a numeral. It maps every non-ASCII
      `isspace()` character to a plain space and then skips ASCII whitespace
      only, so the information separators U+001C..U+001F, which `isspace()`
      accepts, are kept and make the numeral invalid. */
  predicate IsIntSpace(c: char) {
    IsSpace(c) && !('\U{001C}' <= c <= '\U{001F}')
  }

  /** The whitespace set of `str.strip()`, or of `int()` when `forInt`. */
  predicate Blank(c: char, forInt: bool) {
    if forInt then IsIntSpace(c) else IsSpace(c)
  }

  predicate IsDigit(c: char) {
    '0' <= c <= '9'
  }

  predicate NoDigit(s: string) {
    forall i :: 0 <= i < |s| ==> !IsDigit(s[i])
  }

  predicate AllSpace(s: string) {
    forall i :: 0 <= i < |s| ==> IsSpace(s[i])
  }

  /* ---------------------------------------------------------------- strip */

  /** The index of the first non-blank character at or after `i`. */
  function SkipSpaces(s: string, i: nat, forInt: bool): (k: nat)
    requires i <= |s|
    ensures i <= k <= |s|
    ensures forall m :: i <= m < k ==> Blank(s[m], forInt)
    ensures k == |s| || !Blank(s[k], forInt)
    decreases |s| - i
  {
    if i < |s| && Blank(s[i], forInt) then SkipSpaces(s, i + 1, forInt) else i
  }

  /** The end of `s[lo..j]` once trailing blanks are dropped. */
  function DropTrailing(s: string, lo: nat, j: nat, forInt: bool): (k: nat)
    requires lo <= j <= |s|
    ensures lo <= k <= j
    ensures forall m :: k <= m < j ==> Blank(s[m], forInt)
    ensures k == lo || !Blank(s[k - 1], forInt)
  {
    if j > lo && Blank(s[j - 1], forInt) then DropTrailing(s, lo, j - 1, forInt) else j
  }

  /** The slice of `s` left after dropping blanks at both ends; everything
      dropped is blank and the ends of the result are not. */
  function Trim(s: string, forInt: bool): (r: string)
    ensures r == [] || (!Blank(r[0], forInt) && !Blank(r[|r| - 1], forInt))
    ensures r == [] <==> forall i :: 0 <= i < |s| ==> Blank(s[i], forInt)
    ensures NoDigit(s) ==> NoDigit(r)
  {
    var i := SkipSpaces(s, 0, forInt);
    var j := DropTrailing(s, i, |s|, forInt);
    assert i < |s| ==> !Blank(s[i], forInt);
    s[i..j]
  }

  /** `s.strip()`: no whitespace is left at either end, and the result is
      empty exactly when the text is all whitespace. */
  function Strip(s: string): (r: string)
    ensures r == [] || (!IsSpace(r[0]) && !IsSpace(r[|r| - 1]))
    ensures r == [] <==> AllSpace(s)
    ensures NoDigit(s) ==> NoDigit(r)
  {
    Trim(s, false)
  }

  /** The text `int()` reads once the whitespace it skips is gone: `strip()`
      without the information separators. */
  function IntStrip(s: string): (r: string)
    ensures r == [] || (!IsIntSpace(r[0]) && !IsIntSpace(r[|r| - 1]))
    ensures NoDigit(s) ==> NoDigit(r)
  {
    Trim(s, true)
  }

  /** Whitespace without information separators trims to nothing for
      `int()` as it does for `strip()`. */
  lemma IntStripOfSpace(s: string)
    requires AllSpace(s) && forall i :: 0 <= i < |s| ==> !('\U{001C}' <= s[i] <= '\U{001F}')
    ensures IntStrip(s) == []
  {
    assert forall i :: 0 <= i < |s| ==> Blank(s[i], true);
  }

  /** What `Strip` drops is whitespace, and what it keeps is one contiguous
      slice of the text. */
  lemma StripDropsOnlySpace(s: string)
    ensures exists i, j :: 0 <= i <= j <= |s| && Strip(s) == s[i..j] && AllSpace(s[..i]) && AllSpace(s[j..])
  {
    var i := SkipSpaces(s, 0, false);
    var j := DropTrailing(s, i, |s|, false);
    assert Strip(s) == s[i..j] && AllSpace(s[..i]) && AllSpace(s[j..]);
  }

  /** Text that starts and ends with a non-space character is left alone,
      by `strip()` and by `int()`'s own trimming alike. */
  lemma StripNoOp(s: string)
    requires s != [] && !IsSpace(s[0]) && !IsSpace(s[|s| - 1])
    ensures Strip(s) == s && IntStrip(s) == s
  {
  }

  /* ---------------------------------------------------------------- lower */

  /** `str.lower()` on one character, for every character whose lower-case
      form is a single ASCII letter: A-Z and the Kelvin sign (U+212A, which
      Python lowers to `k`). Other case mappings never produce a character
      the services test for and are left as the identity. */
  function LowerChar(c: char): (r: char)
    ensures !('A' <= r <= 'Z') && r != '\U{212A}'
    ensures r == c || 'a' <= r <= 'z'
    ensures IsDigit(r) <==> IsDigit(c)
    ensures IsSpace(r) <==> IsSpace(c)
  {
    if 'A' <= c <= 'Z' then (c as int + 32) as char
    else if c == '\U{212A}' then 'k'
    else c
  }

  function Lower(s: string): (r: string)
    ensures |r| == |s|
    ensures forall i :: 0 <= i < |s| ==> r[i] == LowerChar(s[i])
  {
    seq(|s|, i requires 0 <= i < |s| => LowerChar(s[i]))
  }

  /** Lower-casing twice changes nothing more than lower-casing once. */
  lemma LowerIdempotent(s: string)
    ensures Lower(Lower(s)) == Lower(s)
  {
  }

  /** Text with no upper-case letter is its own lower-case form. */
  lemma LowerNoOp(s: string)
    requires forall i :: 0 <= i < |s| ==> LowerChar(s[i]) == s[i]
    ensures Lower(s) == s
  {
  }

  /* ------------------------------------------------------------ searching */

  /** `sub` occurs in `s` starting at index `i`. */
  predicate OccursAt(s: string, sub: string, i: int) {
    0 <= i <= |s| - |sub| && s[i..i + |sub|] == sub
  }

  /** `sub in s` for strings: `sub` occurs contiguously somewhere in `s`. */
  predicate Contains(s: string, sub: string): (r: bool)
    ensures r <==> exists i :: OccursAt(s, sub, i)
    decreases |s|
  {
    if sub <= s then
      OccursAtStart(s, sub);
      true
    else if |s| > 0 && Contains(s[1..], sub) then
      var i :| OccursAt(s[1..], sub, i);
      OccursInTail(s, sub, i);
      true
    else
      assert forall i :: !OccursAt(s, sub, i) by {
        forall i | OccursAt(s, sub, i) ensures false {
          if i == 0 {
            OccursAtStart(s, sub);
          } else {
            OccursInTail(s, sub, i - 1);
          }
        }
      }
      false
  }

  /** An occurrence at the start is a prefix. */
  lemma OccursAtStart(s: string, sub: string)
    ensures OccursAt(s, sub, 0) <==> sub <= s
  {
  }

  /** Occurrences in the tail are those of the whole text shifted by one. */
  lemma OccursInTail(s: string, sub: string, i: nat)
    requires |s| > 0
    ensures OccursAt(s[1..], sub, i) <==> OccursAt(s, sub, i + 1)
  {
    if 0 <= i <= |s| - 1 - |sub| {
      assert s[1..][i..i + |sub|] == s[i + 1..i + 1 + |sub|];
    }
  }

  /** Text holding an occurrence of `sub` holds its first character. */
  lemma {:induction false} ContainsFirstChar(s: string, sub: string)
    requires |sub| > 0 && Contains(s, sub)
    ensures sub[0] in s
    decreases |s|
  {
    if !(sub <= s) {
      ContainsFirstChar(s[1..], sub);
      assert sub[0] in s[1..];
    }
  }

  /** Every character of `s` is in `t`. */
  predicate CharsFrom(s: string, t: string) {
    forall i :: 0 <= i < |s| ==> s[i] in t
  }

  /** `s.replace(c, "")`: `s` with every `c` deleted and nothing else
      changed. */
  function RemoveAll(s: string, c: char): (r: string)
    ensures c !in r && |r| <= |s| && CharsFrom(r, s)
    ensures c !in s ==> r == s
  {
    if s == [] then []
    else (if s[0] == c then [] else [s[0]]) + RemoveAll(s[1..], c)
  }

  /** Deleting a character distributes over concatenation. */
  lemma {:induction false} RemoveAllAppend(a: string, b: string, c: char)
    ensures RemoveAll(a + b, c) == RemoveAll(a, c) + RemoveAll(b, c)
  {
    if a != [] {
      assert (a + b)[1..] == a[1..] + b;
      RemoveAllAppend(a[1..], b, c);
    } else {
      assert a + b == b;
    }
  }

  /** `s.split(c)[0]`: the text before the first `c`, or all of `s`. */
  function BeforeFirst(s: string, c: char): (r: string)
    ensures r <= s && c !in r
    ensures c in s ==> |r| < |s| && s[|r|] == c
    ensures c !in s ==> r == s
  {
    if s == [] then []
    else if s[0] == c then []
    else [s[0]] + BeforeFirst(s[1..], c)
  }

  /** `s.split(c)[-1]`: the text after the last `c`, or all of `s`. */
  function AfterLast(s: string, c: char): (r: string)
    ensures |r| <= |s| && r == s[|s| - |r|..] && c !in r
    ensures c in s ==> |r| < |s| && s[|s| - |r| - 1] == c
    ensures c !in s ==> r == s
  {
    if s == [] then []
    else if s[|s| - 1] == c then []
    else AfterLast(s[..|s| - 1], c) + [s[|s| - 1]]
  }

  /** The text before the first `c` of `a + [c] + b` is `a` when `a` holds
      no `c`. */
  lemma {:induction false} BeforeFirstSplits(a: string, c: char, b: string)
    requires c !in a
    ensures BeforeFirst(a + [c] + b, c) == a
  {
    if a != [] {
      assert (a + [c] + b)[1..] == a[1..] + [c] + b;
      BeforeFirstSplits(a[1..], c, b);
      assert a == [a[0]] + a[1..];
    }
  }

  /** The text after the last `c` of `a + [c] + b` is `b` when `b` holds no
      `c`. */
  lemma {:induction false} AfterLastSplits(a: string, c: char, b: string)
    requires c !in b
    ensures AfterLast(a + [c] + b, c) == b
  {
    if b != [] {
      var s := a + [c] + b;
      assert s[..|s| - 1] == a + [c] + b[..|b| - 1];
      AfterLastSplits(a, c, b[..|b| - 1]);
      assert b == b[..|b| - 1] + [b[|b| - 1]];
    }
  }

  /** Deleting the one separator between two pieces that lack it
      concatenates them. */
  lemma RemoveSeparator(a: string, c: char, b: string)
    requires c !in a && c !in b
    ensures RemoveAll(a + [c] + b, c) == a + b
  {
    var ac := a + [c];
    RemoveAllAppend(ac, b, c);
    RemoveAllAppend(a, [c], c);
    assert RemoveAll([c], c) == [] by { assert [c][1..] == []; }
    assert RemoveAll(ac, c) == a;
  }

  /* ------------------------------------------------------- split and join */

  /** `sep.join(xs)`. */
  function Join(xs: seq<string>, sep: string): (r: string)
    ensures xs == [] ==> r == ""
    ensures |xs| == 1 ==> r == xs[0]
    ensures |xs| > 1 ==> xs[0] + sep <= r
    ensures |xs| > 0 ==> |r| >= |xs[0]| + (|xs| - 1) * |sep|
  {
    if |xs| == 0 then ""
    else if |xs| == 1 then xs[0]
    else xs[0] + sep + Join(xs[1..], sep)
  }

  /** Joining one more element appends the separator and that element. */
  lemma {:induction false} JoinSnoc(xs: seq<string>, x: string, sep: string)
    requires |xs| > 0
    ensures Join(xs + [x], sep) == Join(xs, sep) + sep + x
  {
    if |xs| == 1 {
      assert (xs + [x])[1..] == [x];
    } else {
      assert (xs + [x])[1..] == xs[1..] + [x];
      JoinSnoc(xs[1..], x, sep);
    }
  }

  /** `s.split(c)` for a one-character separator: the pieces between
      successive occurrences of `c`, always at least one. */
  function Split(s: string, c: char): (r: seq<string>)
    ensures |r| > 0
    ensures forall i :: 0 <= i < |r| ==> c !in r[i]
    decreases |s|
  {
    var head := BeforeFirst(s, c);
    if c in s then [head] + Split(s[|head| + 1..], c) else [head]
  }

  /** Splitting a join gives back the pieces, as long as none of them
      contains the separator. */
  lemma {:induction false} SplitJoin(xs: seq<string>, c: char)
    requires |xs| > 0
    requires forall i :: 0 <= i < |xs| ==> c !in xs[i]
    ensures Split(Join(xs, [c]), c) == xs
  {
    if |xs| > 1 {
      var s := Join(xs, [c]);
      assert xs == [xs[0]] + xs[1..];
      JoinCons(xs[0], xs[1..], [c]);
      BeforeFirstSplits(xs[0], c, Join(xs[1..], [c]));
      assert s[|xs[0]| + 1..] == Join(xs[1..], [c]);
      SplitJoin(xs[1..], c);
    }
  }

  /** Joining the pieces of a split gives back the text. */
  lemma {:induction false} JoinSplit(s: string, c: char)
    ensures Join(Split(s, c), [c]) == s
    decreases |s|
  {
    if c in s {
      var head := BeforeFirst(s, c);
      var rest := s[|head| + 1..];
      JoinSplit(rest, c);
      JoinCons(head, Split(rest, c), [c]);
      assert s == head + [c] + rest;
    }
  }

  /** Joining a list with a non-empty tail puts the separator after its
      head. */
  lemma JoinCons(x: string, xs: seq<string>, sep: string)
    requires |xs| > 0
    ensures Join([x] + xs, sep) == x + sep + Join(xs, sep)
  {
    assert ([x] + xs)[1..] == xs;
  }

  /* ---------------------------------------------------------- int parsing */

  function DigitChar(d: nat): char
    requires d < 10
  {
    ('0' as int + d) as char
  }

  /** The decimal numeral of `n`, as `str(n)` writes it. */
  function NatToString(n: nat): (r: string)
    ensures |r| > 0 && forall i :: 0 <= i < |r| ==> IsDigit(r[i])
    ensures r[0] == '0' ==> n == 0
  {
    if n < 10 then [DigitChar(n)] else NatToString(n / 10) + [DigitChar(n % 10)]
  }

  /** The value of a string of decimal digits. */
  function DigitsValue(d: string): nat
  {
    if d == [] then 0
    else
      var last := d[|d| - 1] as int - '0' as int;
      DigitsValue(d[..|d| - 1]) * 10 + (if 0 <= last then last else 0)
  }

  /** After the first digit, a run of digits that may carry single
      underscores between digits, as `int()` accepts. */
  predicate DigitTail(t: string)
    decreases |t|
  {
    || t == []
    || (IsDigit(t[0]) && DigitTail(t[1..]))
    || (|t| >= 2 && t[0] == '_' && IsDigit(t[1]) && DigitTail(t[2..]))
  }

  predicate DigitRun(b: string) {
    |b| > 0 && IsDigit(b[0]) && DigitTail(b[1..])
  }

  /** Python's `int(s)` in base 10: the whitespace `int()` skips at either
      end is ignored, then an optional sign, then ASCII digits with single
      underscores allowed between them. `None` stands for the `ValueError`
      it raises. */
  function ParseInt(s: string): (r: Option<int>)
    ensures r.Some? ==> !NoDigit(s)
    ensures r.Some? ==> IntStrip(s) != [] && IsDigit(IntStrip(s)[|IntStrip(s)| - 1])
  {
    ParseStripped(IntStrip(s))
  }

  /** `int()` once the surrounding whitespace is gone. */
  function ParseStripped(t: string): (r: Option<int>)
    ensures r.Some? ==> t != [] && IsDigit(t[|t| - 1]) && !NoDigit(t)
    ensures r.Some? && t[0] == '-' ==> r.value <= 0
    ensures r.Some? && t[0] != '-' ==> r.value >= 0
  {
    var b := if |t| > 0 && (t[0] == '+' || t[0] == '-') then t[1..] else t;
    if DigitRun(b) && |b| > 1 then DigitTailEndsInDigit(b[1..]); ParseSigned(t) else ParseSigned(t)
  }

  /** The sign and the digits of stripped text. */
  function ParseSigned(t: string): Option<int>
  {
    if |t| > 0 && (t[0] == '+' || t[0] == '-') then
      match Unsigned(t[1..])
      case None => None
      case Some(v) =>
        var n: int := v;
        Some(if t[0] == '-' then -n else n)
    else
      match Unsigned(t)
      case None => None
      case Some(v) => Some(v)
  }

  /** The digits after any sign: their value once underscores are dropped. */
  function Unsigned(b: string): Option<nat>
  {
    if DigitRun(b) then Some(DigitsValue(RemoveAll(b, '_'))) else None
  }

  /** Text without an ASCII digit never parses. */
  lemma ParseIntNeedsDigit(s: string)
    requires NoDigit(s)
    ensures ParseInt(s).None?
  {
  }

  /** A leading information separator (U+001C..U+001F) is not skipped by
      `int()`, although `str.strip()` would drop it: the text never parses. */
  lemma ParseIntRejectsSeparator(s: string)
    requires s != [] && '\U{001C}' <= s[0] <= '\U{001F}'
    ensures IsSpace(s[0]) && ParseInt(s).None?
  {
    var i := SkipSpaces(s, 0, true);
    var j := DropTrailing(s, i, |s|, true);
    assert i == 0 && j > 0;
    assert IntStrip(s)[0] == s[0];
  }

  lemma {:induction false} DigitTailEndsInDigit(t: string)
    requires DigitTail(t) && t != []
    ensures IsDigit(t[|t| - 1])
    decreases |t|
  {
    if IsDigit(t[0]) && DigitTail(t[1..]) {
      if |t| > 1 { DigitTailEndsInDigit(t[1..]); }
    } else if |t| > 2 {
      DigitTailEndsInDigit(t[2..]);
    }
  }

  /** Whatever `int()` accepts ends, once stripped, in a digit. */
  lemma ParseIntEndsInDigit(s: string)
    ensures ParseInt(s).Some? ==> IntStrip(s) != [] && IsDigit(IntStrip(s)[|IntStrip(s)| - 1])
  {
  }

  lemma {:induction false} DigitsValueOfNat(n: nat)
    ensures DigitsValue(NatToString(n)) == n
  {
    if n >= 10 {
      var r := NatToString(n);
      assert r[..|r| - 1] == NatToString(n / 10);
      DigitsValueOfNat(n / 10);
    }
  }

  lemma {:induction false} AllDigitsTail(t: string)
    requires forall i :: 0 <= i < |t| ==> IsDigit(t[i])
    ensures DigitTail(t)
    decreases |t|
  {
    if t != [] { AllDigitsTail(t[1..]); }
  }

  lemma DigitsHaveNoUnderscore(d: string)
    requires d != [] && forall k :: 0 <= k < |d| ==> IsDigit(d[k])
    ensures '_' !in d && DigitRun(d) && RemoveAll(d, '_') == d
  {
    forall k | 0 <= k < |d| ensures d[k] != '_' { assert IsDigit(d[k]); }
    AllDigitsTail(d[1..]);
  }

  /** A run of digits parses to its value. */
  lemma ParseIntOfDigits(d: string)
    requires d != [] && forall k :: 0 <= k < |d| ==> IsDigit(d[k])
    ensures ParseInt(d) == Some(DigitsValue(d))
  {
    DigitsAreStripped(d);
    UnsignedOfDigits(d);
    ParseStrippedUnsigned(d, DigitsValue(d));
  }

  /** Stripped text made of a minus sign and a valid unsigned part. */
  lemma ParseIntOfMinus(d: string, v: nat)
    requires IntStrip("-" + d) == "-" + d && Unsigned(d) == Some(v)
    ensures ParseInt("-" + d) == Some(-(v as int))
  {
    var s := "-" + d;
    assert s[0] == '-' && s[1..] == d;
    ParseStrippedNegative(s, v);
  }

  /** Text without a sign reads as its unsigned value. */
  lemma ParseStrippedUnsigned(t: string, v: nat)
    requires t != [] && t[0] != '+' && t[0] != '-' && Unsigned(t) == Some(v)
    ensures ParseStripped(t) == Some(v)
  {
  }

  /** Text with a minus sign reads as the negated value of the rest. */
  lemma ParseStrippedNegative(t: string, v: nat)
    requires t != [] && t[0] == '-' && Unsigned(t[1..]) == Some(v)
    ensures ParseStripped(t) == Some(-(v as int))
  {
  }

  lemma UnsignedOfDigits(d: string)
    requires d != [] && forall k :: 0 <= k < |d| ==> IsDigit(d[k])
    ensures !(d[0] == '+' || d[0] == '-') && Unsigned(d) == Some(DigitsValue(d))
  {
    DigitsHaveNoUnderscore(d);
    assert IsDigit(d[0]);
  }

  lemma DigitsAreStripped(d: string)
    requires d != [] && forall k :: 0 <= k < |d| ==> IsDigit(d[k])
    ensures IntStrip(d) == d
  {
    assert IsDigit(d[0]) && IsDigit(d[|d| - 1]);
    StripNoOp(d);
  }

  lemma NegatedDigitsAreStripped(d: string)
    requires d != [] && forall k :: 0 <= k < |d| ==> IsDigit(d[k])
    ensures IntStrip("-" + d) == "-" + d
  {
    var s := "-" + d;
    assert IsDigit(d[|d| - 1]);
    assert s[0] == '-' && s[|s| - 1] == d[|d| - 1];
    StripNoOp(s);
  }

  /** `int(str(n)) == n`: the numeral of a natural number parses back to it. */
  lemma ParseIntOfNat(n: nat)
    ensures ParseInt(NatToString(n)) == Some(n)
  {
    ParseIntOfDigits(NatToString(n));
    DigitsValueOfNat(n);
  }

  /** `int("-" + str(n)) == -n`. */
  lemma ParseIntOfNegated(n: nat)
    ensures ParseInt("-" + NatToString(n)) == Some(-(n as int))
  {
    var d := NatToString(n);
    NegatedDigitsAreStripped(d);
    UnsignedOfDigits(d);
    DigitsValueOfNat(n);
    ParseIntOfMinus(d, n);
  }
}
