/** String helpers with JavaScript's semantics: decimal rendering of integers,
    `padStart`, `join`, `split` on one character, and `trim`. */
module Text {
  import opened Seqs

  predicate IsDigit(c: char) { '0' <= c <= '9' }

  function DigitChar(d: nat): char
    requires d < 10
  {
    ['0', '1', '2', '3', '4', '5', '6', '7', '8', '9'][d]
  }

  function DigitValue(c: char): nat
    requires IsDigit(c)
  {
    (c as int - '0' as int) as nat
  }

  /** `String(n)` for a non-negative integer: its decimal digits, no leading zero. */
  function NatToString(n: nat): (s: string)
    ensures |s| >= 1 && forall i :: 0 <= i < |s| ==> IsDigit(s[i])
    ensures (|s| == 1) == (n < 10)
    ensures |s| > 1 ==> s[0] != '0'
  {
    if n < 10 then [DigitChar(n)] else NatToString(n / 10) + [DigitChar(n % 10)]
  }

  /** The number a string of decimal digits denotes. */
  function DecimalValue(s: string): nat
    requires forall i :: 0 <= i < |s| ==> IsDigit(s[i])
  {
    if s == [] then 0 else DecimalValue(s[..|s| - 1]) * 10 + DigitValue(s[|s| - 1])
  }

  /** Rendering a number in decimal loses nothing: reading the digits back gives it. */
  lemma {:induction false} NatToStringRoundTrip(n: nat)
    ensures DecimalValue(NatToString(n)) == n
  {
    var s := NatToString(n);
    if n >= 10 {
      NatToStringRoundTrip(n / 10);
      assert s[..|s| - 1] == NatToString(n / 10);
    }
  }

  /** `String(i)` for any integer: a minus sign before the digits of a negative one. */
  function IntToString(i: int): (s: string)
    ensures |s| >= 1
    ensures (i < 0) == (s[0] == '-')
  {
    if i < 0 then "-" + NatToString(-i) else NatToString(i)
  }

  function Repeat(c: char, n: nat): (s: string)
    ensures |s| == n && forall i :: 0 <= i < n ==> s[i] == c
  {
    if n == 0 then [] else [c] + Repeat(c, n - 1)
  }

  /** `s.padStart(width, c)`: fill on the left up to `width`; a longer string is unchanged. */
  function PadStart(s: string, width: nat, c: char): (r: string)
    ensures |r| == Max(|s|, width)
    ensures r[|r| - |s|..] == s
    ensures forall i :: 0 <= i < |r| - |s| ==> r[i] == c
  {
    if |s| >= width then s else Repeat(c, width - |s|) + s
  }

  /** `parts.join(sep)`. */
  function Join(parts: seq<string>, sep: string): string
  {
    if |parts| == 0 then ""
    else if |parts| == 1 then parts[0]
    else parts[0] + sep + Join(parts[1..], sep)
  }

  /** `s.split(c)` for a one-character separator: the pieces between occurrences of `c`;
      the empty string gives one empty piece. */
  function Split(s: string, c: char): (r: seq<string>)
    ensures |r| >= 1
  {
    if s == [] then [[]]
    else
      var rest := Split(s[1..], c);
      if s[0] == c then [[]] + rest else [[s[0]] + rest[0]] + rest[1..]
  }

  lemma {:induction false} SplitNoSeparator(s: string, c: char)
    requires c !in s
    ensures Split(s, c) == [s]
  {
    if s != [] {
      assert c !in s[1..] by { assert forall x :: x in s[1..] ==> x in s; }
      SplitNoSeparator(s[1..], c);
      assert [s[0]] + s[1..] == s;
    }
  }

  lemma {:induction false} SplitFirst(p: string, c: char, rest: string)
    requires c !in p
    ensures Split(p + [c] + rest, c) == [p] + Split(rest, c)
  {
    if p == [] {
      assert p + [c] + rest == [c] + rest;
      assert ([c] + rest)[1..] == rest;
    } else {
      assert (p + [c] + rest)[1..] == p[1..] + [c] + rest;
      SplitFirst(p[1..], c, rest);
      assert [p[0]] + p[1..] == p;
    }
  }

  /** Splitting undoes joining when no piece contains the separator. */
  lemma {:induction false} SplitJoin(parts: seq<string>, c: char)
    requires |parts| >= 1
    requires forall i :: 0 <= i < |parts| ==> c !in parts[i]
    ensures Split(Join(parts, [c]), c) == parts
  {
    if |parts| == 1 {
      SplitNoSeparator(parts[0], c);
    } else {
      SplitJoin(parts[1..], c);
      SplitFirst(parts[0], c, Join(parts[1..], [c]));
      assert [parts[0]] + parts[1..] == parts;
    }
  }

  /** The characters JavaScript's `trim` removes and its regular-expression class `\s`
      matches: WhiteSpace and LineTerminator of ECMA-262. */
  predicate IsSpace(c: char)
  {
    c == '\t' || c == '\n' || c == '\U{000B}' || c == '\U{000C}' || c == '\r' || c == ' '
    || c == '\U{00A0}' || c == '\U{1680}' || ('\U{2000}' <= c <= '\U{200A}')
    || c == '\U{2028}' || c == '\U{2029}' || c == '\U{202F}' || c == '\U{205F}'
    || c == '\U{3000}' || c == '\U{FEFF}'
  }

  function TrimStart(s: string): (r: string)
    ensures |r| <= |s|
    ensures r == [] || !IsSpace(r[0])
  {
    if s != [] && IsSpace(s[0]) then TrimStart(s[1..]) else s
  }

  function TrimEnd(s: string): (r: string)
    ensures |r| <= |s|
    ensures r == [] || !IsSpace(r[|r| - 1])
  {
    if s != [] && IsSpace(s[|s| - 1]) then TrimEnd(s[..|s| - 1]) else s
  }

  /** What `TrimStart` keeps is a suffix of its argument. */
  lemma {:induction false} TrimStartSuffix(s: string)
    ensures TrimStart(s) == s[|s| - |TrimStart(s)|..]
  {
    if s != [] && IsSpace(s[0]) {
      TrimStartSuffix(s[1..]);
    }
  }

  /** What `TrimEnd` keeps is a prefix of its argument. */
  lemma {:induction false} TrimEndPrefix(s: string)
    ensures TrimEnd(s) == s[..|TrimEnd(s)|]
  {
    if s != [] && IsSpace(s[|s| - 1]) {
      TrimEndPrefix(s[..|s| - 1]);
    }
  }

  /** `s.trim()`. */
  function Trim(s: string): (r: string)
    ensures r == [] || (!IsSpace(r[0]) && !IsSpace(r[|r| - 1]))
  {
    var t := TrimStart(s);
    var r := TrimEnd(t);
    TrimEndPrefix(t);
    assert r != [] ==> r[0] == t[0];
    r
  }

  /** Trimming adds no character. */
  lemma TrimWithin(s: string, c: char)
    requires c !in s
    ensures c !in TrimStart(s) && c !in Trim(s)
  {
    TrimStartSuffix(s);
    TrimEndPrefix(TrimStart(s));
  }

  /** A string that has no surrounding white space is its own trim. */
  lemma TrimIdentity(s: string)
    requires s == [] || (!IsSpace(s[0]) && !IsSpace(s[|s| - 1]))
    ensures Trim(s) == s
  {
  }

  /** `a < b` as the default `Array.prototype.sort` compares strings: the first
      differing character decides, and a proper prefix comes first. */
  predicate Less(a: string, b: string)
  {
    if a == [] then b != []
    else b != [] && (a[0] < b[0] || (a[0] == b[0] && Less(a[1..], b[1..])))
  }

  /** `Less` is a strict total order. */
  lemma {:induction false} LessIrreflexive(a: string)
    ensures !Less(a, a)
  {
    if a != [] {
      LessIrreflexive(a[1..]);
    }
  }

  lemma {:induction false} LessTransitive(a: string, b: string, c: string)
    requires Less(a, b) && Less(b, c)
    ensures Less(a, c)
  {
    if a != [] && a[0] == b[0] && b[0] == c[0] {
      LessTransitive(a[1..], b[1..], c[1..]);
    }
  }

  lemma {:induction false} LessTotal(a: string, b: string)
    requires a != b
    ensures Less(a, b) || Less(b, a)
  {
    if a != [] && b != [] && a[0] == b[0] {
      LessTotal(a[1..], b[1..]);
    }
  }
}
