/** Small string and number helpers shared by the receipt model: the `\D`
    stripping done by every formatter, decimal rendering and reading of
    non-negative integers, the JavaScript `trim` and `split` operations, and
    a substring predicate used to state what the assembled document contains. */
module Text {

  datatype Option<T> = None | Some(value: T)

  /** The regular-expression class `\d`: an ASCII decimal digit. */
  predicate IsDigit(c: char) { '0' <= c <= '9' }

  predicate AllDigits(s: string) { forall i :: 0 <= i < |s| ==> IsDigit(s[i]) }

  /** `s.replace(/\D/g, '')`: keep the digits of `s`, in order. */
  function Digits(s: string): (r: string)
    ensures AllDigits(r) && |r| <= |s|
  {
    if s == [] then []
    else if IsDigit(s[0]) then [s[0]] + Digits(s[1..])
    else Digits(s[1..])
  }

  lemma {:induction false} DigitsOfDigits(s: string)
    requires AllDigits(s)
    ensures Digits(s) == s
  {
    if s != [] {
      DigitsOfDigits(s[1..]);
    }
  }

  lemma {:induction false} DigitsAppend(a: string, b: string)
    ensures Digits(a + b) == Digits(a) + Digits(b)
  {
    if a == [] {
      assert a + b == b;
    } else {
      assert (a + b)[1..] == a[1..] + b;
      DigitsAppend(a[1..], b);
    }
  }

  lemma DigitsOfNonDigit(c: char)
    requires !IsDigit(c)
    ensures Digits([c]) == []
  {
  }

  lemma DigitsLack(s: string, c: char)
    requires AllDigits(s) && !IsDigit(c)
    ensures c !in s
  {
  }

  function DigitChar(d: nat): (c: char)
    requires d < 10
    ensures IsDigit(c) && c as int == '0' as int + d
  {
    ('0' as int + d) as char
  }

  function DigitValue(c: char): (d: nat)
    requires IsDigit(c)
    ensures d < 10 && DigitChar(d) == c
  {
    c as int - '0' as int
  }

  /** The value of a digit string read in base ten; leading zeros add nothing
      and the empty string reads as 0. */
  function ValueOf(s: string): nat
    requires AllDigits(s)
  {
    if s == [] then 0 else ValueOf(s[..|s| - 1]) * 10 + DigitValue(s[|s| - 1])
  }

  function Pow10(k: nat): (p: nat)
    ensures p >= 1
  {
    if k == 0 then 1 else 10 * Pow10(k - 1)
  }

  lemma AllDigitsAppend(a: string, b: string)
    requires AllDigits(a) && AllDigits(b)
    ensures AllDigits(a + b)
  {
    forall i | 0 <= i < |a + b| ensures IsDigit((a + b)[i]) {
      if i < |a| { assert (a + b)[i] == a[i]; } else { assert (a + b)[i] == b[i - |a|]; }
    }
  }

  /** Reading a concatenation: the left part is shifted by the width of the right part. */
  lemma {:induction false} ValueOfAppend(a: string, b: string)
    requires AllDigits(a) && AllDigits(b)
    ensures AllDigits(a + b)
    ensures ValueOf(a + b) == ValueOf(a) * Pow10(|b|) + ValueOf(b)
  {
    AllDigitsAppend(a, b);
    if b == [] {
      assert a + b == a;
    } else {
      var b' := b[..|b| - 1];
      var d := DigitValue(b[|b| - 1]);
      assert (a + b)[..|a + b| - 1] == a + b';
      assert (a + b)[|a + b| - 1] == b[|b| - 1];
      ValueOfAppend(a, b');
      var x, p, y := ValueOf(a), Pow10(|b'|), ValueOf(b');
      assert ValueOf(a + b) == ValueOf(a + b') * 10 + d;
      assert ValueOf(b) == y * 10 + d by { assert b[..|b| - 1] == b'; }
      assert Pow10(|b|) == p * 10;
      MulAddShift(x, p, y, d);
    }
  }

  lemma MulAddShift(x: nat, p: nat, y: nat, d: nat)
    ensures (x * p + y) * 10 + d == x * (p * 10) + (y * 10 + d)
  {
  }

  /** The last decimal digit and the rest of a number written as `10 * a + b`. */
  lemma DivModTen(n: nat, a: nat, b: nat)
    requires n == 10 * a + b && b < 10
    ensures n % 10 == b && n / 10 == a
  {
  }

  /** A digit string in canonical form: nonempty, and no leading zero unless it is "0". */
  predicate Canonical(s: string)
  {
    |s| > 0 && AllDigits(s) && (s[0] == '0' ==> |s| == 1)
  }

  /** The decimal rendering of a non-negative integer, as JavaScript prints
      an integral number; reading it back gives the number. */
  function Decimal(n: nat): (r: string)
    ensures Canonical(r)
    ensures ValueOf(r) == n
  {
    if n < 10 then [DigitChar(n)]
    else
      var r := Decimal(n / 10) + [DigitChar(n % 10)];
      assert r[..|r| - 1] == Decimal(n / 10);
      r
  }

  /** A number below 100 in exactly two digits, zero-padded. */
  function Pad2(n: nat): (r: string)
    requires n < 100
    ensures |r| == 2 && AllDigits(r) && ValueOf(r) == n
  {
    var r := [DigitChar(n / 10), DigitChar(n % 10)];
    assert r[..1] == [DigitChar(n / 10)];
    assert r[..1][..0] == [];
    assert ValueOf(r[..1]) == n / 10;
    r
  }

  /** A number below 10000 in exactly four digits, zero-padded. */
  function Pad4(n: nat): (r: string)
    requires n < 10000
    ensures |r| == 4 && AllDigits(r) && ValueOf(r) == n
  {
    ValueOfAppend(Pad2(n / 100), Pad2(n % 100));
    Pad2(n / 100) + Pad2(n % 100)
  }

  /** The characters JavaScript's `String.prototype.trim` removes: the
      WhiteSpace and LineTerminator productions of ECMAScript. */
  predicate IsWhitespace(c: char)
  {
    c == '\t' || c == '\n' || c == '\U{000B}' || c == '\U{000C}' || c == '\r' || c == ' '
    || c == '\U{00A0}' || c == '\U{1680}' || ('\U{2000}' <= c <= '\U{200A}')
    || c == '\U{2028}' || c == '\U{2029}' || c == '\U{202F}' || c == '\U{205F}'
    || c == '\U{3000}' || c == '\U{FEFF}'
  }

  function TrimStart(s: string): (r: string)
    ensures |r| <= |s| && r == s[|s| - |r|..]
    ensures r == [] || !IsWhitespace(r[0])
  {
    if s != [] && IsWhitespace(s[0]) then TrimStart(s[1..]) else s
  }

  function TrimEnd(s: string): (r: string)
    ensures |r| <= |s| && r == s[..|r|]
    ensures r == [] || !IsWhitespace(r[|r| - 1])
  {
    if s != [] && IsWhitespace(s[|s| - 1]) then TrimEnd(s[..|s| - 1]) else s
  }

  /** `s.trim()`. */
  function Trim(s: string): string
  {
    TrimEnd(TrimStart(s))
  }

  /** A string of digits has no whitespace to trim. */
  lemma TrimDigits(s: string)
    requires AllDigits(s)
    ensures Trim(s) == s
  {
    if s != [] {
      DigitNotWhitespace(s[0]);
      DigitNotWhitespace(s[|s| - 1]);
      TrimClean(s);
    }
  }

  lemma DigitNotWhitespace(c: char)
    requires IsDigit(c)
    ensures !IsWhitespace(c)
  {
  }

  /** Trimming twice is trimming once. */
  lemma TrimIdempotent(s: string)
    ensures Trim(Trim(s)) == Trim(s)
  {
    var t, r := TrimStart(s), Trim(s);
    if r != [] {
      assert r[0] == t[0];
      assert TrimStart(r) == r;
    }
  }

  /** Trimming a string that has no whitespace at either end changes nothing,
      and neither does trimming it after one leading space. */
  lemma TrimClean(s: string)
    requires s != [] && !IsWhitespace(s[0]) && !IsWhitespace(s[|s| - 1])
    ensures Trim(s) == s
    ensures Trim(" " + s) == s
  {
    assert TrimStart(s) == s;
    assert TrimEnd(s) == s;
    var t := " " + s;
    assert t[0] == ' ' && t[1..] == s;
    assert TrimStart(t) == TrimStart(s);
  }

  /** `s.split(sep)` for a one-character separator: the maximal pieces
      between separators, so there is always one piece more than there are
      separators. */
  function Split(s: string, sep: char): (parts: seq<string>)
    ensures |parts| >= 1
    ensures forall k :: 0 <= k < |parts| ==> sep !in parts[k]
  {
    SplitFrom(s, sep, [])
  }

  /** Splitting what is left of the input after the piece `cur` was already read. */
  function SplitFrom(s: string, sep: char, cur: string): (parts: seq<string>)
    requires sep !in cur
    ensures |parts| >= 1
    ensures forall k :: 0 <= k < |parts| ==> sep !in parts[k]
  {
    if s == [] then [cur]
    else if s[0] == sep then [cur] + SplitFrom(s[1..], sep, [])
    else SplitFrom(s[1..], sep, cur + [s[0]])
  }

  /** The pieces glued back together with the separator, the inverse of `Split`. */
  function JoinWith(parts: seq<string>, sep: char): string
  {
    if |parts| == 0 then []
    else if |parts| == 1 then parts[0]
    else parts[0] + [sep] + JoinWith(parts[1..], sep)
  }

  lemma {:induction false} SplitFromJoin(s: string, sep: char, cur: string)
    requires sep !in cur
    ensures JoinWith(SplitFrom(s, sep, cur), sep) == cur + s
  {
    if s == [] {
    } else if s[0] == sep {
      SplitFromJoin(s[1..], sep, []);
      var rest := SplitFrom(s[1..], sep, []);
      assert ([cur] + rest)[1..] == rest;
      assert s == [sep] + s[1..];
    } else {
      SplitFromJoin(s[1..], sep, cur + [s[0]]);
      assert s == [s[0]] + s[1..];
    }
  }

  lemma SplitJoin(s: string, sep: char)
    ensures JoinWith(Split(s, sep), sep) == s
  {
    SplitFromJoin(s, sep, []);
  }

  lemma {:induction false} SplitFromAppend(a: string, b: string, sep: char, cur: string)
    requires sep !in cur && sep !in a
    ensures SplitFrom(a + [sep] + b, sep, cur) == [cur + a] + SplitFrom(b, sep, [])
  {
    if a == [] {
      assert (a + [sep] + b)[0] == sep;
      assert (a + [sep] + b)[1..] == b;
      assert cur + a == cur;
    } else {
      assert (a + [sep] + b)[1..] == a[1..] + [sep] + b;
      assert (a + [sep] + b)[0] == a[0];
      SplitFromAppend(a[1..], b, sep, cur + [a[0]]);
      assert cur + [a[0]] + a[1..] == cur + a;
    }
  }

  lemma {:induction false} SplitFromPlain(a: string, sep: char, cur: string)
    requires sep !in cur && sep !in a
    ensures SplitFrom(a, sep, cur) == [cur + a]
  {
    if a == [] {
      assert cur + a == cur;
    } else {
      assert a[0] != sep;
      SplitFromPlain(a[1..], sep, cur + [a[0]]);
      assert cur + [a[0]] + a[1..] == cur + a;
    }
  }

  /** Splitting at a separator splits each side on its own. */
  lemma {:induction false} SplitFromSep(a: string, b: string, sep: char, cur: string)
    requires sep !in cur
    ensures SplitFrom(a + [sep] + b, sep, cur) == SplitFrom(a, sep, cur) + SplitFrom(b, sep, [])
    decreases |a|
  {
    var s := a + [sep] + b;
    if a == [] {
      assert s[0] == sep && s[1..] == b;
    } else {
      assert s[0] == a[0] && s[1..] == a[1..] + [sep] + b;
      if a[0] == sep {
        SplitFromSep(a[1..], b, sep, []);
      } else {
        SplitFromSep(a[1..], b, sep, cur + [a[0]]);
      }
    }
  }

  lemma SplitThree(a: string, b: string, c: string, sep: char)
    requires sep !in a && sep !in b && sep !in c
    ensures Split(a + [sep] + b + [sep] + c, sep) == [a, b, c]
  {
    assert a + [sep] + b + [sep] + c == a + [sep] + (b + [sep] + c);
    SplitFromAppend(a, b + [sep] + c, sep, []);
    SplitFromAppend(b, c, sep, []);
    SplitFromPlain(c, sep, []);
    assert [] + a == a && [] + b == b && [] + c == c;
  }

  /** `s.replace(a, b)` for one-character string patterns: only the first
      occurrence is replaced. */
  function ReplaceFirst(s: string, a: char, b: char): (r: string)
    ensures |r| == |s|
    ensures a !in s ==> r == s
  {
    if s == [] then []
    else if s[0] == a then [b] + s[1..]
    else [s[0]] + ReplaceFirst(s[1..], a, b)
  }

  lemma {:induction false} ReplaceFirstSplit(x: string, y: string, a: char, b: char)
    requires a !in x
    ensures ReplaceFirst(x + [a] + y, a, b) == x + [b] + y
  {
    if x == [] {
      assert (x + [a] + y)[1..] == y;
    } else {
      assert (x + [a] + y)[1..] == x[1..] + [a] + y;
      ReplaceFirstSplit(x[1..], y, a, b);
      assert [x[0]] + (x[1..] + [b] + y) == x + [b] + y;
    }
  }

  /** `t` stands in `s` at position `i`. */
  predicate At(s: string, t: string, i: nat)
  {
    i + |t| <= |s| && s[i..i + |t|] == t
  }

  /** `t` is a substring of `s`. */
  ghost predicate Occurs(s: string, t: string)
  {
    exists i: nat :: At(s, t, i)
  }

  lemma OccursBetween(p: string, t: string, q: string)
    ensures Occurs(p + t + q, t)
  {
    assert (p + t + q)[|p|..|p| + |t|] == t;
    assert At(p + t + q, t, |p|);
  }

  /** A substring of a substring is a substring. */
  lemma OccursWithin(s: string, u: string, v: string)
    requires Occurs(s, u) && Occurs(u, v)
    ensures Occurs(s, v)
  {
    var i: nat :| At(s, u, i);
    var j: nat :| At(u, v, j);
    forall k | 0 <= k < |v|
      ensures s[i + j..i + j + |v|][k] == v[k]
    {
      assert v[k] == u[j + k] == s[i + (j + k)];
    }
    assert At(s, v, i + j);
  }
}
