/** `formatCpfCnpj` of src/lib/reciboTemplate.ts: strip the non-digits, then
    punctuate the digits as a CPF (an individual's taxpayer number,
    `AAA.BBB.CCC-DD`) when there are at most 11 of them and as a CNPJ (an
    entity's taxpayer number, `AA.BBB.CCC/DDDD-EE`) otherwise.

    The source punctuates with a chain of non-global regular-expression
    replacements, each of which rewrites only its leftmost match and does
    nothing when there is none. `ReplaceRun` and `ReplaceTail` model the two
    pattern shapes used; `Mask` is an independent description of where the
    separators end up, and `FormatIsMask` proves the two agree for every input. */
module CpfCnpj {
  import opened Text

  // ---------------------------------------------------------------------
  // The two regular-expression shapes of the chain
  // ---------------------------------------------------------------------

  /** `(\d{k})(\d)` matches at position `i`: k + 1 digits start there. */
  predicate RunAt(s: string, k: nat, i: nat)
  {
    i + k + 1 <= |s| && AllDigits(s[i..i + k + 1])
  }

  /** The leftmost match of `(\d{k})(\d)` at or after position `i`. */
  function FindRun(s: string, k: nat, i: nat): (r: Option<nat>)
    ensures r.Some? ==> i <= r.value && RunAt(s, k, r.value)
    ensures r.Some? ==> forall j :: i <= j < r.value ==> !RunAt(s, k, j)
    ensures r.None? ==> forall j :: i <= j ==> !RunAt(s, k, j)
    decreases |s| - i
  {
    if i + k + 1 > |s| then None
    else if RunAt(s, k, i) then Some(i)
    else FindRun(s, k, i + 1)
  }

  /** `s.replace(/(\d{k})(\d)/, '$1' + sep + '$2')`: the separator goes
      between the k-th digit of the leftmost match and the digit after it. */
  function ReplaceRun(s: string, k: nat, sep: char): string
  {
    match FindRun(s, k, 0)
    case None => s
    case Some(i) => s[..i + k] + [sep] + s[i + k..]
  }

  /** `(\d{k})(\d{1,2})$` matches at position `i`: from `i` to the end there
      are only digits, k + 1 or k + 2 of them. */
  predicate TailAt(s: string, k: nat, i: nat)
  {
    i <= |s| && k + 1 <= |s| - i <= k + 2 && AllDigits(s[i..])
  }

  /** The leftmost match of `(\d{k})(\d{1,2})$` at or after position `i`. */
  function FindTail(s: string, k: nat, i: nat): (r: Option<nat>)
    ensures r.Some? ==> i <= r.value && TailAt(s, k, r.value)
    ensures r.Some? ==> forall j :: i <= j < r.value ==> !TailAt(s, k, j)
    ensures r.None? ==> forall j :: i <= j ==> !TailAt(s, k, j)
    decreases |s| + 1 - i
  {
    if i > |s| then None
    else if TailAt(s, k, i) then Some(i)
    else FindTail(s, k, i + 1)
  }

  /** `s.replace(/(\d{k})(\d{1,2})$/, '$1' + sep + '$2')`. */
  function ReplaceTail(s: string, k: nat, sep: char): string
  {
    match FindTail(s, k, 0)
    case None => s
    case Some(i) => s[..i + k] + [sep] + s[i + k..]
  }

  /** `formatCpfCnpj(value)`, replacement by replacement. */
  function FormatCpfCnpj(value: string): string
  {
    var numbers := Digits(value);
    if |numbers| <= 11 then
      ReplaceTail(ReplaceRun(ReplaceRun(numbers, 3, '.'), 3, '.'), 3, '-')
    else
      ReplaceTail(ReplaceRun(ReplaceRun(ReplaceRun(numbers, 2, '.'), 3, '.'), 3, '/'), 4, '-')
  }

  /** The label the receipt prints before the client's number: the same
      digit-count test as the formatter's branch. */
  function DocumentKind(value: string): (kind: string)
    ensures kind == "CPF" <==> |Digits(value)| <= 11
    ensures kind == "CPF" || kind == "CNPJ"
  {
    if |Digits(value)| <= 11 then "CPF" else "CNPJ"
  }

  // ---------------------------------------------------------------------
  // The mask: which separator goes after which digit
  // ---------------------------------------------------------------------

  /** A separator to be placed after the first `pos` digits. */
  datatype Cut = Cut(pos: nat, sep: char)

  predicate CutsFit(cuts: seq<Cut>, n: nat)
  {
    && (forall i :: 0 <= i < |cuts| ==> cuts[i].pos <= n && !IsDigit(cuts[i].sep))
    && (forall i, j :: 0 <= i < j < |cuts| ==> cuts[i].pos <= cuts[j].pos)
  }

  /** The digits `d` with every separator of `cuts` inserted after its
      digit, the last cut first (a position past the end stands for the end). */
  function Punctuate(d: string, cuts: seq<Cut>): string
    decreases |cuts|
  {
    if cuts == [] then d
    else
      var c := cuts[|cuts| - 1];
      var p := if c.pos <= |d| then c.pos else |d|;
      Punctuate(d[..p], cuts[..|cuts| - 1]) + [c.sep] + d[p..]
  }

  /** CPF: '.' after the 3rd digit when there are more than 3, '.' after the
      6th when more than 6, '-' after the 9th when more than 9. */
  function CpfCuts(n: nat): seq<Cut>
  {
    (if n > 3 then [Cut(3, '.')] else [])
    + (if n > 6 then [Cut(6, '.')] else [])
    + (if n > 9 then [Cut(9, '-')] else [])
  }

  /** CNPJ (12 digits or more): '.' after the 2nd and 5th digits, '/' after
      the 8th; no '-' for exactly 12 digits, '-' after the 12th for 13 or 14,
      and '-' before the last two digits beyond that. */
  function CnpjCuts(n: nat): seq<Cut>
  {
    [Cut(2, '.'), Cut(5, '.'), Cut(8, '/')]
    + (if n <= 12 then [] else if n <= 14 then [Cut(12, '-')] else [Cut(n - 2, '-')])
  }

  function Cuts(n: nat): (cuts: seq<Cut>)
    ensures CutsFit(cuts, n)
  {
    if n <= 11 then CpfCuts(n) else CnpjCuts(n)
  }

  function Mask(d: string): string
  {
    Punctuate(d, Cuts(|d|))
  }

  // ---------------------------------------------------------------------
  // Facts about the two regular-expression shapes
  // ---------------------------------------------------------------------

  lemma Blocked(s: string, lo: nat, hi: nat, p: nat)
    requires lo <= p < hi <= |s| && !IsDigit(s[p])
    ensures !AllDigits(s[lo..hi])
  {
    assert s[lo..hi][p - lo] == s[p];
  }

  /** A window is a match at `j` and none before it: the search lands on `j`. */
  lemma RunIs(s: string, k: nat, j: nat)
    requires RunAt(s, k, j)
    requires forall i :: 0 <= i < j ==> !RunAt(s, k, i)
    ensures FindRun(s, k, 0) == Some(j)
  {
  }

  lemma TailIs(s: string, k: nat, j: nat)
    requires TailAt(s, k, j)
    requires forall i :: 0 <= i < j ==> !TailAt(s, k, i)
    ensures FindTail(s, k, 0) == Some(j)
  {
  }

  /** No window of length `k + 1` fits between position 0 and a non-digit at `p`
      when `p <= k`; a window starting after `p` is the first candidate. */
  lemma RunBlockedBy(s: string, k: nat, p: nat, i: nat)
    requires p < |s| && !IsDigit(s[p]) && i <= p < i + k + 1
    ensures !RunAt(s, k, i)
  {
    if i + k + 1 <= |s| {
      Blocked(s, i, i + k + 1, p);
    }
  }

  lemma TailBlockedBy(s: string, k: nat, p: nat, i: nat)
    requires p < |s| && !IsDigit(s[p]) && i <= p
    ensures !TailAt(s, k, i)
  {
    Blocked(s, i, |s|, p);
  }

  lemma SliceDigits(d: string, lo: nat, hi: nat)
    requires AllDigits(d) && lo <= hi <= |d|
    ensures AllDigits(d[lo..hi])
  {
    assert forall i :: 0 <= i < hi - lo ==> d[lo..hi][i] == d[lo + i];
  }

  lemma SuffixDigits(d: string, lo: nat)
    requires AllDigits(d) && lo <= |d|
    ensures AllDigits(d[lo..])
  {
    assert d[lo..] == d[lo..|d|];
    SliceDigits(d, lo, |d|);
  }

  // ---------------------------------------------------------------------
  // The chain, step by step
  // ---------------------------------------------------------------------

  /** First CPF step: a '.' after the 3rd digit once there is a 4th. */
  lemma CpfStep1(d: string)
    requires AllDigits(d)
    ensures |d| <= 3 ==> ReplaceRun(d, 3, '.') == d
    ensures |d| > 3 ==> ReplaceRun(d, 3, '.') == d[..3] + "." + d[3..]
  {
    if |d| > 3 {
      SliceDigits(d, 0, 4);
      RunIs(d, 3, 0);
    }
  }

  /** Second CPF step: the first run of four digits now starts after the '.'. */
  lemma CpfStep2(d: string)
    requires AllDigits(d) && |d| > 3
    ensures var s := d[..3] + "." + d[3..];
      && (|d| <= 6 ==> ReplaceRun(s, 3, '.') == s)
      && (|d| > 6 ==> ReplaceRun(s, 3, '.') == d[..3] + "." + d[3..6] + "." + d[6..])
  {
    var s := d[..3] + "." + d[3..];
    assert s[3] == '.';
    forall i | 0 <= i <= 3 ensures !RunAt(s, 3, i) { RunBlockedBy(s, 3, 3, i); }
    if |d| <= 6 {
      assert FindRun(s, 3, 0).None?;
    } else {
      assert s[4..8] == d[3..7];
      SliceDigits(d, 3, 7);
      RunIs(s, 3, 4);
      assert s[..7] == d[..3] + "." + d[3..6];
      assert s[7..] == d[6..];
    }
  }

  /** Last CPF step: the hyphen only fits once ten or eleven digits are present. */
  lemma CpfStep3(d: string)
    requires AllDigits(d) && |d| <= 11
    ensures var n := |d|;
      && (n <= 3 ==> ReplaceTail(d, 3, '-') == d)
      && (3 < n <= 6 ==> ReplaceTail(d[..3] + "." + d[3..], 3, '-') == d[..3] + "." + d[3..])
      && (6 < n <= 9 ==> ReplaceTail(d[..3] + "." + d[3..6] + "." + d[6..], 3, '-')
                         == d[..3] + "." + d[3..6] + "." + d[6..])
      && (9 < n ==> ReplaceTail(d[..3] + "." + d[3..6] + "." + d[6..], 3, '-')
                    == d[..3] + "." + d[3..6] + "." + d[6..9] + "-" + d[9..])
  {
    var n := |d|;
    if n <= 3 {
      assert FindTail(d, 3, 0).None?;
    } else if n <= 6 {
      var s := d[..3] + "." + d[3..];
      assert s[3] == '.';
      forall i | 0 <= i <= 3 ensures !TailAt(s, 3, i) { TailBlockedBy(s, 3, 3, i); }
      assert FindTail(s, 3, 0).None?;
    } else {
      var s := d[..3] + "." + d[3..6] + "." + d[6..];
      assert s[7] == '.';
      forall i | 0 <= i <= 7 ensures !TailAt(s, 3, i) { TailBlockedBy(s, 3, 7, i); }
      if n <= 9 {
        assert FindTail(s, 3, 0).None?;
      } else {
        assert s[8..] == d[6..];
        SuffixDigits(d, 6);
        TailIs(s, 3, 8);
        assert s[..11] == d[..3] + "." + d[3..6] + "." + d[6..9];
        assert s[11..] == d[9..];
      }
    }
  }

  /** The three CNPJ steps before the hyphen always apply (12 digits or more). */
  lemma CnpjHead(d: string)
    requires AllDigits(d) && |d| >= 12
    ensures ReplaceRun(ReplaceRun(ReplaceRun(d, 2, '.'), 3, '.'), 3, '/')
            == d[..2] + "." + d[2..5] + "." + d[5..8] + "/" + d[8..]
  {
    SliceDigits(d, 0, 3);
    RunIs(d, 2, 0);
    var a := d[..2] + "." + d[2..];
    assert ReplaceRun(d, 2, '.') == a;
    assert a[2] == '.';
    forall i | 0 <= i <= 2 ensures !RunAt(a, 3, i) { RunBlockedBy(a, 3, 2, i); }
    assert a[3..7] == d[2..6];
    SliceDigits(d, 2, 6);
    RunIs(a, 3, 3);
    var b := d[..2] + "." + d[2..5] + "." + d[5..];
    assert a[..6] == d[..2] + "." + d[2..5] && a[6..] == d[5..];
    assert ReplaceRun(a, 3, '.') == b;
    assert b[2] == '.' && b[6] == '.';
    forall i | 0 <= i <= 2 ensures !RunAt(b, 3, i) { RunBlockedBy(b, 3, 2, i); }
    forall i | 3 <= i <= 6 ensures !RunAt(b, 3, i) { RunBlockedBy(b, 3, 6, i); }
    assert b[7..11] == d[5..9];
    SliceDigits(d, 5, 9);
    RunIs(b, 3, 7);
    assert b[..10] == d[..2] + "." + d[2..5] + "." + d[5..8];
    assert b[10..] == d[8..];
  }

  /** The CNPJ hyphen: none for 12 digits, otherwise before the last one or
      two digits of the final run. */
  lemma CnpjTail(d: string)
    requires AllDigits(d) && |d| >= 12
    ensures var n := |d|;
      var head := d[..2] + "." + d[2..5] + "." + d[5..8] + "/";
      var h := if n <= 14 then 12 else n - 2;
      && (n == 12 ==> ReplaceTail(head + d[8..], 4, '-') == head + d[8..])
      && (n > 12 ==> ReplaceTail(head + d[8..], 4, '-') == head + d[8..h] + "-" + d[h..])
  {
    var n := |d|;
    var head := d[..2] + "." + d[2..5] + "." + d[5..8] + "/";
    var s := head + d[8..];
    assert |head| == 11;
    assert s[10] == '/';
    forall i | 0 <= i <= 10 ensures !TailAt(s, 4, i) { TailBlockedBy(s, 4, 10, i); }
    SuffixDigits(d, 8);
    if n == 12 {
      assert FindTail(s, 4, 0).None?;
    } else {
      var j := if n == 13 then 11 else n - 3;
      assert s[j..] == d[j - 3..];
      SuffixDigits(d, j - 3);
      TailIs(s, 4, j);
      var h := if n <= 14 then 12 else n - 2;
      assert j + 4 == h + 3;
      assert s[..j + 4] == head + d[8..h];
      assert s[j + 4..] == d[h..];
    }
  }

  lemma SliceOfPrefix(d: string, r: nat, p: nat, q: nat)
    requires p <= q <= r <= |d|
    ensures d[..r][p..q] == d[p..q]
  {
  }

  /** One separator after the first `p` digits. */
  lemma PunctuateOne(d: string, p: nat, c: char)
    requires p <= |d| && !IsDigit(c)
    ensures Punctuate(d, [Cut(p, c)]) == d[..p] + [c] + d[p..]
  {
    assert [Cut(p, c)][..0] == [];
  }

  /** Two separators, the second after the first `q` digits. */
  lemma PunctuateTwo(d: string, p: nat, c: char, q: nat, e: char)
    requires p <= q <= |d| && !IsDigit(c) && !IsDigit(e)
    ensures Punctuate(d, [Cut(p, c), Cut(q, e)]) == d[..p] + [c] + d[p..q] + [e] + d[q..]
  {
    assert [Cut(p, c), Cut(q, e)][..1] == [Cut(p, c)];
    PunctuateOne(d[..q], p, c);
    assert d[..q][..p] == d[..p] && d[..q][p..] == d[p..q];
  }

  /** Three separators. */
  lemma PunctuateThree(d: string, p: nat, c: char, q: nat, e: char, r: nat, f: char)
    requires p <= q <= r <= |d| && !IsDigit(c) && !IsDigit(e) && !IsDigit(f)
    ensures Punctuate(d, [Cut(p, c), Cut(q, e), Cut(r, f)])
            == d[..p] + [c] + d[p..q] + [e] + d[q..r] + [f] + d[r..]
  {
    var cuts := [Cut(p, c), Cut(q, e), Cut(r, f)];
    assert cuts[..2] == [Cut(p, c), Cut(q, e)];
    var w := d[..r];
    SliceOfPrefix(d, r, 0, p);
    SliceOfPrefix(d, r, p, q);
    SliceOfPrefix(d, r, q, r);
    assert w[..p] == w[0..p] && w[q..] == w[q..r];
    PunctuateTwo(w, p, c, q, e);
    calc {
      Punctuate(d, cuts);
      Punctuate(w, cuts[..2]) + [f] + d[r..];
      (w[..p] + [c] + w[p..q] + [e] + w[q..]) + [f] + d[r..];
    }
  }

  /** Four separators. */
  lemma PunctuateFour(d: string, p: nat, c: char, q: nat, e: char, r: nat, f: char, t: nat, g: char)
    requires p <= q <= r <= t <= |d| && !IsDigit(c) && !IsDigit(e) && !IsDigit(f) && !IsDigit(g)
    ensures Punctuate(d, [Cut(p, c), Cut(q, e), Cut(r, f), Cut(t, g)])
            == d[..p] + [c] + d[p..q] + [e] + d[q..r] + [f] + d[r..t] + [g] + d[t..]
  {
    var cuts := [Cut(p, c), Cut(q, e), Cut(r, f), Cut(t, g)];
    assert cuts[..3] == [Cut(p, c), Cut(q, e), Cut(r, f)];
    var w := d[..t];
    SliceOfPrefix(d, t, 0, p);
    SliceOfPrefix(d, t, p, q);
    SliceOfPrefix(d, t, q, r);
    SliceOfPrefix(d, t, r, t);
    assert w[..p] == w[0..p] && w[r..] == w[r..t];
    PunctuateThree(w, p, c, q, e, r, f);
    calc {
      Punctuate(d, cuts);
      Punctuate(w, cuts[..3]) + [g] + d[t..];
      (w[..p] + [c] + w[p..q] + [e] + w[q..r] + [f] + w[r..]) + [g] + d[t..];
    }
  }

  /** The mask of at most 11 digits, written out. */
  lemma CpfMask(d: string)
    requires |d| <= 11
    ensures var n := |d|;
      && (n <= 3 ==> Mask(d) == d)
      && (3 < n <= 6 ==> Mask(d) == d[..3] + "." + d[3..])
      && (6 < n <= 9 ==> Mask(d) == d[..3] + "." + d[3..6] + "." + d[6..])
      && (9 < n ==> Mask(d) == d[..3] + "." + d[3..6] + "." + d[6..9] + "-" + d[9..])
  {
    var n := |d|;
    if n <= 3 {
    } else if n <= 6 {
      assert Cuts(n) == [Cut(3, '.')];
      PunctuateOne(d, 3, '.');
    } else if n <= 9 {
      assert Cuts(n) == [Cut(3, '.'), Cut(6, '.')];
      PunctuateTwo(d, 3, '.', 6, '.');
    } else {
      assert Cuts(n) == [Cut(3, '.'), Cut(6, '.'), Cut(9, '-')];
      PunctuateThree(d, 3, '.', 6, '.', 9, '-');
    }
  }

  /** The mask of 12 digits or more, written out. */
  lemma CnpjMask(d: string)
    requires |d| >= 12
    ensures var n := |d|;
      var head := d[..2] + "." + d[2..5] + "." + d[5..8] + "/";
      var h := if n <= 14 then 12 else n - 2;
      && (n == 12 ==> Mask(d) == head + d[8..])
      && (n > 12 ==> Mask(d) == head + d[8..h] + "-" + d[h..])
  {
    var n := |d|;
    if n == 12 {
      assert Cuts(n) == [Cut(2, '.'), Cut(5, '.'), Cut(8, '/')];
      PunctuateThree(d, 2, '.', 5, '.', 8, '/');
    } else {
      var h := if n <= 14 then 12 else n - 2;
      assert Cuts(n) == [Cut(2, '.'), Cut(5, '.'), Cut(8, '/'), Cut(h, '-')];
      PunctuateFour(d, 2, '.', 5, '.', 8, '/', h, '-');
    }
  }

  /** Each replacement of the chain puts its separator exactly where the
      mask says, whatever the number of digits. */
  lemma FormatIsMask(value: string)
    ensures FormatCpfCnpj(value) == Mask(Digits(value))
  {
    var d := Digits(value);
    if |d| <= 11 {
      CpfStep1(d);
      if |d| > 3 { CpfStep2(d); }
      CpfStep3(d);
      CpfMask(d);
    } else {
      CnpjHead(d);
      CnpjTail(d);
      CnpjMask(d);
    }
  }

  // ---------------------------------------------------------------------
  // What the punctuated number looks like
  // ---------------------------------------------------------------------

  function Separators(cuts: seq<Cut>): set<char>
  {
    set c | c in cuts :: c.sep
  }

  /** Inserting separators adds one character per cut. */
  lemma {:induction false} PunctuateLength(d: string, cuts: seq<Cut>)
    ensures |Punctuate(d, cuts)| == |d| + |cuts|
    decreases |cuts|
  {
    if cuts != [] {
      var c := cuts[|cuts| - 1];
      var p := if c.pos <= |d| then c.pos else |d|;
      PunctuateLength(d[..p], cuts[..|cuts| - 1]);
    }
  }

  /** The inserted separators are the only characters that were not in the digits. */
  lemma {:induction false} PunctuateChars(d: string, cuts: seq<Cut>, x: char)
    requires x in Punctuate(d, cuts)
    ensures x in d || x in Separators(cuts)
    decreases |cuts|
  {
    if cuts != [] {
      var c := cuts[|cuts| - 1];
      var p := if c.pos <= |d| then c.pos else |d|;
      var init := cuts[..|cuts| - 1];
      var left := Punctuate(d[..p], init);
      assert Punctuate(d, cuts) == left + [c.sep] + d[p..];
      if x in left {
        PunctuateChars(d[..p], init, x);
        if x in d[..p] {
          var i :| 0 <= i < p && d[..p][i] == x;
          assert d[i] == x;
        } else {
          var k :| k in init && k.sep == x;
          assert k in cuts;
        }
      } else if x == c.sep {
        assert c in cuts;
      } else {
        assert x in d[p..];
        var i :| 0 <= i < |d| - p && d[p..][i] == x;
        assert d[p + i] == x;
      }
    }
  }

  /** Separators that are not digits vanish when the digits are taken again. */
  lemma {:induction false} PunctuateDigits(d: string, cuts: seq<Cut>)
    requires forall c :: c in cuts ==> !IsDigit(c.sep)
    ensures Digits(Punctuate(d, cuts)) == Digits(d)
    decreases |cuts|
  {
    if cuts != [] {
      var c := cuts[|cuts| - 1];
      var p := if c.pos <= |d| then c.pos else |d|;
      var init := cuts[..|cuts| - 1];
      var left, right := Punctuate(d[..p], init), d[p..];
      assert Punctuate(d, cuts) == left + [c.sep] + right;
      assert Digits(left) == Digits(d[..p]) by {
        assert forall k :: k in init ==> k in cuts;
        PunctuateDigits(d[..p], init);
      }
      assert Digits(left + [c.sep] + right) == Digits(left) + Digits(right) by {
        assert c in cuts;
        DigitsAppend(left + [c.sep], right);
        DigitsAppend(left, [c.sep]);
        DigitsOfNonDigit(c.sep);
      }
      assert Digits(d) == Digits(d[..p]) + Digits(right) by {
        DigitsAppend(d[..p], right);
        assert d[..p] + right == d;
      }
    }
  }

  /** Formatting keeps exactly the digits of the input, so a number can be
      retyped from its formatted form. */
  lemma FormatKeepsDigits(value: string)
    ensures Digits(FormatCpfCnpj(value)) == Digits(value)
    ensures |FormatCpfCnpj(value)| == |Digits(value)| + |Cuts(|Digits(value)|)|
  {
    var d := Digits(value);
    FormatIsMask(value);
    PunctuateLength(d, Cuts(|d|));
    PunctuateDigits(d, Cuts(|d|));
    DigitsOfDigits(d);
  }

  /** The formatted number is a fixed point: the page formats the field on
      every keystroke, and formatting its own output changes nothing. */
  lemma FormatIdempotent(value: string)
    ensures FormatCpfCnpj(FormatCpfCnpj(value)) == FormatCpfCnpj(value)
  {
    FormatKeepsDigits(value);
  }

  /** `s` has the shape of `template`, where '#' stands for any digit. */
  predicate FitsTemplate(s: string, template: string)
  {
    |s| == |template|
    && forall i :: 0 <= i < |s| ==> if template[i] == '#' then IsDigit(s[i]) else s[i] == template[i]
  }

  lemma FitsAppend(a: string, b: string, ta: string, tb: string)
    requires FitsTemplate(a, ta) && FitsTemplate(b, tb)
    ensures FitsTemplate(a + b, ta + tb)
  {
    forall i | 0 <= i < |a + b|
      ensures if (ta + tb)[i] == '#' then IsDigit((a + b)[i]) else (a + b)[i] == (ta + tb)[i]
    {
      if i >= |a| {
        assert (a + b)[i] == b[i - |a|] && (ta + tb)[i] == tb[i - |a|];
      }
    }
  }

  lemma FitsRun(a: string, t: string)
    requires AllDigits(a) && |a| == |t| && forall i :: 0 <= i < |t| ==> t[i] == '#'
    ensures FitsTemplate(a, t)
  {
  }

  /** Eleven digits give the full CPF `AAA.BBB.CCC-DD`. */
  lemma FullCpf(value: string)
    requires |Digits(value)| == 11
    ensures FitsTemplate(FormatCpfCnpj(value), "###.###.###-##")
  {
    var d := Digits(value);
    FormatIsMask(value);
    CpfMask(d);
    SliceDigits(d, 0, 3); SliceDigits(d, 3, 6); SliceDigits(d, 6, 9); SuffixDigits(d, 9);
    CpfShape(d[..3], d[3..6], d[6..9], d[9..]);
  }

  lemma CpfShape(a: string, b: string, c: string, e: string)
    requires AllDigits(a) && AllDigits(b) && AllDigits(c) && AllDigits(e)
    requires |a| == 3 && |b| == 3 && |c| == 3 && |e| == 2
    ensures FitsTemplate(a + "." + b + "." + c + "-" + e, "###.###.###-##")
  {
    FitsRun(a, "###"); FitsRun(b, "###"); FitsRun(c, "###"); FitsRun(e, "##");
    var p1 := a + ".";
    FitsAppend(a, ".", "###", ".");
    var p2 := p1 + b;
    FitsAppend(p1, b, "###.", "###");
    var p3 := p2 + ".";
    FitsAppend(p2, ".", "###.###", ".");
    var p4 := p3 + c;
    FitsAppend(p3, c, "###.###.", "###");
    var p5 := p4 + "-";
    FitsAppend(p4, "-", "###.###.###", "-");
    FitsAppend(p5, e, "###.###.###-", "##");
  }

  /** Fourteen digits give the full CNPJ `AA.BBB.CCC/DDDD-EE`. */
  lemma FullCnpj(value: string)
    requires |Digits(value)| == 14
    ensures FitsTemplate(FormatCpfCnpj(value), "##.###.###/####-##")
  {
    var d := Digits(value);
    FormatIsMask(value);
    CnpjMask(d);
    SliceDigits(d, 0, 2); SliceDigits(d, 2, 5); SliceDigits(d, 5, 8); SliceDigits(d, 8, 12); SuffixDigits(d, 12);
    CnpjShape(d[..2], d[2..5], d[5..8], d[8..12], d[12..]);
  }

  lemma CnpjShape(a: string, b: string, c: string, e: string, f: string)
    requires AllDigits(a) && AllDigits(b) && AllDigits(c) && AllDigits(e) && AllDigits(f)
    requires |a| == 2 && |b| == 3 && |c| == 3 && |e| == 4 && |f| == 2
    ensures FitsTemplate(a + "." + b + "." + c + "/" + e + "-" + f, "##.###.###/####-##")
  {
    FitsRun(a, "##"); FitsRun(b, "###"); FitsRun(c, "###"); FitsRun(e, "####"); FitsRun(f, "##");
    var p1 := a + ".";
    FitsAppend(a, ".", "##", ".");
    var p2 := p1 + b;
    FitsAppend(p1, b, "##.", "###");
    var p3 := p2 + ".";
    FitsAppend(p2, ".", "##.###", ".");
    var p4 := p3 + c;
    FitsAppend(p3, c, "##.###.", "###");
    var p5 := p4 + "/";
    FitsAppend(p4, "/", "##.###.###", "/");
    var p6 := p5 + e;
    FitsAppend(p5, e, "##.###.###/", "####");
    var p7 := p6 + "-";
    FitsAppend(p6, "-", "##.###.###/####", "-");
    FitsAppend(p7, f, "##.###.###/####-", "##");
  }

  /** The partial CNPJ lengths: 12 digits get no hyphen at all; beyond 14
      digits the hyphen stands before the last two digits. */
  lemma PartialCnpj(value: string)
    requires |Digits(value)| >= 12
    ensures var out := FormatCpfCnpj(value);
      && (|Digits(value)| == 12 ==> '-' !in out && |out| == 15)
      && (|Digits(value)| > 14 ==> |out| == |Digits(value)| + 4 && out[|out| - 3] == '-'
                                   && out[|out| - 2..] == Digits(value)[|Digits(value)| - 2..])
  {
    var d := Digits(value);
    FormatIsMask(value);
    if |d| == 12 {
      CnpjTwelve(d);
    } else if |d| > 14 {
      CnpjLong(d);
    }
  }

  lemma CnpjTwelve(d: string)
    requires |d| == 12 && AllDigits(d)
    ensures '-' !in Mask(d) && |Mask(d)| == 15
  {
    assert Cuts(12) == [Cut(2, '.'), Cut(5, '.'), Cut(8, '/')];
    PunctuateLength(d, Cuts(12));
    if '-' in Mask(d) {
      PunctuateChars(d, Cuts(12), '-');
      assert false;
    }
  }

  lemma CnpjLong(d: string)
    requires |d| > 14
    ensures var out := Mask(d);
      |out| == |d| + 4 && out[|out| - 3] == '-' && out[|out| - 2..] == d[|d| - 2..]
  {
    CnpjMask(d);
    var n := |d|;
    var x := d[..2] + "." + d[2..5] + "." + d[5..8] + "/" + d[8..n - 2];
    var t := d[n - 2..];
    assert Mask(d) == x + "-" + t;
    assert |x| == n + 1;
    assert (x + "-" + t)[n + 1] == '-';
    assert (x + "-" + t)[n + 2..] == t;
  }

  /** The empty input formats to the empty string. */
  lemma FormatEmpty(value: string)
    requires Digits(value) == []
    ensures FormatCpfCnpj(value) == []
  {
    FormatIsMask(value);
  }

  /** The receipt's label agrees with the punctuation chosen: "CNPJ" exactly
      when the formatted number carries the CNPJ's '/'. */
  lemma KindMatchesPunctuation(value: string)
    ensures DocumentKind(value) == "CNPJ" <==> '/' in FormatCpfCnpj(value)
  {
    var d := Digits(value);
    FormatIsMask(value);
    if |d| <= 11 {
      if '/' in FormatCpfCnpj(value) {
        PunctuateChars(d, Cuts(|d|), '/');
        assert false;
      }
    } else {
      CnpjSlash(d);
    }
  }

  lemma CnpjSlash(d: string)
    requires |d| >= 12
    ensures '/' in Mask(d)
  {
    var n := |d|;
    var h := if n <= 14 then 12 else n - 2;
    if n == 12 {
      assert Cuts(n) == [Cut(2, '.'), Cut(5, '.'), Cut(8, '/')];
    } else {
      assert Cuts(n) == [Cut(2, '.'), Cut(5, '.'), Cut(8, '/'), Cut(h, '-')];
    }
    PunctuateKeeps(d, Cuts(n), 2);
  }

  /** Every separator of the cuts appears in the punctuated text. */
  lemma {:induction false} PunctuateKeeps(d: string, cuts: seq<Cut>, i: nat)
    requires i < |cuts|
    ensures cuts[i].sep in Punctuate(d, cuts)
    decreases |cuts|
  {
    var c := cuts[|cuts| - 1];
    var p := if c.pos <= |d| then c.pos else |d|;
    var init := cuts[..|cuts| - 1];
    var front := Punctuate(d[..p], init);
    assert Punctuate(d, cuts) == front + [c.sep] + d[p..];
    if i == |cuts| - 1 {
      assert (front + [c.sep] + d[p..])[|front|] == c.sep;
    } else {
      PunctuateKeeps(d[..p], init, i);
      assert init[i] == cuts[i];
    }
  }
}
