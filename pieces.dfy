// Documents assembled from pieces: joining a list of strings, and where
// a run of consecutive pieces stands in the joined text.

module Pieces {
  import opened Text

  /** The document's pieces in order, joined without separators. */
  function Concat(ps: seq<string>): string
  {
    if ps == [] then [] else ps[0] + Concat(ps[1..])
  }

  lemma {:induction false} ConcatAppend(xs: seq<string>, ys: seq<string>)
    ensures Concat(xs + ys) == Concat(xs) + Concat(ys)
    decreases |xs|
  {
    if xs == [] {
      assert xs + ys == ys;
    } else {
      assert (xs + ys)[1..] == xs[1..] + ys;
      ConcatAppend(xs[1..], ys);
    }
  }

  lemma {:induction false} ConcatSplit(ps: seq<string>, k: nat)
    requires k <= |ps|
    ensures Concat(ps) == Concat(ps[..k]) + Concat(ps[k..])
    decreases k
  {
    if k == 0 {
      assert ps[..0] == [] && ps[0..] == ps;
    } else {
      ConcatSplit(ps[1..], k - 1);
      assert ps[1..][..k - 1] == ps[..k][1..];
      assert ps[1..][k - 1..] == ps[k..];
    }
  }

  /** Consecutive pieces, joined, stand in the joined document. */
  lemma ConcatWindow(ps: seq<string>, i: nat, j: nat)
    requires i <= j <= |ps|
    ensures Occurs(Concat(ps), Concat(ps[i..j]))
  {
    ConcatSplit(ps, j);
    ConcatSplit(ps[..j], i);
    assert ps[..j][..i] == ps[..i] && ps[..j][i..] == ps[i..j];
    OccursBetween(Concat(ps[..i]), Concat(ps[i..j]), Concat(ps[j..]));
  }

  lemma ConcatFirst(ps: seq<string>, i: nat, j: nat)
    requires i < j <= |ps|
    ensures Concat(ps[i..j]) == ps[i] + Concat(ps[i + 1..j])
  {
    assert ps[i..j][1..] == ps[i + 1..j];
  }

  lemma ConcatOne(x: string)
    ensures Concat([x]) == x
  {
    assert [x][1..] == [];
  }

  lemma Window1(ps: seq<string>, i: nat)
    requires i < |ps|
    ensures Occurs(Concat(ps), ps[i])
  {
    ConcatWindow(ps, i, i + 1);
    assert ps[i..i + 1] == [ps[i]];
    ConcatOne(ps[i]);
  }

  lemma Window2(ps: seq<string>, i: nat)
    requires i + 2 <= |ps|
    ensures Occurs(Concat(ps), ps[i] + ps[i + 1])
  {
    ConcatWindow(ps, i, i + 2);
    Slice2(ps, i);
  }

  lemma Slice2(ps: seq<string>, i: nat)
    requires i + 2 <= |ps|
    ensures Concat(ps[i..i + 2]) == ps[i] + ps[i + 1]
  {
    ConcatFirst(ps, i, i + 2);
    Slice1(ps, i + 1);
  }

  lemma Slice1(ps: seq<string>, i: nat)
    requires i + 1 <= |ps|
    ensures Concat(ps[i..i + 1]) == ps[i]
  {
    assert ps[i..i + 1] == [ps[i]];
    ConcatOne(ps[i]);
  }

  lemma Window3(ps: seq<string>, i: nat)
    requires i + 3 <= |ps|
    ensures Occurs(Concat(ps), ps[i] + ps[i + 1] + ps[i + 2])
  {
    ConcatWindow(ps, i, i + 3);
    Slice3(ps, i);
  }

  lemma Slice3(ps: seq<string>, i: nat)
    requires i + 3 <= |ps|
    ensures Concat(ps[i..i + 3]) == ps[i] + ps[i + 1] + ps[i + 2]
  {
    ConcatFirst(ps, i, i + 3);
    Slice2(ps, i + 1);
  }

  lemma Window4(ps: seq<string>, i: nat)
    requires i + 4 <= |ps|
    ensures Occurs(Concat(ps), ps[i] + ps[i + 1] + ps[i + 2] + ps[i + 3])
  {
    ConcatWindow(ps, i, i + 4);
    Slice4(ps, i);
  }

  lemma Slice4(ps: seq<string>, i: nat)
    requires i + 4 <= |ps|
    ensures Concat(ps[i..i + 4]) == ps[i] + ps[i + 1] + ps[i + 2] + ps[i + 3]
  {
    ConcatFirst(ps, i, i + 4);
    Slice3(ps, i + 1);
  }

  lemma Window5(ps: seq<string>, i: nat)
    requires i + 5 <= |ps|
    ensures Occurs(Concat(ps), ps[i] + ps[i + 1] + ps[i + 2] + ps[i + 3] + ps[i + 4])
  {
    ConcatWindow(ps, i, i + 5);
    Slice5(ps, i);
  }

  lemma Slice5(ps: seq<string>, i: nat)
    requires i + 5 <= |ps|
    ensures Concat(ps[i..i + 5]) == ps[i] + ps[i + 1] + ps[i + 2] + ps[i + 3] + ps[i + 4]
  {
    ConcatFirst(ps, i, i + 5);
    Slice4(ps, i + 1);
  }

  /** What stands in one section stands in the joined text. */
  lemma InSection(ps: seq<string>, k: nat, part: string, t: string)
    requires k < |ps| && ps[k] == part && Occurs(part, t)
    ensures Occurs(Concat(ps), t)
  {
    Window1(ps, k);
    OccursWithin(Concat(ps), part, t);
  }

  /** `ConcatSplit` with both halves written as slices with two bounds. */
  lemma ConcatSplitAt(ps: seq<string>, k: nat)
    requires k <= |ps|
    ensures Concat(ps) == Concat(ps[0..k]) + Concat(ps[k..|ps|])
  {
    ConcatSplit(ps, k);
    assert ps[0..k] == ps[..k] && ps[k..|ps|] == ps[k..];
  }

  lemma ConcatEight(d: seq<string>)
    requires |d| == 8
    ensures Concat(d) == d[0] + d[1] + d[2] + d[3] + d[4] + d[5] + d[6] + d[7]
  {
    ConcatSplitAt(d, 4);
    Slice4(d, 0);
    Slice4(d, 4);
  }

  /** The page with something in the logo slot, against the page with the
      slot empty. */
  lemma LogoOnly(p: string, e: string, o: string, l: string,
                 v: string, r: string, f: string, d: string)
    ensures var bare := p + e + o + [] + v + r + f + d;
      var k := |p + e + o|;
      k <= |bare| && p + e + o + l + v + r + f + d == bare[..k] + l + bare[k..]
  {
    var bare := p + e + o + [] + v + r + f + d;
    var head, tail := p + e + o, v + r + f + d;
    assert bare == head + tail;
    assert bare[..|head|] == head && bare[|head|..] == tail;
    assert p + e + o + l + v + r + f + d == head + l + tail;
  }
}
