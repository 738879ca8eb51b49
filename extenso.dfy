/** `numberToWords` and its inner `converterGrupo` of src/lib/reciboTemplate.ts:
    a currency amount in Brazilian Portuguese words ("valor por extenso").

    The amount is modelled by its integer parts: `reais` below 10^9 (the
    source's tables stop at the millions tier) and `cents` below 100. The two
    methods follow the source statement by statement (string accumulators,
    `%=` on the integer part, the final `trim()`); each is proved equal to a
    word-list description, `GroupWords` and `SpellWords`, joined with single
    spaces. `ReadText` reads such a text back as an amount, and
    `SpellRoundTrip` shows every spelled amount reads back as itself. */
module Extenso {
  import opened Text

  const Unidades: seq<string> :=
    ["", "um", "dois", "três", "quatro", "cinco", "seis", "sete", "oito", "nove"]
  const DezADezenove: seq<string> :=
    ["dez", "onze", "doze", "treze", "quatorze", "quinze", "dezesseis", "dezessete", "dezoito", "dezenove"]
  const Dezenas: seq<string> :=
    ["", "", "vinte", "trinta", "quarenta", "cinquenta", "sessenta", "setenta", "oitenta", "noventa"]
  const Centenas: seq<string> :=
    ["", "cento", "duzentos", "trezentos", "quatrocentos", "quinhentos", "seiscentos", "setecentos", "oitocentos", "novecentos"]

  /** A word of the text: nonempty, no space inside, no whitespace at its ends. */
  predicate Word(w: string)
  {
    |w| > 0 && ' ' !in w && !IsWhitespace(w[0]) && !IsWhitespace(w[|w| - 1])
  }

  predicate Words(ws: seq<string>)
  {
    forall k :: 0 <= k < |ws| ==> Word(ws[k])
  }

  // ---------------------------------------------------------------------
  // The reference description: lists of words
  // ---------------------------------------------------------------------

  /** Parts joined by the conjunction "e": [a, b, c] becomes [a, "e", b, "e", c]. */
  function JoinE(parts: seq<string>): seq<string>
  {
    if |parts| <= 1 then parts else [parts[0], "e"] + JoinE(parts[1..])
  }

  /** Either the teen word or the tens and units words of a number below 100. */
  function LowParts(r: nat): seq<string>
    requires r < 100
  {
    var d, u := r / 10, r % 10;
    if d == 1 then [DezADezenove[u]]
    else (if d > 1 then [Dezenas[d]] else []) + (if u > 0 then [Unidades[u]] else [])
  }

  /** The parts of a group below 1000: the hundreds word, then the parts of
      the last two digits. */
  function GroupParts(n: nat): seq<string>
    requires n < 1000
  {
    (if n / 100 > 0 then [Centenas[n / 100]] else []) + LowParts(n % 100)
  }

  /** A group below 1000 in words; nothing for 0 and the irregular "cem" for 100. */
  function GroupWords(n: nat): seq<string>
    requires n < 1000
  {
    if n == 0 then [] else if n == 100 then ["cem"] else JoinE(GroupParts(n))
  }

  /** A nonzero magnitude tier: its group followed by the magnitude word. */
  function Tier(g: nat, magnitude: string): seq<string>
    requires g < 1000
  {
    if g == 0 then [] else GroupWords(g) + [magnitude]
  }

  function MillionsWord(m: nat): string
  {
    if m == 1 then "milhão" else "milhões"
  }

  function IntegerWords(reais: nat): seq<string>
    requires reais < 1_000_000_000
  {
    Tier(reais / 1_000_000, MillionsWord(reais / 1_000_000))
    + Tier(reais / 1000 % 1000, "mil")
    + GroupWords(reais % 1000)
  }

  /** The unit word is singular exactly when the last group of three digits
      is 1 (so 1001 is "um mil um real"): the source decides it from the
      integer part after the two `%=` reductions. */
  function UnitWord(reais: nat): string
  {
    if reais % 1000 == 1 then "real" else "reais"
  }

  function CentsWord(cents: nat): string
  {
    if cents == 1 then "centavo" else "centavos"
  }

  function CentsWords(cents: nat): seq<string>
    requires cents < 100
  {
    if cents == 0 then [] else ["e"] + GroupWords(cents) + [CentsWord(cents)]
  }

  function SpellWords(reais: nat, cents: nat): seq<string>
    requires reais < 1_000_000_000 && cents < 100
  {
    if reais == 0 && cents == 0 then ["zero"]
    else IntegerWords(reais) + [UnitWord(reais)] + CentsWords(cents)
  }

  /** The words separated by single spaces. */
  function Unwords(ws: seq<string>): string
  {
    JoinWith(ws, ' ')
  }

  function SpellText(reais: nat, cents: nat): string
    requires reais < 1_000_000_000 && cents < 100
  {
    Unwords(SpellWords(reais, cents))
  }

  // ---------------------------------------------------------------------
  // The source, statement by statement
  // ---------------------------------------------------------------------

  /** `converterGrupo(n)`. */
  method ConverterGrupo(n: nat) returns (resultado: string)
    requires n < 1000
    ensures resultado == Unwords(GroupWords(n))
  {
    if n == 0 {
      resultado := "";
      return;
    }
    if n == 100 {
      resultado := "cem";
      return;
    }
    resultado := "";
    var c := n / 100;
    var d := n % 100 / 10;
    var u := n % 10;
    if c > 0 {
      resultado := resultado + Centenas[c];
      if d > 0 || u > 0 {
        resultado := resultado + " e ";
      }
    }
    if d == 1 {
      resultado := resultado + DezADezenove[u];
    } else {
      if d > 0 {
        resultado := resultado + Dezenas[d];
        if u > 0 {
          resultado := resultado + " e ";
        }
      }
      if u > 0 || (d == 0 && c == 0) {
        resultado := resultado + Unidades[u];
      }
    }
    GroupTextCases(n);
  }

  /** `numberToWords(numero)` for `numero` = reais + cents / 100. */
  method NumberToWords(reais: nat, cents: nat) returns (r: string)
    requires reais < 1_000_000_000 && cents < 100
    ensures r == SpellText(reais, cents)
  {
    if reais == 0 && cents == 0 {
      r := "zero";
      return;
    }
    var parteInteira := reais;
    var parteDecimal := cents;
    var resultado := "";
    ghost var m := Tier(reais / 1_000_000, MillionsWord(reais / 1_000_000));
    ghost var t := Tier(reais / 1000 % 1000, "mil");

    if parteInteira >= 1_000_000 {
      var milhoes := parteInteira / 1_000_000;
      var g := ConverterGrupo(milhoes);
      resultado := resultado + g + (if milhoes == 1 then " milhão" else " milhões");
      assert resultado == Unwords(m) by {
        TierText(milhoes, MillionsWord(milhoes));
        SpacedWords(milhoes, 0);
        GlueWord(g, MillionsWord(milhoes));
      }
      parteInteira := parteInteira % 1_000_000;
      if parteInteira > 0 {
        resultado := resultado + " ";
      }
    }
    assert parteInteira == reais % 1_000_000 && resultado == Spaced(m, parteInteira > 0) by {
      TierText(reais / 1_000_000, MillionsWord(reais / 1_000_000));
    }

    if parteInteira >= 1000 {
      var milhares := parteInteira / 1000;
      var g := ConverterGrupo(milhares);
      ghost var before := resultado;
      resultado := resultado + g + " mil";
      assert resultado == Spaced(m, true) + Unwords(t) by {
        TierDigits(reais);
        TierText(milhares, "mil");
        GlueMil(before, g);
      }
      parteInteira := parteInteira % 1000;
      if parteInteira > 0 {
        resultado := resultado + " ";
      }
    }
    assert parteInteira == reais % 1000 && resultado == Spaced(m + t, parteInteira > 0) by {
      TierDigits(reais);
      TierText(reais / 1000 % 1000, "mil");
      SpacedAppend(m, t, parteInteira > 0);
    }

    if parteInteira > 0 {
      var g := ConverterGrupo(parteInteira);
      GlueOne(g);
      resultado := resultado + g;
    }
    ghost var iw := IntegerWords(reais);
    assert resultado == Unwords(iw) by {
      GroupWordsAreWords(parteInteira);
      UnwordsAppend(m + t, GroupWords(parteInteira));
    }

    ghost var unit := UnitWord(reais);
    ghost var head := iw + [unit];
    ghost var before := resultado;
    resultado := resultado + (if parteInteira == 1 then " real" else " reais");
    assert resultado == if iw == [] then " " + Unwords(head) else Unwords(head) by {
      SpacedWords(reais, 0);
      GlueSpace(before, unit);
      GlueOne(" " + unit);
      UnwordsAppend(iw, [unit]);
      assert Unwords([unit]) == unit;
    }

    if parteDecimal > 0 {
      var g := ConverterGrupo(parteDecimal);
      GlueFront(Unwords(head), " e " + g + (if parteDecimal == 1 then " centavo" else " centavos"));
      resultado := resultado + (" e " + g + (if parteDecimal == 1 then " centavo" else " centavos"));
    }
    assert resultado == if iw == [] then " " + SpellText(reais, cents) else SpellText(reais, cents) by {
      CentsText(head, cents);
    }
    TrimSpelled(reais, cents);
    r := Trim(resultado);
  }

  /** The spelled text has nothing for `trim()` to remove, even after the
      leading space the source leaves when the integer part is zero. */
  lemma TrimSpelled(reais: nat, cents: nat)
    requires reais < 1_000_000_000 && cents < 100
    ensures Trim(SpellText(reais, cents)) == SpellText(reais, cents)
    ensures Trim(" " + SpellText(reais, cents)) == SpellText(reais, cents)
  {
    SpellWordsAreWords(reais, cents);
    UnwordsEnds(SpellWords(reais, cents));
    TrimClean(SpellText(reais, cents));
  }

  // ---------------------------------------------------------------------
  // Joining words
  // ---------------------------------------------------------------------

  lemma {:induction false} UnwordsAppend(a: seq<string>, b: seq<string>)
    ensures a == [] ==> Unwords(a + b) == Unwords(b)
    ensures b == [] ==> Unwords(a + b) == Unwords(a)
    ensures a != [] && b != [] ==> Unwords(a + b) == Unwords(a) + " " + Unwords(b)
  {
    if a == [] {
      assert a + b == b;
    } else if b == [] {
      assert a + b == a;
    } else if |a| == 1 {
      assert (a + b)[1..] == b;
    } else {
      assert (a + b)[1..] == a[1..] + b;
      UnwordsAppend(a[1..], b);
    }
  }

  lemma UnwordsTwo(a: string, b: string)
    ensures Unwords([a, b]) == a + " " + b
  {
    assert [a, b][0] == a && [a, b][1..] == [b];
    assert Unwords([b]) == b;
  }

  lemma WordsAppend(a: seq<string>, b: seq<string>)
    requires Words(a) && Words(b)
    ensures Words(a + b)
  {
    forall k | 0 <= k < |a + b| ensures Word((a + b)[k]) {
      if k >= |a| { assert (a + b)[k] == b[k - |a|]; }
    }
  }

  lemma WordsTail(ws: seq<string>)
    requires Words(ws) && ws != []
    ensures Word(ws[0]) && Words(ws[1..])
  {
    assert forall k :: 0 <= k < |ws| - 1 ==> ws[1..][k] == ws[k + 1];
  }

  /** A text of words is empty exactly when there are no words. */
  lemma UnwordsEmpty(ws: seq<string>)
    requires Words(ws)
    ensures Unwords(ws) == [] <==> ws == []
  {
    if ws != [] {
      assert Word(ws[0]);
      assert |Unwords(ws)| >= |ws[0]|;
    }
  }

  /** A nonempty text of words has no whitespace at its ends. */
  lemma {:induction false} UnwordsEnds(ws: seq<string>)
    requires Words(ws) && ws != []
    ensures Unwords(ws) != []
    ensures !IsWhitespace(Unwords(ws)[0]) && !IsWhitespace(Unwords(ws)[|Unwords(ws)| - 1])
  {
    WordsTail(ws);
    if |ws| > 1 {
      UnwordsEnds(ws[1..]);
      var a, b := ws[0], Unwords(ws[1..]);
      var s := Unwords(ws);
      assert s == a + [' '] + b;
      assert s[0] == a[0];
      assert s[|s| - 1] == b[|b| - 1];
    }
  }

  /** No leading, trailing or doubled spaces. */
  predicate WellSpaced(s: string)
  {
    && (|s| > 0 ==> s[0] != ' ' && s[|s| - 1] != ' ')
    && forall i :: 0 <= i < |s| - 1 ==> !(s[i] == ' ' && s[i + 1] == ' ')
  }

  lemma {:induction false} UnwordsWellSpaced(ws: seq<string>)
    requires Words(ws)
    ensures WellSpaced(Unwords(ws))
  {
    if ws != [] {
      WordsTail(ws);
      if |ws| > 1 {
        UnwordsWellSpaced(ws[1..]);
        UnwordsEnds(ws[1..]);
        var a, b := ws[0], Unwords(ws[1..]);
        var s := Unwords(ws);
        assert s == a + [' '] + b;
        forall i | 0 <= i < |s| - 1 ensures !(s[i] == ' ' && s[i + 1] == ' ') {
          if i < |a| {
            assert s[i] == a[i];
            assert s[i] in a;
          } else if i == |a| {
            assert s[i + 1] == b[0];
          } else {
            assert s[i] == b[i - |a| - 1] && s[i + 1] == b[i - |a|];
          }
        }
        assert s[0] == a[0];
        assert s[|s| - 1] == b[|b| - 1];
      }
    }
  }

  /** Splitting a text of words at its spaces gives the words back. */
  lemma {:induction false} SplitUnwords(ws: seq<string>)
    requires Words(ws) && ws != []
    ensures Split(Unwords(ws), ' ') == ws
  {
    WordsTail(ws);
    if |ws| == 1 {
      SplitFromPlain(ws[0], ' ', []);
      assert [] + ws[0] == ws[0];
    } else {
      SplitUnwords(ws[1..]);
      SplitFromAppend(ws[0], Unwords(ws[1..]), ' ', []);
      assert [] + ws[0] == ws[0];
      assert ws == [ws[0]] + ws[1..];
    }
  }

  // ---------------------------------------------------------------------
  // converterGrupo against GroupWords
  // ---------------------------------------------------------------------

  lemma GroupDigits(n: nat)
    ensures n == 100 * (n / 100) + 10 * (n % 100 / 10) + n % 10
    ensures n % 100 % 10 == n % 10
  {
    var q, r := n / 100, n % 100;
    var q2, r2 := r / 10, r % 10;
    assert r == 10 * q2 + r2;
    assert n == 10 * (10 * q + q2) + r2;
    DivModTen(n, 10 * q + q2, r2);
  }

  /** The text of the last two digits, in the order `converterGrupo` appends it. */
  function LowText(r: nat): string
    requires r < 100
  {
    var d, u := r / 10, r % 10;
    if d == 1 then DezADezenove[u]
    else if d > 1 && u > 0 then Dezenas[d] + " e " + Unidades[u]
    else if d > 1 then Dezenas[d]
    else Unidades[u]
  }

  lemma LowPartsText(r: nat)
    requires r < 100
    ensures Unwords(JoinE(LowParts(r))) == LowText(r)
    ensures LowParts(r) == [] <==> r == 0
  {
    var d, u := r / 10, r % 10;
    if d > 1 && u > 0 {
      assert LowParts(r) == [Dezenas[d]] + [Unidades[u]];
      JoinEFront(Dezenas[d], [Unidades[u]]);
    } else if d > 1 {
      assert LowParts(r) == [Dezenas[d]];
    } else if d == 0 && u > 0 {
      assert LowParts(r) == [Unidades[u]];
    }
  }

  /** The text of a group other than 0 and 100, as `converterGrupo` assembles it. */
  lemma GroupTextParts(n: nat)
    requires 0 < n < 1000 && n != 100
    ensures n / 100 == 0 ==> Unwords(GroupWords(n)) == LowText(n % 100)
    ensures n / 100 > 0 && n % 100 == 0 ==> Unwords(GroupWords(n)) == Centenas[n / 100]
    ensures n / 100 > 0 && n % 100 > 0 ==> Unwords(GroupWords(n)) == Centenas[n / 100] + " e " + LowText(n % 100)
  {
    var c := n / 100;
    var low := LowParts(n % 100);
    LowPartsText(n % 100);
    if c == 0 {
      assert GroupParts(n) == low;
    } else if low == [] {
      assert GroupParts(n) == [Centenas[c]];
    } else {
      assert GroupParts(n) == [Centenas[c]] + low;
      JoinEFront(Centenas[c], low);
    }
  }

  /** One more part in front of a nonempty list of parts adds "x e". */
  lemma JoinEFront(x: string, parts: seq<string>)
    requires parts != []
    ensures Unwords(JoinE([x] + parts)) == x + " e " + Unwords(JoinE(parts))
  {
    assert ([x] + parts)[0] == x && ([x] + parts)[1..] == parts;
    assert JoinE([x] + parts) == [x, "e"] + JoinE(parts);
    assert JoinE(parts) != [];
    UnwordsAppend([x, "e"], JoinE(parts));
    UnwordsTwo(x, "e");
    var y := Unwords(JoinE(parts));
    assert x + " " + "e" + " " + y == x + " e " + y;
  }

  /** The text of a group, in the very order `converterGrupo` appends its pieces. */
  lemma GroupTextCases(n: nat)
    requires 0 < n < 1000 && n != 100
    ensures var c, d, u := n / 100, n % 100 / 10, n % 10;
      var text := Unwords(GroupWords(n));
      && (c > 0 && d == 1 ==> text == "" + Centenas[c] + " e " + DezADezenove[u])
      && (c > 0 && d > 1 && u > 0 ==> text == "" + Centenas[c] + " e " + Dezenas[d] + " e " + Unidades[u])
      && (c > 0 && d > 1 && u == 0 ==> text == "" + Centenas[c] + " e " + Dezenas[d])
      && (c > 0 && d == 0 && u > 0 ==> text == "" + Centenas[c] + " e " + Unidades[u])
      && (c > 0 && d == 0 && u == 0 ==> text == "" + Centenas[c])
      && (c == 0 && d == 1 ==> text == "" + DezADezenove[u])
      && (c == 0 && d > 1 && u > 0 ==> text == "" + Dezenas[d] + " e " + Unidades[u])
      && (c == 0 && d > 1 && u == 0 ==> text == "" + Dezenas[d])
      && (c == 0 && d == 0 ==> text == "" + Unidades[u])
  {
    var c, d, u := n / 100, n % 100 / 10, n % 10;
    GroupDigits(n);
    GroupTextParts(n);
    var low := LowText(n % 100);
    if c > 0 && d > 1 && u > 0 {
      GlueThree(Centenas[c], Dezenas[d], Unidades[u]);
    } else if c > 0 && (d > 0 || u > 0) {
      GlueTwo(Centenas[c], low);
    } else if c > 0 {
      GlueOne(Centenas[c]);
    } else if d > 1 && u > 0 {
      GlueTwo(Dezenas[d], Unidades[u]);
    } else {
      GlueOne(low);
    }
  }

  lemma GlueCents(x: string, y: string, unit: string)
    ensures x + " " + ("e" + " " + (y + " " + unit)) == x + (" e " + y + (" " + unit))
  {
  }

  /** The unit and magnitude words with the space `numberToWords` puts before them. */
  lemma SpacedWords(m: nat, cents: nat)
    ensures " " + MillionsWord(m) == if m == 1 then " milhão" else " milhões"
    ensures " " + CentsWord(cents) == if cents == 1 then " centavo" else " centavos"
    ensures " " + UnitWord(m) == if m % 1000 == 1 then " real" else " reais"
    ensures " " + "mil" == " mil"
  {
  }

  lemma GlueWord(x: string, w: string)
    ensures "" + x + (" " + w) == x + " " + w
  {
  }

  lemma GlueMil(r: string, x: string)
    ensures r + x + " mil" == r + (x + " " + "mil")
  {
  }

  lemma GlueSpace(x: string, w: string)
    ensures x + (" " + w) == x + " " + w
  {
  }

  lemma GlueFront(x: string, y: string)
    ensures " " + x + y == " " + (x + y)
  {
  }

  lemma GlueOne(x: string)
    ensures "" + x == x
  {
  }

  lemma GlueTwo(x: string, y: string)
    ensures "" + x + " e " + y == x + " e " + y
  {
  }

  lemma GlueThree(x: string, y: string, z: string)
    ensures "" + x + " e " + y + " e " + z == x + " e " + (y + " e " + z)
  {
  }

  // ---------------------------------------------------------------------
  // numberToWords against SpellWords
  // ---------------------------------------------------------------------

  /** The text accumulated after a tier: the tier's words, then one space
      when more of the number follows. */
  function Spaced(ws: seq<string>, more: bool): string
  {
    if ws == [] then "" else Unwords(ws) + (if more then " " else "")
  }

  lemma SpacedAppend(m: seq<string>, t: seq<string>, more: bool)
    ensures t == [] ==> Spaced(m + t, more) == Spaced(m, more)
    ensures t != [] ==> Spaced(m + t, more) == Spaced(m, true) + Unwords(t) + (if more then " " else "")
  {
    UnwordsAppend(m, t);
    if t == [] {
      assert m + t == m;
    }
  }

  lemma TierDigits(reais: nat)
    ensures reais % 1_000_000 / 1000 == reais / 1000 % 1000
    ensures reais % 1_000_000 % 1000 == reais % 1000
    ensures reais == 1_000_000 * (reais / 1_000_000) + 1000 * (reais / 1000 % 1000) + reais % 1000
  {
    var m, rest := reais / 1_000_000, reais % 1_000_000;
    var t, u := rest / 1000, rest % 1000;
    assert reais == 1000 * (1000 * m + t) + u;
    DivModThousand(reais, 1000 * m + t, u);
    DivModThousand(1000 * m + t, m, t);
  }

  lemma DivModThousand(n: nat, a: nat, b: nat)
    requires n == 1000 * a + b && b < 1000
    ensures n % 1000 == b && n / 1000 == a
  {
  }

  lemma TierText(g: nat, magnitude: string)
    requires g < 1000
    ensures Tier(g, magnitude) == [] <==> g == 0
    ensures g > 0 ==> Unwords(Tier(g, magnitude)) == Unwords(GroupWords(g)) + " " + magnitude
  {
    GroupWordsAreWords(g);
    if g > 0 {
      UnwordsAppend(GroupWords(g), [magnitude]);
    }
  }

  lemma TierWords(g: nat, magnitude: string)
    requires g < 1000 && Word(magnitude)
    ensures Words(Tier(g, magnitude))
  {
    GroupWordsAreWords(g);
    if g > 0 {
      WordsAppend(GroupWords(g), [magnitude]);
    }
  }

  lemma CentsText(head: seq<string>, cents: nat)
    requires cents < 100 && head != []
    ensures cents == 0 ==> Unwords(head + CentsWords(cents)) == Unwords(head)
    ensures cents > 0 ==> Unwords(head + CentsWords(cents))
                          == Unwords(head) + (" e " + Unwords(GroupWords(cents)) + (if cents == 1 then " centavo" else " centavos"))
  {
    if cents == 0 {
      assert head + CentsWords(cents) == head;
    } else {
      GroupWordsAreWords(cents);
      var g, unit := GroupWords(cents), CentsWord(cents);
      assert CentsWords(cents) == ["e"] + (g + [unit]);
      UnwordsAppend(g, [unit]);
      UnwordsAppend(["e"], g + [unit]);
      UnwordsAppend(head, CentsWords(cents));
      assert Unwords([unit]) == unit && Unwords(["e"]) == "e";
      GlueCents(Unwords(head), Unwords(g), unit);
      SpacedWords(0, cents);
    }
  }

  // ---------------------------------------------------------------------
  // The words of the tables
  // ---------------------------------------------------------------------

  lemma TableWords()
    ensures forall i :: 1 <= i < 10 ==> Word(Unidades[i])
    ensures forall i :: 0 <= i < 10 ==> Word(DezADezenove[i])
    ensures forall i :: 2 <= i < 10 ==> Word(Dezenas[i])
    ensures forall i :: 1 <= i < 10 ==> Word(Centenas[i])
  {
    UnidadesWords();
    TeenWords();
    DezenasWords();
    CentenasWords();
  }

  lemma UnidadesWords()
    ensures forall i :: 1 <= i < 10 ==> Word(Unidades[i])
  {
  }

  lemma TeenWords()
    ensures forall i :: 0 <= i < 10 ==> Word(DezADezenove[i])
  {
  }

  lemma DezenasWords()
    ensures forall i :: 2 <= i < 10 ==> Word(Dezenas[i])
  {
  }

  lemma CentenasWords()
    ensures forall i :: 1 <= i < 10 ==> Word(Centenas[i])
  {
  }

  lemma FixedWords()
    ensures Word("e") && Word("cem") && Word("zero") && Word("mil") && Word("milhão") && Word("milhões")
    ensures Word("real") && Word("reais") && Word("centavo") && Word("centavos")
  {
  }

  lemma {:induction false} JoinEWords(parts: seq<string>)
    requires Words(parts)
    ensures Words(JoinE(parts))
    ensures JoinE(parts) == [] <==> parts == []
  {
    if |parts| > 1 {
      WordsTail(parts);
      JoinEWords(parts[1..]);
      FixedWords();
      WordsAppend([parts[0], "e"], JoinE(parts[1..]));
    }
  }

  lemma GroupWordsAreWords(n: nat)
    requires n < 1000
    ensures Words(GroupWords(n))
    ensures GroupWords(n) == [] <==> n == 0
  {
    FixedWords();
    if n != 0 && n != 100 {
      TableWords();
      var hs := if n / 100 > 0 then [Centenas[n / 100]] else [];
      var low := LowParts(n % 100);
      var d, u := n % 100 / 10, n % 100 % 10;
      var tens := if d > 1 then [Dezenas[d]] else [];
      var units := if u > 0 then [Unidades[u]] else [];
      WordsAppend(tens, units);
      WordsAppend(hs, low);
      LowPartsText(n % 100);
      JoinEWords(GroupParts(n));
    }
  }

  lemma SpellWordsAreWords(reais: nat, cents: nat)
    requires reais < 1_000_000_000 && cents < 100
    ensures Words(SpellWords(reais, cents)) && SpellWords(reais, cents) != []
  {
    FixedWords();
    if !(reais == 0 && cents == 0) {
      var m := Tier(reais / 1_000_000, MillionsWord(reais / 1_000_000));
      var t := Tier(reais / 1000 % 1000, "mil");
      TierWords(reais / 1_000_000, MillionsWord(reais / 1_000_000));
      TierWords(reais / 1000 % 1000, "mil");
      GroupWordsAreWords(reais % 1000);
      WordsAppend(m, t);
      WordsAppend(m + t, GroupWords(reais % 1000));
      var iw := IntegerWords(reais);
      WordsAppend(iw, [UnitWord(reais)]);
      if cents > 0 {
        GroupWordsAreWords(cents);
        WordsAppend(["e"], GroupWords(cents));
        WordsAppend(["e"] + GroupWords(cents), [CentsWord(cents)]);
      }
      WordsAppend(iw + [UnitWord(reais)], CentsWords(cents));
    }
  }

  // ---------------------------------------------------------------------
  // Reading the words back
  // ---------------------------------------------------------------------

  /** What each number word of the tables, and "cem", is worth. */
  const Values: map<string, nat> := map[
    "um" := 1, "dois" := 2, "três" := 3, "quatro" := 4, "cinco" := 5,
    "seis" := 6, "sete" := 7, "oito" := 8, "nove" := 9,
    "dez" := 10, "onze" := 11, "doze" := 12, "treze" := 13, "quatorze" := 14,
    "quinze" := 15, "dezesseis" := 16, "dezessete" := 17, "dezoito" := 18, "dezenove" := 19,
    "vinte" := 20, "trinta" := 30, "quarenta" := 40, "cinquenta" := 50,
    "sessenta" := 60, "setenta" := 70, "oitenta" := 80, "noventa" := 90,
    "cem" := 100, "cento" := 100, "duzentos" := 200, "trezentos" := 300,
    "quatrocentos" := 400, "quinhentos" := 500, "seiscentos" := 600,
    "setecentos" := 700, "oitocentos" := 800, "novecentos" := 900]

  /** The words that are not numbers: the conjunction, the magnitude and
      unit words, and "zero". */
  predicate Structural(w: string)
  {
    w == "e" || w == "mil" || w == "milhão" || w == "milhões" || w == "real" || w == "reais"
    || w == "centavo" || w == "centavos" || w == "zero"
  }

  predicate NumberWord(w: string)
  {
    !Structural(w) && w in Values
  }

  /** A reader going left to right: the value of the finished magnitude
      tiers, the group being read, and the amounts read so far. */
  datatype Reading = Reading(tiers: nat, group: nat, reais: nat, cents: nat)

  const Start := Reading(0, 0, 0, 0)

  function Step(st: Reading, w: string): Reading
  {
    if w == "mil" then st.(tiers := st.tiers + st.group * 1000, group := 0)
    else if w == "milhão" || w == "milhões" then st.(tiers := st.tiers + st.group * 1_000_000, group := 0)
    else if w == "real" || w == "reais" then st.(tiers := 0, group := 0, reais := st.tiers + st.group)
    else if w == "centavo" || w == "centavos" then st.(group := 0, cents := st.group)
    else if NumberWord(w) then st.(group := st.group + Values[w])
    else st
  }

  function Read(st: Reading, ws: seq<string>): Reading
    decreases ws
  {
    if ws == [] then st else Read(Step(st, ws[0]), ws[1..])
  }

  /** The amount a text of words names: (reais, cents). */
  function ReadText(s: string): (nat, nat)
  {
    var st := Read(Start, Split(s, ' '));
    (st.reais, st.cents)
  }

  lemma {:induction false} ReadAppend(st: Reading, a: seq<string>, b: seq<string>)
    ensures Read(st, a + b) == Read(Read(st, a), b)
    decreases a
  {
    if a == [] {
      assert a + b == b;
    } else {
      assert (a + b)[0] == a[0] && (a + b)[1..] == a[1..] + b;
      ReadAppend(Step(st, a[0]), a[1..], b);
    }
  }

  function SumValues(parts: seq<string>): nat
  {
    if parts == [] then 0 else (if parts[0] in Values then Values[parts[0]] else 0) + SumValues(parts[1..])
  }

  lemma {:induction false} SumValuesAppend(a: seq<string>, b: seq<string>)
    ensures SumValues(a + b) == SumValues(a) + SumValues(b)
  {
    if a == [] {
      assert a + b == b;
    } else {
      assert (a + b)[1..] == a[1..] + b;
      SumValuesAppend(a[1..], b);
    }
  }

  predicate NumberWords(parts: seq<string>)
  {
    forall k :: 0 <= k < |parts| ==> NumberWord(parts[k])
  }

  lemma UnidadesValues()
    ensures forall i :: 1 <= i < 10 ==> NumberWord(Unidades[i]) && Values[Unidades[i]] == i
  {
  }

  lemma TeenValues()
    ensures forall i :: 0 <= i < 10 ==> NumberWord(DezADezenove[i]) && Values[DezADezenove[i]] == 10 + i
  {
  }

  lemma DezenasValues()
    ensures forall i :: 2 <= i < 10 ==> NumberWord(Dezenas[i]) && Values[Dezenas[i]] == 10 * i
  {
  }

  lemma CentenasValues()
    ensures forall i :: 1 <= i < 10 ==> NumberWord(Centenas[i]) && Values[Centenas[i]] == 100 * i
  {
  }

  lemma CemValue()
    ensures NumberWord("cem") && Values["cem"] == 100
  {
  }

  /** The parts of the last two digits are number words worth them in total. */
  lemma LowPartsValue(r: nat)
    requires r < 100
    ensures NumberWords(LowParts(r)) && SumValues(LowParts(r)) == r
  {
    UnidadesValues();
    TeenValues();
    DezenasValues();
    var d, u := r / 10, r % 10;
    var tens := if d > 1 then [Dezenas[d]] else [];
    var units := if u > 0 then [Unidades[u]] else [];
    SumValuesAppend(tens, units);
    DivModTen(r, d, u);
  }

  /** The parts of a group are number words worth the group in total. */
  lemma GroupPartsValue(n: nat)
    requires n < 1000
    ensures NumberWords(GroupParts(n)) && SumValues(GroupParts(n)) == n
  {
    CentenasValues();
    var c := n / 100;
    var hs := if c > 0 then [Centenas[c]] else [];
    LowPartsValue(n % 100);
    SumValuesAppend(hs, LowParts(n % 100));
    assert GroupParts(n) == hs + LowParts(n % 100);
  }

  lemma {:induction false} ReadJoinE(st: Reading, parts: seq<string>)
    requires NumberWords(parts)
    ensures Read(st, JoinE(parts)) == st.(group := st.group + SumValues(parts))
    decreases parts
  {
    if |parts| == 1 {
      assert parts[1..] == [];
    } else if |parts| > 1 {
      var w, rest := parts[0], parts[1..];
      var st' := st.(group := st.group + Values[w]);
      assert Read(st, [w, "e"]) == st' by {
        assert Step(st, w) == st';
        assert [w, "e"][1..] == ["e"];
        assert Read(st, [w, "e"]) == Read(st', ["e"]);
        assert Step(st', "e") == st';
        assert ["e"][1..] == [];
      }
      assert Read(st', JoinE(rest)) == st'.(group := st'.group + SumValues(rest)) by {
        ReadJoinE(st', rest);
      }
      ReadAppend(st, [w, "e"], JoinE(rest));
    }
  }

  /** Reading a group's words adds the group to the group being read. */
  lemma ReadGroup(st: Reading, n: nat)
    requires n < 1000
    ensures Read(st, GroupWords(n)) == st.(group := st.group + n)
  {
    if n == 100 {
      CemValue();
      assert Step(st, "cem") == st.(group := st.group + 100);
    } else if n > 0 {
      GroupPartsValue(n);
      ReadJoinE(st, GroupParts(n));
    }
  }

  /** Reading a tier closes it off with its magnitude. */
  lemma ReadTier(st: Reading, g: nat, magnitude: string)
    requires g < 1000 && st.group == 0
    requires magnitude == "mil" || magnitude == "milhão" || magnitude == "milhões"
    ensures magnitude == "mil" ==> Read(st, Tier(g, magnitude)) == st.(tiers := st.tiers + g * 1000)
    ensures magnitude != "mil" ==> Read(st, Tier(g, magnitude)) == st.(tiers := st.tiers + g * 1_000_000)
  {
    if g > 0 {
      ReadAppend(st, GroupWords(g), [magnitude]);
      ReadGroup(st, g);
      assert Read(st.(group := g), [magnitude]) == Step(st.(group := g), magnitude);
    }
  }

  /** Reading the three tiers of an integer part. */
  lemma ReadTiers(mg: nat, tg: nat, ug: nat)
    requires mg < 1000 && tg < 1000 && ug < 1000
    ensures Read(Start, Tier(mg, MillionsWord(mg)) + Tier(tg, "mil") + GroupWords(ug))
            == Reading(mg * 1_000_000 + tg * 1000, ug, 0, 0)
  {
    var s1 := Reading(mg * 1_000_000, 0, 0, 0);
    var s2 := Reading(mg * 1_000_000 + tg * 1000, 0, 0, 0);
    var m, t, u := Tier(mg, MillionsWord(mg)), Tier(tg, "mil"), GroupWords(ug);
    assert Read(Start, m) == s1 by {
      ReadTier(Start, mg, MillionsWord(mg));
    }
    assert Read(s1, t) == s2 by {
      ReadTier(s1, tg, "mil");
    }
    assert Read(s2, u) == s2.(group := ug) by {
      ReadGroup(s2, ug);
    }
    ReadThree(Start, m, t, u, s1, s2, s2.(group := ug));
  }

  lemma ReadThree(st: Reading, a: seq<string>, b: seq<string>, c: seq<string>, s1: Reading, s2: Reading, s3: Reading)
    requires Read(st, a) == s1 && Read(s1, b) == s2 && Read(s2, c) == s3
    ensures Read(st, a + b + c) == s3
  {
    ReadAppend(st, a, b);
    ReadAppend(st, a + b, c);
  }

  lemma ReadCents(st: Reading, cents: nat)
    requires cents < 100 && st.group == 0 && st.cents == 0
    ensures Read(st, CentsWords(cents)) == st.(cents := cents)
  {
    if cents > 0 {
      var g, unit := GroupWords(cents), CentsWord(cents);
      var sg := st.(group := cents);
      assert Read(st, ["e"]) == st by {
        assert ["e"][1..] == [];
      }
      assert Read(st, g) == sg by {
        ReadGroup(st, cents);
      }
      assert Read(sg, [unit]) == st.(cents := cents) by {
        assert [unit][1..] == [];
      }
      ReadThree(st, ["e"], g, [unit], st, sg, st.(cents := cents));
    }
  }

  /** The unit word closes the integer part. */
  lemma ReadUnit(st: Reading, w: string)
    requires w == "real" || w == "reais"
    ensures Read(st, [w]) == Reading(0, 0, st.tiers + st.group, st.cents)
  {
    assert [w][1..] == [];
  }

  /** Every spelled amount reads back as itself. */
  lemma SpellRoundTrip(reais: nat, cents: nat)
    requires reais < 1_000_000_000 && cents < 100
    ensures Read(Start, SpellWords(reais, cents)).reais == reais
    ensures Read(Start, SpellWords(reais, cents)).cents == cents
  {
    if !(reais == 0 && cents == 0) {
      var mg, tg, ug := reais / 1_000_000, reais / 1000 % 1000, reais % 1000;
      var iw, unit, cw := IntegerWords(reais), UnitWord(reais), CentsWords(cents);
      var s3 := Reading(mg * 1_000_000 + tg * 1000, ug, 0, 0);
      var s4 := Reading(0, 0, reais, 0);
      assert Read(Start, iw) == s3 by {
        ReadTiers(mg, tg, ug);
      }
      assert Read(s3, [unit]) == s4 by {
        ReadUnit(s3, unit);
        TierDigits(reais);
      }
      assert Read(s4, cw) == s4.(cents := cents) by {
        ReadCents(s4, cents);
      }
      ReadThree(Start, iw, [unit], cw, s3, s4, s4.(cents := cents));
    }
  }

  /** Every spelled text reads back as its amount. */
  lemma TextRoundTrip(reais: nat, cents: nat)
    requires reais < 1_000_000_000 && cents < 100
    ensures ReadText(SpellText(reais, cents)) == (reais, cents)
  {
    SpellWordsAreWords(reais, cents);
    SplitUnwords(SpellWords(reais, cents));
    SpellRoundTrip(reais, cents);
  }

  /** Different amounts are spelled differently. */
  lemma SpellInjective(r1: nat, c1: nat, r2: nat, c2: nat)
    requires r1 < 1_000_000_000 && c1 < 100 && r2 < 1_000_000_000 && c2 < 100
    requires SpellText(r1, c1) == SpellText(r2, c2)
    ensures r1 == r2 && c1 == c2
  {
    TextRoundTrip(r1, c1);
    TextRoundTrip(r2, c2);
  }

  // ---------------------------------------------------------------------
  // Which words a spelled amount contains
  // ---------------------------------------------------------------------

  /** Only the conjunction and number words. */
  predicate Plain(ws: seq<string>)
  {
    forall k :: 0 <= k < |ws| ==> ws[k] == "e" || NumberWord(ws[k])
  }

  lemma {:induction false} JoinEPlain(parts: seq<string>)
    requires NumberWords(parts)
    ensures Plain(JoinE(parts))
  {
    if |parts| > 1 {
      JoinEPlain(parts[1..]);
      var rest := JoinE(parts[1..]);
      assert JoinE(parts) == [parts[0], "e"] + rest;
      forall k | 0 <= k < |JoinE(parts)|
        ensures JoinE(parts)[k] == "e" || NumberWord(JoinE(parts)[k])
      {
        if k >= 2 { assert JoinE(parts)[k] == rest[k - 2]; }
      }
    }
  }

  /** A group's words are number words joined by "e". */
  lemma GroupPlain(n: nat)
    requires n < 1000
    ensures Plain(GroupWords(n))
  {
    if n == 100 {
      CemValue();
    } else if n > 0 {
      GroupPartsValue(n);
      JoinEPlain(GroupParts(n));
    }
  }

  lemma PlainLacks(ws: seq<string>, w: string)
    requires Plain(ws) && Structural(w) && w != "e"
    ensures w !in ws
  {
  }

  lemma TierHas(g: nat, magnitude: string, w: string)
    requires g < 1000 && Structural(w) && w != "e"
    ensures w in Tier(g, magnitude) <==> g > 0 && w == magnitude
  {
    if g > 0 {
      GroupPlain(g);
      PlainLacks(GroupWords(g), w);
      assert Tier(g, magnitude) == GroupWords(g) + [magnitude];
    }
  }

  lemma CentsHas(cents: nat, w: string)
    requires cents < 100 && Structural(w) && w != "e"
    ensures w in CentsWords(cents) <==> cents > 0 && w == CentsWord(cents)
  {
    if cents > 0 {
      GroupPlain(cents);
      PlainLacks(GroupWords(cents), w);
      assert CentsWords(cents) == ["e"] + GroupWords(cents) + [CentsWord(cents)];
    }
  }

  /** A magnitude, unit or cents word occurs in a spelled amount exactly
      where the amount calls for it, and nowhere else. */
  lemma SpellHas(reais: nat, cents: nat, w: string)
    requires reais < 1_000_000_000 && cents < 100 && !(reais == 0 && cents == 0)
    requires Structural(w) && w != "e"
    ensures w in SpellWords(reais, cents) <==>
      || (reais / 1_000_000 > 0 && w == MillionsWord(reais / 1_000_000))
      || (reais / 1000 % 1000 > 0 && w == "mil")
      || w == UnitWord(reais)
      || (cents > 0 && w == CentsWord(cents))
  {
    var mg, tg, ug := reais / 1_000_000, reais / 1000 % 1000, reais % 1000;
    var m, t, g := Tier(mg, MillionsWord(mg)), Tier(tg, "mil"), GroupWords(ug);
    var unit, cw := UnitWord(reais), CentsWords(cents);
    assert SpellWords(reais, cents) == m + t + g + [unit] + cw;
    assert w in m <==> mg > 0 && w == MillionsWord(mg) by {
      TierHas(mg, MillionsWord(mg), w);
    }
    assert w in t <==> tg > 0 && w == "mil" by {
      TierHas(tg, "mil", w);
    }
    assert w !in g by {
      GroupPlain(ug);
      PlainLacks(g, w);
    }
    assert w in cw <==> cents > 0 && w == CentsWord(cents) by {
      CentsHas(cents, w);
    }
  }

  /** "milhão" for exactly one million, "milhões" for more, "mil" whenever
      the thousands group is not zero. */
  lemma MagnitudeWords(reais: nat, cents: nat)
    requires reais < 1_000_000_000 && cents < 100
    ensures "milhão" in SpellWords(reais, cents) <==> reais / 1_000_000 == 1
    ensures "milhões" in SpellWords(reais, cents) <==> reais / 1_000_000 > 1
    ensures "mil" in SpellWords(reais, cents) <==> reais / 1000 % 1000 > 0
  {
    if !(reais == 0 && cents == 0) {
      SpellHas(reais, cents, "milhão");
      SpellHas(reais, cents, "milhões");
      SpellHas(reais, cents, "mil");
    }
  }

  /** The unit words: "real" when the last group of the integer part is 1,
      "reais" otherwise; "centavo" for one cent, "centavos" for more; and
      "zero" only for the zero amount, which has no unit word at all. */
  lemma UnitWords(reais: nat, cents: nat)
    requires reais < 1_000_000_000 && cents < 100
    ensures "real" in SpellWords(reais, cents) <==> reais % 1000 == 1
    ensures "reais" in SpellWords(reais, cents) <==> reais % 1000 != 1 && !(reais == 0 && cents == 0)
    ensures "centavo" in SpellWords(reais, cents) <==> cents == 1
    ensures "centavos" in SpellWords(reais, cents) <==> cents > 1
    ensures "zero" in SpellWords(reais, cents) <==> reais == 0 && cents == 0
  {
    if !(reais == 0 && cents == 0) {
      SpellHas(reais, cents, "real");
      SpellHas(reais, cents, "reais");
      SpellHas(reais, cents, "centavo");
      SpellHas(reais, cents, "centavos");
      SpellHas(reais, cents, "zero");
    }
  }

  // ---------------------------------------------------------------------
  // The shape of the text
  // ---------------------------------------------------------------------

  /** A group's text has no stray spaces, and is empty only for 0. */
  lemma GroupWellSpaced(n: nat)
    requires n < 1000
    ensures WellSpaced(Unwords(GroupWords(n)))
    ensures Unwords(GroupWords(n)) == "" <==> n == 0
  {
    GroupWordsAreWords(n);
    UnwordsWellSpaced(GroupWords(n));
    UnwordsEmpty(GroupWords(n));
  }

  /** A spelled amount is never empty and has no leading, trailing or
      doubled space. */
  lemma SpellWellSpaced(reais: nat, cents: nat)
    requires reais < 1_000_000_000 && cents < 100
    ensures SpellText(reais, cents) != "" && WellSpaced(SpellText(reais, cents))
  {
    SpellWordsAreWords(reais, cents);
    UnwordsWellSpaced(SpellWords(reais, cents));
    UnwordsEmpty(SpellWords(reais, cents));
  }

  /** The words of the text are exactly the spelled words. */
  lemma SpellSplits(reais: nat, cents: nat)
    requires reais < 1_000_000_000 && cents < 100
    ensures Split(SpellText(reais, cents), ' ') == SpellWords(reais, cents)
  {
    SpellWordsAreWords(reais, cents);
    SplitUnwords(SpellWords(reais, cents));
  }

  // ---------------------------------------------------------------------
  // The teen words
  // ---------------------------------------------------------------------

  lemma {:induction false} JoinEHas(parts: seq<string>, w: string)
    requires w != "e"
    ensures w in JoinE(parts) <==> w in parts
  {
    if |parts| > 1 {
      JoinEHas(parts[1..], w);
      assert JoinE(parts) == [parts[0], "e"] + JoinE(parts[1..]);
      assert parts == [parts[0]] + parts[1..];
    }
  }

  lemma LowTeen(r: nat, i: nat)
    requires r < 100 && i < 10
    ensures DezADezenove[i] in LowParts(r) <==> r == 10 + i
  {
    TeenValues();
    var w := DezADezenove[i];
    var d, u := r / 10, r % 10;
    if d != 1 {
      var tens := if d > 1 then [Dezenas[d]] else [];
      var units := if u > 0 then [Unidades[u]] else [];
      assert LowParts(r) == tens + units;
      assert w !in tens by {
        DezenasValues();
      }
      assert w !in units by {
        UnidadesValues();
      }
    }
  }

  /** The teen word for 10 + i appears in a group exactly when the group's
      last two digits are 10 + i: 10 to 19 are never composed of tens and
      units, and no other number uses a teen word. */
  lemma GroupTeen(n: nat, i: nat)
    requires n < 1000 && i < 10
    ensures DezADezenove[i] in GroupWords(n) <==> n % 100 == 10 + i
  {
    var w := DezADezenove[i];
    if n == 100 {
      assert w != "cem" by {
        TeenValues();
        CemValue();
      }
    } else if n > 0 {
      var c, low := n / 100, LowParts(n % 100);
      var hs := if c > 0 then [Centenas[c]] else [];
      assert w in GroupWords(n) <==> w in hs + low by {
        assert w != "e" by {
          TeenValues();
        }
        JoinEHas(GroupParts(n), w);
      }
      assert w !in hs by {
        TeenValues();
        CentenasValues();
      }
      assert w in low <==> n % 100 == 10 + i by {
        LowTeen(n % 100, i);
      }
    }
  }

  // ---------------------------------------------------------------------
  // Worked examples
  // ---------------------------------------------------------------------

  /** The three groups of an integer part, given by its digits. */
  lemma GroupsOf(reais: nat, mg: nat, tg: nat, ug: nat)
    requires reais == mg * 1_000_000 + tg * 1000 + ug && tg < 1000 && ug < 1000
    ensures reais / 1_000_000 == mg && reais / 1000 % 1000 == tg && reais % 1000 == ug
  {
    DivModThousand(reais, mg * 1000 + tg, ug);
    DivModThousand(reais / 1000, mg, tg);
    DivModThousand(mg * 1000 + tg, mg, tg);
    assert reais / 1_000_000 == reais / 1000 / 1000;
  }

  /** Text from words, for the examples. */
  lemma TextOf(reais: nat, cents: nat, ws: seq<string>, s: string)
    requires reais < 1_000_000_000 && cents < 100
    requires SpellWords(reais, cents) == ws && Unwords(ws) == s
    ensures SpellText(reais, cents) == s
  {
  }

  lemma UnwordsThree(a: string, b: string, c: string)
    ensures Unwords([a, b, c]) == a + " " + (b + " " + c)
  {
    assert [a, b, c][1..] == [b, c];
    UnwordsTwo(b, c);
  }

  lemma UnwordsFour(a: string, b: string, c: string, d: string)
    ensures Unwords([a, b, c, d]) == a + " " + (b + " " + (c + " " + d))
  {
    assert [a, b, c, d][1..] == [b, c, d];
    UnwordsThree(b, c, d);
  }

  /** Zero is the bare word, with no unit. */
  lemma ExampleZero()
    ensures SpellText(0, 0) == "zero"
  {
  }

  lemma Group1()
    ensures GroupWords(1) == ["um"]
  {
  }

  lemma Group2()
    ensures GroupWords(2) == ["dois"]
  {
  }

  lemma Group10()
    ensures GroupWords(10) == ["dez"]
  {
  }

  lemma Group15()
    ensures GroupWords(15) == ["quinze"]
  {
  }

  lemma Group50()
    ensures GroupWords(50) == ["cinquenta"]
  {
  }

  lemma Group56()
    ensures GroupWords(56) == ["cinquenta", "e", "seis"]
  {
  }

  lemma Group100()
    ensures GroupWords(100) == ["cem"]
  {
  }

  lemma Group115()
    ensures GroupWords(115) == ["cento", "e", "quinze"]
  {
  }

  lemma Group234()
    ensures GroupWords(234) == ["duzentos", "e", "trinta", "e", "quatro"]
  {
  }

  lemma WordsOne()
    ensures SpellWords(1, 0) == ["um", "real"]
  {
    GroupsOf(1, 0, 0, 1);
    Group1();
  }

  lemma ExampleOne()
    ensures SpellText(1, 0) == "um real"
  {
    GroupsOf(1, 0, 0, 1);
    WordsOne();
    UnwordsTwo("um", "real");
    assert "um" + " " + "real" == "um real";
    TextOf(1, 0, ["um", "real"], "um real");
  }

  lemma WordsTwo()
    ensures SpellWords(2, 0) == ["dois", "reais"]
  {
    GroupsOf(2, 0, 0, 2);
    Group2();
  }

  lemma ExampleTwo()
    ensures SpellText(2, 0) == "dois reais"
  {
    GroupsOf(2, 0, 0, 2);
    WordsTwo();
    UnwordsTwo("dois", "reais");
    assert "dois" + " " + "reais" == "dois reais";
    TextOf(2, 0, ["dois", "reais"], "dois reais");
  }

  lemma WordsHundred()
    ensures SpellWords(100, 0) == ["cem", "reais"]
  {
    GroupsOf(100, 0, 0, 100);
    Group100();
  }

  lemma ExampleHundred()
    ensures SpellText(100, 0) == "cem reais"
  {
    GroupsOf(100, 0, 0, 100);
    WordsHundred();
    UnwordsTwo("cem", "reais");
    assert "cem" + " " + "reais" == "cem reais";
    TextOf(100, 0, ["cem", "reais"], "cem reais");
  }

  lemma WordsFifteen()
    ensures SpellWords(15, 0) == ["quinze", "reais"]
  {
    GroupsOf(15, 0, 0, 15);
    Group15();
  }

  lemma ExampleFifteen()
    ensures SpellText(15, 0) == "quinze reais"
  {
    GroupsOf(15, 0, 0, 15);
    WordsFifteen();
    UnwordsTwo("quinze", "reais");
    assert "quinze" + " " + "reais" == "quinze reais";
    TextOf(15, 0, ["quinze", "reais"], "quinze reais");
  }

  lemma WordsHundredFifteen()
    ensures SpellWords(115, 0) == ["cento", "e", "quinze", "reais"]
  {
    GroupsOf(115, 0, 0, 115);
    Group115();
  }

  lemma ExampleHundredFifteen()
    ensures SpellText(115, 0) == "cento e quinze reais"
  {
    GroupsOf(115, 0, 0, 115);
    WordsHundredFifteen();
    UnwordsFour("cento", "e", "quinze", "reais");
    assert "cento" + " " + ("e" + " " + ("quinze" + " " + "reais")) == "cento e quinze reais";
    TextOf(115, 0, ["cento", "e", "quinze", "reais"], "cento e quinze reais");
  }

  lemma WordsThousandOne()
    ensures SpellWords(1001, 0) == ["um", "mil", "um", "real"]
  {
    GroupsOf(1001, 0, 1, 1);
    Group1();
  }

  lemma ExampleThousandOne()
    ensures SpellText(1001, 0) == "um mil um real"
  {
    GroupsOf(1001, 0, 1, 1);
    WordsThousandOne();
    UnwordsFour("um", "mil", "um", "real");
    assert "um" + " " + ("mil" + " " + ("um" + " " + "real")) == "um mil um real";
    TextOf(1001, 0, ["um", "mil", "um", "real"], "um mil um real");
  }

  lemma WordsMillion()
    ensures SpellWords(1_000_000, 0) == ["um", "milhão", "reais"]
  {
    GroupsOf(1_000_000, 1, 0, 0);
    Group1();
  }

  lemma ExampleMillion()
    ensures SpellText(1_000_000, 0) == "um milhão reais"
  {
    GroupsOf(1_000_000, 1, 0, 0);
    WordsMillion();
    UnwordsThree("um", "milhão", "reais");
    assert "um" + " " + ("milhão" + " " + "reais") == "um milhão reais";
    TextOf(1_000_000, 0, ["um", "milhão", "reais"], "um milhão reais");
  }

  /** Two millions: the plural magnitude word. */
  lemma ExampleWordsTwoMillion()
    ensures SpellWords(2_000_000, 0) == ["dois", "milhões", "reais"]
  {
    GroupsOf(2_000_000, 2, 0, 0);
    Group2();
  }

  /** A thousand: the group word before "mil", and the plural unit word
      because the units chunk is 0. */
  lemma ExampleWordsThousand()
    ensures SpellWords(1000, 0) == ["um", "mil", "reais"]
  {
    GroupsOf(1000, 0, 1, 0);
    Group1();
  }

  lemma Group101()
    ensures GroupWords(101) == ["cento", "e", "um"]
  {
  }

  /** A units chunk of 101 is not 1: the plural unit word. */
  lemma ExampleWordsHundredOne()
    ensures SpellWords(101, 0) == ["cento", "e", "um", "reais"]
  {
    GroupsOf(101, 0, 0, 101);
    Group101();
  }

  /** Cents alone: the plural unit word still comes first. */
  lemma ExampleWordsHalfReal()
    ensures SpellWords(0, 50) == ["reais", "e", "cinquenta", "centavos"]
  {
    GroupsOf(0, 0, 0, 0);
    Group50();
  }

  /** The integer part of 1234,56. */
  lemma ExampleInteger1234()
    ensures IntegerWords(1234) == ["um", "mil", "duzentos", "e", "trinta", "e", "quatro"]
  {
    GroupsOf(1234, 0, 1, 234);
    Group1();
    Group234();
  }

  /** The cents clause of 1234,56. */
  lemma ExampleCents56()
    ensures CentsWords(56) == ["e", "cinquenta", "e", "seis", "centavos"]
  {
    Group56();
  }

  /** The amount 10,01, word by word: singular cents. */
  lemma ExampleWordsTenOne()
    ensures SpellWords(10, 1) == ["dez", "reais", "e", "um", "centavo"]
  {
    GroupsOf(10, 0, 0, 10);
    Group10();
    Group1();
  }

  /** The amount 1234,56, word by word: the unit word follows the residual
      234, and the cents clause closes it. */
  lemma ExampleWords1234()
    ensures SpellWords(1234, 56)
            == ["um", "mil", "duzentos", "e", "trinta", "e", "quatro", "reais",
                "e", "cinquenta", "e", "seis", "centavos"]
  {
    var iw := ["um", "mil", "duzentos", "e", "trinta", "e", "quatro"];
    var cw := ["e", "cinquenta", "e", "seis", "centavos"];
    assert UnitWord(1234) == "reais" by {
      GroupsOf(1234, 0, 1, 234);
    }
    ExampleInteger1234();
    ExampleCents56();
    SpellOf(1234, 56, iw, cw);
    Concat1234(iw, cw);
  }

  lemma Concat1234(iw: seq<string>, cw: seq<string>)
    requires iw == ["um", "mil", "duzentos", "e", "trinta", "e", "quatro"]
    requires cw == ["e", "cinquenta", "e", "seis", "centavos"]
    ensures iw + ["reais"] + cw
            == ["um", "mil", "duzentos", "e", "trinta", "e", "quatro", "reais",
                "e", "cinquenta", "e", "seis", "centavos"]
  {
  }

  lemma SpellOf(reais: nat, cents: nat, iw: seq<string>, cw: seq<string>)
    requires 0 < reais < 1_000_000_000 && cents < 100
    requires IntegerWords(reais) == iw && CentsWords(cents) == cw
    ensures SpellWords(reais, cents) == iw + [UnitWord(reais)] + cw
  {
  }
}
