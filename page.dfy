// The form's input masks. The amount field is re-masked on every change:
// whatever was typed, its digits are read as a count of centavos and
// shown as `reais,centavos`. The client-number field uses the same
// punctuation chain as the receipt (`CpfCnpj.FormatCpfCnpj`) and is
// limited to 18 characters.

module Page {
  import opened Text
  import CpfCnpj

  /** `parseInt(numero)` of a string of digits: NaN (`None`) when empty. */
  function ParseInt(numero: string): (r: Option<nat>)
    requires AllDigits(numero)
    ensures r.None? <==> numero == []
    ensures r.Some? ==> r.value == ValueOf(numero)
  {
    if numero == [] then None else Some(ValueOf(numero))
  }

  /** `(n / 100).toFixed(2)` for a whole number of centavos `n`: the reais
      without leading zeros, a point, and the centavos in two digits. */
  function ToFixed2(n: nat): string
  {
    Decimal(n / 100) + "." + Pad2(n % 100)
  }

  /** `formatCurrency(value)`. */
  function FormatCurrency(value: string): string
  {
    var numero := Digits(value);
    var valorDecimal := match ParseInt(numero)
      case None => "NaN"
      case Some(n) => ToFixed2(n);
    ReplaceFirst(valorDecimal, '.', ',')
  }

  // ---------------------------------------------------------------------
  // What the mask produces
  // ---------------------------------------------------------------------

  /** The centavos a masked text stands for: a canonical integer part, a
      comma and exactly two digits. */
  function ReadCurrency(text: string): Option<nat>
  {
    if |text| < 4 || text[|text| - 3] != ',' then None
    else
      var reais, centavos := text[..|text| - 3], text[|text| - 2..];
      if Canonical(reais) && AllDigits(centavos)
      then Some(ValueOf(reais) * 100 + ValueOf(centavos))
      else None
  }

  /** With at least one digit typed, the mask is the reais, a comma and two
      digits of centavos. */
  lemma CurrencyText(value: string)
    requires Digits(value) != []
    ensures var n := ValueOf(Digits(value));
      FormatCurrency(value) == Decimal(n / 100) + "," + Pad2(n % 100)
  {
    var n := ValueOf(Digits(value));
    DigitsLack(Decimal(n / 100), '.');
    ReplaceFirstSplit(Decimal(n / 100), Pad2(n % 100), '.', ',');
  }

  /** The mask reads back as the number of centavos typed, in the one
      form `ReadCurrency` accepts: no leading zero in the reais, exactly
      one comma, exactly two digits after it. */
  lemma CurrencyRoundTrip(value: string)
    requires Digits(value) != []
    ensures ReadCurrency(FormatCurrency(value)) == Some(ValueOf(Digits(value)))
  {
    var n := ValueOf(Digits(value));
    CurrencyText(value);
    MaskValue(n);
    ReadMask(Decimal(n / 100), Pad2(n % 100), n);
  }

  lemma MaskValue(n: nat)
    ensures ValueOf(Decimal(n / 100)) * 100 + ValueOf(Pad2(n % 100)) == n
  {
  }

  lemma ReadMask(a: string, b: string, n: nat)
    requires Canonical(a) && |b| == 2 && AllDigits(b) && ValueOf(a) * 100 + ValueOf(b) == n
    ensures ReadCurrency(a + [','] + b) == Some(n)
  {
    var text := a + [','] + b;
    assert |text| == |a| + 3 && text[|a|] == ',';
    assert text[..|a|] == a && text[|a| + 1..] == b;
    ReadPieces(text, a, b, n);
  }

  lemma ReadPieces(text: string, a: string, b: string, n: nat)
    requires |text| == |a| + 3 && text[|a|] == ','
    requires text[..|a|] == a && text[|a| + 1..] == b
    requires Canonical(a) && AllDigits(b) && ValueOf(a) * 100 + ValueOf(b) == n
    ensures ReadCurrency(text) == Some(n)
  {
  }

  /** No digit typed: `parseInt('')` is NaN, and so is the field. */
  lemma CurrencyNaN(value: string)
    ensures FormatCurrency(value) == "NaN" <==> Digits(value) == []
  {
    if Digits(value) != [] {
      var n := ValueOf(Digits(value));
      CurrencyText(value);
      assert FormatCurrency(value)[0] == Decimal(n / 100)[0];
    } else {
      assert "NaN"[0] != '.' && "NaN"[1..] == "aN";
      assert "aN"[0] != '.' && "aN"[1..] == "N";
    }
  }

  /** The digits of the mask are the centavos, so masking again reads the
      same number. */
  lemma MaskDigits(n: nat)
    ensures Digits(Decimal(n / 100) + "," + Pad2(n % 100)) == Decimal(n / 100) + Pad2(n % 100)
    ensures ValueOf(Decimal(n / 100) + Pad2(n % 100)) == n
  {
    var a, b := Decimal(n / 100), Pad2(n % 100);
    DigitsAppend(a + ",", b);
    DigitsAppend(a, ",");
    DigitsOfDigits(a);
    DigitsOfDigits(b);
    assert Digits(",") == [];
    ValueOfAppend(a, b);
    assert Pow10(2) == 100;
  }

  /** The field is re-masked on every change; a masked value stays as it is. */
  lemma CurrencyIdempotent(value: string)
    ensures FormatCurrency(FormatCurrency(value)) == FormatCurrency(value)
  {
    if Digits(value) == [] {
      CurrencyNaN(value);
      assert Digits("NaN") == [];
    } else {
      var n := ValueOf(Digits(value));
      CurrencyText(value);
      MaskDigits(n);
      CurrencyText(FormatCurrency(value));
    }
  }

  /** Typing one more digit at the end of the masked field shifts the
      amount one place left and puts the digit in the last centavo. */
  lemma CurrencyTyping(value: string, c: char)
    requires Digits(value) != [] && IsDigit(c)
    ensures ReadCurrency(FormatCurrency(FormatCurrency(value) + [c]))
            == Some(ValueOf(Digits(value)) * 10 + DigitValue(c))
  {
    TypedDigits(value, c);
    CurrencyRoundTrip(FormatCurrency(value) + [c]);
  }

  /** The digits of the masked field with one more digit typed. */
  lemma TypedDigits(value: string, c: char)
    requires Digits(value) != [] && IsDigit(c)
    ensures var typed := Digits(FormatCurrency(value) + [c]);
      typed != [] && ValueOf(typed) == ValueOf(Digits(value)) * 10 + DigitValue(c)
  {
    var n := ValueOf(Digits(value));
    var masked := FormatCurrency(value);
    var ds := Decimal(n / 100) + Pad2(n % 100);
    assert Digits(masked + [c]) == ds + [c] by {
      CurrencyText(value);
      MaskDigits(n);
      DigitsAppend(masked, [c]);
    }
    assert ValueOf(ds + [c]) == n * 10 + DigitValue(c) by {
      MaskDigits(n);
      ValueOfPush(ds, c);
    }
  }

  lemma ValueOfPush(ds: string, c: char)
    requires AllDigits(ds) && IsDigit(c)
    ensures AllDigits(ds + [c]) && ValueOf(ds + [c]) == ValueOf(ds) * 10 + DigitValue(c)
  {
    assert (ds + [c])[..|ds + [c]| - 1] == ds;
    AllDigitsAppend(ds, [c]);
  }

  // ---------------------------------------------------------------------
  // Examples
  // ---------------------------------------------------------------------

  /** The centavos in the mask of a digit string. */
  lemma CurrencyOfDigits(value: string, n: nat, reais: string, centavos: string)
    requires AllDigits(value) && value != [] && ValueOf(value) == n
    requires Decimal(n / 100) == reais && Pad2(n % 100) == centavos
    ensures FormatCurrency(value) == reais + "," + centavos
  {
    DigitsOfDigits(value);
    CurrencyText(value);
  }

  lemma ExampleFiveCentavos()
    ensures FormatCurrency("5") == "0,05"
  {
    CurrencyOfDigits("5", 5, "0", "05");
  }

  lemma ExampleTwelveReais()
    ensures FormatCurrency("1234") == "12,34"
  {
    CurrencyOfDigits(Pad4(1234), 1234, Decimal(12), Pad2(34));
    TwelveReaisText();
  }

  lemma TwelveReaisText()
    ensures Pad4(1234) == "1234" && Decimal(12) + "," + Pad2(34) == "12,34"
  {
    assert Pad2(12) == "12" && Pad2(34) == "34";
    assert Decimal(12) == "12";
  }

  /** A third decimal typed after `0,05` moves everything left. */
  lemma ExampleThirdDecimal()
    ensures FormatCurrency("0,056") == "0,56"
  {
    var d := "0" + Pad2(56);
    ThirdDecimalDigits();
    CurrencyText("0" + [','] + d);
    ThirdDecimalText();
  }

  lemma ThirdDecimalDigits()
    ensures Digits("0" + [','] + ("0" + Pad2(56))) == "0" + ("0" + Pad2(56))
    ensures ValueOf("0" + ("0" + Pad2(56))) == 56
  {
    assert ValueOf("0") == 0;
    ValueOfAppend("0", Pad2(56));
    ValueOfAppend("0", "0" + Pad2(56));
    DigitsAround("0", ',', "0" + Pad2(56));
  }

  lemma ThirdDecimalText()
    ensures "0" + [','] + ("0" + Pad2(56)) == "0,056"
    ensures Decimal(0) + "," + Pad2(56) == "0,56"
  {
    assert Pad2(56) == "56";
  }

  /** The digits around one non-digit. */
  lemma DigitsAround(a: string, c: char, b: string)
    requires AllDigits(a) && AllDigits(b) && !IsDigit(c)
    ensures Digits(a + [c] + b) == a + b
  {
    assert Digits(a + [c]) == a by {
      DigitsAppend(a, [c]);
      DigitsOfDigits(a);
      DigitsOfNonDigit(c);
    }
    DigitsAppend(a + [c], b);
    DigitsOfDigits(b);
  }

  lemma ExampleNoDigits()
    ensures FormatCurrency("R$") == "NaN"
  {
    CurrencyNaN("R$");
  }

  // ---------------------------------------------------------------------
  // The client-number field
  // ---------------------------------------------------------------------

  /** The page's `formatCpfCnpj` is the receipt's chain written out again;
      a full CNPJ of 14 digits fills the field's 18 characters exactly,
      anything shorter fits, and only more than 14 digits overflows it. */
  lemma FieldFits(value: string)
    ensures |Digits(value)| <= 14 <==> |CpfCnpj.FormatCpfCnpj(value)| <= 18
    ensures |Digits(value)| == 14 ==> |CpfCnpj.FormatCpfCnpj(value)| == 18
  {
    CpfCnpj.FormatKeepsDigits(value);
    var n := |Digits(value)|;
    assert |CpfCnpj.Cuts(n)| <= 4;
    if n >= 14 {
      assert |CpfCnpj.Cuts(n)| == 4;
    }
  }
}
