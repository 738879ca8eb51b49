// The receipt document: `generateReciboHTML` fills one template literal
// with the form's fields, the punctuated client and supplier numbers, the
// amount spelled out in words and the issue date in day-first form.

module Recibo {
  import opened Text
  import opened Pieces
  import CpfCnpj
  import Extenso
  import DataLocal
  import Page

  /** `ReciboData`: every field a string; the logo is optional. */
  datatype ReciboData = ReciboData(
    clienteNome: string,
    clienteCpf: string,
    clienteEndereco: string,
    valor: string,
    descricao: string,
    dataEmissao: string,
    fornecedorNome: string,
    fornecedorCpf: string,
    fornecedorEndereco: string,
    fornecedorTelefone: string,
    fornecedorEmail: string,
    fornecedorPix: string,
    logoBase64: Option<string>)

  // ---------------------------------------------------------------------
  // `parseFloat(data.valor.replace(',', '.'))`
  // ---------------------------------------------------------------------

  /** The length of the run of digits that starts `t`. */
  function DigitRun(t: string): (k: nat)
    ensures k <= |t| && AllDigits(t[..k])
    ensures k < |t| ==> !IsDigit(t[k])
  {
    if t == [] || !IsDigit(t[0]) then 0
    else
      var k := 1 + DigitRun(t[1..]);
      assert t[..k] == [t[0]] + t[1..][..k - 1];
      k
  }

  /** The decimal numbers the amount speller is modelled for: an integer
      part of one to nine digits, then optionally a point and at most two
      decimals. */
  predicate DecimalShape(t: string)
  {
    var k := DigitRun(t);
    && 0 < k <= 9
    && (k == |t| || (t[k] == '.' && |t| - (k + 1) <= 2 && AllDigits(t[k + 1..])))
  }

  /** The centavos a decimal part of at most two digits stands for. */
  function Centavos(f: string): (c: nat)
    requires |f| <= 2 && AllDigits(f)
    ensures c < 100
  {
    ValueBelow(f);
    assert Pow10(2) == 100;
    if |f| == 2 then ValueOf(f) else if |f| == 1 then ValueOf(f) * 10 else 0
  }

  /** `parseFloat(t)` on a decimal of that shape, as reais and centavos. */
  function ParseFloat(t: string): (amount: (nat, nat))
    requires DecimalShape(t)
    ensures amount.0 < 1_000_000_000 && amount.1 < 100
  {
    var k := DigitRun(t);
    NineDigits(t[..k]);
    (ValueOf(t[..k]), if k == |t| then 0 else Centavos(t[k + 1..]))
  }

  lemma NineDigits(s: string)
    requires AllDigits(s) && |s| <= 9
    ensures ValueOf(s) < 1_000_000_000
  {
    ValueBelow(s);
    Pow10Nine(|s|);
  }

  lemma {:induction false} ValueBelow(s: string)
    requires AllDigits(s)
    ensures ValueOf(s) < Pow10(|s|)
  {
    if s != [] {
      var init := s[..|s| - 1];
      ValueBelow(init);
      assert ValueOf(s) == ValueOf(init) * 10 + DigitValue(s[|s| - 1]);
      assert Pow10(|s|) == Pow10(|init|) * 10;
    }
  }

  lemma {:induction false} Pow10Nine(k: nat)
    requires k <= 9
    ensures Pow10(k) <= 1_000_000_000
    decreases 9 - k
  {
    if k < 9 {
      Pow10Nine(k + 1);
    } else {
      assert Pow10(9) == 1_000_000_000;
    }
  }

  /** Amounts written with a decimal comma (or point), as the form sends them. */
  predicate AmountShape(valor: string)
  {
    DecimalShape(ReplaceFirst(valor, ',', '.'))
  }

  /** `valorNumerico`, as reais and centavos. */
  function ParseValor(valor: string): (amount: (nat, nat))
    requires AmountShape(valor)
    ensures amount.0 < 1_000_000_000 && amount.1 < 100
  {
    ParseFloat(ReplaceFirst(valor, ',', '.'))
  }

  /** `valorPorExtenso = numberToWords(valorNumerico)`. */
  function ValorPorExtenso(valor: string): string
    requires AmountShape(valor)
  {
    var amount := ParseValor(valor);
    Extenso.SpellText(amount.0, amount.1)
  }

  lemma {:induction false} DigitRunStop(a: string, c: char, b: string)
    requires AllDigits(a) && !IsDigit(c)
    ensures DigitRun(a + [c] + b) == |a|
    decreases |a|
  {
    if a == [] {
      assert (a + [c] + b)[0] == c;
    } else {
      assert (a + [c] + b)[1..] == a[1..] + [c] + b;
      DigitRunStop(a[1..], c, b);
    }
  }

  lemma {:induction false} DigitRunAll(a: string)
    requires AllDigits(a)
    ensures DigitRun(a) == |a|
    decreases |a|
  {
    if a != [] {
      DigitRunAll(a[1..]);
    }
  }

  /** An amount with a decimal comma: the digits before it are the reais,
      at most two after it the centavos. */
  lemma CommaAmount(i: string, f: string)
    requires AllDigits(i) && 0 < |i| <= 9 && AllDigits(f) && |f| <= 2
    ensures AmountShape(i + [','] + f) && ParseValor(i + [','] + f) == (ValueOf(i), Centavos(f))
  {
    DigitsLack(i, ',');
    ReplaceFirstSplit(i, f, ',', '.');
    var t := i + ['.'] + f;
    DigitRunStop(i, '.', f);
    assert t[..|i|] == i && t[|i| + 1..] == f && t[|i|] == '.';
  }

  /** An amount without decimals is that many reais. */
  lemma PlainAmount(i: string)
    requires AllDigits(i) && 0 < |i| <= 9
    ensures AmountShape(i) && ParseValor(i) == (ValueOf(i), 0)
  {
    DigitsLack(i, ',');
    DigitRunAll(i);
    assert i[..|i|] == i;
  }

  lemma {:induction false} DecimalLength(q: nat, k: nat)
    requires 1 <= k && q < Pow10(k)
    ensures |Decimal(q)| <= k
    decreases k
  {
    if q >= 10 {
      assert Pow10(k) == 10 * Pow10(k - 1);
      assert 1 <= q / 10 < Pow10(k - 1);
      DecimalLength(q / 10, k - 1);
    }
  }

  /** What the form's amount mask produces reads back, as reais and
      centavos, as the number of centavos typed, and is spelled as such,
      for every amount below a thousand million reais. */
  lemma MaskedAmount(value: string)
    requires Digits(value) != [] && ValueOf(Digits(value)) < 100_000_000_000
    ensures var n := ValueOf(Digits(value));
      && AmountShape(Page.FormatCurrency(value))
      && ParseValor(Page.FormatCurrency(value)) == (n / 100, n % 100)
      && ValorPorExtenso(Page.FormatCurrency(value)) == Extenso.SpellText(n / 100, n % 100)
  {
    var n := ValueOf(Digits(value));
    Page.CurrencyText(value);
    assert Pow10(9) == 1_000_000_000;
    DecimalLength(n / 100, 9);
    CommaAmount(Decimal(n / 100), Pad2(n % 100));
  }

  /** The amount 1234,56 is read as 1234 reais and 56 centavos and spelled
      word by word. */
  lemma ExampleAmount1234()
    ensures AmountShape("1234,56") && ParseValor("1234,56") == (1234, 56)
    ensures ValorPorExtenso("1234,56")
            == Extenso.Unwords(["um", "mil", "duzentos", "e", "trinta", "e", "quatro", "reais",
                                "e", "cinquenta", "e", "seis", "centavos"])
  {
    CommaAmount(Pad4(1234), Pad2(56));
    AmountText();
    Extenso.ExampleWords1234();
  }

  lemma AmountText()
    ensures Pad4(1234) + [','] + Pad2(56) == "1234,56"
  {
    assert Pad2(12) == "12" && Pad2(34) == "34" && Pad2(56) == "56";
  }

  // ---------------------------------------------------------------------
  // The template
  // ---------------------------------------------------------------------

  const Prologue: string :=
    "\n<!DOCTYPE " + "html>\n<html " + "lang=\"pt-BR\">" + "\n<head>\n" + "  <meta " + "charset=\"UTF-8\">\n"
    + "  <meta " + "name=\"viewport\" " + "content=\"width=dev" + "ice-width," + " initial-scale=1.0\">\n"
    + "  <title>" + "Recibo</title>" + "\n  <style>"

  /** The style sheet, a fixed text. */
  const Css: string :=
    "\n"
    + "    * {\n"
    + "      margin: 0;\n"
    + "      padding: 0;\n"
    + "      box-sizing:" + " border-box;\n"
    + "    }\n"
    + "    \n"
    + "    body {\n"
    + "      font-family:" + " Arial, " + "sans-serif;\n"
    + "      padding: 40px;\n"
    + "      background:" + " white;\n"
    + "    }\n"
    + "    \n"
    + "    .container {\n"
    + "      max-width: 800px;\n"
    + "      margin: 0 auto;\n"
    + "      border:" + " 2px solid " + "#000;\n"
    + "      padding: 40px;\n"
    + "    }\n"
    + "    \n"
    + "    .header {\n"
    + "      position:" + " relative;\n"
    + "      text-align:" + " center;\n"
    + "      margin-botto" + "m: 30px;\n"
    + "      min-height: 80px;\n"
    + "    }\n"
    + "    \n"
    + "    .logo {\n"
    + "      position:" + " absolute;\n"
    + "      left: 0;\n"
    + "      top: 0;\n"
    + "      max-width: 120px;\n"
    + "      max-height: 80px;\n"
    + "      object-fit:" + " contain;\n"
    + "    }\n"
    + "    \n"
    + "    .header h1 {\n"
    + "      font-size: 28px;\n"
    + "      font-weight:" + " bold;\n"
    + "      margin-botto" + "m: 10px;\n"
    + "      text-transfo" + "rm: uppercase;\n"
    + "      padding-top:" + " 10px;\n"
    + "    }\n"
    + "    \n"
    + "    .valor-header {\n"
    + "      font-size: 18px;\n"
    + "      margin: 20px 0;\n"
    + "      text-align:" + " center;\n"
    + "    }\n"
    + "    \n"
    + "    .valor-destaque {\n"
    + "      font-weight:" + " bold;\n"
    + "      font-size: 22px;\n"
    + "    }\n"
    + "    \n"
    + "    .content {\n"
    + "      line-height: 1.8;\n"
    + "      font-size: 14px;\n"
    + "      text-align:" + " justify;\n"
    + "    }\n"
    + "    \n"
    + "    .content p {\n"
    + "      margin-botto" + "m: 15px;\n"
    + "    }\n"
    + "    \n"
    + "    .info-block {\n"
    + "      margin: 20px 0;\n"
    + "      padding: 15px;\n"
    + "      background:" + " #f5f5f5;\n"
    + "      border-left:" + " 4px solid " + "#333;\n"
    + "    }\n"
    + "    \n"
    + "    .info-block " + "strong {\n"
    + "      display: block;\n"
    + "      margin-botto" + "m: 5px;\n"
    + "    }\n"
    + "    \n"
    + "    .assinatura {\n"
    + "      margin-top: 60px;\n"
    + "      text-align:" + " center;\n"
    + "    }\n"
    + "    \n"
    + "    .linha-assinatura {\n"
    + "      border-top:" + " 1px solid " + "#000;\n"
    + "      width: 300px;\n"
    + "      margin:" + " 0 auto " + "10px;\n"
    + "    }\n"
    + "    \n"
    + "    .footer {\n"
    + "      margin-top: 40px;\n"
    + "      padding-top:" + " 20px;\n"
    + "      border-top:" + " 1px solid " + "#ccc;\n"
    + "      font-size: 12px;\n"
    + "      text-align:" + " center;\n"
    + "      color: #666;\n"
    + "    }\n"
    + "    \n"
    + "    @media print {\n"
    + "      body {\n"
    + "        padding: 0;\n"
    + "      }\n"
    + "      \n"
    + "      .container {\n"
    + "        border: none;\n"
    + "      }\n"
    + "    }\n"
    + "  "

  const Opening: string :=
    "</style>" + "\n</head>" + "\n<body>\n" + "  <div class=\"cont" + "ainer\">\n" + "    <div " + "class=\"header\">" + "\n      "

  /** The logo slot: an `<img>` element for a logo given as a nonempty
      string, nothing for a missing or empty one (both falsy). */
  function LogoTag(logo: Option<string>): string
  {
    if logo.Some? && logo.value != [] then
      "<img src=\"" + logo.value + "\" alt=\"Logo\" " + "class=\"logo\" />"
    else []
  }

  /** The texts `generateReciboHTML` works out before filling the
      template: the amount in words, the client's document label, both
      punctuated numbers and the issue date in day-first form. */
  datatype Campos = Campos(
    valorPorExtenso: string,
    tipoDocumentoCliente: string,
    clienteCpfCnpjFormatado: string,
    fornecedorCpfFormatado: string,
    dataFormatada: string)

  function CamposOf(data: ReciboData): Campos
    requires AmountShape(data.valor)
  {
    Campos(
      ValorPorExtenso(data.valor),
      CpfCnpj.DocumentKind(data.clienteCpf),
      CpfCnpj.FormatCpfCnpj(data.clienteCpf),
      CpfCnpj.FormatCpfCnpj(data.fornecedorCpf),
      DataLocal.FormatarDataLocal(data.dataEmissao))
  }

  /** The heading and the highlighted amount, piece by piece. */
  function ValorHeader(valor: string): seq<string>
  {
    ["\n      <h1>" + "RECIBO</h1>" + "\n    </div>" + "\n    \n  " + "  <div class=\"valo" + "r-header\">" + "\n      Valor:" + " <span class=\"valo" + "r-destaque\">",
     "R$ ", valor, "</span>"]
  }

  /** The receipt paragraph, piece by piece. */
  function Paragrafo(data: ReciboData, c: Campos): seq<string>
  {
    ["\n    </div>" + "\n    \n  " + "  <div class=\"cont" + "ent\">\n  " + "    <p>\n" + "        ",
     "Recebi de <strong>", data.clienteNome, "</strong>",
     ", \n        ",
     c.tipoDocumentoCliente, " nº <strong>", c.clienteCpfCnpjFormatado, "</strong>",
     ", \n        ",
     "residente em <strong>", data.clienteEndereco, "</strong>",
     ", \n        ",
     "a quantia de <strong>",
     "R$ ", data.valor, " (", c.valorPorExtenso, ")</strong>",
     " \n        ",
     "referente a <strong>", data.descricao, "</strong>",
     ".\n      " + "</p>\n   " + "   \n    " + "  <div class=\"info" + "-block\">" + "\n       " + " <strong>" + "Dados do " + "Fornecedor:" + "</strong>" + "\n        "]
  }

  /** The supplier and payment blocks, piece by piece: the supplier's
      number is always labelled CPF. */
  function Fornecedor(data: ReciboData, c: Campos): seq<string>
  {
    ["Nome: ", data.fornecedorNome, "<br>",
     "\n        ",
     "CPF: ", c.fornecedorCpfFormatado, "<br>",
     "\n        ",
     "Endereço: ", data.fornecedorEndereco, "<br>",
     "\n        ",
     "Telefone: ", data.fornecedorTelefone, "<br>",
     "\n        ",
     "E-mail: ", data.fornecedorEmail,
     "\n      </div>" + "\n      \n" + "      <div " + "class=\"info-block\"" + ">\n      " + "  <strong>" + "Informações " + "de Pagamento:" + "</strong>" + "\n        ",
     "Chave PIX: ", data.fornecedorPix]
  }

  /** The date line and the closing tags, piece by piece. */
  function Rodape(c: Campos): seq<string>
  {
    ["\n      </div>" + "\n      \n" + "      <p " + "style=\"text-align:" + " right; " + "margin-top:" + " 30px;\">" + "\n        ",
     "Data: ", c.dataFormatada,
     "\n      </p>" + "\n    </div>" + "\n  </div>" + "\n</body>" + "\n</html>" + "\n\n  "]
  }

  /** The page around its sections and a given style sheet. */
  function Document(estilo: string, logo: string, cabecalho: string, paragrafo: string,
                    fornecedor: string, rodape: string): seq<string>
  {
    [Prologue, estilo, Opening, logo, cabecalho, paragrafo, fornecedor, rodape]
  }

  /** The pieces of the page for `data` and its computed texts `c`, around
      a given style sheet. */
  function Sheet(estilo: string, data: ReciboData, c: Campos): seq<string>
  {
    Document(estilo, LogoTag(data.logoBase64), Concat(ValorHeader(data.valor)),
             Concat(Paragrafo(data, c)), Concat(Fornecedor(data, c)), Concat(Rodape(c)))
  }

  /** `generateReciboHTML(data)`. */
  function GenerateReciboHTML(data: ReciboData): string
    requires AmountShape(data.valor)
  {
    Concat(Sheet(Css, data, CamposOf(data)))
  }

  // ---------------------------------------------------------------------
  // What the document shows
  // ---------------------------------------------------------------------

  /** The page is its pieces in order. */
  lemma PageText(estilo: string, logo: string, cabecalho: string, paragrafo: string,
                 fornecedor: string, rodape: string)
    ensures Concat(Document(estilo, logo, cabecalho, paragrafo, fornecedor, rodape))
            == Prologue + estilo + Opening + logo + cabecalho + paragrafo + fornecedor + rodape
  {
    ConcatEight(Document(estilo, logo, cabecalho, paragrafo, fornecedor, rodape));
  }

  // The pieces each section shows.

  lemma HeaderAmount(data: ReciboData)
    ensures Occurs(Concat(ValorHeader(data.valor)), "R$ " + data.valor + "</span>")
  {
    Window3(ValorHeader(data.valor), 1);
  }

  lemma ParagrafoAmount(data: ReciboData, c: Campos)
    ensures Occurs(Concat(Paragrafo(data, c)), "R$ " + data.valor + " (" + c.valorPorExtenso + ")</strong>")
  {
    Window5(Paragrafo(data, c), 15);
  }

  lemma ParagrafoNome(data: ReciboData, c: Campos)
    ensures Occurs(Concat(Paragrafo(data, c)), "Recebi de <strong>" + data.clienteNome + "</strong>")
  {
    Window3(Paragrafo(data, c), 1);
  }

  lemma ParagrafoEndereco(data: ReciboData, c: Campos)
    ensures Occurs(Concat(Paragrafo(data, c)), "residente em <strong>" + data.clienteEndereco + "</strong>")
  {
    Window3(Paragrafo(data, c), 10);
  }

  lemma ParagrafoDescricao(data: ReciboData, c: Campos)
    ensures Occurs(Concat(Paragrafo(data, c)), "referente a <strong>" + data.descricao + "</strong>")
  {
    Window3(Paragrafo(data, c), 21);
  }

  lemma ParagrafoKind(data: ReciboData, c: Campos)
    ensures Occurs(Concat(Paragrafo(data, c)),
                   c.tipoDocumentoCliente + " nº <strong>" + c.clienteCpfCnpjFormatado + "</strong>")
  {
    Window4(Paragrafo(data, c), 5);
  }

  lemma FornecedorCpf(data: ReciboData, c: Campos)
    ensures Occurs(Concat(Fornecedor(data, c)), "CPF: " + c.fornecedorCpfFormatado + "<br>")
  {
    Window3(Fornecedor(data, c), 4);
  }

  lemma FornecedorNome(data: ReciboData, c: Campos)
    ensures Occurs(Concat(Fornecedor(data, c)), "Nome: " + data.fornecedorNome + "<br>")
  {
    Window3(Fornecedor(data, c), 0);
  }

  lemma FornecedorEndereco(data: ReciboData, c: Campos)
    ensures Occurs(Concat(Fornecedor(data, c)), "Endereço: " + data.fornecedorEndereco + "<br>")
  {
    Window3(Fornecedor(data, c), 8);
  }

  lemma FornecedorTelefone(data: ReciboData, c: Campos)
    ensures Occurs(Concat(Fornecedor(data, c)), "Telefone: " + data.fornecedorTelefone + "<br>")
  {
    Window3(Fornecedor(data, c), 12);
  }

  lemma FornecedorEmail(data: ReciboData, c: Campos)
    ensures Occurs(Concat(Fornecedor(data, c)), "E-mail: " + data.fornecedorEmail)
  {
    Window2(Fornecedor(data, c), 16);
  }

  lemma FornecedorPix(data: ReciboData, c: Campos)
    ensures Occurs(Concat(Fornecedor(data, c)), "Chave PIX: " + data.fornecedorPix)
  {
    Window2(Fornecedor(data, c), 19);
  }

  lemma RodapeDate(c: Campos)
    ensures Occurs(Concat(Rodape(c)), "Data: " + c.dataFormatada)
  {
    Window2(Rodape(c), 1);
  }

  // The page around any style sheet and any computed texts.

  /** What stands in a section stands in the page. */
  lemma Shows(estilo: string, data: ReciboData, c: Campos, k: nat, t: string)
    requires 3 <= k < 8 && Occurs(Sheet(estilo, data, c)[k], t)
    ensures Occurs(Concat(Sheet(estilo, data, c)), t)
  {
    InSection(Sheet(estilo, data, c), k, Sheet(estilo, data, c)[k], t);
  }

  lemma AmountIn(estilo: string, data: ReciboData, c: Campos)
    ensures Occurs(Concat(Sheet(estilo, data, c)), "R$ " + data.valor + "</span>")
    ensures Occurs(Concat(Sheet(estilo, data, c)),
                   "R$ " + data.valor + " (" + c.valorPorExtenso + ")</strong>")
  {
    HeaderAmount(data);
    Shows(estilo, data, c, 4, "R$ " + data.valor + "</span>");
    ParagrafoAmount(data, c);
    Shows(estilo, data, c, 5, "R$ " + data.valor + " (" + c.valorPorExtenso + ")</strong>");
  }

  lemma ClientIn(estilo: string, data: ReciboData, c: Campos)
    ensures Occurs(Concat(Sheet(estilo, data, c)), "Recebi de <strong>" + data.clienteNome + "</strong>")
    ensures Occurs(Concat(Sheet(estilo, data, c)), "residente em <strong>" + data.clienteEndereco + "</strong>")
    ensures Occurs(Concat(Sheet(estilo, data, c)), "referente a <strong>" + data.descricao + "</strong>")
    ensures Occurs(Concat(Sheet(estilo, data, c)),
                   c.tipoDocumentoCliente + " nº <strong>" + c.clienteCpfCnpjFormatado + "</strong>")
  {
    ParagrafoNome(data, c);
    ParagrafoEndereco(data, c);
    ParagrafoDescricao(data, c);
    ParagrafoKind(data, c);
    Shows(estilo, data, c, 5, "Recebi de <strong>" + data.clienteNome + "</strong>");
    Shows(estilo, data, c, 5, "residente em <strong>" + data.clienteEndereco + "</strong>");
    Shows(estilo, data, c, 5, "referente a <strong>" + data.descricao + "</strong>");
    Shows(estilo, data, c, 5, c.tipoDocumentoCliente + " nº <strong>" + c.clienteCpfCnpjFormatado + "</strong>");
  }

  lemma SupplierIn(estilo: string, data: ReciboData, c: Campos)
    ensures Occurs(Concat(Sheet(estilo, data, c)), "Nome: " + data.fornecedorNome + "<br>")
    ensures Occurs(Concat(Sheet(estilo, data, c)), "CPF: " + c.fornecedorCpfFormatado + "<br>")
    ensures Occurs(Concat(Sheet(estilo, data, c)), "Endereço: " + data.fornecedorEndereco + "<br>")
    ensures Occurs(Concat(Sheet(estilo, data, c)), "Telefone: " + data.fornecedorTelefone + "<br>")
    ensures Occurs(Concat(Sheet(estilo, data, c)), "E-mail: " + data.fornecedorEmail)
    ensures Occurs(Concat(Sheet(estilo, data, c)), "Chave PIX: " + data.fornecedorPix)
  {
    FornecedorNome(data, c);
    FornecedorCpf(data, c);
    FornecedorEndereco(data, c);
    FornecedorTelefone(data, c);
    FornecedorEmail(data, c);
    FornecedorPix(data, c);
    Shows(estilo, data, c, 6, "Nome: " + data.fornecedorNome + "<br>");
    Shows(estilo, data, c, 6, "CPF: " + c.fornecedorCpfFormatado + "<br>");
    Shows(estilo, data, c, 6, "Endereço: " + data.fornecedorEndereco + "<br>");
    Shows(estilo, data, c, 6, "Telefone: " + data.fornecedorTelefone + "<br>");
    Shows(estilo, data, c, 6, "E-mail: " + data.fornecedorEmail);
    Shows(estilo, data, c, 6, "Chave PIX: " + data.fornecedorPix);
  }

  lemma DateIn(estilo: string, data: ReciboData, c: Campos)
    ensures Occurs(Concat(Sheet(estilo, data, c)), "Data: " + c.dataFormatada)
  {
    RodapeDate(c);
    Shows(estilo, data, c, 7, "Data: " + c.dataFormatada);
  }

  lemma LogoIn(estilo: string, data: ReciboData, c: Campos)
    requires data.logoBase64.Some? && data.logoBase64.value != []
    ensures Occurs(Concat(Sheet(estilo, data, c)),
                   "<img src=\"" + data.logoBase64.value + "\" alt=\"Logo\" " + "class=\"logo\" />")
  {
    var tag := LogoTag(data.logoBase64);
    OccursBetween([], tag, []);
    assert [] + tag + [] == tag;
    Shows(estilo, data, c, 3, tag);
  }

  /** The sections read no logo. */
  lemma SectionsIgnoreLogo(a: ReciboData, b: ReciboData, c: Campos)
    requires a.(logoBase64 := None) == b.(logoBase64 := None)
    ensures ValorHeader(a.valor) == ValorHeader(b.valor)
    ensures Paragrafo(a, c) == Paragrafo(b, c) && Fornecedor(a, c) == Fornecedor(b, c)
  {
    assert a.clienteNome == b.clienteNome && a.clienteEndereco == b.clienteEndereco;
    assert a.valor == b.valor && a.descricao == b.descricao;
    assert a.fornecedorNome == b.fornecedorNome && a.fornecedorEndereco == b.fornecedorEndereco;
    assert a.fornecedorTelefone == b.fornecedorTelefone && a.fornecedorEmail == b.fornecedorEmail;
    assert a.fornecedorPix == b.fornecedorPix;
  }

  lemma LogoSlotIn(estilo: string, data: ReciboData, c: Campos)
    ensures var bare := Concat(Sheet(estilo, data.(logoBase64 := None), c));
      var k := |Prologue + estilo + Opening|;
      k <= |bare| && Concat(Sheet(estilo, data, c)) == bare[..k] + LogoTag(data.logoBase64) + bare[k..]
  {
    var bareData := data.(logoBase64 := None);
    var l := LogoTag(data.logoBase64);
    var v, r, f, d := Concat(ValorHeader(data.valor)), Concat(Paragrafo(data, c)),
                      Concat(Fornecedor(data, c)), Concat(Rodape(c));
    assert Sheet(estilo, data, c) == Document(estilo, l, v, r, f, d);
    assert Sheet(estilo, bareData, c) == Document(estilo, [], v, r, f, d) by {
      SectionsIgnoreLogo(data, bareData, c);
    }
    PageText(estilo, l, v, r, f, d);
    PageText(estilo, [], v, r, f, d);
    LogoOnly(Prologue, estilo, Opening, l, v, r, f, d);
  }

  // The receipt.

  /** The amount appears as typed, once in the header and once in the
      paragraph followed by its spelling in words. */
  lemma AmountShown(data: ReciboData)
    requires AmountShape(data.valor)
    ensures Occurs(GenerateReciboHTML(data), "R$ " + data.valor + "</span>")
    ensures Occurs(GenerateReciboHTML(data),
                   "R$ " + data.valor + " (" + ValorPorExtenso(data.valor) + ")</strong>")
  {
    AmountIn(Css, data, CamposOf(data));
  }

  /** The client's name, address and the description of what is paid for. */
  lemma ClientShown(data: ReciboData)
    requires AmountShape(data.valor)
    ensures Occurs(GenerateReciboHTML(data), "Recebi de <strong>" + data.clienteNome + "</strong>")
    ensures Occurs(GenerateReciboHTML(data), "residente em <strong>" + data.clienteEndereco + "</strong>")
    ensures Occurs(GenerateReciboHTML(data), "referente a <strong>" + data.descricao + "</strong>")
  {
    ClientIn(Css, data, CamposOf(data));
  }

  /** The client's number is punctuated and labelled by its digit count:
      CPF up to eleven digits, CNPJ beyond, and the CNPJ label goes with
      the CNPJ slash. */
  lemma ClientDocument(data: ReciboData)
    requires AmountShape(data.valor)
    ensures var kind := CpfCnpj.DocumentKind(data.clienteCpf);
      && Occurs(GenerateReciboHTML(data),
                kind + " nº <strong>" + CpfCnpj.FormatCpfCnpj(data.clienteCpf) + "</strong>")
      && (kind == "CPF" <==> |Digits(data.clienteCpf)| <= 11)
      && (kind == "CNPJ" <==> '/' in CpfCnpj.FormatCpfCnpj(data.clienteCpf))
  {
    ClientIn(Css, data, CamposOf(data));
    CpfCnpj.KindMatchesPunctuation(data.clienteCpf);
  }

  /** The supplier's number is labelled CPF whatever its length, although
      more than eleven digits are punctuated as a CNPJ. */
  lemma SupplierLabelledCpf(data: ReciboData)
    requires AmountShape(data.valor)
    ensures Occurs(GenerateReciboHTML(data), "CPF: " + CpfCnpj.FormatCpfCnpj(data.fornecedorCpf) + "<br>")
    ensures |Digits(data.fornecedorCpf)| > 11 ==> '/' in CpfCnpj.FormatCpfCnpj(data.fornecedorCpf)
  {
    SupplierIn(Css, data, CamposOf(data));
    CpfCnpj.KindMatchesPunctuation(data.fornecedorCpf);
  }

  /** The supplier's name, address, telephone, e-mail and PIX key. */
  lemma SupplierShown(data: ReciboData)
    requires AmountShape(data.valor)
    ensures Occurs(GenerateReciboHTML(data), "Nome: " + data.fornecedorNome + "<br>")
    ensures Occurs(GenerateReciboHTML(data), "Endereço: " + data.fornecedorEndereco + "<br>")
    ensures Occurs(GenerateReciboHTML(data), "Telefone: " + data.fornecedorTelefone + "<br>")
    ensures Occurs(GenerateReciboHTML(data), "E-mail: " + data.fornecedorEmail)
    ensures Occurs(GenerateReciboHTML(data), "Chave PIX: " + data.fornecedorPix)
  {
    SupplierIn(Css, data, CamposOf(data));
  }

  /** The issue date, in day-first form when it reads as a date. */
  lemma DateShown(data: ReciboData)
    requires AmountShape(data.valor)
    ensures Occurs(GenerateReciboHTML(data), "Data: " + DataLocal.FormatarDataLocal(data.dataEmissao))
  {
    DateIn(Css, data, CamposOf(data));
  }

  /** A logo given as a nonempty string is shown as an image. */
  lemma LogoShown(data: ReciboData)
    requires AmountShape(data.valor) && data.logoBase64.Some? && data.logoBase64.value != []
    ensures Occurs(GenerateReciboHTML(data),
                   "<img src=\"" + data.logoBase64.value + "\" alt=\"Logo\" " + "class=\"logo\" />")
  {
    LogoIn(Css, data, CamposOf(data));
  }

  /** The logo slot is empty exactly for a missing or empty logo. */
  lemma LogoTagEmpty(logo: Option<string>)
    ensures LogoTag(logo) == [] <==> logo == None || logo == Some([])
  {
    if logo.Some? && logo.value != [] {
      assert LogoTag(logo)[0] == '<';
    }
  }

  /** The computed texts read no logo. */
  lemma CamposIgnoreLogo(a: ReciboData, b: ReciboData)
    requires AmountShape(a.valor) && a.(logoBase64 := None) == b.(logoBase64 := None)
    ensures AmountShape(b.valor) && CamposOf(a) == CamposOf(b)
    ensures GenerateReciboHTML(b) == Concat(Sheet(Css, b, CamposOf(a)))
  {
    assert a.valor == b.valor && a.clienteCpf == b.clienteCpf;
    assert a.fornecedorCpf == b.fornecedorCpf && a.dataEmissao == b.dataEmissao;
  }

  /** A logo given as a nonempty string is shown as an image right after
      the page's head; a missing or empty one leaves the slot empty, and
      nothing else in the receipt depends on the logo. */
  lemma LogoSlot(data: ReciboData)
    requires AmountShape(data.valor)
    ensures var bare := GenerateReciboHTML(data.(logoBase64 := None));
      var k := |Prologue + Css + Opening|;
      k <= |bare| && GenerateReciboHTML(data) == bare[..k] + LogoTag(data.logoBase64) + bare[k..]
  {
    CamposIgnoreLogo(data, data.(logoBase64 := None));
    LogoSlotIn(Css, data, CamposOf(data));
  }
}
