# Recibo: a model of the receipt generator's text helpers

The system fills in a Brazilian payment receipt (*recibo*). A form collects
the client's and the supplier's details and an amount. The server turns
them into one HTML page, which is then printed to PDF. This project models
the text that goes into that page:

- **`formatCpfCnpj`** punctuates a taxpayer number. It keeps the digits only.
  Up to 11 digits are punctuated as a CPF (`AAA.BBB.CCC-DD`, an individual's
  number) and longer inputs as a CNPJ (`AA.BBB.CCC/DDDD-EE`, a company's
  number). The punctuation comes from a chain of regular-expression
  replacements. Each one rewrites only its leftmost match.
- **`numberToWords`** and its helper **`converterGrupo`** spell an amount of
  reais and centavos in Portuguese words.
- **`formatarDataLocal`** turns the form's `yyyy-MM-dd` date into the
  day-first `dd/MM/yyyy`.
- **`generateReciboHTML`** fills the page template.
- **`formatCurrency`**, on the form page, masks the amount field as
  `reais,centavos`. The page also limits the client-number field to 18
  characters.

Modules:

- `Text`: the string and number helpers everything shares, such as the
  digits of a string, decimal notation, splitting, trimming, first-match
  replacement and substrings.
- `CpfCnpj`: the replacement chain, written replacement by replacement.
  An independent *mask* says which separator goes after which digit, and
  `FormatIsMask` proves that the chain and the mask agree on every input.
- `Extenso`: `ConverterGrupo` and `NumberToWords` are methods that build
  their result with `+=` on local variables, the way the source does.
  Each is proved equal to a word-list description (`GroupWords`,
  `SpellWords`), and the properties are proved about that description.
  One of them is a reader that recovers the amount from the words.
- `DataLocal`: the three `-` parts, `Number()` of each, and the calendar
  arithmetic of `new Date(y, m - 1, d)`, including its rollover of days
  and months past the end. `toLocaleDateString('pt-BR')` is modelled as
  two-digit day and month followed by the year.
- `Pieces`: joining a list of strings, and where a run of consecutive
  pieces stands in the joined text.
- `Recibo`: the receipt data, the reading of the amount by
  `parseFloat(valor.replace(',', '.'))`, the template, and what the page
  shows.
- `Page`: the amount mask and the client-number field.

Amounts are whole numbers of reais and centavos rather than floating-point
numbers. The page's own `formatCpfCnpj` (src/app/page.tsx:41-59) is the
same text as the library's, so it is modelled once, as `CpfCnpj.FormatCpfCnpj`.

The unit word is chosen from what is left of the integer part after the
millions and thousands have been taken off (`parteInteira %=`): it is
`real` when that remainder is 1 and `reais` otherwise. So 1001 is
"um mil um real" and 1 000 000 is "um milhão reais".

`new Date` does not reject impossible dates, and the model keeps that:
`2024-02-30` is shown as `01/03/2024`, and a two-digit year is read as
19xx.

## Model

| member | source | states |
|---|---|---|
| CpfCnpj.FindRun | src/lib/reciboTemplate.ts:24 | the position found is the leftmost match of `(\d{k})(\d)`: it matches, nothing before it does, and no result means no match anywhere |
| CpfCnpj.FindTail | src/lib/reciboTemplate.ts:26 | the position found is the leftmost match of the end-anchored `(\d{k})(\d{1,2})$`, and no result means no match |
| CpfCnpj.ReplaceRun | src/lib/reciboTemplate.ts:24-33 | definition of `.replace(/(\d{k})(\d)/, '$1' + sep + '$2')`, with no contract of its own; where it cuts is stated by `FindRun`, `CpfStep1`, `CpfStep2` and `CnpjHead` |
| CpfCnpj.ReplaceTail | src/lib/reciboTemplate.ts:26-34 | definition of `.replace(/(\d{k})(\d{1,2})$/, '$1' + sep + '$2')`, with no contract of its own; where it cuts is stated by `FindTail`, `CpfStep3` and `CnpjTail` |
| CpfCnpj.FormatCpfCnpj | src/lib/reciboTemplate.ts:17-35 | definition of `formatCpfCnpj`, with no contract of its own; its properties are `FormatIsMask`, `FormatKeepsDigits`, `FormatIdempotent`, `FullCpf`, `FullCnpj`, `PartialCnpj` and `FormatEmpty` |
| CpfCnpj.CpfStep1 | src/lib/reciboTemplate.ts:24 | the first replacement leaves at most 3 digits alone and otherwise puts '.' after the 3rd digit |
| CpfCnpj.CpfStep2 | src/lib/reciboTemplate.ts:25 | the second replacement skips the first '.', and puts a '.' after the 6th digit exactly when there are more than 6 |
| CpfCnpj.CpfStep3 | src/lib/reciboTemplate.ts:26 | the hyphen goes after the 9th digit exactly when there are 10 or 11 digits, and the text is unchanged otherwise |
| CpfCnpj.CnpjHead | src/lib/reciboTemplate.ts:31-33 | with 12 or more digits, the three replacements give `AA.BBB.CCC/` followed by the remaining digits |
| CpfCnpj.CnpjTail | src/lib/reciboTemplate.ts:34 | the CNPJ hyphen: none for 12 digits, after the 12th for 13 or 14, and before the last two digits beyond that |
| CpfCnpj.FormatIsMask | src/lib/reciboTemplate.ts:17-35 | the replacement chain equals the mask of the input's digits, for every input |
| CpfCnpj.CpfMask | src/lib/reciboTemplate.ts:22-27 | with at most 11 digits: '.' after the 3rd iff more than 3, '.' after the 6th iff more than 6, '-' after the 9th iff more than 9 |
| CpfCnpj.CnpjMask | src/lib/reciboTemplate.ts:29-34 | with 12 or more digits: '.' after the 2nd and 5th, '/' after the 8th, and the hyphen as in `CnpjTail` |
| CpfCnpj.FormatKeepsDigits | src/lib/reciboTemplate.ts:19-35 | formatting keeps exactly the digits of the input, and adds one character per separator |
| CpfCnpj.FormatIdempotent | src/lib/reciboTemplate.ts:17-35 | formatting an already formatted number changes nothing |
| CpfCnpj.FullCpf | src/lib/reciboTemplate.ts:22-27 | 11 digits give `###.###.###-##` |
| CpfCnpj.FullCnpj | src/lib/reciboTemplate.ts:29-34 | 14 digits give `##.###.###/####-##` |
| CpfCnpj.PartialCnpj | src/lib/reciboTemplate.ts:29-34 | 12 digits give 15 characters and no hyphen; more than 14 digits put the hyphen before the last two digits |
| CpfCnpj.FormatEmpty | src/lib/reciboTemplate.ts:19-27 | an input without digits formats to the empty string |
| CpfCnpj.DocumentKind | src/lib/reciboTemplate.ts:116 | definition of the label choice, with no property of its own beyond its body; what the label means is stated by `KindMatchesPunctuation` and `Recibo.ClientDocument` |
| CpfCnpj.KindMatchesPunctuation | src/lib/reciboTemplate.ts:17-35 | the label is "CNPJ" exactly when the formatted number contains the CNPJ '/' |
| Extenso.ConverterGrupo | src/lib/reciboTemplate.ts:45-73 | the method, step by step, builds the text of the group's word list |
| Extenso.GroupTextCases | src/lib/reciboTemplate.ts:49-72 | the text of a group for each combination of hundreds, tens and units digits, joined with " e " |
| Extenso.GroupWellSpaced | src/lib/reciboTemplate.ts:45-73 | a group's text has no leading, trailing or doubled space, and is empty exactly for 0 |
| Extenso.GroupTeen | src/lib/reciboTemplate.ts:60-61 | a word of the teen table appears exactly when the last two digits are that teen |
| Extenso.Group100 | src/lib/reciboTemplate.ts:47 | the group 100 is the single word "cem" |
| Extenso.Group115 | src/lib/reciboTemplate.ts:55-61 | the group 115 is the words "cento", "e", "quinze" |
| Extenso.NumberToWords | src/lib/reciboTemplate.ts:37-105 | the method, step by step, returns the text of the spelled word list |
| Extenso.TrimSpelled | src/lib/reciboTemplate.ts:104 | the final `trim()` yields the spelled text, both as it is and with the leading space that an integer part of 0 leaves |
| Extenso.SpellRoundTrip | src/lib/reciboTemplate.ts:75-102 | reading the spelled words back, left to right, gives the reais and the centavos |
| Extenso.TextRoundTrip | src/lib/reciboTemplate.ts:37-105 | reading the spelled text back gives the amount |
| Extenso.SpellInjective | src/lib/reciboTemplate.ts:37-105 | two different amounts below a thousand million are never spelled alike |
| Extenso.SpellHas | src/lib/reciboTemplate.ts:80-102 | which magnitude, unit and centavo words appear, as an if-and-only-if over the amount |
| Extenso.MagnitudeWords | src/lib/reciboTemplate.ts:80-92 | "milhão" iff the millions are 1, "milhões" iff more than 1, "mil" iff the thousands are nonzero |
| Extenso.UnitWords | src/lib/reciboTemplate.ts:38-102 | "real" iff the remaining units are 1, "reais" otherwise unless the amount is 0, "centavo"/"centavos" iff the centavos are 1/more, "zero" iff the amount is 0 |
| Extenso.SpellWellSpaced | src/lib/reciboTemplate.ts:84-104 | the spelled text is never empty and has no leading, trailing or doubled space |
| Extenso.SpellSplits | src/lib/reciboTemplate.ts:78-104 | splitting the text at spaces gives back exactly the spelled words |
| Extenso.ExampleZero | src/lib/reciboTemplate.ts:38 | 0 is "zero" |
| Extenso.ExampleOne | src/lib/reciboTemplate.ts:94-98 | 1 is "um real" |
| Extenso.ExampleHundredFifteen | src/lib/reciboTemplate.ts:55-98 | 115 is "cento e quinze reais" |
| Extenso.ExampleWordsHundredOne | src/lib/reciboTemplate.ts:94-98 | 101 is spelled "cento e um reais", word by word |
| Extenso.ExampleWordsThousand | src/lib/reciboTemplate.ts:87-98 | 1000 is spelled "um mil reais", word by word |
| Extenso.ExampleThousandOne | src/lib/reciboTemplate.ts:87-98 | 1001 is "um mil um real" |
| Extenso.ExampleMillion | src/lib/reciboTemplate.ts:80-98 | 1 000 000 is "um milhão reais" |
| Extenso.ExampleWordsTwoMillion | src/lib/reciboTemplate.ts:82 | 2 000 000 is spelled "dois milhões reais", word by word |
| Extenso.ExampleWordsHalfReal | src/lib/reciboTemplate.ts:98-104 | 0,50 is spelled "reais e cinquenta centavos", word by word |
| Extenso.ExampleWordsTenOne | src/lib/reciboTemplate.ts:101 | 10,01 is spelled "dez reais e um centavo", word by word |
| Extenso.ExampleWords1234 | src/lib/reciboTemplate.ts:37-105 | 1234,56 is "um mil duzentos e trinta e quatro reais e cinquenta e seis centavos", word by word |
| DataLocal.ToNumber | src/lib/reciboTemplate.ts:281 | definition of `Number()` on a date part, with no property of its own beyond its body; its properties are `NumberTrimmed`, `FormatCases` and `FormatDigitParts` |
| DataLocal.NumberTrimmed | src/lib/reciboTemplate.ts:281 | `Number()` of a part does not depend on whitespace around it |
| DataLocal.NewDate | src/lib/reciboTemplate.ts:283 | `new Date` always yields a real calendar date |
| DataLocal.NewDateValid | src/lib/reciboTemplate.ts:283 | a real date, with a year past the two-digit range, is built as given |
| DataLocal.RollDayNumber | src/lib/reciboTemplate.ts:283 | days past the end of the month count on from the month's first day |
| DataLocal.DayNumberInjective | src/lib/reciboTemplate.ts:283 | two dates with the same day count are the same date |
| DataLocal.LocaleDate | src/lib/reciboTemplate.ts:284 | definition of `toLocaleDateString('pt-BR')`, with no contract of its own; its property is `LocaleRoundTrip` |
| DataLocal.FormatarDataLocal | src/lib/reciboTemplate.ts:279-285 | definition of `formatarDataLocal`, with no contract of its own; its properties are `FormatCases`, `ExtraPartsIgnored`, `FormatDigitParts` and `FormatValidDate` |
| DataLocal.FormatCases | src/lib/reciboTemplate.ts:281-282 | the input comes back unchanged exactly when a part is missing, zero or not a number |
| DataLocal.ExtraPartsIgnored | src/lib/reciboTemplate.ts:281 | parts after the third do not change the result |
| DataLocal.LocaleRoundTrip | src/lib/reciboTemplate.ts:284 | the day-first text reads back as the date it shows |
| DataLocal.FormatDigitParts | src/lib/reciboTemplate.ts:281-284 | three positive digit parts are shown as the date `new Date` builds from them |
| DataLocal.FormatValidDate | src/lib/reciboTemplate.ts:279-285 | a real date `yyyy-MM-dd` is shown as `dd/MM/yyyy` |
| DataLocal.ExampleMarch5 | src/lib/reciboTemplate.ts:279-285 | "2024-03-05" is shown as "05/03/2024" |
| DataLocal.ExampleRollover | src/lib/reciboTemplate.ts:283-284 | "2024-02-30" is shown as "01/03/2024" |
| DataLocal.ExampleTwoDigitYear | src/lib/reciboTemplate.ts:283-284 | "24-03-05" is shown as "05/03/1924" |
| DataLocal.ExampleIncomplete | src/lib/reciboTemplate.ts:282 | "2024-03" comes back unchanged |
| Recibo.ParseFloat | src/lib/reciboTemplate.ts:108 | the amount read is below a thousand million reais, with fewer than 100 centavos |
| Recibo.CommaAmount | src/lib/reciboTemplate.ts:108 | digits, a comma and at most two decimals are read as those reais and centavos |
| Recibo.PlainAmount | src/lib/reciboTemplate.ts:108 | digits without a comma are read as that many reais |
| Recibo.ParseValor | src/lib/reciboTemplate.ts:108 | definition of `parseFloat(valor.replace(',', '.'))` split into reais and centavos; its own contract is the bounds of `ParseFloat`, and its values are stated by `CommaAmount` and `PlainAmount` |
| Recibo.ValorPorExtenso | src/lib/reciboTemplate.ts:109 | definition of `numberToWords(valorNumerico)`, with no contract of its own; its properties are `MaskedAmount`, `ExampleAmount1234` and those of `Extenso.NumberToWords` |
| Recibo.MaskedAmount | src/app/page.tsx:35-39 | what the amount mask produces is read back as the centavos typed, and spelled as that amount |
| Recibo.ExampleAmount1234 | src/lib/reciboTemplate.ts:108-109 | "1234,56" is read as 1234 reais and 56 centavos and spelled word by word |
| Recibo.AmountShown | src/lib/reciboTemplate.ts:241-249 | the amount appears as typed in the header, and again in the paragraph followed by its spelling in words |
| Recibo.ClientShown | src/lib/reciboTemplate.ts:246-250 | the client's name, address and the description appear, each in bold |
| Recibo.ClientDocument | src/lib/reciboTemplate.ts:112-247 | the client's punctuated number appears after its label; the label is "CPF" iff at most 11 digits and "CNPJ" iff the number has the '/' |
| Recibo.SupplierLabelledCpf | src/lib/reciboTemplate.ts:113-256 | the supplier's number appears labelled "CPF", even when it has more than 11 digits and is punctuated as a CNPJ |
| Recibo.SupplierShown | src/lib/reciboTemplate.ts:255-264 | the supplier's name, address, telephone, e-mail and PIX key appear with their labels |
| Recibo.DateShown | src/lib/reciboTemplate.ts:268 | the issue date appears in day-first form |
| Recibo.LogoShown | src/lib/reciboTemplate.ts:236 | a nonempty logo appears as an `<img>` element |
| Recibo.LogoTag | src/lib/reciboTemplate.ts:236 | definition of the logo slot, with no contract of its own; its properties are `LogoShown`, `LogoTagEmpty` and `LogoSlot` |
| Recibo.LogoTagEmpty | src/lib/reciboTemplate.ts:236 | the logo slot is empty exactly when the logo is missing or empty |
| Recibo.LogoSlot | src/lib/reciboTemplate.ts:118-276 | the page with a logo is the page without one, with the logo slot filled in right after the head; nothing else depends on the logo |
| Recibo.GenerateReciboHTML | src/lib/reciboTemplate.ts:107-276 | definition of `generateReciboHTML`, with no contract of its own; what the page shows is stated by `AmountShown`, `ClientShown`, `ClientDocument`, `SupplierLabelledCpf`, `SupplierShown`, `DateShown`, `LogoShown` and `LogoSlot` |
| Page.ParseInt | src/app/page.tsx:37 | definition of `parseInt` on digits, with no property of its own beyond its body; its properties are `CurrencyRoundTrip` and `CurrencyNaN` |
| Page.ToFixed2 | src/app/page.tsx:37 | definition of `(n / 100).toFixed(2)` in exact arithmetic, with no contract of its own; its properties are those of `FormatCurrency` |
| Page.FormatCurrency | src/app/page.tsx:35-39 | definition of `formatCurrency`, with no contract of its own; its properties are `CurrencyText`, `CurrencyRoundTrip`, `CurrencyNaN`, `CurrencyIdempotent` and `CurrencyTyping` |
| Page.CurrencyText | src/app/page.tsx:35-39 | with a digit typed, the mask is the reais without leading zeros, a comma and two digits of centavos |
| Page.CurrencyRoundTrip | src/app/page.tsx:35-39 | the mask reads back as the centavos typed |
| Page.CurrencyNaN | src/app/page.tsx:36-38 | the mask is "NaN" exactly when no digit was typed |
| Page.CurrencyIdempotent | src/app/page.tsx:35-64 | masking the masked field again changes nothing |
| Page.CurrencyTyping | src/app/page.tsx:61-64 | typing one more digit shifts the amount one place left and puts the digit in the last centavo |
| Page.ExampleFiveCentavos | src/app/page.tsx:35-39 | "5" is masked as "0,05" |
| Page.ExampleTwelveReais | src/app/page.tsx:35-39 | "1234" is masked as "12,34" |
| Page.ExampleThirdDecimal | src/app/page.tsx:35-39 | "0,056" is masked as "0,56" |
| Page.ExampleNoDigits | src/app/page.tsx:36-38 | "R$" is masked as "NaN" |
| Page.FieldFits | src/app/page.tsx:41-146 | a formatted number fits the field's 18 characters exactly when it has at most 14 digits, and 14 digits fill it |
| Text.Trim | src/lib/reciboTemplate.ts:104 | definition of `String.prototype.trim`, with no contract of its own; its properties are `TrimClean`, `TrimDigits` and `TrimIdempotent`, and `Extenso.TrimSpelled` for the spelled amount |
| Text.Split | src/lib/reciboTemplate.ts:281 | `split('-')` returns at least one part, and no part contains the separator; `SplitJoin` states that joining the parts gives the text back |
| Text.ReplaceFirst | src/app/page.tsx:38 | `replace('.', ',')` with a one-character pattern keeps the length, and changes nothing when the pattern does not occur; `ReplaceFirstSplit` states which character it replaces |

## Left out

- The amount is modelled in whole reais and centavos. `parseFloat`,
  `Math.round((numero - parteInteira) * 100)`, `parseInt(numero) / 100` and
  `toFixed(2)` work in floating point; the model uses exact integer
  arithmetic instead.
- Recibo.GenerateReciboHTML: requires an amount of one to nine digits,
  optionally followed by a comma and at most two decimals. The source also
  accepts other text. `NaN` is spelled "reais", amounts of a thousand
  million or more spell an undefined table entry, and centavos that round
  up to 100 are spelled "cem centavos". None of these is modelled.
- Page.CurrencyText, Page.CurrencyRoundTrip, Page.CurrencyIdempotent,
  Page.CurrencyTyping: proved in exact arithmetic for any number of digits
  typed. The program agrees with them only up to 15 digits (fewer than
  10^15 centavos). From 16 digits on, `parseInt(numero) / 100` no longer
  keeps every centavo, so `toFixed(2)` can show other centavos. From 24
  digits on (10^23 centavos or more), `toFixed` writes exponent notation:
  a "1" followed by 24 zeros is masked as "1e+22", and masking that again
  gives "1,22", so the program is not idempotent there. The field has no
  `maxLength` that would keep the input in range.
- Recibo.MaskedAmount: stated for fewer than 10^11 centavos typed, the
  range the speller handles. It also leaves out where floating point would
  lose precision.
- DataLocal.ToNumber: reads digits, surrounding whitespace, a leading '+'
  and the empty string. Decimal points, exponents, hexadecimal and
  `Infinity` become NaN here, although `Number()` accepts them. None of
  these forms comes from the date field.
- Time zones and the range of JavaScript's `Date` are not modelled. Years
  are natural numbers.
- HTML escaping: the page inserts the form's strings as they are, and so
  does the model. It claims nothing about markup validity.
- The style sheet at src/lib/reciboTemplate.ts:125-231 is written out as
  one fixed text, `Recibo.Css`. Nothing is proved about its content.
- The section lemmas (`Recibo.AmountShown` and the rest) say that each
  field appears in the page. They do not say that it appears only once.
- src/app/api/gerar-recibo/route.ts is not part of this model. It handles
  JSON request parsing, reading the logo file, base64 encoding,
  environment defaults and Puppeteer PDF rendering, all of which are I/O or
  foreign calls.
- The React component in src/app/page.tsx is not modelled: its state,
  submission, download and the default dates from `date-fns`.
  `handleValorChange` (61-64) stores the mask of each new field value.
  That is modelled as `Page.FormatCurrency` applied to each new value
  (`CurrencyIdempotent`, `CurrencyTyping`).
