/** The text `exportCSV` writes: a header line, then one comma-joined,
    newline-terminated line per record, with no quoting or escaping. A reader
    for that text is given beside it, to state what the export preserves. */
module Csv {
  import opened Text
  import opened Transactions

  const Header: string := "Description,Amount,Category,Date"

  predicate IsDigit(c: char) { '0' <= c <= '9' }

  predicate AllDigits(s: string) { forall k :: 0 <= k < |s| ==> IsDigit(s[k]) }

  function Digit(d: nat): (c: char)
    requires d < 10
    ensures IsDigit(c) && c as int - '0' as int == d
  {
    ('0' as int + d) as char
  }

  /** Decimal digits of `n`, most significant first, without leading zeros. */
  function NatToString(n: nat): (s: string)
    ensures s != [] && AllDigits(s)
    ensures s[0] == '0' <==> n == 0
  {
    if n < 10 then [Digit(n)] else NatToString(n / 10) + [Digit(n % 10)]
  }

  /** How a JavaScript number prints in a template literal, for a value with at
      most two decimals: `amount` is in hundredths, so 1250 prints as "12.5",
      -5 as "-0.05" and 300 as "3". */
  function FormatAmount(amount: int): string
  {
    if amount < 0 then "-" + FormatMagnitude(-amount) else FormatMagnitude(amount)
  }

  function FormatMagnitude(n: nat): string
  {
    if n % 100 == 0 then NatToString(n / 100) else NatToString(n / 100) + "." + Decimals(n % 100)
  }

  /** The decimals of a non-zero number of hundredths, trailing zero dropped: 50 is "5", 5 is "05". */
  function Decimals(frac: nat): string
    requires 0 < frac < 100
  {
    if frac % 10 == 0 then [Digit(frac / 10)] else [Digit(frac / 10), Digit(frac % 10)]
  }

  /** The four exported fields of a record, in column order. */
  function Fields(t: Transaction): seq<string>
  {
    [t.text, FormatAmount(t.amount), t.category, t.date]
  }

  /** One exported line, without its newline: the fields joined by commas. */
  function Line(t: Transaction): string
  {
    Join(Fields(t), ',')
  }

  /** The record lines, each followed by a newline, in ledger order. */
  function Rows(ts: seq<Transaction>): string
  {
    if ts == [] then [] else Line(ts[0]) + "\n" + Rows(ts[1..])
  }

  /** The export: nothing for an empty ledger, else the header line and the record lines. */
  function Export(ts: seq<Transaction>): (r: Option<string>)
    ensures r.None? <==> ts == []
  {
    if ts == [] then None else Some(Header + "\n" + Rows(ts))
  }

  /** Appending a record appends its line: what the export loop relies on. */
  lemma {:induction false} RowsSnoc(ts: seq<Transaction>, t: Transaction)
    ensures Rows(ts + [t]) == Rows(ts) + Line(t) + "\n"
  {
    if ts == [] {
      assert ts + [t] == [t] && [t][1..] == [];
    } else {
      var u := ts + [t];
      assert u[0] == ts[0] && u[1..] == ts[1..] + [t];
      RowsSnoc(ts[1..], t);
      ConcatAssoc(Line(ts[0]) + "\n", Rows(ts[1..]), Line(t), "\n");
    }
  }

  // Reading the export back.

  /** No text field of the record holds a line break. */
  predicate NoBreak(t: Transaction)
  {
    '\n' !in t.text && '\n' !in t.category && '\n' !in t.date
  }

  /** No field of the record holds a comma or a line break; the amount never does. */
  predicate PlainFields(t: Transaction)
  {
    NoBreak(t) && ',' !in t.text && ',' !in t.category && ',' !in t.date
  }

  /** What one exported line carries: every field but the id. */
  datatype Row = Row(text: string, amount: int, category: string, date: string)

  function RowOf(t: Transaction): Row
  {
    Row(t.text, t.amount, t.category, t.date)
  }

  /** The value of a string of decimal digits. */
  function DigitsValue(s: string): nat
    requires AllDigits(s)
  {
    if s == [] then 0 else DigitsValue(s[..|s| - 1]) * 10 + (s[|s| - 1] as int - '0' as int)
  }

  /** Reads `[-]digits[.d[d]]` back to hundredths. */
  function ParseAmount(s: string): Option<int>
  {
    if s != [] && s[0] == '-' then
      match ParseMagnitude(s[1..])
      case Some(n) => Some(-n)
      case None => None
    else ParseMagnitude(s)
  }

  function ParseMagnitude(s: string): Option<int>
  {
    var parts := Split(s, '.');
    var whole := parts[0];
    if whole == [] || !AllDigits(whole) then None
    else if |parts| == 1 then Some(DigitsValue(whole) * 100)
    else if |parts| == 2 && AllDigits(parts[1]) && |parts[1]| == 1 then
      Some(DigitsValue(whole) * 100 + DigitsValue(parts[1]) * 10)
    else if |parts| == 2 && AllDigits(parts[1]) && |parts[1]| == 2 then
      Some(DigitsValue(whole) * 100 + DigitsValue(parts[1]))
    else None
  }

  /** Reads one exported line back into its four fields. */
  function ParseLine(line: string): Option<Row>
  {
    var fields := Split(line, ',');
    if |fields| != 4 then None
    else match ParseAmount(fields[1])
      case Some(a) => Some(Row(fields[0], a, fields[2], fields[3]))
      case None => None
  }

  lemma {:induction false} NatToStringValue(n: nat)
    ensures DigitsValue(NatToString(n)) == n
  {
    var s := NatToString(n);
    if n >= 10 {
      NatToStringValue(n / 10);
      assert s[..|s| - 1] == NatToString(n / 10);
    }
  }

  lemma DigitsHaveNoSeparator(s: string, c: char)
    requires AllDigits(s) && !IsDigit(c)
    ensures c !in s
  {
  }

  /** The decimals are one or two digits and read back to the hundredths. */
  lemma DecimalsValue(frac: nat)
    requires 0 < frac < 100
    ensures var d := Decimals(frac);
      AllDigits(d) && (|d| == 1 || |d| == 2) &&
      (if |d| == 1 then DigitsValue(d) * 10 else DigitsValue(d)) == frac
    ensures var d := Decimals(frac);
      (|d| == 1 <==> frac % 10 == 0) && d[|d| - 1] != '0'
  {
    var hi, lo := frac / 10, frac % 10;
    assert frac == hi * 10 + lo;
    var d := Decimals(frac);
    if lo == 0 {
      assert d == [Digit(hi)] && d[..0] == [];
      assert DigitsValue(d) == hi;
    } else {
      var first := [Digit(hi)];
      assert d == [Digit(hi), Digit(lo)] && d[..1] == first && first[..0] == [];
      assert DigitsValue(first) == hi;
      assert DigitsValue(d) == hi * 10 + lo;
    }
  }

  /** A whole number of units prints as its digits, which read back. */
  lemma WholeRoundTrip(n: nat)
    requires n % 100 == 0
    ensures '.' !in FormatMagnitude(n)
    ensures ParseMagnitude(FormatMagnitude(n)) == Some(n)
  {
    var whole := NatToString(n / 100);
    NatToStringValue(n / 100);
    DigitsHaveNoSeparator(whole, '.');
    SplitWithout(whole, '.');
    assert Split(FormatMagnitude(n), '.') == [whole];
    assert n == (n / 100) * 100;
  }

  /** A value with hundredths prints as digits, a point and the decimals, which read back. */
  lemma FractionRoundTrip(n: nat)
    requires n % 100 != 0
    ensures FormatMagnitude(n) == NatToString(n / 100) + "." + Decimals(n % 100)
    ensures FormatMagnitude(n)[|FormatMagnitude(n)| - 1] != '0'
    ensures ParseMagnitude(FormatMagnitude(n)) == Some(n)
  {
    var whole := NatToString(n / 100);
    var d := Decimals(n % 100);
    NatToStringValue(n / 100);
    DigitsHaveNoSeparator(whole, '.');
    DecimalsValue(n % 100);
    SplitAfter(whole, '.', d);
    DigitsHaveNoSeparator(d, '.');
    SplitWithout(d, '.');
    assert FormatMagnitude(n) == whole + ['.'] + d;
    assert Split(FormatMagnitude(n), '.') == [whole, d];
    assert n == (n / 100) * 100 + n % 100;
  }

  lemma FormatMagnitudeRoundTrip(n: nat)
    ensures FormatMagnitude(n) != [] && IsDigit(FormatMagnitude(n)[0])
    ensures ',' !in FormatMagnitude(n) && '\n' !in FormatMagnitude(n)
    ensures ParseMagnitude(FormatMagnitude(n)) == Some(n)
  {
    var whole := NatToString(n / 100);
    DigitsHaveNoSeparator(whole, ',');
    DigitsHaveNoSeparator(whole, '\n');
    if n % 100 == 0 {
      WholeRoundTrip(n);
    } else {
      DecimalsValue(n % 100);
      DigitsHaveNoSeparator(Decimals(n % 100), ',');
      DigitsHaveNoSeparator(Decimals(n % 100), '\n');
      FractionRoundTrip(n);
    }
  }

  /** The printed amount reads back to the amount, and holds no comma or line break. */
  lemma FormatAmountRoundTrip(amount: int)
    ensures ParseAmount(FormatAmount(amount)) == Some(amount)
    ensures ',' !in FormatAmount(amount) && '\n' !in FormatAmount(amount)
  {
    if amount < 0 {
      var m := FormatMagnitude(-amount);
      FormatMagnitudeRoundTrip(-amount);
      assert FormatAmount(amount) == "-" + m;
      assert ("-" + m)[0] == '-' && ("-" + m)[1..] == m;
      assert ParseAmount("-" + m) == Some(amount);
      assert forall c :: c in "-" + m ==> c == '-' || c in m;
    } else {
      FormatMagnitudeRoundTrip(amount);
    }
  }

  /** A line whose fields hold no comma reads back to the record, id aside. */
  lemma LineRoundTrip(t: Transaction)
    requires PlainFields(t)
    ensures ParseLine(Line(t)) == Some(RowOf(t))
  {
    FormatAmountRoundTrip(t.amount);
    SplitJoin(Fields(t), ',');
  }

  /** A comma typed into a description is not escaped: the line then has more than
      four fields and no longer reads back. */
  lemma CommaInTextBreaksLine(t: Transaction)
    requires ',' in t.text
    ensures |Split(Line(t), ',')| > 4
    ensures ParseLine(Line(t)).None?
  {
    CountJoin(Fields(t), ',');
    CountPositive(t.text, ',');
    SplitCount(Line(t), ',');
  }

  /** No exported line holds a line break when the record's fields hold none. */
  lemma LineHasNoBreak(t: Transaction)
    requires NoBreak(t)
    ensures '\n' !in Line(t)
  {
    FormatAmountRoundTrip(t.amount);
    forall k | 0 <= k < 4 ensures '\n' !in Fields(t)[k] {
    }
    JoinKeepsOut(Fields(t), ',', '\n');
  }

  /** The record lines split into exactly one line per record, in order, each followed by a newline. */
  lemma {:induction false} RowsLines(ts: seq<Transaction>)
    requires forall k :: 0 <= k < |ts| ==> NoBreak(ts[k])
    ensures Split(Rows(ts), '\n') == seq(|ts|, k requires 0 <= k < |ts| => Line(ts[k])) + [[]]
  {
    if ts != [] {
      var t := ts[0];
      LineHasNoBreak(t);
      SplitAfter(Line(t), '\n', Rows(ts[1..]));
      RowsLines(ts[1..]);
    }
  }

  /** The export splits into the header line, one line per record in ledger order,
      and the empty piece after the final newline. */
  lemma ExportLines(ts: seq<Transaction>)
    requires ts != []
    requires forall k :: 0 <= k < |ts| ==> NoBreak(ts[k])
    ensures Split(Export(ts).value, '\n') == [Header] + seq(|ts|, k requires 0 <= k < |ts| => Line(ts[k])) + [[]]
  {
    assert '\n' !in Header;
    SplitAfter(Header, '\n', Rows(ts));
    RowsLines(ts);
  }

  /** A non-empty ledger exports one header line and then one line per record, in
      ledger order; each record line reads back to its record. */
  lemma ExportRoundTrip(ts: seq<Transaction>)
    requires ts != []
    requires forall k :: 0 <= k < |ts| ==> PlainFields(ts[k])
    ensures var lines := Split(Export(ts).value, '\n');
      |lines| == |ts| + 2 && lines[0] == Header && lines[|ts| + 1] == [] &&
      forall k :: 0 <= k < |ts| ==> lines[k + 1] == Line(ts[k]) && ParseLine(lines[k + 1]) == Some(RowOf(ts[k]))
  {
    var lines := Split(Export(ts).value, '\n');
    var body := seq(|ts|, k requires 0 <= k < |ts| => Line(ts[k]));
    ExportLines(ts);
    assert lines == [Header] + body + [[]];
    forall k | 0 <= k < |ts|
      ensures lines[k + 1] == Line(ts[k]) && ParseLine(lines[k + 1]) == Some(RowOf(ts[k]))
    {
      assert lines[k + 1] == body[k];
      LineRoundTrip(ts[k]);
    }
  }
}
