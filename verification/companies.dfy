/**
 * The company importer of import_to_mysql.py: CSV headers are mapped onto the six
 * target columns through a table of aliases, market capitalisations such as
 * "$1.5B" become integers, symbols are cleaned and de-duplicated (last row wins),
 * and the rows are upserted keyed by symbol.
 */
module CompanyImport {
  import opened Common
  import opened Text
  import Batching

  const TargetColumns: seq<string> :=
    ["symbol", "company_name", "sector", "industry", "market_cap", "weighted_shares_outstanding"]

  /** Header spellings (stripped and lower-cased) and the target column each stands for. */
  const ColumnAliases: map<string, string> := map[
    "symbol" := "symbol",
    "ticker" := "symbol",
    "ticker symbol" := "symbol",
    "company" := "company_name",
    "name" := "company_name",
    "company name" := "company_name",
    "sector" := "sector",
    "industry" := "industry",
    "market cap" := "market_cap",
    "market capitalization" := "market_cap",
    "weighted shares outstanding" := "weighted_shares_outstanding",
    "weighted shares" := "weighted_shares_outstanding"
  ]

  /** Every alias names one of the target columns, so none is empty. */
  lemma AliasesAreTargets()
    ensures forall k :: k in ColumnAliases ==> ColumnAliases[k] in TargetColumns
  {
  }

  lemma AliasesAreNonEmpty()
    ensures forall k :: k in ColumnAliases ==> ColumnAliases[k] != ""
  {
  }

  // ---------------------------------------------------------------- headers

  /** The key a header is looked up under: stripped and lower-cased. */
  function HeaderKey(column: string): string {
    Lower(Strip(column))
  }

  /**
   * The name a header has after `normalize_columns`: its alias when its key is one,
   * otherwise the header exactly as it was.
   */
  function Renamed(column: string): string {
    if HeaderKey(column) in ColumnAliases then ColumnAliases[HeaderKey(column)] else column
  }

  /**
   * The loop of `normalize_columns` over a header row, for any alias table whose
   * values are non-empty: a header enters the rename map iff its key is an alias.
   */
  method BuildRenameMap(columns: seq<string>, aliases: map<string, string>) returns (renameMap: map<string, string>)
    requires forall k :: k in aliases ==> aliases[k] != ""
    ensures forall c :: c in renameMap <==> c in columns && HeaderKey(c) in aliases
    ensures forall c :: c in renameMap ==> renameMap[c] == aliases[HeaderKey(c)]
  {
    renameMap := map[];
    for i := 0 to |columns|
      invariant forall c :: c in renameMap <==> c in columns[..i] && HeaderKey(c) in aliases
      invariant forall c :: c in renameMap ==> renameMap[c] == aliases[HeaderKey(c)]
    {
      var column := columns[i];
      var key := Lower(Strip(column));
      assert columns[..i + 1] == columns[..i] + [column];
      if key in aliases && aliases[key] != "" {
        renameMap := renameMap[column := aliases[key]];
      }
    }
    assert columns[..|columns|] == columns;
  }

  /** `normalize_columns`: renames a header iff its key is a known alias, to that alias. */
  method NormalizeColumns(columns: seq<string>) returns (normalized: seq<string>)
    ensures |normalized| == |columns|
    ensures forall i :: 0 <= i < |columns| ==> normalized[i] == Renamed(columns[i])
  {
    AliasesAreNonEmpty();
    var renameMap := BuildRenameMap(columns, ColumnAliases);
    normalized := seq(|columns|, i requires 0 <= i < |columns| =>
      if columns[i] in renameMap then renameMap[columns[i]] else columns[i]);
    forall i | 0 <= i < |columns|
      ensures normalized[i] == Renamed(columns[i])
    {
      assert columns[i] in columns;
    }
  }

  /** A header already in lower case without surrounding blanks is its own key. */
  lemma PlainKey(s: string)
    requires s != [] && forall i :: 0 <= i < |s| ==> !IsSpace(s[i]) && !('A' <= s[i] <= 'Z')
    ensures HeaderKey(s) == s
  {
    StripOfTrimmed(s);
    assert Lower(s) == s;
  }

  /** A header that is its own key and that the renaming leaves alone. */
  predicate IsFixed(t: string) {
    HeaderKey(t) == t && Renamed(t) == t
  }

  // The lemmas below repeat one proof for each target column on purpose. A
  // single lemma quantified over all the targets makes the verifier unfold
  // every alias literal at once, which exceeds the resource limit on some
  // solver seeds. One lemma per fact about each column keeps each string
  // literal in a small proof of its own.
  lemma SymbolIsFixed()
    ensures IsFixed("symbol")
  {
    SymbolKey();
    SymbolAlias();
  }

  lemma SymbolKey()
    ensures HeaderKey("symbol") == "symbol"
  {
    PlainKey("symbol");
  }

  lemma SymbolAlias()
    ensures "symbol" in ColumnAliases && ColumnAliases["symbol"] == "symbol"
  {
  }

  lemma CompanyNameIsFixed()
    ensures IsFixed("company_name")
  {
    CompanyNameKey();
    CompanyNameNotAlias();
  }

  lemma CompanyNameKey()
    ensures HeaderKey("company_name") == "company_name"
  {
    PlainKey("company_name");
  }

  lemma CompanyNameNotAlias()
    ensures "company_name" !in ColumnAliases
  {
  }

  lemma SectorIsFixed()
    ensures IsFixed("sector")
  {
    SectorKey();
    SectorAlias();
  }

  lemma SectorKey()
    ensures HeaderKey("sector") == "sector"
  {
    PlainKey("sector");
  }

  lemma SectorAlias()
    ensures "sector" in ColumnAliases && ColumnAliases["sector"] == "sector"
  {
  }

  lemma IndustryIsFixed()
    ensures IsFixed("industry")
  {
    IndustryKey();
    IndustryAlias();
  }

  lemma IndustryKey()
    ensures HeaderKey("industry") == "industry"
  {
    PlainKey("industry");
  }

  lemma IndustryAlias()
    ensures "industry" in ColumnAliases && ColumnAliases["industry"] == "industry"
  {
  }

  lemma MarketCapIsFixed()
    ensures IsFixed("market_cap")
  {
    MarketCapKey();
    MarketCapNotAlias();
  }

  lemma MarketCapKey()
    ensures HeaderKey("market_cap") == "market_cap"
  {
    PlainKey("market_cap");
  }

  lemma MarketCapNotAlias()
    ensures "market_cap" !in ColumnAliases
  {
  }

  lemma WeightedSharesIsFixed()
    ensures IsFixed("weighted_shares_outstanding")
  {
    WeightedSharesKey();
    WeightedSharesNotAlias();
  }

  lemma WeightedSharesKey()
    ensures HeaderKey("weighted_shares_outstanding") == "weighted_shares_outstanding"
  {
    PlainKey("weighted_shares_outstanding");
  }

  lemma WeightedSharesNotAlias()
    ensures "weighted_shares_outstanding" !in ColumnAliases
  {
  }

  /** Each target column is its own key and a fixed point of the renaming. */
  lemma TargetIsFixed(i: nat)
    requires i < |TargetColumns|
    ensures IsFixed(TargetColumns[i])
  {
    var t := TargetColumns[i];
    if i == 0 {
      assert t == "symbol";
      SymbolIsFixed();
    } else if i == 1 {
      assert t == "company_name";
      CompanyNameIsFixed();
    } else if i == 2 {
      assert t == "sector";
      SectorIsFixed();
    } else if i == 3 {
      assert t == "industry";
      IndustryIsFixed();
    } else if i == 4 {
      assert t == "market_cap";
      MarketCapIsFixed();
    } else {
      assert t == "weighted_shares_outstanding";
      WeightedSharesIsFixed();
    }
  }

  lemma TargetsAreFixed()
    ensures forall t :: t in TargetColumns ==> IsFixed(t)
  {
    forall i | 0 <= i < |TargetColumns|
      ensures IsFixed(TargetColumns[i])
    {
      TargetIsFixed(i);
    }
  }

  /** Normalising an already normalised header changes nothing. */
  lemma RenamedIsIdempotent(column: string)
    ensures Renamed(Renamed(column)) == Renamed(column)
  {
    AliasesAreTargets();
    TargetsAreFixed();
    if HeaderKey(column) in ColumnAliases {
      assert Renamed(column) in TargetColumns;
    }
  }

  /**
   * A file is usable (it has a `symbol` column after normalisation) exactly when
   * one of its headers reads `symbol`, `ticker` or `ticker symbol` up to case and
   * surrounding blanks.
   */
  lemma SymbolHeaderIff(column: string)
    ensures Renamed(column) == "symbol" <==> HeaderKey(column) in ["symbol", "ticker", "ticker symbol"]
  {
    SymbolAliases();
    if HeaderKey(column) !in ColumnAliases {
      SymbolIsFixed();
      assert column != "symbol";
    }
  }

  /** The keys that map to `symbol`. */
  lemma SymbolAliases()
    ensures forall k :: k in ColumnAliases && ColumnAliases[k] == "symbol" <==> k in ["symbol", "ticker", "ticker symbol"]
  {
  }

  // ---------------------------------------------------------------- market capitalisation

  function Pow10(n: nat): (p: nat)
    ensures p >= 1
  {
    if n == 0 then 1 else 10 * Pow10(n - 1)
  }

  /** A possibly empty run of decimal digits. */
  predicate Digits(s: string) {
    forall i :: 0 <= i < |s| ==> IsDigit(s[i])
  }

  /** Digits with at most one decimal point and at least one digit: `12`, `1.5`, `.5`, `3.`. */
  function UnsignedDecimal(t: string): Option<real> {
    var dot := IndexOf(t, '.');
    var whole := if dot.Some? then t[..dot.value] else t;
    var frac := if dot.Some? then t[dot.value + 1..] else "";
    if Digits(whole) && Digits(frac) && |whole| + |frac| >= 1 then
      Some(DigitsValue(whole) as real + DigitsValue(frac) as real / Pow10(|frac|) as real)
    else None
  }

  /**
   * Python's `float(s)` restricted to plain decimal text: surrounding whitespace,
   * an optional sign and an unsigned decimal, read as an exact real. Anything else
   * is `None`, including the exponents, `inf`, `nan` and underscores `float()` accepts.
   */
  function ParseDecimal(s: string): Option<real> {
    var t := Strip(s);
    if t != [] && (t[0] == '+' || t[0] == '-') then
      match UnsignedDecimal(t[1..])
      case None => None
      case Some(x) => Some(if t[0] == '-' then -x else x)
    else UnsignedDecimal(t)
  }

  /** Python's `int(x)` for a float: truncation toward zero. */
  function Truncate(x: real): (n: int)
    ensures 0.0 <= x ==> 0 <= n && n as real <= x < n as real + 1.0
    ensures x < 0.0 ==> n <= 0 && n as real - 1.0 < x <= n as real
  {
    if x >= 0.0 then x.Floor else -((-x).Floor)
  }

  /** `MARKET_CAP_MULTIPLIERS.get(suffix.upper(), 1)`. */
  function Multiplier(suffix: char): (m: nat)
    ensures m in {1, 1_000, 1_000_000, 1_000_000_000, 1_000_000_000_000}
    ensures m != 1 <==> UpperChar(suffix) in "KMBT"
  {
    match UpperChar(suffix)
    case 'K' => 1_000
    case 'M' => 1_000_000
    case 'B' => 1_000_000_000
    case 'T' => 1_000_000_000_000
    case _ => 1
  }

  /** The number times the unit multiplier (exact arithmetic). */
  function Scale(x: real, m: nat): real {
    x * m as real
  }

  /** The spellings of a missing market capitalisation, after stripping. */
  predicate IsMissingText(value: string) {
    value == "" || Lower(value) in {"n/a", "na", "none"}
  }

  function RemoveCommas(s: string): (r: string)
    ensures ',' !in r
    ensures forall c :: c in r <==> c in s && c != ','
  {
    Filter(s, (c: char) => c != ',')
  }

  datatype ParseError = InvalidNumber

  /**
   * `parse_market_cap`: 0 for a missing cell or a missing spelling; otherwise the
   * first character (a currency sign) is dropped, the last one is the unit suffix,
   * commas are removed from what lies between, and the number times the unit's
   * multiplier is truncated to an integer. Text `float()` rejects raises.
   */
  function ParseMarketCap(raw: Option<string>): (r: Result<int, ParseError>)
    ensures raw.None? ==> r == Ok(0)
    ensures raw.Some? && IsMissingText(Strip(raw.value)) ==> r == Ok(0)
    ensures raw.Some? && |Strip(raw.value)| == 1 && !IsMissingText(Strip(raw.value)) ==> r == Err(InvalidNumber)
  {
    if raw.None? then Ok(0) else ParseCapText(Strip(raw.value))
  }

  /** The stripped text of a present cell. */
  function ParseCapText(value: string): Result<int, ParseError> {
    if IsMissingText(value) then Ok(0)
    else if |value| < 2 then Err(InvalidNumber)
    else ScaledNumber(value[1..|value| - 1], value[|value| - 1])
  }

  /** The number between the currency sign and the unit, scaled by the unit. */
  function ScaledNumber(numberPart: string, suffix: char): Result<int, ParseError> {
    match ParseDecimal(RemoveCommas(numberPart))
    case None => Err(InvalidNumber)
    case Some(x) => Ok(Truncate(Scale(x, Multiplier(suffix))))
  }

  /** `float()` reads back a run of digits. */
  lemma DecimalOfDigits(d: string)
    requires AllDigits(d)
    ensures ParseDecimal(d) == Some(DigitsValue(d) as real)
  {
    assert IsDigit(d[0]) && IsDigit(d[|d| - 1]);
    StripOfTrimmed(d);
    assert d[0] != '+' && d[0] != '-';
    UnsignedOfDigits(d);
  }

  /** A run of digits has no decimal point, so it reads as its whole value. */
  lemma UnsignedOfDigits(d: string)
    requires AllDigits(d)
    ensures UnsignedDecimal(d) == Some(DigitsValue(d) as real)
  {
    NoDotInDigits(d);
    assert Digits(d) && Digits("");
  }

  lemma NoDotInDigits(d: string)
    requires AllDigits(d)
    ensures IndexOf(d, '.') == None
  {
    forall i | 0 <= i < |d|
      ensures d[i] != '.'
    {
      assert IsDigit(d[i]);
    }
  }

  /**
   * Reading back a written capitalisation: a non-blank currency sign, a whole number
   * written with or without thousands separators, and a non-blank unit letter give
   * the number times the unit's multiplier (any other last character counts as 1).
   */
  lemma {:induction false} MarketCapRoundTrip(sign: char, middle: string, n: nat, suffix: char)
    requires !IsSpace(sign) && !IsSpace(suffix)
    requires RemoveCommas(middle) == NatToDecimal(n)
    ensures ParseMarketCap(Some([sign] + middle + [suffix])) == Ok(n * Multiplier(suffix))
  {
    assert |middle| >= 1;
    assert middle[0] == ',' || IsDigit(middle[0]) by {
      if middle[0] != ',' {
        assert middle[0] in NatToDecimal(n);
      }
    }
    SplitCapText(sign, middle, suffix);
    ScaledWholeNumber(middle, n, suffix);
  }

  /** A cell of the form sign, number, unit is read as the scaled number. */
  lemma SplitCapText(sign: char, middle: string, suffix: char)
    requires !IsSpace(sign) && !IsSpace(suffix)
    requires |middle| >= 1 && (middle[0] == ',' || middle[0] == '-' || IsDigit(middle[0]))
    ensures ParseMarketCap(Some([sign] + middle + [suffix])) == ScaledNumber(middle, suffix)
  {
    var value := [sign] + middle + [suffix];
    assert value[0] == sign && value[|value| - 1] == suffix;
    StripOfTrimmed(value);
    NotMissing(value);
    assert value[1..|value| - 1] == middle;
    assert ParseCapText(value) == ScaledNumber(middle, suffix);
  }

  /** Text with a digit, a comma or a minus in second place is none of the missing spellings. */
  lemma NotMissing(value: string)
    requires |value| >= 3 && (value[1] == ',' || value[1] == '-' || IsDigit(value[1]))
    ensures !IsMissingText(value)
  {
    assert Lower(value)[1] == LowerChar(value[1]);
    assert "n/a"[1] == '/' && "none"[1] == 'o';
  }

  lemma ScaledWholeNumber(middle: string, n: nat, suffix: char)
    requires RemoveCommas(middle) == NatToDecimal(n)
    ensures ScaledNumber(middle, suffix) == Ok(n * Multiplier(suffix))
  {
    DecimalOfDigits(NatToDecimal(n));
    NatToDecimalValue(n);
    WholeTimesUnit(n, Multiplier(suffix));
  }

  /** A whole number times a unit multiplier is already whole, so truncation keeps it. */
  lemma WholeTimesUnit(n: nat, m: nat)
    requires m in {1, 1_000, 1_000_000, 1_000_000_000, 1_000_000_000_000}
    ensures Truncate(Scale(n as real, m)) == n * m
  {
    if m == 1 {
    } else if m == 1_000 {
      assert n as real * 1000.0 == (n * 1000) as real;
    } else if m == 1_000_000 {
      assert n as real * 1000000.0 == (n * 1000000) as real;
    } else if m == 1_000_000_000 {
      assert n as real * 1000000000.0 == (n * 1000000000) as real;
    } else {
      assert n as real * 1000000000000.0 == (n * 1000000000000) as real;
    }
  }

  /** The value of decimal text with whole digits `a` and fraction digits `b`. */
  function FractionValue(a: string, b: string): real
    requires Digits(a) && Digits(b)
  {
    DigitsValue(a) as real + DigitsValue(b) as real / Pow10(|b|) as real
  }

  /** `float()` reads `a.b` as whole digits plus fraction digits over the matching power of ten. */
  lemma UnsignedOfFraction(a: string, b: string)
    requires AllDigits(a) && Digits(b)
    ensures UnsignedDecimal(a + "." + b) == Some(FractionValue(a, b))
  {
    var t := a + "." + b;
    NoDotInDigits(a);
    assert '.' !in a by {
      forall i | 0 <= i < |a| ensures a[i] != '.' { assert IsDigit(a[i]); }
    }
    IndexOfAfter(a, '.', b);
    assert t[..|a|] == a && t[|a| + 1..] == b;
  }

  /** The text `a.b` starts with a digit and ends with a digit or the point. */
  lemma FractionEnds(a: string, b: string)
    requires AllDigits(a) && Digits(b)
    ensures var u := a + "." + b;
      IsDigit(u[0]) && (u[|u| - 1] == '.' || IsDigit(u[|u| - 1]))
  {
    var u := a + "." + b;
    assert u[0] == a[0];
    if b != [] {
      assert u[|u| - 1] == b[|b| - 1];
    }
  }

  /** The text `a.b` holds no comma. */
  lemma FractionHasNoComma(a: string, b: string)
    requires AllDigits(a) && Digits(b)
    ensures ',' !in a + "." + b
  {
    var u := a + "." + b;
    forall i | 0 <= i < |u|
      ensures u[i] != ','
    {
      if i < |a| {
        assert u[i] == a[i] && IsDigit(a[i]);
      } else if i > |a| {
        assert u[i] == b[i - |a| - 1] && IsDigit(b[i - |a| - 1]);
      }
    }
  }

  /** Unsigned text with nothing around it is read by the unsigned parser alone. */
  lemma ParseUnsignedText(u: string)
    requires u != [] && !IsSpace(u[0]) && !IsSpace(u[|u| - 1]) && u[0] != '+' && u[0] != '-'
    ensures ParseDecimal(u) == UnsignedDecimal(u)
  {
    StripOfTrimmed(u);
  }

  /** A leading minus negates what follows it. */
  lemma ParseNegatedText(u: string, x: real)
    requires u != [] && !IsSpace(u[|u| - 1]) && UnsignedDecimal(u) == Some(x)
    ensures ParseDecimal("-" + u) == Some(-x)
  {
    var t := "-" + u;
    assert t[0] == '-' && t[|t| - 1] == u[|u| - 1];
    StripOfTrimmed(t);
    assert t[1..] == u;
  }

  /** Whatever `float()` reads between sign and unit is what gets scaled. */
  lemma ScaledDecimal(middle: string, y: real, suffix: char)
    requires ParseDecimal(RemoveCommas(middle)) == Some(y)
    ensures ScaledNumber(middle, suffix) == Ok(Truncate(Scale(y, Multiplier(suffix))))
  {
  }

  /** `float("a.b")`. */
  lemma DecimalOfFraction(a: string, b: string)
    requires AllDigits(a) && Digits(b)
    ensures ParseDecimal(a + "." + b) == Some(FractionValue(a, b))
  {
    FractionEnds(a, b);
    ParseUnsignedText(a + "." + b);
    UnsignedOfFraction(a, b);
  }

  /** Comma-free text, not ending in a space, that the unsigned parser reads as `x`. */
  predicate PlainUnsigned(u: string, x: real) {
    ',' !in u && u != [] && !IsSpace(u[|u| - 1]) && UnsignedDecimal(u) == Some(x)
  }

  /** What the sign handling needs to know about the text `a.b`. */
  lemma FractionReads(a: string, b: string)
    requires AllDigits(a) && Digits(b)
    ensures PlainUnsigned(a + "." + b, FractionValue(a, b))
  {
    FractionHasNoComma(a, b);
    FractionEnds(a, b);
    UnsignedOfFraction(a, b);
  }

  /** Unsigned text starting with a digit is scaled as read. */
  lemma ScaledPlain(u: string, x: real, suffix: char)
    requires PlainUnsigned(u, x) && IsDigit(u[0])
    ensures ScaledNumber(u, suffix) == Ok(Truncate(Scale(x, Multiplier(suffix))))
  {
    FilterKeepsAll(u);
    ParseUnsignedText(u);
    ScaledDecimal(u, x, suffix);
  }

  /** A minus in front of unsigned text negates the number before scaling. */
  lemma ScaledNegation(u: string, x: real, suffix: char)
    requires PlainUnsigned(u, x)
    ensures ScaledNumber("-" + u, suffix) == Ok(Truncate(Scale(-x, Multiplier(suffix))))
  {
    assert ',' !in "-" + u;
    FilterKeepsAll("-" + u);
    ParseNegatedText(u, x);
    ScaledDecimal("-" + u, -x, suffix);
  }

  /** A number between sign and unit written `a.b` or `-a.b` (of value `x`), scaled and truncated. */
  lemma ScaledFraction(neg: bool, a: string, b: string, x: real, suffix: char)
    requires AllDigits(a) && Digits(b) && x == FractionValue(a, b)
    ensures ScaledNumber(if neg then "-" + (a + "." + b) else a + "." + b, suffix)
      == Ok(Truncate(Scale(if neg then -x else x, Multiplier(suffix))))
  {
    FractionReads(a, b);
    if neg {
      ScaledNegation(a + "." + b, x, suffix);
    } else {
      FractionEnds(a, b);
      ScaledPlain(a + "." + b, x, suffix);
    }
  }

  /**
   * Reading back a capitalisation written with a decimal point: the signed value
   * `x` of `a.b` times the unit multiplier, truncated toward zero.
   */
  lemma FractionalMarketCap(sign: char, neg: bool, a: string, b: string, x: real, suffix: char)
    requires !IsSpace(sign) && !IsSpace(suffix)
    requires AllDigits(a) && Digits(b) && x == FractionValue(a, b)
    ensures ParseMarketCap(Some([sign] + (if neg then "-" + (a + "." + b) else a + "." + b) + [suffix]))
      == Ok(Truncate(Scale(if neg then -x else x, Multiplier(suffix))))
  {
    var middle := if neg then "-" + (a + "." + b) else a + "." + b;
    FractionEnds(a, b);
    assert middle[0] == '-' || IsDigit(middle[0]);
    SplitCapText(sign, middle, suffix);
    ScaledFraction(neg, a, b, x, suffix);
  }

  /** `$1.5B` is one and a half billion; `$-0.0015K` is -1.5, truncated toward zero to -1. */
  lemma MarketCapExamples()
    ensures ParseMarketCap(Some("$1.5B")) == Ok(1_500_000_000)
    ensures ParseMarketCap(Some("$-0.0015K")) == Ok(-1)
  {
    BillionAndAHalf();
    NegativeFractionTruncates();
  }

  lemma BillionAndAHalf()
    ensures ParseMarketCap(Some("$1.5B")) == Ok(1_500_000_000)
  {
    OneAndAHalf();
    FractionalMarketCap('$', false, "1", "5", 1.5, 'B');
    BillionTimesOneAndAHalf();
  }

  lemma BillionTimesOneAndAHalf()
    ensures Truncate(Scale(1.5, Multiplier('B'))) == 1_500_000_000
  {
    assert Multiplier('B') == 1_000_000_000;
    assert Scale(1.5, 1_000_000_000) == 1_500_000_000.0;
  }

  lemma OneAndAHalf()
    ensures "$1.5B" == ['$'] + ("1" + "." + "5") + ['B']
    ensures FractionValue("1", "5") == 1.5
  {
    assert DigitsValue("1") == 1 && DigitsValue("5") == 5;
  }

  lemma NegativeFractionTruncates()
    ensures ParseMarketCap(Some("$-0.0015K")) == Ok(-1)
  {
    FifteenTenThousandths();
    FractionalMarketCap('$', true, "0", "0015", 0.0015, 'K');
    MinusOneAndAHalf();
  }

  lemma MinusOneAndAHalf()
    ensures Truncate(Scale(-0.0015, Multiplier('K'))) == -1
  {
    assert Multiplier('K') == 1000;
    assert Scale(-0.0015, 1000) == -1.5;
  }

  lemma FifteenTenThousandths()
    ensures "$-0.0015K" == ['$'] + ("-" + ("0" + "." + "0015")) + ['K']
    ensures FractionValue("0", "0015") == 0.0015
  {
    assert "0015"[..3] == "001" && "001"[..2] == "00" && "00"[..1] == "0";
    assert DigitsValue("0015") == 15 && DigitsValue("0") == 0;
    assert Pow10(4) == 10 * Pow10(3) == 100 * Pow10(2) == 1000 * Pow10(1) == 10000;
  }

  /**
   * The last character is always taken as the unit, even when it is a digit: a
   * value written without a unit loses its last digit (`$1000` reads as 100).
   */
  lemma {:induction false} UnitlessValueLosesLastDigit(sign: char, n: nat, d: char)
    requires !IsSpace(sign) && IsDigit(d)
    ensures ParseMarketCap(Some([sign] + NatToDecimal(n) + [d])) == Ok(n)
  {
    var digits := NatToDecimal(n);
    assert RemoveCommas(digits) == digits by {
      FilterKeepsAll(digits);
    }
    DigitIsNoUnit(d);
    MarketCapRoundTrip(sign, digits, n, d);
    assert n * Multiplier(d) == n * 1 == n;
  }

  lemma DigitIsNoUnit(d: char)
    requires IsDigit(d)
    ensures Multiplier(d) == 1
  {
    assert UpperChar(d) == d;
  }

  lemma {:induction false} FilterKeepsAll(s: string)
    requires ',' !in s
    ensures RemoveCommas(s) == s
  {
    if s != [] {
      FilterKeepsAll(s[1..]);
      assert s == [s[0]] + s[1..];
    }
  }

  // ---------------------------------------------------------------- loading the files

  /** One CSV row reindexed to the target columns; an empty or missing cell is `None`. */
  datatype RawRecord = RawRecord(
    symbol: Option<string>,
    companyName: Option<string>,
    sector: Option<string>,
    industry: Option<string>,
    marketCap: Option<string>,
    weightedShares: Option<string>)

  /** A row as it is upserted into `companies`. */
  datatype Company = Company(
    symbol: string,
    companyName: Option<string>,
    sector: Option<string>,
    industry: Option<string>,
    marketCap: int,
    weightedShares: Option<string>)

  /** A CSV file: its header row and its rows projected onto the target columns. */
  datatype CsvFile = CsvFile(header: seq<string>, records: seq<RawRecord>)

  datatype LoadError = NoUsableFiles | InvalidMarketCap

  /** A file is read only when one of its headers normalises to `symbol`. */
  predicate HasSymbolColumn(header: seq<string>) {
    exists i :: 0 <= i < |header| && Renamed(header[i]) == "symbol"
  }

  /** The record lists of the usable files, in file order. */
  function Frames(files: seq<CsvFile>): seq<seq<RawRecord>>
  {
    if files == [] then []
    else
      var last := files[|files| - 1];
      Frames(files[..|files| - 1]) + (if HasSymbolColumn(last.header) then [last.records] else [])
  }

  /** There is no frame exactly when no file has a `symbol` column. */
  lemma {:induction false} FramesEmptyIff(files: seq<CsvFile>)
    ensures Frames(files) == [] <==> forall f :: f in files ==> !HasSymbolColumn(f.header)
  {
    if files != [] {
      var last := files[|files| - 1];
      var init := files[..|files| - 1];
      assert files == init + [last];
      FramesEmptyIff(init);
    }
  }

  /** The identifying key of a company row. */
  function SymbolOf(c: Company): string { c.symbol }

  predicate HasSymbol(r: RawRecord) { r.symbol.Some? }

  function StripCell(cell: Option<string>): Option<string> {
    match cell
    case None => None
    case Some(s) => Some(Strip(s))
  }

  /** The key a loaded row ends up with. */
  function CleanSymbol(x: RawRecord): string
    requires HasSymbol(x)
  {
    Upper(Strip(x.symbol.value))
  }

  /** The column-wise cleaning of one row that has a symbol. */
  function CleanRecord(r: RawRecord): (c: Result<Company, LoadError>)
    requires HasSymbol(r)
    ensures c.Ok? <==> ParseMarketCap(r.marketCap).Ok?
    ensures c.Ok? ==> c.value.symbol == CleanSymbol(r) && c.value.marketCap == ParseMarketCap(r.marketCap).value
    ensures c.Err? ==> c.error == InvalidMarketCap
  {
    match ParseMarketCap(r.marketCap)
    case Err(_) => Err(InvalidMarketCap)
    case Ok(cap) =>
      Ok(Company(CleanSymbol(r), StripCell(r.companyName), StripCell(r.sector),
                 StripCell(r.industry), cap, r.weightedShares))
  }

  /** Whether a row's market capitalisation parses. */
  predicate CapParses(x: RawRecord) {
    ParseMarketCap(x.marketCap).Ok?
  }

  /**
   * Cleaning every row: the column conversion raises on the first market
   * capitalisation that does not parse, otherwise each row is cleaned in place.
   */
  function CleanAll(rows: seq<RawRecord>): (r: Result<seq<Company>, LoadError>)
    requires forall x :: x in rows ==> HasSymbol(x)
    ensures r.Ok? <==> forall x :: x in rows ==> CapParses(x)
    ensures r.Err? ==> r.error == InvalidMarketCap
    ensures r.Ok? ==> |r.value| == |rows|
    ensures r.Ok? ==> forall i :: 0 <= i < |rows| ==> CleanRecord(rows[i]).Ok? && r.value[i] == CleanRecord(rows[i]).value
  {
    if forall x :: x in rows ==> CapParses(x) then
      assert forall i :: 0 <= i < |rows| ==> rows[i] in rows;
      Ok(seq(|rows|, i requires 0 <= i < |rows| => CleanRecord(rows[i]).value))
    else Err(InvalidMarketCap)
  }

  /** The keys of the elements of `s`. */
  function Keys<T(==)>(s: seq<T>, key: T -> string): set<string> {
    set x | x in s :: key(x)
  }

  /** No later element of `s` has the key of `s[i]`. */
  predicate IsLastOf<T>(s: seq<T>, i: int, key: T -> string)
    requires 0 <= i < |s|
  {
    forall j :: i < j < |s| ==> key(s[j]) != key(s[i])
  }

  /** `drop_duplicates(subset=[key], keep="last")`: only the last element of each key survives. */
  function KeepLast<T(==)>(s: seq<T>, key: T -> string): (r: seq<T>)
    ensures forall x :: x in r ==> x in s
  {
    if s == [] then []
    else
      var rest := KeepLast(s[1..], key);
      if key(s[0]) in Keys(s[1..], key) then rest else [s[0]] + rest
  }

  /** No two elements of `r` share a key. */
  predicate DistinctKeys<T>(r: seq<T>, key: T -> string) {
    forall i, j :: 0 <= i < j < |r| ==> key(r[i]) != key(r[j])
  }

  /** After `KeepLast` no two elements share a key. */
  lemma {:induction false} KeepLastDistinct<T>(s: seq<T>, key: T -> string)
    ensures DistinctKeys(KeepLast(s, key), key)
  {
    if s != [] {
      KeepLastDistinct(s[1..], key);
      var rest := KeepLast(s[1..], key);
      if key(s[0]) !in Keys(s[1..], key) {
        forall x | x in rest
          ensures key(x) != key(s[0])
        {
          assert key(x) in Keys(s[1..], key);
        }
        var r := [s[0]] + rest;
        assert KeepLast(s, key) == r;
        forall i, j | 0 <= i < j < |r|
          ensures key(r[i]) != key(r[j])
        {
          assert r[j] == rest[j - 1] && rest[j - 1] in rest;
          if i > 0 {
            assert r[i] == rest[i - 1];
          } else {
            assert r[i] == s[0];
          }
        }
      }
    }
  }

  /** The last element of each key is the one kept. */
  lemma {:induction false} KeepLastKeepsLast<T>(s: seq<T>, key: T -> string, i: int)
    requires 0 <= i < |s| && IsLastOf(s, i, key)
    ensures s[i] in KeepLast(s, key)
  {
    if i == 0 {
      forall x | x in s[1..]
        ensures key(x) != key(s[0])
      {
        var j :| 0 <= j < |s[1..]| && s[1..][j] == x;
        assert s[j + 1] == x;
      }
      assert key(s[0]) !in Keys(s[1..], key);
    } else {
      assert IsLastOf(s[1..], i - 1, key) by {
        forall j | i - 1 < j < |s[1..]| ensures key(s[1..][j]) != key(s[1..][i - 1]) {
          assert s[1..][j] == s[j + 1];
        }
      }
      KeepLastKeepsLast(s[1..], key, i - 1);
    }
  }

  /** No key is lost. */
  lemma {:induction false} KeepLastKeys<T>(s: seq<T>, key: T -> string)
    ensures Keys(KeepLast(s, key), key) == Keys(s, key)
  {
    if s != [] {
      KeepLastKeys(s[1..], key);
      var rest := KeepLast(s[1..], key);
      assert s == [s[0]] + s[1..];
      assert Keys(s, key) == {key(s[0])} + Keys(s[1..], key);
      if key(s[0]) !in Keys(s[1..], key) {
        assert Keys([s[0]] + rest, key) == {key(s[0])} + Keys(rest, key);
      }
    }
  }

  /** The rows of the usable files that carry a symbol, in file order. */
  function UsableRows(files: seq<CsvFile>): (rows: seq<RawRecord>)
    ensures forall x :: x in rows ==> HasSymbol(x)
  {
    Filter(Batching.Flatten(Frames(files)), HasSymbol)
  }

  /**
   * `load_data_frames`: the records of the usable files, rows without a symbol
   * dropped, each row cleaned (symbol stripped and upper-cased, names stripped,
   * market capitalisation parsed), then one row per symbol, the last one.
   */
  function Loaded(files: seq<CsvFile>): Result<seq<Company>, LoadError> {
    var frames := Frames(files);
    if frames == [] then Err(NoUsableFiles)
    else
      match CleanAll(UsableRows(files))
      case Err(e) => Err(e)
      case Ok(cleaned) => Ok(KeepLast(cleaned, SymbolOf))
  }

  /** Loading fails with `NoUsableFiles` exactly when no file has a `symbol` column. */
  lemma LoadedNoUsableFiles(files: seq<CsvFile>)
    ensures Loaded(files) == Err(NoUsableFiles) <==> forall f :: f in files ==> !HasSymbolColumn(f.header)
  {
    FramesEmptyIff(files);
    if Frames(files) != [] {
      assert CleanAll(UsableRows(files)) != Err(NoUsableFiles);
    }
  }

  /** Loading fails with `InvalidMarketCap` exactly when a usable row's capitalisation does not parse. */
  lemma LoadedInvalidMarketCap(files: seq<CsvFile>)
    ensures Loaded(files) == Err(InvalidMarketCap) <==>
      Frames(files) != [] && exists x :: x in UsableRows(files) && ParseMarketCap(x.marketCap).Err?
  {
    if Frames(files) != [] {
      var cleaned := CleanAll(UsableRows(files));
      assert cleaned.Err? ==> cleaned.error == InvalidMarketCap;
    }
  }

  /** A successful load has one row per symbol. */
  lemma LoadedDistinct(files: seq<CsvFile>)
    requires Loaded(files).Ok?
    ensures DistinctKeys(Loaded(files).value, SymbolOf)
  {
    KeepLastDistinct(CleanAll(UsableRows(files)).value, SymbolOf);
  }

  /** The keys of the cleaned rows are the cleaned symbols of the raw rows. */
  lemma CleanAllKeys(rows: seq<RawRecord>)
    requires forall x :: x in rows ==> HasSymbol(x)
    requires CleanAll(rows).Ok?
    ensures Keys(CleanAll(rows).value, SymbolOf) == set x | x in rows :: CleanSymbol(x)
  {
    CleanedKeysAreCleanSymbols(rows);
    CleanSymbolsAreCleanedKeys(rows);
  }

  lemma CleanedKeysAreCleanSymbols(rows: seq<RawRecord>)
    requires forall x :: x in rows ==> HasSymbol(x)
    requires CleanAll(rows).Ok?
    ensures Keys(CleanAll(rows).value, SymbolOf) <= set x | x in rows :: CleanSymbol(x)
  {
    var cleaned := CleanAll(rows).value;
    forall k | k in Keys(cleaned, SymbolOf)
      ensures exists x :: x in rows && CleanSymbol(x) == k
    {
      var i :| 0 <= i < |cleaned| && SymbolOf(cleaned[i]) == k;
      assert rows[i] in rows;
    }
  }

  lemma CleanSymbolsAreCleanedKeys(rows: seq<RawRecord>)
    requires forall x :: x in rows ==> HasSymbol(x)
    requires CleanAll(rows).Ok?
    ensures (set x | x in rows :: CleanSymbol(x)) <= Keys(CleanAll(rows).value, SymbolOf)
  {
    var cleaned := CleanAll(rows).value;
    forall x | x in rows
      ensures CleanSymbol(x) in Keys(cleaned, SymbolOf)
    {
      var i :| 0 <= i < |rows| && rows[i] == x;
      assert cleaned[i] in cleaned;
    }
  }

  /** A successful load keeps every cleaned symbol of the usable rows, and no other. */
  lemma LoadedKeys(files: seq<CsvFile>)
    requires Loaded(files).Ok?
    ensures Keys(Loaded(files).value, SymbolOf) == set x | x in UsableRows(files) :: CleanSymbol(x)
  {
    var rows := UsableRows(files);
    var cleaned := CleanAll(rows).value;
    assert Loaded(files) == Ok(KeepLast(cleaned, SymbolOf));
    KeepLastKeys(cleaned, SymbolOf);
    CleanAllKeys(rows);
  }

  /** Whether a file is read: its normalised header contains `symbol`. */
  method IsUsable(file: CsvFile) returns (usable: bool)
    ensures usable == HasSymbolColumn(file.header)
  {
    var normalized := NormalizeColumns(file.header);
    usable := "symbol" in normalized;
    if usable {
      var k :| 0 <= k < |normalized| && normalized[k] == "symbol";
      assert Renamed(file.header[k]) == "symbol";
    } else {
      forall k | 0 <= k < |file.header|
        ensures Renamed(file.header[k]) != "symbol"
      {
        assert normalized[k] in normalized;
      }
    }
  }

  /** The loop over the files of `load_data_frames` and the column steps after it. */
  method LoadDataFrames(files: seq<CsvFile>) returns (r: Result<seq<Company>, LoadError>)
    ensures r == Loaded(files)
  {
    var frames: seq<seq<RawRecord>> := [];
    for i := 0 to |files|
      invariant frames == Frames(files[..i])
    {
      var usable := IsUsable(files[i]);
      assert files[..i + 1][..i] == files[..i];
      if !usable {
        continue;
      }
      frames := frames + [files[i].records];
    }
    assert files[..|files|] == files;
    if frames == [] {
      return Err(NoUsableFiles);
    }
    var combined := Batching.Flatten(frames);
    var rows := Filter(combined, HasSymbol);
    var cleaned := CleanAll(rows);
    if cleaned.Err? {
      return Err(cleaned.error);
    }
    r := Ok(KeepLast(cleaned.value, SymbolOf));
  }

  /** `[col for col in TARGET_COLUMNS if col != "symbol"]`: what an upsert overwrites. */
  function UpdatableColumns(): (r: seq<string>)
    ensures "symbol" !in r
    ensures forall c :: c in TargetColumns && c != "symbol" ==> c in r
    ensures forall c :: c in r ==> c in TargetColumns
  {
    Filter(TargetColumns, (c: string) => c != "symbol")
  }
}
