/** The valuation pipeline of data_processor.py: column normalisation, cell
    coercion, the two temperature rules, advice, the row filters and the
    three-key sort of `process_lixingren_csv`. */
module DataProcessor {
  import opened Cells
  import opened Tables

  // ------------------------------------------------------ column normalisation

  /** `column_mapping`: vendor header variants and their canonical names. */
  const ColumnMapping: map<string, string> := map[
    "指数名称" := "指数名称", "指数" := "指数名称", "name" := "指数名称",
    "PE" := "PE", "市盈率" := "PE", "pe" := "PE", "PE-TTM(当前值)" := "PE",
    "PB" := "PB", "市净率" := "PB", "pb" := "PB",
    "PE分位点" := "PE分位点", "PB分位点" := "PB分位点",
    "PE-TTM(分位点%)" := "PE分位点", "PB(分位点%)" := "PB分位点"]

  const CanonicalNames: set<string> := {"指数名称", "PE", "PB", "PE分位点", "PB分位点"}

  /** `df.rename(columns={k: v for k, v in column_mapping.items() if k in df.columns})`. */
  function RenameColumns(columns: seq<string>): (r: seq<string>)
    ensures |r| == |columns|
    ensures forall i :: 0 <= i < |columns| && columns[i] in ColumnMapping ==>
              r[i] == ColumnMapping[columns[i]] && r[i] in CanonicalNames
    ensures forall i :: 0 <= i < |columns| && columns[i] !in ColumnMapping ==> r[i] == columns[i]
  {
    RenameLabels(columns, map k | k in ColumnMapping && k in columns :: ColumnMapping[k])
  }

  /** Every canonical name is an alias of itself. */
  lemma CanonicalNamesAreFixed()
    ensures forall k :: k in ColumnMapping ==> ColumnMapping[k] in CanonicalNames
    ensures forall c :: c in CanonicalNames ==> c in ColumnMapping && ColumnMapping[c] == c
  {
  }

  /** Renaming twice is renaming once. */
  lemma RenameIdempotent(columns: seq<string>)
    ensures RenameColumns(RenameColumns(columns)) == RenameColumns(columns)
  {
    CanonicalNamesAreFixed();
    var once := RenameColumns(columns);
    var twice := RenameColumns(once);
    forall i | 0 <= i < |columns|
      ensures twice[i] == once[i]
    {
      if columns[i] in ColumnMapping {
        assert once[i] in CanonicalNames;
      }
    }
  }

  // ------------------------------------------------------------ cell coercion

  /** A text with its one leading '=' (a spreadsheet formula sign) removed. */
  function WithoutEquals(s: string): (r: string)
    ensures StartsWith(s, '=') ==> s == "=" + r
    ensures !StartsWith(s, '=') ==> r == s
  {
    if StartsWith(s, '=') then s[1..] else s
  }

  /** `process_quantile`: a percentile cell as a fraction. `None` when the
      `ValueError` of `float()` in the percent branch escapes. */
  function ProcessQuantile(parse: string -> Option<real>, quantile: Cell): (r: Option<real>)
    ensures quantile.Missing? || quantile == Text("-") || quantile == Text("") ==> r == Some(0.0)
    ensures quantile.Num? ==>
              r.Some? && (if quantile.v > 1.0 then r.value * 100.0 == quantile.v else r.value == quantile.v)
    ensures r.None? ==> quantile.Text? && '%' in quantile.s
    ensures quantile.Text? && '%' in quantile.s ==>
              var digits := RemoveAll(WithoutEquals(quantile.s), '%');
              (r.None? <==> parse(digits).None?) &&
              (r.Some? ==> r.value * 100.0 == parse(digits).value)
    ensures quantile.Text? && quantile.s != "-" && quantile.s != "" && '%' !in quantile.s ==>
              r == Some(match parse(WithoutEquals(quantile.s)) case Some(x) => x case None => 0.0)
  {
    match quantile
    case Missing => Some(0.0)
    case Text(s) =>
      if s == "-" || s == "" then Some(0.0)
      else
        var q := WithoutEquals(s);
        if '%' in q then
          (match parse(RemoveAll(q, '%'))
           case Some(x) => Some(x / 100.0)
           case None => None)
        else
          (match parse(q)
           case Some(x) => Some(x)
           case None => Some(0.0))
    case Num(v) => Some(if v > 1.0 then v / 100.0 else v)
  }

  /** Exactly one leading '=' is transparent. */
  lemma QuantileEqualsPrefix(parse: string -> Option<real>, s: string)
    requires s != "" && s != "-" && !StartsWith(s, '=')
    ensures ProcessQuantile(parse, Text("=" + s)) == ProcessQuantile(parse, Text(s))
  {
    assert ("=" + s)[1..] == s;
  }

  /** A whole-number percentile above 1 and the same value as a fraction agree. */
  lemma WholePercentMatchesFraction(parse: string -> Option<real>, p: real)
    requires 1.0 < p <= 100.0
    ensures ProcessQuantile(parse, Num(p)) == ProcessQuantile(parse, Num(p / 100.0))
  {
  }

  lemma RemoveTrailingPercent(s: string)
    requires '%' !in s
    ensures '%' in s + "%" && RemoveAll(s + "%", '%') == s
  {
    RemoveAllAppend(s, "%", '%');
    RemoveAllAbsent(s, '%');
    assert RemoveAll("%", '%') == [];
    assert (s + "%")[|s|] == '%';
  }

  /** "p%" and the number p (when p > 1) give the same fraction. */
  lemma PercentTextMatchesNumber(parse: string -> Option<real>, s: string, p: real)
    requires parse(s) == Some(p) && p > 1.0
    requires s != "" && !StartsWith(s, '=') && '%' !in s
    ensures ProcessQuantile(parse, Text(s + "%")) == ProcessQuantile(parse, Num(p))
  {
    RemoveTrailingPercent(s);
    assert (s + "%")[0] == s[0];
  }

  /** The numeric branch does not clamp to [0, 1]: 120 gives 1.2. */
  lemma QuantileUnclamped(parse: string -> Option<real>)
    ensures ProcessQuantile(parse, Num(120.0)) == Some(1.2)
    ensures ProcessQuantile(parse, Num(45.0)) == Some(0.45)
    ensures ProcessQuantile(parse, Num(0.3)) == Some(0.3)
  {
  }

  /** `process_attention`: the sort key of the attention column. */
  function ProcessAttention(parse: string -> Option<real>, x: Cell): (r: real)
    ensures !x.Text? ==> r == 0.0
    ensures x == Text("-") || x == Text("") ==> r == 0.0
    ensures x.Text? && x.s != "-" && x.s != "" ==>
              r == match parse(Cleaned(x.s)) case Some(v) => v case None => 0.0
  {
    match x
    case Text(s) =>
      if s == "-" || s == "" then 0.0
      else
        (match parse(Cleaned(s))
         case Some(v) => v
         case None => 0.0)
    case _ => 0.0
  }

  /** The text `process_attention` hands to `float()`: '=' and ',' removed. */
  function Cleaned(s: string): string {
    RemoveAll(RemoveAll(s, '='), ',')
  }

  /** The characters `Cleaned` keeps. */
  function Kept(): char -> bool {
    (x: char) => x != '=' && x != ','
  }

  /** `Cleaned` keeps exactly the characters other than '=' and ',', in order. */
  lemma CleanedFilters(s: string)
    ensures Cleaned(s) == Filter(s, Kept())
  {
    RemoveAllFilters(s, '=');
    RemoveAllFilters(RemoveAll(s, '='), ',');
    FilterTwice(s, Other('='), Other(','), Kept());
  }

  lemma CleanedAppend(a: string, b: string)
    ensures Cleaned(a + b) == Cleaned(a) + Cleaned(b)
  {
    RemoveAllAppend(a, b, '=');
    RemoveAllAppend(RemoveAll(a, '='), RemoveAll(b, '='), ',');
  }

  lemma CleanedSeparator(sep: char)
    requires sep == ',' || sep == '='
    ensures Cleaned([sep]) == []
  {
    assert [sep][1..] == [];
    if sep == ',' {
      assert RemoveAll([sep], '=') == [sep];
    } else {
      assert RemoveAll([sep], '=') == [];
    }
  }

  /** The cleaned text of an attention value does not see an inserted separator. */
  lemma CleanedIgnoresSeparator(a: string, b: string, sep: char)
    requires sep == ',' || sep == '='
    ensures Cleaned(a + [sep] + b) == Cleaned(a + b)
  {
    CleanedAppend(a + [sep], b);
    CleanedAppend(a, [sep]);
    CleanedAppend(a, b);
    CleanedSeparator(sep);
    assert Cleaned(a) + [] == Cleaned(a);
  }

  /** '=' and ',' anywhere in an attention value are ignored. */
  lemma AttentionIgnoresSeparators(parse: string -> Option<real>, a: string, b: string, sep: char)
    requires sep == ',' || sep == '='
    requires a + b != "-" && a + b != ""
    ensures ProcessAttention(parse, Text(a + [sep] + b)) == ProcessAttention(parse, Text(a + b))
  {
    CleanedIgnoresSeparator(a, b, sep);
    assert |a + [sep] + b| == |a + b| + 1;
    assert a + [sep] + b != "-" && a + [sep] + b != "";
  }

  // ------------------------------------------------------------ temperature

  /** The integer nearest to `y`, ties to the even one (Python's `round`). */
  function RoundHalfEven(y: real): (n: int)
    ensures y - 0.5 <= n as real <= y + 0.5
    ensures (n as real) - y == 0.5 || (n as real) - y == -0.5 ==> n % 2 == 0
  {
    var k := y.Floor;
    var frac := y - k as real;
    if frac < 0.5 then k else if frac > 0.5 then k + 1 else if k % 2 == 0 then k else k + 1
  }

  /** Python's `round(x, 1)` on the exact value: the nearest multiple of 0.1,
      ties to the even multiple. */
  function Round1(x: real): (r: real)
    ensures x - 0.05 <= r <= x + 0.05
    ensures (r * 10.0).Floor as real == r * 10.0
  {
    var n := RoundHalfEven(x * 10.0);
    assert n as real / 10.0 * 10.0 == n as real;
    n as real / 10.0
  }

  /** Rounding keeps a value in [0, 100] inside [0, 100]. */
  lemma Round1InRange(x: real)
    requires 0.0 <= x <= 100.0
    ensures 0.0 <= Round1(x) <= 100.0
  {
    var r := Round1(x);
    var n := (r * 10.0).Floor;
    assert n as real == r * 10.0;
    assert -0.5 <= n as real <= 1000.5;
  }

  /** A value with one decimal is rounded to itself. */
  lemma Round1Exact(n: int)
    ensures Round1(n as real / 10.0) == n as real / 10.0
  {
    var x := n as real / 10.0;
    assert x * 10.0 == n as real;
    assert (x * 10.0).Floor == n;
  }

  /** The percentile rule (data_processor.py:128-132): industry indices use the
      PB percentile alone, all others the mean of PE and PB; rounded. */
  function QuantileTemperature(industry: bool, pe: real, pb: real): (t: real)
    ensures industry ==> t == Round1(pb * 100.0)
    ensures !industry ==> t == Round1((pe + pb) / 2.0 * 100.0)
  {
    Round1(if industry then pb * 100.0 else (pe + pb) / 2.0 * 100.0)
  }

  /** Fractional percentiles give a temperature in [0, 100]. */
  lemma QuantileTemperatureInRange(industry: bool, pe: real, pb: real)
    requires 0.0 <= pe <= 1.0 && 0.0 <= pb <= 1.0
    ensures 0.0 <= QuantileTemperature(industry, pe, pb) <= 100.0
  {
    Round1InRange(if industry then pb * 100.0 else (pe + pb) / 2.0 * 100.0);
  }

  lemma QuantileTemperatureExamples()
    ensures QuantileTemperature(true, 0.4, 0.6) == 60.0
    ensures QuantileTemperature(false, 0.2, 0.4) == 30.0
  {
    Round1Exact(600);
    assert 0.6 * 100.0 == 600 as real / 10.0;
    Round1Exact(300);
    assert (0.2 + 0.4) / 2.0 * 100.0 == 300 as real / 10.0;
  }

  /** The divisors of the log scaling are non-zero. */
  predicate LogScaleDefined(log10: real -> real) {
    log10(51.0) != 0.0 && log10(10.5) != 0.0
  }

  const DefaultPE: real := 15.0
  const DefaultPB: real := 1.5

  function PeTemperature(log10: real -> real, pe: real): real
    requires LogScaleDefined(log10)
  {
    if pe <= 0.0 then 0.0 else if pe > 50.0 then 95.0 else log10(pe + 1.0) / log10(51.0) * 95.0
  }

  function PbTemperature(log10: real -> real, pb: real): real
    requires LogScaleDefined(log10)
  {
    if pb <= 0.0 then 0.0 else if pb > 10.0 then 95.0 else log10(pb + 0.5) / log10(10.5) * 95.0
  }

  /** `calculate_fund_temperature`: the estimator used when the export has no
      percentile columns. `None` when a text cell reaches a numeric comparison
      (the `TypeError` escapes). */
  function CalculateFundTemperature(log10: real -> real, pe: Cell, pb: Cell): (r: Option<real>)
    requires LogScaleDefined(log10)
    ensures pe.Missing? || pb.Missing? ==> r == Some(50.0)
    ensures r.None? <==> !pe.Missing? && !pb.Missing? && (pe.Text? || pb.Text?)
    ensures pe.Num? && pb.Num? ==> r == Some(Round1(PeTemperature(log10, pe.v) * 0.5 + PbTemperature(log10, pb.v) * 0.5))
  {
    if pe.Missing? || pb.Missing? then Some(50.0)
    else if !pe.Num? then None
    else
      var peTemp := PeTemperature(log10, pe.v);
      if !pb.Num? then None
      else
        var pbTemp := PbTemperature(log10, pb.v);
        Some(Round1(peTemp * 0.5 + pbTemp * 0.5))
  }

  /** Both ratios above their caps give 95.0; both non-positive give 0.0. */
  lemma FallbackExtremes(log10: real -> real, pe: real, pb: real)
    requires LogScaleDefined(log10)
    ensures pe > 50.0 && pb > 10.0 ==> CalculateFundTemperature(log10, Num(pe), Num(pb)) == Some(95.0)
    ensures pe <= 0.0 && pb <= 0.0 ==> CalculateFundTemperature(log10, Num(pe), Num(pb)) == Some(0.0)
  {
    Round1Exact(950);
    assert 950 as real / 10.0 == 95.0 * 0.5 + 95.0 * 0.5;
    Round1Exact(0);
  }

  /** `log10` is strictly increasing, zero at 1 and positive at 10.5 and 51. */
  ghost predicate LogLike(log10: real -> real) {
    && log10(1.0) == 0.0 && log10(51.0) > 0.0 && log10(10.5) > 0.0
    && forall x, y :: 0.0 < x < y ==> log10(x) < log10(y)
  }

  lemma QuotientAtMostOne(x: real, y: real)
    requires 0.0 < y && x <= y
    ensures x / y <= 1.0
  {
  }

  lemma ScaledLogAtMost(log10: real -> real, x: real, top: real)
    requires LogLike(log10) && 0.0 < x <= top && log10(top) > 0.0
    ensures log10(x) / log10(top) * 95.0 <= 95.0
  {
    assert log10(x) <= log10(top);
    QuotientAtMostOne(log10(x), log10(top));
  }

  lemma ScaledLogAtLeastZero(log10: real -> real, x: real, top: real)
    requires LogLike(log10) && 1.0 <= x && log10(top) > 0.0
    ensures 0.0 <= log10(x) / log10(top) * 95.0
  {
    assert 0.0 <= log10(x);
  }

  /** Rounding to one decimal keeps a value at most 95 at most 95. */
  lemma Round1AtMost95(x: real)
    requires x <= 95.0
    ensures Round1(x) <= 95.0
  {
    var n := (Round1(x) * 10.0).Floor;
    assert n as real <= 950.5;
  }

  /** Rounding to one decimal keeps a non-negative value non-negative. */
  lemma Round1NonNegative(x: real)
    requires 0.0 <= x
    ensures 0.0 <= Round1(x)
  {
    var n := (Round1(x) * 10.0).Floor;
    assert -0.5 <= n as real;
  }

  lemma PeTemperatureInBand(log10: real -> real, pe: real)
    requires LogLike(log10)
    ensures 0.0 <= PeTemperature(log10, pe) <= 95.0
  {
    if 0.0 < pe <= 50.0 {
      ScaledLogAtMost(log10, pe + 1.0, 51.0);
      ScaledLogAtLeastZero(log10, pe + 1.0, 51.0);
    }
  }

  lemma PbTemperatureInBand(log10: real -> real, pb: real)
    requires LogLike(log10)
    ensures PbTemperature(log10, pb) <= 95.0
    ensures !(0.0 < pb < 0.5) ==> 0.0 <= PbTemperature(log10, pb)
  {
    if 0.0 < pb <= 10.0 {
      ScaledLogAtMost(log10, pb + 0.5, 10.5);
      if pb >= 0.5 { ScaledLogAtLeastZero(log10, pb + 0.5, 10.5); }
    }
  }

  /** With a genuine logarithm the estimator never exceeds 95, and it is
      non-negative unless PB lies strictly between 0 and 0.5. */
  lemma FallbackInRange(log10: real -> real, pe: Cell, pb: Cell)
    requires LogLike(log10)
    ensures var r := CalculateFundTemperature(log10, pe, pb);
              r.Some? ==> r.value <= 95.0 && ((pb.Num? && 0.0 < pb.v < 0.5) || 0.0 <= r.value)
  {
    if pe.Num? && pb.Num? {
      PeTemperatureInBand(log10, pe.v);
      PbTemperatureInBand(log10, pb.v);
      var t := PeTemperature(log10, pe.v) * 0.5 + PbTemperature(log10, pb.v) * 0.5;
      Round1AtMost95(t);
      if !(0.0 < pb.v < 0.5) {
        Round1NonNegative(t);
      }
    }
  }

  /** For 0 < PB < 0.5 the PB term `log10(pb + 0.5)` is negative, so the
      estimator leaves the 0-95 band its comments describe. */
  lemma PbTemperatureNegative(log10: real -> real, pb: real)
    requires LogLike(log10) && 0.0 < pb < 0.5
    ensures PbTemperature(log10, pb) < 0.0
  {
    assert log10(pb + 0.5) < log10(1.0);
    var q := log10(pb + 0.5) / log10(10.5);
    assert q * log10(10.5) == log10(pb + 0.5);
  }

  // ------------------------------------------------------------ advice

  datatype Advice = Undervalued | NormalLow | NormalHigh | Overvalued {
    /** The text written to the 投资建议 column. */
    function Text(): string {
      match this
      case Undervalued => "低估区域，可考虑定投"
      case NormalLow => "正常偏低，可继续持有"
      case NormalHigh => "正常偏高，注意风险"
      case Overvalued => "高估区域，考虑减仓"
    }

    function Level(): nat {
      match this
      case Undervalued => 0
      case NormalLow => 1
      case NormalHigh => 2
      case Overvalued => 3
    }
  }

  /** `get_advice`: fixed bands, each boundary in the higher band. */
  function GetAdvice(temp: real): (a: Advice)
    ensures a == Undervalued <==> temp < 30.0
    ensures a == NormalLow <==> 30.0 <= temp < 50.0
    ensures a == NormalHigh <==> 50.0 <= temp < 70.0
    ensures a == Overvalued <==> 70.0 <= temp
  {
    if temp < 30.0 then Undervalued
    else if temp < 50.0 then NormalLow
    else if temp < 70.0 then NormalHigh
    else Overvalued
  }

  /** A hotter index never gets a cooler advice. */
  lemma AdviceMonotone(t1: real, t2: real)
    requires t1 <= t2
    ensures GetAdvice(t1).Level() <= GetAdvice(t2).Level()
  {
  }

  lemma AdviceExamples()
    ensures GetAdvice(60.0) == NormalHigh && GetAdvice(30.0) == NormalLow
    ensures GetAdvice(29.9) == Undervalued && GetAdvice(70.0) == Overvalued
  {
  }

  // ------------------------------------------------------------ row filters

  predicate HasQuantiles(header: seq<string>) {
    "PE分位点" in header && "PB分位点" in header
  }

  /** One percentile cell passes the mask of data_processor.py:162-171: not
      '-', not NaN, not '0' or '0%', and (for numeric columns) not 0. */
  predicate QuantileCellValid(c: Cell, numericColumns: bool) {
    && c != Text("-")
    && !c.Missing?
    && c != Text("0") && c != Text("0%")
    && (numericColumns ==> c != Num(0.0))
  }

  /** `valid_quantiles` of one row. */
  predicate QuantilesValid(header: seq<string>, row: seq<Cell>, numericColumns: bool) {
    QuantileCellValid(Get(header, row, "PE分位点"), numericColumns) &&
    QuantileCellValid(Get(header, row, "PB分位点"), numericColumns)
  }

  // ------------------------------------------------------------ rows

  /** A row with its 基金温度 and 投资建议. */
  datatype Rated = Rated(cells: seq<Cell>, temperature: real, advice: string)

  /** A rated row with its 关注度数值, 类别 and 类别排序. */
  datatype Ranked = Ranked(rated: Rated, attention: real, category: Cell, rank: nat)

  /** The temperature of one row under the rule the header selects; `None`
      when an exception escapes. */
  function RowTemperature(header: seq<string>, row: seq<Cell>, env: Env): Option<real>
    requires LogScaleDefined(env.log10)
  {
    if HasQuantiles(header) then
      match (ProcessQuantile(env.parseFloat, Get(header, row, "PE分位点")),
             ProcessQuantile(env.parseFloat, Get(header, row, "PB分位点")))
      case (Some(pe), Some(pb)) =>
        if "指数名称" in header
        then Some(QuantileTemperature(env.isIndustry(Get(header, row, "指数名称")), pe, pb))
        else None
      case _ => None
    else
      CalculateFundTemperature(env.log10,
        if "PE" in header then Get(header, row, "PE") else Num(DefaultPE),
        if "PB" in header then Get(header, row, "PB") else Num(DefaultPB))
  }

  /** One row of the 基金温度 and 投资建议 assignments: the row keeps its cells and
      gains its temperature and the advice of that temperature. */
  function RateRow(header: seq<string>, row: seq<Cell>, env: Env): (r: Option<Rated>)
    requires LogScaleDefined(env.log10)
    ensures r.None? <==> RowTemperature(header, row, env).None?
    ensures r.Some? ==> r.value.cells == row && r.value.temperature == RowTemperature(header, row, env).value
    ensures r.Some? ==> r.value.advice == GetAdvice(r.value.temperature).Text()
  {
    match RowTemperature(header, row, env)
    case Some(t) => Some(Rated(row, t, GetAdvice(t).Text()))
    case None => None
  }

  /** The row-wise `apply` computing 基金温度 and 投资建议. */
  function RowRater(header: seq<string>, env: Env): seq<Cell> -> Option<Rated>
    requires LogScaleDefined(env.log10)
  {
    (row: seq<Cell>) => RateRow(header, row, env)
  }

  function QuantileFilter(header: seq<string>, numericColumns: bool): Rated -> bool {
    (r: Rated) => QuantilesValid(header, r.cells, numericColumns)
  }

  predicate NonZeroTemperature(r: Rated) {
    r.temperature != 0.0
  }

  /** The rows left by the percentile mask (when the columns exist) and the
      temperature mask. */
  function Survivors(header: seq<string>, rated: seq<Rated>, numericColumns: bool): seq<Rated> {
    var q := if HasQuantiles(header) then Filter(rated, QuantileFilter(header, numericColumns)) else rated;
    Filter(q, NonZeroTemperature)
  }

  const CategoryOrder: seq<string> := ["大盘", "小盘", "策略", "行业", "主题", "海外", "其他"]

  function IndexOf(s: seq<string>, x: string): (r: nat)
    ensures r <= |s|
    ensures r < |s| ==> s[r] == x
    ensures forall k :: 0 <= k < r ==> s[k] != x
  {
    if s == [] then 0 else if s[0] == x then 0 else IndexOf(s[1..], x) + 1
  }

  /** `df['类别'].map({cat: idx ...})`: the position in the fixed order; an
      unknown category maps to NaN, which the sort places after all of them. */
  function CategoryRank(category: Cell): (r: nat)
    ensures r <= |CategoryOrder|
    ensures r < |CategoryOrder| <==> category.Text? && category.s in CategoryOrder
    ensures r < |CategoryOrder| ==> CategoryOrder[r] == category.s
  {
    if category.Text? then IndexOf(CategoryOrder, category.s) else |CategoryOrder|
  }

  predicate HasCategorySource(header: seq<string>) {
    "类别" in header || "指数名称" in header
  }

  /** The 类别 of a row: an existing 类别 column wins over the name. */
  function CategoryCell(header: seq<string>, row: seq<Cell>, env: Env): (c: Cell)
    ensures "类别" in header ==> c == Get(header, row, "类别")
    ensures "类别" !in header ==> c == Text(env.categoryOf(Get(header, row, "指数名称")))
  {
    if "类别" in header then Get(header, row, "类别")
    else Text(env.categoryOf(Get(header, row, "指数名称")))
  }

  /** One row of the 关注度数值, 类别 and 类别排序 assignments. */
  function RankRow(header: seq<string>, r: Rated, env: Env): (x: Ranked)
    ensures x.rated == r
    ensures "关注度" !in header ==> x.attention == 0.0
    ensures "关注度" in header ==> x.attention == ProcessAttention(env.parseFloat, Get(header, r.cells, "关注度"))
    ensures x.category == CategoryCell(header, r.cells, env)
    ensures x.rank == CategoryRank(x.category)
  {
    var attention := if "关注度" in header then ProcessAttention(env.parseFloat, Get(header, r.cells, "关注度")) else 0.0;
    var category := CategoryCell(header, r.cells, env);
    Ranked(r, attention, category, CategoryRank(category))
  }

  /** The row-wise `apply` computing 关注度数值, 类别 and 类别排序. */
  function RowRanker(header: seq<string>, env: Env): Rated -> Ranked {
    (r: Rated) => RankRow(header, r, env)
  }

  /** The rows `process_lixingren_csv` returns, before sorting; `None` when it
      returns None (an exception, or nothing left after filtering). */
  function Outcome(t: Table, env: Env, numericColumns: bool): (r: Option<seq<Ranked>>)
    requires LogScaleDefined(env.log10)
    ensures r.Some? ==> |r.value| > 0
  {
    var header := RenameColumns(t.header);
    match MapAll(t.rows, RowRater(header, env))
    case None => None
    case Some(rated) =>
      var kept := Survivors(header, rated, numericColumns);
      if kept == [] || !HasCategorySource(header) then None else Some(Mapped(kept, RowRanker(header, env)))
  }

  /** The sort key (关注度数值 desc, 类别排序 asc, 基金温度 desc): `a` may precede `b`. */
  predicate RankedOrder(a: Ranked, b: Ranked) {
    a.attention > b.attention ||
    (a.attention == b.attention &&
      (a.rank < b.rank || (a.rank == b.rank && a.rated.temperature >= b.rated.temperature)))
  }

  lemma RankedOrderIsTotalPreorder()
    ensures TotalPreorder(RankedOrder)
  {
  }

  /** `process_lixingren_csv` from the table read from the file onwards.
      `numericColumns` is pandas' `is_numeric_dtype` of both percentile columns. */
  method ProcessLixingrenCsv(t: Table, env: Env, numericColumns: bool) returns (result: Option<seq<Ranked>>)
    requires LogScaleDefined(env.log10)
    ensures result.None? <==> Outcome(t, env, numericColumns).None?
    ensures result.Some? ==> SortedBy(result.value, RankedOrder)
    ensures result.Some? ==> multiset(result.value) == multiset(Outcome(t, env, numericColumns).value)
    ensures result.Some? ==> |result.value| > 0
  {
    var header := RenameColumns(t.header);
    var scored := MapEach(t.rows, RowRater(header, env));
    if scored.None? {
      return None;
    }
    var rated := scored.value;
    if HasQuantiles(header) {
      rated := KeepWhere(rated, QuantileFilter(header, numericColumns));
    }
    rated := KeepWhere(rated, NonZeroTemperature);
    assert rated == Survivors(header, scored.value, numericColumns);
    if |rated| == 0 {
      return None;
    }
    if !HasCategorySource(header) {
      return None;
    }
    var ranked := ApplyEach(rated, RowRanker(header, env));
    RankedOrderIsTotalPreorder();
    var sorted := SortBy(ranked, RankedOrder);
    assert |sorted| == |multiset(sorted)| == |multiset(ranked)| == |ranked|;
    return Some(sorted);
  }

  // ------------------------------------------------------------ properties of the outcome

  /** A survivor is a rated row that passed both masks. */
  lemma SurvivorPassed(header: seq<string>, rated: seq<Rated>, numericColumns: bool, r: Rated)
    requires r in Survivors(header, rated, numericColumns)
    ensures r in rated && NonZeroTemperature(r)
    ensures HasQuantiles(header) ==> QuantileFilter(header, numericColumns)(r)
  {
    var q := if HasQuantiles(header) then Filter(rated, QuantileFilter(header, numericColumns)) else rated;
    FilterMembers(q, NonZeroTemperature);
    if HasQuantiles(header) {
      FilterMembers(rated, QuantileFilter(header, numericColumns));
    }
  }

  /** A rated row comes from one of the input rows, with the temperature of that
      row and its advice. */
  lemma RatedRowOrigin(header: seq<string>, rows: seq<seq<Cell>>, env: Env, r: Rated)
    requires LogScaleDefined(env.log10)
    requires MapAll(rows, RowRater(header, env)).Some? && r in MapAll(rows, RowRater(header, env)).value
    ensures r.cells in rows
    ensures RowTemperature(header, r.cells, env) == Some(r.temperature)
    ensures r.advice == GetAdvice(r.temperature).Text()
  {
    var rated := MapAll(rows, RowRater(header, env)).value;
    var i :| 0 <= i < |rated| && rated[i] == r;
    assert RateRow(header, rows[i], env) == Some(r);
  }

  /** Every returned row is an input row that passed both masks, with its own
      temperature, the advice of that temperature, its 类别 (an existing 类别
      column first) and the rank of that 类别. */
  lemma OutcomeRowsValid(t: Table, env: Env, numericColumns: bool, x: Ranked)
    requires LogScaleDefined(env.log10)
    requires Outcome(t, env, numericColumns).Some? && x in Outcome(t, env, numericColumns).value
    ensures x.rated.temperature != 0.0
    ensures HasQuantiles(RenameColumns(t.header)) ==>
              QuantilesValid(RenameColumns(t.header), x.rated.cells, numericColumns)
    ensures x.rated.advice == GetAdvice(x.rated.temperature).Text()
    ensures x.rank == CategoryRank(x.category)
    ensures x.rated.cells in t.rows
    ensures RowTemperature(RenameColumns(t.header), x.rated.cells, env) == Some(x.rated.temperature)
    ensures "类别" in RenameColumns(t.header) ==> x.category == Get(RenameColumns(t.header), x.rated.cells, "类别")
    ensures "类别" !in RenameColumns(t.header) ==>
              x.category == Text(env.categoryOf(Get(RenameColumns(t.header), x.rated.cells, "指数名称")))
  {
    var header := RenameColumns(t.header);
    var rated := MapAll(t.rows, RowRater(header, env)).value;
    var kept := Survivors(header, rated, numericColumns);
    var ranked := Mapped(kept, RowRanker(header, env));
    var k :| 0 <= k < |ranked| && ranked[k] == x;
    var r := kept[k];
    assert x == RankRow(header, r, env);
    SurvivorPassed(header, rated, numericColumns, r);
    RatedRowOrigin(header, t.rows, env, r);
  }

  /** The masks only delete rows: survivors keep their original order. */
  lemma SurvivorsInOrder(header: seq<string>, rated: seq<Rated>, numericColumns: bool)
    ensures Subseq(Survivors(header, rated, numericColumns), rated)
    ensures forall r ::
              (r in rated && NonZeroTemperature(r) &&
               (HasQuantiles(header) ==> QuantilesValid(header, r.cells, numericColumns))) ==>
              r in Survivors(header, rated, numericColumns)
  {
    var pq := (r: Rated) => (!HasQuantiles(header) || QuantilesValid(header, r.cells, numericColumns)) && NonZeroTemperature(r);
    if HasQuantiles(header) {
      FilterTwice(rated, QuantileFilter(header, numericColumns), NonZeroTemperature, pq);
    } else {
      FilterTwice(rated, (r: Rated) => true, NonZeroTemperature, pq);
      assert Filter(rated, (r: Rated) => true) == rated by { FilterAll(rated, (r: Rated) => true); }
    }
    FilterIsSubseq(rated, pq);
    FilterMembers(rated, pq);
  }

  /** A percent string whose number does not parse aborts the whole run. */
  lemma MalformedPercentAborts(t: Table, env: Env, numericColumns: bool, i: nat, column: string)
    requires LogScaleDefined(env.log10)
    requires HasQuantiles(RenameColumns(t.header))
    requires column == "PE分位点" || column == "PB分位点"
    requires i < |t.rows| && Get(RenameColumns(t.header), t.rows[i], column).Text?
    requires var s := Get(RenameColumns(t.header), t.rows[i], column).s;
             '%' in s && env.parseFloat(RemoveAll(WithoutEquals(s), '%')).None?
    ensures Outcome(t, env, numericColumns).None?
  {
    var header := RenameColumns(t.header);
    assert ProcessQuantile(env.parseFloat, Get(header, t.rows[i], column)).None?;
    assert RateRow(header, t.rows[i], env).None?;
  }

  /** A row of higher attention comes first; among equal attention, a lower
      category rank comes first. */
  lemma SortedKeyOrder(s: seq<Ranked>, i: nat, j: nat)
    requires SortedBy(s, RankedOrder) && i < |s| && j < |s|
    requires s[i].attention > s[j].attention ||
             (s[i].attention == s[j].attention && s[i].rank < s[j].rank)
    ensures i < j
  {
    if j < i {
      assert false;
    }
  }

  lemma CategoryRankFacts()
    ensures CategoryRank(Text("大盘")) == 0 && CategoryRank(Text("行业")) == 3
  {
    assert CategoryOrder[0] == "大盘" && CategoryOrder[3] == "行业";
  }

  lemma ThreeMembers<T>(s: seq<T>, a: T, b: T, c: T)
    requires multiset(s) == multiset{a, b, c}
    ensures |s| == 3 && a in s && b in s && c in s
  {
    assert |s| == |multiset(s)|;
    assert a in multiset(s) && b in multiset(s) && c in multiset(s);
  }

  /** Attention [100, 100, 50] with categories [行业, 大盘, 大盘]: the two
      attention-100 rows come before the attention-50 row, 大盘 before 行业. */
  lemma SortExample(s: seq<Ranked>, industry100: Ranked, broad100: Ranked, broad50: Ranked)
    requires industry100.attention == 100.0 && industry100.category == Text("行业") && industry100.rank == CategoryRank(industry100.category)
    requires broad100.attention == 100.0 && broad100.category == Text("大盘") && broad100.rank == CategoryRank(broad100.category)
    requires broad50.attention == 50.0 && broad50.category == Text("大盘") && broad50.rank == CategoryRank(broad50.category)
    requires SortedBy(s, RankedOrder) && multiset(s) == multiset{industry100, broad100, broad50}
    ensures |s| == 3 && s == [broad100, industry100, broad50]
  {
    CategoryRankFacts();
    ThreeMembers(s, industry100, broad100, broad50);
    var i :| 0 <= i < 3 && s[i] == broad100;
    var j :| 0 <= j < 3 && s[j] == industry100;
    var k :| 0 <= k < 3 && s[k] == broad50;
    SortedKeyOrder(s, i, j);
    SortedKeyOrder(s, j, k);
  }
}
