/** The data side of app.py: the upload-name check and the preparation of
    the home page's table from the stored CSV in `index()` (column renaming,
    the temperature recomputation and its badge, value cleaning, percentage
    display, the three row masks, the attention key, the sort and the 序号
    numbering). */
module App {
  import opened Cells
  import opened Tables
  import DataProcessor

  // ---------------------------------------------------------------- upload names

  const AllowedExtension: string := "csv"

  /** ASCII `str.lower()`. */
  function Lower(s: string): (r: string)
    ensures |r| == |s|
    ensures forall i :: 0 <= i < |s| ==> r[i] == if 'A' <= s[i] <= 'Z' then (s[i] as int + 32) as char else s[i]
  {
    seq(|s|, i requires 0 <= i < |s| => if 'A' <= s[i] <= 'Z' then (s[i] as int + 32) as char else s[i])
  }

  /** The position of the last '.', as `rsplit('.', 1)` splits at it. */
  function LastDot(s: string): (r: Option<nat>)
    ensures r.None? <==> '.' !in s
    ensures r.Some? ==> r.value < |s| && s[r.value] == '.' && '.' !in s[r.value + 1..]
    decreases |s|
  {
    if s == [] then None
    else if s[|s| - 1] == '.' then Some(|s| - 1)
    else
      match LastDot(s[..|s| - 1])
      case None => (assert s == s[..|s| - 1] + [s[|s| - 1]]; None)
      case Some(k) => (assert s[k + 1..] == s[..|s| - 1][k + 1..] + [s[|s| - 1]]; Some(k))
  }

  /** `allowed_file`: there is a '.' and the text after the last one, lower-cased,
      is `csv`. */
  function AllowedFile(filename: string): (ok: bool)
  {
    match LastDot(filename)
    case None => false
    case Some(k) => Lower(filename[k + 1..]) == AllowedExtension
  }

  /** A name is accepted exactly when it ends in '.' followed by `csv` in any case. */
  lemma AllowedFileEnding(filename: string)
    ensures AllowedFile(filename) <==>
              |filename| >= 4 && filename[|filename| - 4] == '.' && Lower(filename[|filename| - 3..]) == AllowedExtension
  {
    var n := |filename|;
    match LastDot(filename)
    case None =>
    case Some(k) =>
      var ext := filename[k + 1..];
      if Lower(ext) == AllowedExtension {
        assert |ext| == 3 && n == k + 4;
        assert filename[n - 3..] == ext;
      }
      if n >= 4 && filename[n - 4] == '.' && Lower(filename[n - 3..]) == AllowedExtension {
        var tail := filename[n - 3..];
        assert forall j :: k < j < n ==> filename[j] != '.' by {
          forall j | k < j < n ensures filename[j] != '.' {
            assert filename[k + 1..][j - k - 1] == filename[j];
          }
        }
        assert forall j :: n - 3 <= j < n ==> filename[j] != '.' by {
          forall j | n - 3 <= j < n ensures filename[j] != '.' {
            assert tail[j - (n - 3)] == filename[j];
            assert Lower(tail)[j - (n - 3)] == AllowedExtension[j - (n - 3)];
          }
        }
        assert k == n - 4;
      }
  }

  /** Three letters spelling `csv` in any case lower to `csv`. */
  lemma LowerCsv(e: string)
    requires |e| == 3 && (e[0] == 'c' || e[0] == 'C') && (e[1] == 's' || e[1] == 'S') && (e[2] == 'v' || e[2] == 'V')
    ensures Lower(e) == AllowedExtension
  {
    var l := Lower(e);
    assert l[0] == 'c' && l[1] == 's' && l[2] == 'v';
  }

  /** Any name ending in `.CSV` or `.csv` is accepted, the bare `.csv` included. */
  lemma AllowedFileAccepts(stem: string, ext: string)
    requires ext == "CSV" || ext == "csv"
    ensures AllowedFile(stem + "." + ext)
  {
    var f := stem + "." + ext;
    AllowedFileEnding(f);
    assert f[|f| - 4] == '.';
    assert f[|f| - 3..] == ext;
    LowerCsv(ext);
  }

  /** Only the text after the last '.' counts: `a.csv.txt` is refused. */
  lemma AllowedFileRejects(stem: string, ext: string)
    requires |ext| == 3 && ext[0] != 'c' && ext[0] != 'C'
    ensures !AllowedFile(stem + "." + ext)
  {
    var f := stem + "." + ext;
    AllowedFileEnding(f);
    assert f[|f| - 3..] == ext;
    assert Lower(ext)[0] != AllowedExtension[0];
  }

  /** A name without a '.' is refused, even the bare word `csv`. */
  lemma AllowedFileNeedsDot(filename: string)
    requires '.' !in filename
    ensures !AllowedFile(filename)
  {
  }

  // ---------------------------------------------------------------- renaming

  /** The two percentile aliases the page renames, whichever of them is present. */
  function DisplayRename(header: seq<string>): (r: seq<string>)
    ensures |r| == |header|
    ensures forall i :: 0 <= i < |header| ==>
              r[i] == (if header[i] == "PE-TTM(分位点%)" then "PE分位点"
                       else if header[i] == "PB(分位点%)" then "PB分位点"
                       else header[i])
  {
    var pe, pb := "PE-TTM(分位点%)" in header, "PB(分位点%)" in header;
    if pe && pb then RenameLabels(header, map["PE-TTM(分位点%)" := "PE分位点", "PB(分位点%)" := "PB分位点"])
    else if pe then RenameLabels(header, map["PE-TTM(分位点%)" := "PE分位点"])
    else if pb then RenameLabels(header, map["PB(分位点%)" := "PB分位点"])
    else header
  }

  /** A label other than the two aliases keeps its presence under renaming. */
  lemma DisplayRenameKeeps(header: seq<string>, name: string)
    requires name != "PE-TTM(分位点%)" && name != "PB(分位点%)" && name != "PE分位点" && name != "PB分位点"
    ensures name in DisplayRename(header) <==> name in header
  {
    var r := DisplayRename(header);
    if name in header {
      var i :| 0 <= i < |header| && header[i] == name;
      assert r[i] == name;
    }
    if name in r {
      var i :| 0 <= i < |r| && r[i] == name;
      assert header[i] == name;
    }
  }

  // ---------------------------------------------------------------- temperature

  /** The page's own `process_quantile`, written as its if/elif chain. */
  function ProcessQuantile(parse: string -> Option<real>, quantile: Cell): (r: Option<real>)
    ensures r.None? ==> quantile.Text? && '%' in quantile.s
  {
    if quantile.Missing? || quantile == Text("-") || quantile == Text("") then Some(0.0)
    else if quantile.Text? then
      var q := if StartsWith(quantile.s, '=') then quantile.s[1..] else quantile.s;
      if '%' in q then
        (match parse(RemoveAll(q, '%'))
         case Some(x) => Some(x / 100.0)
         case None => None)
      else
        (match parse(q)
         case Some(x) => Some(x)
         case None => Some(0.0))
    else
      Some(if quantile.v > 1.0 then quantile.v / 100.0 else quantile.v)
  }

  /** The page and the pipeline coerce every percentile cell alike. */
  lemma ProcessQuantileAgrees(parse: string -> Option<real>, quantile: Cell)
    ensures ProcessQuantile(parse, quantile) == DataProcessor.ProcessQuantile(parse, quantile)
  {
  }

  /** The page's 基金温度 before rounding. */
  function RecomputedTemperature(industry: bool, pe: real, pb: real): (t: real)
    ensures industry ==> t == pb * 100.0
    ensures !industry ==> t * 2.0 == (pe + pb) * 100.0
  {
    if industry then pb * 100.0 else (pe + pb) / 2.0 * 100.0
  }

  /** Rounded to one decimal, the page's temperature is the pipeline's. */
  lemma TemperatureAgrees(industry: bool, pe: real, pb: real)
    ensures DataProcessor.Round1(RecomputedTemperature(industry, pe, pb)) == DataProcessor.QuantileTemperature(industry, pe, pb)
  {
  }

  /** The colour band of `format_temperature`, each boundary in the higher band. */
  datatype Tone = Cold | Mild | Warm | Hot {
    function Color(): string {
      match this
      case Cold => "success"
      case Mild => "info"
      case Warm => "warning"
      case Hot => "danger"
    }

    function Icon(): string {
      match this
      case Cold => "\U{2744}\U{FE0F}"
      case Mild => "\U{1F324}\U{FE0F}"
      case Warm => "\U{1F525}"
      case Hot => "\U{2600}\U{FE0F}"
    }
  }

  function ToneOf(temp: real): Tone {
    if temp < 30.0 then Cold else if temp < 50.0 then Mild else if temp < 70.0 then Warm else Hot
  }

  /** The markup of a badge of tone `tone` showing the number text `shown`. */
  function BadgeMarkup(tone: Tone, shown: string): string {
    "<span class=\"badge bg-" + tone.Color() + "\">" + tone.Icon() + " " + shown + "°C</span>"
  }

  /** `format_temperature`; `formatOneDecimal` is the `.1f` formatting of a float. */
  function FormatTemperature(formatOneDecimal: real -> string, temp: real): string {
    BadgeMarkup(ToneOf(temp), formatOneDecimal(temp))
  }

  /** The badge bands are the advice bands of the pipeline. */
  lemma ToneMatchesAdvice(temp: real)
    ensures ToneOf(temp) == Cold <==> DataProcessor.GetAdvice(temp) == DataProcessor.Undervalued
    ensures ToneOf(temp) == Mild <==> DataProcessor.GetAdvice(temp) == DataProcessor.NormalLow
    ensures ToneOf(temp) == Warm <==> DataProcessor.GetAdvice(temp) == DataProcessor.NormalHigh
    ensures ToneOf(temp) == Hot <==> DataProcessor.GetAdvice(temp) == DataProcessor.Overvalued
  {
  }

  /** Tones differ in the first letter of their colour. */
  lemma ColorsDiffer(a: Tone, b: Tone)
    requires a != b
    ensures a.Color()[0] != b.Color()[0]
  {
  }

  /** A badge determines its tone and the text it shows. */
  lemma BadgeInjective(t1: Tone, s1: string, t2: Tone, s2: string)
    requires BadgeMarkup(t1, s1) == BadgeMarkup(t2, s2)
    ensures t1 == t2 && s1 == s2
  {
    var open := "<span class=\"badge bg-";
    var b := BadgeMarkup(t1, s1);
    assert b[|open|] == t1.Color()[0];
    assert BadgeMarkup(t2, s2)[|open|] == t2.Color()[0];
    if t1 != t2 {
      ColorsDiffer(t1, t2);
      assert false;
    }
    var head := open + t1.Color() + "\">" + t1.Icon() + " ";
    assert b == head + s1 + "°C</span>";
    assert b == head + s2 + "°C</span>";
    assert |s1| == |s2|;
    assert s1 == b[|head|..|head| + |s1|];
    assert s2 == b[|head|..|head| + |s2|];
  }

  /** The badge `format_temperature` gives a temperature of 0.0. */
  const ZeroBadge: string := BadgeMarkup(Cold, "0.0")

  /** The badge `format_temperature` gives NaN: every comparison is false. */
  const NanBadge: string := BadgeMarkup(Hot, "nan")

  /** A temperature formats as the zero badge exactly when it is below 30 and
      its one-decimal text is `0.0`. */
  lemma ZeroBadgeExactly(formatOneDecimal: real -> string, temp: real)
    ensures FormatTemperature(formatOneDecimal, temp) == ZeroBadge <==>
              temp < 30.0 && formatOneDecimal(temp) == "0.0"
  {
    if FormatTemperature(formatOneDecimal, temp) == ZeroBadge {
      BadgeInjective(ToneOf(temp), formatOneDecimal(temp), Cold, "0.0");
    }
  }

  /** The header has a 基金温度 column once the recomputation has run. */
  predicate HasTemperatureSource(header: seq<string>) {
    DataProcessor.HasQuantiles(header) || "基金温度" in header
  }

  /** The formatted 基金温度 of one row: recomputed from the percentiles when
      both exist, otherwise the stored value; `None` when an exception escapes
      (an unparseable percent, no 指数名称 column, a text temperature that
      `round` rejects, or no temperature at all). */
  function Badge(header: seq<string>, row: seq<Cell>, env: Env): (r: Option<string>)
    ensures !HasTemperatureSource(header) ==> r.None?
    ensures DataProcessor.HasQuantiles(header) ==>
              match (ProcessQuantile(env.parseFloat, Get(header, row, "PE分位点")),
                     ProcessQuantile(env.parseFloat, Get(header, row, "PB分位点")))
              case (Some(pe), Some(pb)) =>
                "指数名称" in header ==>
                  r == Some(FormatTemperature(env.formatOneDecimal, DataProcessor.QuantileTemperature(env.isIndustry(Get(header, row, "指数名称")), pe, pb)))
              case _ => r.None?
    ensures DataProcessor.HasQuantiles(header) && "指数名称" !in header ==> r.None?
    ensures !DataProcessor.HasQuantiles(header) && "基金温度" in header ==>
              r == match Get(header, row, "基金温度")
                   case Num(v) => Some(FormatTemperature(env.formatOneDecimal, DataProcessor.Round1(v)))
                   case Missing => Some(NanBadge)
                   case Text(_) => None
  {
    if DataProcessor.HasQuantiles(header) then
      match (ProcessQuantile(env.parseFloat, Get(header, row, "PE分位点")),
             ProcessQuantile(env.parseFloat, Get(header, row, "PB分位点")))
      case (Some(pe), Some(pb)) =>
        if "指数名称" in header then
          var t := RecomputedTemperature(env.isIndustry(Get(header, row, "指数名称")), pe, pb);
          TemperatureAgrees(env.isIndustry(Get(header, row, "指数名称")), pe, pb);
          Some(FormatTemperature(env.formatOneDecimal, DataProcessor.Round1(t)))
        else None
      case _ => None
    else if "基金温度" in header then
      match Get(header, row, "基金温度")
      case Num(v) => Some(FormatTemperature(env.formatOneDecimal, DataProcessor.Round1(v)))
      case Missing => Some(NanBadge)
      case Text(_) => None
    else None
  }

  // ---------------------------------------------------------------- cell display

  /** `clean_value`: a leading '=' loses only itself; otherwise every '=' goes. */
  function CleanValue(value: Cell): (r: Cell)
    ensures !value.Text? ==> r == value
    ensures value.Text? ==> r.Text? && |r.s| <= |value.s|
    ensures value.Text? && StartsWith(value.s, '=') ==> value.s == "=" + r.s
    ensures value.Text? && !StartsWith(value.s, '=') ==> '=' !in r.s
    ensures value.Text? && !StartsWith(value.s, '=') ==> r.s == Filter(value.s, Other('='))
  {
    match value
    case Text(s) =>
      if StartsWith(s, '=') then Text(s[1..])
      else RemoveAllFilters(s, '='); Text(RemoveAll(s, '='))
    case _ => value
  }

  /** A value without '=' is untouched. */
  lemma CleanValueNoEquals(s: string)
    requires '=' !in s
    ensures CleanValue(Text(s)) == Text(s)
  {
    RemoveAllAbsent(s, '=');
  }

  /** "==5" keeps one '='; "1=2=3" keeps none. */
  lemma CleanValueExamples()
    ensures CleanValue(Text("==5")) == Text("=5")
    ensures CleanValue(Text("1=2=3")) == Text("123")
  {
  }

  /** f"{num:.2f}%" for a value above 1, f"{num*100:.2f}%" otherwise. */
  function Percent(formatPercent: real -> string, num: real): (r: string)
    ensures '%' in r
    ensures r == formatPercent(if num > 1.0 then num else num * 100.0) + "%"
  {
    (if num > 1.0 then formatPercent(num) else formatPercent(num * 100.0)) + "%"
  }

  /** `to_percentage`. */
  function ToPercentage(env: Env, value: Cell): (r: Cell)
    ensures value == Text("-") || value.Missing? ==> r == Text("-")
    ensures value.Text? && '%' in value.s ==> r == value
    ensures value.Text? && env.parseFloat(value.s).None? ==> r == value
    ensures value.Text? && value.s != "-" && '%' !in value.s && env.parseFloat(value.s).Some? ==>
              r == Text(Percent(env.formatPercent, env.parseFloat(value.s).value))
    ensures value.Num? ==> r == Text(Percent(env.formatPercent, value.v))
    ensures r.Text? && (r == value || r == Text("-") || '%' in r.s)
  {
    if value == Text("-") || value.Missing? then Text("-")
    else match value
      case Text(s) =>
        if '%' in s then value
        else
          (match env.parseFloat(s)
           case Some(num) => Text(Percent(env.formatPercent, num))
           case None => value)
      case Num(v) => Text(Percent(env.formatPercent, v))
  }

  /** Displaying a displayed value changes nothing. */
  lemma ToPercentageIdempotent(env: Env, value: Cell)
    ensures ToPercentage(env, ToPercentage(env, value)) == ToPercentage(env, value)
  {
  }

  // ---------------------------------------------------------------- rows

  /** A row of the page before sorting: its cells, the 基金温度 badge, the
      displayed 今年涨跌 / 昨涨跌 / 关注度 and its 类别. */
  datatype Shown = Shown(cells: seq<Cell>, badge: string, ytd: Cell, daily: Cell, attention: Cell, category: Cell)

  /** A shown row with its 关注度数值 and 类别排序. */
  datatype Keyed = Keyed(shown: Shown, attentionKey: real, rank: nat)

  /** A row of the rendered table with its 序号. */
  datatype Numbered = Numbered(serial: nat, row: Keyed)

  /** A column that may be missing reads as the default '-'. */
  function Field(header: seq<string>, row: seq<Cell>, name: string): (c: Cell)
    ensures name in header ==> c == Get(header, row, name)
    ensures name !in header ==> c == Text("-")
  {
    if name in header then Get(header, row, name) else Text("-")
  }

  /** The 类别 the page shows: recomputed from the index name when there is one,
      so that, unlike in the pipeline, the name wins over an existing 类别. */
  function DisplayCategory(header: seq<string>, row: seq<Cell>, env: Env): (c: Cell)
    ensures "指数名称" in header ==> c == Text(env.categoryOf(Get(header, row, "指数名称")))
    ensures "指数名称" !in header ==> c == Get(header, row, "类别")
  {
    if "指数名称" in header then Text(env.categoryOf(Get(header, row, "指数名称")))
    else Get(header, row, "类别")
  }

  function PrepareRow(header: seq<string>, row: seq<Cell>, env: Env): (r: Option<Shown>)
    ensures r.None? <==> Badge(header, row, env).None?
    ensures r.Some? ==> r.value.cells == row && r.value.badge == Badge(header, row, env).value
    ensures r.Some? ==> r.value.ytd == ToPercentage(env, CleanValue(Field(header, row, "今年以来涨跌幅")))
    ensures r.Some? ==> r.value.daily == ToPercentage(env, CleanValue(Field(header, row, "涨跌幅")))
    ensures r.Some? ==> r.value.attention == CleanValue(Field(header, row, "关注度"))
    ensures r.Some? ==> r.value.category == DisplayCategory(header, row, env)
  {
    match Badge(header, row, env)
    case None => None
    case Some(b) =>
      Some(Shown(row, b,
        ToPercentage(env, CleanValue(Field(header, row, "今年以来涨跌幅"))),
        ToPercentage(env, CleanValue(Field(header, row, "涨跌幅"))),
        CleanValue(Field(header, row, "关注度")),
        DisplayCategory(header, row, env)))
  }

  /** The column assignments of `index()` applied to one row. */
  function RowPreparer(header: seq<string>, env: Env): seq<Cell> -> Option<Shown> {
    (row: seq<Cell>) => PrepareRow(header, row, env)
  }

  /** The first mask: 今年涨跌, 昨涨跌 and 关注度 all hold data. */
  predicate HasChanges(s: Shown) {
    s.ytd != Text("-") && s.daily != Text("-") && s.attention != Text("-")
  }

  /** The second mask: the pipeline's percentile predicate. */
  function ShownQuantileFilter(header: seq<string>, numericColumns: bool): Shown -> bool {
    (s: Shown) => DataProcessor.QuantilesValid(header, s.cells, numericColumns)
  }

  /** The third mask, on the already formatted 基金温度. */
  predicate VisibleTemperature(s: Shown) {
    s.badge != ZeroBadge && s.badge != "-"
  }

  function Visible(header: seq<string>, shown: seq<Shown>, numericColumns: bool): seq<Shown> {
    var a := Filter(shown, HasChanges);
    var b := if DataProcessor.HasQuantiles(header) then Filter(a, ShownQuantileFilter(header, numericColumns)) else a;
    Filter(b, VisibleTemperature)
  }

  /** `float(x.replace(',', ''))` for a string other than '-', else 0; the
      parse error is not caught. */
  function AttentionKey(parse: string -> Option<real>, x: Cell): (r: Option<real>)
    ensures !x.Text? || x == Text("-") ==> r == Some(0.0)
    ensures x.Text? && x != Text("-") ==> r == parse(RemoveAll(x.s, ','))
  {
    if x.Text? && x != Text("-") then parse(RemoveAll(x.s, ',')) else Some(0.0)
  }

  /** The 关注度数值 and 类别排序 of one shown row; `None` when `float` raises. */
  function KeyRow(parse: string -> Option<real>, s: Shown): (r: Option<Keyed>)
    ensures r.None? <==> AttentionKey(parse, s.attention).None?
    ensures r.Some? ==> r.value.shown == s && Some(r.value.attentionKey) == AttentionKey(parse, s.attention)
    ensures r.Some? ==> r.value.rank == DataProcessor.CategoryRank(s.category)
  {
    match AttentionKey(parse, s.attention)
    case None => None
    case Some(k) => Some(Keyed(s, k, DataProcessor.CategoryRank(s.category)))
  }

  /** The 关注度数值 and 类别排序 columns applied to one row. */
  function RowKeyer(parse: string -> Option<real>): Shown -> Option<Keyed> {
    (s: Shown) => KeyRow(parse, s)
  }

  /** The rows of the page before sorting; `None` when `index()` falls into its
      error message. */
  function DisplayOutcome(t: Table, env: Env, numericColumns: bool): Option<seq<Keyed>> {
    var header := DisplayRename(t.header);
    if !HasTemperatureSource(header) || !DataProcessor.HasCategorySource(header) then None
    else
      match MapAll(t.rows, RowPreparer(header, env))
      case None => None
      case Some(shown) => MapAll(Visible(header, shown, numericColumns), RowKeyer(env.parseFloat))
  }

  // ---------------------------------------------------------------- ordering

  /** Python's `<=` on `str`: lexicographic by code point. */
  predicate StrLe(a: string, b: string)
    decreases |a|
  {
    a == [] || (b != [] && (a[0] < b[0] || (a[0] == b[0] && StrLe(a[1..], b[1..]))))
  }

  /** `a` agrees with `b` before position `k` and has the smaller code point at `k`. */
  predicate LessAt(a: string, b: string, k: nat) {
    k < |a| && k < |b| && a[..k] == b[..k] && a[k] < b[k]
  }

  /** `StrLe` is lexicographic order: `a` is a prefix of `b`, or at the first
      position where they differ `a` holds the smaller code point. */
  lemma {:induction false} StrLeLexicographic(a: string, b: string)
    ensures StrLe(a, b) <==> a <= b || exists k: nat :: LessAt(a, b, k)
    decreases |a|
  {
    if a == [] || b == [] {
      assert forall k: nat :: !LessAt(a, b, k);
    } else if a[0] < b[0] {
      assert LessAt(a, b, 0);
    } else if a[0] > b[0] {
      assert forall k: nat :: !LessAt(a, b, k);
    } else {
      StrLeLexicographic(a[1..], b[1..]);
      assert a == [a[0]] + a[1..] && b == [b[0]] + b[1..];
      forall k: nat | LessAt(a[1..], b[1..], k) ensures LessAt(a, b, k + 1) {
        assert a[..k + 1] == [a[0]] + a[1..][..k];
        assert b[..k + 1] == [b[0]] + b[1..][..k];
      }
      forall k: nat | LessAt(a, b, k) ensures LessAt(a[1..], b[1..], k - 1) {
        assert k > 0;
        assert a[1..][..k - 1] == a[..k][1..];
        assert b[1..][..k - 1] == b[..k][1..];
      }
    }
  }

  lemma {:induction false} StrLeTotal(a: string, b: string)
    ensures StrLe(a, b) || StrLe(b, a)
    decreases |a|
  {
    if a != [] && b != [] && a[0] == b[0] {
      StrLeTotal(a[1..], b[1..]);
    }
  }

  lemma {:induction false} StrLeTransitive(a: string, b: string, c: string)
    requires StrLe(a, b) && StrLe(b, c)
    ensures StrLe(a, c)
    decreases |a|
  {
    if a != [] && a[0] == b[0] && b[0] == c[0] {
      StrLeTransitive(a[1..], b[1..], c[1..]);
    }
  }

  /** The sort key (关注度数值 desc, 类别排序 asc, 基金温度 desc): the third key
      is the badge text, compared as a string. */
  predicate DisplayOrder(a: Keyed, b: Keyed) {
    a.attentionKey > b.attentionKey ||
    (a.attentionKey == b.attentionKey &&
      (a.rank < b.rank || (a.rank == b.rank && StrLe(b.shown.badge, a.shown.badge))))
  }

  lemma DisplayOrderIsTotalPreorder()
    ensures TotalPreorder(DisplayOrder)
  {
    forall a: Keyed, b: Keyed
      ensures DisplayOrder(a, b) || DisplayOrder(b, a)
    {
      StrLeTotal(a.shown.badge, b.shown.badge);
    }
    forall a: Keyed, b: Keyed, c: Keyed | DisplayOrder(a, b) && DisplayOrder(b, c)
      ensures DisplayOrder(a, c)
    {
      if a.attentionKey == b.attentionKey == c.attentionKey && a.rank == b.rank == c.rank {
        StrLeTransitive(c.shown.badge, b.shown.badge, a.shown.badge);
      }
    }
  }

  /** The rows of a numbered table. */
  function Rows(s: seq<Numbered>): (r: seq<Keyed>)
    ensures |r| == |s|
    ensures forall i :: 0 <= i < |s| ==> r[i] == s[i].row
  {
    seq(|s|, i requires 0 <= i < |s| => s[i].row)
  }

  // ---------------------------------------------------------------- index()

  /** `df['序号'] = range(1, len(df) + 1)`. */
  method NumberRows(rows: seq<Keyed>) returns (numbered: seq<Numbered>)
    ensures Rows(numbered) == rows
    ensures forall i :: 0 <= i < |numbered| ==> numbered[i].serial == i + 1
  {
    numbered := [];
    for i := 0 to |rows|
      invariant |numbered| == i
      invariant forall k :: 0 <= k < i ==> numbered[k] == Numbered(k + 1, rows[k])
    {
      numbered := numbered + [Numbered(i + 1, rows[i])];
    }
  }

  /** The table `index()` renders from the stored CSV. `numericColumns` is
      pandas' `is_numeric_dtype` of both percentile columns. */
  method RenderIndex(t: Table, env: Env, numericColumns: bool) returns (result: Option<seq<Numbered>>)
    ensures result.None? <==> DisplayOutcome(t, env, numericColumns).None?
    ensures result.Some? ==> SortedBy(Rows(result.value), DisplayOrder)
    ensures result.Some? ==> multiset(Rows(result.value)) == multiset(DisplayOutcome(t, env, numericColumns).value)
    ensures result.Some? ==> forall i :: 0 <= i < |result.value| ==> result.value[i].serial == i + 1
  {
    var header := DisplayRename(t.header);
    if !HasTemperatureSource(header) || !DataProcessor.HasCategorySource(header) {
      return None;
    }
    var prepared := MapEach(t.rows, RowPreparer(header, env));
    if prepared.None? {
      return None;
    }
    var shown := KeepWhere(prepared.value, HasChanges);
    if DataProcessor.HasQuantiles(header) {
      shown := KeepWhere(shown, ShownQuantileFilter(header, numericColumns));
    }
    shown := KeepWhere(shown, VisibleTemperature);
    assert shown == Visible(header, prepared.value, numericColumns);
    var keyed := MapEach(shown, RowKeyer(env.parseFloat));
    if keyed.None? {
      return None;
    }
    DisplayOrderIsTotalPreorder();
    var sorted := SortBy(keyed.value, DisplayOrder);
    var numbered := NumberRows(sorted);
    return Some(numbered);
  }

  // ---------------------------------------------------------------- properties of the page

  /** The three masks select exactly the rows satisfying all of them, in order. */
  lemma VisibleExactly(header: seq<string>, shown: seq<Shown>, numericColumns: bool)
    ensures Subseq(Visible(header, shown, numericColumns), shown)
    ensures forall s :: s in Visible(header, shown, numericColumns) <==>
              (s in shown && HasChanges(s) && VisibleTemperature(s) &&
               (DataProcessor.HasQuantiles(header) ==> DataProcessor.QuantilesValid(header, s.cells, numericColumns)))
  {
    var q := if DataProcessor.HasQuantiles(header) then ShownQuantileFilter(header, numericColumns) else (s: Shown) => true;
    var hq := (s: Shown) => HasChanges(s) && q(s);
    var all := (s: Shown) => hq(s) && VisibleTemperature(s);
    FilterTwice(shown, HasChanges, q, hq);
    if !DataProcessor.HasQuantiles(header) {
      FilterAll(Filter(shown, HasChanges), q);
    }
    FilterTwice(shown, hq, VisibleTemperature, all);
    FilterIsSubseq(shown, all);
    FilterMembers(shown, all);
  }

  /** A row prepared without one of the three change columns fails the first mask. */
  lemma AbsentFieldNoChanges(header: seq<string>, row: seq<Cell>, env: Env, name: string, x: Shown)
    requires name == "今年以来涨跌幅" || name == "涨跌幅" || name == "关注度"
    requires name !in header && PrepareRow(header, row, env) == Some(x)
    ensures !HasChanges(x)
  {
    assert Field(header, row, name) == Text("-");
    assert CleanValue(Text("-")) == Text("-");
  }

  /** A missing 今年以来涨跌幅, 涨跌幅 or 关注度 column defaults to '-', so the
      first mask drops every row. */
  lemma AbsentChangeColumnHidesAll(t: Table, env: Env, numericColumns: bool, name: string)
    requires name == "今年以来涨跌幅" || name == "涨跌幅" || name == "关注度"
    requires name !in t.header
    requires DisplayOutcome(t, env, numericColumns).Some?
    ensures DisplayOutcome(t, env, numericColumns).value == []
  {
    var header := DisplayRename(t.header);
    DisplayRenameKeeps(t.header, name);
    var shown := MapAll(t.rows, RowPreparer(header, env)).value;
    forall i | 0 <= i < |shown|
      ensures !HasChanges(shown[i])
    {
      AbsentFieldNoChanges(header, t.rows[i], env, name, shown[i]);
    }
    FilterNone(shown, HasChanges);
    var b := if DataProcessor.HasQuantiles(header) then Filter([], ShownQuantileFilter(header, numericColumns)) else [];
    assert Visible(header, shown, numericColumns) == Filter(b, VisibleTemperature);
  }

  /** An attention text that does not parse after removing ',' makes the page
      show its error. */
  lemma MalformedAttentionAborts(t: Table, env: Env, numericColumns: bool, s: Shown)
    requires HasTemperatureSource(DisplayRename(t.header)) && DataProcessor.HasCategorySource(DisplayRename(t.header))
    requires MapAll(t.rows, RowPreparer(DisplayRename(t.header), env)).Some?
    requires s in Visible(DisplayRename(t.header), MapAll(t.rows, RowPreparer(DisplayRename(t.header), env)).value, numericColumns)
    requires s.attention.Text? && s.attention != Text("-") && env.parseFloat(RemoveAll(s.attention.s, ',')).None?
    ensures DisplayOutcome(t, env, numericColumns).None?
  {
    var v := Visible(DisplayRename(t.header), MapAll(t.rows, RowPreparer(DisplayRename(t.header), env)).value, numericColumns);
    var i :| 0 <= i < |v| && v[i] == s;
    assert KeyRow(env.parseFloat, v[i]).None?;
  }

  /** A prepared row comes from one of the input rows, with the badge, the
      displayed changes, the 关注度 and the 类别 of that row. */
  lemma PreparedRowOrigin(header: seq<string>, rows: seq<seq<Cell>>, env: Env, s: Shown)
    requires MapAll(rows, RowPreparer(header, env)).Some? && s in MapAll(rows, RowPreparer(header, env)).value
    ensures s.cells in rows
    ensures Badge(header, s.cells, env) == Some(s.badge)
    ensures s.ytd == ToPercentage(env, CleanValue(Field(header, s.cells, "今年以来涨跌幅")))
    ensures s.daily == ToPercentage(env, CleanValue(Field(header, s.cells, "涨跌幅")))
    ensures s.attention == CleanValue(Field(header, s.cells, "关注度"))
    ensures s.category == DisplayCategory(header, s.cells, env)
  {
    var shown := MapAll(rows, RowPreparer(header, env)).value;
    var j :| 0 <= j < |shown| && shown[j] == s;
    assert PrepareRow(header, rows[j], env) == Some(s);
  }

  /** Every row on the page is an input row that passed the three masks, with its
      badge, its displayed changes, its cleaned 关注度, its 类别 (the index name
      first) and the keys of both. */
  lemma DisplayedRowPassed(t: Table, env: Env, numericColumns: bool, x: Keyed)
    requires DisplayOutcome(t, env, numericColumns).Some? && x in DisplayOutcome(t, env, numericColumns).value
    ensures HasChanges(x.shown) && VisibleTemperature(x.shown)
    ensures DataProcessor.HasQuantiles(DisplayRename(t.header)) ==>
              DataProcessor.QuantilesValid(DisplayRename(t.header), x.shown.cells, numericColumns)
    ensures AttentionKey(env.parseFloat, x.shown.attention) == Some(x.attentionKey)
    ensures x.rank == DataProcessor.CategoryRank(x.shown.category)
    ensures x.shown.cells in t.rows
    ensures Badge(DisplayRename(t.header), x.shown.cells, env) == Some(x.shown.badge)
    ensures x.shown.ytd == ToPercentage(env, CleanValue(Field(DisplayRename(t.header), x.shown.cells, "今年以来涨跌幅")))
    ensures x.shown.daily == ToPercentage(env, CleanValue(Field(DisplayRename(t.header), x.shown.cells, "涨跌幅")))
    ensures x.shown.attention == CleanValue(Field(DisplayRename(t.header), x.shown.cells, "关注度"))
    ensures "指数名称" in DisplayRename(t.header) ==>
              x.shown.category == Text(env.categoryOf(Get(DisplayRename(t.header), x.shown.cells, "指数名称")))
    ensures "指数名称" !in DisplayRename(t.header) ==>
              x.shown.category == Get(DisplayRename(t.header), x.shown.cells, "类别")
  {
    var header := DisplayRename(t.header);
    var shown := MapAll(t.rows, RowPreparer(header, env)).value;
    var v := Visible(header, shown, numericColumns);
    var keyed := MapAll(v, RowKeyer(env.parseFloat)).value;
    var k :| 0 <= k < |keyed| && keyed[k] == x;
    assert KeyRow(env.parseFloat, v[k]) == Some(x);
    VisibleExactly(header, shown, numericColumns);
    assert v[k] in v;
    PreparedRowOrigin(header, t.rows, env, x.shown);
  }

  /** No row on the page shows the zero badge, whatever temperature produced it;
      in particular (with `.1f` writing zero as `0.0`) no row whose percentiles
      give a rounded temperature of 0. */
  lemma ZeroTemperatureHidden(t: Table, env: Env, numericColumns: bool, x: Keyed)
    requires env.formatOneDecimal(0.0) == "0.0"
    requires DisplayOutcome(t, env, numericColumns).Some? && x in DisplayOutcome(t, env, numericColumns).value
    ensures x.shown.badge != ZeroBadge
    ensures forall temp :: temp < 30.0 && env.formatOneDecimal(temp) == "0.0" ==>
              x.shown.badge != FormatTemperature(env.formatOneDecimal, temp)
    ensures forall pe, pb, industry ::
              DataProcessor.QuantileTemperature(industry, pe, pb) == 0.0 ==>
              x.shown.badge != FormatTemperature(env.formatOneDecimal, DataProcessor.QuantileTemperature(industry, pe, pb))
  {
    DisplayedRowPassed(t, env, numericColumns, x);
  }
}
