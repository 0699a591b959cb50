/**
 * The chart series the `useEffect` callback of Main.js (lines 61-106) builds:
 * the records of the selected languages, one dataset per language
 * (`constructDatasets`, lines 30-54), the quarter labels, and each dataset's
 * percentage share per label.
 */
module Series {
  import opened Wrappers
  import opened Unique
  import opened Grouping
  import opened Ranking
  import opened Colors

  /**
   * One value of a dataset's `data`: the share of a language present in the
   * quarter (exact, where the source rounds with `toFixed(2)`), the literal 0
   * for a language absent from the quarter, `NaN` for 0/0, or `Infinity` for a
   * positive count over a selected total of 0 (which `toFixed(2)` renders as
   * the text `Infinity`).
   */
  datatype Cell = Percent(share: real) | Zero | NaN | Infinity

  /**
   * A Chart.js line dataset; the fields the dashboard sets or reads. The
   * dataset's `label` property is the field `name` here.
   */
  datatype Dataset = Dataset(
    name: string,
    data: seq<Cell>,
    fill: bool,
    borderColor: Option<string>,
    backgroundColor: Option<string>,
    borderWidth: Option<nat>)

  /** The `{ labels, datasets }` object handed to the chart. */
  datatype Chart = Chart(labels: seq<string>, datasets: seq<Dataset>)

  /** `data.map((item) => item.name)`. */
  function LanguageNames(rs: seq<Record>): seq<string> {
    seq(|rs|, i requires 0 <= i < |rs| => rs[i].name)
  }

  /** `data.map((item) => `${item.year}-${item.quarter}`)`. */
  function QuarterKeys(rs: seq<Record>): seq<string> {
    seq(|rs|, i requires 0 <= i < |rs| => KeyOf(rs[i]))
  }

  function LabelsOf(ds: seq<Dataset>): seq<string> {
    seq(|ds|, i requires 0 <= i < |ds| => ds[i].name)
  }

  // ---------------------------------------------------------------------------
  // filteredData (line 79)
  // ---------------------------------------------------------------------------

  /** `sourceData.filter((item) => topLanguages.includes(item.name))`. */
  function Filtered(rs: seq<Record>, top: seq<string>): seq<Record> {
    if rs == [] then []
    else Filtered(rs[..|rs| - 1], top) + (if rs[|rs| - 1].name in top then [rs[|rs| - 1]] else [])
  }

  /** The positions of `rs` whose record the filter keeps, in increasing order. */
  ghost function KeptIndices(rs: seq<Record>, top: seq<string>): seq<nat> {
    if rs == [] then []
    else KeptIndices(rs[..|rs| - 1], top) + (if rs[|rs| - 1].name in top then [|rs| - 1] else [])
  }

  /**
   * `filteredData` is exactly the subsequence of `sourceData` made of the records
   * whose name is in `topLanguages`, in their original order.
   */
  lemma {:induction false} FilteredIsSubsequence(rs: seq<Record>, top: seq<string>)
    ensures var f, ix := Filtered(rs, top), KeptIndices(rs, top);
      && |f| == |ix|
      && (forall k :: 0 <= k < |ix| ==> ix[k] < |rs| && f[k] == rs[ix[k]])
      && (forall k, l :: 0 <= k < l < |ix| ==> ix[k] < ix[l])
      && (forall i :: 0 <= i < |rs| ==> (rs[i].name in top <==> i in ix))
    decreases |rs|
  {
    if rs != [] {
      var p := rs[..|rs| - 1];
      FilteredIsSubsequence(p, top);
      forall i | 0 <= i < |p|
        ensures rs[i] == p[i]
      {
      }
    }
  }

  /** Every kept record names a selected language, and every record of a selected language is kept. */
  lemma FilteredMembers(rs: seq<Record>, top: seq<string>)
    ensures forall r :: r in Filtered(rs, top) <==> r in rs && r.name in top
  {
    FilteredIsSubsequence(rs, top);
    var f, ix := Filtered(rs, top), KeptIndices(rs, top);
    forall r | r in rs && r.name in top
      ensures r in f
    {
      var i :| 0 <= i < |rs| && rs[i] == r;
      var k :| 0 <= k < |ix| && ix[k] == i;
      assert f[k] == r;
    }
  }

  // ---------------------------------------------------------------------------
  // constructDatasets (lines 30-54)
  // ---------------------------------------------------------------------------

  /** The dataset pushed for one language, with the colour `getRandomColor` drew for it. */
  function NewDataset(language: string, color: Rgb): Dataset {
    Dataset(language, [], false, Some(ColorText(color)), None, None)
  }

  /** One dataset per language, the `i`-th with the `i`-th colour drawn. */
  function DatasetsFor(languages: seq<string>, palette: nat -> Rgb): (ds: seq<Dataset>)
    ensures |ds| == |languages|
  {
    seq(|languages|, i requires 0 <= i < |languages| => NewDataset(languages[i], palette(i)))
  }

  /**
   * `constructDatasets(data)`: one dataset per distinct language of `data`, in
   * first-seen order. Colours come from `palette` where the source calls
   * `Math.random`: the `i`-th dataset gets the `i`-th colour.
   */
  method ConstructDatasets(data: seq<Record>, palette: nat -> Rgb) returns (datasets: seq<Dataset>)
    ensures datasets == DatasetsFor(Distinct(LanguageNames(data)), palette)
  {
    datasets := [];
    var uniqueLanguages := Distinct(LanguageNames(data));
    for i := 0 to |uniqueLanguages|
      invariant |datasets| == i
      invariant forall j :: 0 <= j < i ==> datasets[j] == NewDataset(uniqueLanguages[j], palette(j))
    {
      var language := uniqueLanguages[i];
      datasets := datasets + [NewDataset(language, palette(i))];
    }
    DatasetsForAt(uniqueLanguages, palette, datasets);
  }

  /** A sequence holding, at every index, the dataset of that language and colour is `DatasetsFor`. */
  lemma DatasetsForAt(languages: seq<string>, palette: nat -> Rgb, ds: seq<Dataset>)
    requires |ds| == |languages|
    requires forall j :: 0 <= j < |ds| ==> ds[j] == NewDataset(languages[j], palette(j))
    ensures ds == DatasetsFor(languages, palette)
  {
  }

  lemma LabelsOfDatasetsFor(languages: seq<string>, palette: nat -> Rgb)
    ensures LabelsOf(DatasetsFor(languages, palette)) == languages
  {
    var ds := DatasetsFor(languages, palette);
    forall i | 0 <= i < |languages|
      ensures LabelsOf(ds)[i] == languages[i]
    {
      assert ds[i] == NewDataset(languages[i], palette(i));
    }
  }

  /**
   * The datasets' labels are the distinct languages of `data`, pairwise distinct,
   * in the order in which each language first occurs.
   */
  lemma DatasetLabels(data: seq<Record>, palette: nat -> Rgb)
    ensures var labels := LabelsOf(DatasetsFor(Distinct(LanguageNames(data)), palette));
      && labels == Distinct(LanguageNames(data))
      && NoDuplicates(labels)
      && (forall l :: l in labels <==> l in LanguageNames(data))
      && (forall l :: l in labels <==> exists r :: r in data && r.name == l)
      && (forall i, j :: 0 <= i < j < |labels| ==>
            FirstIndex(LanguageNames(data), labels[i]) < FirstIndex(LanguageNames(data), labels[j]))
  {
    var names := LanguageNames(data);
    LabelsOfDatasetsFor(Distinct(names), palette);
    DistinctSpec(names);
    forall l
      ensures (l in names) <==> exists r :: r in data && r.name == l
    {
      if l in names {
        var i :| 0 <= i < |names| && names[i] == l;
        assert data[i] in data;
      }
      if exists r :: r in data && r.name == l {
        var r :| r in data && r.name == l;
        var i :| 0 <= i < |data| && data[i] == r;
        assert names[i] == l;
      }
    }
  }

  // ---------------------------------------------------------------------------
  // The percentage shares (lines 84-98)
  // ---------------------------------------------------------------------------

  /** `totalForSelectedLanguages`: the summed counts of the quarter's languages that are in `top`. */
  function SelectedTotal(es: seq<Entry>, top: seq<string>): nat {
    if es == [] then 0 else (if es[0].language in top then es[0].count else 0) + SelectedTotal(es[1..], top)
  }

  /**
   * The value for one language in one quarter: its count over the selected
   * total, times 100, if the quarter lists the language (`NaN` for 0/0 and
   * `Infinity` for a positive count over 0), and the literal 0 otherwise.
   */
  function ShareCell(q: QuarterTotal, top: seq<string>, language: string): Cell {
    var selected := SelectedTotal(q.languages, top);
    if language in Names(q.languages) then
      if selected == 0 then (if Lookup(q.languages, language) == 0 then NaN else Infinity)
      else Percent(Lookup(q.languages, language) as real / selected as real * 100.0)
    else Zero
  }

  /**
   * `uniqueYearQuarter.map(...)` for one dataset: its value at every label.
   * Every label is a key of the accumulator (`FilteredKeysPresent`), so
   * `QuarterOf` is the plain lookup `quarterLanguageTotals[yearQuarter]` here.
   */
  function SharesFor(t: Totals, top: seq<string>, labels: seq<string>, language: string): (cells: seq<Cell>)
    ensures |cells| == |labels|
  {
    seq(|labels|, j requires 0 <= j < |labels| => ShareCell(QuarterOf(t, labels[j]), top, language))
  }

  /** Every label is a key of the accumulator. */
  predicate KeysPresent(labels: seq<string>, t: Totals) {
    forall k :: k in labels ==> k in t.quarters
  }

  /** Every dataset with its `data` replaced by its shares at the labels. */
  function WithShares(ds: seq<Dataset>, t: Totals, top: seq<string>, labels: seq<string>): (r: seq<Dataset>)
    ensures |r| == |ds|
  {
    seq(|ds|, i requires 0 <= i < |ds| => ds[i].(data := SharesFor(t, top, labels, ds[i].name)))
  }

  /** The `forEach` of lines 84-99: each dataset's `data` is reassigned, one dataset at a time. */
  method FillShares(datasets: seq<Dataset>, t: Totals, top: seq<string>, labels: seq<string>)
    returns (filled: seq<Dataset>)
    ensures filled == WithShares(datasets, t, top, labels)
  {
    filled := datasets;
    for i := 0 to |datasets|
      invariant |filled| == |datasets|
      invariant forall k :: 0 <= k < i ==> filled[k] == datasets[k].(data := SharesFor(t, top, labels, datasets[k].name))
      invariant forall k :: i <= k < |datasets| ==> filled[k] == datasets[k]
    {
      var dataset := filled[i];
      filled := filled[i := dataset.(data := SharesFor(t, top, labels, dataset.name))];
    }
  }

  // ---------------------------------------------------------------------------
  // The whole callback
  // ---------------------------------------------------------------------------

  /** `topLanguages` for a non-empty source. */
  function Top(source: seq<Record>, numLanguages: nat): seq<string>
    requires source != []
  {
    TallyWellFormed(source);
    TallyNonEmpty(source);
    TopLanguages(Tally(source), numLanguages)
  }

  /** Every label of the filtered records is a key of the accumulator. */
  lemma FilteredKeysPresent(source: seq<Record>, top: seq<string>)
    ensures KeysPresent(Distinct(QuarterKeys(Filtered(source, top))), Tally(source))
  {
    var f := Filtered(source, top);
    DistinctSpec(QuarterKeys(f));
    FilteredMembers(source, top);
    forall k | k in QuarterKeys(f)
      ensures k in Tally(source).quarters
    {
      var i :| 0 <= i < |f| && QuarterKeys(f)[i] == k;
      assert f[i] in f;
      var j :| 0 <= j < |source| && source[j] == f[i];
      TallyKeys(source, k);
    }
  }

  /** The chart the callback stores with `setChartData`, for a non-empty source. */
  function ChartFrom(source: seq<Record>, numLanguages: nat, palette: nat -> Rgb): Chart
    requires source != []
  {
    var top := Top(source, numLanguages);
    var filteredData := Filtered(source, top);
    var chartDatasets := DatasetsFor(Distinct(LanguageNames(filteredData)), palette);
    var uniqueYearQuarter := Distinct(QuarterKeys(filteredData));
    Chart(uniqueYearQuarter, WithShares(chartDatasets, Tally(source), top, uniqueYearQuarter))
  }

  /**
   * The callback's result: `None` where an empty source makes line 74 throw
   * (the last key is `undefined` and has no `languages`).
   */
  function ChartOf(source: seq<Record>, numLanguages: nat, palette: nat -> Rgb): Option<Chart> {
    if source == [] then None else Some(ChartFrom(source, numLanguages, palette))
  }

  /** The `useEffect` callback of lines 61-106, step by step. */
  method Aggregate(sourceData: seq<Record>, numLanguages: nat, palette: nat -> Rgb) returns (chart: Option<Chart>)
    ensures chart == ChartOf(sourceData, numLanguages, palette)
    ensures chart.None? <==> sourceData == []
  {
    if sourceData == [] {
      return None;
    }
    var quarterLanguageTotals := GroupByQuarter(sourceData);
    TallyNonEmpty(sourceData);
    var topLanguages := TopLanguages(quarterLanguageTotals, numLanguages);
    var filteredData := Filtered(sourceData, topLanguages);
    var chartDatasets := ConstructDatasets(filteredData, palette);
    var uniqueYearQuarter := Distinct(QuarterKeys(filteredData));
    chartDatasets := FillShares(chartDatasets, quarterLanguageTotals, topLanguages, uniqueYearQuarter);
    chart := Some(Chart(uniqueYearQuarter, chartDatasets));
  }
}
