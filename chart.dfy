/**
 * What the chart the `useEffect` callback of Main.js stores satisfies, stated
 * in terms of the source records: its labels, one dataset per selected
 * language, each cell's share, and each column's sum.
 */
module ChartFacts {
  import opened Wrappers
  import opened Unique
  import opened Grouping
  import opened Ranking
  import opened Colors
  import opened Series
  import opened Shares

  /** Some record has key `k` and language `name`. */
  predicate Reported(source: seq<Record>, k: string, name: string) {
    exists i :: 0 <= i < |source| && KeyOf(source[i]) == k && source[i].name == name
  }

  /**
   * The share of `name` at quarter `k`, computed from the records alone: the
   * records of that language and quarter over the records of that quarter whose
   * language is selected, times 100.
   */
  function RecordShare(source: seq<Record>, top: seq<string>, k: string, name: string): Cell {
    if !Reported(source, k, name) then Zero
    else if SelectedSum(source, k, top) == 0 then (if SumOf(source, k, name) == 0 then NaN else Infinity)
    else Percent(SumOf(source, k, name) as real / SelectedSum(source, k, top) as real * 100.0)
  }

  /** The share computed from the accumulator is the share computed from the records. */
  lemma ShareFromRecords(source: seq<Record>, top: seq<string>, k: string, name: string)
    ensures ShareCell(QuarterOf(Tally(source), k), top, name) == RecordShare(source, top, k, name)
  {
    TallyLanguageListed(source, k, name);
    TallyLanguage(source, k, name);
    TallySelected(source, k, top);
  }

  /** Every selected language has a record in the last quarter. */
  lemma TopReported(source: seq<Record>, numLanguages: nat)
    requires source != []
    ensures forall l :: l in Top(source, numLanguages) ==> l in LanguageNames(Filtered(source, Top(source, numLanguages)))
  {
    var t := Tally(source);
    TallyWellFormed(source);
    TallyNonEmpty(source);
    var top := Top(source, numLanguages);
    var f := Filtered(source, top);
    TopLanguagesSpec(t, numLanguages);
    FilteredMembers(source, top);
    var last := LastKey(t);
    assert QuarterOf(t, last) == t.quarters[last];
    forall l | l in top
      ensures l in LanguageNames(f)
    {
      TallyLanguageListed(source, last, l);
      var i :| 0 <= i < |source| && KeyOf(source[i]) == last && source[i].name == l;
      assert source[i] in f;
      var j :| 0 <= j < |f| && f[j] == source[i];
      assert LanguageNames(f)[j] == l;
    }
  }

  /**
   * Ties at the `numLanguages` cut go to the language met first: among the
   * records of the last sorted quarter, a selected language whose summed count
   * equals that of a language left out has its first record earlier.
   */
  lemma TopFirstSeen(source: seq<Record>, numLanguages: nat)
    requires source != []
    ensures Tally(source).keys != []
    ensures var last := LastKey(Tally(source));
            var top := Top(source, numLanguages);
            var ns := NamesAt(source, last);
            forall l, m :: l in top && m in ns && m !in top && SumOf(source, last, l) == SumOf(source, last, m) ==>
              l in ns && FirstIndex(ns, l) < FirstIndex(ns, m)
  {
    var t := Tally(source);
    TallyWellFormed(source);
    TallyNonEmpty(source);
    var last := LastKey(t);
    var top := Top(source, numLanguages);
    var ns := NamesAt(source, last);
    forall l, m | l in top && m in ns && m !in top && SumOf(source, last, l) == SumOf(source, last, m)
      ensures l in ns && FirstIndex(ns, l) < FirstIndex(ns, m)
    {
      TopFirstSeenPair(source, numLanguages, l, m);
    }
  }

  lemma TopFirstSeenPair(source: seq<Record>, numLanguages: nat, l: string, m: string)
    requires source != [] && Tally(source).keys != []
    requires var last := LastKey(Tally(source));
             l in Top(source, numLanguages) && m in NamesAt(source, last) && m !in Top(source, numLanguages) &&
             SumOf(source, last, l) == SumOf(source, last, m)
    ensures var ns := NamesAt(source, LastKey(Tally(source)));
            l in ns && FirstIndex(ns, l) < FirstIndex(ns, m)
  {
    var t := Tally(source);
    TallyWellFormed(source);
    var last := LastKey(t);
    var ns := NamesAt(source, last);
    assert QuarterOf(t, last) == t.quarters[last];
    LanguagesFirstSeen(source, last);
    DistinctSpec(ns);
    TallyLanguage(source, last, l);
    TallyLanguage(source, last, m);
    TopTie(t, numLanguages, l, m);
    DistinctOrder(ns, l, m);
  }

  /** The languages of the filtered records are exactly the selected languages. */
  lemma FilteredLanguages(source: seq<Record>, numLanguages: nat)
    requires source != []
    ensures var top := Top(source, numLanguages);
      forall l :: l in LanguageNames(Filtered(source, top)) <==> l in top
  {
    var top := Top(source, numLanguages);
    var f := Filtered(source, top);
    TopReported(source, numLanguages);
    FilteredMembers(source, top);
    forall l | l in LanguageNames(f)
      ensures l in top
    {
      var j :| 0 <= j < |f| && LanguageNames(f)[j] == l;
      assert f[j] in f;
    }
  }

  /**
   * The distinct keys of the records kept for `top`: each once, exactly the keys
   * of the source records of selected languages, in the order in which they
   * first occur among the kept records, and all present in the accumulator.
   */
  lemma KeptLabels(source: seq<Record>, top: seq<string>)
    ensures var keys := QuarterKeys(Filtered(source, top));
            var labels := Distinct(keys);
      && NoDuplicates(labels)
      && (forall k :: k in labels <==> k in keys)
      && (forall k :: k in labels <==>
            exists i :: 0 <= i < |source| && source[i].name in top && KeyOf(source[i]) == k)
      && (forall i, j :: 0 <= i < j < |labels| ==> FirstIndex(keys, labels[i]) < FirstIndex(keys, labels[j]))
      && KeysPresent(labels, Tally(source))
  {
    var keys := QuarterKeys(Filtered(source, top));
    DistinctSpec(keys);
    FilteredKeysPresent(source, top);
    forall k
      ensures k in keys <==> exists i :: 0 <= i < |source| && source[i].name in top && KeyOf(source[i]) == k
    {
      FilteredKey(source, top, k);
    }
  }

  /** A key occurs among the kept records exactly when a source record of a selected language has it. */
  lemma FilteredKey(source: seq<Record>, top: seq<string>, k: string)
    ensures k in QuarterKeys(Filtered(source, top)) <==>
            exists i :: 0 <= i < |source| && source[i].name in top && KeyOf(source[i]) == k
  {
    var f := Filtered(source, top);
    var keys := QuarterKeys(f);
    FilteredMembers(source, top);
    if k in keys {
      var j :| 0 <= j < |f| && keys[j] == k;
      assert f[j] in f;
      var i :| 0 <= i < |source| && source[i] == f[j];
    }
    if exists i :: 0 <= i < |source| && source[i].name in top && KeyOf(source[i]) == k {
      var i :| 0 <= i < |source| && source[i].name in top && KeyOf(source[i]) == k;
      assert source[i] in f;
      var j :| 0 <= j < |f| && f[j] == source[i];
      assert keys[j] == k;
    }
  }

  /**
   * The chart's labels are the distinct keys of the selected records, each
   * once, in the order in which they first occur among those records.
   */
  lemma ChartLabels(source: seq<Record>, numLanguages: nat, palette: nat -> Rgb)
    requires source != []
    ensures var top := Top(source, numLanguages);
            var keys := QuarterKeys(Filtered(source, top));
            var labels := ChartFrom(source, numLanguages, palette).labels;
      && labels == Distinct(keys)
      && NoDuplicates(labels)
      && (forall k :: k in labels <==> k in keys)
      && (forall k :: k in labels <==>
            exists i :: 0 <= i < |source| && source[i].name in top && KeyOf(source[i]) == k)
      && (forall i, j :: 0 <= i < j < |labels| ==> FirstIndex(keys, labels[i]) < FirstIndex(keys, labels[j]))
      && KeysPresent(labels, Tally(source))
  {
    KeptLabels(source, Top(source, numLanguages));
  }

  /** The datasets of the chart, index by index. */
  lemma ChartDatasetsAt(source: seq<Record>, numLanguages: nat, palette: nat -> Rgb)
    requires source != []
    ensures var top := Top(source, numLanguages);
            var languages := Distinct(LanguageNames(Filtered(source, top)));
            var c := ChartFrom(source, numLanguages, palette);
      && |c.datasets| == |languages|
      && forall i :: 0 <= i < |languages| ==>
           c.datasets[i] == Dataset(languages[i], SharesFor(Tally(source), top, c.labels, languages[i]),
                                    false, Some(ColorText(palette(i))), None, None)
  {
  }

  /**
   * One dataset per selected language, each once, in the order in which each
   * first occurs among the selected records: `min(numLanguages, languages of
   * the last quarter)` of them. Each is an unfilled line in the colour drawn
   * for its position, without a background colour or border width.
   */
  lemma ChartDatasets(source: seq<Record>, numLanguages: nat, palette: nat -> Rgb)
    requires source != []
    ensures var top := Top(source, numLanguages);
            var f := Filtered(source, top);
            var ds := ChartFrom(source, numLanguages, palette).datasets;
            var names := LabelsOf(ds);
      && names == Distinct(LanguageNames(f))
      && NoDuplicates(names)
      && (forall l :: l in names <==> l in LanguageNames(f))
      && (forall l :: l in names <==> l in top)
      && |ds| == |top|
      && (forall i, j :: 0 <= i < j < |names| ==>
            FirstIndex(LanguageNames(f), names[i]) < FirstIndex(LanguageNames(f), names[j]))
      && (forall i :: 0 <= i < |ds| ==>
            !ds[i].fill && ds[i].borderColor == Some(ColorText(palette(i))) &&
            ds[i].backgroundColor.None? && ds[i].borderWidth.None?)
  {
    var t := Tally(source);
    TallyWellFormed(source);
    TallyNonEmpty(source);
    var top := Top(source, numLanguages);
    var f := Filtered(source, top);
    var languages := Distinct(LanguageNames(f));
    var ds := ChartFrom(source, numLanguages, palette).datasets;
    ChartDatasetsAt(source, numLanguages, palette);
    assert LabelsOf(ds) == languages;
    DistinctSpec(LanguageNames(f));
    FilteredLanguages(source, numLanguages);
    TopLanguagesSpec(t, numLanguages);
    SameElementsSameLength(languages, top);
  }

  /**
   * Every dataset has one value per label, and the value at a label is the
   * language's share of that quarter computed from the records.
   */
  lemma ChartCells(source: seq<Record>, numLanguages: nat, palette: nat -> Rgb)
    requires source != []
    ensures var top := Top(source, numLanguages);
            var c := ChartFrom(source, numLanguages, palette);
      forall i :: 0 <= i < |c.datasets| ==>
        && |c.datasets[i].data| == |c.labels|
        && forall j :: 0 <= j < |c.labels| ==>
             c.datasets[i].data[j] == RecordShare(source, top, c.labels[j], c.datasets[i].name)
  {
    var top := Top(source, numLanguages);
    var c := ChartFrom(source, numLanguages, palette);
    ChartDatasetsAt(source, numLanguages, palette);
    forall i, j | 0 <= i < |c.datasets| && 0 <= j < |c.labels|
      ensures c.datasets[i].data[j] == RecordShare(source, top, c.labels[j], c.datasets[i].name)
    {
      ShareFromRecords(source, top, c.labels[j], c.datasets[i].name);
    }
  }

  /** The values of all datasets at label `j`. */
  function Column(ds: seq<Dataset>, j: nat): seq<Cell>
    requires forall i :: 0 <= i < |ds| ==> j < |ds[i].data|
  {
    seq(|ds|, i requires 0 <= i < |ds| => ds[i].data[j])
  }

  /** The column at label `j` is the column of shares of the dataset languages in that quarter. */
  lemma ChartColumn(source: seq<Record>, numLanguages: nat, palette: nat -> Rgb, j: nat)
    requires source != []
    requires j < |ChartFrom(source, numLanguages, palette).labels|
    ensures var c := ChartFrom(source, numLanguages, palette);
      && (forall i :: 0 <= i < |c.datasets| ==> j < |c.datasets[i].data|)
      && Column(c.datasets, j) ==
           ShareColumn(QuarterOf(Tally(source), c.labels[j]), Top(source, numLanguages), LabelsOf(c.datasets))
  {
    ChartDatasetsAt(source, numLanguages, palette);
  }

  /**
   * At every label whose selected records have a positive total count, the
   * values of all datasets add up to exactly 100 and none is `NaN` or `Infinity`.
   */
  lemma ChartColumnsSumTo100(source: seq<Record>, numLanguages: nat, palette: nat -> Rgb, j: nat)
    requires source != []
    requires j < |ChartFrom(source, numLanguages, palette).labels|
    requires SelectedSum(source, ChartFrom(source, numLanguages, palette).labels[j], Top(source, numLanguages)) > 0
    ensures var ds := ChartFrom(source, numLanguages, palette).datasets;
      && (forall i :: 0 <= i < |ds| ==> j < |ds[i].data|)
      && ColumnTotal(Column(ds, j)) == 100.0
      && (forall i :: 0 <= i < |ds| ==> !ds[i].data[j].NaN? && !ds[i].data[j].Infinity?)
  {
    var t := Tally(source);
    var top := Top(source, numLanguages);
    var c := ChartFrom(source, numLanguages, palette);
    var ds := c.datasets;
    var k := c.labels[j];
    var q := QuarterOf(t, k);
    var names := LabelsOf(ds);
    ChartColumn(source, numLanguages, palette, j);
    assert SelectedTotal(q.languages, top) > 0 by {
      TallySelected(source, k, top);
    }
    assert NoDuplicates(Names(q.languages)) by {
      TallyWellFormed(source);
      ChartLabels(source, numLanguages, palette);
      assert k in c.labels;
    }
    assert NoDuplicates(names) && forall l :: l in names <==> l in top by {
      ChartDatasets(source, numLanguages, palette);
    }
    ColumnSumsTo100(q, top, names);
    forall i | 0 <= i < |ds|
      ensures !ds[i].data[j].NaN? && !ds[i].data[j].Infinity?
    {
      assert ds[i].data[j] == Column(ds, j)[i];
      ShareNaN(q, top, names[i]);
      ShareInfinity(q, top, names[i]);
    }
  }

  /** No cell of the chart is `Infinity`: every dataset's language is selected. */
  lemma NoInfinityCell(source: seq<Record>, numLanguages: nat, palette: nat -> Rgb, i: nat, j: nat)
    requires source != []
    requires i < |ChartFrom(source, numLanguages, palette).datasets|
    requires j < |ChartFrom(source, numLanguages, palette).labels|
    ensures var d := ChartFrom(source, numLanguages, palette).datasets[i];
      j < |d.data| && !d.data[j].Infinity?
  {
    var c := ChartFrom(source, numLanguages, palette);
    var names := LabelsOf(c.datasets);
    ChartColumn(source, numLanguages, palette, j);
    assert names[i] in Top(source, numLanguages) by {
      ChartDatasets(source, numLanguages, palette);
      assert names[i] in names;
    }
    assert c.datasets[i].data[j] == Column(c.datasets, j)[i];
    ShareInfinity(QuarterOf(Tally(source), c.labels[j]), Top(source, numLanguages), names[i]);
  }
}
