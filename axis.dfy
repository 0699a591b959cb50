/**
 * The x-axis tick `callback` of Main.js (lines 137-143): a label is shown as
 * `year - Qquarter` when its year differs from the previous label's year,
 * and as the empty string otherwise.
 */
module Axis {
  import opened Wrappers
  import opened Text
  import opened Grouping
  import opened Colors
  import opened Series
  import opened ChartFacts

  /** `parts[i]` of a `split` result, as a template literal renders it (`undefined` past the end). */
  function PartText(parts: seq<string>, i: nat): string {
    if i < |parts| then parts[i] else "undefined"
  }

  /**
   * The text of the tick at `index`. `None` stands for the `TypeError` of
   * `label.split` when there is no label at that index. For the first label,
   * `chartData.labels[-1]` is `undefined`; an `undefined` or empty previous
   * label leaves `prevYear` `undefined`, which no year equals.
   */
  function Tick(labels: seq<string>, index: nat): Option<string> {
    if index >= |labels| then None
    else
      var parts := Split(labels[index], '-');
      var year := parts[0];
      var prevYear: Option<string> :=
        if index == 0 || labels[index - 1] == "" then None else Some(Split(labels[index - 1], '-')[0]);
      if prevYear == Some(year) then Some("") else Some(year + " - Q" + PartText(parts, 1))
  }

  /** The first label is always shown, in full. */
  lemma FirstTickShown(labels: seq<string>, year: nat, quarter: nat)
    requires labels != [] && labels[0] == QuarterKey(year, quarter)
    ensures Tick(labels, 0) == Some(Decimal(year) + " - Q" + Decimal(quarter))
  {
    KeySplit(year, quarter);
  }

  /**
   * A later label is shown as `year - Qquarter` exactly when its year differs
   * from the previous label's year, and is blank otherwise.
   */
  lemma LaterTick(labels: seq<string>, index: nat, year: nat, quarter: nat, prevYear: nat, prevQuarter: nat)
    requires 0 < index < |labels|
    requires labels[index] == QuarterKey(year, quarter)
    requires labels[index - 1] == QuarterKey(prevYear, prevQuarter)
    ensures Tick(labels, index) == if year == prevYear then Some("") else Some(Decimal(year) + " - Q" + Decimal(quarter))
  {
    KeySplit(year, quarter);
    KeySplit(prevYear, prevQuarter);
    DecimalInjective(year, prevYear);
  }

  /** Every label of the chart is the key of some record. */
  lemma ChartLabelsAreKeys(source: seq<Record>, numLanguages: nat, palette: nat -> Rgb, index: nat)
    requires source != []
    requires index < |ChartFrom(source, numLanguages, palette).labels|
    ensures exists i :: 0 <= i < |source| && KeyOf(source[i]) == ChartFrom(source, numLanguages, palette).labels[index]
  {
    ChartLabels(source, numLanguages, palette);
    var labels := ChartFrom(source, numLanguages, palette).labels;
    assert labels[index] in labels;
  }

  /** Some record of quarter `k` and some record of quarter `k'` have the same year. */
  predicate SameYear(source: seq<Record>, k: string, k': string) {
    exists i, j :: 0 <= i < |source| && 0 <= j < |source| &&
      KeyOf(source[i]) == k && KeyOf(source[j]) == k' && source[i].year == source[j].year
  }

  /** For keys of records, sharing a year is decided by any one pair of records with those keys. */
  lemma SameYearOfPair(source: seq<Record>, i: nat, j: nat)
    requires i < |source| && j < |source|
    ensures SameYear(source, KeyOf(source[i]), KeyOf(source[j])) <==> source[i].year == source[j].year
  {
    if SameYear(source, KeyOf(source[i]), KeyOf(source[j])) {
      var i', j' :| 0 <= i' < |source| && 0 <= j' < |source| &&
        KeyOf(source[i']) == KeyOf(source[i]) && KeyOf(source[j']) == KeyOf(source[j]) &&
        source[i'].year == source[j'].year;
      KeyInjective(source[i'], source[i]);
      KeyInjective(source[j'], source[j]);
    }
  }

  /** Every label is the key of some record. */
  predicate AllKeys(source: seq<Record>, labels: seq<string>) {
    forall k :: k in labels ==> exists i :: 0 <= i < |source| && KeyOf(source[i]) == k
  }

  /**
   * On labels that are all keys of records, the callback never fails and shows
   * the first label. It leaves a later label blank exactly when some record of
   * that label and some record of the previous label have the same year.
   */
  lemma KeyTicks(source: seq<Record>, labels: seq<string>, index: nat)
    requires AllKeys(source, labels) && index < |labels|
    ensures && Tick(labels, index).Some?
            && (index == 0 ==> Tick(labels, index) != Some(""))
            && (index > 0 ==> (Tick(labels, index) == Some("") <==> SameYear(source, labels[index], labels[index - 1])))
  {
    assert labels[index] in labels;
    var i :| 0 <= i < |source| && KeyOf(source[i]) == labels[index];
    if index == 0 {
      FirstTickShown(labels, source[i].year, source[i].quarter);
    } else {
      assert labels[index - 1] in labels;
      var j :| 0 <= j < |source| && KeyOf(source[j]) == labels[index - 1];
      LaterTick(labels, index, source[i].year, source[i].quarter, source[j].year, source[j].quarter);
      SameYearOfPair(source, i, j);
    }
  }

  /** The chart's own labels are all keys of records, so `KeyTicks` describes its ticks. */
  lemma ChartTicks(source: seq<Record>, numLanguages: nat, palette: nat -> Rgb, index: nat)
    requires source != []
    requires index < |ChartFrom(source, numLanguages, palette).labels|
    ensures var labels := ChartFrom(source, numLanguages, palette).labels;
      && Tick(labels, index).Some?
      && (index == 0 ==> Tick(labels, index) != Some(""))
      && (index > 0 ==> (Tick(labels, index) == Some("") <==> SameYear(source, labels[index], labels[index - 1])))
  {
    var labels := ChartFrom(source, numLanguages, palette).labels;
    forall k | k in labels
      ensures exists i :: 0 <= i < |source| && KeyOf(source[i]) == k
    {
      var m :| 0 <= m < |labels| && labels[m] == k;
      ChartLabelsAreKeys(source, numLanguages, palette, m);
    }
    KeyTicks(source, labels, index);
  }
}
