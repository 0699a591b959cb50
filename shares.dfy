/**
 * What the percentage shares of Main.js (lines 84-98) add up to: the
 * denominator `totalForSelectedLanguages` in terms of the records, and the
 * column of one label summing to 100 over the selected languages.
 */
module Shares {
  import opened Unique
  import opened Grouping
  import opened Series

  // ---------------------------------------------------------------------------
  // The denominator
  // ---------------------------------------------------------------------------

  /** The sum of the counts of the records with key `k` whose language is in `top`. */
  function SelectedSum(rs: seq<Record>, k: string, top: seq<string>): nat {
    if rs == [] then 0
    else
      var r := rs[|rs| - 1];
      SelectedSum(rs[..|rs| - 1], k, top) + (if KeyOf(r) == k && r.name in top then r.count else 0)
  }

  /** The selected total only depends on which of the quarter's languages count as selected. */
  lemma {:induction false} SelectedTotalAgree(es: seq<Entry>, a: seq<string>, b: seq<string>)
    requires forall i :: 0 <= i < |es| ==> (es[i].language in a <==> es[i].language in b)
    ensures SelectedTotal(es, a) == SelectedTotal(es, b)
    decreases |es|
  {
    if es != [] {
      SelectedTotalAgree(es[1..], a, b);
    }
  }

  /** Bumping a language adds its count to the selected total exactly when it is selected. */
  lemma {:induction false} BumpSelected(es: seq<Entry>, name: string, c: nat, top: seq<string>)
    ensures SelectedTotal(Bump(es, name, c), top) == SelectedTotal(es, top) + (if name in top then c else 0)
    decreases |es|
  {
    if es != [] && es[0].language != name {
      BumpSelected(es[1..], name, c, top);
      assert Bump(es, name, c)[1..] == Bump(es[1..], name, c);
    }
  }

  /**
   * `totalForSelectedLanguages` for a quarter is the summed count of all records
   * with that key whose language is selected.
   */
  lemma {:induction false} TallySelected(rs: seq<Record>, k: string, top: seq<string>)
    ensures SelectedTotal(QuarterOf(Tally(rs), k).languages, top) == SelectedSum(rs, k, top)
    decreases |rs|
  {
    if rs != [] {
      var p := rs[..|rs| - 1];
      var r := rs[|rs| - 1];
      TallySelected(p, k, top);
      if KeyOf(r) == k {
        BumpSelected(QuarterOf(Tally(p), k).languages, r.name, r.count, top);
      }
    }
  }

  /** A selected language's count is part of the selected total, so it never exceeds it. */
  lemma {:induction false} LookupAtMostSelected(es: seq<Entry>, top: seq<string>, language: string)
    requires language in top
    ensures Lookup(es, language) <= SelectedTotal(es, top)
    decreases |es|
  {
    if es != [] && es[0].language != language {
      LookupAtMostSelected(es[1..], top, language);
    }
  }

  /** Every share is a percentage between 0 and 100. */
  lemma ShareBounds(q: QuarterTotal, top: seq<string>, language: string)
    requires language in top
    ensures ShareCell(q, top, language).Percent? ==> 0.0 <= ShareCell(q, top, language).share <= 100.0
  {
    LookupAtMostSelected(q.languages, top, language);
    var a, s := Lookup(q.languages, language) as real, SelectedTotal(q.languages, top) as real;
    if ShareCell(q, top, language).Percent? {
      assert a / s <= 1.0;
    }
  }

  // ---------------------------------------------------------------------------
  // One column of the chart
  // ---------------------------------------------------------------------------

  /** The number a cell plots: its share, or 0. */
  function CellValue(c: Cell): real {
    if c.Percent? then c.share else 0.0
  }

  /** The sum of the plotted values of a column. */
  function ColumnTotal(cells: seq<Cell>): real {
    if cells == [] then 0.0 else CellValue(cells[0]) + ColumnTotal(cells[1..])
  }

  /** The cells of one label for the given languages, in order. */
  function ShareColumn(q: QuarterTotal, top: seq<string>, languages: seq<string>): (cells: seq<Cell>)
    ensures |cells| == |languages|
  {
    seq(|languages|, i requires 0 <= i < |languages| => ShareCell(q, top, languages[i]))
  }

  /** The summed counts of the given languages. */
  function LookupSum(es: seq<Entry>, languages: seq<string>): nat {
    if languages == [] then 0 else Lookup(es, languages[0]) + LookupSum(es, languages[1..])
  }

  /** Listing the languages once each, the selected total is the sum of their counts. */
  lemma {:induction false} SelectedTotalSplit(es: seq<Entry>, l: string, rest: seq<string>)
    requires NoDuplicates(Names(es)) && l !in rest
    ensures SelectedTotal(es, [l] + rest) == Lookup(es, l) + SelectedTotal(es, rest)
    decreases |es|
  {
    if es != [] {
      NamesCons(es);
      NoDuplicatesTail(Names(es));
      if es[0].language == l {
        forall i | 0 <= i < |es[1..]|
          ensures es[1..][i].language in [l] + rest <==> es[1..][i].language in rest
        {
          assert Names(es[1..])[i] == es[1..][i].language;
        }
        SelectedTotalAgree(es[1..], [l] + rest, rest);
      } else {
        SelectedTotalSplit(es[1..], l, rest);
      }
    }
  }

  lemma {:induction false} LookupSumIsSelected(es: seq<Entry>, languages: seq<string>)
    requires NoDuplicates(Names(es)) && NoDuplicates(languages)
    ensures LookupSum(es, languages) == SelectedTotal(es, languages)
    decreases |languages|
  {
    if languages == [] {
      forall i | 0 <= i < |es|
        ensures es[i].language in languages <==> es[i].language in []
      {
      }
      SelectedTotalAgree(es, languages, []);
      EmptySelected(es);
    } else {
      var rest := languages[1..];
      assert languages == [languages[0]] + rest;
      NoDuplicatesTail(languages);
      LookupSumIsSelected(es, rest);
      SelectedTotalSplit(es, languages[0], rest);
    }
  }

  lemma {:induction false} EmptySelected(es: seq<Entry>)
    ensures SelectedTotal(es, []) == 0
    decreases |es|
  {
    if es != [] {
      EmptySelected(es[1..]);
    }
  }

  /** The plotted value of one share is the language's count over the selected total, times 100. */
  lemma ShareValue(q: QuarterTotal, top: seq<string>, language: string)
    requires SelectedTotal(q.languages, top) > 0
    ensures CellValue(ShareCell(q, top, language)) ==
            Lookup(q.languages, language) as real / SelectedTotal(q.languages, top) as real * 100.0
  {
    if language !in Names(q.languages) {
      LookupAbsent(q.languages, language);
    }
  }

  lemma ShareAdd(a: real, b: real, s: real)
    requires s > 0.0
    ensures a / s * 100.0 + b / s * 100.0 == (a + b) / s * 100.0
  {
  }

  /** Summing a column: the summed counts of its languages over the selected total, times 100. */
  lemma {:induction false} ColumnTotalOfShares(q: QuarterTotal, top: seq<string>, languages: seq<string>)
    requires SelectedTotal(q.languages, top) > 0
    ensures ColumnTotal(ShareColumn(q, top, languages)) ==
            LookupSum(q.languages, languages) as real / SelectedTotal(q.languages, top) as real * 100.0
    decreases |languages|
  {
    if languages != [] {
      var cells := ShareColumn(q, top, languages);
      assert cells[1..] == ShareColumn(q, top, languages[1..]);
      ColumnTotalOfShares(q, top, languages[1..]);
      ShareValue(q, top, languages[0]);
      ShareAdd(Lookup(q.languages, languages[0]) as real, LookupSum(q.languages, languages[1..]) as real,
               SelectedTotal(q.languages, top) as real);
    }
  }

  /**
   * When the selected total of a quarter is positive, the shares of the selected
   * languages at that label add up to exactly 100.
   */
  lemma ColumnSumsTo100(q: QuarterTotal, top: seq<string>, languages: seq<string>)
    requires NoDuplicates(Names(q.languages)) && NoDuplicates(languages)
    requires forall l :: l in languages <==> l in top
    requires SelectedTotal(q.languages, top) > 0
    ensures ColumnTotal(ShareColumn(q, top, languages)) == 100.0
  {
    var es := q.languages;
    ColumnTotalOfShares(q, top, languages);
    LookupSumIsSelected(es, languages);
    forall i | 0 <= i < |es|
      ensures es[i].language in languages <==> es[i].language in top
    {
    }
    SelectedTotalAgree(es, languages, top);
    assert LookupSum(es, languages) == SelectedTotal(es, top);
    WholeShare(SelectedTotal(es, top) as real);
  }

  lemma WholeShare(s: real)
    requires s > 0.0
    ensures s / s * 100.0 == 100.0
  {
  }

  /**
   * A share is `NaN` exactly when the quarter lists the language with a count
   * of 0 and the selected total is zero, so a column with a positive total
   * holds no `NaN`.
   */
  lemma ShareNaN(q: QuarterTotal, top: seq<string>, language: string)
    ensures ShareCell(q, top, language).NaN? <==>
            language in Names(q.languages) && Lookup(q.languages, language) == 0 &&
            SelectedTotal(q.languages, top) == 0
  {
  }

  /**
   * A share is `Infinity` exactly when the quarter lists the language with a
   * positive count and the selected total is zero. That needs an unselected
   * language: a selected one's count is part of the total.
   */
  lemma ShareInfinity(q: QuarterTotal, top: seq<string>, language: string)
    ensures ShareCell(q, top, language).Infinity? <==>
            language in Names(q.languages) && Lookup(q.languages, language) > 0 &&
            SelectedTotal(q.languages, top) == 0
    ensures language in top ==> !ShareCell(q, top, language).Infinity?
  {
    if language in top {
      LookupAtMostSelected(q.languages, top, language);
    }
  }
}
