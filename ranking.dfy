/**
 * Selecting the languages to chart (Main.js:73-77): sort the quarter keys as
 * strings, take the last, sort that quarter's languages by count (descending,
 * stable) and keep the names of the first `numLanguages`.
 */
module Ranking {
  import opened Text
  import opened Unique
  import opened Grouping

  // ---------------------------------------------------------------------------
  // Object.keys(quarterLanguageTotals).sort()
  // ---------------------------------------------------------------------------

  function InsertKey(k: string, s: seq<string>): seq<string> {
    if s == [] || LexLessEq(k, s[0]) then [k] + s else [s[0]] + InsertKey(k, s[1..])
  }

  /** The default `sort()` on strings, written as an insertion sort. */
  function SortKeys(ks: seq<string>): seq<string> {
    if ks == [] then [] else InsertKey(ks[0], SortKeys(ks[1..]))
  }

  predicate KeysSorted(s: seq<string>) {
    forall i, j :: 0 <= i < j < |s| ==> LexLessEq(s[i], s[j])
  }

  lemma LexLessEqTransitive(a: string, b: string, c: string)
    requires LexLessEq(a, b) && LexLessEq(b, c)
    ensures LexLessEq(a, c)
  {
    if a != b && b != c {
      LexTransitive(a, b, c);
    }
  }

  lemma {:induction false} InsertKeySpec(k: string, s: seq<string>)
    requires KeysSorted(s)
    ensures multiset(InsertKey(k, s)) == multiset(s) + multiset{k}
    ensures KeysSorted(InsertKey(k, s))
    decreases |s|
  {
    if s == [] {
    } else if LexLessEq(k, s[0]) {
      forall j | 0 <= j < |s|
        ensures LexLessEq(k, s[j])
      {
        if j > 0 {
          LexLessEqTransitive(k, s[0], s[j]);
        }
      }
      assert s == [s[0]] + s[1..];
    } else {
      LexTotal(k, s[0]);
      var rest := InsertKey(k, s[1..]);
      InsertKeySpec(k, s[1..]);
      assert s == [s[0]] + s[1..];
      forall j | 0 <= j < |rest|
        ensures LexLessEq(s[0], rest[j])
      {
        assert rest[j] in multiset(rest);
        if rest[j] != k {
          assert rest[j] in multiset(s[1..]);
          var p :| 0 <= p < |s[1..]| && s[1..][p] == rest[j];
          assert s[p + 1] == rest[j];
        }
      }
    }
  }

  /** Sorting the keys keeps the same keys (with their multiplicity) and puts them in string order. */
  lemma {:induction false} SortKeysSpec(ks: seq<string>)
    ensures multiset(SortKeys(ks)) == multiset(ks)
    ensures KeysSorted(SortKeys(ks))
    decreases |ks|
  {
    if ks != [] {
      SortKeysSpec(ks[1..]);
      InsertKeySpec(ks[0], SortKeys(ks[1..]));
      assert ks == [ks[0]] + ks[1..];
    }
  }

  /**
   * `sortedQuarters[sortedQuarters.length - 1]`: a key present in the
   * accumulator, and no key sorts after it.
   */
  function LastKey(t: Totals): (last: string)
    requires t.keys != []
    ensures last in t.keys
    ensures forall k :: k in t.keys ==> LexLessEq(k, last)
  {
    SortKeysSpec(t.keys);
    var s := SortKeys(t.keys);
    assert |s| == |multiset(s)| == |multiset(t.keys)| == |t.keys|;
    assert s[|s| - 1] in multiset(t.keys);
    forall k | k in t.keys
      ensures LexLessEq(k, s[|s| - 1])
    {
      assert k in multiset(s);
      var i :| 0 <= i < |s| && s[i] == k;
      if i < |s| - 1 {
        assert LexLessEq(s[i], s[|s| - 1]);
      }
    }
    s[|s| - 1]
  }

  /**
   * With years of one digit count and single-digit quarters, string order on
   * keys is chronological order.
   */
  lemma KeyOrder(year: nat, quarter: nat, year': nat, quarter': nat)
    requires |Decimal(year)| == |Decimal(year')| && quarter < 10 && quarter' < 10
    ensures LexLess(QuarterKey(year, quarter), QuarterKey(year', quarter')) <==>
            year < year' || (year == year' && quarter < quarter')
  {
    var a, b := "-" + Decimal(quarter), "-" + Decimal(quarter');
    assert QuarterKey(year, quarter) == Decimal(year) + a;
    assert QuarterKey(year', quarter') == Decimal(year') + b;
    LexConcat(Decimal(year), Decimal(year'), a, b);
    DecimalOrder(year, year');
    DecimalInjective(year, year');
    assert a[1..] == Decimal(quarter) && b[1..] == Decimal(quarter');
    DecimalOrder(quarter, quarter');
  }

  /** A record's quarter is not after another's. */
  predicate NotLater(r: Record, s: Record) {
    r.year < s.year || (r.year == s.year && r.quarter <= s.quarter)
  }

  /**
   * When every year has the same number of digits and every quarter one digit,
   * the last sorted key is the key of a record no record is later than.
   */
  lemma LastKeyIsLatest(source: seq<Record>, width: nat)
    requires source != []
    requires forall i :: 0 <= i < |source| ==> |Decimal(source[i].year)| == width && source[i].quarter < 10
    ensures Tally(source).keys != []
    ensures exists i :: 0 <= i < |source| && KeyOf(source[i]) == LastKey(Tally(source)) &&
              forall j :: 0 <= j < |source| ==> NotLater(source[j], source[i])
  {
    var t := Tally(source);
    TallyNonEmpty(source);
    TallyWellFormed(source);
    var last := LastKey(t);
    TallyKeys(source, last);
    var i :| 0 <= i < |source| && KeyOf(source[i]) == last;
    forall j | 0 <= j < |source|
      ensures NotLater(source[j], source[i])
    {
      TallyKeys(source, KeyOf(source[j]));
      KeyInjective(source[j], source[i]);
      KeyOrder(source[j].year, source[j].quarter, source[i].year, source[i].quarter);
    }
  }

  // ---------------------------------------------------------------------------
  // Object.entries(languages).sort(([, a], [, b]) => b - a)
  // ---------------------------------------------------------------------------

  /** Put `e` before the first entry whose count is not larger, which keeps equal counts in input order. */
  function InsertByCount(e: Entry, s: seq<Entry>): seq<Entry> {
    if s == [] || s[0].count <= e.count then [e] + s else [s[0]] + InsertByCount(e, s[1..])
  }

  /** The stable sort by descending count, written as an insertion sort. */
  function SortByCount(es: seq<Entry>): seq<Entry> {
    if es == [] then [] else InsertByCount(es[0], SortByCount(es[1..]))
  }

  predicate Descending(s: seq<Entry>) {
    forall i, j :: 0 <= i < j < |s| ==> s[i].count >= s[j].count
  }

  /** The entries with count `c`, in their order. */
  function WithCount(s: seq<Entry>, c: nat): seq<Entry> {
    if s == [] then [] else (if s[0].count == c then [s[0]] else []) + WithCount(s[1..], c)
  }

  lemma {:induction false} InsertByCountSpec(e: Entry, s: seq<Entry>)
    requires Descending(s)
    ensures multiset(InsertByCount(e, s)) == multiset(s) + multiset{e}
    ensures Descending(InsertByCount(e, s))
    decreases |s|
  {
    if s == [] {
    } else if s[0].count <= e.count {
      assert s == [s[0]] + s[1..];
    } else {
      InsertByCountSpec(e, s[1..]);
      InsertBelowHead(e, s, InsertByCount(e, s[1..]));
    }
  }

  /** Putting the head of a descending `s` in front of a descending permutation of the rest plus `e`. */
  lemma InsertBelowHead(e: Entry, s: seq<Entry>, rest: seq<Entry>)
    requires s != [] && Descending(s) && s[0].count > e.count
    requires multiset(rest) == multiset(s[1..]) + multiset{e} && Descending(rest)
    ensures multiset([s[0]] + rest) == multiset(s) + multiset{e}
    ensures Descending([s[0]] + rest)
  {
    assert s == [s[0]] + s[1..];
    forall j | 0 <= j < |rest|
      ensures s[0].count >= rest[j].count
    {
      assert rest[j] in multiset(rest);
      if rest[j] != e {
        assert rest[j] in multiset(s[1..]);
        var p :| 0 <= p < |s[1..]| && s[1..][p] == rest[j];
        assert s[p + 1] == rest[j];
      }
    }
    var r := [s[0]] + rest;
    forall i, j | 0 <= i < j < |r|
      ensures r[i].count >= r[j].count
    {
      if i > 0 {
        assert r[i] == rest[i - 1] && r[j] == rest[j - 1];
      } else {
        assert r[j] == rest[j - 1];
      }
    }
  }

  /** Inserting `e` puts it ahead of every entry of equal count that was already there. */
  lemma {:induction false} InsertByCountStable(e: Entry, s: seq<Entry>, c: nat)
    ensures WithCount(InsertByCount(e, s), c) == (if e.count == c then [e] else []) + WithCount(s, c)
    decreases |s|
  {
    if s != [] && s[0].count > e.count {
      InsertByCountStable(e, s[1..], c);
      assert InsertByCount(e, s)[1..] == InsertByCount(e, s[1..]);
    }
  }

  /** The sort keeps the entries (a permutation) and orders them by non-increasing count. */
  lemma {:induction false} SortByCountSpec(es: seq<Entry>)
    ensures multiset(SortByCount(es)) == multiset(es)
    ensures Descending(SortByCount(es))
    decreases |es|
  {
    if es != [] {
      SortByCountSpec(es[1..]);
      InsertByCountSpec(es[0], SortByCount(es[1..]));
      assert es == [es[0]] + es[1..];
    }
  }

  /** The sort is stable: the entries of any one count keep their input order. */
  lemma {:induction false} SortByCountStable(es: seq<Entry>, c: nat)
    ensures WithCount(SortByCount(es), c) == WithCount(es, c)
    decreases |es|
  {
    if es != [] {
      SortByCountStable(es[1..], c);
      InsertByCountStable(es[0], SortByCount(es[1..]), c);
    }
  }

  /** An entry of count `c` is kept by `WithCount`. */
  lemma {:induction false} WithCountMember(s: seq<Entry>, c: nat, x: Entry)
    requires x in s && x.count == c
    ensures x in WithCount(s, c)
    decreases |s|
  {
    if s[0] != x {
      WithCountMember(s[1..], c, x);
    }
  }

  /** Two entries of count `c` come in the same order in `s` and in `WithCount(s, c)`. */
  lemma {:induction false} WithCountOrder(s: seq<Entry>, c: nat, x: Entry, y: Entry)
    requires x in s && y in s && x.count == c && y.count == c
    ensures x in WithCount(s, c) && y in WithCount(s, c)
    ensures FirstIndex(s, x) < FirstIndex(s, y) <==>
            FirstIndex(WithCount(s, c), x) < FirstIndex(WithCount(s, c), y)
    decreases |s|
  {
    WithCountMember(s, c, x);
    WithCountMember(s, c, y);
    var w := WithCount(s, c);
    if s[0] == x || s[0] == y {
      assert w[0] == s[0];
    } else {
      assert s == [s[0]] + s[1..];
      assert x in s[1..] && y in s[1..];
      WithCountShift(s[0], s[1..], x);
      WithCountShift(s[0], s[1..], y);
      WithCountOrder(s[1..], c, x, y);
      var w' := WithCount(s[1..], c);
      if s[0].count == c {
        assert w == [s[0]] + w';
        WithCountShift(s[0], w', x);
        WithCountShift(s[0], w', y);
      } else {
        assert w == w';
      }
    }
  }

  /** Putting an element other than `x` in front moves `x`'s first position by one. */
  lemma WithCountShift(e: Entry, w: seq<Entry>, x: Entry)
    requires x in w && e != x
    ensures FirstIndex([e] + w, x) == 1 + FirstIndex(w, x)
  {
    assert ([e] + w)[1..] == w;
  }

  /**
   * Stability in terms of positions: two entries of equal count keep their
   * relative order through the sort.
   */
  lemma SortByCountKeepsTies(es: seq<Entry>, x: Entry, y: Entry)
    requires x in es && y in es && x.count == y.count
    ensures x in SortByCount(es) && y in SortByCount(es)
    ensures FirstIndex(SortByCount(es), x) < FirstIndex(SortByCount(es), y) <==>
            FirstIndex(es, x) < FirstIndex(es, y)
  {
    SortByCountSpec(es);
    assert x in multiset(SortByCount(es)) && y in multiset(SortByCount(es));
    SortByCountStable(es, x.count);
    WithCountOrder(es, x.count, x, y);
    WithCountOrder(SortByCount(es), x.count, x, y);
  }

  /** With names listed once, the `p`-th entry is first found at `p`, by itself or by its name. */
  lemma EntryPosition(es: seq<Entry>, p: nat)
    requires NoDuplicates(Names(es)) && p < |es|
    ensures FirstIndex(es, es[p]) == p
    ensures es[p].language in Names(es) && FirstIndex(Names(es), es[p].language) == p
  {
    var ns := Names(es);
    assert ns[p] == es[p].language;
    forall i | 0 <= i < p
      ensures es[i] != es[p] && ns[i] != ns[p]
    {
      assert ns[i] == es[i].language;
    }
    NotBefore(es, p);
    NotBefore(ns, p);
    FirstIndexUnique(es, es[p], p);
    FirstIndexUnique(ns, ns[p], p);
  }

  // ---------------------------------------------------------------------------
  // topLanguages
  // ---------------------------------------------------------------------------

  function Min(a: nat, b: nat): nat {
    if a < b then a else b
  }

  /** The languages of the last quarter, ranked. */
  function Ranked(t: Totals): seq<Entry>
    requires WellFormed(t) && t.keys != []
  {
    SortByCount(t.quarters[LastKey(t)].languages)
  }

  /** `topLanguages`: the names of the first `numLanguages` ranked entries (`slice` stops at the end). */
  function TopLanguages(t: Totals, numLanguages: nat): seq<string>
    requires WellFormed(t) && t.keys != []
  {
    var ranked := Ranked(t);
    var n := Min(numLanguages, |ranked|);
    Names(ranked[..n])
  }

  lemma EntryMember(es: seq<Entry>, e: Entry)
    requires e in es
    ensures e.language in Names(es)
  {
    var i :| 0 <= i < |es| && es[i] == e;
    assert Names(es)[i] == e.language;
  }

  /** `languages[name]` finds the first entry with that name. */
  lemma {:induction false} LookupAt(es: seq<Entry>, p: nat)
    requires p < |es| && forall k :: 0 <= k < p ==> es[k].language != es[p].language
    ensures Lookup(es, es[p].language) == es[p].count
  {
    if p > 0 {
      LookupAt(es[1..], p - 1);
    }
  }

  /** In a `languages` list without repeated names, an entry's count is what its name looks up. */
  lemma LookupOfMember(es: seq<Entry>, e: Entry)
    requires NoDuplicates(Names(es)) && e in es
    ensures Lookup(es, e.language) == e.count
  {
    var p :| 0 <= p < |es| && es[p] == e;
    forall k | 0 <= k < p
      ensures es[k].language != es[p].language
    {
      assert Names(es)[k] != Names(es)[p];
    }
    LookupAt(es, p);
  }

  lemma {:induction false} InsertByCountMembers(e: Entry, s: seq<Entry>)
    ensures forall x :: x in InsertByCount(e, s) <==> x == e || x in s
    decreases |s|
  {
    if s != [] && s[0].count > e.count {
      InsertByCountMembers(e, s[1..]);
      assert s == [s[0]] + s[1..];
    }
  }

  /** Putting an entry with a new name in front keeps the names listed once each. */
  lemma ConsUnique(x: Entry, rest: seq<Entry>)
    requires NoDuplicates(Names(rest)) && forall y :: y in rest ==> y.language != x.language
    ensures NoDuplicates(Names([x] + rest))
  {
    var r := [x] + rest;
    forall i, j | 0 <= i < j < |r|
      ensures Names(r)[i] != Names(r)[j]
    {
      assert r[j] == rest[j - 1] && rest[j - 1] in rest;
      if i > 0 {
        assert Names(rest)[i - 1] != Names(rest)[j - 1];
      }
    }
  }

  lemma {:induction false} InsertByCountUnique(e: Entry, s: seq<Entry>)
    requires NoDuplicates(Names(s)) && forall x :: x in s ==> x.language != e.language
    ensures NoDuplicates(Names(InsertByCount(e, s)))
    decreases |s|
  {
    if s != [] && s[0].count > e.count {
      var rest := InsertByCount(e, s[1..]);
      assert forall x :: x in s[1..] ==> x in s;
      NamesCons(s);
      NoDuplicatesTail(Names(s));
      InsertByCountUnique(e, s[1..]);
      InsertByCountMembers(e, s[1..]);
      forall y | y in rest
        ensures y.language != s[0].language
      {
        if y != e {
          var q :| 0 <= q < |s[1..]| && s[1..][q] == y;
          assert Names(s)[0] != Names(s)[q + 1];
        }
      }
      ConsUnique(s[0], rest);
    } else {
      ConsUnique(e, s);
    }
  }

  /** Sorting keeps the names listed once each, and keeps exactly the same entries. */
  lemma {:induction false} SortByCountUnique(es: seq<Entry>)
    requires NoDuplicates(Names(es))
    ensures NoDuplicates(Names(SortByCount(es)))
    ensures forall x :: x in SortByCount(es) <==> x in es
    decreases |es|
  {
    if es != [] {
      assert es == [es[0]] + es[1..];
      NamesCons(es);
      NoDuplicatesTail(Names(es));
      SortByCountUnique(es[1..]);
      var s := SortByCount(es[1..]);
      InsertByCountMembers(es[0], s);
      forall x | x in s
        ensures x.language != es[0].language
      {
        var q :| 0 <= q < |es[1..]| && es[1..][q] == x;
        assert es[q + 1] == x;
        assert Names(es)[0] != Names(es)[q + 1];
      }
      InsertByCountUnique(es[0], s);
    }
  }

  /**
   * `topLanguages` has `min(numLanguages, languages in the last quarter)` names,
   * each once; all are languages of the last sorted key, so a language absent
   * from that quarter is never selected whatever its earlier totals; they are
   * ordered by non-increasing count there; no language left out counts more
   * in that quarter than a selected one; and where a selected and a left-out
   * language count the same, the selected one comes first in the quarter's
   * property order (the sort is stable).
   */
  lemma TopLanguagesSpec(t: Totals, numLanguages: nat)
    requires WellFormed(t) && t.keys != []
    ensures var es := t.quarters[LastKey(t)].languages;
            var top := TopLanguages(t, numLanguages);
      && |top| == Min(numLanguages, |es|)
      && NoDuplicates(top)
      && (forall l :: l in top ==> l in Names(es))
      && (forall i, j :: 0 <= i < j < |top| ==> Lookup(es, top[i]) >= Lookup(es, top[j]))
      && (forall l, m :: l in Names(es) && l !in top && m in top ==> Lookup(es, l) <= Lookup(es, m))
      && (forall l, m :: l in top && m in Names(es) && m !in top && Lookup(es, l) == Lookup(es, m) ==>
            FirstIndex(Names(es), l) < FirstIndex(Names(es), m))
  {
    var es := t.quarters[LastKey(t)].languages;
    var ranked := Ranked(t);
    RankedFacts(t);
    var n := Min(numLanguages, |ranked|);
    var top := TopLanguages(t, numLanguages);
    assert |top| == n;
    assert forall i :: 0 <= i < n ==> top[i] == ranked[i].language;
    forall i, j | 0 <= i < j < n
      ensures top[i] != top[j]
    {
      assert Names(ranked)[i] != Names(ranked)[j];
    }
    forall l, m | l in Names(es) && l !in top && m in top
      ensures Lookup(es, l) <= Lookup(es, m)
    {
      var p :| 0 <= p < |es| && es[p].language == l;
      assert es[p] in es;
      var q :| 0 <= q < |ranked| && ranked[q] == es[p];
      var i :| 0 <= i < n && top[i] == m;
    }
    forall l, m | l in top && m in Names(es) && m !in top && Lookup(es, l) == Lookup(es, m)
      ensures FirstIndex(Names(es), l) < FirstIndex(Names(es), m)
    {
      TopTie(t, numLanguages, l, m);
    }
  }

  /** Two sorted entries of equal count keep, in the input's names, the order they have after the sort. */
  lemma SortedTie(es: seq<Entry>, i: nat, q: nat)
    requires NoDuplicates(Names(es)) && NoDuplicates(Names(SortByCount(es)))
    requires i < q < |SortByCount(es)| && SortByCount(es)[i].count == SortByCount(es)[q].count
    ensures SortByCount(es)[i].language in Names(es) && SortByCount(es)[q].language in Names(es)
    ensures FirstIndex(Names(es), SortByCount(es)[i].language) < FirstIndex(Names(es), SortByCount(es)[q].language)
  {
    var ranked := SortByCount(es);
    SortByCountUnique(es);
    var x, y := ranked[i], ranked[q];
    assert x in ranked && y in ranked;
    var px :| 0 <= px < |es| && es[px] == x;
    var py :| 0 <= py < |es| && es[py] == y;
    SortByCountKeepsTies(es, x, y);
    EntryPosition(ranked, i);
    EntryPosition(ranked, q);
    EntryPosition(es, px);
    EntryPosition(es, py);
  }

  lemma NameInPrefix(es: seq<Entry>, n: nat, q: nat)
    requires q < n <= |es|
    ensures es[q].language in Names(es[..n])
  {
    assert Names(es[..n])[q] == es[q].language;
  }

  /** A selected language precedes, in property order, any equally counted language left out. */
  lemma TopTie(t: Totals, numLanguages: nat, l: string, m: string)
    requires WellFormed(t) && t.keys != []
    requires var es := t.quarters[LastKey(t)].languages;
             var top := TopLanguages(t, numLanguages);
             l in top && m in Names(es) && m !in top && Lookup(es, l) == Lookup(es, m)
    ensures var es := t.quarters[LastKey(t)].languages;
            l in Names(es) && FirstIndex(Names(es), l) < FirstIndex(Names(es), m)
  {
    var es := t.quarters[LastKey(t)].languages;
    var ranked := Ranked(t);
    RankedFacts(t);
    var n := Min(numLanguages, |ranked|);
    var top := TopLanguages(t, numLanguages);
    var i :| 0 <= i < n && top[i] == l;
    assert top[i] == ranked[i].language;
    var p :| 0 <= p < |es| && Names(es)[p] == m;
    assert es[p] in es;
    var q :| 0 <= q < |ranked| && ranked[q] == es[p];
    if q < n {
      NameInPrefix(ranked, n, q);
    }
    SortedTie(es, i, q);
  }

  /** What the ranking keeps of the last quarter's entries. */
  lemma RankedFacts(t: Totals)
    requires WellFormed(t) && t.keys != []
    ensures var es := t.quarters[LastKey(t)].languages;
            var ranked := Ranked(t);
      && |ranked| == |es|
      && Descending(ranked)
      && NoDuplicates(Names(ranked))
      && (forall x :: x in ranked <==> x in es)
      && (forall i :: 0 <= i < |ranked| ==>
            Lookup(es, ranked[i].language) == ranked[i].count && ranked[i].language in Names(es))
  {
    var es := t.quarters[LastKey(t)].languages;
    var ranked := Ranked(t);
    SortByCountSpec(es);
    SortByCountUnique(es);
    assert |ranked| == |multiset(ranked)| == |multiset(es)| == |es|;
    forall i | 0 <= i < |ranked|
      ensures Lookup(es, ranked[i].language) == ranked[i].count
      ensures ranked[i].language in Names(es)
    {
      assert ranked[i] in ranked;
      LookupOfMember(es, ranked[i]);
      EntryMember(es, ranked[i]);
    }
  }
}
