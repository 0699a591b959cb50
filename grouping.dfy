/**
 * The records of one activity source and the per-quarter accumulator that
 * the `reduce` in Main.js (lines 63-71) builds from them.
 */
module Grouping {
  import opened Text
  import opened Unique

  /** One row of a data source: a language's event count in one quarter. */
  datatype Record = Record(name: string, year: nat, quarter: nat, count: nat)

  /** The grouping key `${year}-${quarter}`. */
  function QuarterKey(year: nat, quarter: nat): string {
    Decimal(year) + "-" + Decimal(quarter)
  }

  function KeyOf(r: Record): string {
    QuarterKey(r.year, r.quarter)
  }

  /** A key `${year}-${quarter}` splits back into the year and the quarter. */
  lemma KeySplit(year: nat, quarter: nat)
    ensures Split(QuarterKey(year, quarter), '-') == [Decimal(year), Decimal(quarter)]
  {
    NoDashInDecimal(year);
    NoDashInDecimal(quarter);
    SplitFirst(Decimal(year), '-', Decimal(quarter));
    SplitNoSeparator(Decimal(quarter), '-');
  }

  /** Keys determine the year and the quarter. */
  lemma KeyInjective(r: Record, s: Record)
    ensures KeyOf(r) == KeyOf(s) <==> r.year == s.year && r.quarter == s.quarter
  {
    KeySplit(r.year, r.quarter);
    KeySplit(s.year, s.quarter);
    DecimalInjective(r.year, s.year);
    DecimalInjective(r.quarter, s.quarter);
  }

  /** One property of a quarter's `languages` object: a language and its summed count. */
  datatype Entry = Entry(language: string, count: nat)

  /**
   * The value `{ total, languages }` kept per quarter; `languages` is listed in
   * property insertion order, which is the order `Object.entries` reports.
   */
  datatype QuarterTotal = QuarterTotal(total: nat, languages: seq<Entry>)

  /** The accumulator object: its keys in insertion order and the value of each key. */
  datatype Totals = Totals(keys: seq<string>, quarters: map<string, QuarterTotal>)

  /** The property names of a `languages` object, in order. */
  function Names(es: seq<Entry>): seq<string> {
    seq(|es|, i requires 0 <= i < |es| => es[i].language)
  }

  /** `languages[name] || 0`. */
  function Lookup(es: seq<Entry>, name: string): nat {
    if es == [] then 0
    else if es[0].language == name then es[0].count
    else Lookup(es[1..], name)
  }

  /** The sum of all counts in a `languages` object. */
  function EntrySum(es: seq<Entry>): nat {
    if es == [] then 0 else es[0].count + EntrySum(es[1..])
  }

  /** `languages[name] = (languages[name] || 0) + c`: update in place, or append a new property. */
  function Bump(es: seq<Entry>, name: string, c: nat): seq<Entry> {
    if es == [] then [Entry(name, c)]
    else if es[0].language == name then [Entry(name, es[0].count + c)] + es[1..]
    else [es[0]] + Bump(es[1..], name, c)
  }

  /** `totals[yearQuarter] || { total: 0, languages: {} }`. */
  function QuarterOf(t: Totals, k: string): QuarterTotal {
    if k in t.quarters then t.quarters[k] else QuarterTotal(0, [])
  }

  /** One step of the reduce callback: the record's count goes to its quarter's total and to its language. */
  function Add(t: Totals, r: Record): Totals {
    var k := KeyOf(r);
    var lt := QuarterOf(t, k);
    var lt' := QuarterTotal(lt.total + r.count, Bump(lt.languages, r.name, r.count));
    Totals(if k in t.quarters then t.keys else t.keys + [k], t.quarters[k := lt'])
  }

  /** The accumulator after the reduce has visited every record, starting from `{}`. */
  function Tally(rs: seq<Record>): Totals {
    if rs == [] then Totals([], map[]) else Add(Tally(rs[..|rs| - 1]), rs[|rs| - 1])
  }

  /** The sum of the counts of all records whose key is `k`. */
  function SumAt(rs: seq<Record>, k: string): nat {
    if rs == [] then 0
    else SumAt(rs[..|rs| - 1], k) + (if KeyOf(rs[|rs| - 1]) == k then rs[|rs| - 1].count else 0)
  }

  /** The sum of the counts of all records whose key is `k` and whose language is `name`. */
  function SumOf(rs: seq<Record>, k: string, name: string): nat {
    if rs == [] then 0
    else
      var r := rs[|rs| - 1];
      SumOf(rs[..|rs| - 1], k, name) + (if KeyOf(r) == k && r.name == name then r.count else 0)
  }

  /**
   * The shape of every accumulator the reduce produces: keys listed once each and
   * exactly the keys present; in each quarter, languages listed once each and a
   * total equal to the sum of their counts.
   */
  predicate WellFormed(t: Totals) {
    && NoDuplicates(t.keys)
    && (forall k :: k in t.keys ==> k in t.quarters)
    && (forall k :: k in t.quarters ==> k in t.keys)
    && (forall k :: k in t.quarters ==>
          NoDuplicates(Names(t.quarters[k].languages)) &&
          t.quarters[k].total == EntrySum(t.quarters[k].languages))
  }

  /**
   * The reduce of Main.js:63-71 as the loop it is: the accumulator is updated in
   * place, one record at a time.
   */
  method GroupByQuarter(source: seq<Record>) returns (totals: Totals)
    ensures totals == Tally(source)
    ensures WellFormed(totals)
  {
    var keys: seq<string> := [];
    var quarters: map<string, QuarterTotal> := map[];
    for i := 0 to |source|
      invariant Totals(keys, quarters) == Tally(source[..i])
    {
      var item := source[i];
      ghost var before := Totals(keys, quarters);
      var yearQuarter := KeyOf(item);
      var languageTotal := if yearQuarter in quarters then quarters[yearQuarter] else QuarterTotal(0, []);
      languageTotal := languageTotal.(total := languageTotal.total + item.count);
      languageTotal := languageTotal.(languages := Bump(languageTotal.languages, item.name, item.count));
      if yearQuarter !in quarters {
        keys := keys + [yearQuarter];
      }
      quarters := quarters[yearQuarter := languageTotal];
      assert Totals(keys, quarters) == Add(before, item);
      TallyStep(source, i);
    }
    assert source[..|source|] == source;
    totals := Totals(keys, quarters);
    TallyWellFormed(source);
  }

  /** The reduce over one more record is one more step of `Add`. */
  lemma TallyStep(rs: seq<Record>, i: nat)
    requires i < |rs|
    ensures Tally(rs[..i + 1]) == Add(Tally(rs[..i]), rs[i])
  {
    assert rs[..i + 1][..i] == rs[..i];
  }

  // ---------------------------------------------------------------------------
  // One language update
  // ---------------------------------------------------------------------------

  lemma NamesCons(es: seq<Entry>)
    requires es != []
    ensures Names(es) == [es[0].language] + Names(es[1..])
  {
  }

  /** The language list grows by the name exactly when the name is new. */
  lemma {:induction false} BumpNames(es: seq<Entry>, name: string, c: nat)
    ensures Names(Bump(es, name, c)) == if name in Names(es) then Names(es) else Names(es) + [name]
  {
    if es != [] {
      NamesCons(es);
      NamesCons(Bump(es, name, c));
      if es[0].language != name {
        BumpNames(es[1..], name, c);
        assert Bump(es, name, c)[1..] == Bump(es[1..], name, c);
      }
    }
  }

  /** Only the bumped language's count changes, and it grows by `c`. */
  lemma {:induction false} BumpLookup(es: seq<Entry>, name: string, c: nat, other: string)
    ensures Lookup(Bump(es, name, c), other) == Lookup(es, other) + (if other == name then c else 0)
  {
    if es != [] && es[0].language != name {
      BumpLookup(es[1..], name, c, other);
    }
  }

  lemma {:induction false} BumpSum(es: seq<Entry>, name: string, c: nat)
    ensures EntrySum(Bump(es, name, c)) == EntrySum(es) + c
  {
    if es != [] && es[0].language != name {
      BumpSum(es[1..], name, c);
    }
  }

  lemma BumpKeepsDistinct(es: seq<Entry>, name: string, c: nat)
    requires NoDuplicates(Names(es))
    ensures NoDuplicates(Names(Bump(es, name, c)))
  {
    BumpNames(es, name, c);
  }

  /** A language is present exactly when its name is listed; an absent one looks up as 0. */
  lemma {:induction false} LookupAbsent(es: seq<Entry>, name: string)
    requires name !in Names(es)
    ensures Lookup(es, name) == 0
  {
    if es != [] {
      NamesCons(es);
      LookupAbsent(es[1..], name);
    }
  }

  // ---------------------------------------------------------------------------
  // The whole reduce
  // ---------------------------------------------------------------------------

  lemma {:induction false} TallyWellFormed(rs: seq<Record>)
    ensures WellFormed(Tally(rs))
    decreases |rs|
  {
    if rs != [] {
      var p := rs[..|rs| - 1];
      var r := rs[|rs| - 1];
      TallyWellFormed(p);
      var t := Tally(p);
      var k := KeyOf(r);
      BumpKeepsDistinct(QuarterOf(t, k).languages, r.name, r.count);
      BumpSum(QuarterOf(t, k).languages, r.name, r.count);
    }
  }

  /** A key is present exactly when some record has it. */
  lemma {:induction false} TallyKeys(rs: seq<Record>, k: string)
    ensures k in Tally(rs).quarters <==> exists i :: 0 <= i < |rs| && KeyOf(rs[i]) == k
    decreases |rs|
  {
    if rs != [] {
      var p, r := rs[..|rs| - 1], rs[|rs| - 1];
      TallyKeys(p, k);
      AddKeys(Tally(p), r, k);
      ExistsKeyStep(rs, p, k);
    }
  }

  /** A record of `rs` has key `k` exactly when one of its prefix `p` does or its last one does. */
  lemma ExistsKeyStep(rs: seq<Record>, p: seq<Record>, k: string)
    requires rs != [] && p == rs[..|rs| - 1]
    ensures (exists i :: 0 <= i < |rs| && KeyOf(rs[i]) == k) <==>
            (exists i :: 0 <= i < |p| && KeyOf(p[i]) == k) || KeyOf(rs[|rs| - 1]) == k
  {
    if exists i :: 0 <= i < |p| && KeyOf(p[i]) == k {
      var i :| 0 <= i < |p| && KeyOf(p[i]) == k;
      assert rs[i] == p[i];
    }
    if exists i :: 0 <= i < |rs| && KeyOf(rs[i]) == k {
      var i :| 0 <= i < |rs| && KeyOf(rs[i]) == k;
      if i < |p| {
        assert p[i] == rs[i];
      }
    }
  }

  /** The same split for records with key `k` and language `name`. */
  lemma ExistsEntryStep(rs: seq<Record>, p: seq<Record>, k: string, name: string)
    requires rs != [] && p == rs[..|rs| - 1]
    ensures (exists i :: 0 <= i < |rs| && KeyOf(rs[i]) == k && rs[i].name == name) <==>
            (exists i :: 0 <= i < |p| && KeyOf(p[i]) == k && p[i].name == name) ||
            (KeyOf(rs[|rs| - 1]) == k && rs[|rs| - 1].name == name)
  {
    if exists i :: 0 <= i < |p| && KeyOf(p[i]) == k && p[i].name == name {
      var i :| 0 <= i < |p| && KeyOf(p[i]) == k && p[i].name == name;
      assert rs[i] == p[i];
    }
    if exists i :: 0 <= i < |rs| && KeyOf(rs[i]) == k && rs[i].name == name {
      var i :| 0 <= i < |rs| && KeyOf(rs[i]) == k && rs[i].name == name;
      if i < |p| {
        assert p[i] == rs[i];
      }
    }
  }

  /** One step of the reduce lists `name` under `k` exactly when it was listed or the record adds it. */
  lemma AddNames(t: Totals, r: Record, k: string, name: string)
    ensures name in Names(QuarterOf(Add(t, r), k).languages) <==>
            name in Names(QuarterOf(t, k).languages) || (KeyOf(r) == k && r.name == name)
  {
    BumpNames(QuarterOf(t, KeyOf(r)).languages, r.name, r.count);
  }

  /** One step of the reduce adds the record's key and no other. */
  lemma AddKeys(t: Totals, r: Record, k: string)
    ensures k in Add(t, r).quarters <==> k in t.quarters || k == KeyOf(r)
  {
  }

  /** Each quarter's total is the sum of the counts of all records with that key. */
  lemma {:induction false} TallyTotal(rs: seq<Record>, k: string)
    ensures QuarterOf(Tally(rs), k).total == SumAt(rs, k)
    decreases |rs|
  {
    if rs != [] {
      TallyTotal(rs[..|rs| - 1], k);
    }
  }

  /**
   * Each `languages[name]` entry is the sum of all records with that name and key,
   * so duplicate records accumulate.
   */
  lemma {:induction false} TallyLanguage(rs: seq<Record>, k: string, name: string)
    ensures Lookup(QuarterOf(Tally(rs), k).languages, name) == SumOf(rs, k, name)
    decreases |rs|
  {
    if rs != [] {
      var p := rs[..|rs| - 1];
      var r := rs[|rs| - 1];
      TallyLanguage(p, k, name);
      if KeyOf(r) == k {
        BumpLookup(QuarterOf(Tally(p), k).languages, r.name, r.count, name);
      }
    }
  }

  /** A quarter lists a language exactly when some record has that key and that name. */
  lemma {:induction false} TallyLanguageListed(rs: seq<Record>, k: string, name: string)
    ensures name in Names(QuarterOf(Tally(rs), k).languages) <==>
            exists i :: 0 <= i < |rs| && KeyOf(rs[i]) == k && rs[i].name == name
    decreases |rs|
  {
    if rs != [] {
      var p := rs[..|rs| - 1];
      TallyLanguageListed(p, k, name);
      AddNames(Tally(p), rs[|rs| - 1], k, name);
      ExistsEntryStep(rs, p, k, name);
    }
  }

  /** The names of the records whose key is `k`, in record order. */
  function NamesAt(rs: seq<Record>, k: string): seq<string> {
    if rs == [] then []
    else NamesAt(rs[..|rs| - 1], k) + (if KeyOf(rs[|rs| - 1]) == k then [rs[|rs| - 1].name] else [])
  }

  /**
   * A quarter's `languages` properties are the distinct names of the records with
   * that key, in the order the reduce first meets them.
   */
  lemma {:induction false} LanguagesFirstSeen(rs: seq<Record>, k: string)
    ensures Names(QuarterOf(Tally(rs), k).languages) == Distinct(NamesAt(rs, k))
    decreases |rs|
  {
    if rs != [] {
      var p, r := rs[..|rs| - 1], rs[|rs| - 1];
      LanguagesFirstSeen(p, k);
      if KeyOf(r) == k {
        BumpNames(QuarterOf(Tally(p), k).languages, r.name, r.count);
        var s := NamesAt(rs, k);
        assert s == NamesAt(p, k) + [r.name];
        assert s[..|s| - 1] == NamesAt(p, k);
      } else {
        assert QuarterOf(Tally(rs), k) == QuarterOf(Tally(p), k);
        assert NamesAt(rs, k) == NamesAt(p, k);
      }
    }
  }

  /** A non-empty source gives the accumulator at least one key. */
  lemma TallyNonEmpty(source: seq<Record>)
    requires source != []
    ensures Tally(source).keys != []
  {
    TallyWellFormed(source);
    TallyKeys(source, KeyOf(source[0]));
  }
}
