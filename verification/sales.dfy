/**
 The training data as the notebook reads it: typed `(date, store, item,
 sales)` records, the `year(date) BETWEEN 2013 AND 2017` filter applied on
 load, reference sums over the records, and the step that turns records
 into grouping entries.
 */
module Sales {
  import opened Calendar
  import opened GroupBy

  /** One row of the training file, after the schema has typed it. */
  datatype Record = Record(date: ValidDate, store: int, item: int, sales: int)

  const FirstYear: int := 2013
  const LastYear: int := 2017

  /** The load filter: inclusive at both ends. */
  predicate InYears(r: Record) {
    FirstYear <= r.date.year <= LastYear
  }

  /** The records that pass the year filter, in input order. */
  function FilterYears(recs: seq<Record>): (f: seq<Record>)
    ensures forall r :: r in f ==> r in recs && InYears(r)
    ensures |f| <= |recs|
  {
    if |recs| == 0 then []
    else (if InYears(recs[0]) then [recs[0]] else []) + FilterYears(recs[1..])
  }

  /** As a bag, the filter keeps every in-range record with its multiplicity
      and drops every other record. */
  lemma {:induction false} FilterYearsBag(recs: seq<Record>)
    ensures forall r :: multiset(FilterYears(recs))[r] == if InYears(r) then multiset(recs)[r] else 0
    decreases |recs|
  {
    if |recs| > 0 {
      FilterYearsBag(recs[1..]);
      assert recs == [recs[0]] + recs[1..];
      assert multiset(recs) == multiset{recs[0]} + multiset(recs[1..]);
    }
  }

  lemma {:induction false} FilterYearsConcat(a: seq<Record>, b: seq<Record>)
    ensures FilterYears(a + b) == FilterYears(a) + FilterYears(b)
    decreases |a|
  {
    if |a| > 0 {
      assert (a + b)[0] == a[0];
      assert (a + b)[1..] == a[1..] + b;
      FilterYearsConcat(a[1..], b);
      var head := if InYears(a[0]) then [a[0]] else [];
      assert FilterYears(a + b) == head + (FilterYears(a[1..]) + FilterYears(b));
      assert FilterYears(a) == head + FilterYears(a[1..]);
    } else {
      assert a + b == b;
    }
  }

  /** Filtering twice is filtering once. */
  lemma {:induction false} FilterYearsIdempotent(recs: seq<Record>)
    ensures FilterYears(FilterYears(recs)) == FilterYears(recs)
    decreases |recs|
  {
    if |recs| > 0 {
      var head := if InYears(recs[0]) then [recs[0]] else [];
      FilterYearsConcat(head, FilterYears(recs[1..]));
      FilterYearsIdempotent(recs[1..]);
    }
  }

  /** Total sales of the records `keep` selects (the reference sum). */
  function SalesWhere(recs: seq<Record>, keep: Record -> bool): int {
    if |recs| == 0 then 0
    else (if keep(recs[0]) then recs[0].sales else 0) + SalesWhere(recs[1..], keep)
  }

  /** Selects the records whose key is `k`. */
  function KeyIs(keyOf: Record -> Key, k: Key): Record -> bool {
    (r: Record) => keyOf(r) == k
  }

  /** Selects the records whose key begins with `p`. */
  function KeyStartsWith(keyOf: Record -> Key, p: Key): Record -> bool {
    (r: Record) => HasPrefix(keyOf(r), p)
  }

  /** Selects every record. */
  function AllRecords(): Record -> bool {
    (r: Record) => true
  }

  /** Selects the records of year `y`. */
  function InYear(y: int): Record -> bool {
    (r: Record) => r.date.year == y
  }

  /** Selects the records of month `m` of year `y`. */
  function InMonth(y: int, m: int): Record -> bool {
    (r: Record) => r.date.year == y && r.date.month == m
  }

  /** Selects the records dated `d`. */
  function OnDate(d: Date): Record -> bool {
    (r: Record) => r.date == d
  }

  lemma {:induction false} SalesWhereCongruent(recs: seq<Record>, p: Record -> bool, q: Record -> bool)
    requires forall r :: r in recs ==> p(r) == q(r)
    ensures SalesWhere(recs, p) == SalesWhere(recs, q)
    decreases |recs|
  {
    if |recs| > 0 {
      assert recs[0] in recs;
      SalesWhereCongruent(recs[1..], p, q);
    }
  }

  /** One grouping entry per record: its key and its sales. */
  function Entries(recs: seq<Record>, keyOf: Record -> Key): (es: seq<Entry>)
    ensures |es| == |recs|
    ensures forall i :: 0 <= i < |recs| ==> es[i] == Entry(keyOf(recs[i]), recs[i].sales)
  {
    if |recs| == 0 then [] else [Entry(keyOf(recs[0]), recs[0].sales)] + Entries(recs[1..], keyOf)
  }

  lemma {:induction false} EntriesKeySum(recs: seq<Record>, keyOf: Record -> Key, k: Key)
    ensures KeySum(Entries(recs, keyOf), k) == SalesWhere(recs, KeyIs(keyOf, k))
    decreases |recs|
  {
    if |recs| > 0 {
      EntriesKeySum(recs[1..], keyOf, k);
      assert Entries(recs, keyOf)[1..] == Entries(recs[1..], keyOf);
    }
  }

  lemma {:induction false} EntriesPrefixSum(recs: seq<Record>, keyOf: Record -> Key, p: Key)
    ensures PrefixSum(Entries(recs, keyOf), p) == SalesWhere(recs, KeyStartsWith(keyOf, p))
    decreases |recs|
  {
    if |recs| > 0 {
      EntriesPrefixSum(recs[1..], keyOf, p);
      assert Entries(recs, keyOf)[1..] == Entries(recs[1..], keyOf);
    }
  }

  lemma EntriesKeys(recs: seq<Record>, keyOf: Record -> Key)
    ensures EntryKeys(Entries(recs, keyOf)) == set r | r in recs :: keyOf(r)
  {
    var es := Entries(recs, keyOf);
    forall k | k in EntryKeys(es)
      ensures k in set r | r in recs :: keyOf(r)
    {
      var e :| e in es && e.key == k;
      var i :| 0 <= i < |es| && es[i] == e;
      assert recs[i] in recs;
    }
    forall k | k in set r | r in recs :: keyOf(r)
      ensures k in EntryKeys(es)
    {
      var r :| r in recs && keyOf(r) == k;
      var i :| 0 <= i < |recs| && recs[i] == r;
      assert es[i] in es;
    }
  }

  /** Every row of records grouped by `keyOf` comes from some record. */
  lemma GroupedRowOrigin(f: seq<Record>, keyOf: Record -> Key, i: nat) returns (r: Record)
    requires i < |GroupSum(Entries(f, keyOf))|
    ensures r in f && keyOf(r) == GroupSum(Entries(f, keyOf))[i].key
  {
    var rows := GroupSum(Entries(f, keyOf));
    GroupSumContents(Entries(f, keyOf));
    EntriesKeys(f, keyOf);
    assert rows[i] in rows;
    assert rows[i].key in RowKeys(rows);
    r :| r in f && keyOf(r) == rows[i].key;
  }

  /** Every record's key has a row among the grouped rows. */
  lemma GroupedRowFor(f: seq<Record>, keyOf: Record -> Key, r: Record) returns (i: nat)
    requires r in f
    ensures i < |GroupSum(Entries(f, keyOf))| && GroupSum(Entries(f, keyOf))[i].key == keyOf(r)
  {
    var rows := GroupSum(Entries(f, keyOf));
    GroupSumContents(Entries(f, keyOf));
    EntriesKeys(f, keyOf);
    assert keyOf(r) in RowKeys(rows);
    var row :| row in rows && row.key == keyOf(r);
    i :| 0 <= i < |rows| && rows[i] == row;
  }

  /** Every grouped row holds the sales total of its key's records and a
      positive record count. */
  lemma GroupedRowSum(f: seq<Record>, keyOf: Record -> Key, i: nat)
    requires i < |GroupSum(Entries(f, keyOf))|
    ensures GroupSum(Entries(f, keyOf))[i].sum
         == SalesWhere(f, KeyIs(keyOf, GroupSum(Entries(f, keyOf))[i].key))
    ensures GroupSum(Entries(f, keyOf))[i].count >= 1
  {
    var es := Entries(f, keyOf);
    var rows := GroupSum(es);
    GroupSumContents(es);
    AtRow(rows, i);
    KeyCountPositive(es, rows[i].key);
    EntriesKeySum(f, keyOf, rows[i].key);
  }
}
