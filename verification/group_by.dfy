/**
 SQL `GROUP BY ... ORDER BY ...` over a bag of (key, value) entries: one
 row per distinct key holding the sum and the number of the key's values,
 rows in ascending key order. A key lists the grouping columns in the
 order the `ORDER BY` clause names them, so lexicographic order on keys
 is the order the query asks for.
 */
module GroupBy {

  type Key = seq<int>

  /** Lexicographic order: first column first, a shorter key before its extensions. */
  predicate Less(a: Key, b: Key)
    decreases |a|
  {
    if |a| == 0 then |b| > 0
    else |b| > 0 && (a[0] < b[0] || (a[0] == b[0] && Less(a[1..], b[1..])))
  }

  lemma {:induction false} LessIrreflexive(a: Key)
    ensures !Less(a, a)
    decreases |a|
  {
    if |a| > 0 {
      LessIrreflexive(a[1..]);
    }
  }

  lemma {:induction false} LessTransitive(a: Key, b: Key, c: Key)
    requires Less(a, b) && Less(b, c)
    ensures Less(a, c)
    decreases |a|
  {
    if |a| > 0 && a[0] == b[0] && b[0] == c[0] {
      LessTransitive(a[1..], b[1..], c[1..]);
    }
  }

  lemma {:induction false} LessTotal(a: Key, b: Key)
    ensures a == b || Less(a, b) || Less(b, a)
    decreases |a|
  {
    if |a| > 0 && |b| > 0 && a[0] == b[0] {
      LessTotal(a[1..], b[1..]);
      if a[1..] == b[1..] {
        assert a == [a[0]] + a[1..];
        assert b == [b[0]] + b[1..];
      }
    }
  }

  /** On single-column keys, the order is the column's order. */
  lemma LessSingle(a: Key, b: Key)
    requires |a| == 1 && |b| == 1
    ensures Less(a, b) <==> a[0] < b[0]
  {
    assert !Less(a[1..], b[1..]);
  }

  /** On keys of equal length two, the order is by first column, then second. */
  lemma LessPair(a: Key, b: Key)
    requires |a| == 2 && |b| == 2
    ensures Less(a, b) <==> a[0] < b[0] || (a[0] == b[0] && a[1] < b[1])
  {
    if a[0] == b[0] {
      assert Less(a, b) == Less(a[1..], b[1..]);
      assert Less(a[1..][1..], b[1..][1..]) == false;
    }
  }

  /** One input row: its grouping key and the measure it contributes. */
  datatype Entry = Entry(key: Key, value: int)

  /** One output row: a key, the sum of its values, and how many there were. */
  datatype Row = Row(key: Key, sum: int, count: nat)

  function EntryKeys(es: seq<Entry>): set<Key> {
    set e | e in es :: e.key
  }

  function RowKeys(rows: seq<Row>): set<Key> {
    set r | r in rows :: r.key
  }

  /** Keys strictly ascend, hence are pairwise distinct. */
  predicate Ascending(rows: seq<Row>) {
    forall i, j :: 0 <= i < j < |rows| ==> Less(rows[i].key, rows[j].key)
  }

  /** Sum of the values of the entries with key `k` (the reference definition). */
  function KeySum(es: seq<Entry>, k: Key): int {
    if |es| == 0 then 0
    else (if es[0].key == k then es[0].value else 0) + KeySum(es[1..], k)
  }

  /** Number of entries with key `k`. */
  function KeyCount(es: seq<Entry>, k: Key): nat {
    if |es| == 0 then 0
    else (if es[0].key == k then 1 else 0) + KeyCount(es[1..], k)
  }

  /** The sum held for key `k` by the first row with that key; 0 if none. */
  function SumAt(rows: seq<Row>, k: Key): int {
    if |rows| == 0 then 0
    else if rows[0].key == k then rows[0].sum
    else SumAt(rows[1..], k)
  }

  /** The count held for key `k` by the first row with that key; 0 if none. */
  function CountAt(rows: seq<Row>, k: Key): nat {
    if |rows| == 0 then 0
    else if rows[0].key == k then rows[0].count
    else CountAt(rows[1..], k)
  }

  lemma RowKeysCons(x: Row, rows: seq<Row>)
    ensures RowKeys([x] + rows) == {x.key} + RowKeys(rows)
  {
    var s := [x] + rows;
    forall k | k in RowKeys(s)
      ensures k in {x.key} + RowKeys(rows)
    {
      var r :| r in s && r.key == k;
      if r != x {
        assert r in rows;
      }
    }
    forall k | k in RowKeys(rows)
      ensures k in RowKeys(s)
    {
      var r :| r in rows && r.key == k;
      assert r in s;
    }
  }

  lemma EntryKeysCons(es: seq<Entry>)
    requires |es| > 0
    ensures EntryKeys(es) == {es[0].key} + EntryKeys(es[1..])
  {
    assert es == [es[0]] + es[1..];
    forall k | k in EntryKeys(es)
      ensures k in {es[0].key} + EntryKeys(es[1..])
    {
      var e :| e in es && e.key == k;
      if e != es[0] {
        assert e in es[1..];
      }
    }
  }

  lemma AscendingTail(rows: seq<Row>)
    requires Ascending(rows) && |rows| > 0
    ensures Ascending(rows[1..])
    ensures forall k :: k in RowKeys(rows[1..]) ==> Less(rows[0].key, k)
  {
    forall k | k in RowKeys(rows[1..])
      ensures Less(rows[0].key, k)
    {
      var r :| r in rows[1..] && r.key == k;
      var j :| 0 <= j < |rows[1..]| && rows[1..][j] == r;
      assert rows[j + 1] == r;
    }
  }

  lemma AscendingCons(x: Row, rows: seq<Row>)
    requires Ascending(rows)
    requires forall k :: k in RowKeys(rows) ==> Less(x.key, k)
    ensures Ascending([x] + rows)
  {
    var s := [x] + rows;
    forall i, j | 0 <= i < j < |s|
      ensures Less(s[i].key, s[j].key)
    {
      assert s[j] == rows[j - 1];
      if i == 0 {
        assert rows[j - 1] in rows;
      } else {
        assert s[i] == rows[i - 1];
      }
    }
  }

  /** A key below an ascending sequence's first key is none of its keys. */
  lemma BelowAll(rows: seq<Row>, k: Key)
    requires Ascending(rows) && |rows| > 0 && Less(k, rows[0].key)
    ensures k !in RowKeys(rows)
  {
    if k in RowKeys(rows) {
      var r :| r in rows && r.key == k;
      var j :| 0 <= j < |rows| && rows[j] == r;
      if j > 0 {
        LessTransitive(k, rows[0].key, rows[j].key);
      }
      LessIrreflexive(k);
    }
  }

  lemma {:induction false} AbsentKey(rows: seq<Row>, k: Key)
    requires k !in RowKeys(rows)
    ensures SumAt(rows, k) == 0 && CountAt(rows, k) == 0
    decreases |rows|
  {
    if |rows| > 0 {
      assert rows[0] in rows;
      assert rows == [rows[0]] + rows[1..];
      RowKeysCons(rows[0], rows[1..]);
      AbsentKey(rows[1..], k);
    }
  }

  /** Adds one entry to ascending rows: bumps its key's row, or inserts a new row in order. */
  function Insert(rows: seq<Row>, e: Entry): (r: seq<Row>)
    requires Ascending(rows)
    ensures Ascending(r)
    ensures RowKeys(r) == RowKeys(rows) + {e.key}
    ensures forall k :: SumAt(r, k) == SumAt(rows, k) + (if k == e.key then e.value else 0)
    ensures forall k :: CountAt(r, k) == CountAt(rows, k) + (if k == e.key then 1 else 0)
    decreases |rows|
  {
    if |rows| == 0 then
      [Row(e.key, e.value, 1)]
    else
      assert rows == [rows[0]] + rows[1..];
      RowKeysCons(rows[0], rows[1..]);
      AscendingTail(rows);
      if e.key == rows[0].key then
        var x := Row(e.key, rows[0].sum + e.value, rows[0].count + 1);
        RowKeysCons(x, rows[1..]);
        AscendingCons(x, rows[1..]);
        [x] + rows[1..]
      else if Less(e.key, rows[0].key) then
        var x := Row(e.key, e.value, 1);
        BelowAll(rows, e.key);
        AbsentKey(rows, e.key);
        RowKeysCons(x, rows);
        forall k | k in RowKeys(rows) ensures Less(x.key, k) {
          if k != rows[0].key {
            LessTransitive(x.key, rows[0].key, k);
          }
        }
        AscendingCons(x, rows);
        [x] + rows
      else
        LessTotal(e.key, rows[0].key);
        var t := Insert(rows[1..], e);
        RowKeysCons(rows[0], t);
        AscendingCons(rows[0], t);
        [rows[0]] + t
  }

  /** GROUP BY key with SUM and COUNT, ordered by key. */
  function GroupSum(es: seq<Entry>): (rows: seq<Row>)
    ensures Ascending(rows)
    decreases |es|
  {
    if |es| == 0 then [] else Insert(GroupSum(es[1..]), es[0])
  }

  /** The grouped rows have exactly the entries' keys, and the row for a key
      holds the sum and the number of that key's entries. */
  lemma {:induction false} GroupSumContents(es: seq<Entry>)
    ensures RowKeys(GroupSum(es)) == EntryKeys(es)
    ensures forall k :: SumAt(GroupSum(es), k) == KeySum(es, k)
    ensures forall k :: CountAt(GroupSum(es), k) == KeyCount(es, k)
    decreases |es|
  {
    if |es| > 0 {
      EntryKeysCons(es);
      GroupSumContents(es[1..]);
    }
  }

  lemma {:induction false} AtRow(rows: seq<Row>, i: nat)
    requires Ascending(rows) && i < |rows|
    ensures SumAt(rows, rows[i].key) == rows[i].sum
    ensures CountAt(rows, rows[i].key) == rows[i].count
    decreases i
  {
    if i > 0 {
      LessIrreflexive(rows[0].key);
      AscendingTail(rows);
      assert rows[1..][i - 1] == rows[i];
      AtRow(rows[1..], i - 1);
    }
  }

  lemma {:induction false} KeyCountPositive(es: seq<Entry>, k: Key)
    requires k in EntryKeys(es)
    ensures KeyCount(es, k) >= 1
    decreases |es|
  {
    EntryKeysCons(es);
    if es[0].key != k {
      KeyCountPositive(es[1..], k);
    }
  }

  /** Every grouped row holds exactly the sum and the number of its key's entries. */
  lemma GroupSumRows(es: seq<Entry>)
    ensures var rows := GroupSum(es);
      forall i :: 0 <= i < |rows| ==>
        && rows[i].key in EntryKeys(es)
        && rows[i].sum == KeySum(es, rows[i].key)
        && rows[i].count == KeyCount(es, rows[i].key)
        && rows[i].count >= 1
  {
    var rows := GroupSum(es);
    GroupSumContents(es);
    forall i | 0 <= i < |rows|
      ensures rows[i].key in EntryKeys(es)
      ensures rows[i].sum == KeySum(es, rows[i].key)
      ensures rows[i].count == KeyCount(es, rows[i].key)
      ensures rows[i].count >= 1
    {
      assert rows[i] in rows;
      AtRow(rows, i);
      KeyCountPositive(es, rows[i].key);
    }
  }

  /** `k` begins with the columns `p`. */
  predicate HasPrefix(k: Key, p: Key) {
    |p| <= |k| && k[..|p|] == p
  }

  /** Sum of the values of the entries whose key begins with `p`. */
  function PrefixSum(es: seq<Entry>, p: Key): int {
    if |es| == 0 then 0
    else (if HasPrefix(es[0].key, p) then es[0].value else 0) + PrefixSum(es[1..], p)
  }

  /** Sum of the sums of the rows whose key begins with `p`. */
  function RowPrefixSum(rows: seq<Row>, p: Key): int {
    if |rows| == 0 then 0
    else (if HasPrefix(rows[0].key, p) then rows[0].sum else 0) + RowPrefixSum(rows[1..], p)
  }

  lemma {:induction false} InsertPrefixSum(rows: seq<Row>, e: Entry, p: Key)
    requires Ascending(rows)
    ensures RowPrefixSum(Insert(rows, e), p)
         == RowPrefixSum(rows, p) + (if HasPrefix(e.key, p) then e.value else 0)
    decreases |rows|
  {
    var r := Insert(rows, e);
    if |rows| > 0 {
      if e.key == rows[0].key {
        assert r[1..] == rows[1..];
      } else if Less(e.key, rows[0].key) {
        assert r[1..] == rows;
      } else {
        AscendingTail(rows);
        assert r[1..] == Insert(rows[1..], e);
        InsertPrefixSum(rows[1..], e, p);
      }
    }
  }

  /** Grouping conserves every prefix-restricted total; with the empty
      prefix, the rows' sums add up to the sum of all entries. */
  lemma {:induction false} GroupSumPrefixSum(es: seq<Entry>, p: Key)
    ensures RowPrefixSum(GroupSum(es), p) == PrefixSum(es, p)
    decreases |es|
  {
    if |es| > 0 {
      GroupSumPrefixSum(es[1..], p);
      InsertPrefixSum(GroupSum(es[1..]), es[0], p);
    }
  }
}
