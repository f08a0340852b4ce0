/**
 * The small part of Python and pandas the two components lean on: an
 * insertion-ordered dict (one feature record) and a table of typed cells
 * (a DataFrame read back from the features CSV).
 */
module Frames {
  import opened Wrappers

  /** A value in a record or a table: a string or a number (real, no float rounding). */
  datatype Cell = Text(s: string) | Number(x: real)

  /** One key/value entry of a dict. */
  datatype Field = Field(name: string, value: Cell)

  /** A Python dict, as its entries in insertion order. */
  type Record = seq<Field>

  /** The keys of a dict, in insertion order. */
  function Names(r: Record): seq<string>
  {
    seq(|r|, i requires 0 <= i < |r| => r[i].name)
  }

  predicate Distinct<T(==)>(s: seq<T>)
  {
    forall i, j :: 0 <= i < j < |s| ==> s[i] != s[j]
  }

  lemma DistinctCons<T>(x: T, s: seq<T>)
    ensures Distinct([x] + s) <==> x !in s && Distinct(s)
  {
    var xs := [x] + s;
    if x !in s && Distinct(s) {
      forall i, j | 0 <= i < j < |xs| ensures xs[i] != xs[j] {
        if i == 0 { assert xs[j] == s[j - 1]; }
      }
    }
    if Distinct(xs) {
      forall i, j | 0 <= i < j < |s| ensures s[i] != s[j] {
        assert s[i] == xs[i + 1] && s[j] == xs[j + 1];
      }
      forall j | 0 <= j < |s| ensures s[j] != x {
        assert s[j] == xs[j + 1] && x == xs[0];
      }
    }
  }

  /** `d[k]` read back: the value stored under the first entry named `k`. */
  function Get(r: Record, k: string): (v: Option<Cell>)
    ensures v.None? <==> k !in Names(r)
  {
    if r == [] then None
    else if r[0].name == k then
      assert Names(r)[0] == k;
      Some(r[0].value)
    else
      assert Names(r) == [r[0].name] + Names(r[1..]);
      Get(r[1..], k)
  }

  /** In a dict with distinct keys, the entry at position `i` is what its key reads back. */
  lemma {:induction false} GetAt(r: Record, i: nat)
    requires i < |r| && Distinct(Names(r))
    ensures Get(r, r[i].name) == Some(r[i].value)
  {
    assert Names(r) == [r[0].name] + Names(r[1..]);
    DistinctCons(r[0].name, Names(r[1..]));
    if i > 0 {
      assert r[i] == r[1..][i - 1];
      assert Names(r)[i] == r[i].name;
      GetAt(r[1..], i - 1);
    }
  }

  /**
   * `d[k] = v`: an existing key keeps its position and takes the new value,
   * a new key is appended at the end.
   */
  function Put(r: Record, k: string, v: Cell): (r': Record)
    ensures k !in Names(r) ==> r' == r + [Field(k, v)]
    ensures k in Names(r) ==> Names(r') == Names(r)
  {
    if r == [] then [Field(k, v)]
    else if r[0].name == k then
      var r' := [Field(k, v)] + r[1..];
      assert Names(r)[0] == k;
      assert Names(r') == Names(r);
      r'
    else
      var rest := Put(r[1..], k, v);
      var r' := [r[0]] + rest;
      assert Names(r) == [r[0].name] + Names(r[1..]);
      assert Names(r') == [r[0].name] + Names(rest);
      assert k !in Names(r) ==> r' == r + [Field(k, v)];
      r'
  }

  /** The dict laws: the written key reads back the new value, every other key its old one. */
  lemma {:induction false} PutGet(r: Record, k: string, v: Cell, k': string)
    ensures Get(Put(r, k, v), k) == Some(v)
    ensures k' != k ==> Get(Put(r, k, v), k') == Get(r, k')
  {
    if r != [] && r[0].name != k {
      PutGet(r[1..], k, v, k');
    }
  }

  /** Writing the next entry of a dict with distinct keys into its first `n` entries appends it. */
  lemma PutNext(r: Record, n: nat)
    requires n < |r| && Distinct(Names(r))
    ensures Put(r[..n], r[n].name, r[n].value) == r[..n + 1]
  {
    assert Names(r[..n]) == Names(r)[..n];
    assert Names(r)[n] == r[n].name;
    assert r[..n] + [r[n]] == r[..n + 1];
  }

  /** A value not yet in a duplicate-free sequence can be appended to it. */
  lemma DistinctSnoc<T>(s: seq<T>, x: T)
    requires Distinct(s) && x !in s
    ensures Distinct(s + [x])
  {
    var xs := s + [x];
    forall i, j | 0 <= i < j < |xs| ensures xs[i] != xs[j] {
      assert xs[i] == s[i];
      if j < |s| { assert xs[j] == s[j]; }
    }
  }

  /** Writing a key never duplicates a key. */
  lemma PutDistinct(r: Record, k: string, v: Cell)
    requires Distinct(Names(r))
    ensures Distinct(Names(Put(r, k, v)))
  {
    if k !in Names(r) {
      assert Names(r + [Field(k, v)]) == Names(r) + [k];
      DistinctSnoc(Names(r), k);
    }
  }

  /**
   * A table as pandas holds it after reading a CSV file: the header and one
   * row of cells per line.
   */
  datatype Table = Table(columns: seq<string>, rows: seq<seq<Cell>>)

  /** Every row has one cell per column; pandas de-duplicates header names on read. */
  predicate WellFormed(t: Table)
  {
    Distinct(t.columns) && forall i :: 0 <= i < |t.rows| ==> |t.rows[i]| == |t.columns|
  }

  /** The values of a dict, in key order. */
  function Values(r: Record): seq<Cell>
  {
    seq(|r|, i requires 0 <= i < |r| => r[i].value)
  }

  /** All records have the same keys in the same order. */
  predicate SameLayout(records: seq<Record>)
  {
    forall i :: 0 <= i < |records| ==> Names(records[i]) == Names(records[0])
  }

  /**
   * `pd.DataFrame(records)` for records that share one key layout: the keys
   * become the header and each record one row, in list order.
   */
  function FrameOf(records: seq<Record>): (t: Table)
    requires |records| > 0 && SameLayout(records) && Distinct(Names(records[0]))
    ensures WellFormed(t)
    ensures t.columns == Names(records[0]) && |t.rows| == |records|
    ensures forall i, j :: 0 <= i < |records| && 0 <= j < |t.columns| ==>
      t.rows[i][j] == records[i][j].value
  {
    Table(Names(records[0]), seq(|records|, i requires 0 <= i < |records| => Values(records[i])))
  }
}
