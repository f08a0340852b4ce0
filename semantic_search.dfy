/**
 * The similarity search engine of app/search_engine/semantic_search.py: it
 * projects the features table onto a numeric matrix, loads the matrix into
 * an exact L2 index and answers nearest-neighbour queries by vector and by
 * sample name.
 */
module Search {
  import opened Wrappers
  import opened Frames
  import opened Knn

  /** The identifier and key columns dropped when no exclusion list is given. */
  const DefaultExclude: seq<string> := ["file_name", "file_path", "estimated_key"]

  /** The column a sample query looks names up in. */
  const FileNameColumn: string := "file_name"

  /** `exclude_cols or [...]`: a missing or empty list falls back to the default. */
  function EffectiveExclude(excludeCols: Option<seq<string>>): (ex: seq<string>)
    ensures ex != []
    ensures excludeCols.Some? && excludeCols.value != [] ==> ex == excludeCols.value
    ensures excludeCols.None? || excludeCols.value == [] ==> ex == DefaultExclude
  {
    if excludeCols.Some? && excludeCols.value != [] then excludeCols.value else DefaultExclude
  }

  /**
   * pandas gives a column read from CSV a numeric dtype when every value in
   * it is a number; a header-only table has no numeric column.
   */
  predicate NumericColumn(t: Table, j: nat)
    requires WellFormed(t) && j < |t.columns|
  {
    |t.rows| > 0 && forall i :: 0 <= i < |t.rows| ==> t.rows[i][j].Number?
  }

  /** Column `j` survives both the drop of the excluded names and `select_dtypes`. */
  predicate Kept(t: Table, ex: seq<string>, j: nat)
    requires WellFormed(t) && j < |t.columns|
  {
    t.columns[j] !in ex && NumericColumn(t, j)
  }

  predicate Increasing(s: seq<nat>)
  {
    forall i, j :: 0 <= i < j < |s| ==> s[i] < s[j]
  }

  /** The kept columns among the first `n`, in table order. */
  function KeptBelow(t: Table, ex: seq<string>, n: nat): (cols: seq<nat>)
    requires WellFormed(t) && n <= |t.columns|
    ensures forall i :: 0 <= i < |cols| ==> cols[i] < n
    ensures forall c: nat :: c in cols <==> c < n && Kept(t, ex, c)
    ensures Increasing(cols)
  {
    if n == 0 then []
    else
      var prefix := KeptBelow(t, ex, n - 1);
      if Kept(t, ex, n - 1) then
        assert forall i :: 0 <= i < |prefix| ==> prefix[i] in prefix;
        prefix + [n - 1]
      else prefix
  }

  /**
   * The positions of the columns that make up the feature matrix: exactly the
   * numeric columns not named in `ex`, in the order the table has them.
   */
  function KeptColumns(t: Table, ex: seq<string>): (cols: seq<nat>)
    requires WellFormed(t)
    ensures forall i :: 0 <= i < |cols| ==> cols[i] < |t.columns|
    ensures forall c: nat :: c in cols <==> c < |t.columns| && t.columns[c] !in ex && NumericColumn(t, c)
    ensures Increasing(cols)
    ensures |t.rows| == 0 ==> |cols| == 0
  {
    var cols := KeptBelow(t, ex, |t.columns|);
    assert |cols| > 0 ==> cols[0] in cols;
    cols
  }

  /** `ndarray.shape[1]` of a matrix given as its rows. */
  function Dimension(m: seq<seq<real>>): nat
  {
    if m == [] then 0 else |m[0]|
  }

  /** One table row restricted to the columns `cols`, which all hold numbers in it. */
  function Project(row: seq<Cell>, cols: seq<nat>): (v: seq<real>)
    requires forall k :: 0 <= k < |cols| ==> cols[k] < |row| && row[cols[k]].Number?
    ensures |v| == |cols|
    ensures forall k :: 0 <= k < |cols| ==> row[cols[k]] == Number(v[k])
  {
    if cols == [] then []
    else [row[cols[0]].x] + Project(row, cols[1..])
  }

  /**
   * `_load_features`' matrix: every table row, restricted to the kept columns.
   * Row `i` of the matrix describes row `i` of the table.
   */
  function FeatureMatrix(t: Table, ex: seq<string>): (m: seq<seq<real>>)
    requires WellFormed(t)
    ensures |m| == |t.rows|
    ensures Uniform(m, |KeptColumns(t, ex)|) && Dimension(m) == |KeptColumns(t, ex)|
    ensures forall i, c :: 0 <= i < |m| && 0 <= c < |KeptColumns(t, ex)| ==>
      t.rows[i][KeptColumns(t, ex)[c]] == Number(m[i][c])
  {
    var cols := KeptColumns(t, ex);
    assert forall k :: 0 <= k < |cols| ==> cols[k] in cols;
    seq(|t.rows|, i requires 0 <= i < |t.rows| => Project(t.rows[i], cols))
  }

  /** The names of the matrix columns, in matrix order. */
  function MatrixColumns(t: Table, ex: seq<string>): (names: seq<string>)
    requires WellFormed(t)
    ensures |names| == |KeptColumns(t, ex)|
  {
    var cols := KeptColumns(t, ex);
    seq(|cols|, c requires 0 <= c < |cols| => assert cols[c] in cols; t.columns[cols[c]])
  }

  /**
   * No excluded name reaches the matrix, and every numeric column that is
   * not excluded does.
   */
  lemma MatrixColumnsSelection(t: Table, ex: seq<string>)
    requires WellFormed(t)
    ensures forall n :: n in MatrixColumns(t, ex) ==> n !in ex && n in t.columns
    ensures forall j :: 0 <= j < |t.columns| && t.columns[j] !in ex && NumericColumn(t, j) ==>
      t.columns[j] in MatrixColumns(t, ex)
  {
    var cols := KeptColumns(t, ex);
    var names := MatrixColumns(t, ex);
    forall n | n in names ensures n !in ex && n in t.columns {
      var c :| 0 <= c < |names| && names[c] == n;
      assert cols[c] in cols && names[c] == t.columns[cols[c]];
    }
    forall j | 0 <= j < |t.columns| && t.columns[j] !in ex && NumericColumn(t, j)
      ensures t.columns[j] in names
    {
      var c :| 0 <= c < |cols| && cols[c] == j;
      assert names[c] == t.columns[j];
    }
  }

  /** One row of a `query_by_sample` answer: a metadata row and its distance. */
  datatype Match = Match(cells: seq<Cell>, distance: real)

  datatype SearchError =
    | MissingColumn(column: string)   // `KeyError` from `df["file_name"]`
    | SampleNotFound(name: string)    // `ValueError("Sample not found: ...")`

  /** The row's `file_name` cell equals `name`. */
  predicate Named(cells: seq<Cell>, col: nat, name: string)
  {
    col < |cells| && cells[col] == Text(name)
  }

  /** At most one row carries `name`. */
  predicate UniqueName(t: Table, col: nat, name: string)
  {
    forall i, j ::
      (0 <= i < |t.rows| && 0 <= j < |t.rows| &&
       Named(t.rows[i], col, name) && Named(t.rows[j], col, name)) ==> i == j
  }

  /** All ids name rows of a table with `n` rows. */
  predicate IdsBelow(hits: seq<Hit>, n: nat)
  {
    forall i :: 0 <= i < |hits| ==> hits[i].id < n
  }

  function Column(t: Table, col: nat): (cells: seq<Cell>)
    requires WellFormed(t) && col < |t.columns|
    ensures |cells| == |t.rows|
  {
    seq(|t.rows|, i requires 0 <= i < |t.rows| => t.rows[i][col])
  }

  /** `df[df[col] == name].index[0]`: the first row carrying `name`, if any. */
  function FirstRowNamed(t: Table, col: nat, name: string): (r: Option<nat>)
    requires WellFormed(t) && col < |t.columns|
    ensures r.None? <==> forall i :: 0 <= i < |t.rows| ==> !Named(t.rows[i], col, name)
    ensures r.Some? ==> (r.value < |t.rows| && Named(t.rows[r.value], col, name) &&
      forall i :: 0 <= i < r.value ==> !Named(t.rows[i], col, name))
  {
    var r := IndexOf(Column(t, col), Text(name));
    assert forall i :: 0 <= i < |t.rows| ==> Column(t, col)[i] == t.rows[i][col];
    r
  }

  /**
   * `results_df[results_df["file_name"] != name]`: the hits whose row does
   * not carry `name`, in their original order.
   */
  function WithoutName(t: Table, col: nat, name: string, hits: seq<Hit>): (r: seq<Hit>)
    requires IdsBelow(hits, |t.rows|)
    ensures |r| <= |hits| && IdsBelow(r, |t.rows|)
    ensures forall h :: h in r <==> h in hits && h.id < |t.rows| && !Named(t.rows[h.id], col, name)
  {
    if hits == [] then []
    else
      var rest := WithoutName(t, col, name, hits[1..]);
      assert forall h :: h in hits <==> h == hits[0] || h in hits[1..];
      if Named(t.rows[hits[0].id], col, name) then rest
      else
        var r := [hits[0]] + rest;
        assert forall i :: 0 <= i < |r| ==> r[i] in r;
        r
  }

  /** Filtering keeps the hits in ascending distance. */
  lemma {:induction false} WithoutNameSorted(t: Table, col: nat, name: string, hits: seq<Hit>)
    requires IdsBelow(hits, |t.rows|) && SortedByDistance(hits)
    ensures SortedByDistance(WithoutName(t, col, name, hits))
  {
    if hits != [] {
      var tail := hits[1..];
      assert SortedByDistance(tail);
      WithoutNameSorted(t, col, name, tail);
      if !Named(t.rows[hits[0].id], col, name) {
        var rest := WithoutName(t, col, name, tail);
        forall x | x in rest ensures hits[0].distance <= x.distance {
          var m :| 0 <= m < |tail| && tail[m] == x;
          assert hits[m + 1] == x;
        }
        SortedCons(hits[0], rest);
      }
    }
  }

  /** Filtering keeps the rows of the hits different. */
  lemma {:induction false} WithoutNameDistinct(t: Table, col: nat, name: string, hits: seq<Hit>)
    requires IdsBelow(hits, |t.rows|) && DistinctIds(hits)
    ensures DistinctIds(WithoutName(t, col, name, hits))
  {
    if hits != [] {
      var tail := hits[1..];
      assert DistinctIds(tail);
      WithoutNameDistinct(t, col, name, tail);
      if !Named(t.rows[hits[0].id], col, name) {
        var rest := WithoutName(t, col, name, tail);
        forall i | 0 <= i < |rest| ensures rest[i].id != hits[0].id {
          assert rest[i] in rest;
          var m :| 0 <= m < |tail| && tail[m] == rest[i];
          assert hits[m + 1] == rest[i];
        }
        DistinctIdsCons(hits[0], rest);
      }
    }
  }

  /**
   * When at most one row carries `name` and the hits name different rows,
   * filtering drops at most one hit, and none when no hit carries the name.
   */
  lemma {:induction false} WithoutNameDropsAtMostOne(t: Table, col: nat, name: string, hits: seq<Hit>)
    requires IdsBelow(hits, |t.rows|) && DistinctIds(hits) && UniqueName(t, col, name)
    ensures |WithoutName(t, col, name, hits)| + 1 >= |hits|
    ensures (forall i :: 0 <= i < |hits| ==> !Named(t.rows[hits[i].id], col, name)) ==>
      |WithoutName(t, col, name, hits)| == |hits|
  {
    if hits != [] {
      var tail := hits[1..];
      assert DistinctIds(tail) && IdsBelow(tail, |t.rows|);
      WithoutNameDropsAtMostOne(t, col, name, tail);
      if Named(t.rows[hits[0].id], col, name) {
        forall i | 0 <= i < |tail| ensures !Named(t.rows[tail[i].id], col, name) {
          assert tail[i] == hits[i + 1];
        }
      } else {
        assert (forall i :: 0 <= i < |hits| ==> !Named(t.rows[hits[i].id], col, name)) ==>
          (forall i :: 0 <= i < |tail| ==> !Named(t.rows[tail[i].id], col, name)) by {
          forall i | 0 <= i < |tail| ensures tail[i] == hits[i + 1] { }
        }
      }
    }
  }

  /** `DataFrame.head(k)`: the first `k` entries, or all of them when there are fewer. */
  function Head<T>(s: seq<T>, k: nat): (r: seq<T>)
    ensures |r| == (if k <= |s| then k else |s|) && r == s[..|r|]
  {
    if k <= |s| then s[..k] else s
  }

  /** `metadata_df.iloc[ids]` with the `distance` column attached, renumbered from 0. */
  function Joined(t: Table, hits: seq<Hit>): (ms: seq<Match>)
    requires IdsBelow(hits, |t.rows|)
    ensures |ms| == |hits|
    ensures forall i :: 0 <= i < |hits| ==> ms[i] == Match(t.rows[hits[i].id], hits[i].distance)
  {
    seq(|hits|, i requires 0 <= i < |hits| => Match(t.rows[hits[i].id], hits[i].distance))
  }

  /** The hits a sample query keeps: the first `k` that do not carry the query's name. */
  function Chosen(t: Table, col: nat, name: string, hits: seq<Hit>, k: nat): (r: seq<Hit>)
    requires IdsBelow(hits, |t.rows|)
    ensures IdsBelow(r, |t.rows|)
  {
    var kept := WithoutName(t, col, name, hits);
    var r := Head(kept, k);
    assert forall i :: 0 <= i < |r| ==> r[i] == kept[i];
    r
  }

  /**
   * The hits a sample query keeps out of an exact search for `k + 1`
   * neighbours are at most `k` different rows, none of them carrying the
   * query's name, in ascending distance, each with its own distance.
   */
  lemma ChosenRows(t: Table, m: seq<seq<real>>, col: nat, name: string,
                   q: seq<real>, k: nat, hits: seq<Hit>)
    requires |m| == |t.rows| && IsKnn(m, q, k + 1, hits)
    ensures IdsBelow(hits, |t.rows|)
    ensures var chosen := Chosen(t, col, name, hits, k);
      |chosen| <= k && DistinctIds(chosen) && SortedByDistance(chosen) &&
      forall i :: 0 <= i < |chosen| ==>
        !Named(t.rows[chosen[i].id], col, name) && chosen[i].distance == SqDist(q, m[chosen[i].id])
  {
    var kept := WithoutName(t, col, name, hits);
    var chosen := Chosen(t, col, name, hits, k);
    WithoutNameSorted(t, col, name, hits);
    WithoutNameDistinct(t, col, name, hits);
    assert forall i :: 0 <= i < |chosen| ==> chosen[i] == kept[i] && kept[i] in kept;
    forall i | 0 <= i < |chosen|
      ensures chosen[i].distance == SqDist(q, m[chosen[i].id])
    {
      var p :| 0 <= p < |hits| && hits[p] == chosen[i];
    }
  }

  /**
   * No row without the query's name that a sample query leaves out is
   * nearer to the query than a row it returns.
   */
  lemma ChosenNearest(t: Table, m: seq<seq<real>>, col: nat, name: string,
                      q: seq<real>, k: nat, hits: seq<Hit>, row: nat)
    requires |m| == |t.rows| && IsKnn(m, q, k + 1, hits)
    requires row < |t.rows| && !Named(t.rows[row], col, name)
    requires Excludes(Chosen(t, col, name, hits, k), row)
    ensures var chosen := Chosen(t, col, name, hits, k);
      forall i :: 0 <= i < |chosen| ==> chosen[i].distance <= SqDist(q, m[row])
  {
    if Excludes(hits, row) {
      NearestOutsideSearch(t, m, col, name, q, k, hits, row);
    } else {
      var p :| 0 <= p < |hits| && hits[p].id == row;
      NearestCutByHead(t, col, name, hits, k, p);
    }
  }

  /** A row the search itself did not return is no nearer than any hit kept. */
  lemma NearestOutsideSearch(t: Table, m: seq<seq<real>>, col: nat, name: string,
                             q: seq<real>, k: nat, hits: seq<Hit>, row: nat)
    requires |m| == |t.rows| && IsKnn(m, q, k + 1, hits)
    requires row < |t.rows| && Excludes(hits, row)
    ensures var chosen := Chosen(t, col, name, hits, k);
      forall i :: 0 <= i < |chosen| ==> chosen[i].distance <= SqDist(q, m[row])
  {
    var kept := WithoutName(t, col, name, hits);
    var chosen := Chosen(t, col, name, hits, k);
    forall i | 0 <= i < |chosen| ensures chosen[i].distance <= SqDist(q, m[row]) {
      assert chosen[i] == kept[i] && kept[i] in kept;
      var p :| 0 <= p < |hits| && hits[p] == chosen[i];
    }
  }

  /**
   * A hit without the name that `head(k)` cut off is no nearer than any hit
   * kept: the hits are in ascending distance and filtering keeps their order.
   */
  lemma NearestCutByHead(t: Table, col: nat, name: string, hits: seq<Hit>, k: nat, p: nat)
    requires IdsBelow(hits, |t.rows|) && SortedByDistance(hits)
    requires p < |hits| && !Named(t.rows[hits[p].id], col, name)
    requires Excludes(Chosen(t, col, name, hits, k), hits[p].id)
    ensures var chosen := Chosen(t, col, name, hits, k);
      forall i :: 0 <= i < |chosen| ==> chosen[i].distance <= hits[p].distance
  {
    var kept := WithoutName(t, col, name, hits);
    var chosen := Chosen(t, col, name, hits, k);
    WithoutNameSorted(t, col, name, hits);
    assert hits[p] in hits;
    var p' :| 0 <= p' < |kept| && kept[p'] == hits[p];
    assert forall i :: 0 <= i < |chosen| ==> chosen[i] == kept[i] && chosen[i].id != hits[p].id;
    assert |chosen| <= p';
  }

  /** A sample query returns exactly `k` rows when no other row shares the name. */
  lemma ChosenCount(t: Table, m: seq<seq<real>>, col: nat, name: string,
                    q: seq<real>, k: nat, hits: seq<Hit>)
    requires |m| == |t.rows| && IsKnn(m, q, k + 1, hits) && UniqueName(t, col, name)
    ensures IdsBelow(hits, |t.rows|)
    ensures |Chosen(t, col, name, hits, k)| == k
  {
    WithoutNameDropsAtMostOne(t, col, name, hits);
  }

  /**
   * The rows a sample query returns, joined with their distances: at most
   * `k`, none carrying the query's name, in ascending distance, and exactly
   * `k` when no other row shares the name.
   */
  lemma SampleAnswer(t: Table, m: seq<seq<real>>, col: nat, name: string,
                     q: seq<real>, k: nat, hits: seq<Hit>)
    requires |m| == |t.rows| && IsKnn(m, q, k + 1, hits)
    ensures IdsBelow(hits, |t.rows|)
    ensures var ms := Joined(t, Chosen(t, col, name, hits, k));
      |ms| <= k &&
      (forall i :: 0 <= i < |ms| ==> !Named(ms[i].cells, col, name)) &&
      (forall i, j :: 0 <= i < j < |ms| ==> ms[i].distance <= ms[j].distance) &&
      (UniqueName(t, col, name) ==> |ms| == k)
  {
    ChosenRows(t, m, col, name, q, k, hits);
    if UniqueName(t, col, name) {
      ChosenCount(t, m, col, name, q, k, hits);
    }
  }

  /** The column holding file names, when the table has one. */
  function FileNameCol(t: Table): (r: Option<nat>)
    ensures r.None? <==> FileNameColumn !in t.columns
    ensures r.Some? ==> r.value < |t.columns| && t.columns[r.value] == FileNameColumn
  {
    IndexOf(t.columns, FileNameColumn)
  }

  /**
   * `SemanticSearchEngine`: the loaded features table, its numeric matrix and
   * the exact L2 index over the matrix rows.
   */
  class SemanticSearchEngine {
    const excludeCols: seq<string>
    var metadata: Table
    var featureMatrix: seq<seq<real>>
    var index: FlatL2Index?

    /**
     * The matrix is the table's projection onto its kept columns, and the
     * index holds exactly the matrix rows at the matrix width.
     */
    ghost predicate Valid()
      reads this, index
    {
      WellFormed(metadata) && featureMatrix == FeatureMatrix(metadata, excludeCols) &&
      index != null && index.d == Dimension(featureMatrix) && index.vectors == featureMatrix
    }

    /**
     * `__init__`: picks the exclusion list, then loads the table and builds
     * the index. `table` is the features CSV as pandas reads it.
     */
    constructor (table: Table, excludeCols: Option<seq<string>>)
      requires WellFormed(table)
      ensures this.excludeCols == EffectiveExclude(excludeCols)
      ensures Valid() && fresh(index)
      ensures metadata == table && featureMatrix == FeatureMatrix(table, this.excludeCols)
      ensures index.NTotal() == |table.rows| && index.d == |KeptColumns(table, this.excludeCols)|
    {
      this.excludeCols := EffectiveExclude(excludeCols);
      metadata := Table([], []);
      featureMatrix := [];
      index := null;
      new;
      LoadFeatures(table);
      BuildIndex();
    }

    /** `_load_features`: keeps the table and stores its numeric projection. */
    method LoadFeatures(table: Table)
      requires WellFormed(table)
      modifies this
      ensures metadata == table && featureMatrix == FeatureMatrix(table, excludeCols)
      ensures |featureMatrix| == |table.rows|
      ensures index == old(index)
    {
      metadata := table;
      featureMatrix := FeatureMatrix(table, excludeCols);
    }

    /** `_build_index`: a fresh flat L2 index of the matrix width holding every matrix row. */
    method BuildIndex()
      requires WellFormed(metadata) && featureMatrix == FeatureMatrix(metadata, excludeCols)
      modifies this
      ensures Valid() && fresh(index)
      ensures metadata == old(metadata) && featureMatrix == old(featureMatrix)
      ensures index.NTotal() == |featureMatrix|
    {
      var d := Dimension(featureMatrix);
      var idx := new FlatL2Index(d);
      idx.Add(featureMatrix);
      index := idx;
    }

    /**
     * `query_by_vector`: the `(row, distance)` pairs of an exact search for
     * the `k` rows nearest to `v`.
     */
    method QueryByVector(v: seq<real>, k: nat) returns (hits: seq<Hit>)
      requires Valid() && |v| == index.d && 1 <= k <= |featureMatrix|
      ensures IsKnn(featureMatrix, v, k, hits)
    {
      hits := index.Search(v, k);
    }

    /**
     * `query_by_sample`: searches with the vector of the first row named
     * `name` for `k + 1` neighbours, drops every row carrying that name and
     * keeps the first `k`.
     */
    method QueryBySample(name: string, k: nat) returns (r: Result<seq<Match>, SearchError>)
      requires Valid() && k + 1 <= |featureMatrix|
      ensures r.Failure? ==> r.error == MissingColumn(FileNameColumn) || r.error == SampleNotFound(name)
      ensures (FileNameCol(metadata).Some? &&
        exists i :: 0 <= i < |metadata.rows| && Named(metadata.rows[i], FileNameCol(metadata).value, name))
        ==> r.Success?
      ensures FileNameCol(metadata).None? <==> r == Failure(MissingColumn(FileNameColumn))
      ensures FileNameCol(metadata).Some? ==>
        (r == Failure(SampleNotFound(name)) <==>
          forall i :: 0 <= i < |metadata.rows| ==> !Named(metadata.rows[i], FileNameCol(metadata).value, name))
      ensures r.Success? ==>
        FileNameCol(metadata).Some? &&
        var col := FileNameCol(metadata).value;
        FirstRowNamed(metadata, col, name).Some? &&
        var first := FirstRowNamed(metadata, col, name).value;
        exists hits :: IsKnn(featureMatrix, featureMatrix[first], k + 1, hits) &&
          IdsBelow(hits, |metadata.rows|) &&
          r.value == Joined(metadata, Chosen(metadata, col, name, hits, k))
      ensures r.Success? ==>
        |r.value| <= k &&
        (forall i :: 0 <= i < |r.value| ==> !Named(r.value[i].cells, FileNameCol(metadata).value, name)) &&
        (forall i, j :: 0 <= i < j < |r.value| ==> r.value[i].distance <= r.value[j].distance)
      ensures r.Success? && UniqueName(metadata, FileNameCol(metadata).value, name) ==> |r.value| == k
    {
      var col := FileNameCol(metadata);
      if col.None? {
        return Failure(MissingColumn(FileNameColumn));
      }
      var first := FirstRowNamed(metadata, col.value, name);
      if first.None? {
        return Failure(SampleNotFound(name));
      }
      var hits := QueryByVector(featureMatrix[first.value], k + 1);
      SampleAnswer(metadata, featureMatrix, col.value, name, featureMatrix[first.value], k, hits);
      var chosen := Chosen(metadata, col.value, name, hits, k);
      r := Success(Joined(metadata, chosen));
      assert IsKnn(featureMatrix, featureMatrix[first.value], k + 1, hits) &&
        r.value == Joined(metadata, chosen);
    }
  }
}
