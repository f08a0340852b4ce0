/**
 * The two components together: the table `process_directory` saves, read
 * back by `SemanticSearchEngine` with its default exclusion list. The
 * identifier and key columns are dropped and every other column is numeric,
 * so `duration_sec` stays in the search vector next to the tempo, the three
 * spectral values and the 13 MFCC means: 18 components per sample.
 */
module Pipeline {
  import opened Wrappers
  import opened Frames
  import opened Extraction
  import opened Search

  /** Positions of the text entries of a record: file_name, file_path, estimated_key. */
  predicate TextPosition(j: nat)
  {
    j == 0 || j == 1 || j == 4
  }

  /**
   * The columns of the search vector built from a saved features table, in
   * order: every record key but file_name, file_path and estimated_key, that
   * is duration_sec, tempo_bpm, the three spectral values and mfcc_1 .. mfcc_13.
   */
  const SearchLayout: seq<string> := [RecordLayout[2], RecordLayout[3]] + RecordLayout[5..]

  /** The record positions that are numeric among the first `n`, in order. */
  function NumericBelow(n: nat): seq<nat>
  {
    if n == 0 then [] else NumericBelow(n - 1) + if TextPosition(n - 1) then [] else [n - 1]
  }

  /** A record holds text exactly at the file name, the path and the key. */
  lemma RecordKinds(f: AudioFile, sr: nat, a: Analysis)
    requires sr > 0 && Shaped(a)
    ensures |RecordOf(f, sr, a)| == |RecordLayout|
    ensures forall j :: 0 <= j < |RecordOf(f, sr, a)| ==>
      (RecordOf(f, sr, a)[j].value.Number? <==> !TextPosition(j))
  {
    var fixed := FixedFields(f, sr, a);
    var mfcc := MfccFields(a.mfcc);
    RecordLayoutOf(f, sr, a);
    assert |Names(RecordOf(f, sr, a))| == |RecordLayout|;
    assert forall j :: 8 <= j < |RecordOf(f, sr, a)| ==> RecordOf(f, sr, a)[j] == mfcc[j - 8];
  }

  /** Every collected record has that shape. */
  lemma CollectedKinds(files: seq<AudioFile>, sr: nat, outcomes: AudioFile -> Option<Analysis>)
    requires AllShaped(outcomes)
    ensures forall i, j :: 0 <= i < |Collected(files, sr, outcomes)| && 0 <= j < |RecordLayout| ==>
      j < |Collected(files, sr, outcomes)[i]| &&
      (Collected(files, sr, outcomes)[i][j].value.Number? <==> !TextPosition(j))
  {
    var records: seq<Record> := Collected(files, sr, outcomes);
    CollectedFrom(files, sr, outcomes);
    forall i | 0 <= i < |records|
      ensures |records[i]| == |RecordLayout|
      ensures forall j :: 0 <= j < |RecordLayout| ==> (records[i][j].value.Number? <==> !TextPosition(j))
    {
      assert records[i] in records;
      var f :| f in files && Extracted(f, sr, outcomes(f)) == Some(records[i]);
      RecordKinds(f, sr, outcomes(f).value);
    }
  }

  /**
   * Records as `process_directory` collects them: at least one, all with the
   * 21-key layout, which is duplicate-free, and text exactly at the file
   * name, the path and the key.
   */
  predicate FeatureRecords(records: seq<Record>)
  {
    |records| > 0 && SameLayout(records) && Names(records[0]) == RecordLayout &&
    Distinct(RecordLayout) &&
    forall i, j :: 0 <= i < |records| && 0 <= j < |RecordLayout| ==>
      j < |records[i]| && (records[i][j].value.Number? <==> !TextPosition(j))
  }

  /** A successful batch collects feature records. */
  lemma SavedRecords(files: seq<AudioFile>, sr: nat, outcomes: AudioFile -> Option<Analysis>)
    requires AllShaped(outcomes) && Collected(files, sr, outcomes) != []
    ensures FeatureRecords(Collected(files, sr, outcomes))
  {
    CollectedLayout(files, sr, outcomes);
    CollectedKinds(files, sr, outcomes);
  }

  /** With the default exclusion list, a column of the saved table is kept exactly when it is numeric. */
  lemma KeptIffNumeric(records: seq<Record>, j: nat)
    requires FeatureRecords(records) && j < |RecordLayout|
    ensures WellFormed(FrameOf(records)) && |FrameOf(records).columns| == |RecordLayout|
    ensures Kept(FrameOf(records), DefaultExclude, j) <==> !TextPosition(j)
  {
    var t := FrameOf(records);
    assert DefaultExclude == [RecordLayout[0], RecordLayout[1], RecordLayout[4]];
    assert t.columns == RecordLayout;
    if TextPosition(j) {
      assert t.columns[j] in DefaultExclude;
    } else {
      assert t.columns[j] !in DefaultExclude;
      forall i | 0 <= i < |t.rows| ensures t.rows[i][j].Number? {
        assert t.rows[i][j] == records[i][j].value;
      }
    }
  }

  /**
   * In a table whose columns are kept exactly at the numeric record positions,
   * the kept columns among the first `n` are the numeric positions among them.
   */
  lemma {:induction false} KeptNumeric(t: Table, n: nat)
    requires WellFormed(t) && |t.columns| == |RecordLayout| && n <= |RecordLayout|
    requires forall j :: 0 <= j < |RecordLayout| ==> (Kept(t, DefaultExclude, j) <==> !TextPosition(j))
    ensures KeptBelow(t, DefaultExclude, n) == NumericBelow(n)
  {
    if n > 0 {
      KeptNumeric(t, n - 1);
    }
  }

  /** From position 5 on every position is numeric: 2, 3, 5, 6, ..., n - 1. */
  lemma {:induction false} NumericPositions(n: nat)
    requires n >= 5
    ensures |NumericBelow(n)| == n - 3
    ensures NumericBelow(n)[0] == 2 && NumericBelow(n)[1] == 3
    ensures forall c :: 2 <= c < n - 3 ==> NumericBelow(n)[c] == c + 3
  {
    if n == 5 {
      assert NumericBelow(5) == [2, 3];
    } else {
      NumericPositions(n - 1);
      assert NumericBelow(n) == NumericBelow(n - 1) + [n - 1];
    }
  }

  /** The matrix columns of a table of feature records, under the default exclusion list. */
  lemma FeatureRecordsSearchLayout(records: seq<Record>)
    requires FeatureRecords(records)
    ensures MatrixColumns(FrameOf(records), DefaultExclude) == SearchLayout
    ensures SearchLayout[0] == "duration_sec" && |SearchLayout| == 18
  {
    var t := FrameOf(records);
    forall j | 0 <= j < |RecordLayout| ensures Kept(t, DefaultExclude, j) <==> !TextPosition(j) {
      KeptIffNumeric(records, j);
    }
    KeptNumeric(t, |RecordLayout|);
    NumericPositions(|RecordLayout|);
    var cols := KeptColumns(t, DefaultExclude);
    var names := MatrixColumns(t, DefaultExclude);
    assert |cols| == |SearchLayout|;
    forall c | 0 <= c < |names| ensures names[c] == SearchLayout[c] {
      assert names[c] == RecordLayout[cols[c]];
    }
  }

  /**
   * The search engine, built with its default exclusion list on the table a
   * successful batch saved, indexes 18-component vectors whose columns are
   * `duration_sec`, `tempo_bpm`, the three spectral values and
   * `mfcc_1` .. `mfcc_13`, in that order, one vector per saved record.
   */
  lemma SavedTableSearchLayout(files: seq<AudioFile>, sr: nat, outcomes: AudioFile -> Option<Analysis>)
    requires AllShaped(outcomes) && Collected(files, sr, outcomes) != []
    ensures var records := Collected(files, sr, outcomes);
      FeatureRecords(records) &&
      var t := FrameOf(records);
      var ex := EffectiveExclude(None);
      MatrixColumns(t, ex) == SearchLayout &&
      |FeatureMatrix(t, ex)| == |records| &&
      Dimension(FeatureMatrix(t, ex)) == |SearchLayout| == 18
  {
    SavedRecords(files, sr, outcomes);
    FeatureRecordsSearchLayout(Collected(files, sr, outcomes));
  }
}
