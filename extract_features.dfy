/**
 * Feature extraction: one audio file becomes one feature record, and a
 * directory of audio files becomes one feature table
 * (app/processing/extract_features.py).
 *
 * librosa's signal processing is not modelled: what it computes from one
 * file is an `Analysis` given to the model, and a file librosa cannot load
 * or analyse is given as `None`.
 */
module Extraction {
  import opened Wrappers
  import opened Frames

  /** A file found in the audio directory: its base name and its full path. */
  datatype AudioFile = AudioFile(name: string, path: string)

  /**
   * What librosa computes from one loaded signal: its sample count, the beat
   * tracker's tempo, the mean energy of each chroma bin, the frame-averaged
   * spectral centroid, bandwidth and rolloff, and the MFCC matrix (one row of
   * per-frame values for each coefficient).
   */
  datatype Analysis = Analysis(
    samples: nat,
    tempo: real,
    chromaMeans: seq<real>,
    centroid: real,
    bandwidth: real,
    rolloff: real,
    mfcc: seq<seq<real>>)

  const DefaultSampleRate: nat := 22050
  const ChromaBins: nat := 12
  const MfccCount: nat := 13

  /** The shapes librosa returns: 12 chroma bins and 13 MFCC rows of at least one frame each. */
  predicate Shaped(a: Analysis)
  {
    |a.chromaMeans| == ChromaBins && |a.mfcc| == MfccCount &&
    forall i :: 0 <= i < |a.mfcc| ==> |a.mfcc[i]| > 0
  }

  /** Every analysis librosa hands back has librosa's shapes. */
  ghost predicate AllShaped(outcomes: AudioFile -> Option<Analysis>)
  {
    forall f :: outcomes(f).Some? ==> Shaped(outcomes(f).value)
  }

  // ---------------------------------------------------------------------
  // Scalar descriptors

  /** `librosa.get_duration(y=y, sr=sr)`: sample count over sample rate, in seconds. */
  function Duration(samples: nat, sr: nat): (d: real)
    requires sr > 0
    ensures d >= 0.0 && d * (sr as real) == samples as real
  {
    samples as real / sr as real
  }

  /** `xs.argmax()`: the position of the first largest value. */
  function ArgMax(xs: seq<real>): (k: nat)
    requires |xs| > 0
    ensures k < |xs|
    ensures forall i :: 0 <= i < |xs| ==> xs[i] <= xs[k]
    ensures forall i :: 0 <= i < k ==> xs[i] < xs[k]
  {
    if |xs| == 1 then 0
    else
      var k := ArgMax(xs[..|xs| - 1]);
      if xs[|xs| - 1] > xs[k] then |xs| - 1 else k
  }

  /** The twelve pitch-class names, starting from C. */
  const PitchClassNames: seq<string> :=
    ["C", "C#", "D", "D#", "E", "F", "F#", "G", "G#", "A", "A#", "B"]

  /** The chroma bin `idx` is read as MIDI note `idx + 24` (C1 for bin 0). */
  const KeyMidiOffset: nat := 24

  /** The pitch-class name of the MIDI note `KeyMidiOffset + idx`. */
  function KeyLabel(idx: nat): string
  {
    PitchClassNames[(idx + KeyMidiOffset) % 12]
  }

  /** The estimated key: the pitch class of the chroma bin with the first largest mean energy. */
  function EstimatedKey(chromaMeans: seq<real>): (key: string)
    requires |chromaMeans| == ChromaBins
    ensures exists k :: (0 <= k < ChromaBins && key == PitchClassNames[k] &&
      (forall i :: 0 <= i < ChromaBins ==> chromaMeans[i] <= chromaMeans[k]) &&
      (forall i :: 0 <= i < k ==> chromaMeans[i] < chromaMeans[k]))
  {
    var k := ArgMax(chromaMeans);
    assert (k + KeyMidiOffset) % 12 == k;
    KeyLabel(k)
  }

  function Sum(xs: seq<real>): real
  {
    if xs == [] then 0.0 else Sum(xs[..|xs| - 1]) + xs[|xs| - 1]
  }

  /** `np.mean(row)`. */
  function Mean(xs: seq<real>): real
    requires |xs| > 0
  {
    Sum(xs) / (|xs| as real)
  }

  lemma {:induction false} SumBounds(xs: seq<real>, lo: real, hi: real)
    requires forall i :: 0 <= i < |xs| ==> lo <= xs[i] <= hi
    ensures (|xs| as real) * lo <= Sum(xs) <= (|xs| as real) * hi
  {
    if xs != [] {
      var init := xs[..|xs| - 1];
      SumBounds(init, lo, hi);
      var n, last := |init| as real, xs[|xs| - 1];
      assert Sum(xs) == Sum(init) + last && lo <= last <= hi;
      assert |xs| as real == n + 1.0;
      assert (|xs| as real) * lo == n * lo + lo && (|xs| as real) * hi == n * hi + hi;
    }
  }

  /** A mean lies between the smallest and the largest frame value. */
  lemma MeanBounds(xs: seq<real>, lo: real, hi: real)
    requires |xs| > 0
    requires forall i :: 0 <= i < |xs| ==> lo <= xs[i] <= hi
    ensures lo <= Mean(xs) <= hi
  {
    SumBounds(xs, lo, hi);
    var n := |xs| as real;
    assert lo == (n * lo) / n && hi == (n * hi) / n;
  }

  // ---------------------------------------------------------------------
  // Field names

  /** The character of one decimal digit. */
  function Digit(d: nat): char
    requires d < 10
  {
    (48 + d) as char
  }

  /** Python's `str(n)` for a natural number. */
  function Decimal(n: nat): (s: string)
    ensures |s| > 0 && (n < 10 <==> |s| == 1)
  {
    if n < 10 then [Digit(n)] else Decimal(n / 10) + [Digit(n % 10)]
  }

  lemma {:induction false} DecimalInjective(a: nat, b: nat)
    requires Decimal(a) == Decimal(b)
    ensures a == b
  {
    if a >= 10 && b >= 10 {
      var da, db := Decimal(a), Decimal(b);
      assert da[|da| - 1] == Digit(a % 10) && db[|db| - 1] == Digit(b % 10);
      assert da[..|da| - 1] == Decimal(a / 10) && db[..|db| - 1] == Decimal(b / 10);
      DecimalInjective(a / 10, b / 10);
    } else if a < 10 && b < 10 {
      assert Decimal(a)[0] == Digit(a) && Decimal(b)[0] == Digit(b);
    }
  }

  /** `f"mfcc_{i+1}"`: the key of MFCC row `i`. */
  function MfccName(i: nat): string
  {
    "mfcc_" + Decimal(i + 1)
  }

  /** The keys every record starts with, in insertion order. */
  const FixedNames: seq<string> := [
    "file_name", "file_path", "duration_sec", "tempo_bpm", "estimated_key",
    "spectral_centroid", "spectral_bandwidth", "spectral_rolloff"]

  /** The keys of the first `n` MFCC rows. */
  function MfccNames(n: nat): seq<string>
  {
    seq(n, i requires 0 <= i < n => MfccName(i))
  }

  /** The key of MFCC row `n` is new after the fixed keys and the keys of rows `0 .. n-1`. */
  lemma MfccNameFresh(n: nat)
    ensures MfccName(n) !in FixedNames + MfccNames(n)
  {
    assert MfccName(n)[0] == 'm';
    forall i | 0 <= i < n ensures MfccNames(n)[i] != MfccName(n) {
      if MfccName(i) == MfccName(n) {
        assert Decimal(i + 1) == MfccName(i)[5..] == MfccName(n)[5..] == Decimal(n + 1);
        DecimalInjective(i + 1, n + 1);
      }
    }
  }

  /** The keys of a record with `n` MFCC rows are pairwise different. */
  lemma {:induction false} LayoutDistinct(n: nat)
    ensures Distinct(FixedNames + MfccNames(n))
  {
    if n > 0 {
      LayoutDistinct(n - 1);
      MfccNameFresh(n - 1);
      var s, s' := FixedNames + MfccNames(n - 1), FixedNames + MfccNames(n);
      assert s' == s + [MfccName(n - 1)];
      forall i, j | 0 <= i < j < |s'| ensures s'[i] != s'[j] {
        if j < |s| { assert s'[i] == s[i] && s'[j] == s[j]; }
        else { assert s'[i] == s[i] && s[i] in s; }
      }
    }
  }

  // ---------------------------------------------------------------------
  // One record

  /** The eight scalar entries of a record, in the order the extractor writes them. */
  function FixedFields(f: AudioFile, sr: nat, a: Analysis): (r: Record)
    requires sr > 0 && Shaped(a)
    ensures Names(r) == FixedNames
  {
    [ Field("file_name", Text(f.name)),
      Field("file_path", Text(f.path)),
      Field("duration_sec", Number(Duration(a.samples, sr))),
      Field("tempo_bpm", Number(a.tempo)),
      Field("estimated_key", Text(EstimatedKey(a.chromaMeans))),
      Field("spectral_centroid", Number(a.centroid)),
      Field("spectral_bandwidth", Number(a.bandwidth)),
      Field("spectral_rolloff", Number(a.rolloff)) ]
  }

  /** One entry per MFCC row: the mean of that row under the key `mfcc_<i+1>`. */
  function MfccFields(rows: seq<seq<real>>): (r: Record)
    requires forall i :: 0 <= i < |rows| ==> |rows[i]| > 0
    ensures Names(r) == MfccNames(|rows|)
  {
    seq(|rows|, i requires 0 <= i < |rows| => Field(MfccName(i), Number(Mean(rows[i]))))
  }

  lemma MfccFieldsSnoc(rows: seq<seq<real>>, i: nat)
    requires i < |rows| && forall j :: 0 <= j < |rows| ==> |rows[j]| > 0
    ensures MfccFields(rows[..i + 1]) == MfccFields(rows[..i]) + [Field(MfccName(i), Number(Mean(rows[i])))]
  {
    var lhs, rhs := MfccFields(rows[..i + 1]), MfccFields(rows[..i]) + [Field(MfccName(i), Number(Mean(rows[i])))];
    assert |lhs| == |rhs|;
    forall j | 0 <= j < |lhs| ensures lhs[j] == rhs[j] {
      assert rows[..i + 1][j] == rows[j];
    }
  }

  /** Writing the key of MFCC row `i` after the fixed entries and rows `0 .. i-1` appends it. */
  lemma MfccStep(fixed: Record, rows: seq<seq<real>>, i: nat)
    requires Names(fixed) == FixedNames
    requires i < |rows| && forall j :: 0 <= j < |rows| ==> |rows[j]| > 0
    ensures Put(fixed + MfccFields(rows[..i]), MfccName(i), Number(Mean(rows[i]))) ==
      fixed + MfccFields(rows[..i + 1])
  {
    var r := fixed + MfccFields(rows[..i]);
    MfccNameFresh(i);
    assert Names(r) == FixedNames + MfccNames(i);
    MfccFieldsSnoc(rows, i);
  }

  /** The record `extract_features_from_file` returns for an analysed file. */
  function RecordOf(f: AudioFile, sr: nat, a: Analysis): Record
    requires sr > 0 && Shaped(a)
  {
    FixedFields(f, sr, a) + MfccFields(a.mfcc)
  }

  /** The outcome for one file: no record when librosa failed or the division by `sr` raises. */
  function Extracted(f: AudioFile, sr: nat, outcome: Option<Analysis>): (r: Option<Record>)
    requires outcome.Some? ==> Shaped(outcome.value)
    ensures r.None? <==> outcome.None? || sr == 0
  {
    match outcome
    case None => None
    case Some(a) => if sr == 0 then None else Some(RecordOf(f, sr, a))
  }

  /** The full key layout of a record: the 8 fixed keys, then mfcc_1 .. mfcc_13. */
  const RecordLayout: seq<string> := FixedNames + [
    "mfcc_1", "mfcc_2", "mfcc_3", "mfcc_4", "mfcc_5", "mfcc_6", "mfcc_7",
    "mfcc_8", "mfcc_9", "mfcc_10", "mfcc_11", "mfcc_12", "mfcc_13"]

  /** The MFCC keys the extractor writes are the last 13 keys of the layout. */
  lemma MfccNamesThirteen()
    ensures MfccNames(MfccCount) == RecordLayout[|FixedNames|..]
  {
    OneDigitNames();
    TwoDigitNames();
  }

  lemma OneDigitNames()
    ensures MfccName(0) == "mfcc_1" && MfccName(1) == "mfcc_2" && MfccName(2) == "mfcc_3"
    ensures MfccName(3) == "mfcc_4" && MfccName(4) == "mfcc_5" && MfccName(5) == "mfcc_6"
    ensures MfccName(6) == "mfcc_7" && MfccName(7) == "mfcc_8" && MfccName(8) == "mfcc_9"
  {
  }

  lemma TwoDigitNames()
    ensures MfccName(9) == "mfcc_10" && MfccName(10) == "mfcc_11"
    ensures MfccName(11) == "mfcc_12" && MfccName(12) == "mfcc_13"
  {
    assert Decimal(10) == "10" && Decimal(11) == "11" && Decimal(12) == "12" && Decimal(13) == "13";
  }

  /** Every record has exactly the 21 keys of `RecordLayout`, pairwise different, in that order. */
  lemma RecordLayoutOf(f: AudioFile, sr: nat, a: Analysis)
    requires sr > 0 && Shaped(a)
    ensures Names(RecordOf(f, sr, a)) == RecordLayout
    ensures Distinct(RecordLayout) && |RecordLayout| == 8 + MfccCount
  {
    var r := RecordOf(f, sr, a);
    assert Names(r) == Names(FixedFields(f, sr, a)) + Names(MfccFields(a.mfcc));
    MfccNamesThirteen();
    LayoutDistinct(MfccCount);
  }

  /** The scalar entries of a record hold the file's identity and librosa's values. */
  lemma RecordScalars(f: AudioFile, sr: nat, a: Analysis)
    requires sr > 0 && Shaped(a)
    ensures var r := RecordOf(f, sr, a);
      Get(r, "file_name") == Some(Text(f.name)) &&
      Get(r, "file_path") == Some(Text(f.path)) &&
      Get(r, "duration_sec") == Some(Number(a.samples as real / sr as real)) &&
      Get(r, "tempo_bpm") == Some(Number(a.tempo)) &&
      Get(r, "spectral_centroid") == Some(Number(a.centroid)) &&
      Get(r, "spectral_bandwidth") == Some(Number(a.bandwidth)) &&
      Get(r, "spectral_rolloff") == Some(Number(a.rolloff))
  {
    var r := RecordOf(f, sr, a);
    RecordLayoutOf(f, sr, a);
    GetAt(r, 0); GetAt(r, 1); GetAt(r, 2); GetAt(r, 3);
    GetAt(r, 5); GetAt(r, 6); GetAt(r, 7);
  }

  /** The `estimated_key` entry names the pitch class of the first strongest chroma bin. */
  lemma RecordKey(f: AudioFile, sr: nat, a: Analysis)
    requires sr > 0 && Shaped(a)
    ensures exists k :: (0 <= k < ChromaBins &&
      Get(RecordOf(f, sr, a), "estimated_key") == Some(Text(PitchClassNames[k])) &&
      (forall i :: 0 <= i < ChromaBins ==> a.chromaMeans[i] <= a.chromaMeans[k]) &&
      (forall i :: 0 <= i < k ==> a.chromaMeans[i] < a.chromaMeans[k]))
  {
    RecordLayoutOf(f, sr, a);
    GetAt(RecordOf(f, sr, a), 4);
  }

  /** The entry `mfcc_<i+1>` holds the mean of MFCC row `i`, for each of the 13 rows. */
  lemma RecordMfcc(f: AudioFile, sr: nat, a: Analysis, i: nat)
    requires sr > 0 && Shaped(a) && i < MfccCount
    ensures Get(RecordOf(f, sr, a), MfccName(i)) == Some(Number(Mean(a.mfcc[i])))
  {
    var r := RecordOf(f, sr, a);
    RecordLayoutOf(f, sr, a);
    assert r[8 + i] == Field(MfccName(i), Number(Mean(a.mfcc[i])));
    GetAt(r, 8 + i);
  }

  // ---------------------------------------------------------------------
  // The batch: which files, in which order, and what is kept

  predicate EndsWith(s: string, suffix: string)
  {
    |suffix| <= |s| && s[|s| - |suffix|..] == suffix
  }

  /** `audio_dir.glob("*" + suffix)`: the files whose name ends with `suffix`, in listing order. */
  function Matching(listing: seq<AudioFile>, suffix: string): (r: seq<AudioFile>)
    ensures forall f :: f in r <==> f in listing && EndsWith(f.name, suffix)
    ensures forall i :: 0 <= i < |r| ==> EndsWith(r[i].name, suffix)
    ensures |r| <= |listing|
  {
    if listing == [] then []
    else
      var rest := Matching(listing[1..], suffix);
      if EndsWith(listing[0].name, suffix) then [listing[0]] + rest else rest
  }

  /** Matching a concatenated listing matches each part in turn: the listing order is kept. */
  lemma {:induction false} MatchingAppend(xs: seq<AudioFile>, ys: seq<AudioFile>, suffix: string)
    ensures Matching(xs + ys, suffix) == Matching(xs, suffix) + Matching(ys, suffix)
  {
    if xs != [] {
      assert (xs + ys)[1..] == xs[1..] + ys;
      MatchingAppend(xs[1..], ys, suffix);
    } else {
      assert xs + ys == ys;
    }
  }

  /** A single file is kept exactly when its name ends with the suffix. */
  lemma MatchingOne(f: AudioFile, suffix: string)
    ensures Matching([f], suffix) == if EndsWith(f.name, suffix) then [f] else []
  {
    assert [f][1..] == [];
  }

  /** The files `process_directory` visits before the limit: all mp3 files, then all wav files. */
  function AudioFiles(listing: seq<AudioFile>): seq<AudioFile>
  {
    Matching(listing, ".mp3") + Matching(listing, ".wav")
  }

  /** Every mp3 file comes before every wav file, and no other file is visited. */
  lemma AudioFilesOrder(listing: seq<AudioFile>)
    ensures var files, p := AudioFiles(listing), |Matching(listing, ".mp3")|;
      (forall i :: 0 <= i < p ==> EndsWith(files[i].name, ".mp3")) &&
      (forall i :: p <= i < |files| ==> EndsWith(files[i].name, ".wav") && !EndsWith(files[i].name, ".mp3"))
    ensures forall f :: f in AudioFiles(listing) <==>
      f in listing && (EndsWith(f.name, ".mp3") || EndsWith(f.name, ".wav"))
  {
    var files, p := AudioFiles(listing), |Matching(listing, ".mp3")|;
    forall i | p <= i < |files|
      ensures EndsWith(files[i].name, ".wav") && !EndsWith(files[i].name, ".mp3")
    {
      var n := files[i].name;
      assert files[i] == Matching(listing, ".wav")[i - p];
      assert n[|n| - 1] == ".wav"[3];
    }
  }

  /** Python's `files[:n]`: a negative `n` counts from the end. */
  function Prefix(files: seq<AudioFile>, n: int): (r: seq<AudioFile>)
    ensures |r| <= |files| && r == files[..|r|]
    ensures 0 <= n ==> |r| == if n < |files| then n else |files|
    ensures n < 0 ==> |r| == if -n < |files| then |files| + n else 0
  {
    if 0 <= n then files[..if n < |files| then n else |files|]
    else files[..if -n < |files| then |files| + n else 0]
  }

  /** `if limit: files = files[:limit]` — `None` and `0` are both false, so neither truncates. */
  function Limited(files: seq<AudioFile>, limit: Option<int>): (r: seq<AudioFile>)
    ensures |r| <= |files| && r == files[..|r|]
    ensures limit == None || limit == Some(0) ==> r == files
    ensures limit.Some? && limit.value != 0 ==> r == Prefix(files, limit.value)
  {
    if limit.Some? && limit.value != 0 then Prefix(files, limit.value) else files
  }

  /**
   * The records `process_directory` appends for `files`, in order: a result
   * is kept when it is truthy, that is, a non-empty dict.
   */
  function Collected(files: seq<AudioFile>, sr: nat, outcomes: AudioFile -> Option<Analysis>): seq<Record>
    requires AllShaped(outcomes)
  {
    if files == [] then []
    else
      var feats := Extracted(files[|files| - 1], sr, outcomes(files[|files| - 1]));
      Collected(files[..|files| - 1], sr, outcomes) +
        if feats.Some? && |feats.value| > 0 then [feats.value] else []
  }

  lemma CollectedSnoc(files: seq<AudioFile>, i: nat, sr: nat, outcomes: AudioFile -> Option<Analysis>)
    requires AllShaped(outcomes) && i < |files|
    ensures var feats := Extracted(files[i], sr, outcomes(files[i]));
      Collected(files[..i + 1], sr, outcomes) ==
        Collected(files[..i], sr, outcomes) + if feats.Some? && |feats.value| > 0 then [feats.value] else []
  {
    assert files[..i + 1][..i] == files[..i];
  }

  /** The record a single file contributes: its record when extraction succeeded, nothing when it failed. */
  lemma CollectedOne(f: AudioFile, sr: nat, outcomes: AudioFile -> Option<Analysis>)
    requires AllShaped(outcomes)
    ensures Collected([f], sr, outcomes) ==
      match Extracted(f, sr, outcomes(f))
      case None => []
      case Some(r) => [r]
  {
    assert [f][..0] == [];
    var feats := Extracted(f, sr, outcomes(f));
    if feats.Some? {
      assert |feats.value| >= |FixedNames|;
    }
  }

  /** Files contribute independently: the records of a concatenation are the concatenation of the records. */
  lemma {:induction false} CollectedAppend(xs: seq<AudioFile>, ys: seq<AudioFile>, sr: nat, outcomes: AudioFile -> Option<Analysis>)
    requires AllShaped(outcomes)
    ensures Collected(xs + ys, sr, outcomes) == Collected(xs, sr, outcomes) + Collected(ys, sr, outcomes)
  {
    if ys == [] {
      assert xs + ys == xs;
    } else {
      var zs, y := ys[..|ys| - 1], ys[|ys| - 1];
      var feats := Extracted(y, sr, outcomes(y));
      var tail := if feats.Some? && |feats.value| > 0 then [feats.value] else [];
      assert (xs + ys)[..|xs + ys| - 1] == xs + zs;
      assert (xs + ys)[|xs + ys| - 1] == y;
      assert Collected(xs + ys, sr, outcomes) == Collected(xs + zs, sr, outcomes) + tail;
      assert Collected(ys, sr, outcomes) == Collected(zs, sr, outcomes) + tail;
      CollectedAppend(xs, zs, sr, outcomes);
    }
  }

  /** A file whose extraction fails is skipped and the batch goes on with the rest. */
  lemma FailureIsolated(xs: seq<AudioFile>, f: AudioFile, ys: seq<AudioFile>, sr: nat, outcomes: AudioFile -> Option<Analysis>)
    requires AllShaped(outcomes) && outcomes(f).None?
    ensures Collected(xs + [f] + ys, sr, outcomes) == Collected(xs + ys, sr, outcomes)
  {
    CollectedAppend(xs + [f], ys, sr, outcomes);
    CollectedAppend(xs, [f], sr, outcomes);
    CollectedAppend(xs, ys, sr, outcomes);
    CollectedOne(f, sr, outcomes);
  }

  /** The number of files whose extraction fails. */
  function Failures(files: seq<AudioFile>, sr: nat, outcomes: AudioFile -> Option<Analysis>): nat
    requires AllShaped(outcomes)
  {
    if files == [] then 0
    else
      Failures(files[..|files| - 1], sr, outcomes) +
        if Extracted(files[|files| - 1], sr, outcomes(files[|files| - 1])).None? then 1 else 0
  }

  /** Exactly one record is collected per file whose extraction succeeds. */
  lemma {:induction false} CollectedCount(files: seq<AudioFile>, sr: nat, outcomes: AudioFile -> Option<Analysis>)
    requires AllShaped(outcomes)
    ensures |Collected(files, sr, outcomes)| + Failures(files, sr, outcomes) == |files|
  {
    if files != [] {
      var f := files[|files| - 1];
      CollectedCount(files[..|files| - 1], sr, outcomes);
      var feats := Extracted(f, sr, outcomes(f));
      if feats.Some? {
        assert |feats.value| >= |FixedNames|;
      }
    }
  }

  /** Every collected record is the record of one processed file. */
  lemma {:induction false} CollectedFrom(files: seq<AudioFile>, sr: nat, outcomes: AudioFile -> Option<Analysis>)
    requires AllShaped(outcomes)
    ensures forall r :: r in Collected(files, sr, outcomes) ==>
      exists f :: f in files && Extracted(f, sr, outcomes(f)) == Some(r)
  {
    if files != [] {
      var init, f := files[..|files| - 1], files[|files| - 1];
      CollectedFrom(init, sr, outcomes);
      forall r | r in Collected(files, sr, outcomes)
        ensures exists g :: g in files && Extracted(g, sr, outcomes(g)) == Some(r)
      {
        if r in Collected(init, sr, outcomes) {
          var g :| g in init && Extracted(g, sr, outcomes(g)) == Some(r);
          assert g in files;
        } else {
          assert Extracted(f, sr, outcomes(f)) == Some(r);
        }
      }
    }
  }

  /** All collected records share the 21-key layout, so they form one table. */
  lemma {:induction false} CollectedLayout(files: seq<AudioFile>, sr: nat, outcomes: AudioFile -> Option<Analysis>)
    requires AllShaped(outcomes)
    ensures forall i :: 0 <= i < |Collected(files, sr, outcomes)| ==>
      Names(Collected(files, sr, outcomes)[i]) == RecordLayout
    ensures Distinct(RecordLayout)
  {
    LayoutDistinct(MfccCount);
    MfccNamesThirteen();
    if files != [] {
      var init, f := files[..|files| - 1], files[|files| - 1];
      CollectedLayout(init, sr, outcomes);
      match outcomes(f)
      case None =>
      case Some(a) =>
        if sr > 0 { RecordLayoutOf(f, sr, a); }
    }
  }

  lemma FixedNamesDistinct()
    ensures Distinct(FixedNames)
  {
    LayoutDistinct(0);
    assert FixedNames + MfccNames(0) == FixedNames;
  }

  /** Writing the `n`-th fixed key into a dict holding the first `n` fixed entries appends it. */
  lemma FixedStep(f: AudioFile, sr: nat, a: Analysis, n: nat)
    requires sr > 0 && Shaped(a) && n < |FixedNames|
    ensures var fixed := FixedFields(f, sr, a);
      fixed[n].name == FixedNames[n] &&
      Put(fixed[..n], FixedNames[n], fixed[n].value) == fixed[..n + 1]
  {
    var fixed := FixedFields(f, sr, a);
    FixedNamesDistinct();
    assert Names(fixed)[n] == fixed[n].name;
    PutNext(fixed, n);
  }

  /** The first two writes of the extractor give the file's name and path entries. */
  lemma FixedIdentity(f: AudioFile, sr: nat, a: Analysis)
    requires sr > 0 && Shaped(a)
    ensures Put(Put([], "file_name", Text(f.name)), "file_path", Text(f.path)) == FixedFields(f, sr, a)[..2]
  {
    var fixed := FixedFields(f, sr, a);
    var r0: Record := [];
    assert r0 == fixed[..0];
    var r1 := Put(r0, "file_name", Text(f.name));
    assert r1 == fixed[..1] by { FixedStep(f, sr, a, 0); }
    var r2 := Put(r1, "file_path", Text(f.path));
    assert r2 == fixed[..2] by { FixedStep(f, sr, a, 1); }
  }

  /** The first four writes of the extractor give the first four fixed entries. */
  lemma FixedFirstHalf(f: AudioFile, sr: nat, a: Analysis)
    requires sr > 0 && Shaped(a)
    ensures
      Put(Put(Put(Put([], "file_name", Text(f.name)), "file_path", Text(f.path)),
        "duration_sec", Number(Duration(a.samples, sr))), "tempo_bpm", Number(a.tempo))
      == FixedFields(f, sr, a)[..4]
  {
    var fixed := FixedFields(f, sr, a);
    var r2 := Put(Put([], "file_name", Text(f.name)), "file_path", Text(f.path));
    assert r2 == fixed[..2] by { FixedIdentity(f, sr, a); }
    var r3 := Put(r2, "duration_sec", Number(Duration(a.samples, sr)));
    assert r3 == fixed[..3] by { FixedStep(f, sr, a, 2); }
    var r4 := Put(r3, "tempo_bpm", Number(a.tempo));
    assert r4 == fixed[..4] by { FixedStep(f, sr, a, 3); }
  }

  /** The next four writes complete the fixed entries. */
  lemma FixedSecondHalf(f: AudioFile, sr: nat, a: Analysis, r: Record)
    requires sr > 0 && Shaped(a) && r == FixedFields(f, sr, a)[..4]
    ensures
      Put(Put(Put(Put(r, "estimated_key", Text(KeyLabel(ArgMax(a.chromaMeans)))),
        "spectral_centroid", Number(a.centroid)), "spectral_bandwidth", Number(a.bandwidth)),
        "spectral_rolloff", Number(a.rolloff))
      == FixedFields(f, sr, a)
  {
    var fixed := FixedFields(f, sr, a);
    var r5 := Put(r, "estimated_key", Text(KeyLabel(ArgMax(a.chromaMeans))));
    assert r5 == fixed[..5] by { FixedStep(f, sr, a, 4); }
    var r6 := Put(r5, "spectral_centroid", Number(a.centroid));
    assert r6 == fixed[..6] by { FixedStep(f, sr, a, 5); }
    var r7 := Put(r6, "spectral_bandwidth", Number(a.bandwidth));
    assert r7 == fixed[..7] by { FixedStep(f, sr, a, 6); }
    var r8 := Put(r7, "spectral_rolloff", Number(a.rolloff));
    assert r8 == fixed[..8] by { FixedStep(f, sr, a, 7); }
    assert fixed[..8] == fixed;
  }

  // ---------------------------------------------------------------------
  // The extractor object

  class AudioFeatureExtractor {
    /** The sample rate every file is resampled to. */
    const sr: nat
    /** The table last written to the output CSV by this extractor, if any. */
    var saved: Option<Table>

    /** The sample rate defaults to 22050 Hz, as in the source. */
    constructor (sr: nat := DefaultSampleRate)
      ensures this.sr == sr && saved == None
    {
      this.sr := sr;
      saved := None;
    }

    /**
     * One file: the dict is filled entry by entry, the MFCC entries in a loop;
     * any failure inside yields no record.
     */
    method ExtractFeaturesFromFile(f: AudioFile, outcome: Option<Analysis>) returns (r: Option<Record>)
      requires outcome.Some? ==> Shaped(outcome.value)
      ensures r == Extracted(f, sr, outcome)
      ensures r.Some? ==> Names(r.value) == RecordLayout
    {
      if outcome.None? || sr == 0 {
        return None;
      }
      var a := outcome.value;
      ghost var fixed := FixedFields(f, sr, a);
      var features: Record := [];
      features := Put(features, "file_name", Text(f.name));
      features := Put(features, "file_path", Text(f.path));
      features := Put(features, "duration_sec", Number(Duration(a.samples, sr)));
      features := Put(features, "tempo_bpm", Number(a.tempo));
      assert features == fixed[..4] by { FixedFirstHalf(f, sr, a); }
      ghost var half := features;
      var keyIndex := ArgMax(a.chromaMeans);
      features := Put(features, "estimated_key", Text(KeyLabel(keyIndex)));
      features := Put(features, "spectral_centroid", Number(a.centroid));
      features := Put(features, "spectral_bandwidth", Number(a.bandwidth));
      features := Put(features, "spectral_rolloff", Number(a.rolloff));
      assert features == fixed by { FixedSecondHalf(f, sr, a, half); }
      var i := 0;
      while i < |a.mfcc|
        invariant 0 <= i <= |a.mfcc|
        invariant features == fixed + MfccFields(a.mfcc[..i])
      {
        MfccStep(fixed, a.mfcc, i);
        features := Put(features, MfccName(i), Number(Mean(a.mfcc[i])));
        i := i + 1;
      }
      assert a.mfcc[..i] == a.mfcc;
      RecordLayoutOf(f, sr, a);
      r := Some(features);
    }

    /**
     * The batch: list the mp3 then the wav files, apply the limit, extract each
     * file in turn keeping the successes, and write the table only when at
     * least one record was collected.
     */
    method ProcessDirectory(listing: seq<AudioFile>, limit: Option<int>, outcomes: AudioFile -> Option<Analysis>)
      requires AllShaped(outcomes)
      modifies this`saved
      ensures var records := Collected(Limited(AudioFiles(listing), limit), sr, outcomes);
        if records == [] then saved == old(saved)
        else
          SameLayout(records) && Distinct(Names(records[0])) &&
          saved == Some(FrameOf(records))
    {
      var audioFiles := Matching(listing, ".mp3") + Matching(listing, ".wav");
      if limit.Some? && limit.value != 0 {
        audioFiles := Prefix(audioFiles, limit.value);
      }
      assert audioFiles == Limited(AudioFiles(listing), limit);
      var featureList: seq<Record> := [];
      for i := 0 to |audioFiles|
        invariant featureList == Collected(audioFiles[..i], sr, outcomes)
        invariant saved == old(saved)
      {
        var feats := ExtractFeaturesFromFile(audioFiles[i], outcomes(audioFiles[i]));
        if feats.Some? && |feats.value| > 0 {
          featureList := featureList + [feats.value];
        }
        CollectedSnoc(audioFiles, i, sr, outcomes);
      }
      assert audioFiles[..|audioFiles|] == audioFiles;
      assert featureList == Collected(Limited(AudioFiles(listing), limit), sr, outcomes);
      if |featureList| > 0 {
        CollectedLayout(audioFiles, sr, outcomes);
        saved := Some(FrameOf(featureList));
      }
    }
  }
}
