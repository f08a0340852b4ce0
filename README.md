# sample-finder, modelled in Dafny

sample-finder turns a directory of audio samples into a table of audio
features and answers "which samples sound like this one?" by exact
nearest-neighbour search over those features. This project models its two
components and proves what they promise:

- **Feature extraction** (`AudioFeatureExtractor`, module `Extraction`): one
  audio file becomes one feature record with the keys `file_name`,
  `file_path`, `duration_sec`, `tempo_bpm`, `estimated_key`, the three
  spectral means and `mfcc_1` .. `mfcc_13`, in that order. The batch visits
  the mp3 files and then the wav files, applies the optional limit, skips
  files whose extraction fails and saves one table of the successful records.
  The records are dicts filled entry by entry (`Frames.Put`), the MFCC entries
  in a loop. librosa's analysis of a file is given as an input: `None` when
  loading or analysing raises.
- **Similarity search** (`SemanticSearchEngine`, module `Search`): the loaded
  table is projected onto its numeric, non-excluded columns. The rows of that
  matrix go into an exact squared-L2 index (`Knn.FlatL2Index`, the behaviour
  of `faiss.IndexFlatL2`). Queries by vector and by sample name return rows in
  ascending distance. A query by name drops every row carrying the name.
- **Both together** (module `Pipeline`): the table the batch saves, read back
  with the default exclusion list, gives 18-component search vectors.
  `duration_sec` is one of them: the default exclusion list
  (`file_name`, `file_path`, `estimated_key`) does not name it, so the column
  stays in the vector.

Files: `wrappers.dfy` (Option, Result, IndexOf), `frames.dfy` (dicts and
tables), `flat_index.dfy` (distance, the k-NN specification and the flat
index), `semantic_search.dfy`, `extract_features.dfy` and `pipeline.dfy`.

## Model

| member | source | states |
|---|---|---|
| Frames.Put | app/processing/extract_features.py:42-65 | a new key is appended at the end; an existing key keeps the key order |
| Frames.PutGet | app/processing/extract_features.py:42-65 | after `d[k] = v`, `k` reads back `v` and every other key reads back its old value |
| Frames.PutDistinct | app/processing/extract_features.py:42-65 | writing a key never creates a duplicate key |
| Frames.GetAt | app/processing/extract_features.py:42-65 | in a dict with distinct keys, every entry is what its own key reads back |
| Frames.FrameOf | app/processing/extract_features.py:88 | the table built from records with one shared layout has that layout as header and one row per record, in order; row `i` holds the values of record `i` |
| Knn.SqDistZero | app/search_engine/semantic_search.py:54 | the squared L2 distance is zero exactly between equal vectors |
| Knn.SqDistSymmetric | app/search_engine/semantic_search.py:54 | the distance does not depend on argument order |
| Knn.KnnSelfMatch | app/search_engine/semantic_search.py:79-80 | a search with a stored vector returns a hit at distance 0 first, and that hit is the row itself when no two rows are equal |
| Knn.Insert | app/search_engine/semantic_search.py:68 | insertion into the ranking adds exactly the new hit: one more entry, and as a multiset the old entries plus the new hit |
| Knn.InsertSorted | app/search_engine/semantic_search.py:68 | insertion keeps the ranking in ascending distance |
| Knn.InsertDistinct | app/search_engine/semantic_search.py:68 | inserting a row not yet ranked keeps the ranked rows distinct |
| Knn.RankingPrefix | app/search_engine/semantic_search.py:68 | the first `k` entries of a complete ascending ranking are an exact k-nearest-neighbour answer |
| Knn.FlatL2Index.constructor | app/search_engine/semantic_search.py:54 | a new index has the given dimension and holds no vectors |
| Knn.FlatL2Index.Add | app/search_engine/semantic_search.py:55 | the added rows follow the stored ones, so the count grows by their number |
| Knn.FlatL2Index.Search | app/search_engine/semantic_search.py:68 | `k` distinct rows, each with its own squared distance, in ascending distance, and no row left out is nearer than a returned row |
| Search.EffectiveExclude | app/search_engine/semantic_search.py:32 | a missing or empty exclusion list falls back to file_name, file_path and estimated_key; a non-empty one is used as given |
| Search.KeptColumns | app/search_engine/semantic_search.py:46-48 | the matrix columns are exactly the numeric columns not excluded, in table order, and none survives in an empty table |
| Search.FeatureMatrix | app/search_engine/semantic_search.py:45-48 | one matrix row per table row, all of the kept width, and matrix cell `(i, c)` is the number in table row `i` under kept column `c` |
| Search.MatrixColumnsSelection | app/search_engine/semantic_search.py:46-48 | no excluded name reaches the matrix, and every numeric column that is not excluded does |
| Search.FileNameCol | app/search_engine/semantic_search.py:75 | there is a name column exactly when the table has a `file_name` header, and it is that column |
| Search.FirstRowNamed | app/search_engine/semantic_search.py:75-79 | no row is found exactly when no row carries the name; otherwise the row found carries it and no earlier row does |
| Search.WithoutName | app/search_engine/semantic_search.py:86 | a hit survives the filter exactly when its row does not carry the name |
| Search.WithoutNameSorted | app/search_engine/semantic_search.py:86 | filtering keeps hits in ascending distance |
| Search.WithoutNameDistinct | app/search_engine/semantic_search.py:86 | filtering keeps the returned rows distinct |
| Search.WithoutNameDropsAtMostOne | app/search_engine/semantic_search.py:86 | with a unique name and distinct rows the filter drops at most one hit, and none when no hit carries the name |
| Search.Head | app/search_engine/semantic_search.py:86 | `head(k)` is the first `k` entries, or all of them when there are fewer |
| Search.Joined | app/search_engine/semantic_search.py:82-83 | result `i` is the metadata row of hit `i` with that hit's distance, numbered from 0 |
| Search.ChosenRows | app/search_engine/semantic_search.py:82-88 | a sample query keeps at most `k` distinct rows, none carrying the query name, in ascending distance, each with its own distance |
| Search.ChosenNearest | app/search_engine/semantic_search.py:80-86 | no row without the query name that the query leaves out is nearer than a row it returns |
| Search.NearestCutByHead | app/search_engine/semantic_search.py:86 | a hit cut off by `head(k)` is no nearer than any hit kept |
| Search.SampleAnswer | app/search_engine/semantic_search.py:80-88 | the joined answer of a sample query has at most `k` rows, none carrying the query name, in ascending distance, and exactly `k` for a unique name |
| Search.ChosenCount | app/search_engine/semantic_search.py:80-86 | when no other row shares the name, a sample query returns exactly `k` rows |
| Search.SemanticSearchEngine.constructor | app/search_engine/semantic_search.py:24-39 | the engine holds the table, its feature matrix and an index of the matrix width holding one vector per table row |
| Search.SemanticSearchEngine.LoadFeatures | app/search_engine/semantic_search.py:41-49 | the table is kept as metadata and the matrix is its projection, one row per table row |
| Search.SemanticSearchEngine.BuildIndex | app/search_engine/semantic_search.py:51-57 | a fresh index of the matrix width holds exactly the matrix rows |
| Search.SemanticSearchEngine.QueryByVector | app/search_engine/semantic_search.py:63-69 | the result is an exact k-nearest-neighbour answer over the matrix rows |
| Search.SemanticSearchEngine.QueryBySample | app/search_engine/semantic_search.py:71-88 | a missing `file_name` column and an unknown name are the only two errors, each raised exactly in its case; with the column present and a named row the query succeeds, and the answer joins the first `k` non-matching hits of an exact `k + 1` search from the first named row, at most `k` rows, none named, ascending, and exactly `k` for a unique name |
| Extraction.Duration | app/processing/extract_features.py:46 | the duration is non-negative and times the sample rate gives the sample count |
| Extraction.ArgMax | app/processing/extract_features.py:54 | the position of the first largest value |
| Extraction.EstimatedKey | app/processing/extract_features.py:53-55 | the key is the pitch-class name of the first strongest of the 12 chroma bins |
| Extraction.MeanBounds | app/processing/extract_features.py:65 | a mean lies between the smallest and largest frame value |
| Extraction.DecimalInjective | app/processing/extract_features.py:65 | different MFCC row numbers print differently |
| Extraction.MfccNameFresh | app/processing/extract_features.py:64-65 | the key of MFCC row `n` is new after the fixed keys and the earlier MFCC keys |
| Extraction.LayoutDistinct | app/processing/extract_features.py:42-65 | the keys of a record are pairwise different |
| Extraction.FixedFields | app/processing/extract_features.py:42-60 | the eight scalar entries have the fixed keys, in writing order |
| Extraction.MfccFields | app/processing/extract_features.py:63-65 | one entry per MFCC row, keyed `mfcc_<i+1>` |
| Extraction.MfccStep | app/processing/extract_features.py:64-65 | writing the key of MFCC row `i` appends the entry holding that row's mean |
| Extraction.FixedFirstHalf | app/processing/extract_features.py:42-50 | the first four writes give the name, path, duration and tempo entries |
| Extraction.FixedSecondHalf | app/processing/extract_features.py:53-60 | the next four writes give the key and the three spectral entries |
| Extraction.Extracted | app/processing/extract_features.py:36-71 | no record exactly when librosa fails or the sample rate is zero |
| Extraction.MfccNamesThirteen | app/processing/extract_features.py:63-65 | the 13 MFCC keys are `mfcc_1` .. `mfcc_13` |
| Extraction.RecordLayoutOf | app/processing/extract_features.py:42-65 | a record has exactly the 21 keys of the layout, pairwise different, in order |
| Extraction.RecordScalars | app/processing/extract_features.py:42-60 | name, path, samples over rate, tempo and the three spectral means read back under their keys |
| Extraction.RecordKey | app/processing/extract_features.py:53-55 | `estimated_key` reads back the pitch class of the first strongest chroma bin |
| Extraction.RecordMfcc | app/processing/extract_features.py:63-65 | `mfcc_<i+1>` reads back the mean of MFCC row `i` |
| Extraction.Matching | app/processing/extract_features.py:75 | a file is listed exactly when its name ends with the suffix, and the result is no longer than the listing |
| Extraction.MatchingAppend | app/processing/extract_features.py:75 | the matches of two listings joined are the matches of the first followed by those of the second, so listing order is kept |
| Extraction.MatchingOne | app/processing/extract_features.py:75 | a one-file listing yields that file exactly when its name ends with the suffix, and nothing otherwise |
| Extraction.AudioFilesOrder | app/processing/extract_features.py:75 | every mp3 file comes before every wav file, and only those two kinds are visited |
| Extraction.Prefix | app/processing/extract_features.py:77 | Python's `files[:n]`: a prefix of length `n`, or `len + n` for negative `n`, clipped to the list |
| Extraction.Limited | app/processing/extract_features.py:76-77 | a limit of `None` or `0` keeps every file; any other limit cuts as `files[:limit]` |
| Extraction.CollectedSnoc | app/processing/extract_features.py:81-85 | one more file adds its record when extraction succeeded and nothing otherwise |
| Extraction.CollectedOne | app/processing/extract_features.py:83-85 | a single file contributes its record or nothing |
| Extraction.CollectedAppend | app/processing/extract_features.py:81-85 | the records of two file lists in a row are the records of the first followed by those of the second |
| Extraction.FailureIsolated | app/processing/extract_features.py:83-85 | a failing file is skipped and the batch goes on unchanged with the rest |
| Extraction.CollectedCount | app/processing/extract_features.py:79-85 | collected records plus failures equal the number of files |
| Extraction.CollectedFrom | app/processing/extract_features.py:79-85 | every collected record is the record of a processed file |
| Extraction.CollectedLayout | app/processing/extract_features.py:87-88 | all collected records share the 21-key layout, so they form one table |
| Extraction.AudioFeatureExtractor.constructor | app/processing/extract_features.py:26-29 | the extractor keeps its sample rate, 22050 Hz unless given, and has saved nothing yet |
| Extraction.AudioFeatureExtractor.ExtractFeaturesFromFile | app/processing/extract_features.py:36-71 | the dict filled entry by entry, the MFCC entries in a loop, is the record of the file, or none when extraction fails; a record has the 21-key layout |
| Extraction.AudioFeatureExtractor.ProcessDirectory | app/processing/extract_features.py:73-92 | nothing is saved when no record was collected; otherwise the saved table is the collected records, in file order |
| Pipeline.RecordKinds | app/processing/extract_features.py:42-65 | a record holds text exactly at the file name, the path and the key |
| Pipeline.CollectedKinds | app/processing/extract_features.py:79-85 | every collected record has that shape |
| Pipeline.SavedRecords | app/processing/extract_features.py:87-88 | a non-empty batch collects records of one duplicate-free layout with those kinds |
| Pipeline.KeptIffNumeric | app/search_engine/semantic_search.py:46-48 | under the default exclusion list a column of the saved table is kept exactly when it is numeric |
| Pipeline.KeptNumeric | app/search_engine/semantic_search.py:46-48 | the kept columns are the numeric record positions, in order |
| Pipeline.FeatureRecordsSearchLayout | app/search_engine/semantic_search.py:32 | the matrix columns of a saved table are duration_sec, tempo_bpm, the three spectral values and mfcc_1 .. mfcc_13 |
| Pipeline.SavedTableSearchLayout | app/search_engine/semantic_search.py:41-57 | the engine built on a saved table indexes 18-component vectors, one per saved record |

## Left out

- librosa's signal processing (loading, resampling, beat tracking, chroma, spectral features, MFCC): each file's analysis is an input, and `None` stands for any exception it raises.
- `hz_to_note`'s exact string: the key is one of the 12 pitch-class names. The octave digit and the Unicode sharp glyph librosa prints are not modelled.
- Floating point: the model works on exact reals, so the float32 cast of the matrix and FAISS's rounding are not modelled.
- Knn.FlatL2Index.Search: requires `1 <= k <= ntotal` and a query of the index dimension. FAISS raises an `AssertionError` for `k <= 0` and for a query of another length; those raising inputs are not modelled. Neither is FAISS's padding with label `-1` for a larger `k`, nor the tie order among equal distances, which is not promised.
- Search.SemanticSearchEngine.QueryByVector: has the same requirements as `Knn.FlatL2Index.Search`, so the `AssertionError` FAISS raises for `k <= 0` or a vector of another length is not modelled.
- Search.SemanticSearchEngine.QueryBySample: `k` is a natural number and `k + 1` is at most the number of rows. A negative `k` makes the `k + 1` search raise in FAISS; that raising input is not modelled. With fewer rows than `k + 1`, FAISS would pad with `-1` and `iloc` would read that as the last row; that is not modelled either.
- Pipeline.SavedTableSearchLayout: the 18-component layout assumes `beat_track` returns the tempo as a scalar, which the model's `tempo: real` encodes. A librosa that returns a one-element array would make `tempo_bpm` a text cell once written to CSV. `select_dtypes` would then drop it, giving 17 components; the model does not capture that.
- Index persistence (`faiss.write_index` when an index path is given) is file I/O and is left out.
- CSV writing and reading: the saved table is the table built from the records, and the engine receives a table. `read_csv`'s dtype inference is the numeric-column rule: every cell is a number. NaN cells are not modelled.
- `glob` order: the directory listing is an input, taken in the order given.
- Logging, `mkdir`, the audio-directory existence check and both command-line entry points have no modelled effect.
- The negative sample rate: `sr` is a natural number. Zero yields no record, as the division raises.
- The Freesound scraper is not part of this model; it is an HTTP client.
