# Character error rate of Whisper transcriptions — a Dafny model

`whisper_transcribe_cer.py` transcribes every audio file under a LibriSpeech
style corpus and scores the transcriptions with a character error rate
(CER). This project models its scoring and aggregation logic and proves
what that logic computes:

- `calculate_cer` (module `Cer`): lowercase both strings, take their
  Levenshtein distance, divide by the length of the lowercased ground truth.
  The distance, which the script takes from a library, is the recursive
  function `Levenshtein.Dist`. `Levenshtein.EditDistance` is a
  Wagner-Fischer dynamic programme proved equal to it. The division is exact
  (`real`). An empty ground truth is the `ZeroDivisionError` the script
  raises, modelled as `Err(ZeroDivision)`.
- `process_subdirectory` (module `Subdirectory`): walk the sub-directory and
  keep only `.mp3`, `.wav`, `.m4a` and `.flac` files. For each one, append
  `"{id} {transcription}\n"`, where `id` is the name without its extension.
  Write the text to `{parent}-{subdirectory}.trans`, check that the
  ground-truth file exists, read it back, `strip()` it and score.
- the `__main__` block (module `Corpus`): for every directory of the corpus
  root, pool the samples of its sub-directories. If there is at least one
  sample, record `(directory, sum / count)`.

The script writes the transcription file and reads the ground truth from
the same path. The model proves what follows from that
(`Subdirectory.SubdirSampleIsStripOverhead`, `Corpus.DirectorySamplesShape`):

- the existence check always succeeds, so every sub-directory gives exactly
  one sample;
- that sample is the number of whitespace characters `strip()` removed
  divided by the length of what is left;
- it is never zero, because the text always ends in `\n`;
- a sub-directory with no audio files, or whose text is all whitespace,
  makes the division fail and aborts the run.

So the rate measures surrounding whitespace, not transcription accuracy.

The speech model, the directory listings and the file system are inputs:

- `transcribe` is a function from a file path to the text the model
  returns;
- an `os.walk` is a sequence of `WalkStep(root, files)`;
- `os.listdir` together with `os.path.isdir` is a sequence of entries that
  carry their name, whether they are directories, and their own listing;
- the file system is a `map` from path to contents.

Paths follow the Windows path module, since the script's paths are Windows
paths.

## Model

| member | source | states |
|---|---|---|
| Levenshtein.Dist | whisper_transcribe_cer.py:20 | definition of the Levenshtein distance: insertions, deletions and substitutions of one character each cost 1 |
| Levenshtein.DistZeroIff | whisper_transcribe_cer.py:20 | the edit distance is zero exactly when the two strings are equal |
| Levenshtein.DistLengthGap | whisper_transcribe_cer.py:20 | the edit distance is at least the difference of the two lengths, in both directions |
| Levenshtein.DistAtMostLonger | whisper_transcribe_cer.py:20 | the edit distance is at most the length of the longer string |
| Levenshtein.DistAppendLeft | whisper_transcribe_cer.py:20 | appending `q` to the first string raises the distance by at most `\|q\|` |
| Levenshtein.DistCommonSuffix | whisper_transcribe_cer.py:20 | adding the same suffix to both strings never raises the distance |
| Levenshtein.DistToSlice | whisper_transcribe_cer.py:20 | a string and its slice `a[i..j]` are exactly `\|a\| - (j - i)` edits apart |
| Levenshtein.EditDistance | whisper_transcribe_cer.py:20 | the dynamic programme returns exactly the edit distance `Dist(a, b)` |
| Text.Lower | whisper_transcribe_cer.py:18-19 | definition of `str.lower` on ASCII: `A`-`Z` become `a`-`z`, every other character is kept |
| Text.LowerIdempotent | whisper_transcribe_cer.py:18-19 | lowercasing twice is lowercasing once |
| Text.LowerSlice | whisper_transcribe_cer.py:18-19 | lowercasing a slice is slicing the lowercased string |
| Text.StripLeft | whisper_transcribe_cer.py:40 | the result is a suffix of the input, does not start with whitespace, and everything removed is whitespace |
| Text.StripRight | whisper_transcribe_cer.py:40 | the result is a prefix of the input, does not end with whitespace, and everything removed is whitespace |
| Text.Strip | whisper_transcribe_cer.py:40 | definition of `str.strip()`: strip leading, then trailing whitespace |
| Text.StripIsSlice | whisper_transcribe_cer.py:40 | `strip()` returns a contiguous slice, with only whitespace around it, that neither starts nor ends with whitespace |
| Text.StripEmptyIff | whisper_transcribe_cer.py:40 | `strip()` returns the empty string exactly when the input is all whitespace |
| Text.StripShortens | whisper_transcribe_cer.py:40 | a trailing whitespace character is always removed |
| Text.RFind | whisper_transcribe_cer.py:31 | the index of the last occurrence of a character, or -1 when there is none |
| Text.Join | whisper_transcribe_cer.py:29 | definition of `os.path.join` for a relative, drive-less component: insert a `\` unless the first part is empty, ends in a separator, or is a bare drive such as `C:` |
| Text.Basename | whisper_transcribe_cer.py:33 | definition of `os.path.basename`: what follows the drive letter and the last `\` or `/` |
| Text.JoinOntoBareDrive | whisper_transcribe_cer.py:29 | joining onto a bare drive inserts no separator (`join("C:", "x")` is `"C:x"`), and its base name drops the drive |
| Text.SplitExtRoot | whisper_transcribe_cer.py:31 | definition of `os.path.splitext(p)[0]`: cut at the last `.` after the last separator, unless only dots precede it |
| Text.BasenameOfJoin | whisper_transcribe_cer.py:33 | `basename(join(a, b))` is `b` for any `a` and any name `b` a Windows listing can return (no separators, no `:`) |
| Cer.CalculateCer | whisper_transcribe_cer.py:17-20 | by definition the rate is `Dist(Lower(t), Lower(g)) / \|Lower(g)\|`; it fails exactly on an empty ground truth; otherwise it is non-negative, and zero exactly when the lowercased strings are equal |
| Cer.CerCaseInsensitive | whisper_transcribe_cer.py:18-19 | changing the case of letters in either argument leaves the result unchanged |
| Cer.CerOfLowered | whisper_transcribe_cer.py:18-19 | lowercasing the arguments beforehand leaves the result unchanged |
| Cer.CerExceedsOne | whisper_transcribe_cer.py:20 | a transcription more than twice as long as the ground truth scores above 1, so the rate is not bounded by 1 |
| Cer.CerAtMost | whisper_transcribe_cer.py:20 | the rate is at most 1 when the transcription is no longer than the ground truth, and at most their length ratio otherwise |
| Cer.DistLastSubstitution | whisper_transcribe_cer.py:20 | strings that differ only in their last character are one edit apart |
| Cer.CerLastSubstitution | whisper_transcribe_cer.py:17-20 | lowercase strings that differ only in the last character score `1 / length` |
| Cer.CerExampleEqual | whisper_transcribe_cer.py:17-20 | CER("abc", "abc") is 0 |
| Cer.CerExampleOneSubstitution | whisper_transcribe_cer.py:17-20 | CER("abc", "abd") is 1/3 |
| Cer.CerExampleCase | whisper_transcribe_cer.py:17-20 | CER("ABC", "abc") is 0 |
| Cer.CerExampleEmptyGroundTruth | whisper_transcribe_cer.py:20 | CER with an empty ground truth is the division error |
| Cer.CerAgainstOwnStrip | whisper_transcribe_cer.py:40-41 | a text scored against its own stripped form gets (characters stripped) / (characters kept) |
| Subdirectory.IsAudio | whisper_transcribe_cer.py:28 | definition of the filter: the name ends in `.mp3`, `.wav`, `.m4a` or `.flac` |
| Subdirectory.FileId | whisper_transcribe_cer.py:31 | definition of the file id: the name without its extension |
| Subdirectory.TranscriptLine | whisper_transcribe_cer.py:32 | definition of one file's line: `"{id} {transcription}\n"`, the transcription taken from the joined path |
| Subdirectory.Blob | whisper_transcribe_cer.py:24-32 | definition of `aggregated_transcription` after the loops: the text of each walk step, in visiting order |
| Subdirectory.TransFilePath | whisper_transcribe_cer.py:33-37 | definition of the path written and read: `{parent}-{basename}.trans` joined to the sub-directory |
| Subdirectory.StepAudioFiles | whisper_transcribe_cer.py:27-28 | the files kept from one directory of the walk are exactly its audio files: every kept file is an audio file of that directory, and every audio file of it is kept |
| Subdirectory.BlobIsAudioLines | whisper_transcribe_cer.py:26-32 | the aggregated text is the in-order concatenation of one line per audio file; other files contribute nothing |
| Subdirectory.LinesAppend | whisper_transcribe_cer.py:32 | the lines of two runs of files are the lines of the first followed by those of the second |
| Subdirectory.BlobShape | whisper_transcribe_cer.py:32 | the aggregated text is empty exactly when there are no audio files, and otherwise ends in a newline |
| Subdirectory.FileIdOfAudio | whisper_transcribe_cer.py:31 | an audio file's id is its name without the extension, or the whole name when only dots precede the extension |
| Subdirectory.TransFileName | whisper_transcribe_cer.py:33-37 | the file written and the ground truth read are both `{parent}-{inner}.trans` inside the sub-directory |
| Subdirectory.ReadTextFile | whisper_transcribe_cer.py:38-40 | definition of `os.path.exists` followed by the read: the contents at the path, or nothing when there is no file |
| Subdirectory.SubdirResult | whisper_transcribe_cer.py:38-45 | no sample when the ground-truth file is missing; otherwise the division error exactly when the stripped ground truth is empty, and else exactly one non-negative sample |
| Subdirectory.SelfScore | whisper_transcribe_cer.py:37-42 | scoring the text against itself read back fails exactly when stripping leaves nothing; otherwise the sample is the whitespace ratio |
| Subdirectory.SelfScorePositive | whisper_transcribe_cer.py:40-41 | a text ending in whitespace gets a whitespace ratio above zero |
| Subdirectory.SubdirSamples | whisper_transcribe_cer.py:37-45 | definition of the result of `process_subdirectory`: the written text scored against itself read back |
| Subdirectory.SubdirSampleIsStripOverhead | whisper_transcribe_cer.py:34-45 | fails exactly when the text is all whitespace, in particular when there are no audio files; otherwise the one sample is (characters stripped) / (characters kept) and is above zero |
| Subdirectory.AggregateTranscriptions | whisper_transcribe_cer.py:24-32 | the loop builds exactly the aggregated text `Blob(walk, transcribe)` |
| Subdirectory.ProcessSubdirectory | whisper_transcribe_cer.py:23-45 | the file system gains the aggregated text at the `.trans` path, and the result is the samples of that text against itself read back |
| Corpus.Mean | whisper_transcribe_cer.py:63 | definition of the average: `sum(xs) / len(xs)` |
| Corpus.DirectorySamples | whisper_transcribe_cer.py:55-61 | definition of `directory_cer_results`: the samples of each sub-directory in listing order, or the first error |
| Corpus.CorpusRows | whisper_transcribe_cer.py:50-64 | definition of `all_cer_results`: one `(directory, average)` row per directory with samples, in listing order, or the first error |
| Corpus.CountRowDirs | whisper_transcribe_cer.py:62 | definition of how many directories get a row: those whose pooled samples are not empty |
| Corpus.SeqMin | whisper_transcribe_cer.py:63 | the smallest sample is a sample and no sample is below it |
| Corpus.SeqMax | whisper_transcribe_cer.py:63 | the largest sample is a sample and no sample is above it |
| Corpus.MeanBounds | whisper_transcribe_cer.py:63 | any bound that holds for every sample holds for the average |
| Corpus.MeanBetween | whisper_transcribe_cer.py:63 | the average lies between the smallest and the largest sample |
| Corpus.MeanExample | whisper_transcribe_cer.py:63 | the average of 0.1 and 0.3 is 0.2 |
| Corpus.DirectorySamplesErrPersists | whisper_transcribe_cer.py:56-61 | a division error in one sub-directory aborts the whole directory |
| Corpus.CorpusRowsErrPersists | whisper_transcribe_cer.py:51-64 | a division error in one directory aborts the whole run |
| Corpus.DirectorySamplesShape | whisper_transcribe_cer.py:55-61 | each sub-directory contributes exactly one sample, and every sample is above zero |
| Corpus.CorpusRowsSound | whisper_transcribe_cer.py:62-64 | there is exactly one row per directory with at least one sample, in listing order: row `k` is the average of the entry with exactly `k` such directories before it |
| Corpus.CorpusRowsComplete | whisper_transcribe_cer.py:62-64 | on a successful run every directory was processed, and each one with at least one sample has its row |
| Corpus.RowAverageBounds | whisper_transcribe_cer.py:62-64 | a recorded average lies between its directory's smallest and largest sample and is above zero |
| Corpus.PoolDirectory | whisper_transcribe_cer.py:55-61 | the loop returns exactly the pooled samples `DirectorySamples(inner, transcribe)`, or the error |
| Corpus.Evaluate | whisper_transcribe_cer.py:50-64 | the loop returns exactly the rows `CorpusRows(listing, transcribe)`, or the error that aborts the run |

## Left out

- `transcribe_audio` (audio decoding with librosa, Whisper inference) is a foreign call. It is the parameter `transcribe`, a function from file path to text.
- `os.walk`, `os.listdir` and `os.path.isdir` are filesystem I/O. Their results, in the order they are visited, are input data.
- File writing and reading are a `map` from path to contents, and the text read back is the text written. The script writes UTF-8 and reads Latin-1, so this holds only for ASCII content.
- Newline translation on reading is not modelled. The file is opened in text mode, so a `\r` or `\r\n` inside a transcription comes back as `\n`, and the read-back then differs from the written text. The model assumes transcriptions contain no `\r`. With a `\r`, the sample `SubdirSampleIsStripOverhead` states is not the one the script computes.
- Writing the CSV report and the print statements are output only. The rows written are the value `Evaluate` returns.
- Model loading and the hard-coded corpus and report paths have no logic. The corpus root is the parameter `directory`.
- `str.lower` and `str.strip` are modelled for ASCII only: lowercasing maps `A`-`Z` to `a`-`z`, and whitespace is the ASCII set `str.isspace` accepts. Unicode letters and whitespace are not modelled.
- Text.Join: models `os.path.join` only for a second part that is relative and has no drive, and drive letters only in the `C:` form. A rooted or drive-qualified second part, which restarts the path, is not modelled, and neither are UNC drives (`\\server\share`). The script joins only directory-listing names onto a drive-letter path.
- Text.Basename: splits off `C:`-style drives but not UNC drives, so the bare share `\\server\share` gets `share` where the source gives the empty string. The script never takes the base name of a bare share.
- Floating-point rounding in the division and the mean is not modelled; both are exact `real` arithmetic.
- Corpus.Evaluate: does not state the file system after the run. Each write is stated by `ProcessSubdirectory`, and no later step reads another sub-directory's file.
- Corpus.PoolDirectory: does not state the file system it returns, for the same reason.
- A crash from an unreadable audio file is not modelled; `transcribe` is total.
