/**
 * `process_subdirectory`: transcribe every audio file found by walking one
 * sub-directory, gather the transcriptions into one text, write it to
 * `{parent}-{subdirectory}.trans`, read the ground truth back from the same
 * path and score the text against it.
 *
 * The walk, the speech model and the file system are inputs: the walk is the
 * sequence of directories `os.walk` visits with their file names, the model
 * is a function from a file path to its transcription, and the file system is
 * a map from paths to contents.
 */
module Subdirectory {
  import opened Wrappers
  import opened Text
  import opened Cer

  /** One directory visited by `os.walk`: its path and the names of its files. */
  datatype WalkStep = WalkStep(root: string, files: seq<string>)

  /** An audio file found by the walk: the directory it is in and its name. */
  datatype AudioFile = AudioFile(root: string, name: string)

  /** The file names the script transcribes. */
  predicate IsAudio(name: string) {
    EndsWith(name, ".mp3") || EndsWith(name, ".wav") || EndsWith(name, ".m4a") || EndsWith(name, ".flac")
  }

  /** The identifier written in front of a transcription: the name without its extension. */
  function FileId(name: string): string {
    SplitExtRoot(name)
  }

  /** The line contributed by one audio file. */
  function TranscriptLine(f: AudioFile, transcribe: string -> string): string {
    FileId(f.name) + " " + transcribe(Join(f.root, f.name)) + "\n"
  }

  /** What the inner loop appends while going through `names` in `root`. */
  function StepBlob(root: string, names: seq<string>, transcribe: string -> string): string {
    if |names| == 0 then ""
    else
      var name := names[|names| - 1];
      StepBlob(root, names[..|names| - 1], transcribe)
        + (if IsAudio(name) then TranscriptLine(AudioFile(root, name), transcribe) else "")
  }

  /** Going one file further in a walk step. */
  lemma StepBlobNext(root: string, names: seq<string>, j: nat, transcribe: string -> string)
    requires j < |names|
    ensures StepBlob(root, names[..j + 1], transcribe) == StepBlob(root, names[..j], transcribe)
      + (if IsAudio(names[j]) then TranscriptLine(AudioFile(root, names[j]), transcribe) else "")
  {
    assert names[..j + 1][..j] == names[..j];
  }

  lemma ConcatAssoc(a: string, b: string, c: string)
    ensures (a + b) + c == a + (b + c)
  {
  }

  /** The aggregated transcription after the whole walk. */
  function Blob(walk: seq<WalkStep>, transcribe: string -> string): string {
    if |walk| == 0 then ""
    else
      var step := walk[|walk| - 1];
      Blob(walk[..|walk| - 1], transcribe) + StepBlob(step.root, step.files, transcribe)
  }

  /** The audio files of one walk step, in listing order. */
  function StepAudioFiles(root: string, names: seq<string>): (r: seq<AudioFile>)
    ensures forall k :: 0 <= k < |r| ==> r[k].root == root && r[k].name in names && IsAudio(r[k].name)
    ensures forall n :: n in names && IsAudio(n) ==> AudioFile(root, n) in r
  {
    if |names| == 0 then []
    else
      var name := names[|names| - 1];
      StepAudioFiles(root, names[..|names| - 1]) + (if IsAudio(name) then [AudioFile(root, name)] else [])
  }

  /** The audio files of the whole walk, in visiting order. */
  function AudioFiles(walk: seq<WalkStep>): seq<AudioFile> {
    if |walk| == 0 then []
    else
      var step := walk[|walk| - 1];
      AudioFiles(walk[..|walk| - 1]) + StepAudioFiles(step.root, step.files)
  }

  /** The lines, one after the other. */
  function Concat(lines: seq<string>): string {
    if |lines| == 0 then "" else Concat(lines[..|lines| - 1]) + lines[|lines| - 1]
  }

  lemma {:induction false} ConcatAppend(x: seq<string>, y: seq<string>)
    ensures Concat(x + y) == Concat(x) + Concat(y)
    decreases |y|
  {
    if |y| == 0 {
      assert x + y == x;
    } else {
      var y', last := y[..|y| - 1], y[|y| - 1];
      assert (x + y)[..|x + y| - 1] == x + y';
      assert (x + y)[|x + y| - 1] == last;
      ConcatAppend(x, y');
      ConcatAssoc(Concat(x), Concat(y'), last);
    }
  }

  /** The text written for a sequence of audio files. */
  function Lines(files: seq<AudioFile>, transcribe: string -> string): string {
    Concat(seq(|files|, k requires 0 <= k < |files| => TranscriptLine(files[k], transcribe)))
  }

  lemma LinesAppend(x: seq<AudioFile>, y: seq<AudioFile>, transcribe: string -> string)
    ensures Lines(x + y, transcribe) == Lines(x, transcribe) + Lines(y, transcribe)
  {
    var lx := seq(|x|, k requires 0 <= k < |x| => TranscriptLine(x[k], transcribe));
    var ly := seq(|y|, k requires 0 <= k < |y| => TranscriptLine(y[k], transcribe));
    var lxy := seq(|x + y|, k requires 0 <= k < |x + y| => TranscriptLine((x + y)[k], transcribe));
    assert lxy == lx + ly;
    ConcatAppend(lx, ly);
  }

  lemma LinesSingle(f: AudioFile, transcribe: string -> string)
    ensures Lines([f], transcribe) == TranscriptLine(f, transcribe)
  {
    var l := seq(1, k requires 0 <= k < 1 => TranscriptLine([f][k], transcribe));
    assert l == [TranscriptLine(f, transcribe)];
    assert Concat(l) == Concat([]) + l[0];
  }

  lemma {:induction false} StepBlobIsLines(root: string, names: seq<string>, transcribe: string -> string)
    ensures StepBlob(root, names, transcribe) == Lines(StepAudioFiles(root, names), transcribe)
  {
    if |names| > 0 {
      var name := names[|names| - 1];
      StepBlobIsLines(root, names[..|names| - 1], transcribe);
      if IsAudio(name) {
        var prefix, f := StepAudioFiles(root, names[..|names| - 1]), AudioFile(root, name);
        assert StepAudioFiles(root, names) == prefix + [f];
        LinesAppend(prefix, [f], transcribe);
        LinesSingle(f, transcribe);
      } else {
        var prefix := StepAudioFiles(root, names[..|names| - 1]);
        assert StepAudioFiles(root, names) == prefix + [] == prefix;
      }
    }
  }

  /**
   * Only audio files contribute, each with exactly one line, in the order the
   * walk visits them.
   */
  lemma {:induction false} BlobIsAudioLines(walk: seq<WalkStep>, transcribe: string -> string)
    ensures Blob(walk, transcribe) == Lines(AudioFiles(walk), transcribe)
  {
    if |walk| > 0 {
      var step := walk[|walk| - 1];
      BlobIsAudioLines(walk[..|walk| - 1], transcribe);
      StepBlobIsLines(step.root, step.files, transcribe);
      LinesAppend(AudioFiles(walk[..|walk| - 1]), StepAudioFiles(step.root, step.files), transcribe);
    }
  }

  /** The text is empty exactly when there are no audio files, and otherwise ends in a newline. */
  lemma LinesShape(files: seq<AudioFile>, transcribe: string -> string)
    ensures Lines(files, transcribe) == [] <==> files == []
    ensures files != [] ==> Lines(files, transcribe)[|Lines(files, transcribe)| - 1] == '\n'
  {
  }

  lemma BlobShape(walk: seq<WalkStep>, transcribe: string -> string)
    ensures Blob(walk, transcribe) == [] <==> AudioFiles(walk) == []
    ensures AudioFiles(walk) != [] ==> Blob(walk, transcribe)[|Blob(walk, transcribe)| - 1] == '\n'
  {
    BlobIsAudioLines(walk, transcribe);
    LinesShape(AudioFiles(walk), transcribe);
  }

  /**
   * For a name without separators that ends in an audio extension, the
   * identifier is the name with the extension cut off, unless nothing but
   * dots comes before the extension, in which case it is the whole name.
   */
  lemma FileIdOfAudio(name: string, ext: string)
    requires ext in [".mp3", ".wav", ".m4a", ".flac"] && EndsWith(name, ext)
    requires forall k :: 0 <= k < |name| ==> !IsSep(name[k])
    ensures FileId(name) ==
      if forall k :: 0 <= k < |name| - |ext| ==> name[k] == '.' then name else name[..|name| - |ext|]
  {
    var dot := |name| - |ext|;
    assert ext[0] == '.' && forall k :: 0 < k < |ext| ==> ext[k] != '.';
    assert name[dot] == '.' && forall k :: dot < k < |name| ==> name[k] != '.' by {
      assert name[dot..] == ext;
      assert forall k :: dot <= k < |name| ==> name[k] == ext[k - dot];
    }
    assert RFind(name, '.') == dot;
    assert LastSep(name) == -1;
  }

  /** The path of the `.trans` file, for writing and for reading alike. */
  function TransFilePath(subdirectoryPath: string, parentDirectory: string): string {
    Join(subdirectoryPath, parentDirectory + "-" + Basename(subdirectoryPath) + ".trans")
  }

  /** For a sub-directory `inner` of `parent`, the file is `{parent}-{inner}.trans` inside it. */
  lemma TransFileName(directory: string, parent: string, inner: string)
    requires IsPlainName(inner)
    ensures TransFilePath(Join(Join(directory, parent), inner), parent)
         == Join(Join(Join(directory, parent), inner), parent + "-" + inner + ".trans")
  {
    BasenameOfJoin(Join(directory, parent), inner);
  }

  /** `os.path.exists` followed by reading the file. */
  function ReadTextFile(fs: map<string, string>, path: string): Option<string> {
    if path in fs then Some(fs[path]) else None
  }

  /**
   * The result for one sub-directory given the ground-truth file, if any: no
   * sample when the file is missing, otherwise one rate for the text against
   * the stripped file contents, or the division error.
   */
  function SubdirResult(aggregated: string, groundTruthFile: Option<string>): (r: Result<seq<real>>)
    ensures groundTruthFile.None? ==> r == Ok([])
    ensures groundTruthFile.Some? ==> (r.Err? <==> Strip(groundTruthFile.value) == [])
    ensures groundTruthFile.Some? && r.Ok? ==> |r.value| == 1 && r.value[0] >= 0.0
  {
    match groundTruthFile
    case None => Ok([])
    case Some(contents) =>
      match CalculateCer(aggregated, Strip(contents))
      case Ok(cer) => Ok([cer])
      case Err(e) => Err(e)
  }

  /** The result for a walk: the ground truth read back is the text just written. */
  function SubdirSamples(walk: seq<WalkStep>, transcribe: string -> string): Result<seq<real>> {
    var blob := Blob(walk, transcribe);
    SubdirResult(blob, Some(blob))
  }

  /** How many whitespace characters `strip` removes from `s`, per character it keeps. */
  function WhitespaceRatio(s: string): real
    requires Strip(s) != []
  {
    (|s| - |Strip(s)|) as real / |Strip(s)| as real
  }

  /**
   * Scoring a text against itself as read back fails exactly when nothing is
   * left after stripping; otherwise the one sample is the number of
   * whitespace characters `strip` removed over the length of what remains.
   */
  lemma SelfScore(blob: string)
    ensures SubdirResult(blob, Some(blob)).Err? <==> Strip(blob) == []
    ensures Strip(blob) != [] ==>
      SubdirResult(blob, Some(blob)) == Ok([WhitespaceRatio(blob)])
  {
    if Strip(blob) != [] {
      CerAgainstOwnStrip(blob);
    }
  }

  /** When the text ends in whitespace, as the written text does, that sample is above zero. */
  lemma SelfScorePositive(blob: string)
    requires |blob| > 0 && IsSpace(blob[|blob| - 1]) && Strip(blob) != []
    ensures WhitespaceRatio(blob) > 0.0
  {
    var kept := |Strip(blob)|;
    assert kept < |blob| by {
      StripShortens(blob);
    }
    RatioSign(|blob| - kept, kept);
  }

  /**
   * Since the ground truth is the written text itself, the sample measures
   * only the whitespace `strip` removes: it is that count over the length of
   * what remains, always above zero. The division fails when nothing is left
   * after stripping (by `StripEmptyIff`, when the text is all whitespace),
   * in particular when there are no audio files.
   */
  lemma SubdirSampleIsStripOverhead(walk: seq<WalkStep>, transcribe: string -> string)
    ensures AudioFiles(walk) == [] ==> SubdirSamples(walk, transcribe).Err?
    ensures SubdirSamples(walk, transcribe).Err? <==> Strip(Blob(walk, transcribe)) == []
    ensures var blob := Blob(walk, transcribe);
      SubdirSamples(walk, transcribe).Ok? ==>
        SubdirSamples(walk, transcribe).value == [WhitespaceRatio(blob)]
        && SubdirSamples(walk, transcribe).value[0] > 0.0
  {
    var blob := Blob(walk, transcribe);
    assert SubdirSamples(walk, transcribe) == SubdirResult(blob, Some(blob));
    SelfScore(blob);
    BlobShape(walk, transcribe);
    if Strip(blob) != [] {
      SelfScorePositive(blob);
    }
  }

  /**
   * The loops of `process_subdirectory` over `os.walk`: appends `"{id} {transcription}\n"` for every
   * audio file, in visiting order.
   */
  method AggregateTranscriptions(walk: seq<WalkStep>, transcribe: string -> string)
    returns (aggregated: string)
    ensures aggregated == Blob(walk, transcribe)
  {
    aggregated := "";
    var i := 0;
    while i < |walk|
      invariant 0 <= i <= |walk|
      invariant aggregated == Blob(walk[..i], transcribe)
    {
      var step := walk[i];
      ghost var done := Blob(walk[..i], transcribe);
      var j := 0;
      while j < |step.files|
        invariant 0 <= j <= |step.files|
        invariant aggregated == done + StepBlob(step.root, step.files[..j], transcribe)
      {
        var name := step.files[j];
        StepBlobNext(step.root, step.files, j, transcribe);
        if IsAudio(name) {
          var filePath := Join(step.root, name);
          var transcription := transcribe(filePath);
          var fileId := FileId(name);
          var line := fileId + " " + transcription + "\n";
          ConcatAssoc(done, StepBlob(step.root, step.files[..j], transcribe), line);
          aggregated := aggregated + line;
        }
        j := j + 1;
      }
      assert step.files[..j] == step.files;
      assert walk[..i + 1][..i] == walk[..i];
      i := i + 1;
    }
    assert walk[..i] == walk;
  }

  /**
   * Gathers the transcriptions, writes them, reads the ground truth back and
   * scores. Returns the samples (or the division error that aborts the run)
   * and the file system after the write.
   */
  method ProcessSubdirectory(subdirectoryPath: string, parentDirectory: string, walk: seq<WalkStep>,
                             transcribe: string -> string, fs: map<string, string>)
    returns (cerResults: Result<seq<real>>, fs': map<string, string>)
    ensures fs' == fs[TransFilePath(subdirectoryPath, parentDirectory) := Blob(walk, transcribe)]
    ensures cerResults == SubdirSamples(walk, transcribe)
  {
    var aggregated := AggregateTranscriptions(walk, transcribe);
    var subdirectoryName := Basename(subdirectoryPath);
    var outputPath := Join(subdirectoryPath, parentDirectory + "-" + subdirectoryName + ".trans");
    fs' := fs[outputPath := aggregated];
    var groundTruthPath := Join(subdirectoryPath, parentDirectory + "-" + subdirectoryName + ".trans");
    var groundTruthFile := ReadTextFile(fs', groundTruthPath);
    cerResults := SubdirResult(aggregated, groundTruthFile);
  }
}
