/**
 * The driver: for every directory of the corpus root, process each of its
 * sub-directories, pool their samples and record the directory with the
 * mean of its samples when it has any.
 *
 * `os.listdir` and `os.path.isdir` are inputs: each listing entry carries its
 * name, whether it is a directory and, if so, its own listing.
 */
module Corpus {
  import opened Wrappers
  import opened Text
  import opened Subdirectory

  /** An entry of a directory's listing: a sub-directory with its walk, or a plain file. */
  datatype InnerEntry = InnerEntry(name: string, isDir: bool, walk: seq<WalkStep>)

  /** An entry of the corpus root's listing. */
  datatype OuterEntry = OuterEntry(name: string, isDir: bool, inner: seq<InnerEntry>)

  /** A line of the summary: a directory and its average rate. */
  datatype Row = Row(directory: string, averageCer: real)

  function Sum(xs: seq<real>): real {
    if |xs| == 0 then 0.0 else Sum(xs[..|xs| - 1]) + xs[|xs| - 1]
  }

  /** `sum(xs) / len(xs)`. */
  function Mean(xs: seq<real>): real
    requires |xs| > 0
  {
    Sum(xs) / |xs| as real
  }

  function SeqMin(xs: seq<real>): (m: real)
    requires |xs| > 0
    ensures m in xs && forall k :: 0 <= k < |xs| ==> m <= xs[k]
  {
    if |xs| == 1 then xs[0]
    else
      var m := SeqMin(xs[..|xs| - 1]);
      if xs[|xs| - 1] < m then xs[|xs| - 1] else m
  }

  function SeqMax(xs: seq<real>): (m: real)
    requires |xs| > 0
    ensures m in xs && forall k :: 0 <= k < |xs| ==> xs[k] <= m
  {
    if |xs| == 1 then xs[0]
    else
      var m := SeqMax(xs[..|xs| - 1]);
      if m < xs[|xs| - 1] then xs[|xs| - 1] else m
  }

  lemma {:induction false} SumBounds(xs: seq<real>, lo: real, hi: real)
    requires forall k :: 0 <= k < |xs| ==> lo <= xs[k] <= hi
    ensures lo * |xs| as real <= Sum(xs) <= hi * |xs| as real
  {
    if |xs| > 0 {
      SumBounds(xs[..|xs| - 1], lo, hi);
    }
  }

  /** A bound that holds for every sample holds for the mean. */
  lemma MeanBounds(xs: seq<real>, lo: real, hi: real)
    requires |xs| > 0 && forall k :: 0 <= k < |xs| ==> lo <= xs[k] <= hi
    ensures lo <= Mean(xs) <= hi
  {
    SumBounds(xs, lo, hi);
    QuotientBounds(Sum(xs), |xs| as real, lo, hi);
  }

  /** The mean lies between the smallest and the largest sample. */
  lemma MeanBetween(xs: seq<real>)
    requires |xs| > 0
    ensures SeqMin(xs) <= Mean(xs) <= SeqMax(xs)
  {
    MeanBounds(xs, SeqMin(xs), SeqMax(xs));
  }

  lemma QuotientBounds(s: real, n: real, lo: real, hi: real)
    requires n > 0.0 && lo * n <= s <= hi * n
    ensures lo <= s / n <= hi
  {
    var q := s / n;
    assert q * n == s;
    assert (q - lo) * n >= 0.0;
    assert (hi - q) * n >= 0.0;
  }

  lemma MeanExample()
    ensures Mean([0.1, 0.3]) == 0.2
  {
    assert [0.1, 0.3][..1] == [0.1];
    assert [0.1][..0] == [];
  }

  /** The samples pooled over a directory's listing, or the error that stopped the run. */
  function DirectorySamples(inner: seq<InnerEntry>, transcribe: string -> string): Result<seq<real>> {
    if |inner| == 0 then Ok([])
    else
      var e := inner[|inner| - 1];
      match DirectorySamples(inner[..|inner| - 1], transcribe)
      case Err(err) => Err(err)
      case Ok(xs) =>
        if !e.isDir then Ok(xs)
        else
          match SubdirSamples(e.walk, transcribe)
          case Err(err) => Err(err)
          case Ok(ys) => Ok(xs + ys)
  }

  /** The summary rows for the corpus root's listing, or the error that stopped the run. */
  function CorpusRows(listing: seq<OuterEntry>, transcribe: string -> string): Result<seq<Row>> {
    if |listing| == 0 then Ok([])
    else
      var d := listing[|listing| - 1];
      match CorpusRows(listing[..|listing| - 1], transcribe)
      case Err(err) => Err(err)
      case Ok(rows) =>
        if !d.isDir then Ok(rows)
        else
          match DirectorySamples(d.inner, transcribe)
          case Err(err) => Err(err)
          case Ok(xs) => if |xs| > 0 then Ok(rows + [Row(d.name, Mean(xs))]) else Ok(rows)
  }

  /** An error in the first entries stops the whole directory. */
  lemma {:induction false} DirectorySamplesErrPersists(inner: seq<InnerEntry>, k: nat, transcribe: string -> string)
    requires k <= |inner| && DirectorySamples(inner[..k], transcribe).Err?
    ensures DirectorySamples(inner, transcribe).Err?
    decreases |inner| - k
  {
    if k < |inner| {
      assert inner[..k + 1][..k] == inner[..k];
      DirectorySamplesErrPersists(inner, k + 1, transcribe);
    } else {
      assert inner[..k] == inner;
    }
  }

  /** An error in the first entries stops the whole run. */
  lemma {:induction false} CorpusRowsErrPersists(listing: seq<OuterEntry>, k: nat, transcribe: string -> string)
    requires k <= |listing| && CorpusRows(listing[..k], transcribe).Err?
    ensures CorpusRows(listing, transcribe).Err?
    decreases |listing| - k
  {
    if k < |listing| {
      assert listing[..k + 1][..k] == listing[..k];
      CorpusRowsErrPersists(listing, k + 1, transcribe);
    } else {
      assert listing[..k] == listing;
    }
  }

  /** How many entries of a listing are directories. */
  function CountDirs(inner: seq<InnerEntry>): nat {
    if |inner| == 0 then 0
    else CountDirs(inner[..|inner| - 1]) + (if inner[|inner| - 1].isDir then 1 else 0)
  }

  /**
   * Because the ground-truth file is always found, every sub-directory
   * contributes exactly one sample, and every sample is above zero.
   */
  lemma {:induction false} DirectorySamplesShape(inner: seq<InnerEntry>, transcribe: string -> string)
    requires DirectorySamples(inner, transcribe).Ok?
    ensures |DirectorySamples(inner, transcribe).value| == CountDirs(inner)
    ensures forall k :: 0 <= k < CountDirs(inner) ==> DirectorySamples(inner, transcribe).value[k] > 0.0
  {
    if |inner| > 0 {
      var e := inner[|inner| - 1];
      DirectorySamplesShape(inner[..|inner| - 1], transcribe);
      if e.isDir {
        SubdirSampleIsStripOverhead(e.walk, transcribe);
      }
    }
  }


  /** Entry `d` is a directory with at least one sample, so it gets a row. */
  predicate HasRow(d: OuterEntry, transcribe: string -> string) {
    d.isDir && DirectorySamples(d.inner, transcribe).Ok? && |DirectorySamples(d.inner, transcribe).value| > 0
  }

  /** Row `row` is the one recorded for entry `d`. */
  predicate RowOf(d: OuterEntry, row: Row, transcribe: string -> string) {
    HasRow(d, transcribe) && row == Row(d.name, Mean(DirectorySamples(d.inner, transcribe).value))
  }

  /** How many entries of the corpus root get a row. */
  function CountRowDirs(listing: seq<OuterEntry>, transcribe: string -> string): nat {
    if |listing| == 0 then 0
    else CountRowDirs(listing[..|listing| - 1], transcribe) + (if HasRow(listing[|listing| - 1], transcribe) then 1 else 0)
  }

  /** Row `k` is the one of the entry with exactly `k` entries with rows before it. */
  predicate RowFromEntry(listing: seq<OuterEntry>, rows: seq<Row>, k: nat, transcribe: string -> string)
    requires k < |rows|
  {
    exists j :: 0 <= j < |listing| && CountRowDirs(listing[..j], transcribe) == k && RowOf(listing[j], rows[k], transcribe)
  }

  /** Every row comes from its entry, in listing order. */
  predicate RowsInOrder(listing: seq<OuterEntry>, rows: seq<Row>, transcribe: string -> string) {
    forall k :: 0 <= k < |rows| ==> RowFromEntry(listing, rows, k, transcribe)
  }

  /**
   * There is one row per directory with at least one sample, in listing
   * order: row `k` is the mean of the entry with exactly `k` such entries
   * before it.
   */
  lemma {:induction false} CorpusRowsSound(listing: seq<OuterEntry>, transcribe: string -> string)
    requires CorpusRows(listing, transcribe).Ok?
    ensures |CorpusRows(listing, transcribe).value| == CountRowDirs(listing, transcribe)
    ensures RowsInOrder(listing, CorpusRows(listing, transcribe).value, transcribe)
  {
    if |listing| > 0 {
      var n := |listing| - 1;
      var prefix := listing[..n];
      CorpusRowsSound(prefix, transcribe);
      var rows0 := CorpusRows(prefix, transcribe).value;
      var rows := CorpusRows(listing, transcribe).value;
      var d := listing[n];
      var added := if HasRow(d, transcribe) then [Row(d.name, Mean(DirectorySamples(d.inner, transcribe).value))] else [];
      assert rows == rows0 + added;
      assert |rows| == CountRowDirs(listing, transcribe) by {
        assert |rows| == |rows0| + |added|;
      }
      assert rows[..|rows0|] == rows0;
      forall k | 0 <= k < |rows|
        ensures RowFromEntry(listing, rows, k, transcribe)
      {
        if k < |rows0| {
          assert RowFromEntry(prefix, rows0, k, transcribe);
          var j :| 0 <= j < n && CountRowDirs(prefix[..j], transcribe) == k && RowOf(prefix[j], rows0[k], transcribe);
          assert listing[..j] == prefix[..j];
          assert listing[j] == prefix[j];
        } else {
          assert listing[..n] == prefix;
          assert RowOf(listing[n], rows[k], transcribe);
        }
      }
    }
  }

  /**
   * Every directory is processed without error, and each one with at least
   * one sample has its row.
   */
  lemma {:induction false} CorpusRowsComplete(listing: seq<OuterEntry>, transcribe: string -> string)
    requires CorpusRows(listing, transcribe).Ok?
    ensures forall j :: 0 <= j < |listing| && listing[j].isDir ==> DirectorySamples(listing[j].inner, transcribe).Ok?
    ensures forall j :: 0 <= j < |listing| && listing[j].isDir && |DirectorySamples(listing[j].inner, transcribe).value| > 0 ==>
      exists k :: 0 <= k < |CorpusRows(listing, transcribe).value| && RowOf(listing[j], CorpusRows(listing, transcribe).value[k], transcribe)
  {
    if |listing| > 0 {
      var n := |listing| - 1;
      var prefix := listing[..n];
      CorpusRowsComplete(prefix, transcribe);
      var rows0 := CorpusRows(prefix, transcribe).value;
      var rows := CorpusRows(listing, transcribe).value;
      assert rows[..|rows0|] == rows0;
      forall j | 0 <= j < |listing| && listing[j].isDir
        ensures DirectorySamples(listing[j].inner, transcribe).Ok?
      {
        if j < n { assert listing[j] == prefix[j]; }
      }
      forall j | 0 <= j < |listing| && listing[j].isDir && |DirectorySamples(listing[j].inner, transcribe).value| > 0
        ensures exists k :: 0 <= k < |rows| && RowOf(listing[j], rows[k], transcribe)
      {
        if j < n {
          assert listing[j] == prefix[j];
          var k :| 0 <= k < |rows0| && RowOf(prefix[j], rows0[k], transcribe);
          assert rows[k] == rows0[k];
        } else {
          assert RowOf(listing[j], rows[|rows| - 1], transcribe);
        }
      }
    }
  }

  /** Every recorded average lies between the directory's smallest and largest sample, and is above zero. */
  lemma RowAverageBounds(d: OuterEntry, row: Row, transcribe: string -> string)
    requires RowOf(d, row, transcribe)
    ensures var xs := DirectorySamples(d.inner, transcribe).value;
      SeqMin(xs) <= row.averageCer <= SeqMax(xs) && row.averageCer > 0.0
  {
    var xs := DirectorySamples(d.inner, transcribe).value;
    MeanBetween(xs);
    DirectorySamplesShape(d.inner, transcribe);
  }

  /**
   * The inner loop of the script's main block: process every sub-directory of one directory in listing
   * order and pool their samples; the first division error aborts.
   */
  method PoolDirectory(subdirectoryPath: string, subdirectory: string, inner: seq<InnerEntry>,
                       transcribe: string -> string, fs: map<string, string>)
    returns (directoryCerResults: Result<seq<real>>, fs': map<string, string>)
    ensures directoryCerResults == DirectorySamples(inner, transcribe)
  {
    fs' := fs;
    var pooled: seq<real> := [];
    var j := 0;
    while j < |inner|
      invariant 0 <= j <= |inner|
      invariant DirectorySamples(inner[..j], transcribe) == Ok(pooled)
    {
      var e := inner[j];
      assert inner[..j + 1][..j] == inner[..j];
      if e.isDir {
        var innerSubdirectoryPath := Join(subdirectoryPath, e.name);
        var cerResults;
        cerResults, fs' := ProcessSubdirectory(innerSubdirectoryPath, subdirectory, e.walk, transcribe, fs');
        if cerResults.Err? {
          DirectorySamplesErrPersists(inner, j + 1, transcribe);
          return Err(cerResults.error), fs';
        }
        pooled := pooled + cerResults.value;
      }
      j := j + 1;
    }
    assert inner[..j] == inner;
    directoryCerResults := Ok(pooled);
  }

  /**
   * The whole run over the corpus root `directory`: the summary rows, or the
   * division error that aborts it. `fs` is the file system at the start.
   */
  method Evaluate(directory: string, listing: seq<OuterEntry>, transcribe: string -> string,
                  fs: map<string, string>)
    returns (allCerResults: Result<seq<Row>>)
    ensures allCerResults == CorpusRows(listing, transcribe)
  {
    var files := fs;
    var rows: seq<Row> := [];
    var i := 0;
    while i < |listing|
      invariant 0 <= i <= |listing|
      invariant CorpusRows(listing[..i], transcribe) == Ok(rows)
    {
      var d := listing[i];
      assert listing[..i + 1][..i] == listing[..i];
      var subdirectoryPath := Join(directory, d.name);
      if d.isDir {
        var directoryCerResults;
        directoryCerResults, files := PoolDirectory(subdirectoryPath, d.name, d.inner, transcribe, files);
        if directoryCerResults.Err? {
          CorpusRowsErrPersists(listing, i + 1, transcribe);
          return Err(directoryCerResults.error);
        }
        var samples := directoryCerResults.value;
        if |samples| > 0 {
          var averageCer := Sum(samples) / |samples| as real;
          rows := rows + [Row(d.name, averageCer)];
        }
      }
      i := i + 1;
    }
    assert listing[..i] == listing;
    allCerResults := Ok(rows);
  }
}
