/**
  The background download job `download_video_thread`: it marks one record
  as downloading, runs the tool, writes the title and the progress into the
  record as the tool's lines arrive, and ends the record as completed or
  failed. Every change to the record is saved at once, so the sequence of
  saved versions is what the rest of the application can observe.
 */
module Worker {

  import opened Wrappers
  import opened Text
  import opened ToolOutput
  import opened DownloadCommands
  import opened Models
  import opened Store

  /** The worker's own quality map; it has no mp4/m4a preferences. */
  const WorkerQualityFormats: map<string, string> := map[
    "best" := "bestvideo+bestaudio/best",
    "1080p" := "bestvideo[height<=1080]+bestaudio/best[height<=1080]",
    "720p" := "bestvideo[height<=720]+bestaudio/best[height<=720]",
    "480p" := "bestvideo[height<=480]+bestaudio/best[height<=480]",
    "worst" := "worstvideo+worstaudio/worst"
  ]

  const ProcessFailedMessage := "Download process failed"

  /** `quality_formats.get(download.quality, quality_formats['best'])` */
  function WorkerFormatFor(quality: string): (r: string)
    ensures quality in WorkerQualityFormats ==> r == WorkerQualityFormats[quality]
    ensures quality !in WorkerQualityFormats ==> r == WorkerQualityFormats["best"]
  {
    if quality in WorkerQualityFormats then WorkerQualityFormats[quality] else WorkerQualityFormats["best"]
  }

  /** The command the worker runs for a record's url with the chosen format. */
  function WorkerCommand(python: string, formatString: string, outputDir: string, url: string): seq<string>
  {
    [python, "-m", "yt_dlp",
     "-f", formatString,
     "--merge-output-format", "mp4",
     "-o", OutputTemplate(outputDir),
     "--newline",
     "--progress",
     "--restrict-filenames",
     "--user-agent", ShortUserAgent,
     "--extractor-args", ExtractorArgs,
     "--no-check-certificate",
     url]
  }

  /** The worker's map has the same keys as the helper's and as the record's quality choices. */
  lemma WorkerQualityKeys()
    ensures WorkerQualityFormats.Keys == VideoQualityFormats.Keys
    ensures forall q :: q in WorkerQualityFormats <==> q in QualityChoices
  {
  }

  /**
    The worker's command selects the format with `-f`, the container with
    `--merge-output-format` and the output with `-o`, and ends with the url;
    unlike the helper's commands it does not pass `--no-playlist`.
   */
  lemma WorkerCommandShape(python: string, formatString: string, outputDir: string, url: string)
    ensures var cmd := WorkerCommand(python, formatString, outputDir, url);
      && FlagValue(cmd, "-f", formatString)
      && FlagValue(cmd, "--merge-output-format", "mp4")
      && FlagValue(cmd, "-o", OutputTemplate(outputDir))
      && Last(cmd) == url
      && (forall k :: 0 < k < |cmd| - 1 && k != 4 ==> cmd[k] != "--no-playlist")
  {
    var cmd := WorkerCommand(python, formatString, outputDir, url);
    assert |OutputTemplate(outputDir)| > |"--no-playlist"|;
    assert cmd[3] == "-f" && cmd[4] == formatString;
    assert cmd[5] == "--merge-output-format" && cmd[6] == "mp4";
    assert cmd[7] == "-o" && cmd[8] == OutputTemplate(outputDir);
  }

  /** The record, the title the loop has seen and the versions it saved. */
  datatype LoopResult = LoopResult(record: VideoDownload, currentTitle: string, saves: seq<VideoDownload>)

  function Saved(s: Option<VideoDownload>): seq<VideoDownload>
  {
    if s.Some? then [s.value] else []
  }

  /**
    One pass of the worker's line loop: a destination line sets the title and
    saves; a percentage line that parses sets the progress and saves; every
    other line, a malformed percentage included, does nothing.
   */
  function WorkerStep(d: VideoDownload, title: string, shape: LineShape): (r: (VideoDownload, string, Option<VideoDownload>))
    ensures r.2.Some? ==> r.2.value == r.0
    ensures r.2.None? ==> r.0 == d && r.1 == title
    ensures r.0 == d.(title := r.0.title, progress := r.0.progress)
    ensures shape.Destination? ==> r.2 == Some(d.(title := Stem(shape.dest))) && r.1 == Stem(shape.dest)
    ensures shape.Percent? && shape.percent.Some? ==> r.2 == Some(d.(progress := shape.percent.value)) && r.1 == title
    ensures !shape.Destination? && !(shape.Percent? && shape.percent.Some?) ==> r.2.None?
  {
    match shape
    case Destination(dest) =>
      var t := Stem(dest);
      var n := d.(title := t);
      (n, t, Some(n))
    case Percent(p) =>
      if p.Some? then
        var n := d.(progress := p.value);
        (n, title, Some(n))
      else (d, title, None)
    case _ => (d, title, None)
  }

  /** The worker's line loop over line shapes, from a record and a title. */
  function WorkerLoop(d: VideoDownload, title: string, shapes: seq<LineShape>): LoopResult
    decreases |shapes|
  {
    if shapes == [] then LoopResult(d, title, [])
    else
      var prev := WorkerLoop(d, title, shapes[..|shapes| - 1]);
      var next := WorkerStep(prev.record, prev.currentTitle, shapes[|shapes| - 1]);
      LoopResult(next.0, next.1, prev.saves + Saved(next.2))
  }

  /** One more shape is one more step of the loop. */
  lemma WorkerLoopSnoc(d: VideoDownload, title: string, shapes: seq<LineShape>, shape: LineShape)
    ensures WorkerLoop(d, title, shapes + [shape]) ==
      var prev := WorkerLoop(d, title, shapes);
      var next := WorkerStep(prev.record, prev.currentTitle, shape);
      LoopResult(next.0, next.1, prev.saves + Saved(next.2))
  {
    assert (shapes + [shape])[..|shapes|] == shapes;
  }

  /** The loop over the first `i + 1` shapes is one step after the loop over the first `i`. */
  lemma WorkerPrefixStep(d: VideoDownload, shapes: seq<LineShape>, i: nat, record: VideoDownload, title: string, saves: seq<VideoDownload>)
    requires i < |shapes| && WorkerLoop(d, "", shapes[..i]) == LoopResult(record, title, saves)
    ensures WorkerLoop(d, "", shapes[..i + 1]) ==
      var next := WorkerStep(record, title, shapes[i]);
      LoopResult(next.0, next.1, saves + Saved(next.2))
  {
    TakeOneMore(shapes, i);
    WorkerLoopSnoc(d, "", shapes[..i], shapes[i]);
  }

  /**
    The loop changes only the title and the progress; it saves the record
    each time it changes it, so the record it holds is always the last one
    saved, and every save is of the same record.
   */
  lemma {:induction false} LoopSavesEveryChange(d: VideoDownload, title: string, shapes: seq<LineShape>)
    ensures var r := WorkerLoop(d, title, shapes);
      && r.record == d.(title := r.record.title, progress := r.record.progress)
      && r.record == Last([d] + r.saves)
      && forall s :: s in r.saves ==> s == d.(title := s.title, progress := s.progress)
    decreases |shapes|
  {
    if shapes != [] {
      var init := shapes[..|shapes| - 1];
      assert shapes == init + [shapes[|shapes| - 1]];
      LoopSavesEveryChange(d, title, init);
    }
  }

  /** The last percentage that parsed, if any. */
  function LastPercent(shapes: seq<LineShape>): Option<int>
    decreases |shapes|
  {
    if shapes == [] then None
    else
      var s := shapes[|shapes| - 1];
      if s.Percent? && s.percent.Some? then s.percent else LastPercent(shapes[..|shapes| - 1])
  }

  /**
    After the loop, the title (both the record's and the loop's own) is the
    stem of the last destination line, and the progress is the last
    percentage that parsed; without such lines they are as they were.
   */
  lemma {:induction false} LoopEndsWithLastTitleAndPercent(d: VideoDownload, shapes: seq<LineShape>)
    ensures var r := WorkerLoop(d, "", shapes);
      && r.currentTitle == (match LastDestination(shapes) case None => "" case Some(k) => Stem(shapes[k].dest))
      && r.record.title == (match LastDestination(shapes) case None => d.title case Some(k) => Stem(shapes[k].dest))
      && r.record.progress == (match LastPercent(shapes) case None => d.progress case Some(p) => p)
    decreases |shapes|
  {
    if shapes != [] {
      var init := shapes[..|shapes| - 1];
      var shape := shapes[|shapes| - 1];
      assert shapes == init + [shape];
      LoopEndsWithLastTitleAndPercent(d, init);
      if !shape.Destination? {
        assert LastDestination(shapes) == LastDestination(init);
        match LastDestination(init)
        case None =>
        case Some(k) => assert shapes[k] == init[k];
      }
    }
  }

  /** A line that is neither a destination nor a parsable percentage changes nothing and saves nothing. */
  lemma IgnoredLineChangesNothing(d: VideoDownload, shapes: seq<LineShape>, shape: LineShape)
    requires !shape.Destination? && !(shape.Percent? && shape.percent.Some?)
    ensures WorkerLoop(d, "", shapes + [shape]) == WorkerLoop(d, "", shapes)
  {
    WorkerLoopSnoc(d, "", shapes, shape);
  }

  /** The last save, made once the process has ended or an exception has been caught. */
  function Finish(d: VideoDownload, title: string, run: ProcessRun, outputDir: string, listing: seq<DirEntry>, now: int): VideoDownload
  {
    match run
    case Raised(_, message) => d.(status := Failed, errorMessage := message)
    case Exited(_, exitCode) =>
      if exitCode == 0 then
        var matches := TitleMatches(listing, title);
        var path := if title != "" && matches != [] then JoinPath(outputDir, matches[0].name) else d.filePath;
        d.(filePath := path, status := Completed, progress := 100, completedAt := Some(now))
      else d.(status := Failed, errorMessage := ProcessFailedMessage)
  }

  /**
    The versions of the record the worker saves, in order, for a record that
    exists: downloading first, then one per title or progress change, then
    the final one.
   */
  function WorkerSaves(d: VideoDownload, run: ProcessRun, outputDir: string, listing: seq<DirEntry>, now: int): seq<VideoDownload>
  {
    var started := d.(status := Downloading);
    var loop := WorkerLoop(started, "", LineShapes(run.lines));
    [started] + loop.saves + [Finish(loop.record, loop.currentTitle, run, outputDir, listing, now)]
  }

  /** How far along the status path a status is. */
  function Rank(s: Status): nat
  {
    match s
    case Pending => 0
    case Downloading => 1
    case Completed => 2
    case Failed => 2
  }

  /** A status path that starts downloading, stays downloading and ends completed or failed only moves forward. */
  lemma PathMovesForward(r: seq<VideoDownload>)
    requires |r| >= 2 && r[0].status == Downloading
    requires forall k :: 0 < k < |r| - 1 ==> r[k].status == Downloading
    requires Last(r).status == Completed || Last(r).status == Failed
    ensures forall i, j :: 0 <= i < j < |r| ==> 1 <= Rank(r[i].status) <= Rank(r[j].status)
  {
    forall i, j | 0 <= i < j < |r| ensures 1 <= Rank(r[i].status) <= Rank(r[j].status) {
      assert Rank(r[i].status) == 1 || i == |r| - 1;
    }
  }

  /**
    The saved statuses go downloading, then downloading for every loop save,
    then completed or failed: they only move forward and never return to
    pending.
   */
  lemma StatusOnlyMovesForward(d: VideoDownload, run: ProcessRun, outputDir: string, listing: seq<DirEntry>, now: int)
    ensures var r := WorkerSaves(d, run, outputDir, listing, now);
      && |r| >= 2
      && r[0].status == Downloading
      && (forall k :: 0 < k < |r| - 1 ==> r[k].status == Downloading)
      && (Last(r).status == Completed || Last(r).status == Failed)
      && (forall i, j :: 0 <= i < j < |r| ==> 1 <= Rank(r[i].status) <= Rank(r[j].status))
  {
    var started := d.(status := Downloading);
    var loop := WorkerLoop(started, "", LineShapes(run.lines));
    LoopSavesEveryChange(started, "", LineShapes(run.lines));
    var r := WorkerSaves(d, run, outputDir, listing, now);
    forall k | 0 < k < |r| - 1 ensures r[k].status == Downloading {
      assert r[k] == loop.saves[k - 1];
      assert r[k] in loop.saves;
    }
    PathMovesForward(r);
  }

  /** `s` is a version of `d`: same id, url, owner, quality, format and creation time. */
  predicate SameIdentity(s: VideoDownload, d: VideoDownload)
  {
    s.id == d.id && s.url == d.url && s.sessionId == d.sessionId &&
    s.quality == d.quality && s.formatType == d.formatType && s.createdAt == d.createdAt
  }

  /** The final save changes only the outcome fields. */
  lemma FinishKeepsIdentity(d0: VideoDownload, d: VideoDownload, title: string, run: ProcessRun, outputDir: string, listing: seq<DirEntry>, now: int)
    requires SameIdentity(d, d0)
    ensures SameIdentity(Finish(d, title, run, outputDir, listing, now), d0)
  {
  }

  /** The loop saves versions of the record it starts from, and ends with one. */
  lemma LoopKeepsIdentity(d0: VideoDownload, d: VideoDownload, title: string, shapes: seq<LineShape>)
    requires SameIdentity(d, d0)
    ensures SameIdentity(WorkerLoop(d, title, shapes).record, d0)
    ensures forall s :: s in WorkerLoop(d, title, shapes).saves ==> SameIdentity(s, d0)
  {
    LoopSavesEveryChange(d, title, shapes);
  }

  /** A run of saves that are each versions of `d0`. */
  lemma ConcatKeepsIdentity(d0: VideoDownload, first: VideoDownload, middle: seq<VideoDownload>, last: VideoDownload)
    requires SameIdentity(first, d0) && SameIdentity(last, d0)
    requires forall s :: s in middle ==> SameIdentity(s, d0)
    ensures forall s :: s in [first] + middle + [last] ==> SameIdentity(s, d0)
  {
  }

  /** Every save is of the same record, with its url, owner, quality, format and creation time unchanged. */
  lemma SavesKeepIdentity(d: VideoDownload, run: ProcessRun, outputDir: string, listing: seq<DirEntry>, now: int)
    ensures forall s :: s in WorkerSaves(d, run, outputDir, listing, now) ==> SameIdentity(s, d)
  {
    var started := d.(status := Downloading);
    var loop := WorkerLoop(started, "", LineShapes(run.lines));
    LoopKeepsIdentity(d, started, "", LineShapes(run.lines));
    var last := Finish(loop.record, loop.currentTitle, run, outputDir, listing, now);
    FinishKeepsIdentity(d, loop.record, loop.currentTitle, run, outputDir, listing, now);
    ConcatKeepsIdentity(d, started, loop.saves, last);
  }

  /**
    The record ends completed exactly when the process exited with status 0;
    it then has progress 100 and the completion time, and its error message
    is untouched.
   */
  lemma CompletedIffExitZero(d: VideoDownload, run: ProcessRun, outputDir: string, listing: seq<DirEntry>, now: int)
    ensures var f := Last(WorkerSaves(d, run, outputDir, listing, now));
      && (f.status == Completed <==> run.Exited? && run.exitCode == 0)
      && (f.status == Completed ==> f.progress == 100 && f.completedAt == Some(now) && f.errorMessage == d.errorMessage)
  {
    LoopSavesEveryChange(d.(status := Downloading), "", LineShapes(run.lines));
  }

  /**
    A non-zero exit ends the record failed with "Download process failed"; an
    exception ends it failed with the exception's text. Neither touches the
    file path or the completion time.
   */
  lemma FailureMessages(d: VideoDownload, run: ProcessRun, outputDir: string, listing: seq<DirEntry>, now: int)
    ensures var f := Last(WorkerSaves(d, run, outputDir, listing, now));
      && (run.Exited? && run.exitCode != 0 ==> f.status == Failed && f.errorMessage == ProcessFailedMessage)
      && (run.Raised? ==> f.status == Failed && f.errorMessage == run.message)
      && (f.status == Failed ==> f.filePath == d.filePath && f.completedAt == d.completedAt)
  {
    LoopSavesEveryChange(d.(status := Downloading), "", LineShapes(run.lines));
  }

  /**
    On a zero exit the file path becomes the first `title.*` entry of the
    listing when the title from the last destination line is non-empty and
    some entry matches; otherwise it stays what it was, possibly empty.
   */
  lemma CompletedFilePath(d: VideoDownload, lines: seq<string>, outputDir: string, listing: seq<DirEntry>, now: int)
    ensures var shapes := LineShapes(lines);
      var title := match LastDestination(shapes) case None => "" case Some(k) => Stem(shapes[k].dest);
      var f := Last(WorkerSaves(d, Exited(lines, 0), outputDir, listing, now));
      && f.filePath == (if title != "" && TitleMatches(listing, title) != []
                        then JoinPath(outputDir, TitleMatches(listing, title)[0].name) else d.filePath)
      && f.title == (if LastDestination(shapes).Some? then title else d.title)
  {
    var started := d.(status := Downloading);
    LoopSavesEveryChange(started, "", LineShapes(lines));
    LoopEndsWithLastTitleAndPercent(started, LineShapes(lines));
  }

  /**
    A run whose output names no destination completes with the record's
    earlier file path, so a new record ends completed with an empty path.
   */
  lemma CompletedWithoutFile(d: VideoDownload, outputDir: string, listing: seq<DirEntry>, now: int)
    requires d.filePath == ""
    ensures var f := Last(WorkerSaves(d, Exited([], 0), outputDir, listing, now));
      f.status == Completed && f.filePath == ""
  {
    assert LineShapes([]) == [];
  }

  /**
    The body of the line loop for one line's shape: the record is updated as
    `WorkerStep` says and saved when it changes.
   */
  method ApplyLine(table: DownloadTable, ghost rows0: seq<VideoDownload>, download: VideoDownload, currentTitle: string, shape: LineShape)
    returns (next: VideoDownload, title: string, saved: Option<VideoDownload>)
    requires table.Valid() && table.rows == Put(rows0, download)
    modifies table
    ensures (next, title, saved) == WorkerStep(download, currentTitle, shape)
    ensures table.Valid() && table.rows == Put(rows0, next) && table.nextId == old(table.nextId)
  {
    next, title, saved := download, currentTitle, None;
    if shape.Destination? {
      title := Stem(shape.dest);
      next := download.(title := title);
      table.Save(next);
      PutTwice(rows0, download, next);
      saved := Some(next);
    } else if shape.Percent? && shape.percent.Some? {
      next := download.(progress := shape.percent.value);
      table.Save(next);
      PutTwice(rows0, download, next);
      saved := Some(next);
    }
  }

  /**
    What follows the loop: on an exception the record is read again and saved
    failed with the exception's text; otherwise it is saved completed, with
    the first `title.*` entry as its file when there is one, or failed.
   */
  method FinishRun(table: DownloadTable, ghost rows0: seq<VideoDownload>, download: VideoDownload, currentTitle: string,
                   run: ProcessRun, outputDir: string, listing: seq<DirEntry>, now: int)
    returns (final: VideoDownload)
    requires table.Valid() && IdsDistinct(rows0) && table.rows == Put(rows0, download)
    modifies table
    ensures final == Finish(download, currentTitle, run, outputDir, listing, now)
    ensures table.Valid() && table.rows == Put(rows0, final) && table.nextId == old(table.nextId)
  {
    var record := download;
    if run.Raised? {
      LookupAfterPut(rows0, download, download.id);
      var again := Lookup(table.rows, download.id);
      final := again.value.(status := Failed, errorMessage := run.message);
    } else if run.exitCode == 0 {
      if currentTitle != "" {
        var possibleFiles := TitleMatches(listing, currentTitle);
        if possibleFiles != [] {
          record := record.(filePath := JoinPath(outputDir, possibleFiles[0].name));
        }
      }
      final := record.(status := Completed, progress := 100, completedAt := Some(now));
    } else {
      final := record.(status := Failed, errorMessage := ProcessFailedMessage);
    }
    table.Save(final);
    PutTwice(rows0, download, final);
  }

  /** The line loop: every line's shape is applied in turn to the record, which is saved at each change. */
  method RunLines(table: DownloadTable, ghost rows0: seq<VideoDownload>, started: VideoDownload, lines: seq<string>)
    returns (download: VideoDownload, currentTitle: string, loopSaves: seq<VideoDownload>)
    requires table.Valid() && table.rows == Put(rows0, started)
    modifies table
    ensures WorkerLoop(started, "", LineShapes(lines)) == LoopResult(download, currentTitle, loopSaves)
    ensures table.Valid() && table.rows == Put(rows0, download) && table.nextId == old(table.nextId)
  {
    ghost var shapes := LineShapes(lines);
    download, currentTitle, loopSaves := started, "", [];
    for i := 0 to |lines|
      invariant WorkerLoop(started, "", shapes[..i]) == LoopResult(download, currentTitle, loopSaves)
      invariant table.Valid() && table.rows == Put(rows0, download) && table.nextId == old(table.nextId)
    {
      var shape := Shape(Strip(lines[i]));
      LineShapeAt(lines, i);
      WorkerPrefixStep(started, shapes, i, download, currentTitle, loopSaves);
      var saved;
      download, currentTitle, saved := ApplyLine(table, rows0, download, currentTitle, shape);
      loopSaves := loopSaves + Saved(saved);
    }
    assert shapes[..|lines|] == shapes;
  }

  /**
    `download_video_thread`: the record with the id is read; when there is
    none nothing happens. Otherwise it is saved as downloading, the command
    is built, the run's lines update and save it, and the final version is
    saved.
   */
  method DownloadVideoThread(table: DownloadTable, downloadId: nat, python: string, outputDir: string,
                             run: ProcessRun, listing: seq<DirEntry>, now: int)
    returns (cmd: Option<seq<string>>, saves: seq<VideoDownload>)
    requires table.Valid()
    modifies table
    ensures table.Valid() && table.nextId == old(table.nextId)
    ensures Lookup(old(table.rows), downloadId).None? ==> cmd == None && saves == [] && table.rows == old(table.rows)
    ensures Lookup(old(table.rows), downloadId).Some? ==>
      var d := Lookup(old(table.rows), downloadId).value;
      && cmd == Some(WorkerCommand(python, WorkerFormatFor(d.quality), outputDir, d.url))
      && saves == WorkerSaves(d, run, outputDir, listing, now)
      && table.rows == Put(old(table.rows), Last(saves))
  {
    var found := Lookup(table.rows, downloadId);
    if found.None? {
      return None, [];
    }
    ghost var rows0 := table.rows;
    var started := found.value.(status := Downloading);
    assert found.value in table.rows;
    table.Save(started);
    cmd := Some(WorkerCommand(python, WorkerFormatFor(started.quality), outputDir, started.url));
    var download, currentTitle, loopSaves := RunLines(table, rows0, started, run.lines);
    var final := FinishRun(table, rows0, download, currentTitle, run, outputDir, listing, now);
    saves := [started] + loopSaves + [final];
    WorkerSavesOfRun(found.value, run, outputDir, listing, now, download, currentTitle, loopSaves);
  }

  /** The saves of a run, given the loop's outcome. */
  lemma WorkerSavesOfRun(d: VideoDownload, run: ProcessRun, outputDir: string, listing: seq<DirEntry>, now: int,
                         record: VideoDownload, title: string, loopSaves: seq<VideoDownload>)
    requires WorkerLoop(d.(status := Downloading), "", LineShapes(run.lines)) == LoopResult(record, title, loopSaves)
    ensures var last := Finish(record, title, run, outputDir, listing, now);
      && WorkerSaves(d, run, outputDir, listing, now) == [d.(status := Downloading)] + loopSaves + [last]
      && Last(WorkerSaves(d, run, outputDir, listing, now)) == last
  {
  }
}
