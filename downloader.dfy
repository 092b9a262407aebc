/**
  `YouTubeDownloader._execute_download` and the two download entry points:
  the left fold of the progress parser over the tool's output lines, the
  progress callbacks it makes, the three-tier search for the downloaded file
  and the `(success, message, path)` result.
 */
module Downloader {

  import opened Wrappers
  import opened Text
  import opened ToolOutput
  import opened Numerals
  import opened DownloadCommands

  /** One call `progress_callback(int(percent), current_title)`. */
  datatype ProgressEvent = ProgressEvent(percent: int, title: string)

  /** The parser's whole state: `current_file` and `current_title`. */
  datatype ParserState = ParserState(currentFile: Option<string>, currentTitle: string)

  const Initial := ParserState(None, "")

  /** The parser's state after some lines, with the callbacks those lines made, in order. */
  datatype ScanResult = ScanResult(state: ParserState, events: seq<ProgressEvent>)

  /** The `(success, message, file_path)` triple. */
  datatype DownloadResult = DownloadResult(success: bool, message: string, filePath: Option<string>)

  const CompletedMessage := "Download completed successfully"
  const NotFoundMessage := "Download completed but file not found"
  const FailedMessage := "Download failed"
  const ErrorPrefix := "Download error: "

  function Emitted(ev: Option<ProgressEvent>): seq<ProgressEvent>
  {
    if ev.Some? then [ev.value] else []
  }

  /**
    One pass of the loop body over a line of the given shape: the new state
    and the callback it makes. Only a destination line changes the title; a
    percentage line changes no state; a malformed or unrecognised line
    changes nothing at all.
   */
  function Step(st: ParserState, shape: LineShape): (r: (ParserState, Option<ProgressEvent>))
    ensures r.0.currentTitle != st.currentTitle ==> shape.Destination?
    ensures r.1.Some? ==> r.0 == st && shape.Percent?
    ensures shape.Unrecognised? || shape == Percent(None) ==> r == (st, None)
  {
    match shape
    case Destination(dest) => (ParserState(Some(dest), Stem(dest)), None)
    case Percent(p) => (st, if p.Some? then Some(ProgressEvent(p.value, st.currentTitle)) else None)
    case Merger(merged) => (if merged.Some? && merged.value != "" then st.(currentFile := merged) else st, None)
    case ExtractAudio(dest) => (st.(currentFile := Some(dest)), None)
    case Unrecognised => (st, None)
  }

  /** The fold of `Step` over line shapes from state `st`. */
  function ScanFrom(st: ParserState, shapes: seq<LineShape>): ScanResult
    decreases |shapes|
  {
    if shapes == [] then ScanResult(st, [])
    else
      var prev := ScanFrom(st, shapes[..|shapes| - 1]);
      var next := Step(prev.state, shapes[|shapes| - 1]);
      ScanResult(next.0, prev.events + Emitted(next.1))
  }

  /** The parser over the output lines of a run, from its initial state. */
  function Scan(lines: seq<string>): ScanResult
  {
    ScanFrom(Initial, LineShapes(lines))
  }

  /** Appending one shape to an input appends one step to its fold. */
  lemma ScanSnoc(st: ParserState, shapes: seq<LineShape>, shape: LineShape)
    ensures ScanFrom(st, shapes + [shape]) ==
      var prev := ScanFrom(st, shapes);
      var next := Step(prev.state, shape);
      ScanResult(next.0, prev.events + Emitted(next.1))
  {
    assert (shapes + [shape])[..|shapes|] == shapes;
  }

  /** Reading one more line is one more step of the parser. */
  lemma ScanLine(lines: seq<string>, line: string)
    ensures Scan(lines + [line]) ==
      var prev := Scan(lines);
      var next := Step(prev.state, Shape(Strip(line)));
      ScanResult(next.0, prev.events + Emitted(next.1))
  {
    LineShapesSnoc(lines, line);
    ScanSnoc(Initial, LineShapes(lines), Shape(Strip(line)));
  }

  /**
    The parser is a left fold: scanning two blocks of lines one after the
    other is scanning the first and carrying its state into the second, the
    callbacks of the second following those of the first.
   */
  lemma {:induction false} ScanAppend(st: ParserState, a: seq<LineShape>, b: seq<LineShape>)
    ensures ScanFrom(st, a + b).state == ScanFrom(ScanFrom(st, a).state, b).state
    ensures ScanFrom(st, a + b).events == ScanFrom(st, a).events + ScanFrom(ScanFrom(st, a).state, b).events
    decreases |b|
  {
    if b == [] {
      assert a + b == a;
    } else {
      var b' := b[..|b| - 1];
      var shape := b[|b| - 1];
      assert a + b == (a + b') + [shape];
      assert b == b' + [shape];
      ScanAppend(st, a, b');
      ScanSnoc(st, a + b', shape);
      ScanSnoc(ScanFrom(st, a).state, b', shape);
    }
  }

  /** An unrecognised line leaves the state and the callbacks exactly as they were. */
  lemma UnrecognisedLineChangesNothing(lines: seq<string>, line: string)
    requires Shape(Strip(line)).Unrecognised?
    ensures Scan(lines + [line]) == Scan(lines)
  {
    ScanLine(lines, line);
  }

  /**
    A `[download]` line with a `%` whose token does not parse (nothing before
    the `%`, or not a numeral) makes no callback and changes no state.
   */
  lemma MalformedPercentChangesNothing(lines: seq<string>, line: string)
    requires Shape(Strip(line)) == Percent(None)
    ensures Scan(lines + [line]) == Scan(lines)
  {
    ScanLine(lines, line);
  }

  /** A percentage line that parses makes exactly one callback, with the current title, and changes no state. */
  lemma PercentLineEmitsOnce(lines: seq<string>, line: string, percent: int)
    requires Shape(Strip(line)) == Percent(Some(percent))
    ensures Scan(lines + [line]).state == Scan(lines).state
    ensures Scan(lines + [line]).events == Scan(lines).events + [ProgressEvent(percent, Scan(lines).state.currentTitle)]
  {
    ScanLine(lines, line);
  }

  /** A destination line sets the file to the destination and the title to its stem, without a callback. */
  lemma DestinationLineSetsFileAndTitle(lines: seq<string>, line: string, dest: string)
    requires Shape(Strip(line)) == Destination(dest)
    ensures Scan(lines + [line]).state == ParserState(Some(dest), Stem(dest))
    ensures Scan(lines + [line]).events == Scan(lines).events
  {
    ScanLine(lines, line);
  }

  /** `[download] Destination: foo bar.mp4` records the file `foo bar.mp4` and the title `foo bar`. */
  lemma DestinationLineExample(lines: seq<string>)
    ensures Scan(lines + ["[download] Destination: foo bar.mp4"]).state == ParserState(Some("foo bar.mp4"), "foo bar")
    ensures Scan(lines + ["[download] Destination: foo bar.mp4"]).events == Scan(lines).events
  {
    DestinationExampleShape();
    StemExample();
    DestinationLineSetsFileAndTitle(lines, "[download] Destination: foo bar.mp4", "foo bar.mp4");
  }

  /** The example destination line reads as the destination `foo bar.mp4`. */
  lemma DestinationExampleShape()
    ensures Shape(Strip("[download] Destination: foo bar.mp4")) == Destination("foo bar.mp4")
  {
    var a, c := "[download] ", " foo bar.mp4";
    ExampleSplices(a, c);
    UnpaddedExample(a + DestinationMarker + c);
    TagExample(a);
    NoMarkerExample(c);
    PaddedNameExample(c);
    DestinationLineShape(a, c);
  }

  lemma ExampleSplices(a: string, c: string)
    requires a == "[download] " && c == " foo bar.mp4"
    ensures a + DestinationMarker + c == "[download] Destination: foo bar.mp4"
  {
  }

  lemma UnpaddedExample(line: string)
    requires line == "[download] Destination: foo bar.mp4"
    ensures Strip(line) == line
  {
    StripUnpadded(line);
  }

  lemma TagExample(a: string)
    requires a == "[download] "
    ensures Contains(a, DownloadTag) && 'D' !in a
  {
    assert OccursAt(a, DownloadTag, 0);
  }

  lemma NoMarkerExample(c: string)
    requires c == " foo bar.mp4"
    ensures !Contains(c, DestinationMarker)
  {
    NoLeadNoOccurrence(c, DestinationMarker, 0);
  }

  lemma PaddedNameExample(c: string)
    requires c == " foo bar.mp4"
    ensures Strip(c) == "foo bar.mp4"
  {
    assert c[1..] == "foo bar.mp4";
    StripUnpadded("foo bar.mp4");
  }

  /** `Path("foo bar.mp4").stem` is `foo bar`. */
  lemma StemExample()
    ensures Stem("foo bar.mp4") == "foo bar"
  {
    assert "foo bar" + "." + "mp4" == "foo bar.mp4";
    StemOfDotted("foo bar", "mp4");
  }

  /** `[download]  42.0% of 10MiB` makes one callback with 42 and changes no state. */
  lemma PercentLineExample(lines: seq<string>)
    ensures Scan(lines + ["[download]  42.0% of 10MiB"]).state == Scan(lines).state
    ensures Scan(lines + ["[download]  42.0% of 10MiB"]).events ==
      Scan(lines).events + [ProgressEvent(42, Scan(lines).state.currentTitle)]
  {
    PercentExampleShape();
    PercentLineEmitsOnce(lines, "[download]  42.0% of 10MiB", 42);
  }

  /** The example percentage line reads as the percentage 42. */
  lemma PercentExampleShape()
    ensures Shape(Strip("[download]  42.0% of 10MiB")) == Percent(Some(42))
  {
    var tag, token, after := "[download] ", "42.0", " of 10MiB";
    PercentExampleSplices(tag, token, after);
    PercentUnpaddedExample(tag + " " + token + "%" + after);
    TagExample(tag);
    ContainsInPrefix(tag, " " + token, DownloadTag);
    TokenExample(token);
    PercentTokenLine(tag, token, after);
  }

  lemma PercentExampleSplices(tag: string, token: string, after: string)
    requires tag == "[download] " && token == "42.0" && after == " of 10MiB"
    ensures tag + " " + token == "[download]  42.0"
    ensures tag + " " + token == tag + (" " + token)
    ensures 'D' !in tag + " " + token && '%' !in tag + " " + token && 'D' !in after
    ensures tag + " " + token + "%" + after == "[download]  42.0% of 10MiB"
  {
  }

  lemma PercentUnpaddedExample(line: string)
    requires line == "[download]  42.0% of 10MiB"
    ensures Strip(line) == line
  {
    StripUnpadded(line);
  }

  /** `42.0` is one word and `int(float("42.0"))` is 42. */
  lemma TokenExample(token: string)
    requires token == "42.0"
    ensures token != "" && NoSpace(token)
    ensures TruncatedDecimal(token) == Some(42)
  {
    assert NatToString(42) == "42";
    assert token == NatToString(42) + "." + "0";
    TruncatedDecimalOfRendered(42, "0");
  }

  /** `[download]  oops% done` makes no callback and changes no state. */
  lemma MalformedPercentExample(lines: seq<string>)
    ensures Scan(lines + ["[download]  oops% done"]) == Scan(lines)
  {
    MalformedExampleShape();
    MalformedPercentChangesNothing(lines, "[download]  oops% done");
  }

  /** The example line reads as a percentage that does not parse. */
  lemma MalformedExampleShape()
    ensures Shape(Strip("[download]  oops% done")) == Percent(None)
  {
    var tag, token, after := "[download] ", "oops", " done";
    MalformedExampleSplices(tag, token, after);
    MalformedUnpaddedExample(tag + " " + token + "%" + after);
    TagExample(tag);
    ContainsInPrefix(tag, " " + token, DownloadTag);
    NonNumeralExample(token);
    PercentTokenLine(tag, token, after);
  }

  lemma MalformedExampleSplices(tag: string, token: string, after: string)
    requires tag == "[download] " && token == "oops" && after == " done"
    ensures tag + " " + token == "[download]  oops"
    ensures tag + " " + token == tag + (" " + token)
    ensures 'D' !in tag + " " + token && '%' !in tag + " " + token && 'D' !in after
    ensures tag + " " + token + "%" + after == "[download]  oops% done"
  {
  }

  lemma MalformedUnpaddedExample(line: string)
    requires line == "[download]  oops% done"
    ensures Strip(line) == line
  {
    StripUnpadded(line);
  }

  /** `oops` is one word and `float("oops")` raises. */
  lemma NonNumeralExample(token: string)
    requires token == "oops"
    ensures token != "" && NoSpace(token)
    ensures TruncatedDecimal(token) == None
  {
    NoLeadNotContained(token, ".");
    assert !IsDigit(token[0]);
  }

  /**
    A merger line replaces the file with its quoted name only when that name
    is non-empty; an extract-audio line always replaces it. Neither touches
    the title or makes a callback.
   */
  lemma MergerAndExtractKeepTitle(lines: seq<string>, line: string)
    requires Shape(Strip(line)).Merger? || Shape(Strip(line)).ExtractAudio?
    ensures Scan(lines + [line]).state.currentTitle == Scan(lines).state.currentTitle
    ensures Scan(lines + [line]).events == Scan(lines).events
    ensures Shape(Strip(line)).Merger? ==>
      Scan(lines + [line]).state.currentFile ==
        (var m := Shape(Strip(line)).merged; if m.Some? && m.value != "" then m else Scan(lines).state.currentFile)
    ensures Shape(Strip(line)).ExtractAudio? ==>
      Scan(lines + [line]).state.currentFile == Some(Shape(Strip(line)).dest)
  {
    ScanLine(lines, line);
  }

  /**
    The title the parser ends with is the stem of the last destination's
    path, and empty when no line names a destination.
   */
  lemma {:induction false} TitleIsStemOfLastDestination(shapes: seq<LineShape>)
    ensures ScanFrom(Initial, shapes).state.currentTitle ==
      match LastDestination(shapes)
      case None => ""
      case Some(k) => Stem(shapes[k].dest)
    decreases |shapes|
  {
    if shapes != [] {
      var init := shapes[..|shapes| - 1];
      var shape := shapes[|shapes| - 1];
      assert shapes == init + [shape];
      ScanSnoc(Initial, init, shape);
      if !shape.Destination? {
        TitleIsStemOfLastDestination(init);
        assert LastDestination(shapes) == LastDestination(init);
        match LastDestination(init)
        case None =>
        case Some(k) => assert shapes[k] == init[k];
      }
    }
  }

  /** A shape that sets the file: a destination, an extract-audio line, or a merger line with a non-empty name. */
  predicate SetsFile(shape: LineShape)
  {
    shape.Destination? || shape.ExtractAudio? || (shape.Merger? && shape.merged.Some? && shape.merged.value != "")
  }

  /** The parser has a file exactly when some line announced one. */
  lemma {:induction false} FileIffAnnounced(shapes: seq<LineShape>)
    ensures ScanFrom(Initial, shapes).state.currentFile.Some? <==> exists k :: 0 <= k < |shapes| && SetsFile(shapes[k])
    decreases |shapes|
  {
    if shapes != [] {
      var init := shapes[..|shapes| - 1];
      var shape := shapes[|shapes| - 1];
      assert shapes == init + [shape];
      ScanSnoc(Initial, init, shape);
      FileIffAnnounced(init);
      assert forall k :: 0 <= k < |init| ==> init[k] == shapes[k];
    }
  }

  /** Tier one: the parser's file, when it is non-empty and exists. */
  predicate ParserFileExists(st: ParserState, existing: set<string>)
  {
    st.currentFile.Some? && st.currentFile.value != "" && st.currentFile.value in existing
  }

  /**
    What happens after a zero exit: the parser's file if it exists, else the
    newest `title.*` entry when there is a title, else the newest entry of
    the directory, else the not-found failure.
   */
  function Resolve(st: ParserState, outputDir: string, listing: seq<DirEntry>, existing: set<string>): (r: DownloadResult)
    ensures r.success <==> r.filePath.Some?
    ensures r.success ==> r.message == CompletedMessage
    ensures !r.success ==> r == DownloadResult(false, NotFoundMessage, None)
  {
    if ParserFileExists(st, existing) then DownloadResult(true, CompletedMessage, st.currentFile)
    else
      var matches := TitleMatches(listing, st.currentTitle);
      if st.currentTitle != "" && matches != [] then
        DownloadResult(true, CompletedMessage, Some(JoinPath(outputDir, matches[Newest(matches).value].name)))
      else if listing != [] then
        DownloadResult(true, CompletedMessage, Some(JoinPath(outputDir, listing[Newest(listing).value].name)))
      else DownloadResult(false, NotFoundMessage, None)
  }

  /** The result of `_execute_download` for a run of the tool. */
  function Outcome(run: ProcessRun, outputDir: string, listing: seq<DirEntry>, existing: set<string>): DownloadResult
  {
    match run
    case Raised(_, message) => DownloadResult(false, ErrorPrefix + message, None)
    case Exited(lines, exitCode) =>
      if exitCode == 0 then Resolve(Scan(lines).state, outputDir, listing, existing)
      else DownloadResult(false, FailedMessage, None)
  }

  /** The callbacks a run makes: those of its lines, and none without a callback. */
  function Callbacks(run: ProcessRun, hasCallback: bool): seq<ProgressEvent>
  {
    if hasCallback then Scan(run.lines).events else []
  }

  /** One more line read: the fold over one more shape is one more step from the state reached. */
  lemma ScanPrefixStep(shapes: seq<LineShape>, i: nat, st: ParserState, events: seq<ProgressEvent>)
    requires i < |shapes| && ScanFrom(Initial, shapes[..i]) == ScanResult(st, events)
    ensures ScanFrom(Initial, shapes[..i + 1]) ==
      ScanResult(Step(st, shapes[i]).0, events + Emitted(Step(st, shapes[i]).1))
  {
    TakeOneMore(shapes, i);
    ScanSnoc(Initial, shapes[..i], shapes[i]);
  }

  /**
    The line loop of `_execute_download`: read the lines one at a time,
    updating the parser state and making the callbacks as they come.
   */
  method ReadProgress(lines: seq<string>, hasCallback: bool) returns (st: ParserState, calls: seq<ProgressEvent>)
    ensures st == Scan(lines).state
    ensures calls == if hasCallback then Scan(lines).events else []
  {
    ghost var shapes := LineShapes(lines);
    ghost var events: seq<ProgressEvent> := [];
    st := Initial;
    calls := [];
    for i := 0 to |lines|
      invariant ScanFrom(Initial, shapes[..i]) == ScanResult(st, events)
      invariant calls == if hasCallback then events else []
    {
      var shape := Shape(Strip(lines[i]));
      LineShapeAt(lines, i);
      ScanPrefixStep(shapes, i, st, events);
      var next := Step(st, shape);
      st := next.0;
      events := events + Emitted(next.1);
      if hasCallback && next.1.Some? {
        calls := calls + [next.1.value];
      }
    }
    assert shapes[..|lines|] == shapes;
  }

  /** `_execute_download`: the line loop, then the result for the way the run ended. */
  method ExecuteDownload(run: ProcessRun, outputDir: string, listing: seq<DirEntry>, existing: set<string>, hasCallback: bool)
    returns (calls: seq<ProgressEvent>, result: DownloadResult)
    ensures calls == Callbacks(run, hasCallback)
    ensures result == Outcome(run, outputDir, listing, existing)
  {
    var st;
    st, calls := ReadProgress(run.lines, hasCallback);
    if run.Raised? {
      return calls, DownloadResult(false, ErrorPrefix + run.message, None);
    }
    if run.exitCode != 0 {
      return calls, DownloadResult(false, FailedMessage, None);
    }
    if ParserFileExists(st, existing) {
      return calls, DownloadResult(true, CompletedMessage, st.currentFile);
    }
    if st.currentTitle != "" {
      var matches := TitleMatches(listing, st.currentTitle);
      if matches != [] {
        var latest := Newest(matches).value;
        return calls, DownloadResult(true, CompletedMessage, Some(JoinPath(outputDir, matches[latest].name)));
      }
    }
    if listing != [] {
      var latest := Newest(listing).value;
      return calls, DownloadResult(true, CompletedMessage, Some(JoinPath(outputDir, listing[latest].name)));
    }
    return calls, DownloadResult(false, NotFoundMessage, None);
  }

  /** `download_video`: the video command for the quality, run and resolved. */
  method DownloadVideo(python: string, url: string, quality: string, outputDir: string,
                       run: ProcessRun, listing: seq<DirEntry>, existing: set<string>, hasCallback: bool)
    returns (cmd: seq<string>, calls: seq<ProgressEvent>, result: DownloadResult)
    ensures cmd == VideoCommand(python, url, quality, outputDir)
    ensures FlagValue(cmd, "-f", VideoFormatFor(quality)) && Last(cmd) == url
    ensures calls == Callbacks(run, hasCallback)
    ensures result == Outcome(run, outputDir, listing, existing)
  {
    cmd := VideoCommand(python, url, quality, outputDir);
    VideoCommandShape(python, url, quality, outputDir);
    calls, result := ExecuteDownload(run, outputDir, listing, existing, hasCallback);
  }

  /** `download_audio`: the mp3 command, run and resolved. */
  method DownloadAudio(python: string, url: string, outputDir: string,
                       run: ProcessRun, listing: seq<DirEntry>, existing: set<string>, hasCallback: bool)
    returns (cmd: seq<string>, calls: seq<ProgressEvent>, result: DownloadResult)
    ensures cmd == AudioCommand(python, url, outputDir)
    ensures FlagValue(cmd, "-f", AudioFormat) && FlagValue(cmd, "--audio-format", "mp3") && Last(cmd) == url
    ensures calls == Callbacks(run, hasCallback)
    ensures result == Outcome(run, outputDir, listing, existing)
  {
    cmd := AudioCommand(python, url, outputDir);
    AudioCommandShape(python, url, outputDir);
    calls, result := ExecuteDownload(run, outputDir, listing, existing, hasCallback);
  }

  /** A non-zero exit is a failure whatever the lines said; an exception reports its message. */
  lemma FailureOutcomes(run: ProcessRun, outputDir: string, listing: seq<DirEntry>, existing: set<string>)
    ensures run.Exited? && run.exitCode != 0 ==> Outcome(run, outputDir, listing, existing) == DownloadResult(false, FailedMessage, None)
    ensures run.Raised? ==> Outcome(run, outputDir, listing, existing) == DownloadResult(false, ErrorPrefix + run.message, None)
    ensures !Outcome(run, outputDir, listing, existing).success ==> Outcome(run, outputDir, listing, existing).filePath.None?
  {
  }

  /** Tier one: an existing file the parser announced wins over any listing. */
  lemma ExistingParserFileWins(st: ParserState, outputDir: string, listing: seq<DirEntry>, existing: set<string>)
    requires ParserFileExists(st, existing)
    ensures Resolve(st, outputDir, listing, existing) == DownloadResult(true, CompletedMessage, st.currentFile)
  {
  }

  /**
    Tier two: otherwise, with a title, the newest entry whose name is the
    title, a dot and an extension is chosen; it is the first among the
    newest, and no matching entry is newer.
   */
  lemma NewestTitleMatchWins(st: ParserState, outputDir: string, listing: seq<DirEntry>, existing: set<string>)
    requires !ParserFileExists(st, existing) && st.currentTitle != ""
    requires TitleMatches(listing, st.currentTitle) != []
    ensures exists e :: (e in listing && MatchesTitle(e.name, st.currentTitle) &&
      Resolve(st, outputDir, listing, existing) == DownloadResult(true, CompletedMessage, Some(JoinPath(outputDir, e.name))) &&
      forall f :: f in listing && MatchesTitle(f.name, st.currentTitle) ==> f.mtime <= e.mtime)
  {
    var matches := TitleMatches(listing, st.currentTitle);
    var e := matches[Newest(matches).value];
    assert e in matches;
    forall f | f in listing && MatchesTitle(f.name, st.currentTitle) ensures f.mtime <= e.mtime {
      assert f in matches;
      var j :| 0 <= j < |matches| && matches[j] == f;
    }
  }

  /**
    Tier three: with no existing parser file and no title match, the newest
    entry of the whole directory is chosen.
   */
  lemma NewestEntryIsLastResort(st: ParserState, outputDir: string, listing: seq<DirEntry>, existing: set<string>)
    requires !ParserFileExists(st, existing)
    requires st.currentTitle == "" || TitleMatches(listing, st.currentTitle) == []
    requires listing != []
    ensures exists k :: (0 <= k < |listing| &&
      Resolve(st, outputDir, listing, existing) == DownloadResult(true, CompletedMessage, Some(JoinPath(outputDir, listing[k].name))) &&
      forall j :: 0 <= j < |listing| ==> listing[j].mtime <= listing[k].mtime)
  {
    var k := Newest(listing).value;
  }

  /**
    After a zero exit the download fails exactly when the parser's file does
    not exist and the directory is empty: any entry at all is taken as the
    result.
   */
  lemma NotFoundExactly(lines: seq<string>, outputDir: string, listing: seq<DirEntry>, existing: set<string>)
    ensures var r := Outcome(Exited(lines, 0), outputDir, listing, existing);
      !r.success <==> !ParserFileExists(Scan(lines).state, existing) && listing == []
  {
    var st := Scan(lines).state;
    if listing == [] {
      assert TitleMatches(listing, st.currentTitle) == [];
    }
  }
}
