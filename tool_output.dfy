/**
  What the external download tool and the output directory hand back to the
  pipeline, and how one line of the tool's progress output is recognised.

  The tool itself, its process and the file system are not modelled: a run is
  the sequence of lines it printed followed by its exit status (or by the
  exception that stopped it), the directory is a listing of (name, mtime)
  entries in listing order, and "the path exists" is membership in a set.
 */
module ToolOutput {

  import opened Wrappers
  import opened Text
  import opened Numerals

  /** One run of the external tool: its merged stdout/stderr lines, then how it ended. */
  datatype ProcessRun =
    | Exited(lines: seq<string>, exitCode: int)
      /** an exception escaped after `lines` were read (spawning can fail before any line) */
    | Raised(lines: seq<string>, message: string)

  /** One entry of the output directory. */
  datatype DirEntry = DirEntry(name: string, mtime: int)

  /** The line shapes the tool prints, recognised in this priority order. */
  datatype LineShape =
    | Destination(dest: string)
    | Percent(percent: Option<int>)
    | Merger(merged: Option<string>)
    | ExtractAudio(dest: string)
    | Unrecognised

  const DownloadTag := "[download]"
  const DestinationMarker := "Destination:"
  const MergerTag := "[Merger]"
  const MergingMarker := "Merging formats into"
  const ExtractAudioTag := "[ExtractAudio]"

  /** `line.split('Destination:')[-1].strip()` */
  function DestinationOf(line: string): string
  {
    Strip(Last(Split(line, DestinationMarker)))
  }

  /**
    `int(float(line.split('%')[0].split()[-1]))`: the last whitespace-separated
    token before the first `%`. `None` where Python raises: `IndexError` when
    there is no such token, `ValueError` when it is not a numeral.
   */
  function PercentOf(line: string): Option<int>
  {
    var words := Words(Split(line, "%")[0]);
    if words == [] then None else TruncatedDecimal(Last(words))
  }

  /**
    The destination read off a line is the stripped text after its
    `Destination:` marker, when that marker occurs once and nothing before
    it could start one.
   */
  lemma DestinationOfSpliced(a: string, c: string)
    requires 'D' !in a
    requires !Contains(c, DestinationMarker)
    ensures DestinationOf(a + DestinationMarker + c) == Strip(c)
  {
    var b := DestinationMarker;
    var line := a + b + c;
    OccursSpliced(a, b, c);
    forall j | 0 <= j < |a|
      ensures !OccursAt(line, b, j)
    {
      assert line[j] == a[j] && a[j] in a;
      NoLeadNoOccurrence(line, b, j);
    }
    IndexOfAt(line, b, |a|);
    LastPieceAfterFirst(line, b, |a|);
    assert line[|a| + |b|..] == c;
    SplitWithoutSep(c, b);
  }

  /**
    A line with the `[download]` tag before a single `Destination:` marker
    reads as a destination, the stripped text after the marker.
   */
  lemma DestinationLineShape(a: string, c: string)
    requires Contains(a, DownloadTag) && 'D' !in a
    requires !Contains(c, DestinationMarker)
    ensures Shape(a + DestinationMarker + c) == Destination(Strip(c))
  {
    OccursSpliced(a, DestinationMarker, c);
    ContainsInPrefix(a, DestinationMarker + c, DownloadTag);
    assert a + DestinationMarker + c == a + (DestinationMarker + c);
    DestinationOfSpliced(a, c);
  }

  /**
    A `[download]` line without a `Destination:` marker but with a `%` reads
    as a percentage, the token before its first `%`.
   */
  lemma PercentLineShape(before: string, after: string)
    requires Contains(before, DownloadTag) && 'D' !in before && 'D' !in after && '%' !in before
    ensures Shape(before + "%" + after) ==
      Percent(var w := Words(before); if w == [] then None else TruncatedDecimal(Last(w)))
  {
    PercentLineMarks(before, after);
    NoLeadNotContained(before, "%");
    PercentReadsBeforeFirstPercentSign(before, after);
  }

  /**
    A stripped `[download]` line whose text before the first `%` ends in a
    space and `token` reads as the percentage `token` is worth.
   */
  lemma PercentTokenLine(tag: string, token: string, after: string)
    requires Contains(tag + " " + token, DownloadTag) && 'D' !in tag + " " + token && 'D' !in after
    requires '%' !in tag + " " + token && token != "" && NoSpace(token)
    ensures Shape(tag + " " + token + "%" + after) == Percent(TruncatedDecimal(token))
  {
    PercentLineShape(tag + " " + token, after);
    LastWordAfterSpace(tag, token);
  }

  /** Which markers such a line holds. */
  lemma PercentLineMarks(before: string, after: string)
    requires Contains(before, DownloadTag) && 'D' !in before && 'D' !in after
    ensures var line := before + "%" + after;
      Contains(line, DownloadTag) && !Contains(line, DestinationMarker) && Contains(line, "%")
  {
    var line := before + "%" + after;
    OccursSpliced(before, "%", after);
    ContainsInPrefix(before, "%" + after, DownloadTag);
    assert line == before + ("%" + after);
    assert 'D' !in line;
    NoLeadNotContained(line, DestinationMarker);
  }

  /** `line.split('"')[-2] if '"' in line else None` */
  function MergedFileOf(line: string): Option<string>
  {
    if Contains(line, "\"") then
      var pieces := Split(line, "\"");
      Some(pieces[|pieces| - 2])
    else None
  }

  /** How one stripped output line is read; the tests and their order are those of the tool's parser. */
  function Shape(line: string): LineShape
  {
    if Contains(line, DownloadTag) && Contains(line, DestinationMarker) then Destination(DestinationOf(line))
    else if Contains(line, DownloadTag) && Contains(line, "%") then Percent(PercentOf(line))
    else if Contains(line, MergerTag) && Contains(line, MergingMarker) then Merger(MergedFileOf(line))
    else if Contains(line, ExtractAudioTag) && Contains(line, DestinationMarker) then ExtractAudio(DestinationOf(line))
    else Unrecognised
  }

  /** How each raw output line reads once stripped. */
  function LineShapes(lines: seq<string>): (r: seq<LineShape>)
    ensures |r| == |lines|
    decreases |lines|
  {
    if lines == [] then [] else LineShapes(lines[..|lines| - 1]) + [Shape(Strip(lines[|lines| - 1]))]
  }

  /** Reading one more line appends its shape. */
  lemma LineShapesSnoc(lines: seq<string>, line: string)
    ensures LineShapes(lines + [line]) == LineShapes(lines) + [Shape(Strip(line))]
  {
    assert (lines + [line])[..|lines|] == lines;
  }

  /** The shape recorded for each line is that line's shape. */
  lemma {:induction false} LineShapeAt(lines: seq<string>, k: nat)
    requires k < |lines|
    ensures LineShapes(lines)[k] == Shape(Strip(lines[k]))
    decreases |lines|
  {
    if k < |lines| - 1 {
      LineShapeAt(lines[..|lines| - 1], k);
    }
  }

  /** The position of the last destination shape, if any. */
  function LastDestination(shapes: seq<LineShape>): (r: Option<nat>)
    ensures r.Some? ==> r.value < |shapes| && shapes[r.value].Destination?
    ensures r.Some? ==> forall k :: r.value < k < |shapes| ==> !shapes[k].Destination?
    ensures r.None? ==> forall k :: 0 <= k < |shapes| ==> !shapes[k].Destination?
    decreases |shapes|
  {
    if shapes == [] then None
    else if shapes[|shapes| - 1].Destination? then Some(|shapes| - 1)
    else
      var r := LastDestination(shapes[..|shapes| - 1]);
      assert forall k :: 0 <= k < |shapes| - 1 ==> shapes[..|shapes| - 1][k] == shapes[k];
      r
  }

  /**
    The destination a `Destination:` line announces is the text after the
    last `Destination:` marker, stripped, and it never holds that marker.
   */
  lemma DestinationIsTextAfterLastMarker(line: string)
    requires Contains(line, DestinationMarker)
    ensures |DestinationMarker| <= LastPieceStart(line, DestinationMarker)
    ensures OccursAt(line, DestinationMarker, LastPieceStart(line, DestinationMarker) - |DestinationMarker|)
    ensures !Contains(line[LastPieceStart(line, DestinationMarker)..], DestinationMarker)
    ensures DestinationOf(line) == Strip(line[LastPieceStart(line, DestinationMarker)..])
  {
    SplitLastPiece(line, DestinationMarker);
  }

  /**
    The percentage read from a progress line comes from the text before its
    first `%`: a `%` later in the line never changes it.
   */
  lemma PercentReadsBeforeFirstPercentSign(before: string, after: string)
    requires !Contains(before, "%")
    ensures PercentOf(before + "%" + after) == (var w := Words(before); if w == [] then None else TruncatedDecimal(Last(w)))
  {
    var line := before + "%" + after;
    assert OccursAt(line, "%", |before|);
    var i := IndexOf(line, "%").value;
    if i < |before| {
      assert line[i..i + 1] == before[i..i + 1];
      assert OccursAt(before, "%", i);
    }
    assert Split(line, "%")[0] == line[..|before|] == before;
  }

  /**
    Pathlib's `glob(title + ".*")` for a title without glob metacharacters:
    the entry's name is the title, a dot, and anything after it.
   */
  predicate MatchesTitle(name: string, title: string)
  {
    |title| + 1 <= |name| && name[..|title| + 1] == title + "."
  }

  /** The entries `glob(title + ".*")` yields, in listing order. */
  function TitleMatches(listing: seq<DirEntry>, title: string): (r: seq<DirEntry>)
    ensures |r| <= |listing|
    ensures forall e :: e in r <==> e in listing && MatchesTitle(e.name, title)
  {
    if listing == [] then []
    else if MatchesTitle(listing[0].name, title) then [listing[0]] + TitleMatches(listing[1..], title)
    else TitleMatches(listing[1..], title)
  }

  /**
    The first entry `glob(title + ".*")` yields, the one `possible_files[0]`
    picks, is the first matching entry of the listing.
   */
  lemma {:induction false} FirstTitleMatch(listing: seq<DirEntry>, title: string) returns (k: nat)
    requires TitleMatches(listing, title) != []
    ensures k < |listing| && TitleMatches(listing, title)[0] == listing[k]
    ensures MatchesTitle(listing[k].name, title)
    ensures forall j :: 0 <= j < k ==> !MatchesTitle(listing[j].name, title)
  {
    if MatchesTitle(listing[0].name, title) {
      k := 0;
    } else {
      var i := FirstTitleMatch(listing[1..], title);
      k := i + 1;
      assert forall j :: 1 <= j < k ==> listing[j] == listing[1..][j - 1];
    }
  }

  /**
    The position of the entry with the greatest mtime, the first one among
    equals: what both `max(files, key=mtime)` and
    `sorted(files, key=mtime, reverse=True)[0]` pick, since Python's `max`
    keeps the first maximum and its sort is stable under `reverse`.
   */
  function Newest(entries: seq<DirEntry>): (r: Option<nat>)
    ensures r.None? <==> entries == []
    ensures r.Some? ==> r.value < |entries|
    ensures r.Some? ==> forall j :: 0 <= j < |entries| ==> entries[j].mtime <= entries[r.value].mtime
    ensures r.Some? ==> forall j :: 0 <= j < r.value ==> entries[j].mtime < entries[r.value].mtime
  {
    if entries == [] then None
    else
      var n := |entries| - 1;
      match Newest(entries[..n])
      case None => Some(0)
      case Some(k) =>
        assert entries[..n][k] == entries[k];
        assert forall j :: 0 <= j < n ==> entries[..n][j] == entries[j];
        if entries[n].mtime > entries[k].mtime then Some(n) else Some(k)
  }

  /** `str(output_dir / name)` */
  function JoinPath(dir: string, name: string): string
  {
    dir + "/" + name
  }
}
