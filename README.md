# YouTube downloader: the download-job pipeline in Dafny

This project models the core of a small Django web application that
downloads YouTube videos by running the external tool `yt-dlp`. The model
covers five parts:

- **Downloader helper** (`YouTubeDownloader`):
  - the quality-to-format map and the argument vectors it builds;
  - URL validation and video-id extraction;
  - `format_duration`;
  - `_execute_download`. Its progress-line parser is a left fold over the tool's stripped output lines. A three-tier fallback then picks the downloaded file, and the call returns the `(success, message, path)` triple.
- **Background worker** (`download_video_thread`). It marks one record as downloading and writes the title and progress into the record as lines arrive. At the end it marks the record completed or failed, and it saves every change as it happens.
- **`VideoDownload` record**: its status and quality choices, the defaults of a new record, its display string and the table's default newest-first order.
- **Owner-scoped views**:
  - the per-browser session id;
  - the progress payload;
  - the download guard and content type;
  - owner-scoped deletion;
  - submitting a download;
  - the recent list on the index page.
- **Record table**: the database table, as a class over the rows in insertion order, with insert, save and delete.

Process, file-system and database effects become inputs:

- A run of the tool is a `ProcessRun`: the lines it printed, then either an exit status or the text of an exception that stopped it.
- The output directory is a listing of `(name, mtime)` entries in listing order.
- "The path exists" is membership in a set of paths.
- The fresh session uuid, the interpreter path, the output directory and the clock reading are parameters.

Modules, one per file:

| file | module |
|---|---|
| `wrappers.dfy` | `Wrappers` (Option) |
| `text.dfy` | `Text`: Python string operations (`strip`, `in`, `find`, `split`, `split()`, path name and stem) |
| `numerals.dfy` | `Numerals`: `str(n)`, `f"{n:02d}"`, `int(float(token))` on decimal numerals |
| `duration.dfy` | `Duration`: `format_duration` |
| `download_commands.dfy` | `DownloadCommands`: format map and argument vectors |
| `url_validation.dfy` | `UrlValidation`: `validate_url`, `extract_video_id` |
| `tool_output.dfy` | `ToolOutput`: runs, directory entries, line shapes, glob and newest-entry choice |
| `downloader.dfy` | `Downloader`: `_execute_download`, `download_video`, `download_audio` |
| `models.dfy` | `Models`: the record |
| `store.dfy` | `Store`: queries and the `DownloadTable` class |
| `worker.dfy` | `Worker`: `download_video_thread` |
| `views.dfy` | `Views`: the views |

Facts about the code that a reader of its names, comments or tests might expect otherwise; the model follows the code:

- The worker's command has no `--no-playlist` flag, so one job can fetch a whole playlist (`Worker.WorkerCommandShape`).
- The worker ignores `format_type`: it always runs the video command.
- A record can end `completed` with an empty `file_path`. This happens when no destination line was seen, or when no `title.*` entry exists (`Worker.CompletedWithoutFile`). So "path non-empty iff completed" does not hold.
- The code has no `fetching_metadata` status. It has no retry with backoff on write contention and no tombstones for deleted records. None of these is modelled.
- Two view tests disagree with the views, and the model follows the views. `tests.py:169-184` and `tests.py:186-195` create records without a session id and expect a payload and a redirect. But `views.py:97` and `views.py:162` look a record up by its id together with the caller's session id, so a request from a client session gets the 404 (`Views.OtherSessionsGetNotFound`, `Views.DeleteDownload`).
- `models.py` does not declare `session_id`, `format_type`, `thumbnail` or `duration`, but the views and the tests read them, so the record carries them. `duration_formatted` is taken to be `format_duration` of `duration`, which agrees with the tests at `tests.py:110-119`.

## Model

| member | source | states |
|---|---|---|
| Text.TrimStart | web_downloader/helpers/downloader.py:288 | `lstrip()`: the result is a suffix of the input, everything dropped is whitespace, and the result does not start with whitespace |
| Text.TrimEnd | web_downloader/helpers/downloader.py:288 | `rstrip()`: the result is a prefix of the input, everything dropped is whitespace, and the result does not end with whitespace |
| Text.Strip | web_downloader/helpers/downloader.py:288 | `line.strip()`: the result is no longer than the input and neither starts nor ends with whitespace; `TrimStart`/`TrimEnd` state that exactly the removed ends are whitespace |
| Text.StripUnpadded | web_downloader/helpers/downloader.py:73 | a string that neither starts nor ends with whitespace is its own `strip()` |
| Text.Contains | web_downloader/helpers/downloader.py:291 | Python's `sub in s`: some position of `s` starts an occurrence of `sub`; `IndexOf`, `ContainsInPrefix` and `NoLeadNotContained` state how it is found |
| Text.IndexOf | web_downloader/helpers/downloader.py:299 | `find`: `None` exactly when the text does not occur; otherwise an occurrence with none further left |
| Text.Split | web_downloader/helpers/downloader.py:292 | `s.split(sep)` has at least one piece, and two or more exactly when `sep` occurs in `s` |
| Text.SplitJoin | web_downloader/helpers/downloader.py:292 | joining the pieces of `s.split(sep)` with `sep` gives back `s` |
| Text.SplitAtFirst | web_downloader/helpers/downloader.py:299 | at the leftmost `sep`, the split is the text before it followed by the split of the rest |
| Text.SplitLastPiece | web_downloader/helpers/downloader.py:292 | `split(sep)[-1]` is the text after the last `sep` and holds no `sep`; it is all of `s` when `sep` is absent |
| Text.SplitFirstPiece | web_downloader/helpers/downloader.py:299 | `split(sep)[0]` is a prefix holding no `sep`, and when `sep` occurs it stands right after that prefix |
| Text.Words | web_downloader/helpers/downloader.py:299 | `split()` gives non-empty words without whitespace |
| Text.WordsShape | web_downloader/helpers/downloader.py:299 | `split()` is empty exactly for whitespace-only text; otherwise its last word, `split()[-1]`, is the whitespace-free run that ends `rstrip()` of the text and follows its last whitespace |
| Text.LastWordAfterSpace | web_downloader/helpers/downloader.py:299 | the last word of text that ends in a space and a word is that word |
| Text.TakeWord | web_downloader/helpers/downloader.py:299 | the longest whitespace-free prefix, ended by whitespace or the end of the text |
| Text.RFind | web_downloader/helpers/downloader.py:294 | the rightmost position of a character, with `None` exactly when it is absent |
| Text.BaseName | web_downloader/views.py:153 | `Path(p).name` is a suffix of the path without `/`: either the whole path or the text right after a `/`, so the last path component |
| Text.StemAndSuffix | web_downloader/helpers/downloader.py:294 | `Path(dest).stem` and `.suffix` make up the name. A non-empty suffix is a dot and at least one character with no further dot. The stem is empty only for an empty name. When the name's last dot is neither its first nor its last character, the stem is the text before that dot and the suffix is the text from it |
| Text.Stem | web_downloader/helpers/downloader.py:294 | `Path(dest).stem`: the name with its suffix removed, as `Text.StemAndSuffix` and `Text.StemOfDotted` state |
| Text.Suffix | web_downloader/helpers/downloader.py:294 | the suffix that `stem` drops, as `Text.StemAndSuffix` states |
| Text.StemOfDotted | web_downloader/helpers/downloader.py:294 | for a name `n.ext` whose extension holds no dot, the stem is `n` and the suffix `.ext` |
| Numerals.NatToString | web_downloader/helpers/downloader.py:384-385 | `str(n)` is non-empty decimal digits without a leading zero, one digit exactly below 10 |
| Numerals.NatToStringRoundTrip | web_downloader/helpers/downloader.py:384-385 | reading back the digits of `str(n)` gives `n` |
| Numerals.NatToStringInjective | web_downloader/helpers/downloader.py:384-385 | different numbers are never written alike |
| Numerals.Pad2 | web_downloader/helpers/downloader.py:384-385 | `f"{n:02d}"` is at least two digits and exactly two below 100 |
| Numerals.Pad2RoundTrip | web_downloader/helpers/downloader.py:384-385 | reading back `f"{n:02d}"` gives `n` |
| Numerals.TruncatedDecimal | web_downloader/helpers/downloader.py:300-302 | `int(float(token))` on a decimal numeral of ASCII digits, read as its exact integer part without rounding to a double first, and `None` where `float` raises; stated by `TruncatedDecimalSign`, `TruncatedDecimalOfRendered` and `TruncatedDecimalOfNat` |
| Numerals.TruncatedDecimalSign | web_downloader/helpers/downloader.py:300-302 | `int(float(-x))` is minus `int(float(x))`, and a leading `+` changes nothing |
| Numerals.TruncatedDecimalOfRendered | web_downloader/helpers/downloader.py:300-302 | a rendered natural with a fractional part, such as `42.0`, truncates to that natural |
| Numerals.TruncatedDecimalOfNat | web_downloader/helpers/downloader.py:300-302 | a rendered natural reads back as itself |
| Duration.FormatDuration | web_downloader/helpers/downloader.py:366-385 | `format_duration`, whose properties `FormatDurationRoundTrip`, `FormatDurationFields` and `DurationExamples` state |
| Duration.FormatDurationRoundTrip | web_downloader/helpers/downloader.py:376-385 | reading the clock string back gives the number of seconds, and zero for zero or a negative count |
| Duration.LongRoundTrip | web_downloader/helpers/downloader.py:383-384 | from one hour on, `H:MM:SS` reads back as the count |
| Duration.ShortRoundTrip | web_downloader/helpers/downloader.py:385 | a positive count under an hour, as `M:SS`, reads back as the count |
| Duration.LongFields | web_downloader/helpers/downloader.py:379-384 | from one hour on, the string is three numerals worth the count: the whole hours, then minutes and seconds of two digits each, both under 60 |
| Duration.ShortFields | web_downloader/helpers/downloader.py:379-385 | a positive count under an hour gives two numerals worth the count: the whole minutes, then the seconds of two digits, under 60 |
| Duration.ParseTwoNumerals | web_downloader/helpers/downloader.py:385 | `a:b` built from numerals reads as `a*60+b` |
| Duration.ParseThreeNumerals | web_downloader/helpers/downloader.py:384 | `a:b:c` built from numerals reads as `a*3600+b*60+c` |
| Duration.ParseTwoFields | web_downloader/helpers/downloader.py:385 | `a:b` splits on `:` into exactly its two numerals |
| Duration.ParseThreeFields | web_downloader/helpers/downloader.py:384 | `a:b:c` splits on `:` into exactly its three numerals |
| Duration.RenderedNumerals | web_downloader/helpers/downloader.py:384-385 | `str(n)` and `f"{m:02d}"` are numerals worth `n` and `m` |
| Duration.FormatDurationFields | web_downloader/helpers/downloader.py:376-385 | three fields exactly from 3600 seconds on and two below; every field after the first has exactly two digits and is under 60; the first field is the whole hours from an hour on, the whole minutes below, and `0` for a non-positive count |
| Duration.ZeroPieces | web_downloader/helpers/downloader.py:376-377 | a non-positive count gives the fields `0` and `00` |
| Duration.ShortPieces | web_downloader/helpers/downloader.py:379-385 | under an hour the fields are the whole minutes and the seconds, under 60 |
| Duration.LongPieces | web_downloader/helpers/downloader.py:379-384 | from an hour on the fields are the whole hours, the minutes and the seconds, both under 60 |
| Duration.DurationExamples | web_downloader/tests.py:110-119 | 3661 s is `1:01:01`, 65 s is `1:05` and 0 s is `0:00` |
| DownloadCommands.CappedFormat | web_downloader/helpers/downloader.py:32-34 | the selector for a height ceiling, mp4 preferred; `CappedFormatNamesCeiling` states that it names its `height<=` ceiling |
| DownloadCommands.VideoQualityFormats | web_downloader/helpers/downloader.py:30-36 | `VIDEO_QUALITY_FORMATS`, whose keys `QualityKeys` states and whose ceilings `HeightCeilings` states |
| DownloadCommands.AudioFormat | web_downloader/helpers/downloader.py:38 | `AUDIO_FORMAT`, the audio selector `AudioCommandShape` finds after `-f` |
| DownloadCommands.VideoFormatFor | web_downloader/helpers/downloader.py:179 | a known quality gets its own format string; any other quality gets the `720p` string |
| DownloadCommands.QualityKeys | web_downloader/helpers/downloader.py:30-36 | the map's keys are exactly best, 1080p, 720p, 480p and worst |
| DownloadCommands.CappedFormatNamesCeiling | web_downloader/helpers/downloader.py:32-34 | a capped format string names its `height<=` ceiling |
| DownloadCommands.HeightCeilings | web_downloader/helpers/downloader.py:32-34 | 1080p, 720p and 480p embed `height<=1080`, `height<=720` and `height<=480` |
| DownloadCommands.BuildDownloadCommand | web_downloader/helpers/downloader.py:222-256 | `_build_download_command`, whose only caller is `VideoCommand` with `mp4`; its argv is described through `VideoCommandShape`. `AudioCommand` builds its own literal argv |
| DownloadCommands.VideoCommand | web_downloader/helpers/downloader.py:162-184 | the argv `download_video` runs, as `VideoCommandShape` states |
| DownloadCommands.AudioCommand | web_downloader/helpers/downloader.py:186-220 | the argv `download_audio` runs, as `AudioCommandShape` states |
| DownloadCommands.InfoCommand | web_downloader/helpers/downloader.py:114-122 | the argv `get_video_info` runs, as `InfoCommandShape` states |
| DownloadCommands.VideoCommandShape | web_downloader/helpers/downloader.py:179-182 | in the video argv, `-f` precedes the format, `--merge-output-format` is `mp4` and `-o` precedes the template; `--no-playlist` is present and the URL is last. `_build_download_command` itself is at lines 241-256 |
| DownloadCommands.AudioCommandShape | web_downloader/helpers/downloader.py:203-218 | the audio argv always uses the audio-only format with `-x`, `--audio-format mp3` and `--audio-quality 0`; `-o` precedes the template, `--no-playlist` is present and the URL is last |
| DownloadCommands.InfoCommandShape | web_downloader/helpers/downloader.py:114-122 | the metadata argv dumps JSON without downloading and ends with the URL |
| UrlValidation.ValidateUrl | web_downloader/helpers/downloader.py:70-82 | valid exactly when the raw URL is non-empty, its stripped form matches the URL pattern of lines 41-44 and it is at most 500 characters; valid exactly when the error is empty; the error is one of the three messages |
| UrlValidation.ValidationOrder | web_downloader/helpers/downloader.py:70-80 | each error message is given exactly in its own case, in the order empty, then format, then length |
| UrlValidation.BlankUrlIsBadFormat | web_downloader/helpers/downloader.py:70-76 | whitespace-only input fails as a bad format, not as empty |
| UrlValidation.FormatCheckedBeforeLength | web_downloader/helpers/downloader.py:75-80 | an over-long non-matching URL is reported as a bad format |
| UrlValidation.MatchesYoutubePattern | web_downloader/helpers/downloader.py:41-44 | `YOUTUBE_URL_PATTERN.match`, as `AlternativeMatches`, `AlternativesStartWithHostLetter` and `MatchStartsWithHostLetter` state |
| UrlValidation.AlternativesStartWithHostLetter | web_downloader/helpers/downloader.py:41-44 | every alternative of the pattern starts with `h`, `w` or `y` |
| UrlValidation.MatchStartsWithHostLetter | web_downloader/helpers/downloader.py:41-44 | a matching URL starts with `h`, `w` or `y` in either case |
| UrlValidation.AlternativeMatches | web_downloader/helpers/downloader.py:41-44 | any scheme, host and path alternative followed by a class character matches |
| UrlValidation.UnpaddedMatchIsValid | web_downloader/helpers/downloader.py:73-82 | a matching string with no surrounding whitespace, within the limit, is valid |
| UrlValidation.AlternativeIsValid | web_downloader/helpers/downloader.py:41-82 | any alternative followed by a suitable tail, within 500 characters, is valid; this covers the valid URLs of `tests.py:14-25` |
| UrlValidation.WrongFirstLetterIsBadFormat | web_downloader/helpers/downloader.py:70-76 | input whose stripped form does not start with `h`, `w` or `y` is a bad format; this covers `"not a url"` of `tests.py:29-38` |
| UrlValidation.IdAt | web_downloader/helpers/downloader.py:96 | at a position, the first marker of the alternation followed by eleven id characters gives the capture; `None` exactly when no marker does |
| UrlValidation.FirstCapture | web_downloader/helpers/downloader.py:99 | the leftmost position where some marker captures an id, with none before it |
| UrlValidation.SearchNone | web_downloader/helpers/downloader.py:95-102 | the search finds nothing exactly when no marker is anywhere followed by eleven id characters |
| UrlValidation.SearchSome | web_downloader/helpers/downloader.py:95-102 | a found id is eleven id characters right after a marker, at the leftmost such position |
| UrlValidation.Search | web_downloader/helpers/downloader.py:99 | `re.search(pattern, url)` with group 1, as `SearchNone` and `SearchSome` state: `None` exactly when no marker is followed by eleven id characters, otherwise the leftmost such capture |
| UrlValidation.ExtractVideoId | web_downloader/helpers/downloader.py:85-102 | `extract_video_id`, as `ExtractedIdShape` states |
| UrlValidation.ExtractedIdShape | web_downloader/helpers/downloader.py:85-102 | `extract_video_id` returns `None` exactly when no id follows any of its five markers; otherwise it returns the leftmost such 11-character id |
| ToolOutput.LineShapes | web_downloader/helpers/downloader.py:287-288 | one shape per output line |
| ToolOutput.Shape | web_downloader/helpers/downloader.py:291-315 | which branch a stripped line takes, in the source's order: destination, percentage, merger, extract-audio, unrecognised; stated by `DestinationLineShape`, `PercentLineShape` and the `Downloader` lemmas |
| ToolOutput.DestinationOf | web_downloader/helpers/downloader.py:292 | `line.split('Destination:')[-1].strip()`, as `DestinationIsTextAfterLastMarker` and `DestinationOfSpliced` state |
| ToolOutput.DestinationOfSpliced | web_downloader/helpers/downloader.py:292 | with a single marker and no `D` before it, the destination is the stripped text after the marker |
| ToolOutput.DestinationLineShape | web_downloader/helpers/downloader.py:291-292 | a line with the `[download]` tag before a single `Destination:` reads as that destination |
| ToolOutput.PercentOf | web_downloader/helpers/downloader.py:299-302 | `int(float(line.split('%')[0].split()[-1]))` with the token read as `Numerals.TruncatedDecimal` reads it, `None` where Python raises; stated by `PercentReadsBeforeFirstPercentSign` and `PercentTokenLine` |
| ToolOutput.PercentLineShape | web_downloader/helpers/downloader.py:291-302 | a `[download]` line without a `Destination:` marker but with a `%` reads as the percentage of the last word before its first `%` |
| ToolOutput.PercentTokenLine | web_downloader/helpers/downloader.py:297-302 | when the text before the first `%` ends in a space and a word, the percentage is what that word is worth |
| ToolOutput.MergedFileOf | web_downloader/helpers/downloader.py:308 | `line.split('"')[-2] if '"' in line else None`, whose use `Downloader.MergerAndExtractKeepTitle` states |
| ToolOutput.DestinationIsTextAfterLastMarker | web_downloader/helpers/downloader.py:292 | the destination is the stripped text after the last `Destination:`, and it holds no further marker |
| ToolOutput.PercentReadsBeforeFirstPercentSign | web_downloader/helpers/downloader.py:299 | the percentage comes from the last word before the first `%`; text after it never matters |
| ToolOutput.LastDestination | web_downloader/helpers/downloader.py:291-294 | the position of the last destination line, or `None` exactly when there is none |
| ToolOutput.TitleMatches | web_downloader/helpers/downloader.py:326 | `glob(title + ".*")` yields exactly the entries whose name is the title, a dot and more |
| ToolOutput.FirstTitleMatch | web_downloader/utils.py:95-97 | `possible_files[0]` is the first matching entry of the listing: it matches and no entry before it does |
| ToolOutput.Newest | web_downloader/helpers/downloader.py:329-335 | `max` and `sorted(reverse=True)[0]` by mtime pick an entry no older than any other and the first among equals; `None` only for no entries |
| Downloader.Step | web_downloader/helpers/downloader.py:290-315 | only a destination line changes the title; a callback happens only for a percentage line and leaves the state unchanged; unrecognised and malformed lines change nothing |
| Downloader.ScanFrom | web_downloader/helpers/downloader.py:287-315 | the fold of `Step` over line shapes; `ScanSnoc`, `ScanLine` and `ScanAppend` state how it grows, and `ReadProgress` proves the loop equal to it |
| Downloader.Scan | web_downloader/helpers/downloader.py:284-315 | the parser over a run's output lines from `current_file = None`, `current_title = ""`; `TitleIsStemOfLastDestination` and `FileIffAnnounced` state what it ends with |
| Downloader.ScanLine | web_downloader/helpers/downloader.py:287-315 | reading one more line is one more step of the parser |
| Downloader.ScanAppend | web_downloader/helpers/downloader.py:287-315 | the parser is a left fold over blocks of lines, and the callbacks concatenate in order |
| Downloader.UnrecognisedLineChangesNothing | web_downloader/helpers/downloader.py:287-315 | an unrecognised line leaves the state and the callbacks exactly as they were |
| Downloader.MalformedPercentChangesNothing | web_downloader/helpers/downloader.py:297-304 | a percentage line whose token is missing or malformed makes no callback and changes no state |
| Downloader.PercentLineEmitsOnce | web_downloader/helpers/downloader.py:297-302 | a parsable percentage makes exactly one callback with the current title and changes no state |
| Downloader.DestinationLineSetsFileAndTitle | web_downloader/helpers/downloader.py:291-294 | a destination line sets the file to the destination and the title to its stem, without a callback |
| Downloader.DestinationLineExample | web_downloader/helpers/downloader.py:291-294 | `[download] Destination: foo bar.mp4` sets the file to `foo bar.mp4` and the title to `foo bar`, without a callback |
| Downloader.PercentLineExample | web_downloader/helpers/downloader.py:297-302 | `[download]  42.0% of 10MiB` makes one callback with 42 and the current title and changes no state |
| Downloader.MalformedPercentExample | web_downloader/helpers/downloader.py:297-304 | `[download]  oops% done` makes no callback and changes nothing |
| Downloader.StemExample | web_downloader/helpers/downloader.py:294 | `Path("foo bar.mp4").stem` is `foo bar` |
| Downloader.MergerAndExtractKeepTitle | web_downloader/helpers/downloader.py:307-315 | a merger line replaces the file only with a non-empty quoted name, and an extract-audio line always replaces it; neither changes the title or makes a callback |
| Downloader.TitleIsStemOfLastDestination | web_downloader/helpers/downloader.py:285-294 | the final title is the stem of the last destination, or empty when there is none |
| Downloader.FileIffAnnounced | web_downloader/helpers/downloader.py:284-315 | the parser holds a file exactly when some line set one |
| Downloader.Outcome | web_downloader/helpers/downloader.py:319-345 | the triple for a finished run, which `Resolve`, `FailureOutcomes`, `NotFoundExactly` and the three tier lemmas state |
| Downloader.ParserFileExists | web_downloader/helpers/downloader.py:321 | tier one, `current_file and Path(current_file).exists()`, whose precedence `ExistingParserFileWins` states |
| Downloader.Resolve | web_downloader/helpers/downloader.py:319-337 | after a zero exit: success exactly when a path is returned; every success carries the completed message; otherwise the not-found triple |
| Downloader.ReadProgress | web_downloader/helpers/downloader.py:284-315 | the line loop ends in the parser state of the fold and makes the fold's callbacks, or none without a callback |
| Downloader.ExecuteDownload | web_downloader/helpers/downloader.py:260-345 | the callbacks and the triple are those that the fold and the resolution give for the run |
| Downloader.DownloadVideo | web_downloader/helpers/downloader.py:162-184 | runs the video command for the quality, whose `-f` carries the mapped format and whose last argument is the URL, and returns the run's outcome |
| Downloader.DownloadAudio | web_downloader/helpers/downloader.py:186-220 | runs the mp3 command and returns the run's outcome |
| Downloader.FailureOutcomes | web_downloader/helpers/downloader.py:338-345 | a non-zero exit gives `(False, "Download failed", None)` and an exception gives `Download error: ` with its text; no failure carries a path |
| Downloader.ExistingParserFileWins | web_downloader/helpers/downloader.py:321-322 | tier one: an existing parser file wins over every listing |
| Downloader.NewestTitleMatchWins | web_downloader/helpers/downloader.py:325-330 | tier two: otherwise, given a title, a `title.*` entry with the greatest mtime is returned |
| Downloader.NewestEntryIsLastResort | web_downloader/helpers/downloader.py:332-335 | tier three: otherwise an entry of the whole directory with the greatest mtime is returned |
| Downloader.NotFoundExactly | web_downloader/helpers/downloader.py:319-337 | after a zero exit the file is not found exactly when the parser's file does not exist and the directory is empty |
| Models.Code | web_downloader/models.py:8-13 | the stored code of each status choice; `StatusCodes` states it is a bijection with the four choices |
| Models.StatusOf | web_downloader/models.py:8-13 | a stored code read as a status has that code |
| Models.StatusCodes | web_downloader/models.py:8-13 | codes and statuses correspond one to one, and the codes are exactly the four choices |
| Models.DefaultQualityIsAChoice | web_downloader/models.py:15-26 | the default quality `best` is the first quality choice |
| Models.NewDownloadDefaults | web_downloader/models.py:23-31 | a new record is pending at progress 0, with no title, file, error or completion time and quality `best` unless given; it keeps the caller's url, owner and format and shows as its url (`tests.py:99-108`) |
| Models.NewDownload | web_downloader/models.py:23-31 | a new record, as `NewDownloadDefaults` states |
| Models.Display | web_downloader/models.py:36-37 | `__str__`, as `DisplayParts` and `DisplayDeterminesStatus` state |
| Models.DisplayParts | web_downloader/models.py:36-37 | the display string is the title, or the url when the title is empty, then `" - "` and the status code |
| Models.TailsExclude | web_downloader/models.py:36-37 | no status's `" - code"` ending ends another's |
| Models.DisplayDeterminesStatus | web_downloader/models.py:36-37 | the status can be read back off the display string: records that display alike have the same status, whatever their titles and urls |
| Models.InsertByAge | web_downloader/models.py:33-34 | inserting into a newest-first list keeps it newest first and adds exactly the record |
| Models.SortNewestFirst | web_downloader/models.py:33-34 | the default order is newest first and a permutation of the rows |
| Store.Lookup | web_downloader/utils.py:28 | `objects.get(id=…)` finds a row with the id, and `None` exactly when there is none |
| Store.LookupFindsRow | web_downloader/utils.py:28 | with distinct ids, the lookup returns the very row with that id |
| Store.OwnedLookup | web_downloader/views.py:97 | `get(id=…, session_id=…)` finds a record exactly when the row with the id exists and belongs to the session |
| Store.Put | web_downloader/utils.py:30 | `save()` replaces the row with the id in place, or appends the record when there is none |
| Store.LookupAfterPut | web_downloader/utils.py:30 | after a save the record is what its id finds, every other id finds what it did, and ids stay distinct |
| Store.LookupAfterReplace | web_downloader/utils.py:78 | the same, when a row with the id already exists |
| Store.LookupAfterAppend | web_downloader/utils.py:30 | the same, when no row has the id |
| Store.PutTwice | web_downloader/utils.py:78-86 | saving two versions of one record is saving the second alone |
| Store.Without | web_downloader/views.py:173 | `delete()` keeps exactly the rows with other ids |
| Store.LookupAfterWithout | web_downloader/views.py:173 | after a delete the id is not found and every other id finds what it did |
| Store.WithoutKeepsDistinct | web_downloader/views.py:173 | deleting keeps the ids distinct |
| Store.OfSession | web_downloader/views.py:44 | `filter(session_id=…)` keeps exactly the session's rows |
| Store.DownloadTable.constructor | web_downloader/models.py:5 | an empty table whose first id is 1 |
| Store.DownloadTable.Insert | web_downloader/views.py:30-32 | a new record gets the next id and goes at the end, where its id finds it; ids stay distinct |
| Store.DownloadTable.Save | web_downloader/utils.py:30 | the rows become the save of the record, where its id finds it; ids stay distinct |
| Store.DownloadTable.Delete | web_downloader/views.py:173 | the rows lose the id and keep everything else; ids stay distinct |
| Worker.WorkerQualityFormats | web_downloader/utils.py:32-38 | the worker's own quality map, whose keys `WorkerQualityKeys` states |
| Worker.WorkerFormatFor | web_downloader/utils.py:32-40 | a known quality gets its own format string; any other quality gets the `best` string |
| Worker.WorkerQualityKeys | web_downloader/utils.py:32-38 | the worker's keys are the helper's keys and exactly the record's quality choices |
| Worker.WorkerCommandShape | web_downloader/utils.py:44-58 | `-f` precedes the format, `--merge-output-format` is `mp4` and `-o` precedes the template; the url is last and there is no `--no-playlist` |
| Worker.WorkerCommand | web_downloader/utils.py:44-58 | the worker's argv, as `WorkerCommandShape` states |
| Worker.WorkerStep | web_downloader/utils.py:70-88 | a destination line sets the title to its stem and saves; a parsed percentage sets the progress and saves, even when it equals the old progress; every other line, a malformed percentage included, changes and saves nothing; nothing but the title and progress ever changes |
| Worker.WorkerLoop | web_downloader/utils.py:69-88 | the line loop, as `LoopSavesEveryChange`, `LoopEndsWithLastTitleAndPercent` and `IgnoredLineChangesNothing` state |
| Worker.Finish | web_downloader/utils.py:90-117 | the final update, as `CompletedIffExitZero`, `FailureMessages`, `CompletedFilePath` and `FinishKeepsIdentity` state |
| Worker.WorkerSaves | web_downloader/utils.py:22-117 | every save of a run, as `StatusOnlyMovesForward` and `SavesKeepIdentity` state |
| Worker.LoopSavesEveryChange | web_downloader/utils.py:69-88 | the loop changes only title and progress; its record is always the last one saved, and every save is of the same record |
| Worker.LoopEndsWithLastTitleAndPercent | web_downloader/utils.py:69-88 | after the loop the title is the stem of the last destination and the progress is the last parsed percentage; without such lines they are unchanged |
| Worker.IgnoredLineChangesNothing | web_downloader/utils.py:81-88 | a malformed or unrecognised line changes nothing and saves nothing |
| Worker.StatusOnlyMovesForward | web_downloader/utils.py:29-106 | the saved statuses are downloading, downloading, …, then completed or failed; they move only forward and never return to pending |
| Worker.FinishKeepsIdentity | web_downloader/utils.py:92-117 | the final save keeps the record's id, url, owner, quality, format and creation time |
| Worker.LoopKeepsIdentity | web_downloader/utils.py:69-88 | every loop save keeps the record's identity |
| Worker.SavesKeepIdentity | web_downloader/utils.py:27-117 | every save of the run is a version of the same record |
| Worker.CompletedIffExitZero | web_downloader/utils.py:92-102 | the record ends completed exactly on a zero exit, with progress 100 and the completion time, and its error untouched |
| Worker.FailureMessages | web_downloader/utils.py:103-117 | a non-zero exit ends failed with "Download process failed" and an exception ends failed with its text; neither touches the path or the completion time |
| Worker.CompletedFilePath | web_downloader/utils.py:92-97 | on a zero exit the path is the first `title.*` entry when the title is non-empty and one exists, and otherwise is left as it was |
| Worker.CompletedWithoutFile | web_downloader/utils.py:94-101 | a run with no destination line completes with an empty path |
| Worker.ApplyLine | web_downloader/utils.py:70-88 | one loop pass updates the record as `WorkerStep` says and saves it |
| Worker.FinishRun | web_downloader/utils.py:90-117 | the final save is the completion, the failure or the exception's failure |
| Worker.RunLines | web_downloader/utils.py:69-88 | the loop's record, title and saves are those of the fold over the run's lines |
| Worker.DownloadVideoThread | web_downloader/utils.py:22-117 | nothing happens for a missing record; otherwise the argv is built from the record, the saves are those of the run, and the table ends holding the last save |
| Views.SessionAfter | web_downloader/views.py:16-20 | after the call the session has the key |
| Views.SessionIdAfter | web_downloader/views.py:20 | the id `get_or_create_session_id` returns, which `SessionIdIsStable` states is kept once made |
| Views.SessionIdIsStable | web_downloader/views.py:16-20 | an id is made only when absent; a repeated call returns the same id and changes nothing; other keys are kept |
| Views.Session.constructor | web_downloader/views.py:16 | a session with the given contents |
| Views.Session.GetOrCreateSessionId | web_downloader/views.py:16-20 | the session gets the key only when it lacks one, and the id returned is the stored one |
| Views.GetProgress | web_downloader/views.py:92-111 | a payload exactly when the session owns the record with the id; otherwise `Download not found` |
| Views.FileAvailable | web_downloader/views.py:104 | `bool(file_path and status == 'completed')`, which `FileAvailableMatchesGuard` states is exactly the guard of `views.py:142` |
| Views.PayloadOf | web_downloader/views.py:98-108 | the progress payload, as `ProgressShowsOnlyOwnRecord` and `FileAvailableMatchesGuard` state |
| Views.ProgressShowsOnlyOwnRecord | web_downloader/views.py:97-108 | a payload is of the session's own record with the id, shows its title or `Processing...` and never an empty title, and `file_available` means a non-empty path and a completed status |
| Views.OtherSessionsGetNotFound | web_downloader/views.py:97-111 | a missing id and another session's record get the same 404 (`tests.py:162-167`) |
| Views.ContentType | web_downloader/views.py:150 | `audio/mpeg` exactly for `mp3`, otherwise `video/mp4` |
| Views.DownloadFile | web_downloader/views.py:135-154 | the download answer, as `ServedExactlyWhenAvailable` states |
| Views.ServedExactlyWhenAvailable | web_downloader/views.py:136-154 | a file is served exactly when the session owns a completed record with a non-empty path that exists, under its last path component and the matching type; a missing or foreign record is a 404; otherwise the record is "not available" exactly when the guard fails |
| Views.FileAvailableMatchesGuard | web_downloader/views.py:104 | the payload's `file_available` is exactly the download guard of lines 142-143 |
| Views.GetProgressView | web_downloader/views.py:92-111 | the session id is got or made, then the progress answer for it |
| Views.DownloadFileView | web_downloader/views.py:135-154 | the session id is got or made, then the guarded answer for it |
| Views.AfterDelete | web_downloader/views.py:162-173 | the rows left by `delete_download`, as `DeleteRemovesOnlyOwnRecord` states |
| Views.DeleteRemovesOnlyOwnRecord | web_downloader/views.py:162-173 | deleting the session's own record leaves no record with the id; nothing else is removed or changed, and another session's record is never removed |
| Views.DeleteDownload | web_downloader/views.py:157-180 | only the session's own record is deleted, and its file is unlinked when it has a path that exists; otherwise the answer is 404 |
| Views.SubmitDownload | web_downloader/views.py:27-34 | the new record is owned by the session's id and saved, and the session can then look it up; the form binds only `url` and `quality` (`forms.py:10`), so the `formatType` parameter stands for the field's default |
| Views.Take | web_downloader/views.py:44 | `[:n]` keeps the first `n` rows, or all of them when there are fewer |
| Views.RecentDownloads | web_downloader/views.py:44 | the recent list, as `RecentDownloadsAreNewestOwn` states |
| Views.RecentDownloadsAreNewestOwn | web_downloader/views.py:44 | at most 20 records, all the session's and newest first; all of them when the session has at most 20, and none left out is newer than one shown |
| Views.TakeOfSorted | web_downloader/views.py:44 | the first `n` rows of a newest-first ordering are newest first, all of them when there are at most `n`, and no older than any row left out |
| Views.Index | web_downloader/views.py:23-51 | the page shows the session's recent downloads and the first eight characters of its id |

## Left out

- Subprocesses: the tool is not run. A run is its printed lines followed by the exit status or the text of the exception that stopped it. The `TimeoutExpired` branch of `_execute_download` is out, and it cannot fire there anyway, because no timeout is passed. The 60-second timeout of `get_video_info` is out.
- `get_video_info`: only its argument vector is modelled. Decoding the JSON and its field defaults are out.
- File system: directory creation, temporary directories, `glob`, `stat`, `iterdir`, `exists`, `unlink` and `cleanup` are out. The directory is a listing of `(name, mtime)` entries and existence is a set of paths. The `YouTubeDownloader` constructor (`downloader.py:46-57`) and `get_download_dir` are out. Paths are joined with `/` and not normalised.
- Text.BaseName: pathlib normalises a path before taking its name, so `Path("a/b/").name` is `b` and `Path("a/.").name` is `a`, but the model gives the raw text after the last `/` (`""` and `"."`). The model does not cover paths that end in `/` or in a `.` component.
- Glob patterns: a title holding `*`, `?` or `[` would act as a glob pattern in the source; the model matches it literally.
- Threading: `start_download` only starts a daemon thread, and concurrency is out. Two effects of this are not modelled: a record deleted while its worker runs, and polling readers that see stale progress. A save of a record whose row is gone inserts it again (`Store.Put`), as Django's `save()` does.
- Framework: the ORM, HTTP responses and status codes, templates, flash messages, redirects, request methods, `urls.py` and `forms.py` (including form validation) are out. `get_object_or_404` is modelled as the `NoSuchDownload` and `DeleteNotFound` answers. `preview`, `get_video_info` (the view) and `error_page` are out: they only call the validated helpers and render.
- Logging is out.
- `format_view_count` is out, since it uses floating-point division and `.1f` rounding.
- ToolOutput.PercentOf: a token is read only as a plain decimal numeral truncated to its integer part. Python's `float` also accepts `inf`, `nan`, exponents and underscores; the model reads these as `None`. `int(float("inf"))` raises `OverflowError`, which escapes the source's inner `except`; that is not modelled.
- Numerals.TruncatedDecimal: Python's `float` rounds a numeral to the nearest double before `int` truncates, so `int(float("99.99999999999999999"))` is 100 and `int(float("12345678901234567891"))` is 12345678901234567168. The model truncates the exact numeral instead (99 and 12345678901234567891), since it has no floating point. It also reads only ASCII digits, while `float` accepts any Unicode decimal digit (`"٤٢"` is 42.0); the model reads such tokens as `None`. The progress values the tool prints are short ASCII numerals, where the two agree.
- Progress callback exceptions: the callback runs inside the `try` of `downloader.py:299-304`, so a callback that raises `ValueError` or `IndexError` is swallowed and the loop goes on, and any other exception ends the run as `Download error: …`. In the model a callback is a recorded event and cannot raise.
- Character classes: `\w` and `re.IGNORECASE` are modelled over ASCII only.
- Session: the fresh `uuid4` value is a parameter.
- Worker exceptions: an exception is modelled as arriving after the run's lines. The worker's final bare `except`, which swallows a failure to save the failure, is out.
- Models.SortNewestFirst: records with equal creation times stay in table order. The database may return such ties in any order, so this is one of the orders it may produce.
- Models.NewDownload: `thumbnail` and `duration` take the empty string and 0, since `models.py` does not declare them.
- Times are abstract integers, and a clock reading is a parameter.
- The `mp3` rule that `tests.py:84-93` expects of the form is in no modelled file, so it is out.
