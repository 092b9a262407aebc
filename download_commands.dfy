/**
  The argument vectors the downloader helper hands to the external tool, and
  the format-selection strings behind each quality key.
 */
module DownloadCommands {

  import opened Text

  /** The tool's format selector for a video capped at the given height, mp4 preferred. */
  function CappedFormat(height: string): string
  {
    "bestvideo[height<=" + height + "][ext=mp4]+bestaudio[ext=m4a]/best[height<=" + height + "][ext=mp4]/best[height<=" + height + "]"
  }

  /** Quality key to format selector. */
  const VideoQualityFormats: map<string, string> := map[
    "best" := "bestvideo[ext=mp4]+bestaudio[ext=m4a]/best[ext=mp4]/best",
    "1080p" := CappedFormat("1080"),
    "720p" := CappedFormat("720"),
    "480p" := CappedFormat("480"),
    "worst" := "worstvideo[ext=mp4]+worstaudio[ext=m4a]/worst[ext=mp4]/worst"
  ]

  /** The audio-only selector of `download_audio`. */
  const AudioFormat := "bestaudio[ext=m4a]/bestaudio/best"

  /** The quality `download_video` uses by default and falls back to. */
  const DefaultVideoQuality := "720p"

  const ShortUserAgent := "Mozilla/5.0 (Windows NT 10.0; Win64; x64) AppleWebKit/537.36"
  const BrowserUserAgent := "Mozilla/5.0 (Windows NT 10.0; Win64; x64) AppleWebKit/537.36 (KHTML, like Gecko) Chrome/120.0.0.0 Safari/537.36"
  const ExtractorArgs := "youtube:player_client=android,web"

  /** `VIDEO_QUALITY_FORMATS.get(quality, VIDEO_QUALITY_FORMATS['720p'])` */
  function VideoFormatFor(quality: string): (r: string)
    ensures quality in VideoQualityFormats ==> r == VideoQualityFormats[quality]
    ensures quality !in VideoQualityFormats ==> r == VideoQualityFormats[DefaultVideoQuality]
  {
    if quality in VideoQualityFormats then VideoQualityFormats[quality] else VideoQualityFormats[DefaultVideoQuality]
  }

  /** `str(output_dir / '%(title)s.%(ext)s')` */
  function OutputTemplate(outputDir: string): string
  {
    outputDir + "/%(title)s.%(ext)s"
  }

  /** The metadata-only invocation of `get_video_info`. */
  function InfoCommand(python: string, url: string): seq<string>
  {
    [python, "-m", "yt_dlp",
     "--dump-json",
     "--no-download",
     "--no-warnings",
     "--user-agent", ShortUserAgent,
     "--extractor-args", ExtractorArgs,
     url]
  }

  /** `_build_download_command` */
  function BuildDownloadCommand(python: string, url: string, formatString: string, outputTemplate: string, mergeFormat: string): seq<string>
  {
    [python, "-m", "yt_dlp",
     "-f", formatString,
     "--merge-output-format", mergeFormat,
     "-o", outputTemplate,
     "--newline",
     "--progress",
     "--restrict-filenames",
     "--user-agent", BrowserUserAgent,
     "--extractor-args", ExtractorArgs,
     "--no-check-certificate",
     "--no-playlist",
     url]
  }

  /** The command `download_video` runs for a quality key. */
  function VideoCommand(python: string, url: string, quality: string, outputDir: string): seq<string>
  {
    BuildDownloadCommand(python, url, VideoFormatFor(quality), OutputTemplate(outputDir), "mp4")
  }

  /** The command `download_audio` runs; it takes no quality at all. */
  function AudioCommand(python: string, url: string, outputDir: string): seq<string>
  {
    [python, "-m", "yt_dlp",
     "-f", AudioFormat,
     "-x",
     "--audio-format", "mp3",
     "--audio-quality", "0",
     "-o", OutputTemplate(outputDir),
     "--newline",
     "--progress",
     "--restrict-filenames",
     "--user-agent", ShortUserAgent,
     "--extractor-args", ExtractorArgs,
     "--no-check-certificate",
     "--no-playlist",
     url]
  }

  /** Somewhere in `cmd`, `flag` is immediately followed by `value`. */
  predicate FlagValue(cmd: seq<string>, flag: string, value: string)
  {
    exists i :: 0 <= i < |cmd| - 1 && cmd[i] == flag && cmd[i + 1] == value
  }

  /** The quality keys are exactly the five the record's quality choices offer. */
  lemma QualityKeys()
    ensures VideoQualityFormats.Keys == {"best", "1080p", "720p", "480p", "worst"}
  {
  }

  /** A capped selector names its height ceiling. */
  lemma CappedFormatNamesCeiling(height: string)
    ensures Contains(CappedFormat(height), "height<=" + height)
  {
    var rest := "][ext=mp4]+bestaudio[ext=m4a]/best[height<=" + height + "][ext=mp4]/best[height<=" + height + "]";
    assert CappedFormat(height) == "bestvideo[" + ("height<=" + height) + rest;
    OccursSpliced("bestvideo[", "height<=" + height, rest);
  }

  /** The three capped keys name their exact height ceiling. */
  lemma HeightCeilings()
    ensures Contains(VideoFormatFor("1080p"), "height<=1080")
    ensures Contains(VideoFormatFor("720p"), "height<=720")
    ensures Contains(VideoFormatFor("480p"), "height<=480")
  {
    CappedFormatNamesCeiling("1080");
    CappedFormatNamesCeiling("720");
    CappedFormatNamesCeiling("480");
    assert VideoFormatFor("1080p") == CappedFormat("1080");
    assert VideoFormatFor("720p") == CappedFormat("720");
    assert VideoFormatFor("480p") == CappedFormat("480");
    assert "height<=" + "1080" == "height<=1080";
    assert "height<=" + "720" == "height<=720";
    assert "height<=" + "480" == "height<=480";
  }

  /**
    The video command selects the format with `-f`, names the container with
    `--merge-output-format` and the output with `-o`, refuses playlists, and
    ends with the URL.
   */
  lemma VideoCommandShape(python: string, url: string, quality: string, outputDir: string)
    ensures var cmd := VideoCommand(python, url, quality, outputDir);
      && FlagValue(cmd, "-f", VideoFormatFor(quality))
      && FlagValue(cmd, "--merge-output-format", "mp4")
      && FlagValue(cmd, "-o", OutputTemplate(outputDir))
      && "--no-playlist" in cmd
      && Last(cmd) == url
  {
    var cmd := VideoCommand(python, url, quality, outputDir);
    assert cmd[3] == "-f" && cmd[4] == VideoFormatFor(quality);
    assert cmd[5] == "--merge-output-format" && cmd[6] == "mp4";
    assert cmd[7] == "-o" && cmd[8] == OutputTemplate(outputDir);
    assert cmd[17] == "--no-playlist";
  }

  /**
    The audio command always asks for the audio-only format, extracts it to
    mp3 at the best audio quality, refuses playlists and ends with the URL.
   */
  lemma AudioCommandShape(python: string, url: string, outputDir: string)
    ensures var cmd := AudioCommand(python, url, outputDir);
      && FlagValue(cmd, "-f", AudioFormat)
      && "-x" in cmd
      && FlagValue(cmd, "--audio-format", "mp3")
      && FlagValue(cmd, "--audio-quality", "0")
      && FlagValue(cmd, "-o", OutputTemplate(outputDir))
      && "--no-playlist" in cmd
      && Last(cmd) == url
  {
    var cmd := AudioCommand(python, url, outputDir);
    assert cmd[3] == "-f" && cmd[4] == AudioFormat;
    assert cmd[5] == "-x";
    assert cmd[6] == "--audio-format" && cmd[7] == "mp3";
    assert cmd[8] == "--audio-quality" && cmd[9] == "0";
    assert cmd[10] == "-o" && cmd[11] == OutputTemplate(outputDir);
    assert cmd[20] == "--no-playlist";
  }

  /** The metadata command dumps JSON without downloading and ends with the URL. */
  lemma InfoCommandShape(python: string, url: string)
    ensures var cmd := InfoCommand(python, url);
      "--dump-json" in cmd && "--no-download" in cmd && Last(cmd) == url
  {
    var cmd := InfoCommand(python, url);
    assert cmd[3] == "--dump-json" && cmd[4] == "--no-download";
  }
}
