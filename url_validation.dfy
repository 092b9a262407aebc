/**
  `YouTubeDownloader.validate_url` and `extract_video_id`: the URL pattern as
  an explicit prefix-and-character-class predicate, the order in which the
  validator reports problems, and the leftmost-marker search for a video id.
 */
module UrlValidation {

  import opened Wrappers
  import opened Text

  /** The longest URL the validator accepts (after stripping). */
  const MaxUrlLength := 500

  const EmptyUrlError := "URL cannot be empty"
  const BadFormatError := "Invalid YouTube URL format"
  const TooLongError := "URL is too long"

  /** The alternatives of `(https?://)?`, `(www\.)?` and the host-and-path group of the pattern. */
  const Schemes: seq<string> := ["", "http://", "https://"]
  const Hosts: seq<string> := ["", "www."]
  const Paths: seq<string> := [
    "youtube.com/watch?v=", "youtube.com/embed/", "youtube.com/v/", "youtube.com/shorts/",
    "youtu.be/", "youtube.com/playlist?list="
  ]

  /** ASCII case folding, which is all `re.IGNORECASE` is asked to do here. */
  function Lower(c: char): char
  {
    if 'A' <= c <= 'Z' then (c as int + 32) as char else c
  }

  /** `s` starts with `p`, letters compared without regard to case. */
  predicate CaselessPrefix(s: string, p: string)
  {
    |p| <= |s| && forall k :: 0 <= k < |p| ==> Lower(s[k]) == Lower(p[k])
  }

  /** The class `[\w\-&=]` over ASCII: letters, digits, `_`, `-`, `&` and `=`. */
  predicate IsUrlChar(c: char)
  {
    ('a' <= c <= 'z') || ('A' <= c <= 'Z') || ('0' <= c <= '9') || c == '_' || c == '-' || c == '&' || c == '='
  }

  /** `s` starts with the literal prefix `p` followed by at least one character of the class. */
  predicate Opens(s: string, p: string)
  {
    |p| < |s| && CaselessPrefix(s, p) && IsUrlChar(s[|p|])
  }

  /**
    `YOUTUBE_URL_PATTERN.match(s)`: some choice of scheme, `www.` and
    host-and-path alternative, followed by one or more class characters.
    Since the match is anchored only at the start, anything may follow the
    first class character.
   */
  predicate MatchesYoutubePattern(s: string)
  {
    exists scheme, host, path :: scheme in Schemes && host in Hosts && path in Paths && Opens(s, scheme + host + path)
  }

  /** The pair `validate_url` returns. */
  datatype Validation = Validation(valid: bool, error: string)

  /**
    `validate_url`: emptiness is checked on the raw input, then the pattern
    on the stripped input, then the stripped length.
   */
  function ValidateUrl(url: string): (r: Validation)
    ensures r.valid <==> url != "" && MatchesYoutubePattern(Strip(url)) && |Strip(url)| <= MaxUrlLength
    ensures r.valid <==> r.error == ""
    ensures r.error in {"", EmptyUrlError, BadFormatError, TooLongError}
  {
    if url == "" then Validation(false, EmptyUrlError)
    else
      var u := Strip(url);
      if !MatchesYoutubePattern(u) then Validation(false, BadFormatError)
      else if |u| > MaxUrlLength then Validation(false, TooLongError)
      else Validation(true, "")
  }

  /** Each failure is reported for exactly its own reason, in the validator's order. */
  lemma ValidationOrder(url: string)
    ensures ValidateUrl(url).error == EmptyUrlError <==> url == ""
    ensures ValidateUrl(url).error == BadFormatError <==> url != "" && !MatchesYoutubePattern(Strip(url))
    ensures ValidateUrl(url).error == TooLongError <==> url != "" && MatchesYoutubePattern(Strip(url)) && |Strip(url)| > MaxUrlLength
  {
  }

  /** Every alternative of the pattern begins with `h`, `w` or `y`. */
  lemma AlternativesStartWithHostLetter(scheme: string, host: string, path: string)
    requires scheme in Schemes && host in Hosts && path in Paths
    ensures |scheme + host + path| > 0 && (scheme + host + path)[0] in "hwy"
  {
  }

  /** A URL the pattern matches starts with `h`, `w` or `y` in either case. */
  lemma MatchStartsWithHostLetter(s: string)
    requires MatchesYoutubePattern(s)
    ensures |s| > 0 && Lower(s[0]) in "hwy"
  {
    var scheme, host, path :| scheme in Schemes && host in Hosts && path in Paths && Opens(s, scheme + host + path);
    AlternativesStartWithHostLetter(scheme, host, path);
    assert Lower(s[0]) == Lower((scheme + host + path)[0]);
  }

  /** Whitespace-only input is not "empty": it fails on the pattern, since only the raw input is checked for emptiness. */
  lemma BlankUrlIsBadFormat(url: string)
    requires url != "" && Strip(url) == ""
    ensures ValidateUrl(url) == Validation(false, BadFormatError)
  {
  }

  /** An over-long string that does not match is reported as a bad format, not as too long. */
  lemma FormatCheckedBeforeLength(url: string)
    requires url != "" && !MatchesYoutubePattern(Strip(url)) && |Strip(url)| > MaxUrlLength
    ensures ValidateUrl(url).error == BadFormatError
  {
  }

  /** Any alternative followed by a tail that starts with a class character matches. */
  lemma AlternativeMatches(scheme: string, host: string, path: string, tail: string)
    requires scheme in Schemes && host in Hosts && path in Paths
    requires |tail| > 0 && IsUrlChar(tail[0])
    ensures MatchesYoutubePattern(scheme + host + path + tail)
    ensures !IsSpace((scheme + host + path + tail)[0])
  {
    var p := scheme + host + path;
    var s := p + tail;
    assert s[|p|] == tail[0];
    assert forall k :: 0 <= k < |p| ==> s[k] == p[k];
    assert Opens(s, p);
    AlternativesStartWithHostLetter(scheme, host, path);
    assert s[0] == p[0];
  }

  /** A string the pattern matches, with no surrounding space and within the limit, is valid. */
  lemma UnpaddedMatchIsValid(u: string)
    requires MatchesYoutubePattern(u) && !IsSpace(u[0]) && !IsSpace(u[|u| - 1]) && |u| <= MaxUrlLength
    ensures ValidateUrl(u).valid
  {
    StripUnpadded(u);
  }

  /**
    Any alternative followed by a tail that starts with a class character
    and ends with a non-space is a valid URL, provided the whole stays within
    the length limit.
   */
  lemma AlternativeIsValid(scheme: string, host: string, path: string, tail: string)
    requires scheme in Schemes && host in Hosts && path in Paths
    requires |tail| > 0 && IsUrlChar(tail[0]) && !IsSpace(tail[|tail| - 1])
    requires |scheme + host + path + tail| <= MaxUrlLength
    ensures ValidateUrl(scheme + host + path + tail).valid
  {
    AlternativeMatches(scheme, host, path, tail);
    var u := scheme + host + path + tail;
    assert u[|u| - 1] == tail[|tail| - 1];
    UnpaddedMatchIsValid(u);
  }

  /**
    Input whose stripped form does not start with `h`, `w` or `y` (either
    case) is rejected as a bad format, as for `"not a url"` in the
    validator's tests.
   */
  lemma WrongFirstLetterIsBadFormat(url: string)
    requires url != "" && (Strip(url) == "" || Lower(Strip(url)[0]) !in "hwy")
    ensures ValidateUrl(url) == Validation(false, BadFormatError)
  {
    if MatchesYoutubePattern(Strip(url)) {
      MatchStartsWithHostLetter(Strip(url));
    }
  }

  /** `[a-zA-Z0-9_-]` */
  predicate IsIdChar(c: char)
  {
    ('a' <= c <= 'z') || ('A' <= c <= 'Z') || ('0' <= c <= '9') || c == '_' || c == '-'
  }

  predicate AllIdChars(s: string)
  {
    forall k :: 0 <= k < |s| ==> IsIdChar(s[k])
  }

  const IdLength := 11

  /** The markers of `(?:v=|/v/|youtu\.be/|embed/|shorts/)`, in the order the alternation tries them. */
  const Markers: seq<string> := ["v=", "/v/", "youtu.be/", "embed/", "shorts/"]

  /** `marker` starts at `p` in `s` and eleven id characters follow it. */
  predicate IdAfterMarkerAt(s: string, p: nat, marker: string)
  {
    OccursAt(s, marker, p) && p + |marker| + IdLength <= |s| && AllIdChars(s[p + |marker|..p + |marker| + IdLength])
  }

  /** No marker of `markers` is followed by an id at position `p`. */
  predicate NoIdAt(s: string, p: nat, markers: seq<string>)
  {
    forall k :: 0 <= k < |markers| ==> !IdAfterMarkerAt(s, p, markers[k])
  }

  /** The id that the first of `markers` to succeed at position `p` captures. */
  function IdAt(s: string, p: nat, markers: seq<string>): (r: Option<string>)
    ensures r.None? <==> NoIdAt(s, p, markers)
    ensures r.Some? ==> exists k :: (0 <= k < |markers| && IdAfterMarkerAt(s, p, markers[k]) &&
      r.value == s[p + |markers[k]|..p + |markers[k]| + IdLength])
  {
    if markers == [] then None
    else if IdAfterMarkerAt(s, p, markers[0]) then Some(s[p + |markers[0]|..p + |markers[0]| + IdLength])
    else
      var r := IdAt(s, p, markers[1..]);
      assert forall k :: 1 <= k < |markers| ==> markers[k] == markers[1..][k - 1];
      r
  }

  /** The first position from `from` on where some marker captures an id. */
  function FirstCapture(s: string, from: nat, markers: seq<string>): (r: Option<nat>)
    ensures r.None? <==> forall p :: from <= p <= |s| ==> NoIdAt(s, p, markers)
    ensures r.Some? ==> from <= r.value <= |s| && !NoIdAt(s, r.value, markers)
    ensures r.Some? ==> forall q :: from <= q < r.value ==> NoIdAt(s, q, markers)
    decreases |s| - from
  {
    if from > |s| then None
    else if !NoIdAt(s, from, markers) then Some(from)
    else FirstCapture(s, from + 1, markers)
  }

  /** `re.search` for a marker alternation followed by an id: the capture at the leftmost match. */
  function Search(url: string, markers: seq<string>): Option<string>
  {
    match FirstCapture(url, 0, markers)
    case None => None
    case Some(p) => IdAt(url, p, markers)
  }

  /** `extract_video_id` */
  function ExtractVideoId(url: string): Option<string>
  {
    Search(url, Markers)
  }

  /** The search finds nothing exactly when no marker is anywhere followed by eleven id characters. */
  lemma SearchNone(url: string, markers: seq<string>)
    ensures Search(url, markers).None? <==>
      forall p, k :: 0 <= p <= |url| && 0 <= k < |markers| ==> !IdAfterMarkerAt(url, p, markers[k])
  {
    if FirstCapture(url, 0, markers).None? {
      forall p, k | 0 <= p <= |url| && 0 <= k < |markers| ensures !IdAfterMarkerAt(url, p, markers[k]) {
        assert NoIdAt(url, p, markers);
      }
    }
  }

  /** No position before `p` has a marker followed by an id. */
  predicate NoIdBefore(url: string, p: nat, markers: seq<string>)
  {
    forall q, j :: 0 <= q < p && 0 <= j < |markers| ==> !IdAfterMarkerAt(url, q, markers[j])
  }

  /**
    A found id is eleven id characters right after a marker, at a position
    before which no marker is followed by an id.
   */
  lemma SearchSome(url: string, markers: seq<string>)
    requires Search(url, markers).Some?
    ensures |Search(url, markers).value| == IdLength && AllIdChars(Search(url, markers).value)
    ensures exists p: nat, k :: (p <= |url| && 0 <= k < |markers| &&
      OccursAt(url, markers[k] + Search(url, markers).value, p) && NoIdBefore(url, p, markers))
  {
    var p := FirstCapture(url, 0, markers).value;
    var id := Search(url, markers).value;
    var k :| 0 <= k < |markers| && IdAfterMarkerAt(url, p, markers[k]) &&
      id == url[p + |markers[k]|..p + |markers[k]| + IdLength];
    var m := markers[k];
    assert OccursAt(url, id, p + |m|);
    OccursAdjacent(url, m, id, p);
    forall q, j | 0 <= q < p && 0 <= j < |markers| ensures !IdAfterMarkerAt(url, q, markers[j]) {
      assert NoIdAt(url, q, markers);
    }
    assert NoIdBefore(url, p, markers);
  }

  /** `extract_video_id` is that search over its five markers. */
  lemma ExtractedIdShape(url: string)
    ensures ExtractVideoId(url).None? <==>
      forall p, k :: 0 <= p <= |url| && 0 <= k < |Markers| ==> !IdAfterMarkerAt(url, p, Markers[k])
    ensures ExtractVideoId(url).Some? ==>
      var id := ExtractVideoId(url).value;
      |id| == IdLength && AllIdChars(id) &&
      exists p: nat, k :: p <= |url| && 0 <= k < |Markers| &&
        OccursAt(url, Markers[k] + id, p) && NoIdBefore(url, p, Markers)
  {
    SearchNone(url, Markers);
    if ExtractVideoId(url).Some? {
      SearchSome(url, Markers);
    }
  }
}
