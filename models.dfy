/**
  The `VideoDownload` record: its status and quality choice sets, the
  defaults a new record takes, its display string and the table's default
  order, newest first.
 */
module Models {

  import opened Wrappers
  import opened Text

  /** The four status choices; no other status is ever written. */
  datatype Status = Pending | Downloading | Completed | Failed

  /** The stored code of each status. */
  function Code(s: Status): string
  {
    match s
    case Pending => "pending"
    case Downloading => "downloading"
    case Completed => "completed"
    case Failed => "failed"
  }

  /** The status a stored code stands for, if it is one of the choices. */
  function StatusOf(code: string): (r: Option<Status>)
    ensures r.Some? ==> Code(r.value) == code
  {
    if code == "pending" then Some(Pending)
    else if code == "downloading" then Some(Downloading)
    else if code == "completed" then Some(Completed)
    else if code == "failed" then Some(Failed)
    else None
  }

  const StatusChoices := ["pending", "downloading", "completed", "failed"]
  const QualityChoices := ["best", "1080p", "720p", "480p", "worst"]
  const DefaultQuality := "best"

  /** Codes and statuses correspond one to one, and the codes are exactly the status choices. */
  lemma StatusCodes(s: Status, code: string)
    ensures StatusOf(Code(s)) == Some(s)
    ensures StatusOf(code).Some? <==> code in StatusChoices
    ensures Code(s) in StatusChoices
  {
  }

  /** The default quality is one of the quality choices. */
  lemma DefaultQualityIsAChoice()
    ensures DefaultQuality in QualityChoices && DefaultQuality == QualityChoices[0]
  {
  }

  /**
    One row. `sessionId`, `formatType`, `thumbnail` and `duration` are the
    fields the views and the tests read beside those the record class
    declares; times are abstract instants.
   */
  datatype VideoDownload = VideoDownload(
    id: nat,
    sessionId: string,
    url: string,
    title: string,
    status: Status,
    quality: string,
    formatType: string,
    progress: int,
    filePath: string,
    errorMessage: string,
    thumbnail: string,
    duration: int,
    createdAt: int,
    completedAt: Option<int>)

  /**
    A record as created from the fields the caller supplies; a missing
    quality takes the default, every other field takes its declared default
    and the creation time is `now`.
   */
  function NewDownload(id: nat, sessionId: string, url: string, quality: Option<string>, formatType: string, now: int): VideoDownload
  {
    VideoDownload(id, sessionId, url, "", Pending, if quality.Some? then quality.value else DefaultQuality,
                  formatType, 0, "", "", "", 0, now, None)
  }

  /** `f"{title or url} - {status}"` */
  function Display(d: VideoDownload): string
  {
    (if d.title != "" then d.title else d.url) + " - " + Code(d.status)
  }

  /**
    A new record is pending at progress 0, with no title, file or error and
    no completion time; it keeps the url, session and format the caller gave;
    it shows as its url.
   */
  lemma NewDownloadDefaults(id: nat, sessionId: string, url: string, quality: Option<string>, formatType: string, now: int)
    ensures var d := NewDownload(id, sessionId, url, quality, formatType, now);
      && d.status == Pending && d.progress == 0
      && d.title == "" && d.filePath == "" && d.errorMessage == "" && d.completedAt == None
      && d.id == id && d.sessionId == sessionId && d.url == url && d.formatType == formatType && d.createdAt == now
      && (quality == None ==> d.quality == DefaultQuality)
      && (quality.Some? ==> d.quality == quality.value)
      && Display(d) == url + " - pending"
  {
  }

  /**
    The display string starts with the title, or the url when the title is
    empty, and ends with the status code after `" - "`.
   */
  lemma DisplayParts(d: VideoDownload)
    ensures var name := if d.title != "" then d.title else d.url;
      var tail := Tail(d.status);
      && |name| + |tail| == |Display(d)|
      && Display(d)[..|name|] == name
      && Display(d)[|name|..] == tail
  {
    var name := if d.title != "" then d.title else d.url;
    assert Display(d) == name + Tail(d.status);
    ConcatParts(name, Tail(d.status));
  }

  /** A string that ends with `a` has `a`'s characters at the same distances from its end. */
  lemma SuffixChar(s: string, a: string, k: nat)
    requires |a| <= |s| && s[|s| - |a|..] == a && 1 <= k <= |a|
    ensures s[|s| - k] == a[|a| - k]
  {
    assert s[|s| - |a|..][|a| - k] == s[|s| - k];
  }

  /** `" - "` and the status code: how a display string ends. */
  function Tail(s: Status): string
  {
    " - " + Code(s)
  }

  /** The last and the fifth-from-last character of each tail; they differ from status to status. */
  function TailMarks(s: Status): (char, char)
  {
    match s
    case Pending => ('g', 'n')
    case Downloading => ('g', 'a')
    case Completed => ('d', 'l')
    case Failed => ('d', 'a')
  }

  lemma TailHasMarks(s: Status)
    ensures |Tail(s)| >= 5 && (Tail(s)[|Tail(s)| - 1], Tail(s)[|Tail(s)| - 5]) == TailMarks(s)
  {
    match s
    case Pending =>
    case Downloading =>
    case Completed =>
    case Failed =>
  }

  /** Two strings that both end a third agree on their last and fifth-from-last characters. */
  lemma CommonEnd(s: string, a: string, b: string)
    requires 5 <= |a| <= |s| && s[|s| - |a|..] == a
    requires 5 <= |b| <= |s| && s[|s| - |b|..] == b
    ensures a[|a| - 1] == b[|b| - 1] && a[|a| - 5] == b[|b| - 5]
  {
    SuffixChar(s, a, 1);
    SuffixChar(s, b, 1);
    SuffixChar(s, a, 5);
    SuffixChar(s, b, 5);
  }

  /** Each status has its own marks. */
  lemma MarksDiffer(x: Status, y: Status)
    requires TailMarks(x) == TailMarks(y)
    ensures x == y
  {
  }

  /** No status's tail ends another's, so a string ends with at most one of them. */
  lemma TailsExclude(s: string, x: Status, y: Status)
    requires |Tail(x)| <= |s| && s[|s| - |Tail(x)|..] == Tail(x)
    requires |Tail(y)| <= |s| && s[|s| - |Tail(y)|..] == Tail(y)
    ensures x == y
  {
    TailHasMarks(x);
    TailHasMarks(y);
    CommonEnd(s, Tail(x), Tail(y));
    MarksDiffer(x, y);
  }

  /** The display string tells the status. */
  lemma DisplayDeterminesStatus(d: VideoDownload, e: VideoDownload)
    requires Display(d) == Display(e)
    ensures d.status == e.status
  {
    DisplayParts(d);
    DisplayParts(e);
    var s := Display(d);
    assert s[|s| - |Tail(d.status)|..] == Tail(d.status);
    assert s[|s| - |Tail(e.status)|..] == Tail(e.status);
    TailsExclude(s, d.status, e.status);
  }

  /** The table's default order: newest creation time first. */
  predicate NewestFirst(rows: seq<VideoDownload>)
  {
    forall i, j :: 0 <= i < j < |rows| ==> rows[i].createdAt >= rows[j].createdAt
  }

  /** `d` goes before the first row that is older than it, after every row at least as new. */
  function InsertByAge(d: VideoDownload, rows: seq<VideoDownload>): (r: seq<VideoDownload>)
    requires NewestFirst(rows)
    ensures |r| == |rows| + 1
    ensures multiset(r) == multiset(rows) + multiset{d}
    ensures NewestFirst(r)
    decreases |rows|
  {
    if rows == [] then [d]
    else if rows[0].createdAt < d.createdAt then [d] + rows
    else
      var rest := InsertByAge(d, rows[1..]);
      assert rows == [rows[0]] + rows[1..];
      RowsNoNewerThan(rows, rows[0].createdAt);
      NoNewerAfterInsert(d, rows[1..], rest, rows[0].createdAt);
      [rows[0]] + rest
  }

  /** In the default order, rows after the first are no newer than it. */
  lemma RowsNoNewerThan(rows: seq<VideoDownload>, t: int)
    requires NewestFirst(rows) && rows != [] && rows[0].createdAt == t
    ensures forall x :: x in rows[1..] ==> x.createdAt <= t
  {
    forall x | x in rows[1..] ensures x.createdAt <= t {
      var j :| 0 <= j < |rows[1..]| && rows[1..][j] == x;
      assert rows[j + 1] == x;
    }
  }

  /** Inserting a row no newer than `t` among rows no newer than `t` leaves every row no newer than `t`. */
  lemma NoNewerAfterInsert(d: VideoDownload, rows: seq<VideoDownload>, r: seq<VideoDownload>, t: int)
    requires d.createdAt <= t && forall x :: x in rows ==> x.createdAt <= t
    requires multiset(r) == multiset(rows) + multiset{d}
    ensures forall j :: 0 <= j < |r| ==> r[j].createdAt <= t
  {
    forall j | 0 <= j < |r| ensures r[j].createdAt <= t {
      assert r[j] in multiset(r);
    }
  }

  /**
    The rows in the default order. Rows with equal creation times keep their
    table order, which is one of the orders the database may return.
   */
  function SortNewestFirst(rows: seq<VideoDownload>): (r: seq<VideoDownload>)
    ensures NewestFirst(r)
    ensures multiset(r) == multiset(rows)
    ensures |r| == |rows|
    decreases |rows|
  {
    if rows == [] then []
    else
      var init := rows[..|rows| - 1];
      assert rows == init + [rows[|rows| - 1]];
      InsertByAge(rows[|rows| - 1], SortNewestFirst(init))
  }
}
