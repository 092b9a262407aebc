/**
  The owner-scoped views: the per-browser session id, the progress payload,
  the file download guard and content type, the owner-scoped delete, the
  submission of a new download and the recent list on the index page.
  Responses are values; the table and the session are the state they change.
 */
module Views {

  import opened Wrappers
  import opened Text
  import opened Models
  import opened Store
  import opened Duration

  const SessionKey := "downloader_session_id"
  const NotFoundError := "Download not found"
  const ProcessingTitle := "Processing..."
  const NotAvailableReason := "File not available"
  const NotOnDiskReason := "File not found on disk"
  const RecentLimit := 20

  /** The session after `get_or_create_session_id`: the key is added with `newId` only when it is absent. */
  function SessionAfter(data: map<string, string>, newId: string): (r: map<string, string>)
    ensures SessionKey in r
  {
    if SessionKey in data then data else data[SessionKey := newId]
  }

  /** The id `get_or_create_session_id` returns. */
  function SessionIdAfter(data: map<string, string>, newId: string): string
  {
    SessionAfter(data, newId)[SessionKey]
  }

  /**
    The session id is made once: a session that has one keeps it and returns
    it, and calling again returns the same id and changes nothing, whatever
    new id would have been offered.
   */
  lemma SessionIdIsStable(data: map<string, string>, first: string, second: string)
    ensures SessionKey in data ==> SessionAfter(data, first) == data && SessionIdAfter(data, first) == data[SessionKey]
    ensures SessionKey !in data ==> SessionIdAfter(data, first) == first
    ensures SessionAfter(SessionAfter(data, first), second) == SessionAfter(data, first)
    ensures SessionIdAfter(SessionAfter(data, first), second) == SessionIdAfter(data, first)
    ensures forall k :: k in data && k != SessionKey ==> k in SessionAfter(data, first) && SessionAfter(data, first)[k] == data[k]
  {
  }

  /** `request.session`; the fresh uuid is a parameter. */
  class Session {
    var data: map<string, string>

    constructor (initial: map<string, string>)
      ensures data == initial
    {
      data := initial;
    }

    /** `get_or_create_session_id` */
    method GetOrCreateSessionId(newId: string) returns (id: string)
      modifies this
      ensures data == SessionAfter(old(data), newId)
      ensures id == SessionIdAfter(old(data), newId) && id == data[SessionKey]
    {
      if SessionKey !in data {
        data := data[SessionKey := newId];
      }
      id := data[SessionKey];
    }
  }

  /** The progress endpoint's JSON payload. */
  datatype ProgressPayload = ProgressPayload(
    id: nat, title: string, status: string, progress: int, errorMessage: string,
    fileAvailable: bool, thumbnail: string, duration: string, formatType: string)

  /** The progress endpoint's answer: the payload, or 404 with an error. */
  datatype ProgressReply = Progress(payload: ProgressPayload) | NotFound(error: string)

  /** `bool(download.file_path and download.status == 'completed')` */
  predicate FileAvailable(d: VideoDownload)
  {
    d.filePath != "" && d.status == Completed
  }

  function PayloadOf(d: VideoDownload): ProgressPayload
  {
    ProgressPayload(d.id, if d.title != "" then d.title else ProcessingTitle, Code(d.status), d.progress,
                    d.errorMessage, FileAvailable(d), d.thumbnail, FormatDuration(d.duration), d.formatType)
  }

  /** `get_progress` for a session id: only the session's own record with that id is shown. */
  function GetProgress(rows: seq<VideoDownload>, id: nat, sessionId: string): (r: ProgressReply)
    ensures r.Progress? <==> OwnedLookup(rows, id, sessionId).Some?
    ensures r.NotFound? ==> r.error == NotFoundError
  {
    match OwnedLookup(rows, id, sessionId)
    case None => NotFound(NotFoundError)
    case Some(d) => Progress(PayloadOf(d))
  }

  /**
    A payload is only ever of a row with the asked id that the session owns;
    it shows the title or "Processing..." (never an empty title), the status
    code, and the duration as the clock string.
   */
  lemma ProgressShowsOnlyOwnRecord(rows: seq<VideoDownload>, id: nat, sessionId: string)
    requires GetProgress(rows, id, sessionId).Progress?
    ensures exists d :: (d in rows && d.id == id && d.sessionId == sessionId &&
      var p := GetProgress(rows, id, sessionId).payload;
      && p.id == id
      && p.title == (if d.title != "" then d.title else ProcessingTitle) && p.title != ""
      && p.status == Code(d.status) && p.progress == d.progress
      && p.fileAvailable == FileAvailable(d)
      && p.duration == FormatDuration(d.duration))
  {
    var d := OwnedLookup(rows, id, sessionId).value;
    assert d in rows;
  }

  /** Another session never sees a record: asking for it is answered exactly as for a missing id. */
  lemma OtherSessionsGetNotFound(rows: seq<VideoDownload>, id: nat, sessionId: string)
    requires Lookup(rows, id).None? || Lookup(rows, id).value.sessionId != sessionId
    ensures GetProgress(rows, id, sessionId) == NotFound(NotFoundError)
  {
  }

  /** The download endpoint's answer: the file with its type and name, or one of the 404s. */
  datatype FileReply =
    | Serve(path: string, contentType: string, fileName: string)
    | NoSuchDownload
    | FileNotAvailable
    | FileNotOnDisk

  /** The 404 reason the download endpoint gives, where it has its own. */
  function Reason(r: FileReply): Option<string>
  {
    match r
    case FileNotAvailable => Some(NotAvailableReason)
    case FileNotOnDisk => Some(NotOnDiskReason)
    case _ => None
  }

  /** `'audio/mpeg' if download.format_type == 'mp3' else 'video/mp4'` */
  function ContentType(formatType: string): (r: string)
    ensures r == "audio/mpeg" <==> formatType == "mp3"
    ensures r == "audio/mpeg" || r == "video/mp4"
  {
    if formatType == "mp3" then "audio/mpeg" else "video/mp4"
  }

  /** `download_file` for a session id, with the set of paths that exist on disk. */
  function DownloadFile(rows: seq<VideoDownload>, id: nat, sessionId: string, existing: set<string>): FileReply
  {
    match OwnedLookup(rows, id, sessionId)
    case None => NoSuchDownload
    case Some(d) =>
      if !FileAvailable(d) then FileNotAvailable
      else if d.filePath !in existing then FileNotOnDisk
      else Serve(d.filePath, ContentType(d.formatType), BaseName(d.filePath))
  }

  /**
    A file is served exactly when the session owns the record, the record is
    completed with a non-empty path, and that path exists; what is served is
    that path, under its last component, with the type its format calls for.
   */
  lemma ServedExactlyWhenAvailable(rows: seq<VideoDownload>, id: nat, sessionId: string, existing: set<string>)
    ensures var r := DownloadFile(rows, id, sessionId, existing);
      var found := OwnedLookup(rows, id, sessionId);
      && (r.Serve? <==> found.Some? && FileAvailable(found.value) && found.value.filePath in existing)
      && (r.Serve? ==> r.path == found.value.filePath && r.contentType == ContentType(found.value.formatType)
                       && r.fileName == BaseName(found.value.filePath))
      && (r == NoSuchDownload <==> found.None?)
      && (r == FileNotAvailable <==> found.Some? && !FileAvailable(found.value))
  {
  }

  /**
    The progress payload's `file_available` is the download guard: when it
    is true the guard lets the request through to the disk check, and when it
    is false the answer is "File not available".
   */
  lemma FileAvailableMatchesGuard(rows: seq<VideoDownload>, id: nat, sessionId: string, existing: set<string>)
    requires GetProgress(rows, id, sessionId).Progress?
    ensures var available := GetProgress(rows, id, sessionId).payload.fileAvailable;
      var r := DownloadFile(rows, id, sessionId, existing);
      && (available <==> r.Serve? || r == FileNotOnDisk)
      && (!available <==> Reason(r) == Some(NotAvailableReason))
  {
  }

  /** `get_progress`: the session id is got or made, then the payload for it. */
  method GetProgressView(session: Session, table: DownloadTable, id: nat, newId: string) returns (reply: ProgressReply)
    modifies session
    ensures session.data == SessionAfter(old(session.data), newId)
    ensures reply == GetProgress(table.rows, id, SessionIdAfter(old(session.data), newId))
  {
    var sessionId := session.GetOrCreateSessionId(newId);
    reply := GetProgress(table.rows, id, sessionId);
  }

  /** `download_file`: the session id is got or made, then the guarded answer for it. */
  method DownloadFileView(session: Session, table: DownloadTable, id: nat, newId: string, existing: set<string>) returns (reply: FileReply)
    modifies session
    ensures session.data == SessionAfter(old(session.data), newId)
    ensures reply == DownloadFile(table.rows, id, SessionIdAfter(old(session.data), newId), existing)
  {
    var sessionId := session.GetOrCreateSessionId(newId);
    reply := DownloadFile(table.rows, id, sessionId, existing);
  }

  /** The rows left after `delete_download` for a session: the record goes only when the session owns it. */
  function AfterDelete(rows: seq<VideoDownload>, id: nat, sessionId: string): seq<VideoDownload>
  {
    if OwnedLookup(rows, id, sessionId).Some? then Without(rows, id) else rows
  }

  /**
    A delete removes the session's own record with the id, so afterwards no
    record with that id is found; it never removes another session's record,
    and every other record stays as it was.
   */
  lemma DeleteRemovesOnlyOwnRecord(rows: seq<VideoDownload>, id: nat, sessionId: string)
    requires IdsDistinct(rows)
    ensures OwnedLookup(rows, id, sessionId).Some? ==> Lookup(AfterDelete(rows, id, sessionId), id).None?
    ensures OwnedLookup(rows, id, sessionId).None? ==> AfterDelete(rows, id, sessionId) == rows
    ensures forall k :: k != id ==> Lookup(AfterDelete(rows, id, sessionId), k) == Lookup(rows, k)
    ensures forall x :: x in rows && (x.id != id || x.sessionId != sessionId) ==> x in AfterDelete(rows, id, sessionId)
  {
    forall k | k != id ensures Lookup(AfterDelete(rows, id, sessionId), k) == Lookup(rows, k) {
      LookupAfterWithout(rows, id, k);
    }
    LookupAfterWithout(rows, id, id);
  }

  /** The answer of `delete_download`: deleted, with the file it unlinks if any, or 404. */
  datatype DeleteReply = Deleted(unlinked: Option<string>) | DeleteNotFound

  /**
    `delete_download`: only the session's own record is deleted; its file is
    unlinked when it has a path that exists.
   */
  method DeleteDownload(session: Session, table: DownloadTable, id: nat, newId: string, existing: set<string>)
    returns (reply: DeleteReply)
    requires table.Valid()
    modifies session, table
    ensures session.data == SessionAfter(old(session.data), newId)
    ensures table.Valid() && table.nextId == old(table.nextId)
    ensures table.rows == AfterDelete(old(table.rows), id, SessionIdAfter(old(session.data), newId))
    ensures var found := OwnedLookup(old(table.rows), id, SessionIdAfter(old(session.data), newId));
      reply == match found
        case None => DeleteNotFound
        case Some(d) => Deleted(if d.filePath != "" && d.filePath in existing then Some(d.filePath) else None)
  {
    var sessionId := session.GetOrCreateSessionId(newId);
    var found := OwnedLookup(table.rows, id, sessionId);
    if found.None? {
      return DeleteNotFound;
    }
    var download := found.value;
    var unlinked := None;
    if download.filePath != "" && download.filePath in existing {
      unlinked := Some(download.filePath);
    }
    table.Delete(id);
    reply := Deleted(unlinked);
  }

  /**
    The index page's POST with a valid form: the new record takes the
    session's id as its owner and is saved; the session can then look it up.
    The form binds only `url` and `quality`, so `formatType` stands for the
    field's default, whatever the request carries.
   */
  method SubmitDownload(session: Session, table: DownloadTable, newId: string,
                        url: string, quality: Option<string>, formatType: string, now: int)
    returns (id: nat)
    requires table.Valid()
    modifies session, table
    ensures session.data == SessionAfter(old(session.data), newId)
    ensures table.Valid() && id == old(table.nextId)
    ensures table.rows == old(table.rows) + [NewDownload(id, SessionIdAfter(old(session.data), newId), url, quality, formatType, now)]
    ensures OwnedLookup(table.rows, id, SessionIdAfter(old(session.data), newId)) ==
      Some(NewDownload(id, SessionIdAfter(old(session.data), newId), url, quality, formatType, now))
  {
    var sessionId := session.GetOrCreateSessionId(newId);
    var download := NewDownload(0, sessionId, url, quality, formatType, now);
    id := table.Insert(download);
  }

  function Take(rows: seq<VideoDownload>, n: nat): (r: seq<VideoDownload>)
    ensures |r| == if |rows| < n then |rows| else n
    ensures r == rows[..|r|]
  {
    if |rows| <= n then rows else rows[..n]
  }

  /** `VideoDownload.objects.filter(session_id=session_id)[:20]` in the default order. */
  function RecentDownloads(rows: seq<VideoDownload>, sessionId: string): seq<VideoDownload>
  {
    Take(SortNewestFirst(OfSession(rows, sessionId)), RecentLimit)
  }

  /**
    The recent list holds at most 20 records, all of them the session's,
    newest first; it holds all of the session's records when there are at
    most 20, and any of the session's records left out is no newer than every
    record shown.
   */
  lemma RecentDownloadsAreNewestOwn(rows: seq<VideoDownload>, sessionId: string)
    ensures var r := RecentDownloads(rows, sessionId);
      var own := OfSession(rows, sessionId);
      && |r| == (if |own| < RecentLimit then |own| else RecentLimit)
      && (forall x :: x in r ==> x in rows && x.sessionId == sessionId)
      && NewestFirst(r)
      && (|own| <= RecentLimit ==> multiset(r) == multiset(own))
      && (forall x, y :: x in own && x !in r && y in r ==> x.createdAt <= y.createdAt)
  {
    var own := OfSession(rows, sessionId);
    var sorted := SortNewestFirst(own);
    TakeOfSorted(own, sorted, RecentLimit);
  }

  /**
    The first `n` rows of an ordering of `own`, newest first: rows of `own`,
    still newest first, all of `own` when it has at most `n` rows, and no
    older than any row left out.
   */
  lemma TakeOfSorted(own: seq<VideoDownload>, sorted: seq<VideoDownload>, n: nat)
    requires multiset(sorted) == multiset(own) && NewestFirst(sorted)
    ensures var r := Take(sorted, n);
      && |r| == (if |own| < n then |own| else n)
      && (forall x :: x in r ==> x in own)
      && NewestFirst(r)
      && (|own| <= n ==> multiset(r) == multiset(own))
      && (forall x, y :: x in own && x !in r && y in r ==> x.createdAt <= y.createdAt)
  {
    var r := Take(sorted, n);
    assert |sorted| == |own| by {
      assert |multiset(sorted)| == |multiset(own)|;
    }
    forall x | x in r ensures x in own {
      assert x in multiset(sorted);
    }
    forall x, y | x in own && x !in r && y in r ensures x.createdAt <= y.createdAt {
      assert x in multiset(sorted);
      var j :| 0 <= j < |sorted| && sorted[j] == x;
      var i :| 0 <= i < |r| && r[i] == y;
      assert sorted[i] == y;
    }
  }

  /** The index page: the session's recent downloads and the first eight characters of its id. */
  method Index(session: Session, table: DownloadTable, newId: string) returns (downloads: seq<VideoDownload>, shownId: string)
    modifies session
    ensures session.data == SessionAfter(old(session.data), newId)
    ensures var sessionId := SessionIdAfter(old(session.data), newId);
      && downloads == RecentDownloads(table.rows, sessionId)
      && shownId == sessionId[..if |sessionId| < 8 then |sessionId| else 8]
  {
    var sessionId := session.GetOrCreateSessionId(newId);
    downloads := RecentDownloads(table.rows, sessionId);
    shownId := sessionId[..if |sessionId| < 8 then |sessionId| else 8];
  }
}
