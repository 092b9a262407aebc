/**
  The database table of download records, in the order rows were inserted.
  The queries the views and the worker make (by id, by id and owner, by
  owner) are functions of the rows; inserting, saving and deleting are
  methods of the table.
 */
module Store {

  import opened Wrappers
  import opened Models

  /** No two rows share an id: the primary key. */
  predicate IdsDistinct(rows: seq<VideoDownload>)
  {
    forall i, j :: 0 <= i < j < |rows| ==> rows[i].id != rows[j].id
  }

  /** Some row has this id. */
  predicate HasId(rows: seq<VideoDownload>, id: nat)
  {
    exists i :: 0 <= i < |rows| && rows[i].id == id
  }

  /** `VideoDownload.objects.get(id=id)`, with `None` for `DoesNotExist`. */
  function Lookup(rows: seq<VideoDownload>, id: nat): (r: Option<VideoDownload>)
    ensures r.None? <==> !HasId(rows, id)
    ensures r.Some? ==> r.value in rows && r.value.id == id
  {
    if rows == [] then None
    else if rows[0].id == id then Some(rows[0])
    else
      var r := Lookup(rows[1..], id);
      assert forall i :: 0 <= i < |rows| - 1 ==> rows[1..][i] == rows[i + 1];
      assert HasId(rows, id) ==> HasId(rows[1..], id) by {
        if HasId(rows, id) {
          var i :| 0 <= i < |rows| && rows[i].id == id;
          assert rows[1..][i - 1].id == id;
        }
      }
      r
  }

  /** With distinct ids, a row with the id is the one the lookup returns. */
  lemma LookupFindsRow(rows: seq<VideoDownload>, i: nat)
    requires IdsDistinct(rows) && i < |rows|
    ensures Lookup(rows, rows[i].id) == Some(rows[i])
  {
    if i > 0 && rows[0].id != rows[i].id {
      assert rows[1..][i - 1] == rows[i];
      assert IdsDistinct(rows[1..]) by {
        forall a, b | 0 <= a < b < |rows| - 1 ensures rows[1..][a].id != rows[1..][b].id {
          assert rows[1..][a] == rows[a + 1] && rows[1..][b] == rows[b + 1];
        }
      }
      LookupFindsRow(rows[1..], i - 1);
    }
  }

  /**
    `VideoDownload.objects.get(id=id, session_id=sessionId)`: found only when
    the row with the id exists and belongs to the session.
   */
  function OwnedLookup(rows: seq<VideoDownload>, id: nat, sessionId: string): (r: Option<VideoDownload>)
    ensures r.Some? <==> Lookup(rows, id).Some? && Lookup(rows, id).value.sessionId == sessionId
    ensures r.Some? ==> r == Lookup(rows, id) && r.value.id == id && r.value.sessionId == sessionId
  {
    match Lookup(rows, id)
    case None => None
    case Some(d) => if d.sessionId == sessionId then Some(d) else None
  }

  /**
    `save()` of a record with its id: the row with that id is replaced in
    place; when there is none, the record is inserted at the end.
   */
  function Put(rows: seq<VideoDownload>, d: VideoDownload): (r: seq<VideoDownload>)
    ensures HasId(rows, d.id) ==> |r| == |rows|
    ensures HasId(rows, d.id) ==> forall i :: 0 <= i < |rows| ==> r[i] == if rows[i].id == d.id then d else rows[i]
    ensures !HasId(rows, d.id) ==> r == rows + [d]
  {
    if HasId(rows, d.id) then seq(|rows|, i requires 0 <= i < |rows| => if rows[i].id == d.id then d else rows[i])
    else rows + [d]
  }

  /** `delete()`: every row with the id goes; the rest keep their order. */
  function Without(rows: seq<VideoDownload>, id: nat): (r: seq<VideoDownload>)
    ensures forall x :: x in r <==> x in rows && x.id != id
    ensures |r| <= |rows|
  {
    if rows == [] then []
    else if rows[0].id == id then Without(rows[1..], id)
    else [rows[0]] + Without(rows[1..], id)
  }

  /** `VideoDownload.objects.filter(session_id=sessionId)` before ordering: the session's rows in table order. */
  function OfSession(rows: seq<VideoDownload>, sessionId: string): (r: seq<VideoDownload>)
    ensures forall x :: x in r <==> x in rows && x.sessionId == sessionId
    ensures |r| <= |rows|
  {
    if rows == [] then []
    else if rows[0].sessionId == sessionId then [rows[0]] + OfSession(rows[1..], sessionId)
    else OfSession(rows[1..], sessionId)
  }

  /** After a save, the saved record is what a lookup of its id finds, and every other lookup is as before. */
  lemma LookupAfterPut(rows: seq<VideoDownload>, d: VideoDownload, id: nat)
    requires IdsDistinct(rows)
    ensures IdsDistinct(Put(rows, d))
    ensures Lookup(Put(rows, d), id) == if id == d.id then Some(d) else Lookup(rows, id)
  {
    if HasId(rows, d.id) {
      LookupAfterReplace(rows, d, id);
    } else {
      LookupAfterAppend(rows, d, id);
    }
  }

  /** Two tables with the same ids, row by row. */
  predicate SameIds(rows: seq<VideoDownload>, r: seq<VideoDownload>)
  {
    |r| == |rows| && forall i :: 0 <= i < |r| ==> r[i].id == rows[i].id
  }

  /** Tables with the same ids row by row have the same keys. */
  lemma SameIdsKeys(rows: seq<VideoDownload>, r: seq<VideoDownload>, id: nat)
    requires SameIds(rows, r)
    ensures IdsDistinct(rows) ==> IdsDistinct(r)
    ensures HasId(r, id) <==> HasId(rows, id)
  {
    if HasId(r, id) {
      var j :| 0 <= j < |r| && r[j].id == id;
      assert rows[j].id == id;
    }
    if HasId(rows, id) {
      var j :| 0 <= j < |rows| && rows[j].id == id;
      assert r[j].id == id;
    }
  }

  /** Saving over an existing row. */
  lemma LookupAfterReplace(rows: seq<VideoDownload>, d: VideoDownload, id: nat)
    requires IdsDistinct(rows) && HasId(rows, d.id)
    ensures IdsDistinct(Put(rows, d))
    ensures Lookup(Put(rows, d), id) == if id == d.id then Some(d) else Lookup(rows, id)
  {
    var r := Put(rows, d);
    assert SameIds(rows, r);
    SameIdsKeys(rows, r, id);
    if id == d.id {
      var k :| 0 <= k < |rows| && rows[k].id == d.id;
      assert r[k] == d;
      LookupFindsRow(r, k);
    } else if HasId(rows, id) {
      var j :| 0 <= j < |rows| && rows[j].id == id;
      assert r[j] == rows[j];
      LookupFindsRow(r, j);
      LookupFindsRow(rows, j);
    }
  }

  /** Saving a record whose id no row has. */
  lemma LookupAfterAppend(rows: seq<VideoDownload>, d: VideoDownload, id: nat)
    requires IdsDistinct(rows) && !HasId(rows, d.id)
    ensures IdsDistinct(Put(rows, d))
    ensures Lookup(Put(rows, d), id) == if id == d.id then Some(d) else Lookup(rows, id)
  {
    var r := Put(rows, d);
    assert IdsDistinct(r) by {
      forall i | 0 <= i < |rows| ensures r[i].id != d.id {
        assert r[i] == rows[i];
      }
    }
    assert r[|rows|] == d;
    LookupFindsRow(r, |rows|);
    if id != d.id && HasId(rows, id) {
      var j :| 0 <= j < |rows| && rows[j].id == id;
      assert r[j] == rows[j];
      LookupFindsRow(r, j);
      LookupFindsRow(rows, j);
    }
  }

  /** Saving two versions of one record leaves the table as saving the second alone. */
  lemma PutTwice(rows: seq<VideoDownload>, a: VideoDownload, b: VideoDownload)
    requires a.id == b.id
    ensures Put(Put(rows, a), b) == Put(rows, b)
  {
    var once := Put(rows, a);
    if !HasId(rows, a.id) {
      assert once[|rows|].id == b.id;
      assert HasId(once, b.id);
    }
  }

  /** Without the rows of an id, that id is not found and every other id is found as before. */
  lemma LookupAfterWithout(rows: seq<VideoDownload>, id: nat, k: nat)
    requires IdsDistinct(rows)
    ensures Lookup(Without(rows, id), k) == if k == id then None else Lookup(rows, k)
  {
    var r := Without(rows, id);
    if k != id && HasId(rows, k) {
      var j :| 0 <= j < |rows| && rows[j].id == k;
      assert rows[j] in rows;
      LookupFindsRow(rows, j);
      var x := Lookup(r, k).value;
      assert x in rows;
      var i :| 0 <= i < |rows| && rows[i] == x;
      assert i == j;
    }
  }

  /** The rows after the first of a keyed table are keyed too, and none has the first one's id. */
  lemma TailDistinct(rows: seq<VideoDownload>)
    requires IdsDistinct(rows) && rows != []
    ensures IdsDistinct(rows[1..])
    ensures forall x :: x in rows[1..] ==> x.id != rows[0].id
  {
    var tail := rows[1..];
    forall a, b | 0 <= a < b < |tail| ensures tail[a].id != tail[b].id {
      assert tail[a] == rows[a + 1] && tail[b] == rows[b + 1];
    }
    forall x | x in tail ensures x.id != rows[0].id {
      var j :| 0 <= j < |tail| && tail[j] == x;
      assert rows[j + 1] == x;
    }
  }

  /** A row whose id no other row has can go in front of a keyed table. */
  lemma ConsDistinct(x: VideoDownload, w: seq<VideoDownload>)
    requires IdsDistinct(w) && forall y :: y in w ==> y.id != x.id
    ensures IdsDistinct([x] + w)
  {
    var r := [x] + w;
    forall a, b | 0 <= a < b < |r| ensures r[a].id != r[b].id {
      assert r[b] == w[b - 1];
      if a > 0 {
        assert r[a] == w[a - 1];
      } else {
        assert w[b - 1] in w;
      }
    }
  }

  /** Removing rows keeps the ids distinct. */
  lemma {:induction false} WithoutKeepsDistinct(rows: seq<VideoDownload>, id: nat)
    requires IdsDistinct(rows)
    ensures IdsDistinct(Without(rows, id))
    decreases |rows|
  {
    if rows != [] {
      TailDistinct(rows);
      WithoutKeepsDistinct(rows[1..], id);
      if rows[0].id != id {
        ConsDistinct(rows[0], Without(rows[1..], id));
      }
    }
  }

  /**
    The table itself. Ids are handed out from `nextId` upwards, so every row's
    id is below it.
   */
  class DownloadTable {
    var rows: seq<VideoDownload>
    var nextId: nat

    ghost predicate Valid()
      reads this
    {
      IdsDistinct(rows) && forall i :: 0 <= i < |rows| ==> rows[i].id < nextId
    }

    /** An empty table; the first id handed out is 1. */
    constructor ()
      ensures Valid() && rows == [] && nextId == 1
    {
      rows := [];
      nextId := 1;
    }

    /** Inserting a new record: it gets the next id and goes at the end. */
    method Insert(d: VideoDownload) returns (id: nat)
      requires Valid()
      modifies this
      ensures Valid()
      ensures id == old(nextId) && nextId == id + 1
      ensures rows == old(rows) + [d.(id := id)]
      ensures Lookup(rows, id) == Some(d.(id := id))
    {
      id := nextId;
      rows := rows + [d.(id := id)];
      nextId := nextId + 1;
      LookupFindsRow(rows, |rows| - 1);
    }

    /** Saving a record: the row with its id now holds it. */
    method Save(d: VideoDownload)
      requires Valid()
      modifies this
      ensures Valid()
      ensures rows == Put(old(rows), d)
      ensures nextId == if d.id < old(nextId) then old(nextId) else d.id + 1
      ensures Lookup(rows, d.id) == Some(d)
    {
      LookupAfterPut(rows, d, d.id);
      ghost var was := rows;
      rows := Put(rows, d);
      if nextId <= d.id {
        nextId := d.id + 1;
      }
      assert forall i :: 0 <= i < |rows| ==> rows[i].id < nextId by {
        forall i | 0 <= i < |rows| ensures rows[i].id < nextId {
          if HasId(was, d.id) {
            assert rows[i].id == was[i].id;
          } else if i < |was| {
            assert rows[i] == was[i];
          }
        }
      }
    }

    /** Deleting the record with an id. */
    method Delete(id: nat)
      requires Valid()
      modifies this
      ensures Valid()
      ensures rows == Without(old(rows), id) && nextId == old(nextId)
      ensures forall k :: Lookup(rows, k) == if k == id then None else Lookup(old(rows), k)
    {
      forall k ensures Lookup(Without(rows, id), k) == if k == id then None else Lookup(rows, k) {
        LookupAfterWithout(rows, id, k);
      }
      WithoutKeepsDistinct(rows, id);
      ghost var was := rows;
      rows := Without(rows, id);
      forall i | 0 <= i < |rows| ensures rows[i].id < nextId {
        assert rows[i] in was;
      }
    }
  }
}
