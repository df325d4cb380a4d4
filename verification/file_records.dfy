/** The MySQL document store's read-side folding and its two DELETE results
    (src/repositories/file_and_meta.py). The SQL itself is abstracted: a query
    is an oracle that yields the rows of a `files LEFT JOIN ... LEFT JOIN tags`
    result, and the model folds those rows into one record per file. */
module FileRecords {
  import opened Base
  import Strings

  /** One entry of a record's `tags` list: `{"tag": ..., "tagged_at": ...}`. */
  datatype TagEntry = TagEntry(tag: string, taggedAt: Option<int>)

  /** One row of a LEFT JOIN result. The columns that describe the file
      itself are kept together in `head`, whose shape differs between the
      queries that select the blob and the one that does not. A row of a file
      without tags has a NULL `tag`. */
  datatype Row<H> = Row(fileId: int, head: H, tag: Option<string>, taggedAt: Option<int>)

  /** File columns of `get_file` and `get_files_with_tags` (blob included;
      the blob is NULL when the file has no blob row). */
  datatype FileHead = FileHead(filename: string, fileSize: int, uploadTime: int, blob: Option<Bytes>)

  /** File columns of `get_filtered_files_meta_with_tags`: no blob. */
  datatype MetaHead = MetaHead(filename: string, fileSize: int, uploadTime: int)

  /** One file as returned to callers: its id, the file columns of its first
      row, and the tags of its rows. */
  datatype Record<H> = Record(fileId: int, head: H, tags: seq<TagEntry>)

  /** Python's `if r["tag"]:`: the tag is neither NULL nor empty. */
  predicate HasTag<H>(r: Row<H>) {
    r.tag.Some? && r.tag.value != ""
  }

  function EntryOf<H>(r: Row<H>): TagEntry
    requires HasTag(r)
  {
    TagEntry(r.tag.value, r.taggedAt)
  }

  /** Some row of `rows` belongs to file `id`. */
  predicate HasId<H>(rows: seq<Row<H>>, id: int) {
    exists k | 0 <= k < |rows| :: rows[k].fileId == id
  }

  /** The position of the first row of file `id`. */
  function FirstIndex<H>(rows: seq<Row<H>>, id: int): (k: nat)
    requires HasId(rows, id)
    ensures k < |rows| && rows[k].fileId == id
    ensures forall j | 0 <= j < k :: rows[j].fileId != id
  {
    if rows[0].fileId == id then 0
    else
      assert HasId(rows[1..], id) by {
        var k :| 0 <= k < |rows| && rows[k].fileId == id;
        assert rows[1..][k - 1] == rows[k];
      }
      1 + FirstIndex(rows[1..], id)
  }

  /** The distinct file ids of `rows`, each listed once, in order of first
      appearance (reference definition). */
  function FileIds<H>(rows: seq<Row<H>>): (ids: seq<int>)
    ensures forall i, j | 0 <= i < j < |ids| :: ids[i] != ids[j]
    ensures forall id :: id in ids <==> HasId(rows, id)
  {
    if rows == [] then []
    else
      var init := rows[..|rows| - 1];
      var ids := FileIds(init);
      assert forall id :: HasId(rows, id) <==> HasId(init, id) || rows[|rows| - 1].fileId == id by {
        forall id ensures HasId(rows, id) <==> HasId(init, id) || rows[|rows| - 1].fileId == id {
          if HasId(init, id) {
            var k :| 0 <= k < |init| && init[k].fileId == id;
            assert rows[k] == init[k];
          }
          if HasId(rows, id) && rows[|rows| - 1].fileId != id {
            var k :| 0 <= k < |rows| && rows[k].fileId == id;
            assert init[k] == rows[k];
          }
        }
      }
      if rows[|rows| - 1].fileId in ids then ids else ids + [rows[|rows| - 1].fileId]
  }

  /** The tag entries of file `id`, in row order, from the rows that carry a
      tag (reference definition). */
  function TagsOf<H>(rows: seq<Row<H>>, id: int): seq<TagEntry> {
    if rows == [] then []
    else
      (if rows[0].fileId == id && HasTag(rows[0]) then [EntryOf(rows[0])] else [])
      + TagsOf(rows[1..], id)
  }

  /** The tag entries of every row, whatever its file id. */
  function AllTags<H>(rows: seq<Row<H>>): seq<TagEntry> {
    if rows == [] then []
    else (if HasTag(rows[0]) then [EntryOf(rows[0])] else []) + AllTags(rows[1..])
  }

  /** The position of the record of file `id` in `records`, if there is one. */
  function Find<H>(records: seq<Record<H>>, id: int): (r: Option<nat>)
    ensures r.Some? ==> r.value < |records| && records[r.value].fileId == id
    ensures r.None? ==> forall i | 0 <= i < |records| :: records[i].fileId != id
  {
    if records == [] then None
    else if records[|records| - 1].fileId == id then Some(|records| - 1)
    else Find(records[..|records| - 1], id)
  }

  /** One iteration of the grouping loop: open a record for a new file id,
      then append the row's tag, if it has one, to that file's record. */
  function AddRow<H>(records: seq<Record<H>>, r: Row<H>): seq<Record<H>> {
    var tag := if HasTag(r) then [EntryOf(r)] else [];
    match Find(records, r.fileId)
    case None => records + [Record(r.fileId, r.head, tag)]
    case Some(i) => records[i := records[i].(tags := records[i].tags + tag)]
  }

  /** The `files_dict` loop shared by `get_files_with_tags` and
      `get_filtered_files_meta_with_tags`: one record per distinct file id in
      order of first appearance, carrying the file columns of that file's
      first row and, in row order, the tags of all its tagged rows. */
  function Group<H>(rows: seq<Row<H>>): (g: seq<Record<H>>)
    ensures |g| == |FileIds(rows)|
    ensures forall i | 0 <= i < |g| :: g[i].fileId == FileIds(rows)[i]
    ensures forall i | 0 <= i < |g| :: HasId(rows, g[i].fileId) && g[i].head == rows[FirstIndex(rows, g[i].fileId)].head
    ensures forall i | 0 <= i < |g| :: g[i].tags == TagsOf(rows, g[i].fileId)
  {
    if rows == [] then []
    else
      var init := rows[..|rows| - 1];
      var last := rows[|rows| - 1];
      var g0 := Group(init);
      assert rows == init + [last];
      GroupStep(init, last, g0);
      AddRow(g0, last)
  }

  /** Adding a tagless or tagged row to the end only touches its own file's tags. */
  lemma TagsOfSnoc<H>(rows: seq<Row<H>>, r: Row<H>, id: int)
    ensures TagsOf(rows + [r], id)
         == TagsOf(rows, id) + (if r.fileId == id && HasTag(r) then [EntryOf(r)] else [])
  {
    if rows != [] {
      assert (rows + [r])[1..] == rows[1..] + [r];
      TagsOfSnoc(rows[1..], r, id);
    }
  }

  /** The first row of a file is not moved by appending rows. */
  lemma FirstIndexSnoc<H>(rows: seq<Row<H>>, r: Row<H>, id: int)
    requires HasId(rows, id)
    ensures HasId(rows + [r], id)
    ensures FirstIndex(rows + [r], id) == FirstIndex(rows, id)
  {
    assert forall j | 0 <= j < |rows| :: (rows + [r])[j] == rows[j];
  }

  lemma GroupStep<H>(init: seq<Row<H>>, last: Row<H>, g0: seq<Record<H>>)
    requires |g0| == |FileIds(init)|
    requires forall i | 0 <= i < |g0| :: g0[i].fileId == FileIds(init)[i]
    requires forall i | 0 <= i < |g0| :: HasId(init, g0[i].fileId) && g0[i].head == init[FirstIndex(init, g0[i].fileId)].head
    requires forall i | 0 <= i < |g0| :: g0[i].tags == TagsOf(init, g0[i].fileId)
    ensures var rows := init + [last];
      var g := AddRow(g0, last);
      && |g| == |FileIds(rows)|
      && (forall i | 0 <= i < |g| :: g[i].fileId == FileIds(rows)[i])
      && (forall i | 0 <= i < |g| :: HasId(rows, g[i].fileId) && g[i].head == rows[FirstIndex(rows, g[i].fileId)].head)
      && (forall i | 0 <= i < |g| :: g[i].tags == TagsOf(rows, g[i].fileId))
  {
    var tag := if HasTag(last) then [EntryOf(last)] else [];
    match Find(g0, last.fileId)
    case None =>
      GroupStepNewFile(init, last, g0);
      GroupStepAppend(init, last, g0, g0 + [Record(last.fileId, last.head, tag)]);
    case Some(j) =>
      GroupStepExtend(init, last, g0, j, g0[j := g0[j].(tags := g0[j].tags + tag)]);
  }

  lemma GroupStepAppend<H>(init: seq<Row<H>>, last: Row<H>, g0: seq<Record<H>>, g: seq<Record<H>>)
    requires |g0| == |FileIds(init)|
    requires forall i | 0 <= i < |g0| :: g0[i].fileId == FileIds(init)[i]
    requires forall i | 0 <= i < |g0| :: HasId(init, g0[i].fileId) && g0[i].head == init[FirstIndex(init, g0[i].fileId)].head
    requires forall i | 0 <= i < |g0| :: g0[i].tags == TagsOf(init, g0[i].fileId)
    requires forall i | 0 <= i < |g0| :: g0[i].fileId != last.fileId
    requires g == g0 + [Record(last.fileId, last.head, if HasTag(last) then [EntryOf(last)] else [])]
    requires var rows := init + [last];
      && FileIds(rows) == FileIds(init) + [last.fileId]
      && HasId(rows, last.fileId)
      && FirstIndex(rows, last.fileId) == |init|
      && TagsOf(rows, last.fileId) == (if HasTag(last) then [EntryOf(last)] else [])
    ensures var rows := init + [last];
      && |g| == |FileIds(rows)|
      && (forall i | 0 <= i < |g| :: g[i].fileId == FileIds(rows)[i])
      && (forall i | 0 <= i < |g| :: HasId(rows, g[i].fileId) && g[i].head == rows[FirstIndex(rows, g[i].fileId)].head)
      && (forall i | 0 <= i < |g| :: g[i].tags == TagsOf(rows, g[i].fileId))
  {
    var rows := init + [last];
    forall i | 0 <= i < |g|
      ensures g[i].fileId == FileIds(rows)[i]
      ensures HasId(rows, g[i].fileId) && g[i].head == rows[FirstIndex(rows, g[i].fileId)].head
      ensures g[i].tags == TagsOf(rows, g[i].fileId)
    {
      if i < |g0| {
        assert g[i] == g0[i];
        SnocKeepsFile(init, last, g0[i].fileId);
      } else {
        assert rows[|init|] == last;
      }
    }
  }

  lemma GroupStepExtend<H>(init: seq<Row<H>>, last: Row<H>, g0: seq<Record<H>>, j: nat, g: seq<Record<H>>)
    requires |g0| == |FileIds(init)|
    requires forall i | 0 <= i < |g0| :: g0[i].fileId == FileIds(init)[i]
    requires forall i | 0 <= i < |g0| :: HasId(init, g0[i].fileId) && g0[i].head == init[FirstIndex(init, g0[i].fileId)].head
    requires forall i | 0 <= i < |g0| :: g0[i].tags == TagsOf(init, g0[i].fileId)
    requires j < |g0| && g0[j].fileId == last.fileId
    requires g == g0[j := g0[j].(tags := g0[j].tags + if HasTag(last) then [EntryOf(last)] else [])]
    ensures var rows := init + [last];
      && |g| == |FileIds(rows)|
      && (forall i | 0 <= i < |g| :: g[i].fileId == FileIds(rows)[i])
      && (forall i | 0 <= i < |g| :: HasId(rows, g[i].fileId) && g[i].head == rows[FirstIndex(rows, g[i].fileId)].head)
      && (forall i | 0 <= i < |g| :: g[i].tags == TagsOf(rows, g[i].fileId))
  {
    var rows := init + [last];
    assert rows[..|rows| - 1] == init;
    assert last.fileId in FileIds(init);
    assert FileIds(rows) == FileIds(init);
    forall i | 0 <= i < |g|
      ensures g[i].fileId == FileIds(rows)[i]
      ensures HasId(rows, g[i].fileId) && g[i].head == rows[FirstIndex(rows, g[i].fileId)].head
      ensures g[i].tags == TagsOf(rows, g[i].fileId)
    {
      SnocKeepsFile(init, last, g0[i].fileId);
      if i != j {
        assert g0[i].fileId != g0[j].fileId;
      }
    }
  }

  lemma SnocKeepsFile<H>(init: seq<Row<H>>, last: Row<H>, id: int)
    requires HasId(init, id)
    ensures HasId(init + [last], id)
    ensures (init + [last])[FirstIndex(init + [last], id)] == init[FirstIndex(init, id)]
    ensures TagsOf(init + [last], id)
         == TagsOf(init, id) + (if last.fileId == id && HasTag(last) then [EntryOf(last)] else [])
  {
    FirstIndexSnoc(init, last, id);
    TagsOfSnoc(init, last, id);
  }

  lemma GroupStepNewFile<H>(init: seq<Row<H>>, last: Row<H>, g0: seq<Record<H>>)
    requires |g0| == |FileIds(init)|
    requires forall i | 0 <= i < |g0| :: g0[i].fileId == FileIds(init)[i]
    requires forall i | 0 <= i < |g0| :: g0[i].fileId != last.fileId
    ensures var rows := init + [last];
      && last.fileId !in FileIds(init)
      && !HasId(init, last.fileId)
      && FileIds(rows) == FileIds(init) + [last.fileId]
      && HasId(rows, last.fileId)
      && FirstIndex(rows, last.fileId) == |init|
      && TagsOf(rows, last.fileId) == (if HasTag(last) then [EntryOf(last)] else [])
  {
    var rows := init + [last];
    assert rows[..|rows| - 1] == init;
    assert last.fileId !in FileIds(init);
    assert HasId(rows, last.fileId) by { assert rows[|rows| - 1] == last; }
    assert forall k | 0 <= k < |init| :: rows[k] == init[k];
    assert FirstIndex(rows, last.fileId) == |init|;
    TagsOfSnoc(init, last, last.fileId);
    TagsOfAbsent(init, last.fileId);
  }

  /** A file with no row has no tags. */
  lemma TagsOfAbsent<H>(rows: seq<Row<H>>, id: int)
    requires !HasId(rows, id)
    ensures TagsOf(rows, id) == []
  {
    if rows != [] {
      assert forall k | 0 <= k < |rows| - 1 :: rows[1..][k] == rows[k + 1];
      TagsOfAbsent(rows[1..], id);
    }
  }

  /** The ids of `FileIds` appear in the order of their first rows. */
  lemma {:induction false} FileIdsInFirstAppearanceOrder<H>(rows: seq<Row<H>>, i: nat, j: nat)
    requires i < j < |FileIds(rows)|
    ensures HasId(rows, FileIds(rows)[i]) && HasId(rows, FileIds(rows)[j])
    ensures FirstIndex(rows, FileIds(rows)[i]) < FirstIndex(rows, FileIds(rows)[j])
  {
    var ids := FileIds(rows);
    assert ids[i] in ids && ids[j] in ids;
    var init := rows[..|rows| - 1];
    var last := rows[|rows| - 1];
    assert rows == init + [last];
    var ids0 := FileIds(init);
    if j < |ids0| {
      assert ids[i] == ids0[i] && ids[j] == ids0[j];
      FileIdsInFirstAppearanceOrder(init, i, j);
      assert ids0[i] in ids0 && ids0[j] in ids0;
      FirstIndexSnoc(init, last, ids0[i]);
      FirstIndexSnoc(init, last, ids0[j]);
    } else {
      // the last row opened file ids[j]; every earlier row belongs to another file
      assert ids[j] == last.fileId && ids[j] !in ids0;
      assert ids[i] == ids0[i] && ids0[i] in ids0;
      FirstIndexSnoc(init, last, ids0[i]);
      assert !HasId(init, ids[j]);
      assert forall k | 0 <= k < |init| :: rows[k] == init[k];
      assert FirstIndex(rows, ids[j]) == |init|;
    }
  }

  /** `get_file`: no record for an empty result, otherwise one record whose
      file columns come from the first row and whose tags are those of every
      tagged row of the result. */
  function GetFile(rows: seq<Row<FileHead>>): (r: Option<Record<FileHead>>)
    ensures r.None? <==> rows == []
    ensures r.Some? ==> r.value.fileId == rows[0].fileId && r.value.head == rows[0].head
    ensures r.Some? ==> r.value.tags == AllTags(rows)
  {
    if rows == [] then None
    else Some(Record(rows[0].fileId, rows[0].head, AllTags(rows)))
  }

  /** On the rows of a single file (what `WHERE f.id = %s` returns), `get_file`
      and the grouping loop of `get_files_with_tags` build the same record. */
  lemma GetFileAgreesWithGroup(rows: seq<Row<FileHead>>)
    requires rows != []
    requires forall k | 0 <= k < |rows| :: rows[k].fileId == rows[0].fileId
    ensures |Group(rows)| == 1
    ensures GetFile(rows) == Some(Group(rows)[0])
  {
    var id := rows[0].fileId;
    FileIdsOfOneFile(rows, id);
    assert FirstIndex(rows, id) == 0;
    AllTagsOfOneFile(rows, id);
  }

  lemma FileIdsOfOneFile<H>(rows: seq<Row<H>>, id: int)
    requires rows != []
    requires forall k | 0 <= k < |rows| :: rows[k].fileId == id
    ensures FileIds(rows) == [id]
  {
    var init := rows[..|rows| - 1];
    if init != [] {
      FileIdsOfOneFile(init, id);
    }
  }

  lemma AllTagsOfOneFile<H>(rows: seq<Row<H>>, id: int)
    requires forall k | 0 <= k < |rows| :: rows[k].fileId == id
    ensures AllTags(rows) == TagsOf(rows, id)
  {
    if rows != [] {
      AllTagsOfOneFile(rows[1..], id);
    }
  }

  /** What a repository read returns, and whether it sent a query to MySQL. */
  datatype Fetched<T> = Fetched(value: Result<T, Exception>, queried: bool)

  /** `get_files_with_tags(file_ids)`: an empty id list yields `[]` without a
      query; otherwise the rows of the IN query are grouped, and an exception
      from the query propagates. */
  function GetFilesWithTags(ids: seq<int>, query: seq<int> -> Result<seq<Row<FileHead>>, Exception>)
    : (r: Fetched<seq<Record<FileHead>>>)
    ensures ids == [] ==> r == Fetched(Ok([]), false)
    ensures ids != [] ==> r.queried
    ensures ids != [] && query(ids).Err? ==> r.value == Err(query(ids).error)
    ensures ids != [] && query(ids).Ok? ==>
      var rows := query(ids).value;
      && r.value.Ok?
      && |r.value.value| == |FileIds(rows)|
      && forall i | 0 <= i < |r.value.value| ::
           && r.value.value[i].fileId == FileIds(rows)[i]
           && r.value.value[i].head == rows[FirstIndex(rows, r.value.value[i].fileId)].head
           && r.value.value[i].tags == TagsOf(rows, FileIds(rows)[i])
  {
    if ids == [] then Fetched(Ok([]), false)
    else match query(ids)
      case Err(e) => Fetched(Err(e), true)
      case Ok(rows) => Fetched(Ok(if rows == [] then [] else Group(rows)), true)
  }

  /** `get_filtered_files_meta_with_tags(start, end)`: the rows of the date
      range query grouped exactly as in `get_files_with_tags`, with records
      that carry no blob. */
  function GetFilteredFilesMetaWithTags(start: string, end: string,
                                        query: (string, string) -> Result<seq<Row<MetaHead>>, Exception>)
    : (r: Result<seq<Record<MetaHead>>, Exception>)
    ensures query(start, end).Err? ==> r == Err(query(start, end).error)
    ensures query(start, end).Ok? ==>
      var rows := query(start, end).value;
      && r.Ok?
      && |r.value| == |FileIds(rows)|
      && forall i | 0 <= i < |r.value| ::
           && r.value[i].fileId == FileIds(rows)[i]
           && r.value[i].head == rows[FirstIndex(rows, r.value[i].fileId)].head
           && r.value[i].tags == TagsOf(rows, FileIds(rows)[i])
  {
    match query(start, end)
    case Err(e) => Err(e)
    case Ok(rows) => Ok(if rows == [] then [] else Group(rows))
  }

  /** A DELETE statement over an abstract table: the rows it keeps, in order,
      and its `cursor.rowcount`. */
  datatype Deletion<T> = Deletion(kept: seq<T>, rowcount: nat)

  function DeleteWhere<T>(table: seq<T>, matches: T -> bool): (d: Deletion<T>)
    ensures d.rowcount + |d.kept| == |table|
    ensures forall x | x in d.kept :: x in table && !matches(x)
    ensures forall x | x in table && !matches(x) :: x in d.kept
    ensures d.rowcount > 0 <==> exists k | 0 <= k < |table| :: matches(table[k])
  {
    if table == [] then Deletion([], 0)
    else
      var rest := DeleteWhere(table[1..], matches);
      assert forall k | 1 <= k < |table| :: table[k] == table[1..][k - 1];
      if matches(table[0]) then Deletion(rest.kept, rest.rowcount + 1)
      else Deletion([table[0]] + rest.kept, rest.rowcount)
  }

  /** A row of the `tags` table. */
  datatype TagRow = TagRow(id: int, fileId: int, tag: string, taggedAt: int)

  /** A row of the `files` table. */
  datatype FileRow = FileRow(id: int, filename: string, fileSize: int, uploadTime: int)

  /** `remove_tag(file_id, tag)`: deletes every matching tag row and reports
      success exactly when at least one row was deleted. `tag = %s` compares
      under the `tags` column's collation, which the schema leaves to the
      server default (case-insensitive on stock MySQL); `sameTag` is that
      comparison. */
  function RemoveTag(tags: seq<TagRow>, fileId: int, tag: string, sameTag: (string, string) -> bool)
    : (r: (bool, seq<TagRow>))
    ensures r.0 <==> exists k | 0 <= k < |tags| :: tags[k].fileId == fileId && sameTag(tags[k].tag, tag)
    ensures forall x | x in r.1 :: x in tags && !(x.fileId == fileId && sameTag(x.tag, tag))
    ensures forall x | x in tags && !(x.fileId == fileId && sameTag(x.tag, tag)) :: x in r.1
  {
    var d := DeleteWhere(tags, (x: TagRow) => x.fileId == fileId && sameTag(x.tag, tag));
    (d.rowcount > 0, d.kept)
  }

  /** Under a case-insensitive collation, removing "Invoice" from a file
      tagged "invoice" deletes that row and reports success. */
  lemma RemoveTagIgnoringCase()
    ensures RemoveTag([TagRow(7, 1, "invoice", 0)], 1, "Invoice",
                      (a: string, b: string) => Strings.Lower(a) == Strings.Lower(b))
         == (true, [])
  {
    var lowered := Strings.Lower("Invoice");
    assert lowered[0] as int == 'I' as int + 32;
    assert lowered == "invoice";
    Strings.LowerFixes("invoice");
  }

  /** `delete_file(file_id)`: deletes the file row and reports success exactly
      when such a row existed. */
  function DeleteFile(files: seq<FileRow>, fileId: int): (r: (bool, seq<FileRow>))
    ensures r.0 <==> exists k | 0 <= k < |files| :: files[k].id == fileId
    ensures forall x | x in r.1 :: x in files && x.id != fileId
    ensures forall x | x in files && x.id != fileId :: x in r.1
  {
    var d := DeleteWhere(files, (x: FileRow) => x.id == fileId);
    (d.rowcount > 0, d.kept)
  }
}
