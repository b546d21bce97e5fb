/**
 The dataset and upload services over the database, the disk and the object store.
 Whatever the backend, they behave like one map from ids to datasets.
 */
module DatasetService {
  import opened Wrappers
  import opened ObjectKeys
  import opened Datasets
  import opened Uploads
  import Order

  datatype Failure =
    | NotFound | NoStore | TooLargeForTable | CheckViolation | StoreRefuses
    | PartTooLarge | BadDigest | InvalidPart | InvalidPartOrder | EntityTooSmall | EntityTooLarge

  /** The fields of an update that are set. */
  datatype Update = Update(content: Option<Bytes>, format: Option<string>, name: Option<string>,
                           tags: Option<seq<string>>, thing: Option<Option<Uuid>>) {
    predicate IsEmpty() { content.None? && format.None? && name.None? && tags.None? && thing.None? }
  }

  function Or<T>(o: Option<T>, otherwise: T): T { if o.Some? then o.value else otherwise }

  /** What an update makes of a dataset. */
  function Updated(ds: Dataset, p: Update): Dataset {
    Dataset(Or(p.name, ds.name), Or(p.format, ds.format), Or(p.tags, ds.tags), Or(p.thing, ds.thing), Or(p.content, ds.bytes))
  }

  datatype File = File(format: string, bytes: Bytes, checksum: string, size: int)

  datatype Limits = Limits(maxPartSize: int, maxTotalSize: int)

  /** The database forgets an assembled session; its directory goes if the service has no object store. */
  function SessionGone(s: Sessions, u: string, storage: Storage): Sessions {
    if storage.Inline? then WithoutFiles(WithoutSession(s, u), u) else WithoutSession(s, u)
  }

  /** A session of the dataset. */
  predicate IsSession(uploads: map<string, Upload>, id: Uuid, u: string) {
    u in uploads && uploads[u].dataset == id
  }

  /** What is said of a session that is not complete. */
  ghost function PartsRefusal(s: Sessions, id: Uuid, u: string): Failure {
    if !IsSession(s.uploads, id, u) then NotFound
    else if forall i :: PartKey(u, i) !in s.parts then InvalidPart
    else if NumberMissing(s, u) then InvalidPartOrder else EntityTooSmall
  }

  /** Whether a complete session can be assembled. */
  ghost predicate CanAssemble(s: Sessions, storage: Storage, limits: Limits, d: Digests, atStore: map<string, map<int, Bytes>>,
                              u: string, n: nat, expectedMD5: string)
    requires u in s.uploads
  {
    var stored := Stored(s, storage, u);
    && FilesThere(stored, u, n) && DigestOk(d.md5(Assembled(stored, u, n)), expectedMD5)
    && if Remote(s, storage, u) then StoreHolds(atStore, s.uploads[u].backendId, stored, u, n)
       else |Assembled(stored, u, n)| <= 1_073_741_823 && (limits.maxTotalSize > 0 ==> |Assembled(stored, u, n)| <= limits.maxTotalSize)
  }

  /** Assembling ends the multipart upload of a session at the store. */
  function WithoutMultipart(atStore: map<string, map<int, Bytes>>, s: Sessions, storage: Storage, u: string): map<string, map<int, Bytes>>
    requires u in s.uploads
  {
    if Remote(s, storage, u) then atStore - {s.uploads[u].backendId} else atStore
  }

  /** A failure is without trace, unless the store had put the parts together before the digest was refused. */
  ghost predicate Traceless(before: Objects, after: Objects, atStore: map<string, map<int, Bytes>>, atStore': map<string, map<int, Bytes>>,
                            s: Sessions, storage: Storage, failure: Failure, u: string, n: nat)
  {
    || (after == before && atStore' == atStore)
    || (failure == BadDigest && u in s.uploads && Remote(s, storage, u) && FilesThere(Stored(s, storage, u), u, n)
        && after == Put(before, s.uploads[u].ref, Assembled(Stored(s, storage, u), u, n))
        && atStore' == WithoutMultipart(atStore, s, storage, u))
  }

  /** After a failure every dataset is as it was, unless the object that was replaced is one its row refers to. */
  ghost predicate AsBeforeOrRefilled(d: Digests, rows: DatasetRows, before: Objects, after: Objects, s: Sessions, storage: Storage,
                                     id: Uuid, u: string, n: nat)
  {
    if after != before && id in rows && u in s.uploads && rows[id].ref == s.uploads[u].ref
    then FilesThere(Stored(s, storage, u), u, n)
         && Catalogue(rows, after) == Catalogue(rows, before)[id :=
              Dataset(rows[id].name, rows[id].format, rows[id].tags, rows[id].thing, Assembled(Stored(s, storage, u), u, n))]
    else Catalogue(rows, after) == Catalogue(rows, before) && (id in rows ==> (RowOk(d, rows[id], after) <==> RowOk(d, rows[id], before)))
  }

  /** What is said of it if it cannot: the files and the total, then the digest, then the column. */
  ghost function ContentRefusal(s: Sessions, storage: Storage, limits: Limits, d: Digests, atStore: map<string, map<int, Bytes>>,
                                u: string, n: nat, expectedMD5: string): Failure
    requires u in s.uploads
  {
    var stored := Stored(s, storage, u);
    if !Remote(s, storage, u) && BeyondTotal(stored, u, n, limits.maxTotalSize) then EntityTooLarge
    else if !FilesThere(stored, u, n) then InvalidPart
    else if Remote(s, storage, u) && !StoreHolds(atStore, s.uploads[u].backendId, stored, u, n) then StoreRefuses
    else if !DigestOk(d.md5(Assembled(stored, u, n)), expectedMD5) then BadDigest
    else TooLargeForTable
  }

  /** An object another one takes the place of. */
  function ReplacedRef(storage: Storage, previous: Option<Ref>, next: Option<Ref>): Option<Ref> {
    if storage.S3? && previous.Some? && previous != next then previous else None
  }

  class Service {
    const storage: Storage
    const digests: Digests
    const limits: Limits
    var rows: DatasetRows
    var objects: Objects
    var uploads: map<string, Upload>
    var parts: map<PartKey, PartRow>
    var files: Bodies
    /** Multipart uploads at the store, with the latest body of each part. */
    var multiparts: map<string, map<int, Bytes>>
    ghost var accepted: Bodies

    ghost function AllSessions(): Sessions
      reads `uploads, `parts, `files, `accepted
    {
      Sessions.Sessions(uploads, parts, files, accepted)
    }

    /** What holds in every state: keys and checks of the tables, and objects kept under their datasets' keys. */
    ghost predicate Valid()
      reads this
    {
      OwnKeys(rows) && TablesOk(AllSessions(), rows)
    }

    ghost function Datasets(): map<Uuid, Dataset>
      reads this
    {
      Catalogue(rows, objects)
    }

    /** The dataset has its bytes, with the size and checksum recorded. */
    ghost predicate RecordTrue(id: Uuid)
      reads this
    {
      id in rows && RowOk(digests, rows[id], objects)
    }

    ghost predicate AllTrue()
      reads this
    {
      RowsOk(digests, rows, objects)
    }

    /** Every other dataset keeps its row, and its record is as true or false as it was. */
    twostate predicate OthersAsBefore(id: Uuid)
      reads this
    {
      OthersKept(digests, old(rows), old(objects), rows, objects, id)
    }

    /** The store got the new bytes, if they go there, and lost the object they replace; nothing else moved. */
    twostate predicate BytesMoved(id: Uuid, bytes: Bytes)
      reads this
    {
      && id in old(rows) && id in rows
      && objects == Drop(Put(old(objects), rows[id].ref, bytes), ReplacedRef(storage, old(rows)[id].ref, rows[id].ref))
    }

    constructor (storage: Storage, digests: Digests, limits: Limits)
      ensures Valid() && AllTrue() && Datasets() == map[] && objects == map[]
      ensures this.storage == storage && this.digests == digests && this.limits == limits
    {
      this.storage, this.digests, this.limits := storage, digests, limits;
      rows, objects, uploads, parts, files, multiparts, accepted := map[], map[], map[], map[], map[], map[], map[];
    }

    // ----- datasets

    /** Where bytes are kept: in the store if there is one and there are any, else in the row. */
    function RefOf(id: Uuid, content: Bytes): Option<Ref> {
      if storage.S3? && content != [] then Some(ContentRef(storage, id)) else None
    }

    /** id is freshly generated.  Bytes go to the object store if there is one and there are any. */
    method AddDataset(id: Uuid, name: string, format: string, tags: seq<string>, thing: Option<Uuid>, content: Bytes)
      returns (failure: Option<Failure>)
      requires Valid() && id !in rows
      modifies `rows, `objects
      ensures Valid()
      ensures failure == if storage.Inline? && |content| > 1_073_741_823 then Some(TooLargeForTable) else None
      ensures failure.None? ==> Datasets() == old(Datasets())[id := Dataset(name, format, tags, thing, content)]
      ensures failure.None? ==> RecordTrue(id) && OthersAsBefore(id) && (old(AllTrue()) ==> AllTrue())
      ensures failure.None? ==> rows[id].ref == RefOf(id, content) && objects == Put(old(objects), RefOf(id, content), content)
      ensures failure.Some? ==> unchanged(this)
    {
      hide OwnKeys, TablesOk, Catalogue, RowOk, RowsOk, OthersKept;
      var ref: Option<Ref> := None;
      if storage.S3? && |content| > 0 {
        ContentKeyIsOwn(storage, id);
        ref := Some(ContentRef(storage, id));
        objects := objects[ref.value := content];
      } else if |content| > MAX_BYTEA {
        return Some(TooLargeForTable);
      }
      ghost var blank := Row(name, format, tags, thing, [], "", 0, None);
      StoreBytes(digests, old(rows), old(objects), id, blank, ref, content, None);
      MoreRows(AllSessions(), rows, rows[id := WithBytes(digests, blank, ref, content)]);
      Int32OfSmall(|content|);
      rows := rows[id := Row(name, format, tags, thing, if ref.Some? then [] else content, digests.sha256(content), Int32(|content|), ref)];
      StayTrue(digests, old(rows), old(objects), rows, objects, id);
      return None;
    }

    /** Returns the bytes of the dataset; checksum and size are theirs if the record is true. */
    method GetDatasetContentByUuid(id: Uuid) returns (r: Result<File, Failure>)
      ensures r.Ok? <==> id in rows && (rows[id].ref.Some? ==> storage.S3? && rows[id].ref.value in objects)
      ensures r.Ok? ==> r.value.bytes == Datasets()[id].bytes && r.value.format == Datasets()[id].format
      ensures RecordTrue(id) && r.Ok? ==> r.value.checksum == digests.sha256(r.value.bytes)
      ensures RecordTrue(id) && r.Ok? ==>
                (r.value.size == |r.value.bytes| <==> rows[id].ref.None? || |r.value.bytes| < 0x8000_0000)
    {
      if id !in rows {
        return Err(NotFound);
      }
      var row := rows[id];
      if row.ref.Some? {
        if storage.Inline? {
          return Err(NoStore);
        }
        if row.ref.value !in objects {
          return Err(StoreRefuses);
        }
        Int32Exact(|objects[row.ref.value]|);
        return Ok(File(row.format, objects[row.ref.value], row.checksum, row.size));
      }
      return Ok(File(row.format, row.content, row.checksum, row.size));
    }

    /** A metadata update touches no object; new bytes replace the old ones wherever those were. */
    method UpdateDatasetByUuid(id: Uuid, p: Update) returns (failure: Option<Failure>)
      requires Valid()
      modifies `rows, `objects
      ensures Valid()
      ensures failure.None? ==> id in old(Datasets()) && Datasets() == old(Datasets())[id := Updated(old(Datasets())[id], p)]
      ensures failure.None? ==> OthersAsBefore(id) && (p.content.Some? || old(RecordTrue(id)) ==> RecordTrue(id))
      ensures failure.None? && old(AllTrue()) ==> AllTrue()
      ensures failure.None? && p.content.None? ==> objects == old(objects)
      ensures failure.None? && p.content.Some? ==> BytesMoved(id, p.content.value) && rows[id].ref == RefOf(id, p.content.value)
      ensures failure == Some(NotFound) ==> objects == if p.content.Some? && p.format.Some? then Drop(old(objects), RefOf(id, p.content.value))
                                                       else old(objects)
      ensures failure == if id !in old(rows) then Some(NotFound)
                         else if storage.Inline? && p.content.Some? && |p.content.value| > 1_073_741_823 then Some(TooLargeForTable) else None
      ensures failure.Some? ==> rows == old(rows) && Datasets() == old(Datasets()) && OthersAsBefore(id)
      ensures failure.Some? && id in old(rows) ==> objects == old(objects)
    {
      hide OwnKeys, TablesOk, Catalogue, RowOk, RowsOk;
      if p.IsEmpty() {
        if id !in rows {
          return Some(NotFound);
        }
        UpdateOfNothing(Datasets(), id, p);
        return None;
      }
      if p.content.Some? {
        failure := UpdateBytes(id, p, p.content.value);
        if failure.None? {
          StayTrue(digests, old(rows), old(objects), rows, objects, id);
        }
        return;
      }
      failure := UpdateFields(id, p);
      if failure.None? {
        FieldsStayTrue(digests, old(rows), rows, objects, id);
      }
    }

    method UpdateFields(id: Uuid, p: Update) returns (failure: Option<Failure>)
      requires Valid() && p.content.None?
      modifies `rows
      ensures Valid()
      ensures failure.None? ==> id in old(Datasets()) && Datasets() == old(Datasets())[id := Updated(old(Datasets())[id], p)]
      ensures failure.None? ==> OthersAsBefore(id) && (old(RecordTrue(id)) <==> RecordTrue(id))
      ensures failure == if id !in old(rows) then Some(NotFound) else None
      ensures failure.Some? ==> rows == old(rows)
    {
      hide OwnKeys, TablesOk, Catalogue, RowOk, OthersKept;
      if id !in rows {
        return Some(NotFound);
      }
      var row := rows[id];
      var next := row.(name := Or(p.name, row.name), format := Or(p.format, row.format),
                       tags := Or(p.tags, row.tags), thing := Or(p.thing, row.thing));
      CatalogueAt(rows, objects, id);
      ChangeFields(digests, rows, objects, id, next);
      MoreRows(AllSessions(), rows, rows[id := next]);
      rows := rows[id := next];
      return None;
    }

    method UpdateBytes(id: Uuid, p: Update, content: Bytes) returns (failure: Option<Failure>)
      requires Valid() && p.content == Some(content)
      modifies `rows, `objects
      ensures Valid()
      ensures failure.None? ==> id in old(Datasets()) && Datasets() == old(Datasets())[id := Updated(old(Datasets())[id], p)]
      ensures failure.None? ==> BytesMoved(id, content) && RecordTrue(id) && OthersAsBefore(id) && rows[id].ref == RefOf(id, content)
      ensures failure == Some(NotFound) ==> objects == if p.format.Some? then Drop(old(objects), RefOf(id, content)) else old(objects)
      ensures failure == if id !in old(rows) then Some(NotFound)
                         else if storage.Inline? && |content| > 1_073_741_823 then Some(TooLargeForTable) else None
      ensures failure.Some? ==> rows == old(rows) && Datasets() == old(Datasets()) && OthersAsBefore(id)
      ensures failure.Some? && id in old(rows) ==> objects == old(objects)
    {
      hide OwnKeys, TablesOk, Catalogue, RowOk, Updated, Drop, Put, ReplacedRef, ContentRef, ObjectKeys.KeyBelongsTo;
      PutKeepsOthers(digests, rows, objects, id, None, content);
      hide OthersKept;
      var previous := if id in rows then rows[id].ref else None;
      var ref: Option<Ref> := None;
      if storage.S3? && |content| > 0 {
        if p.format.None? && id !in rows {
          return Some(NotFound);
        }
        ref := Some(ContentRef(storage, id));
        ContentKeyIsOwn(storage, id);
      }
      if id !in rows {
        PutForNobody(id, ref, content);
        return Some(NotFound);
      }
      if ref.None? && |content| > MAX_BYTEA {
        return Some(TooLargeForTable);
      }
      WriteBytes(id, p, ref, content, previous);
      return None;
    }

    method WriteBytes(id: Uuid, p: Update, ref: Option<Ref>, content: Bytes, previous: Option<Ref>)
      requires Valid() && p.content == Some(content)
      requires id in rows && previous == rows[id].ref && (ref.Some? ==> ObjectKeys.KeyBelongsTo(ref.value.key, id))
      modifies `rows, `objects
      ensures Valid() && Datasets() == old(Datasets())[id := Updated(old(Datasets())[id], p)]
      ensures BytesMoved(id, content) && RecordTrue(id) && OthersAsBefore(id) && rows[id].ref == ref
    {
      hide OwnKeys, TablesOk, Catalogue, RowOk, OthersKept, ObjectKeys.KeyBelongsTo;
      CatalogueAt(rows, objects, id);
      var row := rows[id];
      var next := Row(Or(p.name, row.name), Or(p.format, row.format), Or(p.tags, row.tags), Or(p.thing, row.thing),
                      if ref.Some? then [] else content, digests.sha256(content), if ref.Some? then Int32(|content|) else |content|, ref);
      ReplaceBytes(id, next, content, previous);
    }

    /** The update of a dataset that is not there finds out too late and takes its object away again. */
    method PutForNobody(id: Uuid, ref: Option<Ref>, content: Bytes)
      requires Valid() && id !in rows && (ref.Some? ==> ObjectKeys.KeyBelongsTo(ref.value.key, id))
      modifies `objects
      ensures Valid() && Datasets() == old(Datasets()) && objects == Drop(old(objects), ref) && OthersAsBefore(id)
      ensures ref.None? ==> objects == old(objects)
    {
      hide OwnKeys, TablesOk, Catalogue, RowOk;
      if ref.Some? {
        UnusedObject(digests, rows, objects, id, ref.value);
        objects := objects[ref.value := content];
        objects := objects - {ref.value};
        assert objects == old(objects) - {ref.value};
      }
    }

    /** Puts the bytes where next says, writes the row, and removes the object it no longer uses. */
    method ReplaceBytes(id: Uuid, next: Row, content: Bytes, previous: Option<Ref>)
      requires Valid() && id in rows && previous == rows[id].ref
      requires next == WithBytes(digests, next, next.ref, content)
      requires next.ref.Some? ==> ObjectKeys.KeyBelongsTo(next.ref.value.key, id)
      modifies `rows, `objects
      ensures Valid() && rows == old(rows)[id := next] && RecordTrue(id) && OthersAsBefore(id)
      ensures Datasets() == old(Datasets())[id := Dataset(next.name, next.format, next.tags, next.thing, content)]
      ensures objects == Drop(Put(old(objects), next.ref, content), ReplacedRef(storage, previous, next.ref))
    {
      hide OwnKeys, TablesOk, Catalogue, RowOk, ObjectKeys.KeyBelongsTo, WithBytes, OthersKept, Drop, ReplacedRef;
      ghost var before := objects;
      if next.ref.Some? {
        objects := objects[next.ref.value := content];
      }
      SaveRow(id, next, content, previous, before);
    }

    /** The row of bytes that are where it says, which takes the place of the old one and of its object. */
    method SaveRow(id: Uuid, next: Row, content: Bytes, previous: Option<Ref>, ghost before: Objects)
      requires Valid() && objects == Put(before, next.ref, content)
      requires id in rows && previous == rows[id].ref
      requires next == WithBytes(digests, next, next.ref, content)
      requires next.ref.Some? ==> ObjectKeys.KeyBelongsTo(next.ref.value.key, id)
      modifies `rows, `objects
      ensures Valid() && rows == old(rows)[id := next] && RecordTrue(id)
      ensures OthersKept(digests, old(rows), before, rows, objects, id)
      ensures Datasets() == Catalogue(old(rows), before)[id := Dataset(next.name, next.format, next.tags, next.thing, content)]
      ensures objects == Drop(Put(before, next.ref, content), ReplacedRef(storage, previous, next.ref))
    {
      ReplacedIsOther(storage, previous, next.ref);
      hide OwnKeys, TablesOk, Catalogue, RowOk, ObjectKeys.KeyBelongsTo, WithBytes, OthersKept, Drop, ReplacedRef, Put;
      StoreOverRow(digests, rows, before, id, next, next.ref, content, ReplacedRef(storage, previous, next.ref));
      MoreRows(AllSessions(), rows, rows[id := next]);
      rows := rows[id := next];
      DropReplaced(previous, next.ref);
    }

    method DropReplaced(previous: Option<Ref>, next: Option<Ref>)
      modifies `objects
      ensures objects == Drop(old(objects), ReplacedRef(storage, previous, next))
    {
      if storage.S3? && previous.Some? && previous != next {
        objects := objects - {previous.value};
      }
    }

    /** The row goes first, then its object; sessions go with the row. */
    method DeleteDataset(id: Uuid) returns (failure: Option<Failure>)
      requires Valid()
      modifies `rows, `objects, `uploads, `parts
      ensures Valid()
      ensures failure.None? <==> id in old(rows)
      ensures failure.None? ==> Datasets() == old(Datasets()) - {id} && AllSessions() == WithoutDataset(old(AllSessions()), id)
      ensures failure.None? ==> OthersAsBefore(id) && (old(AllTrue()) ==> AllTrue())
      ensures failure.None? ==> objects == Drop(old(objects), ReplacedRef(storage, old(rows)[id].ref, None))
      ensures failure.Some? ==> unchanged(this)
    {
      if id !in rows {
        return Some(NotFound);
      }
      var previous := rows[id].ref;
      RemoveRow(digests, rows, objects, id, ReplacedRef(storage, previous, None));
      hide OwnKeys, TablesOk, Catalogue, RowOk, RowsOk, WithoutDataset, OthersKept, Drop, ReplacedRef;
      EndDataset(digests, AllSessions(), storage, rows, id);
      DeleteRow(id);
      DropReplaced(previous, None);
      StayTrue(digests, old(rows), old(objects), rows, objects, id);
      return None;
    }

    /** The database deletes the sessions of the dataset and their parts with it. */
    method DeleteRow(id: Uuid)
      modifies `rows, `uploads, `parts
      ensures rows == old(rows) - {id} && AllSessions() == WithoutDataset(old(AllSessions()), id)
    {
      var before := uploads;
      rows := rows - {id};
      uploads := map u | u in before && before[u].dataset != id :: before[u];
      parts := map k | k in parts && (k.upload in before ==> before[k.upload].dataset != id) :: parts[k];
    }

    // ----- upload sessions

    /** Every session but one is as sound as it was. */
    twostate predicate OtherSessions(u: string)
      reads this
    {
      SessionsKept(digests, old(AllSessions()), AllSessions(), storage, u)
    }

    /** Whether the file of a part is lost when its row is refused: it was written first and is removed again. */
    predicate FileIsLost(u: string, number: int, body: Bytes)
      reads this
      requires u in uploads
    {
      !(storage.S3? && uploads[u].ref.Some?) && (Int32(number) <= 0 || Int32(|body|) < 0)
    }

    /** u and backendId are freshly generated. */
    method CreateUpload(id: Uuid, u: string, backendId: string) returns (failure: Option<Failure>)
      requires Valid() && u !in uploads && backendId !in multiparts
      modifies `uploads, `multiparts
      ensures Valid()
      ensures failure.None? ==> SessionSound(digests, AllSessions(), storage, u)
      ensures OtherSessions(u)
      ensures failure.None? <==> id in rows
      ensures failure.None? ==> uploads == old(uploads)[u := if storage.S3? then Upload(id, Some(ContentRef(storage, id)), backendId)
                                                             else Upload(id, None, "")]
      ensures failure.None? ==> multiparts == if storage.S3? then old(multiparts)[backendId := map[]] else old(multiparts)
      ensures failure.Some? ==> unchanged(this)
    {
      hide TablesOk, OwnKeys, ContentRef, ObjectKeys.KeyBelongsTo, SessionSound;
      if id !in rows {
        return Some(NotFound);
      }
      if storage.S3? {
        ContentKeyIsOwn(storage, id);
        multiparts := multiparts[backendId := map[]];
        InsertSession(u, Upload(id, Some(ContentRef(storage, id)), backendId));
      } else {
        InsertSession(u, Upload(id, None, ""));
      }
      return None;
    }

    method InsertSession(u: string, upload: Upload)
      requires Valid() && u !in uploads && UploadOk(upload, rows)
      modifies `uploads
      ensures Valid() && uploads == old(uploads)[u := upload] && SessionSound(digests, AllSessions(), storage, u)
      ensures OtherSessions(u)
    {
      hide TablesOk, OwnKeys, UploadOk, SessionsKept, SessionSound;
      NewSession(digests, AllSessions(), storage, rows, u, upload);
      uploads := uploads[u := upload];
    }

    /** At most one byte beyond the limit is read. */
    method ReadUploadBody(content: Bytes, expectedMD5: string) returns (r: Result<(Bytes, string), Failure>)
      ensures r.Ok? <==> (limits.maxPartSize > 0 ==> |content| <= limits.maxPartSize) && DigestOk(digests.md5(content), expectedMD5)
      ensures r.Ok? ==> r.value == (content, Lower(digests.md5(content)))
      ensures r.Err? ==> r.error == if limits.maxPartSize > 0 && |content| > limits.maxPartSize then PartTooLarge else BadDigest
    {
      var body := content;
      if limits.maxPartSize > 0 && |content| > limits.maxPartSize + 1 {
        body := content[..limits.maxPartSize + 1];
      }
      if limits.maxPartSize > 0 && |body| > limits.maxPartSize {
        return Err(PartTooLarge);
      }
      var actual := digests.md5(body);
      if !DigestOk(actual, expectedMD5) {
        return Err(BadDigest);
      }
      return Ok((body, Lower(actual)));
    }

    /**
     An accepted body becomes the part of its int32 number.  Other sessions keep what they
     have; this one stays sound exactly as PartKeepsSessionsIff says.  A refused body changes
     no row; a part file is lost exactly if the body got as far as the checks of the table.
     */
    method UploadPart(id: Uuid, u: string, number: int, expectedMD5: string, content: Bytes) returns (failure: Option<Failure>)
      requires Valid()
      modifies `parts, `files, `multiparts, `accepted
      ensures Valid()
      ensures OtherSessions(u)
      ensures failure == if !IsSession(uploads, id, u) then Some(NotFound)
                         else if limits.maxPartSize > 0 && |content| > limits.maxPartSize then Some(PartTooLarge)
                         else if !DigestOk(digests.md5(content), expectedMD5) then Some(BadDigest)
                         else old(PartRefusal(u, number, content))
      ensures multiparts == if IsSession(uploads, id, u) && (limits.maxPartSize > 0 ==> |content| <= limits.maxPartSize)
                               && DigestOk(digests.md5(content), expectedMD5)
                            then old(WithStorePart(u, number, content)) else old(multiparts)
      ensures failure.None? ==> AllSessions() == WithPart(digests, old(AllSessions()), u, number, content,
                                                          if Remote(AllSessions(), storage, u) then Some(content) else None)
      ensures failure.None? && old(SessionSound(digests, AllSessions(), storage, u)) ==>
                SessionSound(digests, AllSessions(), storage, u) == PartInPlace(old(AllSessions()), storage, u, number, content)
      ensures failure.Some? ==> parts == old(parts) && accepted == old(accepted)
      ensures failure.Some? && old(SessionSound(digests, AllSessions(), storage, u)) ==> SessionSound(digests, AllSessions(), storage, u)
      ensures failure.Some? ==> files == if failure == Some(CheckViolation) && u in uploads && FileIsLost(u, number, content)
                                         then old(files) - {PartKey(u, number)} else old(files)
    {
      hide OwnKeys, TablesOk, SessionsKept, SessionSound, WithPart, PartInPlace;
      NothingChanged(digests, AllSessions(), storage, u);
      if u !in uploads || uploads[u].dataset != id {
        return Some(NotFound);
      }
      var read := ReadUploadBody(content, expectedMD5);
      if read.Err? {
        return Some(read.error);
      }
      failure := StorePart(u, number, content);
    }

    /** What the store or the checks of the table have against a part. */
    function PartRefusal(u: string, number: int, body: Bytes): Option<Failure>
      requires u in uploads
      reads this
    {
      if storage.S3? && uploads[u].ref.Some? && (uploads[u].backendId !in multiparts || Int32(number) < 1) then Some(StoreRefuses)
      else if Int32(number) < 1 || Int32(|body|) < 0 then Some(CheckViolation) else None
    }

    /** The store has a part before the table's checks are made. */
    function WithStorePart(u: string, number: int, body: Bytes): map<string, map<int, Bytes>>
      requires u in uploads
      reads this
    {
      var b := uploads[u].backendId;
      if storage.S3? && uploads[u].ref.Some? && b in multiparts && Int32(number) >= 1
      then multiparts[b := multiparts[b][Int32(number) := body]] else multiparts
    }

    method StorePart(u: string, number: int, body: Bytes) returns (failure: Option<Failure>)
      requires Valid() && u in uploads
      modifies `parts, `files, `multiparts, `accepted
      ensures Valid()
      ensures OtherSessions(u)
      ensures failure == old(PartRefusal(u, number, body)) && multiparts == old(WithStorePart(u, number, body))
      ensures failure.None? ==> AllSessions() == WithPart(digests, old(AllSessions()), u, number, body,
                                                          if Remote(AllSessions(), storage, u) then Some(body) else None)
      ensures failure.None? && old(SessionSound(digests, AllSessions(), storage, u)) ==>
                SessionSound(digests, AllSessions(), storage, u) == PartInPlace(old(AllSessions()), storage, u, number, body)
      ensures failure.Some? ==> parts == old(parts) && accepted == old(accepted)
      ensures failure.Some? && old(SessionSound(digests, AllSessions(), storage, u)) ==> SessionSound(digests, AllSessions(), storage, u)
      ensures failure.Some? ==> files == if failure == Some(CheckViolation) && FileIsLost(u, number, body)
                                         then old(files) - {PartKey(u, number)} else old(files)
    {
      hide OwnKeys, TablesOk, SessionsKept, SessionSound, WithPart, PartInPlace;
      ghost var before := AllSessions();
      if storage.S3? && uploads[u].ref.Some? {
        failure := UploadRemotePart(u, number, body);
      } else {
        failure := UploadInlinePart(u, number, body);
      }
      if failure.None? {
        PartKeepsTables(digests, before, rows, u, number, body, if Remote(before, storage, u) then Some(body) else None);
        PartKeepsSessionsIff(digests, before, storage, rows, u, number, body, if Remote(before, storage, u) then Some(body) else None);
      } else {
        NothingChanged(digests, before, storage, u);
        FewerFiles(digests, before, storage, rows, u, PartKey(u, number));
        assert AllSessions() == before || AllSessions() == before.(files := before.files - {PartKey(u, number)});
      }
    }

    method UploadRemotePart(u: string, number: int, body: Bytes) returns (failure: Option<Failure>)
      requires u in uploads && Remote(AllSessions(), storage, u)
      modifies `parts, `multiparts, `accepted
      ensures failure.None? ==> Int32(number) > 0 && Int32(|body|) >= 0
                                && AllSessions() == WithPart(digests, old(AllSessions()), u, number, body, Some(body))
      ensures failure == old(PartRefusal(u, number, body)) && multiparts == old(WithStorePart(u, number, body))
      ensures failure.Some? ==> parts == old(parts) && accepted == old(accepted)
    {
      var b, n := uploads[u].backendId, Int32(number);
      if b !in multiparts || n < 1 {
        return Some(StoreRefuses);
      }
      multiparts := multiparts[b := multiparts[b][n := body]];
      failure := UpsertPart(u, n, body, Some(body));
    }

    method UploadInlinePart(u: string, number: int, body: Bytes) returns (failure: Option<Failure>)
      requires u in uploads && !Remote(AllSessions(), storage, u)
      modifies `parts, `files, `accepted
      ensures failure.None? ==> Int32(number) > 0 && Int32(|body|) >= 0
                                && AllSessions() == WithPart(digests, old(AllSessions()), u, number, body, None)
      ensures failure == PartRefusal(u, number, body) && (failure.Some? ==> FileIsLost(u, number, body))
      ensures failure.Some? ==> parts == old(parts) && accepted == old(accepted)
                                && files == old(files) - {PartKey(u, number)}
    {
      var path := PartKey(u, number);
      files := files[path := body];
      failure := UpsertPart(u, Int32(number), body, None);
      if failure.Some? {
        files := files - {path};
        assert files == old(files) - {path};
      }
    }

    /** The checks of the table, then the row; history remembers the body. */
    method UpsertPart(u: string, n: int, body: Bytes, etag: Option<Bytes>) returns (failure: Option<Failure>)
      modifies `parts, `accepted
      ensures failure == if n > 0 && Int32(|body|) >= 0 then None else Some(CheckViolation)
      ensures failure.None? ==> && parts == old(parts)[PartKey(u, n) := PartRow(Int32(|body|), Lower(digests.md5(body)), etag)]
                                && accepted == old(accepted)[PartKey(u, n) := body]
      ensures failure.Some? ==> parts == old(parts) && accepted == old(accepted)
    {
      if n <= 0 || Int32(|body|) < 0 {
        return Some(CheckViolation);
      }
      parts := parts[PartKey(u, n) := PartRow(Int32(|body|), Lower(digests.md5(body)), etag)];
      accepted := accepted[PartKey(u, n) := body];
      return None;
    }

    method CancelUpload(id: Uuid, u: string) returns (failure: Option<Failure>)
      requires Valid()
      modifies `uploads, `parts, `files, `multiparts
      ensures Valid()
      ensures OtherSessions(u)
      ensures failure.None? <==> u in old(uploads) && old(uploads)[u].dataset == id
      ensures failure.None? ==> AllSessions() ==
                                (var s := WithoutSession(old(AllSessions()), u);
                                 if Remote(old(AllSessions()), storage, u) then s else WithoutFiles(s, u))
      ensures failure.None? ==>
                multiparts == if old(Remote(AllSessions(), storage, u)) then old(multiparts) - {old(uploads)[u].backendId} else old(multiparts)
      ensures failure.Some? ==> unchanged(this)
    {
      if u !in uploads || uploads[u].dataset != id {
        return Some(NotFound);
      }
      hide OwnKeys, TablesOk, SessionsKept, SessionSound;
      EndSession(digests, AllSessions(), storage, rows, u);
      if storage.S3? && uploads[u].ref.Some? {
        multiparts := multiparts - {uploads[u].backendId};
      } else {
        RemoveFiles(u);
      }
      DeleteSession(u);
      return None;
    }

    method RemoveFiles(u: string)
      modifies `files
      ensures AllSessions() == WithoutFiles(old(AllSessions()), u)
    {
      files := map k | k in files && k.upload != u :: files[k];
    }

    method DeleteSession(u: string)
      modifies `uploads, `parts
      ensures AllSessions() == WithoutSession(old(AllSessions()), u)
    {
      uploads := uploads - {u};
      parts := map k | k in parts && k.upload != u :: parts[k];
    }

    // ----- assembling an upload

    /** SELECT ... ORDER BY part_number. */
    method FindParts(u: string) returns (ns: seq<int>)
      ensures forall i, j :: 0 <= i < j < |ns| ==> ns[i] < ns[j]
      ensures forall n :: n in ns <==> PartKey(u, n) in parts
    {
      var found: seq<int> := [];
      var todo := parts.Keys;
      while todo != {}
        invariant todo <= parts.Keys
        invariant forall n :: n in found <==> PartKey(u, n) in parts && PartKey(u, n) !in todo
        invariant Order.Distinct(found)
        decreases todo
      {
        var k := Order.Pick(todo);
        if k.upload == u {
          found := found + [k.number];
        }
        todo := todo - {k};
      }
      ns := Order.Sort(found);
    }

    /** The parts must be numbered 1 to n, and all but the last be large enough; otherwise the first fault is told. */
    method CheckParts(u: string, ns: seq<int>) returns (failure: Option<Failure>)
      requires ListsParts(AllSessions(), u, ns)
      requires forall n :: n in ns ==> n > 0
      ensures failure.None? <==> |ns| > 0 && Complete(AllSessions(), u, |ns|)
      ensures failure.Some? ==> forall m: nat :: m > 0 ==> !Complete(AllSessions(), u, m)
      ensures failure == Some(InvalidPart) <==> ns == []
      ensures failure == Some(InvalidPartOrder) <==> NumberMissing(AllSessions(), u)
      ensures failure == Some(EntityTooSmall) <==> PartTooSmall(AllSessions(), u)
      ensures failure.Some? ==> failure.value in {InvalidPart, InvalidPartOrder, EntityTooSmall}
    {
      ghost var s := AllSessions();
      PartsListed(s, u, ns);
      hide ListsParts, FineBefore, Complete, NumberMissing, PartTooSmall;
      CompleteHasAll(s, u, ns);
      NothingBefore(s, u, ns);
      if |ns| == 0 {
        NoFault(s, u, ns);
        return Some(InvalidPart);
      }
      for i := 0 to |ns|
        invariant FineBefore(s, u, ns, i)
      {
        OneMoreFine(s, u, ns, i);
        if ns[i] != i + 1 {
          MissingNumber(s, u, ns, i);
          return Some(InvalidPartOrder);
        }
        if i != |ns| - 1 && parts[PartKey(u, ns[i])].size < MIN_PART_SIZE {
          SmallPart(s, u, ns, i);
          return Some(EntityTooSmall);
        }
      }
      AllFine(s, u, ns);
      NoFault(s, u, ns);
      return None;
    }

    /** Part files one after the other into one, within the limit, checked against the digest expected. */
    method AssembleInlineUpload(u: string, n: nat, expectedMD5: string) returns (r: Result<Bytes, Failure>)
      ensures r.Ok? <==> FilesThere(files, u, n)
                         && (limits.maxTotalSize > 0 ==> |Assembled(files, u, n)| <= limits.maxTotalSize)
                         && DigestOk(digests.md5(Assembled(files, u, n)), expectedMD5)
      ensures r.Ok? ==> r.value == Assembled(files, u, n)
      ensures r.Err? ==> r.error == if BeyondTotal(files, u, n, limits.maxTotalSize) then EntityTooLarge
                                    else if !FilesThere(files, u, n) then InvalidPart else BadDigest
    {
      var assembled: Bytes := [];
      var totalSize := 0;
      for i := 0 to n
        invariant FilesThere(files, u, i) && assembled == Assembled(files, u, i) && totalSize == |assembled|
        invariant limits.maxTotalSize > 0 ==> totalSize <= limits.maxTotalSize
      {
        if PartKey(u, i + 1) !in files {
          NotBeyond(files, u, i, n, limits.maxTotalSize);
          return Err(InvalidPart);
        }
        assembled := assembled + files[PartKey(u, i + 1)];
        totalSize := totalSize + |files[PartKey(u, i + 1)]|;
        if limits.maxTotalSize > 0 && totalSize > limits.maxTotalSize {
          if FilesThere(files, u, n) { AssembledGrows(files, u, i + 1, n); }
          assert FilesThere(files, u, i + 1) && totalSize == |Assembled(files, u, i + 1)|;
          return Err(EntityTooLarge);
        }
      }
      if !DigestOk(digests.md5(assembled), expectedMD5) {
        NotBeyond(files, u, n, n, limits.maxTotalSize);
        return Err(BadDigest);
      }
      return Ok(assembled);
    }

    /**
     The store puts the parts together under the session's key, which ends its multipart
     upload; only then is the digest looked at.
     */
    method AssembleRemoteUpload(u: string, n: nat, expectedMD5: string) returns (r: Result<Bytes, Failure>)
      requires u in uploads && Remote(AllSessions(), storage, u) && Complete(AllSessions(), u, n)
      modifies `objects, `multiparts
      ensures var stored, b := Stored(AllSessions(), storage, u), uploads[u].backendId;
              if !FilesThere(stored, u, n) then r == Err(InvalidPart)
              else if !StoreHolds(old(multiparts), b, stored, u, n) then r == Err(StoreRefuses)
              else r == if DigestOk(digests.md5(Assembled(stored, u, n)), expectedMD5) then Ok(Assembled(stored, u, n)) else Err(BadDigest)
      ensures r.Ok? || r == Err(BadDigest) ==>
                && FilesThere(Stored(AllSessions(), storage, u), u, n)
                && objects == old(objects)[uploads[u].ref.value := Assembled(Stored(AllSessions(), storage, u), u, n)]
                && multiparts == old(multiparts) - {uploads[u].backendId}
      ensures r.Err? && r != Err(BadDigest) ==> objects == old(objects) && multiparts == old(multiparts)
    {
      var b := uploads[u].backendId;
      ghost var stored := Stored(AllSessions(), storage, u);
      for i := 0 to n
        invariant FilesThere(stored, u, i)
      {
        if parts[PartKey(u, i + 1)].etag.None? {
          return Err(InvalidPart);
        }
      }
      if b !in multiparts {
        return Err(StoreRefuses);
      }
      var body: Bytes := [];
      for i := 0 to n
        invariant body == Assembled(stored, u, i) && StoreHolds(multiparts, b, stored, u, i)
      {
        var etag := parts[PartKey(u, i + 1)].etag.value;
        if i + 1 !in multiparts[b] || multiparts[b][i + 1] != etag {
          return Err(StoreRefuses);
        }
        body := body + multiparts[b][i + 1];
      }
      objects := objects[uploads[u].ref.value := body];
      multiparts := multiparts - {b};
      if !DigestOk(digests.md5(body), expectedMD5) {
        return Err(BadDigest);
      }
      return Ok(body);
    }

    /** What a dataset is once its bytes are replaced. */
    ghost function Refilled(id: Uuid, bytes: Bytes): Dataset
      requires id in rows
      reads this
    {
      Dataset(rows[id].name, rows[id].format, rows[id].tags, rows[id].thing, bytes)
    }

    /**
     A session that is assembled makes the dataset the concatenation of what is stored for
     parts 1 to n, which in a sound session are the bodies last accepted, and is gone.
     */
    method AssembleUpload(id: Uuid, u: string, expectedMD5: string) returns (failure: Option<Failure>, ghost n: nat)
      requires Valid()
      modifies `rows, `objects, `uploads, `parts, `files, `multiparts
      ensures Valid() && OthersAsBefore(id)
      ensures OtherSessions(u)
      ensures n > 0 ==> IsSession(old(uploads), id, u) && Complete(old(AllSessions()), u, n)
      ensures IsSession(old(uploads), id, u) ==> forall m: nat :: m > 0 && Complete(old(AllSessions()), u, m) ==> n > 0
      ensures failure.None? <==> n > 0 && CanAssemble(old(AllSessions()), storage, limits, digests, old(multiparts), u, n, expectedMD5)
      ensures failure.Some? ==> failure.value == if n == 0 then PartsRefusal(old(AllSessions()), id, u)
                                  else ContentRefusal(old(AllSessions()), storage, limits, digests, old(multiparts), u, n, expectedMD5)
      ensures failure.None? ==> id in old(rows) && FilesThere(Stored(old(AllSessions()), storage, u), u, n)
                                && Datasets() == old(Datasets())[id := old(Refilled(id, Assembled(Stored(AllSessions(), storage, u), u, n)))]
                                && BytesMoved(id, old(Assembled(Stored(AllSessions(), storage, u), u, n)))
                                && rows[id].ref == if Remote(old(AllSessions()), storage, u) then old(uploads)[u].ref else None
      ensures failure.None? && old(SessionSound(digests, AllSessions(), storage, u)) ==> StandsForAccepted(old(AllSessions()), storage, u, n)
      ensures failure.None? ==> RecordTrue(id) && (old(AllTrue()) ==> AllTrue())
      ensures failure.None? ==> AllSessions() == SessionGone(old(AllSessions()), u, storage)
                                && multiparts == WithoutMultipart(old(multiparts), old(AllSessions()), storage, u)
      ensures failure.Some? ==> rows == old(rows) && AllSessions() == old(AllSessions())
                                && Traceless(old(objects), objects, old(multiparts), multiparts, AllSessions(), storage, failure.value, u, n)
      ensures failure.Some? ==> AsBeforeOrRefilled(digests, rows, old(objects), objects, AllSessions(), storage, id, u, n)
    {
      n := 0;
      NothingChanged(digests, AllSessions(), storage, u);
      PutKeepsOthers(digests, rows, objects, id, None, []);
      hide OwnKeys, SessionsKept, SessionSound, Complete, ObjectKeys.KeyBelongsTo, Catalogue, SessionGone, Stored, Assembled;
      hide FilesThere, RowOk, RowsOk, OthersKept, Traceless, Refilled, RecordTrue, AllTrue, TablesOk, DigestOk, StandsForAccepted;
      hide ContentRefusal, WithoutMultipart, CanAssemble, PartsRefusal, BytesMoved, AsBeforeOrRefilled;
      var count;
      failure, count := CountParts(id, u);
      if failure.None? {
        n := count;
        if SessionSound(digests, AllSessions(), storage, u) {
          AcceptedParts(digests, AllSessions(), storage, u, n);
        }
        failure := AssembleParts(id, u, count, expectedMD5);
      }
    }

    /** Whether there is a complete session of the dataset, and of how many parts. */
    method CountParts(id: Uuid, u: string) returns (failure: Option<Failure>, n: nat)
      requires Valid()
      ensures failure.None? ==> IsSession(uploads, id, u) && n > 0 && Complete(AllSessions(), u, n)
      ensures failure.Some? ==> failure.value == PartsRefusal(AllSessions(), id, u)
                                && (IsSession(uploads, id, u) ==> forall m: nat :: m > 0 ==> !Complete(AllSessions(), u, m))
    {
      assert forall k :: k in parts ==> k.number > 0;
      hide OwnKeys, TablesOk, Complete, NumberMissing, PartTooSmall;
      n := 0;
      if u !in uploads || uploads[u].dataset != id {
        return Some(NotFound), n;
      }
      var ns := FindParts(u);
      failure := CheckParts(u, ns);
      n := |ns|;
      if failure == Some(InvalidPart) { assert forall i :: PartKey(u, i) !in parts; }
      if failure.Some? && failure != Some(InvalidPart) { assert ns[0] in ns && PartKey(u, ns[0]) in parts; }
    }

    method AssembleParts(id: Uuid, u: string, n: nat, expectedMD5: string) returns (failure: Option<Failure>)
      requires Valid() && u in uploads && uploads[u].dataset == id && Complete(AllSessions(), u, n)
      modifies `rows, `objects, `uploads, `parts, `files, `multiparts
      ensures Valid() && OthersAsBefore(id)
      ensures OtherSessions(u)
      ensures failure.None? <==> CanAssemble(old(AllSessions()), storage, limits, digests, old(multiparts), u, n, expectedMD5)
      ensures failure.Some? ==> failure.value == ContentRefusal(old(AllSessions()), storage, limits, digests, old(multiparts), u, n, expectedMD5)
      ensures failure.None? ==> id in old(rows) && FilesThere(Stored(old(AllSessions()), storage, u), u, n)
                                && Datasets() == old(Datasets())[id := old(Refilled(id, Assembled(Stored(AllSessions(), storage, u), u, n)))]
                                && BytesMoved(id, old(Assembled(Stored(AllSessions(), storage, u), u, n)))
                                && rows[id].ref == if Remote(old(AllSessions()), storage, u) then old(uploads)[u].ref else None
      ensures failure.None? ==> RecordTrue(id) && (old(AllTrue()) ==> AllTrue())
      ensures failure.None? ==> AllSessions() == SessionGone(old(AllSessions()), u, storage)
                                && multiparts == WithoutMultipart(old(multiparts), old(AllSessions()), storage, u)
      ensures failure.Some? ==> rows == old(rows) && AllSessions() == old(AllSessions())
                                && Traceless(old(objects), objects, old(multiparts), multiparts, AllSessions(), storage, failure.value, u, n)
      ensures failure.Some? ==> AsBeforeOrRefilled(digests, rows, old(objects), objects, AllSessions(), storage, id, u, n)
    {
      assert UploadOk(uploads[u], rows);
      var previous := rows[id].ref;
      NothingChanged(digests, AllSessions(), storage, u);
      hide OwnKeys, TablesOk, SessionsKept, SessionSound, Complete, ObjectKeys.KeyBelongsTo, Catalogue, Put, SessionGone, Stored, Assembled;
      hide FilesThere, RowOk, RowsOk, OthersKept, DigestOk, ContentRefusal, WithoutMultipart, CanAssemble, Traceless, AsBeforeOrRefilled, Refilled, Drop, ReplacedRef;
      var r, ref := PutTogether(u, n, expectedMD5);
      if r.Err? {
        RefusalLeaves(digests, rows, old(objects), objects, old(multiparts), multiparts, AllSessions(), storage, id, u, n, r.error);
        return Some(r.error);
      }
      StoredIsThere(AllSessions(), storage, limits, digests, old(multiparts), u, n, expectedMD5);
      FinishAssembly(id, u, ref, r.value, previous, old(objects));
      StayTrue(digests, old(rows), old(objects), rows, objects, id);
      failure := None;
    }

    /** The content of a complete session, by the store or from the part files. */
    method PutTogether(u: string, n: nat, expectedMD5: string) returns (r: Result<Bytes, Failure>, ref: Option<Ref>)
      requires u in uploads && Complete(AllSessions(), u, n)
      modifies `objects, `multiparts
      ensures ref == if Remote(AllSessions(), storage, u) then uploads[u].ref else None
      ensures r.Ok? <==> CanAssemble(AllSessions(), storage, limits, digests, old(multiparts), u, n, expectedMD5)
      ensures r.Ok? ==> r.value == Assembled(Stored(AllSessions(), storage, u), u, n)
      ensures r.Ok? ==> objects == Put(old(objects), ref, r.value)
      ensures r.Ok? ==> multiparts == WithoutMultipart(old(multiparts), AllSessions(), storage, u)
      ensures r.Err? ==> r.error == ContentRefusal(AllSessions(), storage, limits, digests, old(multiparts), u, n, expectedMD5)
      ensures r.Err? ==> Traceless(old(objects), objects, old(multiparts), multiparts, AllSessions(), storage, r.error, u, n)
    {
      hide Complete, Assembled, FilesThere, StoreHolds, DigestOk;
      ref := None;
      if storage.S3? && uploads[u].ref.Some? {
        ref := uploads[u].ref;
        r := AssembleRemoteUpload(u, n, expectedMD5);
      } else {
        r := AssembleInlineUpload(u, n, expectedMD5);
        if r.Ok? && |r.value| > MAX_BYTEA {
          WithinTotal(files, u, n, limits.maxTotalSize);
          r := Err(TooLargeForTable);
        }
      }
    }

    /** The row, the object it no longer uses, the session, the part files. */
    method FinishAssembly(id: Uuid, u: string, ref: Option<Ref>, content: Bytes, previous: Option<Ref>, ghost before: Objects)
      requires Valid() && objects == Put(before, ref, content)
      requires id in rows && previous == rows[id].ref && (ref.Some? ==> ObjectKeys.KeyBelongsTo(ref.value.key, id))
      modifies `rows, `objects, `uploads, `parts, `files
      ensures Valid() && RecordTrue(id) && OthersKept(digests, old(rows), before, rows, objects, id)
      ensures Datasets() == Catalogue(old(rows), before)[id := old(Refilled(id, content))]
      ensures AllSessions() == SessionGone(old(AllSessions()), u, storage) && rows.Keys == old(rows.Keys)
      ensures rows[id].ref == ref && objects == Drop(Put(before, ref, content), ReplacedRef(storage, previous, ref))
      ensures OtherSessions(u)
    {
      hide OwnKeys, TablesOk, SessionsKept, SessionSound, Catalogue, ObjectKeys.KeyBelongsTo, WithoutSession, WithoutFiles, Put, Refilled, RowOk, OthersKept;
      WriteAssembled(id, ref, content, previous, before);
      EndSession(digests, AllSessions(), storage, rows, u);
      DeleteSession(u);
      if storage.Inline? {
        RemoveFiles(u);
      }
    }

    method WriteAssembled(id: Uuid, ref: Option<Ref>, content: Bytes, previous: Option<Ref>, ghost before: Objects)
      requires Valid() && objects == Put(before, ref, content)
      requires id in rows && previous == rows[id].ref && (ref.Some? ==> ObjectKeys.KeyBelongsTo(ref.value.key, id))
      modifies `rows, `objects
      ensures Valid() && RecordTrue(id) && OthersKept(digests, old(rows), before, rows, objects, id)
      ensures Datasets() == Catalogue(old(rows), before)[id := old(Refilled(id, content))] && rows.Keys == old(rows.Keys)
      ensures rows[id].ref == ref && objects == Drop(Put(before, ref, content), ReplacedRef(storage, previous, ref))
    {
      var row := rows[id];
      var next := row.(content := if ref.Some? then [] else content, checksum := digests.sha256(content),
                       size := if ref.Some? then Int32(|content|) else |content|, ref := ref);
      assert next == WithBytes(digests, next, ref, content);
      hide OwnKeys, TablesOk, Catalogue, ObjectKeys.KeyBelongsTo, Put, WithBytes, RowOk, OthersKept, Drop, ReplacedRef;
      SaveRow(id, next, content, previous, before);
    }
  }

  lemma StoredIsThere(s: Sessions, storage: Storage, limits: Limits, d: Digests, atStore: map<string, map<int, Bytes>>,
                      u: string, n: nat, expectedMD5: string)
    requires u in s.uploads && CanAssemble(s, storage, limits, d, atStore, u, n, expectedMD5)
    ensures FilesThere(Stored(s, storage, u), u, n)
  {}

  lemma FewerFiles(d: Digests, s: Sessions, storage: Storage, rows: DatasetRows, u: string, path: PartKey)
    requires TablesOk(s, rows) && path.upload == u
    ensures TablesOk(s.(files := s.files - {path}), rows)
    ensures SessionSound(d, s, storage, u) ==> SessionSound(d, s.(files := s.files - {path}), storage, u)
    ensures SessionsKept(d, s, s.(files := s.files - {path}), storage, u)
  {
    var t := s.(files := s.files - {path});
    forall v | v != u ensures SessionSound(d, t, storage, v) <==> SessionSound(d, s, storage, v) {
      SameSession(d, s, t, storage, v);
    }
    if SessionSound(d, s, storage, u) {
      forall k | k in s.parts && k.upload == u ensures PartSound(d, t, storage, k) {
        assert PartSound(d, s, storage, k);
      }
    }
  }

  lemma ReplacedIsOther(storage: Storage, previous: Option<Ref>, next: Option<Ref>)
    ensures ReplacedRef(storage, previous, next).Some? ==>
              ReplacedRef(storage, previous, next) == previous && ReplacedRef(storage, previous, next) != next
  {}

  /** New bytes over a row, whose object, if it is another one, goes. */
  lemma StoreOverRow(d: Digests, rows: DatasetRows, objects: Objects, id: Uuid, row: Row, ref: Option<Ref>, bytes: Bytes, gone: Option<Ref>)
    requires OwnKeys(rows) && id in rows && (ref.Some? ==> ObjectKeys.KeyBelongsTo(ref.value.key, id))
    requires gone.Some? ==> gone == rows[id].ref && gone != ref
    ensures var rows', objects' := rows[id := WithBytes(d, row, ref, bytes)], Drop(Put(objects, ref, bytes), gone);
            && OwnKeys(rows') && OthersKept(d, rows, objects, rows', objects', id) && RowOk(d, rows'[id], objects')
            && Catalogue(rows', objects') == Catalogue(rows, objects)[id := Dataset(row.name, row.format, row.tags, row.thing, bytes)]
  {
    assert gone.Some? ==> ObjectKeys.KeyBelongsTo(gone.value.key, id);
    hide *;
    StoreBytes(d, rows, objects, id, row, ref, bytes, gone);
  }

  lemma RemoveRow(d: Digests, rows: DatasetRows, objects: Objects, id: Uuid, gone: Option<Ref>)
    requires OwnKeys(rows) && id in rows && (gone.Some? ==> gone == rows[id].ref)
    ensures OwnKeys(rows - {id}) && OthersKept(d, rows, objects, rows - {id}, Drop(objects, gone), id)
    ensures Catalogue(rows - {id}, Drop(objects, gone)) == Catalogue(rows, objects) - {id}
  {
    assert gone.Some? ==> ObjectKeys.KeyBelongsTo(gone.value.key, id);
    hide *;
    RemoveDataset(d, rows, objects, id, gone);
  }

  lemma PutKeepsOthers(d: Digests, rows: DatasetRows, objects: Objects, id: Uuid, ref: Option<Ref>, bytes: Bytes)
    requires OwnKeys(rows) && (ref.Some? ==> ObjectKeys.KeyBelongsTo(ref.value.key, id))
    ensures OthersKept(d, rows, objects, rows, objects, id)
    ensures OthersKept(d, rows, objects, rows, Put(objects, ref, bytes), id)
  {
    PutTouchesOne(d, rows, objects, id, ref, bytes, None);
  }

  /** What a refused assembly leaves of the datasets. */
  lemma RefusalLeaves(d: Digests, rows: DatasetRows, before: Objects, after: Objects,
                      atStore: map<string, map<int, Bytes>>, atStore': map<string, map<int, Bytes>>,
                      s: Sessions, storage: Storage, id: Uuid, u: string, n: nat, failure: Failure)
    requires OwnKeys(rows) && u in s.uploads && s.uploads[u].dataset == id && UploadOk(s.uploads[u], rows)
    requires Traceless(before, after, atStore, atStore', s, storage, failure, u, n)
    ensures OthersKept(d, rows, before, rows, after, id)
    ensures AsBeforeOrRefilled(d, rows, before, after, s, storage, id, u, n)
  {
    hide OwnKeys, RowOk, OthersKept, Catalogue, FilesThere, Assembled, Stored, ObjectKeys.KeyBelongsTo;
    if after == before {
      PutKeepsOthers(d, rows, before, id, None, []);
    } else {
      var ref, bytes := s.uploads[u].ref, Assembled(Stored(s, storage, u), u, n);
      PutKeepsOthers(d, rows, before, id, ref, bytes);
      PutWithoutRow(d, rows, before, id, ref.value, bytes);
    }
  }

  /** If all records were true they all are, once the one that changed is. */
  lemma StayTrue(d: Digests, rows: DatasetRows, objects: Objects, rows': DatasetRows, objects': Objects, id: Uuid)
    requires OthersKept(d, rows, objects, rows', objects', id) && rows'.Keys <= rows.Keys + {id}
    requires id in rows' ==> RowOk(d, rows'[id], objects')
    ensures RowsOk(d, rows, objects) ==> RowsOk(d, rows', objects')
  {
    hide *;
    if RowsOk(d, rows, objects) {
      RecordsStayTrue(d, rows, objects, rows', objects', id);
    }
  }

  lemma FieldsStayTrue(d: Digests, rows: DatasetRows, rows': DatasetRows, objects: Objects, id: Uuid)
    requires OthersKept(d, rows, objects, rows', objects, id) && id in rows && rows'.Keys == rows.Keys
    requires RowOk(d, rows[id], objects) ==> RowOk(d, rows'[id], objects)
    ensures RowsOk(d, rows, objects) ==> RowsOk(d, rows', objects)
  {
    hide RowOk, OthersKept;
    if RowsOk(d, rows, objects) {
      RecordsStayTrue(d, rows, objects, rows', objects, id);
    }
  }

  lemma CatalogueAt(rows: DatasetRows, objects: Objects, id: Uuid)
    requires id in rows
    ensures Catalogue(rows, objects)[id] == DatasetOf(rows[id], objects)
  {}

  lemma Int32OfSmall(n: nat)
    ensures n <= MAX_BYTEA ==> Int32(n) == n
  {
    Int32Exact(n);
  }

  lemma UpdateOfNothing(datasets: map<Uuid, Dataset>, id: Uuid, p: Update)
    requires id in datasets && p.IsEmpty()
    ensures datasets[id := Updated(datasets[id], p)] == datasets
  {}

  /** Objects of ids without a row are nobody's. */
  lemma UnusedObject(d: Digests, rows: DatasetRows, objects: Objects, id: Uuid, ref: Ref)
    requires OwnKeys(rows) && id !in rows && ObjectKeys.KeyBelongsTo(ref.key, id)
    ensures OthersKept(d, rows, objects, rows, objects - {ref}, id)
    ensures Catalogue(rows, objects - {ref}) == Catalogue(rows, objects)
  {
    hide ObjectKeys.KeyBelongsTo;
    OtherDatasetsUntouched(d, rows, objects, objects - {ref}, id, ref);
  }
}
