/**
 Dataset rows over an object store: what a dataset contains, wherever its bytes
 are kept, and when a row and its object agree.
 */
module Datasets {
  import opened Wrappers
  import opened ObjectKeys

  type Bytes = seq<bv8>

  /** Hex digests, as functions of the bytes. */
  datatype Digests = Digests(sha256: Bytes -> string, md5: Bytes -> string)

  /** No ref means the inline backend; the table's check constraint rules out any other mix. */
  datatype Row = Row(name: string, format: string, tags: seq<string>, thing: Option<Uuid>,
                     content: Bytes, checksum: string, size: int, ref: Option<Ref>)

  type DatasetRows = map<Uuid, Row>

  type Objects = map<Ref, Bytes>

  const INT32: int := 0x1_0000_0000
  const MAX_BYTEA: int := 0x3FFF_FFFF

  /** Conversion of a 64-bit integer to int32. */
  function Int32(n: int): (r: int)
    ensures -0x8000_0000 <= r < 0x8000_0000 && (n - r) % 0x1_0000_0000 == 0
  {
    var m := n % INT32;
    if m < 0x8000_0000 then m else m - INT32
  }

  lemma Int32Exact(n: nat)
    ensures Int32(n) <= n
    ensures Int32(n) == n <==> n < 0x8000_0000
  {
    assert n % INT32 <= n;
  }

  // ----- what a dataset is

  /** A dataset as its callers know it. */
  datatype Dataset = Dataset(name: string, format: string, tags: seq<string>, thing: Option<Uuid>, bytes: Bytes)

  /** Size and checksum are recorded as an int32 and a digest of the bytes, and an object is there. */
  ghost predicate RowOk(d: Digests, row: Row, objects: Objects) {
    match row.ref
    case None => row.size == |row.content| && row.checksum == d.sha256(row.content)
    case Some(ref) =>
      ref in objects && row.size == Int32(|objects[ref]|) && row.checksum == d.sha256(objects[ref])
  }

  ghost predicate RowsOk(d: Digests, rows: DatasetRows, objects: Objects) {
    forall id :: id in rows ==> RowOk(d, rows[id], objects)
  }

  /** The objects rows refer to are kept under the keys of their datasets. */
  ghost predicate OwnKeys(rows: DatasetRows) {
    forall id :: id in rows && rows[id].ref.Some? ==> ObjectKeys.KeyBelongsTo(rows[id].ref.value.key, id)
  }

  function BytesOf(row: Row, objects: Objects): Bytes {
    match row.ref
    case None => row.content
    case Some(ref) => if ref in objects then objects[ref] else []
  }

  function DatasetOf(row: Row, objects: Objects): Dataset {
    Dataset(row.name, row.format, row.tags, row.thing, BytesOf(row, objects))
  }

  /** All datasets, by id. */
  function Catalogue(rows: DatasetRows, objects: Objects): (c: map<Uuid, Dataset>)
    ensures c.Keys == rows.Keys
  {
    map id | id in rows :: DatasetOf(rows[id], objects)
  }

  /** Every dataset but one keeps its row, and its record is as true or false as it was. */
  ghost predicate OthersKept(d: Digests, rows: DatasetRows, objects: Objects, rows': DatasetRows, objects': Objects, id: Uuid) {
    forall x :: x in rows && x != id ==>
      x in rows' && rows'[x] == rows[x] && (RowOk(d, rows[x], objects') <==> RowOk(d, rows[x], objects))
  }

  /** With one record true and the others kept, all are true if they were. */
  lemma RecordsStayTrue(d: Digests, rows: DatasetRows, objects: Objects, rows': DatasetRows, objects': Objects, id: Uuid)
    requires OthersKept(d, rows, objects, rows', objects', id) && rows'.Keys <= rows.Keys + {id}
    requires RowsOk(d, rows, objects) && (id in rows' ==> RowOk(d, rows'[id], objects'))
    ensures RowsOk(d, rows', objects')
  {
    hide RowOk;
    forall x | x in rows' ensures RowOk(d, rows'[x], objects') {
      if x != id { assert x in rows; }
    }
  }

  // ----- changes to the store that concern one dataset

  ghost predicate SameExcept(a: Objects, b: Objects, ref: Ref) {
    && (forall r :: r != ref ==> (r in a <==> r in b))
    && (forall r :: r != ref && r in a ==> a[r] == b[r])
  }

  /** Storing or deleting an object of one dataset changes no other one. */
  lemma OtherDatasetsUntouched(d: Digests, rows: DatasetRows, objects: Objects, after: Objects, id: Uuid, ref: Ref)
    requires OwnKeys(rows) && ObjectKeys.KeyBelongsTo(ref.key, id) && SameExcept(objects, after, ref)
    ensures OthersKept(d, rows, objects, rows, after, id)
    ensures forall x :: x in rows && x != id ==> DatasetOf(rows[x], after) == DatasetOf(rows[x], objects)
  {
    hide ObjectKeys.KeyBelongsTo;
    forall x | x in rows && x != id
      ensures RowOk(d, rows[x], after) <==> RowOk(d, rows[x], objects)
      ensures DatasetOf(rows[x], after) == DatasetOf(rows[x], objects)
    {
      assert rows[x].ref != Some(ref) by {
        if rows[x].ref == Some(ref) { KeysAreDistinct(ref.key, x, id); }
      }
    }
  }

  /** What the row of a dataset looks like after new bytes are stored inline or as an object. */
  function WithBytes(d: Digests, row: Row, ref: Option<Ref>, bytes: Bytes): Row {
    match ref
    case None => row.(content := bytes, checksum := d.sha256(bytes), size := |bytes|, ref := None)
    case Some(r) => row.(content := [], checksum := d.sha256(bytes), size := Int32(|bytes|), ref := Some(r))
  }

  lemma WithBytesIsOk(d: Digests, row: Row, ref: Option<Ref>, bytes: Bytes, objects: Objects)
    requires ref.Some? ==> ref.value in objects && objects[ref.value] == bytes
    ensures RowOk(d, WithBytes(d, row, ref, bytes), objects)
    ensures DatasetOf(WithBytes(d, row, ref, bytes), objects) == Dataset(row.name, row.format, row.tags, row.thing, bytes)
    ensures WithBytes(d, row, ref, bytes).ref == ref
  {}

  /** The store after new bytes, and after the object they replace is gone. */
  function Put(objects: Objects, ref: Option<Ref>, bytes: Bytes): Objects {
    if ref.Some? then objects[ref.value := bytes] else objects
  }

  function Drop(objects: Objects, ref: Option<Ref>): Objects {
    if ref.Some? then objects - {ref.value} else objects
  }

  lemma PutTouchesOne(d: Digests, rows: DatasetRows, objects: Objects, id: Uuid, ref: Option<Ref>, bytes: Bytes, gone: Option<Ref>)
    requires OwnKeys(rows)
    requires ref.Some? ==> ObjectKeys.KeyBelongsTo(ref.value.key, id)
    requires gone.Some? ==> ObjectKeys.KeyBelongsTo(gone.value.key, id)
    ensures var after := Drop(Put(objects, ref, bytes), gone);
            && OthersKept(d, rows, objects, rows, after, id)
            && forall x :: x in rows && x != id ==> DatasetOf(rows[x], after) == DatasetOf(rows[x], objects)
  {
    hide ObjectKeys.KeyBelongsTo, RowOk, DatasetOf, OwnKeys;
    var put := Put(objects, ref, bytes);
    if ref.Some? { OtherDatasetsUntouched(d, rows, objects, put, id, ref.value); }
    if gone.Some? { OtherDatasetsUntouched(d, rows, put, Drop(put, gone), id, gone.value); }
  }

  /**
   New bytes for one dataset: its record is true, every other record is as it was, and the
   catalogue changes there and nowhere else, so no object that a row refers to is lost.
   */
  lemma StoreBytes(d: Digests, rows: DatasetRows, objects: Objects, id: Uuid, row: Row, ref: Option<Ref>, bytes: Bytes, gone: Option<Ref>)
    requires OwnKeys(rows)
    requires ref.Some? ==> ObjectKeys.KeyBelongsTo(ref.value.key, id)
    requires gone.Some? ==> ObjectKeys.KeyBelongsTo(gone.value.key, id) && gone != ref
    ensures var rows', objects' := rows[id := WithBytes(d, row, ref, bytes)], Drop(Put(objects, ref, bytes), gone);
            && OwnKeys(rows') && OthersKept(d, rows, objects, rows', objects', id) && RowOk(d, rows'[id], objects')
            && Catalogue(rows', objects') == Catalogue(rows, objects)[id := Dataset(row.name, row.format, row.tags, row.thing, bytes)]
  {
    var objects' := Drop(Put(objects, ref, bytes), gone);
    WithBytesIsOk(d, row, ref, bytes, objects');
    hide *;
    PutTouchesOne(d, rows, objects, id, ref, bytes, gone);
    ReplaceRow(d, rows, objects, objects', id, WithBytes(d, row, ref, bytes));
  }

  /** A new row over a store that is as it was for the others. */
  lemma ReplaceRow(d: Digests, rows: DatasetRows, objects: Objects, objects': Objects, id: Uuid, row: Row)
    requires OwnKeys(rows) && (row.ref.Some? ==> ObjectKeys.KeyBelongsTo(row.ref.value.key, id))
    requires OthersKept(d, rows, objects, rows, objects', id)
    requires forall x :: x in rows && x != id ==> DatasetOf(rows[x], objects') == DatasetOf(rows[x], objects)
    ensures OwnKeys(rows[id := row]) && OthersKept(d, rows, objects, rows[id := row], objects', id)
    ensures rows[id := row][id] == row
    ensures Catalogue(rows[id := row], objects') == Catalogue(rows, objects)[id := DatasetOf(row, objects')]
  {
    hide *;
    ReplaceInCatalogue(rows, objects, objects', id, row);
    ReplaceOwnKey(rows, id, row);
    ReplaceKeepsOthers(d, rows, objects, objects', id, row);
  }

  lemma ReplaceOwnKey(rows: DatasetRows, id: Uuid, row: Row)
    requires OwnKeys(rows) && (row.ref.Some? ==> ObjectKeys.KeyBelongsTo(row.ref.value.key, id))
    ensures OwnKeys(rows[id := row])
  {
    hide ObjectKeys.KeyBelongsTo;
  }

  lemma ReplaceKeepsOthers(d: Digests, rows: DatasetRows, objects: Objects, objects': Objects, id: Uuid, row: Row)
    requires OthersKept(d, rows, objects, rows, objects', id)
    ensures OthersKept(d, rows, objects, rows[id := row], objects', id)
  {
    hide RowOk;
  }

  lemma ReplaceInCatalogue(rows: DatasetRows, objects: Objects, objects': Objects, id: Uuid, row: Row)
    requires forall x :: x in rows && x != id ==> DatasetOf(rows[x], objects') == DatasetOf(rows[x], objects)
    ensures Catalogue(rows[id := row], objects') == Catalogue(rows, objects)[id := DatasetOf(row, objects')]
  {
    hide DatasetOf;
    var before, after := Catalogue(rows, objects), Catalogue(rows[id := row], objects');
    forall x | x in after ensures after[x] == before[id := DatasetOf(row, objects')][x] {
      if x != id { assert x in rows && rows[id := row][x] == rows[x]; }
    }
  }

  /** Without its row, a dataset may lose its object. */
  lemma RemoveDataset(d: Digests, rows: DatasetRows, objects: Objects, id: Uuid, ref: Option<Ref>)
    requires OwnKeys(rows) && (ref.Some? ==> ObjectKeys.KeyBelongsTo(ref.value.key, id))
    ensures OwnKeys(rows - {id}) && OthersKept(d, rows, objects, rows - {id}, Drop(objects, ref), id)
    ensures Catalogue(rows - {id}, Drop(objects, ref)) == Catalogue(rows, objects) - {id}
  {
    hide ObjectKeys.KeyBelongsTo, RowOk, DatasetOf;
    if ref.Some? { OtherDatasetsUntouched(d, rows, objects, Drop(objects, ref), id, ref.value); }
  }

  /** Other fields of a row change nothing about its bytes or the truth of its record. */
  lemma ChangeFields(d: Digests, rows: DatasetRows, objects: Objects, id: Uuid, row: Row)
    requires OwnKeys(rows) && id in rows
    requires row.content == rows[id].content && row.checksum == rows[id].checksum && row.size == rows[id].size && row.ref == rows[id].ref
    ensures OwnKeys(rows[id := row]) && OthersKept(d, rows, objects, rows[id := row], objects, id)
    ensures RowOk(d, row, objects) <==> RowOk(d, rows[id], objects)
    ensures Catalogue(rows[id := row], objects)
         == Catalogue(rows, objects)[id := Dataset(row.name, row.format, row.tags, row.thing, Catalogue(rows, objects)[id].bytes)]
  {
    assert DatasetOf(row, objects) == Dataset(row.name, row.format, row.tags, row.thing, BytesOf(rows[id], objects));
    assert RowOk(d, row, objects) <==> RowOk(d, rows[id], objects);
    hide ObjectKeys.KeyBelongsTo, RowOk, BytesOf;
    ReplaceRow(d, rows, objects, objects, id, row);
  }

  /**
   An object stored or replaced without its row, as by an assembled upload whose digest is
   then refused: only a dataset whose row refers to that object notices, and it has the new bytes.
   */
  lemma PutWithoutRow(d: Digests, rows: DatasetRows, objects: Objects, id: Uuid, ref: Ref, bytes: Bytes)
    requires OwnKeys(rows) && ObjectKeys.KeyBelongsTo(ref.key, id) && id in rows
    ensures var after, row := objects[ref := bytes], rows[id];
            if row.ref == Some(ref)
            then Catalogue(rows, after) == Catalogue(rows, objects)[id := Dataset(row.name, row.format, row.tags, row.thing, bytes)]
            else Catalogue(rows, after) == Catalogue(rows, objects) && (RowOk(d, row, after) <==> RowOk(d, row, objects))
  {
    var after := objects[ref := bytes];
    assert DatasetOf(rows[id], after).bytes == if rows[id].ref == Some(ref) then bytes else BytesOf(rows[id], objects);
    assert rows[id].ref != Some(ref) ==> (RowOk(d, rows[id], after) <==> RowOk(d, rows[id], objects));
    hide ObjectKeys.KeyBelongsTo, RowOk, BytesOf;
    OtherDatasetsUntouched(d, rows, objects, after, id, ref);
  }
}
