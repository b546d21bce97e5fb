/**
 Upload sessions: part rows, part files, multipart uploads at the store, and the
 bodies that were accepted.
 */
module Uploads {
  import opened Wrappers
  import opened ObjectKeys
  import opened Datasets
  import Order

  const MIN_PART_SIZE: int := 5 * 1024 * 1024

  /** ref is set for a session that was created at the object store. */
  datatype Upload = Upload(dataset: Uuid, ref: Option<Ref>, backendId: string)

  /** The store's ETag of a part stands for the body it identifies. */
  datatype PartRow = PartRow(size: int, md5: string, etag: Option<Bytes>)

  datatype PartKey = PartKey(upload: string, number: int)

  type Bodies = map<PartKey, Bytes>

  /** accepted is history: the body of the last successful upload under each part number. */
  datatype Sessions = Sessions(uploads: map<string, Upload>, parts: map<PartKey, PartRow>, files: Bodies, accepted: Bodies)

  function Lower(s: string): string { seq(|s|, i requires 0 <= i < |s| => if 'A' <= s[i] <= 'Z' then s[i] - 'A' + 'a' else s[i]) }

  /** An absent expectation is met by everything; digests are compared without regard to case. */
  predicate DigestOk(actual: string, expected: string) { expected == "" || Lower(actual) == Lower(expected) }

  /** Two texts that differ in nothing but the case of letters from A to Z. */
  predicate SameButForCase(a: string, b: string) {
    |a| == |b| && forall i :: 0 <= i < |a| ==>
                    a[i] == b[i] || ('A' <= a[i] <= 'Z' && b[i] == a[i] - 'A' + 'a') || ('A' <= b[i] <= 'Z' && a[i] == b[i] - 'A' + 'a')
  }

  lemma DigestOkIff(actual: string, expected: string)
    ensures DigestOk(actual, expected) <==> expected == "" || SameButForCase(actual, expected)
  {
    if SameButForCase(actual, expected) {
      assert Lower(actual) == Lower(expected);
    }
    if Lower(actual) == Lower(expected) {
      forall i | 0 <= i < |actual|
        ensures actual[i] == expected[i] || ('A' <= actual[i] <= 'Z' && expected[i] == actual[i] - 'A' + 'a')
                || ('A' <= expected[i] <= 'Z' && actual[i] == expected[i] - 'A' + 'a')
      {
        assert Lower(actual)[i] == Lower(expected)[i];
      }
    }
  }

  /** Sessions of this kind are assembled by the object store. */
  predicate Remote(s: Sessions, storage: Storage, u: string)
    requires u in s.uploads
  {
    storage.S3? && s.uploads[u].ref.Some?
  }

  /** What keys and checks of the tables enforce, and that sessions at the store use the key of their dataset. */
  ghost predicate TablesOk(s: Sessions, rows: DatasetRows) {
    && (forall u :: u in s.uploads ==> UploadOk(s.uploads[u], rows))
    && (forall k :: k in s.parts ==> k.upload in s.uploads && 0 < k.number < 0x8000_0000 && 0 <= s.parts[k].size)
  }

  ghost predicate UploadOk(u: Upload, rows: DatasetRows) {
    u.dataset in rows && (u.ref.Some? ==> ObjectKeys.KeyBelongsTo(u.ref.value.key, u.dataset))
  }

  /** The row of a part describes the accepted body, and an ETag or file that is there belongs to it. */
  ghost predicate PartSound(d: Digests, s: Sessions, storage: Storage, k: PartKey)
    requires k in s.parts && k.upload in s.uploads
  {
    && k in s.accepted && s.parts[k].size == Int32(|s.accepted[k]|)
    && s.parts[k].md5 == Lower(d.md5(s.accepted[k]))
    && (s.parts[k].etag.Some? ==> s.parts[k].etag.value == s.accepted[k])
    && (!Remote(s, storage, k.upload) && k in s.files ==> s.files[k] == s.accepted[k])
  }

  ghost predicate SessionSound(d: Digests, s: Sessions, storage: Storage, u: string) {
    u in s.uploads && forall k :: k in s.parts && k.upload == u ==> PartSound(d, s, storage, k)
  }

  /** Every session but one is as sound after as before. */
  ghost predicate SessionsKept(d: Digests, before: Sessions, after: Sessions, storage: Storage, u: string) {
    forall v :: v != u ==> (SessionSound(d, after, storage, v) <==> SessionSound(d, before, storage, v))
  }

  lemma NothingChanged(d: Digests, s: Sessions, storage: Storage, u: string)
    ensures SessionsKept(d, s, s, storage, u)
  {}

  predicate FilesThere(files: Bodies, u: string, n: nat) {
    forall i :: 1 <= i <= n ==> PartKey(u, i) in files
  }

  /** The parts 1 to n one after the other. */
  function Assembled(bodies: Bodies, u: string, n: nat): Bytes
    requires FilesThere(bodies, u, n)
  {
    if n == 0 then [] else Assembled(bodies, u, n - 1) + bodies[PartKey(u, n)]
  }

  lemma {:induction false} SameBodies(a: Bodies, b: Bodies, u: string, n: nat)
    requires FilesThere(a, u, n) && FilesThere(b, u, n)
    requires forall i :: 1 <= i <= n ==> a[PartKey(u, i)] == b[PartKey(u, i)]
    ensures Assembled(a, u, n) == Assembled(b, u, n)
    decreases n
  {
    if n > 0 {
      SameBodies(a, b, u, n - 1);
      assert PartKey(u, n) in a;
    }
  }

  /** A session whose part numbers are 1 to n, all but the last of the least size. */
  ghost predicate Complete(s: Sessions, u: string, n: nat) {
    && (forall i :: PartKey(u, i) in s.parts <==> 1 <= i <= n)
    && (forall i :: 1 <= i < n ==> MIN_PART_SIZE <= s.parts[PartKey(u, i)].size)
  }

  function WithoutSession(s: Sessions, u: string): Sessions {
    s.(uploads := s.uploads - {u}, parts := map k | k in s.parts && k.upload != u :: s.parts[k])
  }

  function WithoutFiles(s: Sessions, u: string): Sessions {
    s.(files := map k | k in s.files && k.upload != u :: s.files[k])
  }

  /** Deleting a dataset takes its sessions along, and with them their part rows. */
  function WithoutDataset(s: Sessions, id: Uuid): Sessions {
    s.(uploads := map u | u in s.uploads && s.uploads[u].dataset != id :: s.uploads[u],
       parts := map k | k in s.parts && (k.upload in s.uploads ==> s.uploads[k.upload].dataset != id) :: s.parts[k])
  }

  /** Ending one session leaves the tables in order and every other session as sound as it was. */
  lemma EndSession(d: Digests, s: Sessions, storage: Storage, rows: DatasetRows, u: string)
    requires TablesOk(s, rows)
    ensures TablesOk(WithoutSession(s, u), rows) && TablesOk(WithoutFiles(WithoutSession(s, u), u), rows)
    ensures SessionsKept(d, s, WithoutSession(s, u), storage, u)
    ensures SessionsKept(d, s, WithoutFiles(WithoutSession(s, u), u), storage, u)
  {
    forall v | v != u ensures SessionSound(d, WithoutSession(s, u), storage, v) <==> SessionSound(d, s, storage, v) {
      SameSession(d, s, WithoutSession(s, u), storage, v);
    }
    forall v | v != u ensures SessionSound(d, WithoutFiles(WithoutSession(s, u), u), storage, v) <==> SessionSound(d, s, storage, v) {
      SameSession(d, s, WithoutFiles(WithoutSession(s, u), u), storage, v);
    }
  }

  /** Soundness of a session depends on its own rows, parts, files and bodies. */
  lemma SameSession(d: Digests, s: Sessions, t: Sessions, storage: Storage, v: string)
    requires (v in s.uploads <==> v in t.uploads) && (v in s.uploads ==> s.uploads[v] == t.uploads[v])
    requires forall k: PartKey :: k.upload == v ==> (k in s.parts <==> k in t.parts) && (k in s.parts ==> s.parts[k] == t.parts[k])
    requires forall k: PartKey :: k.upload == v ==> (k in s.files <==> k in t.files) && (k in s.files ==> s.files[k] == t.files[k])
    requires forall k: PartKey :: k.upload == v ==> (k in s.accepted <==> k in t.accepted) && (k in s.accepted ==> s.accepted[k] == t.accepted[k])
    ensures SessionSound(d, s, storage, v) <==> SessionSound(d, t, storage, v)
  {
    if v in s.uploads {
      forall k | k in s.parts && k.upload == v ensures PartSound(d, s, storage, k) <==> PartSound(d, t, storage, k) {}
    }
  }

  lemma EndDataset(d: Digests, s: Sessions, storage: Storage, rows: DatasetRows, id: Uuid)
    requires TablesOk(s, rows)
    ensures TablesOk(WithoutDataset(s, id), rows - {id})
    ensures forall v :: v in s.uploads && s.uploads[v].dataset != id ==>
                          (SessionSound(d, WithoutDataset(s, id), storage, v) <==> SessionSound(d, s, storage, v))
  {
    forall v | v in s.uploads && s.uploads[v].dataset != id
      ensures SessionSound(d, WithoutDataset(s, id), storage, v) <==> SessionSound(d, s, storage, v)
    {
      SameSession(d, s, WithoutDataset(s, id), storage, v);
    }
  }

  lemma MoreRows(s: Sessions, rows: DatasetRows, after: DatasetRows)
    requires TablesOk(s, rows) && rows.Keys <= after.Keys
    ensures TablesOk(s, after)
  {}

  /** A new session starts sound. */
  lemma NewSession(d: Digests, s: Sessions, storage: Storage, rows: DatasetRows, u: string, upload: Upload)
    requires TablesOk(s, rows) && u !in s.uploads && UploadOk(upload, rows)
    ensures TablesOk(s.(uploads := s.uploads[u := upload]), rows)
    ensures SessionSound(d, s.(uploads := s.uploads[u := upload]), storage, u)
    ensures SessionsKept(d, s, s.(uploads := s.uploads[u := upload]), storage, u)
  {
    var t := s.(uploads := s.uploads[u := upload]);
    forall v | v != u ensures SessionSound(d, t, storage, v) <==> SessionSound(d, s, storage, v) {
      SameSession(d, s, t, storage, v);
    }
  }

  // ----- storing one part

  /** The row of a part is keyed by the int32 of its number, its file by the number itself. */
  function RowKey(u: string, number: int): PartKey { PartKey(u, Int32(number)) }

  function WithPart(d: Digests, s: Sessions, u: string, number: int, body: Bytes, etag: Option<Bytes>): Sessions {
    var k := RowKey(u, number);
    s.(parts := s.parts[k := PartRow(Int32(|body|), Lower(d.md5(body)), etag)],
       files := if etag.Some? then s.files else s.files[PartKey(u, number) := body],
       accepted := s.accepted[k := body])
  }

  /** An accepted part keeps the tables in order, in every state and for every number. */
  lemma PartKeepsTables(d: Digests, s: Sessions, rows: DatasetRows, u: string, number: int, body: Bytes, etag: Option<Bytes>)
    requires TablesOk(s, rows) && u in s.uploads && Int32(number) > 0 && Int32(|body|) >= 0
    ensures TablesOk(WithPart(d, s, u, number, body, etag), rows)
  {}

  /**
   The store keeps the body under the number of the row, and so does the disk unless the
   number is no int32: then the file of the row is missing or holds what it held.
   */
  predicate PartInPlace(s: Sessions, storage: Storage, u: string, number: int, body: Bytes)
    requires u in s.uploads
  {
    Remote(s, storage, u) || Int32(number) == number || RowKey(u, number) !in s.files || s.files[RowKey(u, number)] == body
  }

  /** The part uploaded is sound exactly if its body is in place. */
  lemma PartIsSoundIff(d: Digests, s: Sessions, storage: Storage, u: string, number: int, body: Bytes, etag: Option<Bytes>)
    requires u in s.uploads && etag == if Remote(s, storage, u) then Some(body) else None
    ensures PartSound(d, WithPart(d, s, u, number, body, etag), storage, RowKey(u, number)) <==> PartInPlace(s, storage, u, number, body)
  {}

  /** Every other part keeps what it had, in this session and in all others. */
  lemma OtherPartsKept(d: Digests, s: Sessions, storage: Storage, rows: DatasetRows, u: string, number: int, body: Bytes,
                       etag: Option<Bytes>, k: PartKey)
    requires TablesOk(s, rows) && u in s.uploads && k in s.parts && k != RowKey(u, number)
    ensures PartSound(d, WithPart(d, s, u, number, body, etag), storage, k) <==> PartSound(d, s, storage, k)
  {
    assert Int32(number) != number ==> !(0 < number < 0x8000_0000);
  }

  /** What an accepted part does to the soundness of sessions. */
  lemma PartKeepsSessionsIff(d: Digests, s: Sessions, storage: Storage, rows: DatasetRows, u: string, number: int, body: Bytes,
                             etag: Option<Bytes>)
    requires TablesOk(s, rows) && u in s.uploads
    requires etag == if Remote(s, storage, u) then Some(body) else None
    ensures var t := WithPart(d, s, u, number, body, etag);
            && SessionsKept(d, s, t, storage, u)
            && (SessionSound(d, s, storage, u) ==> (SessionSound(d, t, storage, u) <==> PartInPlace(s, storage, u, number, body)))
  {
    var k, t := RowKey(u, number), WithPart(d, s, u, number, body, etag);
    forall v | v != u ensures SessionSound(d, t, storage, v) <==> SessionSound(d, s, storage, v) {
      SameSession(d, s, t, storage, v);
    }
    PartIsSoundIff(d, s, storage, u, number, body, etag);
    forall x | x in s.parts && x != k ensures PartSound(d, t, storage, x) <==> PartSound(d, s, storage, x) {
      OtherPartsKept(d, s, storage, rows, u, number, body, etag, x);
    }
    assert k in t.parts && k.upload == u;
  }

  /** Re-uploading part one under a number that wraps to it leaves the old file in place. */
  lemma WrappedPartIsLost(d: Digests)
    ensures var u := Upload("0", None, "");
            var s := Sessions(map["u" := u], map[], map[], map[]);
            var first := WithPart(d, s, "u", 1, [1], None);
            var again := WithPart(d, first, "u", INT32 + 1, [2], None);
            && again.parts.Keys == {PartKey("u", 1)} && again.accepted[PartKey("u", 1)] == [2] && again.files[PartKey("u", 1)] == [1]
            && SessionSound(d, first, Inline, "u") && !SessionSound(d, again, Inline, "u")
  {
    assert Int32(INT32 + 1) == 1 && Int32(1) == 1;
    var s := Sessions(map["u" := Upload("0", None, "")], map[], map[], map[]);
    var again := WithPart(d, WithPart(d, s, "u", 1, [1], None), "u", INT32 + 1, [2], None);
    assert PartKey("u", 1) in again.parts && !PartSound(d, again, Inline, PartKey("u", 1));
  }

  lemma {:induction false} AssembledGrows(bodies: Bodies, u: string, i: nat, n: nat)
    requires i <= n && FilesThere(bodies, u, n)
    ensures |Assembled(bodies, u, i)| <= |Assembled(bodies, u, n)|
    decreases n
  {
    if i < n { AssembledGrows(bodies, u, i, n - 1); }
  }

  /** The bodies a session is assembled from: part files, or what the store keeps under the ETags of the part rows. */
  function Stored(s: Sessions, storage: Storage, u: string): Bodies
    requires u in s.uploads
  {
    if Remote(s, storage, u) then map k | k in s.parts && s.parts[k].etag.Some? :: s.parts[k].etag.value else s.files
  }

  /** What is stored for parts 1 to n is the bodies last accepted, all but the last of the least size. */
  ghost predicate StandsForAccepted(s: Sessions, storage: Storage, u: string, n: nat)
    requires u in s.uploads
  {
    && FilesThere(s.accepted, u, n)
    && (FilesThere(Stored(s, storage, u), u, n) ==> Assembled(Stored(s, storage, u), u, n) == Assembled(s.accepted, u, n))
    && forall i :: 1 <= i < n ==> 5_242_880 <= |s.accepted[PartKey(u, i)]|
  }

  /** In a sound session these are the accepted bodies, which have at least the sizes recorded. */
  lemma AcceptedParts(d: Digests, s: Sessions, storage: Storage, u: string, n: nat)
    requires SessionSound(d, s, storage, u) && Complete(s, u, n)
    ensures StandsForAccepted(s, storage, u, n)
  {
    var stored := Stored(s, storage, u);
    forall i | 1 <= i <= n
      ensures PartKey(u, i) in s.accepted && s.parts[PartKey(u, i)].size <= |s.accepted[PartKey(u, i)]|
      ensures PartKey(u, i) in stored ==> stored[PartKey(u, i)] == s.accepted[PartKey(u, i)]
    {
      assert PartKey(u, i) in s.parts;
      assert PartSound(d, s, storage, PartKey(u, i));
      Int32Exact(|s.accepted[PartKey(u, i)]|);
    }
    if FilesThere(stored, u, n) {
      SameBodies(stored, s.accepted, u, n);
    }
  }

  // ----- what is wrong with a session that cannot be assembled

  /** The parts 1 to k are there and large enough for more to follow. */
  ghost predicate FineUpTo(s: Sessions, u: string, k: nat) {
    forall i :: 1 <= i <= k ==> PartKey(u, i) in s.parts && 5_242_880 <= s.parts[PartKey(u, i)].size
  }

  ghost predicate MoreAfter(s: Sessions, u: string, k: nat) {
    exists i :: i > k && PartKey(u, i) in s.parts
  }

  /** After fine parts one is missing that others follow. */
  ghost predicate NumberMissing(s: Sessions, u: string) {
    exists k: nat :: FineUpTo(s, u, k) && PartKey(u, k + 1) !in s.parts && MoreAfter(s, u, k + 1)
  }

  /** After fine parts one is too small for the others to follow. */
  ghost predicate PartTooSmall(s: Sessions, u: string) {
    exists k: nat :: FineUpTo(s, u, k) && PartKey(u, k + 1) in s.parts && s.parts[PartKey(u, k + 1)].size < 5_242_880
                     && MoreAfter(s, u, k + 1)
  }

  /** The store still holds, under its number, each part as the row's ETag identifies it. */
  ghost predicate StoreHolds(atStore: map<string, map<int, Bytes>>, backendId: string, stored: Bodies, u: string, n: nat) {
    backendId in atStore
    && forall i :: 1 <= i <= n ==> PartKey(u, i) in stored && i in atStore[backendId] && atStore[backendId][i] == stored[PartKey(u, i)]
  }

  /** Some first parts of which all files are there exceed the limit together. */
  ghost predicate BeyondTotal(files: Bodies, u: string, n: nat, limit: int) {
    limit > 0 && exists k: nat :: k <= n && FilesThere(files, u, k) && |Assembled(files, u, k)| > limit
  }

  /** ns lists the numbers of the parts in order. */
  ghost predicate ListsParts(s: Sessions, u: string, ns: seq<int>) {
    && (forall i, j :: 0 <= i < j < |ns| ==> ns[i] < ns[j])
    && (forall n :: n in ns <==> PartKey(u, n) in s.parts)
  }

  lemma PartsListed(s: Sessions, u: string, ns: seq<int>)
    requires ListsParts(s, u, ns)
    ensures forall i :: 0 <= i < |ns| ==> PartKey(u, ns[i]) in s.parts
  {
    assert forall i :: 0 <= i < |ns| ==> ns[i] in ns;
  }

  ghost predicate FineAt(s: Sessions, u: string, ns: seq<int>, j: nat)
    requires j < |ns|
  {
    ns[j] == j + 1 && PartKey(u, ns[j]) in s.parts && (j < |ns| - 1 ==> MIN_PART_SIZE <= s.parts[PartKey(u, ns[j])].size)
  }

  /** Nothing is wrong with the parts before the one at i. */
  ghost predicate FineBefore(s: Sessions, u: string, ns: seq<int>, i: nat)
    requires i <= |ns|
  {
    forall j :: 0 <= j < i ==> FineAt(s, u, ns, j)
  }

  lemma NothingBefore(s: Sessions, u: string, ns: seq<int>)
    ensures FineBefore(s, u, ns, 0)
    ensures ns == [] && ListsParts(s, u, ns) ==> Complete(s, u, 0)
  {}

  lemma OneMoreFine(s: Sessions, u: string, ns: seq<int>, i: nat)
    requires i < |ns| && FineBefore(s, u, ns, i) && PartKey(u, ns[i]) in s.parts
    ensures ns[i] == i + 1 && (i < |ns| - 1 ==> MIN_PART_SIZE <= s.parts[PartKey(u, ns[i])].size) <==> FineBefore(s, u, ns, i + 1)
  {
    assert FineBefore(s, u, ns, i + 1) <==> FineAt(s, u, ns, i) by {
      hide FineAt;
    }
  }

  /** Fine parts stand at the places of their numbers. */
  lemma FineNumbers(s: Sessions, u: string, ns: seq<int>, i: nat)
    requires i <= |ns| && FineBefore(s, u, ns, i)
    ensures forall j :: 0 <= j < i ==> ns[j] == j + 1
    ensures forall k :: 1 <= k <= i ==> PartKey(u, k) in s.parts
    ensures forall k :: 1 <= k <= i && k < |ns| ==> MIN_PART_SIZE <= s.parts[PartKey(u, k)].size
  {
    forall j | 0 <= j < i ensures ns[j] == j + 1 {
      assert FineAt(s, u, ns, j);
    }
    forall k | 1 <= k <= i ensures PartKey(u, k) in s.parts && (k < |ns| ==> MIN_PART_SIZE <= s.parts[PartKey(u, k)].size) {
      assert FineAt(s, u, ns, k - 1);
    }
  }

  lemma AllFine(s: Sessions, u: string, ns: seq<int>)
    requires ListsParts(s, u, ns) && FineBefore(s, u, ns, |ns|)
    ensures Complete(s, u, |ns|)
  {
    hide FineBefore;
    FineNumbers(s, u, ns, |ns|);
    forall i | PartKey(u, i) in s.parts ensures 1 <= i <= |ns| {
      var j :| 0 <= j < |ns| && ns[j] == i;
    }
  }

  lemma CompleteHasAll(s: Sessions, u: string, ns: seq<int>)
    requires ListsParts(s, u, ns)
    ensures forall m: nat :: Complete(s, u, m) ==> m == |ns| && FineBefore(s, u, ns, |ns|)
  {
    forall m: nat | Complete(s, u, m) ensures m == |ns| && FineBefore(s, u, ns, |ns|) {
      var expected := seq(m, i => i + 1);
      assert forall n :: n in expected <==> 1 <= n <= m by {
        forall n | 1 <= n <= m ensures n in expected { assert expected[n - 1] == n; }
      }
      Order.IncreasingUnique(ns, expected);
      forall j: nat | j < m ensures FineAt(s, u, ns, j) {
        assert ns[j] == j + 1 && PartKey(u, ns[j]) in s.parts;
      }
    }
  }

  lemma FineParts(s: Sessions, u: string, ns: seq<int>, i: nat)
    requires i < |ns| && FineBefore(s, u, ns, i)
    ensures FineUpTo(s, u, i)
  {
    FineNumbers(s, u, ns, i);
  }

  lemma MissingNumber(s: Sessions, u: string, ns: seq<int>, i: nat)
    requires ListsParts(s, u, ns) && (forall n :: n in ns ==> n > 0)
    requires i < |ns| && FineBefore(s, u, ns, i) && ns[i] != i + 1
    ensures NumberMissing(s, u) && !PartTooSmall(s, u) && !FineBefore(s, u, ns, |ns|)
  {
    FineParts(s, u, ns, i);
    FineNumbers(s, u, ns, i);
    if FineBefore(s, u, ns, |ns|) { FineNumbers(s, u, ns, |ns|); }
    hide FineBefore;
    assert ns[i] in ns;
    assert ns[i] > i + 1 by {
      if i > 0 { assert ns[i - 1] == i && ns[i - 1] < ns[i]; }
    }
    forall j | 0 <= j < |ns| ensures ns[j] != i + 1 {
      if j > i { assert ns[i] < ns[j]; }
    }
    assert FineUpTo(s, u, i) && PartKey(u, i + 1) !in s.parts && MoreAfter(s, u, i + 1);
  }

  lemma SmallPart(s: Sessions, u: string, ns: seq<int>, i: nat)
    requires ListsParts(s, u, ns) && i < |ns| - 1 && FineBefore(s, u, ns, i) && ns[i] == i + 1
    requires PartKey(u, i + 1) in s.parts && s.parts[PartKey(u, i + 1)].size < MIN_PART_SIZE
    ensures PartTooSmall(s, u) && !NumberMissing(s, u) && !FineBefore(s, u, ns, |ns|)
  {
    FineParts(s, u, ns, i);
    FineNumbers(s, u, ns, i);
    if FineBefore(s, u, ns, |ns|) { FineNumbers(s, u, ns, |ns|); }
    hide FineBefore;
    assert ns[i + 1] in ns && ns[i + 1] > i + 1;
    assert FineUpTo(s, u, i) && MoreAfter(s, u, i + 1);
  }

  lemma NoFault(s: Sessions, u: string, ns: seq<int>)
    requires Complete(s, u, |ns|)
    ensures !NumberMissing(s, u) && !PartTooSmall(s, u)
  {}

  lemma WithinTotal(files: Bodies, u: string, n: nat, limit: int)
    requires FilesThere(files, u, n) && (limit > 0 ==> |Assembled(files, u, n)| <= limit)
    ensures !BeyondTotal(files, u, n, limit)
  {
    NotBeyond(files, u, n, n, limit);
  }

  /** Within the limit up to where files are there, nothing is beyond it. */
  lemma NotBeyond(files: Bodies, u: string, i: nat, n: nat, limit: int)
    requires i <= n && FilesThere(files, u, i) && (limit > 0 ==> |Assembled(files, u, i)| <= limit)
    requires i == n || PartKey(u, i + 1) !in files
    ensures !BeyondTotal(files, u, n, limit)
  {
    forall k: nat | limit > 0 && k <= n && FilesThere(files, u, k) ensures |Assembled(files, u, k)| <= limit {
      if k > i { assert false; }
      AssembledGrows(files, u, k, i);
    }
  }
}
