/**
 Where the object store keeps the content of a dataset.
 */
module ObjectKeys {
  import opened Text

  /** A path segment that means itself: a uuid is one. */
  predicate PlainSegment(s: string) { s != "" && s != "." && s != ".." && '/' !in s }

  type Uuid = s: string | PlainSegment(s) witness "0"

  datatype Ref = Ref(bucket: string, key: string)

  /** domainPart is the domain made safe for a key, empty if there is no domain. */
  datatype Storage = Inline | S3(bucket: string, prefix: string, domainPart: string)

  // ----- path.Join

  /** Lexical cleaning of a relative path, segment by segment. */
  function Clean(segs: seq<string>): seq<string> {
    if segs == [] then []
    else
      var n := |segs| - 1;
      var before := Clean(segs[..n]);
      if segs[n] == "" || segs[n] == "." then before
      else if segs[n] == ".." && before != [] && before[|before| - 1] != ".." then before[..|before| - 1]
      else before + [segs[n]]
  }

  function Flatten(parts: seq<string>): seq<string> {
    if parts == [] then [] else Flatten(parts[..|parts| - 1]) + Split(parts[|parts| - 1], '/')
  }

  function PathJoin(parts: seq<string>): string { Join(Clean(Flatten(parts)), '/') }

  function TrimSlashesLeft(s: string): string { if s != "" && s[0] == '/' then TrimSlashesLeft(s[1..]) else s }

  function TrimSlashes(s: string): string {
    if s != "" && s[|s| - 1] == '/' then TrimSlashes(s[..|s| - 1]) else TrimSlashesLeft(s)
  }

  function Prefix(prefix: string): string { if TrimSpace(prefix) == "" then "datasets" else TrimSlashes(prefix) }

  function ObjectKey(s: Storage, id: Uuid, suffix: string): string
    requires s.S3?
  {
    var parts := [Prefix(s.prefix)] + if s.domainPart != "" then [s.domainPart] else [];
    PathJoin(parts + [id, suffix])
  }

  function ContentRef(s: Storage, id: Uuid): Ref
    requires s.S3?
  {
    Ref(s.bucket, ObjectKey(s, id, "content"))
  }

  // ----- whose key a key is

  /** The key ends in the id of the dataset and "content", whatever it starts with. */
  ghost predicate KeyBelongsTo(key: string, id: Uuid) {
    exists root: seq<string> :: SlashFree(root) && key == Join(root + [id, "content"], '/')
  }

  predicate SlashFree(segs: seq<string>) { forall i :: 0 <= i < |segs| ==> '/' !in segs[i] }

  /** Keys of different datasets differ, also under different prefixes and domains. */
  lemma KeysAreDistinct(key: string, a: Uuid, b: Uuid)
    requires KeyBelongsTo(key, a) && KeyBelongsTo(key, b)
    ensures a == b
  {
    var r: seq<string> :| SlashFree(r) && key == Join(r + [a, "content"], '/');
    var s: seq<string> :| SlashFree(s) && key == Join(s + [b, "content"], '/');
    ContentSegment();
    SplitJoin(r + [a, "content"], '/');
    SplitJoin(s + [b, "content"], '/');
    assert (r + [a, "content"])[|r|] == a && (s + [b, "content"])[|s|] == b;
    assert |r| == |s|;
  }

  lemma ContentSegment()
    ensures PlainSegment("content")
  {}

  lemma {:induction false} CleanIsSlashFree(segs: seq<string>)
    requires SlashFree(segs)
    ensures SlashFree(Clean(segs))
    decreases |segs|
  {
    if segs != [] { CleanIsSlashFree(segs[..|segs| - 1]); }
  }

  lemma {:induction false} FlattenIsSlashFree(parts: seq<string>)
    ensures SlashFree(Flatten(parts))
    decreases |parts|
  {
    if parts != [] {
      FlattenIsSlashFree(parts[..|parts| - 1]);
      JoinSplit(parts[|parts| - 1], '/');
    }
  }

  lemma FlattenPlain(parts: seq<string>, s: string)
    requires PlainSegment(s)
    ensures Flatten(parts + [s]) == Flatten(parts) + [s]
  {
    assert (parts + [s])[..|parts|] == parts;
    assert Join([s], '/') == s;
    SplitJoin([s], '/');
  }

  lemma CleanPlain(segs: seq<string>, s: string)
    requires PlainSegment(s)
    ensures Clean(segs + [s]) == Clean(segs) + [s]
  {
    assert (segs + [s])[..|segs|] == segs;
  }

  /** Empty segments and single dots go; two dots take the segment before them along, or stay where there is none but such. */
  lemma CleanDots(segs: seq<string>, s: string)
    requires PlainSegment(s)
    ensures Clean(segs + [""]) == Clean(segs) == Clean(segs + ["."])
    ensures Clean(segs + [s, ".."]) == Clean(segs)
    ensures (forall i :: 0 <= i < |Clean(segs)| ==> Clean(segs)[i] == "..") ==> Clean(segs + [".."]) == Clean(segs) + [".."]
  {
    CleanPlain(segs, s);
    CleanOneMore(segs, "");
    CleanOneMore(segs, ".");
    CleanOneMore(segs, "..");
    CleanOneMore(segs + [s], "..");
    assert s != "..";
    hide Clean, PlainSegment;
    assert segs + [s, ".."] == segs + [s] + [".."];
    var before := Clean(segs);
    assert (before + [s])[..|before|] == before;
    if before != [] && forall i :: 0 <= i < |before| ==> before[i] == ".." {
      assert before[|before| - 1] == "..";
    }
  }

  lemma CleanOneMore(segs: seq<string>, x: string)
    ensures var before := Clean(segs);
            Clean(segs + [x])
            == if x == "" || x == "." then before
               else if x == ".." && before != [] && before[|before| - 1] != ".." then before[..|before| - 1] else before + [x]
  {
    assert (segs + [x])[..|segs|] == segs;
  }

  /** The content key of a dataset is its own, whatever the configuration. */
  lemma ContentKeyIsOwn(s: Storage, id: Uuid)
    requires s.S3?
    ensures KeyBelongsTo(ContentRef(s, id).key, id)
  {
    var parts := [Prefix(s.prefix)] + if s.domainPart != "" then [s.domainPart] else [];
    assert ContentRef(s, id).key == PathJoin(parts + [id, "content"]);
    ContentSegment();
    hide PlainSegment, Prefix, ObjectKey, Split, Join;
    PlainTail(parts, id, "content");
  }

  /** Cleaning a path leaves plain segments at its end alone. */
  lemma PlainTail(parts: seq<string>, a: string, b: string)
    requires PlainSegment(a) && PlainSegment(b)
    ensures SlashFree(Clean(Flatten(parts))) && PathJoin(parts + [a, b]) == Join(Clean(Flatten(parts)) + [a, b], '/')
  {
    hide PlainSegment, Flatten, Clean, Split, Join;
    var root := Flatten(parts);
    assert parts + [a, b] == parts + [a] + [b];
    FlattenPlain(parts, a);
    FlattenPlain(parts + [a], b);
    FlattenIsSlashFree(parts);
    CleanPlain(root, a);
    CleanPlain(root + [a], b);
    CleanIsSlashFree(root);
    assert Clean(root) + [a] + [b] == Clean(root) + [a, b];
  }

  /** The key of a dataset's content, under a prefix of one segment and with or without a domain. */
  lemma ContentKeyIs(s: Storage, id: Uuid)
    requires s.S3? && (s.prefix == "" || (PlainSegment(s.prefix) && TrimSpace(s.prefix) != ""))
    requires s.domainPart == "" || PlainSegment(s.domainPart)
    ensures ContentRef(s, id).bucket == s.bucket
    ensures var root := if s.prefix == "" then "datasets" else s.prefix;
            ContentRef(s, id).key == if s.domainPart == "" then root + "/" + id + "/" + "content"
                                     else root + "/" + s.domainPart + "/" + id + "/" + "content"
  {
    var root := Prefix(s.prefix);
    PlainPrefix(s.prefix);
    ContentSegment();
    assert PlainSegment("datasets") && PlainSegment(id) && PlainSegment(root);
    KeyParts(s, id, root);
    hide *;
    if s.domainPart == "" {
      PathOfThree(root, id, "content");
    } else {
      PathOfFour(root, s.domainPart, id, "content");
    }
  }

  lemma PathOfThree(a: string, b: string, c: string)
    requires PlainSegment(a) && PlainSegment(b) && PlainSegment(c)
    ensures Join(Clean(Flatten([a, b, c])), '/') == a + "/" + b + "/" + c
  {
    hide *;
    PlainPath([a, b, c]);
    JoinThree(a, b, c);
  }

  lemma PathOfFour(a: string, b: string, c: string, d: string)
    requires PlainSegment(a) && PlainSegment(b) && PlainSegment(c) && PlainSegment(d)
    ensures Join(Clean(Flatten([a, b, c, d])), '/') == a + "/" + b + "/" + c + "/" + d
  {
    hide *;
    PlainPath([a, b, c, d]);
    JoinFour(a, b, c, d);
  }

  lemma KeyParts(s: Storage, id: Uuid, root: string)
    requires s.S3? && root == Prefix(s.prefix)
    ensures ContentRef(s, id).bucket == s.bucket
    ensures ContentRef(s, id).key == Join(Clean(Flatten(if s.domainPart == "" then [root, id, "content"] else [root, s.domainPart, id, "content"])), '/')
  {
    hide Prefix, Join, Clean, Flatten;
    assert [root] + [] + [id, "content"] == [root, id, "content"];
    assert [root] + [s.domainPart] + [id, "content"] == [root, s.domainPart, id, "content"];
  }

  lemma {:induction false} PlainPath(parts: seq<string>)
    requires forall i :: 0 <= i < |parts| ==> PlainSegment(parts[i])
    ensures Flatten(parts) == parts == Clean(parts)
    decreases |parts|
  {
    if parts != [] {
      hide PlainSegment;
      var n := |parts| - 1;
      PlainPath(parts[..n]);
      assert parts == parts[..n] + [parts[n]];
      FlattenPlain(parts[..n], parts[n]);
      CleanPlain(parts[..n], parts[n]);
    }
  }

  lemma JoinFour(a: string, b: string, c: string, d: string)
    ensures Join([a, b, c, d], '/') == a + "/" + b + "/" + c + "/" + d
  {
    JoinThree(b, c, d);
    assert [a, b, c, d][1..] == [b, c, d];
    assert a + "/" + (b + "/" + c + "/" + d) == a + "/" + b + "/" + c + "/" + d;
  }

  lemma JoinThree(a: string, b: string, c: string)
    ensures Join([a, b, c], '/') == a + "/" + b + "/" + c
  {
    assert [a, b, c][1..] == [b, c] && [b, c][1..] == [c];
    assert Join([b, c], '/') == b + "/" + c;
  }

  lemma PlainPrefix(prefix: string)
    requires prefix == "" || (PlainSegment(prefix) && TrimSpace(prefix) != "")
    ensures Prefix(prefix) == if prefix == "" then "datasets" else prefix
  {
    if prefix != "" {
      assert prefix[|prefix| - 1] in prefix && prefix[0] in prefix;
    }
  }
}
