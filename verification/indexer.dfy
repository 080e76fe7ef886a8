/**
 `index_gcs_files`: derive bucket and prefix from the template, list the objects,
 keep each path that matches the template's regular expression and has a file type,
 group it under its primary key and file type, and hand the result to `bulk_index`.
 */
module Indexer {
  import opened Wrappers
  import opened Strings
  import opened PathPattern
  import opened Classifier
  import opened Aggregator

  /** One path to group: its primary key, its file type and the path itself. */
  datatype Entry = Entry(key: string, fileType: string, path: string)

  /** The one call to `bulk_index`: the index name and the grouped documents. */
  datatype Publication = Publication(indexName: string, docs: DocumentSet)

  /** `'gs://%s/%s' % (bucket_str, obj.name)`: the bucket and the object name can be
      read back from the path. */
  function ObjectPath(bucket: string, name: string): (p: string)
    ensures |p| == |Scheme| + |bucket| + 1 + |name|
    ensures p[|Scheme|..|Scheme| + |bucket|] == bucket
    ensures p[|Scheme| + |bucket| + 1..] == name
  {
    var p := Scheme + bucket + "/" + name;
    assert p[|Scheme|..|Scheme| + |bucket|] == bucket;
    assert p[|Scheme| + |bucket| + 1..] == name;
    p
  }

  /** Distinct objects of one bucket have distinct paths. */
  lemma ObjectPathInjective(bucket: string, a: string, b: string)
    requires ObjectPath(bucket, a) == ObjectPath(bucket, b)
    ensures a == b
  {
  }

  /** The key `Match` captures is a non-empty run of word characters. */
  lemma MatchedKey(m: Matcher, path: string)
    requires Match(m, path).Some?
    ensures IsKey(Match(m, path).value)
  {
    var key := Match(m, path).value;
    var h := |m.head|;
    forall i | 0 <= i < |key| ensures IsWordChar(key[i]) {
      assert key[i] == path[h + i];
    }
  }

  /** The body of the loop for one object: match, then classify; `None` where the
      loop `continue`s. */
  function Recognize(m: Matcher, bucket: string, name: string): (e: Option<Entry>)
    ensures e.Some? ==> e.value.path == ObjectPath(bucket, name)
    ensures e.Some? ==> Match(m, e.value.path) == Some(e.value.key) && IsKey(e.value.key)
    ensures e.Some? ==> e.value.fileType == Classify(FileTypes, e.value.path)
    ensures e.Some? ==> e.value.fileType in FileTypes && Contains(e.value.path, e.value.fileType)
    ensures e.None? <==>
              || Match(m, ObjectPath(bucket, name)).None?
              || forall t :: t in FileTypes ==> !Contains(ObjectPath(bucket, name), t)
  {
    var path := ObjectPath(bucket, name);
    ClassifyFileTypes(path);
    match Match(m, path)
    case None => None
    case Some(key) =>
      MatchedKey(m, path);
      var fileType := Classify(FileTypes, path);
      if fileType == "" then None else Some(Entry(key, fileType, path))
  }

  /** Reference definition: `[path]` when object `name`'s path has primary key `k`
      and file type `t`, `[]` otherwise. */
  function Contribution(m: Matcher, bucket: string, name: string, k: string, t: string): seq<string>
  {
    var p := ObjectPath(bucket, name);
    if Match(m, p) == Some(k) && t != "" && Classify(FileTypes, p) == t then [p] else []
  }

  /** Reference definition: the primary key object `name` is grouped under, if any. */
  function KeyOf(m: Matcher, bucket: string, name: string): set<string>
  {
    var p := ObjectPath(bucket, name);
    if Match(m, p).Some? && Classify(FileTypes, p) != "" then {Match(m, p).value} else {}
  }

  /** Reference definition: the object paths of `names`, in listing order and with
      repetitions, whose primary key is `k` and whose file type is `t`. */
  function Bucketed(m: Matcher, bucket: string, names: seq<string>, k: string, t: string): seq<string>
  {
    if |names| == 0 then []
    else Contribution(m, bucket, names[0], k, t) + Bucketed(m, bucket, names[1..], k, t)
  }

  /** Reference definition: the primary keys of the objects of `names` that match and
      have a file type. */
  function KeysOf(m: Matcher, bucket: string, names: seq<string>): set<string>
  {
    if |names| == 0 then {}
    else KeyOf(m, bucket, names[0]) + KeysOf(m, bucket, names[1..])
  }

  /** The reference definitions read off the recognised entry: the object contributes
      its path to its entry's key and type only, and its entry's key. */
  lemma RecognizeAgrees(m: Matcher, bucket: string, name: string)
    ensures forall k, t :: Contribution(m, bucket, name, k, t)
              == match Recognize(m, bucket, name)
                 case None => []
                 case Some(e) => if k == e.key && t == e.fileType then [e.path] else []
    ensures KeyOf(m, bucket, name)
              == match Recognize(m, bucket, name)
                 case None => {}
                 case Some(e) => {e.key}
  {
  }

  /** One iteration of the loop: the object's entry, if any, appended to `docs`. */
  function Step(m: Matcher, bucket: string, docs: DocumentSet, name: string): (r: DocumentSet)
    ensures forall k, t :: Paths(r, k, t) == Paths(docs, k, t) + Contribution(m, bucket, name, k, t)
    ensures r.Keys == docs.Keys + KeyOf(m, bucket, name)
    ensures WellFormed(docs) ==> WellFormed(r)
  {
    RecognizeAgrees(m, bucket, name);
    match Recognize(m, bucket, name)
    case None => docs
    case Some(e) =>
      AppendChangesOneList(docs, e.key, e.fileType, e.path);
      AppendToDocs(docs, e.key, e.fileType, e.path)
  }

  /** The loop `for obj in objects: ...` over the object names, folding into `docs`. */
  function IndexObjects(m: Matcher, bucket: string, docs: DocumentSet, names: seq<string>): (r: DocumentSet)
    ensures forall k, t :: Paths(r, k, t) == Paths(docs, k, t) + Bucketed(m, bucket, names, k, t)
    decreases |names|
  {
    if |names| == 0 then docs
    else
      var next := Step(m, bucket, docs, names[0]);
      var r := IndexObjects(m, bucket, next, names[1..]);
      assert forall k, t :: Paths(r, k, t) == Paths(docs, k, t) + Bucketed(m, bucket, names, k, t) by {
        forall k, t ensures Paths(r, k, t) == Paths(docs, k, t) + Bucketed(m, bucket, names, k, t) {
          ConcatAssoc(Paths(docs, k, t), Contribution(m, bucket, names[0], k, t), Bucketed(m, bucket, names[1..], k, t));
        }
      }
      r
  }

  /** The loop only ever creates documents and lists that hold a path. */
  lemma {:induction false} IndexObjectsWellFormed(m: Matcher, bucket: string, docs: DocumentSet, names: seq<string>)
    requires WellFormed(docs)
    ensures WellFormed(IndexObjects(m, bucket, docs, names))
    decreases |names|
  {
    if |names| > 0 {
      IndexObjectsWellFormed(m, bucket, Step(m, bucket, docs, names[0]), names[1..]);
    }
  }

  /** The loop creates a document exactly for each primary key it groups a path under,
      and never drops one. */
  lemma {:induction false} IndexObjectsKeys(m: Matcher, bucket: string, docs: DocumentSet, names: seq<string>)
    ensures IndexObjects(m, bucket, docs, names).Keys == docs.Keys + KeysOf(m, bucket, names)
    decreases |names|
  {
    if |names| > 0 {
      IndexObjectsKeys(m, bucket, Step(m, bucket, docs, names[0]), names[1..]);
    }
  }

  /** What a grouped path satisfies: its captured key is the key it is stored under,
      and its file type is a tag it contains and the type it is stored under. */
  predicate Qualifies(m: Matcher, p: string, k: string, t: string)
  {
    && Match(m, p) == Some(k) && IsKey(k)
    && Classify(FileTypes, p) == t && t != ""
    && t in FileTypes && Contains(p, t)
  }

  /** One object contributes at most its own path, and only when it qualifies. */
  lemma ContributionQualifies(m: Matcher, bucket: string, name: string, k: string, t: string)
    ensures forall p :: p in Contribution(m, bucket, name, k, t) ==>
              p == ObjectPath(bucket, name) && Qualifies(m, p, k, t)
  {
    var p := ObjectPath(bucket, name);
    if Match(m, p) == Some(k) && t != "" && Classify(FileTypes, p) == t {
      MatchedKey(m, p);
      ClassifyFileTypes(p);
    }
  }

  /** Every grouped path is the path of a listed object and qualifies for its key and
      type; paths without a file type never appear. */
  lemma {:induction false} BucketedQualify(m: Matcher, bucket: string, names: seq<string>, k: string, t: string)
    ensures forall p :: p in Bucketed(m, bucket, names, k, t) ==>
              && (exists i :: 0 <= i < |names| && p == ObjectPath(bucket, names[i]))
              && Qualifies(m, p, k, t)
    decreases |names|
  {
    if |names| > 0 {
      var first, rest := Contribution(m, bucket, names[0], k, t), Bucketed(m, bucket, names[1..], k, t);
      BucketedQualify(m, bucket, names[1..], k, t);
      ContributionQualifies(m, bucket, names[0], k, t);
      forall p | p in first + rest
        ensures && (exists i :: 0 <= i < |names| && p == ObjectPath(bucket, names[i]))
                && Qualifies(m, p, k, t)
      {
        if p in first {
          assert p == ObjectPath(bucket, names[0]);
        } else {
          var i :| 0 <= i < |names[1..]| && p == ObjectPath(bucket, names[1..][i]);
          assert names[1..][i] == names[i + 1];
        }
      }
    }
  }

  /** The reference grouping distributes over concatenated listings: later objects
      come after earlier ones. */
  lemma {:induction false} BucketedAppend(m: Matcher, bucket: string, names: seq<string>, more: seq<string>, k: string, t: string)
    ensures Bucketed(m, bucket, names + more, k, t) == Bucketed(m, bucket, names, k, t) + Bucketed(m, bucket, more, k, t)
    decreases |names|
  {
    if |names| > 0 {
      assert (names + more)[0] == names[0];
      assert (names + more)[1..] == names[1..] + more;
      BucketedAppend(m, bucket, names[1..], more, k, t);
      ConcatAssoc(Contribution(m, bucket, names[0], k, t), Bucketed(m, bucket, names[1..], k, t), Bucketed(m, bucket, more, k, t));
    } else {
      assert names + more == more;
    }
  }

  /** Order preservation: grouping a longer listing keeps what the shorter one
      grouped and appends the later objects' paths after it. */
  lemma ListingOrder(m: Matcher, bucket: string, names: seq<string>, more: seq<string>, k: string, t: string)
    ensures Paths(IndexObjects(m, bucket, map[], names + more), k, t)
            == Paths(IndexObjects(m, bucket, map[], names), k, t) + Bucketed(m, bucket, more, k, t)
  {
    var before, after := Bucketed(m, bucket, names, k, t), Bucketed(m, bucket, more, k, t);
    BucketedAppend(m, bucket, names, more, k, t);
    assert Paths(map[], k, t) == [];
    assert Paths(IndexObjects(m, bucket, map[], names + more), k, t) == [] + (before + after);
    assert Paths(IndexObjects(m, bucket, map[], names), k, t) == [] + before;
    ConcatAssoc([], before, after);
  }

  /** A recognised object on its own is grouped under its entry's key and type. */
  lemma RecognizedSingle(m: Matcher, bucket: string, name: string)
    requires Recognize(m, bucket, name).Some?
    ensures var e := Recognize(m, bucket, name).value;
            Bucketed(m, bucket, [name], e.key, e.fileType) == [e.path]
  {
    assert [name][1..] == [];
    assert [name][0] == name;
  }

  /** An object listed twice is grouped twice: duplicates are kept. */
  lemma DuplicatesKept(m: Matcher, bucket: string, names: seq<string>, name: string)
    requires Recognize(m, bucket, name).Some?
    ensures var e := Recognize(m, bucket, name).value;
            Paths(IndexObjects(m, bucket, map[], names + [name, name]), e.key, e.fileType)
            == Paths(IndexObjects(m, bucket, map[], names), e.key, e.fileType) + [e.path, e.path]
  {
    var e := Recognize(m, bucket, name).value;
    var twice := Bucketed(m, bucket, [name, name], e.key, e.fileType);
    assert twice == [e.path, e.path] by {
      RecognizedSingle(m, bucket, name);
      BucketedAppend(m, bucket, [name], [name], e.key, e.fileType);
      assert [name] + [name] == [name, name];
    }
    ListingOrder(m, bucket, names, [name, name], e.key, e.fileType);
  }

  /** `index_gcs_files(es, index_name, gcs_pattern)` for a supported template, with the
      object listing `list_blobs` as a function of bucket and prefix: the error Python
      raises while splitting the template, or the one `bulk_index` call it makes.
      Only templates that split are compiled, so only those need to be supported. */
  function IndexGcsFiles(indexName: string, template: string, listBlobs: (string, string) -> seq<string>)
    : (r: Result<Publication, PatternError>)
    requires Decompose(template).Success? ==> Supported(template)
    ensures Decompose(template).Failure? ==> r == Failure(Decompose(template).error)
    ensures Decompose(template).Success? ==> r.Success? && r.value.indexName == indexName
    ensures r.Success? ==>
              var loc := Decompose(template).value;
              var names := listBlobs(loc.bucket, loc.prefix);
              && (forall k, t :: Paths(r.value.docs, k, t) == Bucketed(Compile(template), loc.bucket, names, k, t))
              && r.value.docs.Keys == KeysOf(Compile(template), loc.bucket, names)
              && WellFormed(r.value.docs)
  {
    match Decompose(template)
    case Failure(e) => Failure(e)
    case Success(loc) =>
      var names := listBlobs(loc.bucket, loc.prefix);
      var m := Compile(template);
      IndexObjectsKeys(m, loc.bucket, map[], names);
      IndexObjectsWellFormed(m, loc.bucket, map[], names);
      Success(Publication(indexName, IndexObjects(m, loc.bucket, map[], names)))
  }

  /** An empty listing still yields one `bulk_index` call, with no documents. */
  lemma EmptyListing(indexName: string, template: string, listBlobs: (string, string) -> seq<string>)
    requires Decompose(template).Success? && Supported(template)
    requires listBlobs(Decompose(template).value.bucket, Decompose(template).value.prefix) == []
    ensures IndexGcsFiles(indexName, template, listBlobs) == Success(Publication(indexName, map[]))
  {
  }

  /** Every path in a published document belongs there: it is a listed object's path
      that contains its file type and whose captured key is its document's key. */
  lemma PublishedPathsQualify(indexName: string, template: string, listBlobs: (string, string) -> seq<string>)
    requires Decompose(template).Success? && Supported(template)
    ensures var loc := Decompose(template).value;
            var docs := IndexGcsFiles(indexName, template, listBlobs).value.docs;
            forall k, t, p :: p in Paths(docs, k, t) ==>
              && (exists name :: name in listBlobs(loc.bucket, loc.prefix) && p == ObjectPath(loc.bucket, name))
              && Qualifies(Compile(template), p, k, t)
  {
    var loc := Decompose(template).value;
    var names := listBlobs(loc.bucket, loc.prefix);
    var m := Compile(template);
    var docs := IndexGcsFiles(indexName, template, listBlobs).value.docs;
    forall k, t, p | p in Paths(docs, k, t)
      ensures && (exists name :: name in names && p == ObjectPath(loc.bucket, name))
              && Qualifies(m, p, k, t)
    {
      assert p in Bucketed(m, loc.bucket, names, k, t);
      BucketedQualify(m, loc.bucket, names, k, t);
      var i :| 0 <= i < |names| && p == ObjectPath(loc.bucket, names[i]);
      assert names[i] in names;
    }
  }
}
