/**
 The grouping structure `docs` of `index_gcs_files` and `_append_to_docs`, which adds
 one path to it.
 */
module Aggregator {

  /** The value stored under a primary key: `{'files': {file_type: [path, ...]}}`. */
  datatype Document = Document(files: map<string, seq<string>>)

  /** `docs`: primary key to document. */
  type DocumentSet = map<string, Document>

  /** Concatenation of path lists is associative. */
  lemma ConcatAssoc(a: seq<string>, b: seq<string>, c: seq<string>)
    ensures (a + b) + c == a + (b + c)
  {
  }

  /** The paths stored under key `k` and file type `t`; empty where none are. */
  function Paths(docs: DocumentSet, k: string, t: string): seq<string>
  {
    if k in docs && t in docs[k].files then docs[k].files[t] else []
  }

  /** The file types stored under key `k`. */
  function TypesOf(docs: DocumentSet, k: string): set<string>
  {
    if k in docs then docs[k].files.Keys else {}
  }

  /** Every document has at least one file type, and every file-type list is non-empty:
      the only documents and lists are those `_append_to_docs` created for a path. */
  ghost predicate WellFormed(docs: DocumentSet)
  {
    forall k :: k in docs ==>
      && docs[k].files != map[]
      && forall t :: t in docs[k].files ==> |docs[k].files[t]| > 0
  }

  /** `_append_to_docs(docs, key, file_type, path)`: create the document and the
      list on first sight, then append the path. */
  function AppendToDocs(docs: DocumentSet, key: string, fileType: string, path: string): (r: DocumentSet)
    ensures r.Keys == docs.Keys + {key}
    ensures TypesOf(r, key) == TypesOf(docs, key) + {fileType}
    ensures Paths(r, key, fileType) == Paths(docs, key, fileType) + [path]
    ensures forall t :: t != fileType ==> Paths(r, key, t) == Paths(docs, key, t)
    ensures forall k :: k in docs && k != key ==> r[k] == docs[k]
    ensures WellFormed(docs) ==> WellFormed(r)
  {
    var doc := if key in docs then docs[key] else Document(map[]);
    var list := if fileType in doc.files then doc.files[fileType] else [];
    docs[key := Document(doc.files[fileType := list + [path]])]
  }

  /** Consequence for any key and type: only the one list grows, by the one path. */
  lemma AppendChangesOneList(docs: DocumentSet, key: string, fileType: string, path: string)
    ensures forall k, t ::
              Paths(AppendToDocs(docs, key, fileType, path), k, t)
              == Paths(docs, k, t) + (if k == key && t == fileType then [path] else [])
    ensures forall k, t ::
              |Paths(AppendToDocs(docs, key, fileType, path), k, t)|
              == |Paths(docs, k, t)| + (if k == key && t == fileType then 1 else 0)
  {
    var r := AppendToDocs(docs, key, fileType, path);
    forall k, t ensures Paths(r, k, t) == Paths(docs, k, t) + (if k == key && t == fileType then [path] else []) {
      if k != key {
        assert k in r <==> k in docs;
      }
    }
  }

  /** A well-formed document set is determined by its path lists: two that store the
      same paths under every key and file type are equal. */
  lemma DocsDetermined(a: DocumentSet, b: DocumentSet)
    requires WellFormed(a) && WellFormed(b)
    requires forall k, t :: Paths(a, k, t) == Paths(b, k, t)
    ensures a == b
  {
    forall k | k in a ensures k in b && a[k] == b[k] {
      var t :| t in a[k].files;
      assert Paths(a, k, t) != [];
      forall t' | t' in a[k].files ensures t' in b[k].files && a[k].files[t'] == b[k].files[t'] {
        assert Paths(a, k, t') == Paths(b, k, t');
      }
      forall t' | t' in b[k].files ensures t' in a[k].files {
        assert Paths(a, k, t') == Paths(b, k, t');
      }
      assert a[k].files == b[k].files;
    }
    forall k | k in b ensures k in a {
      var t :| t in b[k].files;
      assert Paths(a, k, t) == Paths(b, k, t);
    }
  }
}
