# GCS path indexer, modelled in Dafny

`gcs/indexer.py` indexes the objects of a Google Cloud Storage bucket into
Elasticsearch. It is driven by a path template such as
`gs://genomics-public-data/1000-genomes/bam/PRIMARY_KEY.bam`. For one template,
`index_gcs_files` does the following:

1. It derives the bucket and listing prefix: every `gs://` is deleted, the bucket is
   the text before the first `/`, and the prefix runs from there to the first
   `PRIMARY_KEY`.
2. It lists the objects under that prefix.
3. It compiles the template into a regular expression by replacing `PRIMARY_KEY`
   with `(\w+)`.
4. For each object path that the expression matches, it captures the primary key
   and classifies the path by the last tag of `FILE_TYPES = ['bam', 'vcf', 'fastq', 'cram']`
   that the path contains.
5. It groups the path as `docs[key]['files'][type]`, using `_append_to_docs`.
6. It hands `docs` to `bulk_index`.

The Dafny project models this as pure functions:

| file | module | models |
|---|---|---|
| `wrappers.dfy` | `Wrappers` | `Option` and `Result` |
| `strings.dfy` | `Strings` | Python's `s.index(p)`, `p in s` and `s.replace(p, r)`, with their first-occurrence and left-to-right properties |
| `pattern.dfy` | `PathPattern` | template splitting (`Decompose`), compiling (`Compile`) and `re.match` with `match.group(1)` (`Match`) |
| `classifier.dfy` | `Classifier` | the `FILE_TYPES` scan (`Classify`) |
| `aggregator.dfy` | `Aggregator` | the `docs` structure and `_append_to_docs` (`AppendToDocs`) |
| `indexer.dfy` | `Indexer` | the loop over the listing and `index_gcs_files` as a whole (`IndexGcsFiles`) |
| `scenario.dfy` | `Scenario` | a worked example with a four-object listing, and the effect of the unescaped `.` |

The matcher is written out by hand:

- The compiled template is `head(\w+)tail`.
- `re.match` anchors at the start only.
- `.` in the literal text is a wildcard for any character except newline, because
  the code does not escape the template.
- `\w` is Python 2's ASCII class `[A-Za-z0-9_]`.
- The group is greedy and backtracks from the longest run of word characters
  down to one.

`Match` is specified against `Captures`, a declarative statement of when the
expression matches with a group of a given length. Its result is the longest such
group.

Each grouping function has an independent reference definition: `Contribution`,
`Bucketed` and `KeysOf` define which paths should end up under each primary key and
file type. The fold `IndexObjects` and the top-level `IndexGcsFiles` are proved to
agree with them.

Some written descriptions of this indexer say that every literal character of the
template is escaped. They also say that, for template
`gs://bucket/ds/bam/PRIMARY_KEY.bam`, an object `ds/bam/A1.vcf` is grouped under
`vcf`. The code does neither:

- The literal text is not escaped.
- For the `A1.vcf` object, `.bam` does not match `.vcf`, so the object is skipped.

The model follows the code. `Scenario.ScenarioResult` shows the `vcf` object being
skipped, and `Scenario.UnescapedDot` shows `ds/bam/A1-bam.txt` grouped under `A1`
as `bam`.

## Model

| member | source | states |
|---|---|---|
| Strings.IndexOf | gcs/indexer.py:59 | `s.index(p)`: the result is an occurrence with no earlier one; no result means no occurrence anywhere (Python's ValueError) |
| Strings.Contains | gcs/indexer.py:87 | `t in path` holds exactly when some position of the path starts an occurrence of `t` |
| Strings.ReplaceAll | gcs/indexer.py:54 | `str.replace`, also used at line 65: a replacement no longer than the pattern never lengthens the string |
| Strings.ReplaceAllFirst | gcs/indexer.py:54 | `replace` copies the text before the first occurrence, substitutes it, and continues after it |
| Strings.ReplaceAllAbsent | gcs/indexer.py:54 | `replace` leaves a string that does not contain the pattern unchanged |
| Strings.ReplaceOnly | gcs/indexer.py:65 | on a string with exactly one occurrence, `replace` gives the text before it, the replacement, and the text after it |
| PathPattern.Trim | gcs/indexer.py:54 | deleting every `gs://` never lengthens the template, and a template that starts with `gs://` and holds no other becomes the text after the scheme |
| PathPattern.Decompose | gcs/indexer.py:54-59 | on success, the bucket is the text before the first `/` of the `gs://`-stripped template, holds no `/`, and the prefix runs up to the first `PRIMARY_KEY` after it; on failure no such split exists, and the failure is the missing-separator error (IndexError) exactly when the stripped template has no `/` |
| PathPattern.SplitsUnique | gcs/indexer.py:56-59 | a stripped template has at most one bucket/prefix split, so the split `Decompose` returns is the only one |
| PathPattern.SplitsFound | gcs/indexer.py:56-59 | any split is found by searching for the first `/` and then for the first `PRIMARY_KEY` after it |
| PathPattern.DecomposeShape | gcs/indexer.py:52-59 | a template `gs://<bucket>/<prefix>PRIMARY_KEY<suffix>` yields exactly that bucket and prefix |
| PathPattern.Compile | gcs/indexer.py:65 | the template is `head + PRIMARY_KEY + tail` with no placeholder in either part, and replacing the placeholder by any text `r` gives `head + r + tail`, so the compiled expression, the template with `(\w+)` in place of the placeholder, is `head(\w+)tail` |
| PathPattern.CompileShape | gcs/indexer.py:65 | a template built around one placeholder from plain literal parts is supported and compiles back into those parts |
| PathPattern.WordRun | gcs/indexer.py:65 | the run of `\w` characters at a position is maximal: all word characters, then the end or a non-word character |
| PathPattern.Backtrack | gcs/indexer.py:81 | greedy backtracking returns the longest group length, up to the bound, after which the tail matches, or reports that none exists |
| PathPattern.Match | gcs/indexer.py:81-84 | on a match, the key is the text after the head with a length at which the expression matches, and it is the longest such group (greedy `\w+`); `None` exactly when no group length matches |
| PathPattern.MatchSplice | gcs/indexer.py:81-84 | `head + key + rest` captures exactly `key` when the tail matches at the start of `rest` and `rest` does not continue the word; text after the tail is ignored |
| PathPattern.MatchExact | gcs/indexer.py:81-84 | `head + key + tail` captures exactly `key` for any word key: no longer group leaves room for the tail |
| PathPattern.MatchSubstituted | gcs/indexer.py:65-84 | round trip: for every supported template, substituting a word key for the placeholder and matching the result gives the key back |
| Classifier.Scan | gcs/indexer.py:85-88 | the tag loop ends with the last tag the path contains, or with the value it started with when the path contains none |
| Classifier.Classify | gcs/indexer.py:85-88 | the file type is the last tag in list order that the path contains, or `''` when it contains none |
| Classifier.LastMatchExists | gcs/indexer.py:85-88 | if any tag occurs in the path, a last occurring one exists |
| Classifier.ClassifyFileTypes | gcs/indexer.py:23-90 | with `FILE_TYPES`, the result is one of the four tags or `''`; it is non-empty exactly when the path contains some tag, and the path contains the tag returned |
| Classifier.FileTypePrecedence | gcs/indexer.py:23-88 | `cram` wins over everything, then `fastq`, then `vcf`, then `bam` |
| Aggregator.AppendToDocs | gcs/indexer.py:41-46 | the key set gains the key and nothing else; the file types under the key gain the type; that list gets the path appended; other lists under the key and all other documents are unchanged; a structure in which every document and list is non-empty stays so |
| Aggregator.AppendChangesOneList | gcs/indexer.py:41-46 | for every key and type, only the one list changes, growing by exactly the path (length + 1) |
| Aggregator.DocsDetermined | gcs/indexer.py:41-46 | two well-formed document sets that store the same paths under every key and type are equal |
| Indexer.ObjectPath | gcs/indexer.py:80 | the path `gs://<bucket>/<name>` has the bucket and the object name at fixed positions, so both can be read back |
| Indexer.ObjectPathInjective | gcs/indexer.py:80 | distinct objects of one bucket have distinct paths |
| Indexer.MatchedKey | gcs/indexer.py:84 | the captured primary key is a non-empty run of word characters |
| Indexer.Recognize | gcs/indexer.py:80-90 | a kept object yields its `gs://bucket/name` path, the key the expression captures from it, and a file type it contains; an object is skipped exactly when the expression does not match or the path contains no tag |
| Indexer.RecognizeAgrees | gcs/indexer.py:80-91 | the reference grouping of one object is its recognised entry: its path under its key and type only, and its key |
| Indexer.Step | gcs/indexer.py:79-91 | one loop iteration appends the object's path to exactly the list its key and type select, if any, adds its key, and keeps the structure well formed |
| Indexer.IndexObjects | gcs/indexer.py:78-91 | the fold over the listing appends to every list exactly the reference grouping `Bucketed` of the listing |
| Indexer.IndexObjectsKeys | gcs/indexer.py:78-91 | the fold's documents are exactly the keys of the matched, classified objects, plus those it started with |
| Indexer.IndexObjectsWellFormed | gcs/indexer.py:41-46 | the fold creates documents and lists only when it puts a path in them |
| Indexer.ContributionQualifies | gcs/indexer.py:80-91 | an object contributes at most its own path, and only when the path's capture is the key and its file type is the type |
| Indexer.BucketedQualify | gcs/indexer.py:79-91 | every grouped path is a listed object's path, its capture is the key it is stored under, and it contains the non-empty type it is stored under |
| Indexer.BucketedAppend | gcs/indexer.py:79-91 | grouping a concatenated listing is the grouping of the first part followed by the grouping of the second |
| Indexer.ListingOrder | gcs/indexer.py:79-91 | order preservation: extending the listing keeps every list's earlier paths and appends the later objects' paths after them |
| Indexer.RecognizedSingle | gcs/indexer.py:79-91 | a kept object on its own is grouped under its key and type as its one path |
| Indexer.DuplicatesKept | gcs/indexer.py:46 | an object listed twice more appears twice more in its list |
| Indexer.IndexGcsFiles | gcs/indexer.py:49-93 | a template that does not split gives its splitting error; otherwise there is one publication under the index name whose lists are the reference grouping of the listing for the derived bucket and prefix, whose keys are exactly the grouped keys, and in which every document and list is non-empty |
| Indexer.EmptyListing | gcs/indexer.py:78-93 | an empty listing still publishes, with no documents |
| Indexer.PublishedPathsQualify | gcs/indexer.py:79-93 | every published path is a listed object's path, its capture is its document's key, and its list's type is a tag it contains and its classification |
| Scenario.ScenarioResult | gcs/indexer.py:49-93 | for `gs://bucket/ds/bam/PRIMARY_KEY.bam` and objects `A1.bam`, `A1.vcf`, `A2.bam` and `ds/other/ignored.txt`, the result is documents `A1` and `A2`, each holding one `bam` path |
| Scenario.UnescapedDot | gcs/indexer.py:65-91 | the unescaped `.` of `.bam` matches `-`, so `ds/bam/A1-bam.txt` is grouped under `A1` as `bam` |

## Left out

- The object listing `bucket.list_blobs(prefix=prefix)` (gcs/indexer.py:63-64) is a
  network call. It is modelled as a function parameter from bucket and prefix to the
  sequence of object names. That function is total, so a failure of the client or
  of the listing is not modelled; in the source such a failure aborts
  `index_gcs_files` before `bulk_index` is called.
- `indexer_util.bulk_index` (gcs/indexer.py:93) writes to Elasticsearch in a module
  outside this model. The model returns the one call's arguments as a `Publication`:
  the index name and the documents. The Elasticsearch client `es` is not modelled.
- `main`, `parse_args`, the logging setup and the `logger.info` calls
  (gcs/indexer.py:15-38, 50, 61, 96-113) are not modelled. Neither are the
  configuration readers `get_index_name`, `parse_json_file` and
  `maybe_create_elasticsearch_index`. These are command-line, file and process
  plumbing, or code in a module outside this model.
- `ES_TIMEOUT_SEC` is not used by the indexing logic.
- General Python regular expressions are not modelled. `IndexGcsFiles` requires a
  template that splits to be `Supported`: exactly one `PRIMARY_KEY`, and no
  metacharacter other than `.` in the literal text. Templates with other
  metacharacters or several placeholders, which add groups or change the grammar,
  are outside the model. The `.` wildcard is modelled.
- Text is modelled as sequences of characters, with `\w` as the ASCII class. The
  Python 2 difference between byte strings and `unicode` is not modelled.
- `Indexer.IndexGcsFiles` returns the documents as a map. The iteration order of
  `docs.iteritems()` is not modelled.
- Purity of the pure steps holds by construction in Dafny, so it is not stated
  separately.
