/**
 A worked instance of `index_gcs_files`: template `gs://bucket/ds/bam/PRIMARY_KEY.bam`
 and four listed objects. Facts about literal strings are kept in small lemmas of
 their own; the rest reasons about them symbolically.
 */
module Scenario {
  import opened Wrappers
  import opened Strings
  import opened PathPattern
  import opened Classifier
  import opened Aggregator
  import opened Indexer

  const Template := "gs://bucket/ds/bam/PRIMARY_KEY.bam"
  const Head := "gs://bucket/ds/bam/"
  const Tail := ".bam"
  const Names := ["ds/bam/A1.bam", "ds/bam/A1.vcf", "ds/bam/A2.bam", "ds/other/ignored.txt"]

  lemma TemplateSplit()
    ensures Template == Head + Placeholder + Tail
    ensures Template == Scheme + "bucket" + "/" + "ds/bam/" + Placeholder + ".bam"
  {
  }

  lemma HeadPlain()
    ensures !Contains(Head, Placeholder) && PlainLiteral(Head)
  {
    HeadLacksPlaceholder();
    HeadLacksMeta();
  }

  lemma HeadLacksPlaceholder()
    ensures !Contains(Head, Placeholder)
  {
    AbsentChar(Head, Placeholder, 'P');
  }

  lemma HeadLacksMeta()
    ensures PlainLiteral(Head)
  {
  }

  lemma TailPlain()
    ensures !Contains(Tail, Placeholder) && PlainLiteral(Tail)
  {
    AbsentChar(Tail, Placeholder, 'P');
  }

  /** The template is supported and compiles to `gs://bucket/ds/bam/(\w+).bam`. */
  lemma TemplateCompiles()
    ensures Supported(Template)
    ensures Compile(Template) == Matcher(Head, Tail)
  {
    TemplateSplit();
    HeadPlain();
    TailPlain();
    CompileShape(Head, Tail);
  }

  lemma PrefixPlain()
    ensures !Contains("ds/bam/", Placeholder)
  {
    AbsentChar("ds/bam/", Placeholder, 'P');
  }

  lemma RestLacksScheme()
    ensures !Contains("bucket" + "/" + "ds/bam/" + Placeholder + ".bam", Scheme)
  {
    var rest := "bucket" + "/" + "ds/bam/" + Placeholder + ".bam";
    assert rest == "bucket/ds/bam/PRIMARY_KEY.bam";
    AbsentChar(rest, Scheme, ':');
  }

  /** The listing is asked for bucket `bucket` and prefix `ds/bam/`. */
  lemma TemplateDecomposes()
    ensures Decompose(Template) == Success(Location("bucket", "ds/bam/"))
  {
    TemplateSplit();
    PrefixPlain();
    RestLacksScheme();
    DecomposeShape("bucket", "ds/bam/", ".bam");
  }

  lemma BamPath(key: string)
    ensures ObjectPath("bucket", "ds/bam/" + key + ".bam") == Head + key + Tail
  {
  }

  lemma BamTag(key: string)
    requires key == "A1" || key == "A2"
    ensures OccursAt(Head + key + Tail, "bam", 15)
    ensures 'r' !in Head + key + Tail && 'f' !in Head + key + Tail && 'v' !in Head + key + Tail
  {
    assert (Head + key + Tail)[15..18] == Head[15..18] == "bam";
  }

  lemma BamClassified(key: string)
    requires key == "A1" || key == "A2"
    ensures Classify(FileTypes, Head + key + Tail) == "bam"
  {
    var path := Head + key + Tail;
    BamTag(key);
    AbsentChar(path, "cram", 'r');
    AbsentChar(path, "fastq", 'f');
    AbsentChar(path, "vcf", 'v');
    FileTypePrecedence(path);
  }

  /** `A1.bam` and `A2.bam` are grouped under their key as `bam`. */
  lemma BamObject(key: string)
    requires key == "A1" || key == "A2"
    ensures Recognize(Matcher(Head, Tail), "bucket", "ds/bam/" + key + ".bam")
            == Some(Entry(key, "bam", Head + key + Tail))
  {
    BamPath(key);
    assert IsKey(key);
    LiteralMatchesItself(Tail, Tail, 0);
    MatchSplice(Matcher(Head, Tail), key, Tail);
    BamClassified(key);
  }

  lemma VcfPath()
    ensures ObjectPath("bucket", "ds/bam/A1.vcf") == Head + "A1.vcf"
  {
  }

  /** No group length lets `.bam` match after it in `gs://bucket/ds/bam/A1.vcf`. */
  lemma VcfNoCapture(path: string)
    requires path == Head + "A1.vcf"
    ensures forall n: nat :: !Captures(Matcher(Head, Tail), path, n)
  {
    var m := Matcher(Head, Tail);
    assert |Head| == 19 && |path| == 25;
    assert path[21] == '.' && path[22] == 'v';
    assert Tail[1] == 'b';
    forall n: nat ensures !Captures(m, path, n) {
      assert n == 1 ==> !CharMatches(Tail[1], path[21]);
      assert n == 2 ==> !CharMatches(Tail[1], path[22]);
      assert n > 2 ==> !IsWordChar(path[21]);
    }
  }

  /** `A1.vcf` does not match: `(\w+).bam` needs `bam` where the path has `vcf`. */
  lemma VcfObject()
    ensures Recognize(Matcher(Head, Tail), "bucket", "ds/bam/A1.vcf") == None
  {
    VcfPath();
    VcfNoCapture(Head + "A1.vcf");
  }

  lemma OtherPath()
    ensures ObjectPath("bucket", "ds/other/ignored.txt") == "gs://bucket/ds/other/ignored.txt"
  {
  }

  /** The head of the template does not match a path outside `ds/bam/`. */
  lemma OtherHeadMismatch(path: string)
    requires path == "gs://bucket/ds/other/ignored.txt"
    ensures !LiteralAt(Head, path, 0)
  {
    assert !CharMatches(Head[15], path[15]);
  }

  /** `ds/other/ignored.txt` does not match: it is outside `ds/bam/`. */
  lemma OtherObject()
    ensures Recognize(Matcher(Head, Tail), "bucket", "ds/other/ignored.txt") == None
  {
    OtherPath();
    OtherHeadMismatch("gs://bucket/ds/other/ignored.txt");
  }

  /** The loop over four objects is four steps. */
  lemma FourSteps(m: Matcher, bucket: string, names: seq<string>)
    requires |names| == 4
    ensures IndexObjects(m, bucket, map[], names)
            == Step(m, bucket, Step(m, bucket, Step(m, bucket, Step(m, bucket, map[], names[0]), names[1]), names[2]), names[3])
  {
    var d1 := Step(m, bucket, map[], names[0]);
    var d2 := Step(m, bucket, d1, names[1]);
    var d3 := Step(m, bucket, d2, names[2]);
    var d4 := Step(m, bucket, d3, names[3]);
    var n1 := names[1..];
    var n2 := n1[1..];
    var n3 := n2[1..];
    assert n1[0] == names[1] && n2[0] == names[2] && n3[0] == names[3] && n3[1..] == [];
    assert IndexObjects(m, bucket, map[], names) == IndexObjects(m, bucket, d1, n1);
    assert IndexObjects(m, bucket, d1, n1) == IndexObjects(m, bucket, d2, n2);
    assert IndexObjects(m, bucket, d2, n2) == IndexObjects(m, bucket, d3, n3);
    assert IndexObjects(m, bucket, d3, n3) == IndexObjects(m, bucket, d4, []);
  }

  lemma NamesShape()
    ensures |Names| == 4
    ensures Names[0] == "ds/bam/" + "A1" + ".bam" && Names[1] == "ds/bam/A1.vcf"
    ensures Names[2] == "ds/bam/" + "A2" + ".bam" && Names[3] == "ds/other/ignored.txt"
  {
  }

  lemma ResultPaths()
    ensures Head + "A1" + Tail == "gs://bucket/ds/bam/A1.bam"
    ensures Head + "A2" + Tail == "gs://bucket/ds/bam/A2.bam"
  {
  }

  const DocA1 := Document(map["bam" := ["gs://bucket/ds/bam/A1.bam"]])
  const DocA2 := Document(map["bam" := ["gs://bucket/ds/bam/A2.bam"]])

  /** A step that recognises an entry appends it. */
  lemma StepAppends(m: Matcher, bucket: string, d: DocumentSet, name: string, e: Entry)
    requires Recognize(m, bucket, name) == Some(e)
    ensures Step(m, bucket, d, name) == AppendToDocs(d, e.key, e.fileType, e.path)
  {
  }

  /** Appending under a new key creates a document with one list of one path. */
  lemma AppendNewKey(d: DocumentSet, key: string, t: string, p: string)
    requires key !in d
    ensures AppendToDocs(d, key, t, p) == d[key := Document(map[t := [p]])]
  {
    assert [] + [p] == [p];
    var f: map<string, seq<string>> := map[];
    assert f[t := [p]] == map[t := [p]];
  }

  lemma FirstStep()
    ensures Step(Matcher(Head, Tail), "bucket", map[], Names[0]) == map["A1" := DocA1]
  {
    NamesShape();
    ResultPaths();
    var e := Entry("A1", "bam", "gs://bucket/ds/bam/A1.bam");
    BamObject("A1");
    StepAppends(Matcher(Head, Tail), "bucket", map[], Names[0], e);
    AppendNewKey(map[], "A1", "bam", e.path);
    var d: DocumentSet := map[];
    assert d["A1" := DocA1] == map["A1" := DocA1];
  }

  lemma SecondStep(d: DocumentSet)
    ensures Step(Matcher(Head, Tail), "bucket", d, Names[1]) == d
  {
    NamesShape();
    VcfObject();
  }

  lemma ThirdStep()
    ensures Step(Matcher(Head, Tail), "bucket", map["A1" := DocA1], Names[2])
            == map["A1" := DocA1, "A2" := DocA2]
  {
    NamesShape();
    ResultPaths();
    var e := Entry("A2", "bam", "gs://bucket/ds/bam/A2.bam");
    BamObject("A2");
    StepAppends(Matcher(Head, Tail), "bucket", map["A1" := DocA1], Names[2], e);
    AppendNewKey(map["A1" := DocA1], "A2", "bam", e.path);
  }

  lemma FourthStep(d: DocumentSet)
    ensures Step(Matcher(Head, Tail), "bucket", d, Names[3]) == d
  {
    NamesShape();
    OtherObject();
  }

  /** The documents grouped from the four objects. */
  lemma ScenarioDocs()
    ensures IndexObjects(Matcher(Head, Tail), "bucket", map[], Names) == map["A1" := DocA1, "A2" := DocA2]
  {
    NamesShape();
    FourSteps(Matcher(Head, Tail), "bucket", Names);
    FirstStep();
    SecondStep(map["A1" := DocA1]);
    ThirdStep();
    FourthStep(map["A1" := DocA1, "A2" := DocA2]);
  }

  /** The whole call: bucket `bucket`, prefix `ds/bam/`, and one `bulk_index` call
      with documents `A1` and `A2`, each with one `bam` path; the `vcf` object and
      the object outside the prefix are skipped. */
  lemma ScenarioResult(indexName: string, listBlobs: (string, string) -> seq<string>)
    requires listBlobs("bucket", "ds/bam/") == Names
    ensures Supported(Template)
    ensures IndexGcsFiles(indexName, Template, listBlobs)
            == Success(Publication(indexName, map["A1" := DocA1, "A2" := DocA2]))
  {
    TemplateCompiles();
    TemplateDecomposes();
    ScenarioDocs();
  }

  lemma DashPath()
    ensures ObjectPath("bucket", "ds/bam/A1-bam.txt") == Head + "A1" + "-bam.txt"
  {
  }

  lemma DashTail()
    ensures LiteralAt(Tail, "-bam.txt", 0) && !IsWordChar("-bam.txt"[0])
  {
  }

  lemma DashClassified(path: string)
    requires path == Head + "A1" + "-bam.txt"
    ensures Classify(FileTypes, path) == "bam"
  {
    assert path[15..18] == "bam";
    assert OccursAt(path, "bam", 15);
    AbsentChar(path, "cram", 'r');
    AbsentChar(path, "fastq", 'f');
    AbsentChar(path, "vcf", 'v');
    FileTypePrecedence(path);
  }

  /** The `.` of the template is not escaped, so it matches any character, and
      `re.match` ignores what follows the match: `ds/bam/A1-bam.txt` is grouped
      under `A1` as `bam`. */
  lemma UnescapedDot()
    ensures Recognize(Matcher(Head, Tail), "bucket", "ds/bam/A1-bam.txt")
            == Some(Entry("A1", "bam", Head + "A1" + "-bam.txt"))
  {
    DashPath();
    DashTail();
    assert IsKey("A1");
    MatchSplice(Matcher(Head, Tail), "A1", "-bam.txt");
    DashClassified(Head + "A1" + "-bam.txt");
  }
}
