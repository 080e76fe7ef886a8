/**
 File-type classification of a matched path: every tag of `FILE_TYPES` is checked by
 substring containment, in order, and the last one found wins.
 */
module Classifier {
  import opened Strings

  /** `FILE_TYPES`, in the order the loop scans it. */
  const FileTypes: seq<string> := ["bam", "vcf", "fastq", "cram"]

  /** `types[i]` occurs in `path` and no later tag does. */
  ghost predicate IsLastMatch(types: seq<string>, path: string, i: int)
  {
    && 0 <= i < |types|
    && Contains(path, types[i])
    && forall j :: i < j < |types| ==> !Contains(path, types[j])
  }

  /** The loop `for t in types: if t in path: file_type = t`, entered with
      `file_type == current`. */
  function Scan(types: seq<string>, path: string, current: string): (r: string)
    ensures forall i :: IsLastMatch(types, path, i) ==> r == types[i]
    ensures (forall i :: 0 <= i < |types| ==> !Contains(path, types[i])) ==> r == current
    decreases |types|
  {
    if |types| == 0 then current
    else
      var next := if Contains(path, types[0]) then types[0] else current;
      var r := Scan(types[1..], path, next);
      assert forall i :: IsLastMatch(types, path, i) ==> r == types[i] by {
        forall i | IsLastMatch(types, path, i) ensures r == types[i] {
          if i > 0 {
            assert IsLastMatch(types[1..], path, i - 1);
          }
        }
      }
      r
  }

  /** The file type of a path: the last tag of `types` it contains, `""` if none. */
  function Classify(types: seq<string>, path: string): (r: string)
    ensures forall i :: IsLastMatch(types, path, i) ==> r == types[i]
    ensures (forall i :: 0 <= i < |types| ==> !Contains(path, types[i])) ==> r == ""
  {
    Scan(types, path, "")
  }

  /** Some tag occurs in `path` exactly when one occurs last. */
  lemma {:induction false} LastMatchExists(types: seq<string>, path: string, i: int)
    requires 0 <= i < |types| && Contains(path, types[i])
    ensures exists k :: IsLastMatch(types, path, k)
    decreases |types| - i
  {
    if !IsLastMatch(types, path, i) {
      var j :| i < j < |types| && Contains(path, types[j]);
      LastMatchExists(types, path, j);
    }
  }

  /** With `FILE_TYPES`, a path is classified as one of the four tags exactly when it
      contains one, and the tag it gets is one it contains. */
  lemma ClassifyFileTypes(path: string)
    ensures Classify(FileTypes, path) in FileTypes + [""]
    ensures Classify(FileTypes, path) != "" <==> exists t :: t in FileTypes && Contains(path, t)
    ensures Classify(FileTypes, path) != "" ==> Contains(path, Classify(FileTypes, path))
  {
    var r := Classify(FileTypes, path);
    if i :| 0 <= i < |FileTypes| && Contains(path, FileTypes[i]) {
      LastMatchExists(FileTypes, path, i);
    }
  }

  /** The last tag wins: `cram` over everything, then `fastq`, then `vcf`, then `bam`,
      whatever other tags the path also contains. */
  lemma FileTypePrecedence(path: string)
    ensures Contains(path, "cram") ==> Classify(FileTypes, path) == "cram"
    ensures !Contains(path, "cram") && Contains(path, "fastq") ==> Classify(FileTypes, path) == "fastq"
    ensures !Contains(path, "cram") && !Contains(path, "fastq") && Contains(path, "vcf")
            ==> Classify(FileTypes, path) == "vcf"
    ensures !Contains(path, "cram") && !Contains(path, "fastq") && !Contains(path, "vcf") && Contains(path, "bam")
            ==> Classify(FileTypes, path) == "bam"
  {
    if Contains(path, "cram") {
      assert IsLastMatch(FileTypes, path, 3);
    } else if Contains(path, "fastq") {
      assert IsLastMatch(FileTypes, path, 2);
    } else if Contains(path, "vcf") {
      assert IsLastMatch(FileTypes, path, 1);
    } else if Contains(path, "bam") {
      assert IsLastMatch(FileTypes, path, 0);
    }
  }
}
