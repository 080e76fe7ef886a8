/**
 The path template of one GCS pattern, e.g. `gs://bucket/ds/bam/PRIMARY_KEY.bam`:
 how `index_gcs_files` derives the bucket and listing prefix from it, and how the
 regular expression it compiles from it extracts a primary key from a path.
 */
module PathPattern {
  import opened Wrappers
  import opened Strings

  /** The placeholder token that marks the primary key in a template. */
  const Placeholder := "PRIMARY_KEY"
  /** The URL scheme deleted from the template before it is split. */
  const Scheme := "gs://"
  /** The text substituted for the placeholder to build the regular expression. */
  const WordGroup := "(\\w+)"

  /** Why the template cannot be split: Python's IndexError from `split('/', 1)[1]`
      and ValueError from `index('PRIMARY_KEY')`. */
  datatype PatternError = MissingSeparator | MissingPlaceholder

  /** Where `list_blobs` is asked to look. */
  datatype Location = Location(bucket: string, prefix: string)

  /** The template with every `gs://` deleted: never longer than the template, and
      just the text after the scheme for a template that starts with `gs://` and
      holds no other. */
  function Trim(template: string): (r: string)
    ensures |r| <= |template|
    ensures Scheme <= template && !Contains(template[|Scheme|..], Scheme) ==> r == template[|Scheme|..]
  {
    var r := ReplaceAll(template, Scheme, "");
    assert Scheme <= template && !Contains(template[|Scheme|..], Scheme) ==> r == template[|Scheme|..] by {
      if Scheme <= template && !Contains(template[|Scheme|..], Scheme) {
        ReplaceAllAbsent(template[|Scheme|..], Scheme, "");
      }
    }
    r
  }

  /** `loc` splits the trimmed template `t`: the bucket is the text before the first
      `/`, and the prefix runs from just after that `/` to the first placeholder
      that follows it. */
  ghost predicate Splits(t: string, loc: Location)
  {
    && |loc.bucket| < |t|
    && t[..|loc.bucket|] == loc.bucket
    && t[|loc.bucket|] == '/'
    && '/' !in loc.bucket
    && var rest := t[|loc.bucket| + 1..];
       && OccursAt(rest, Placeholder, |loc.prefix|)
       && rest[..|loc.prefix|] == loc.prefix
       && forall j: nat :: j < |loc.prefix| ==> !OccursAt(rest, Placeholder, j)
  }

  /** A trimmed template splits in at most one way. */
  lemma SplitsUnique(t: string, a: Location, b: Location)
    requires Splits(t, a) && Splits(t, b)
    ensures a == b
  {
    SplitsFound(t);
  }

  /** A split of `t` is found by searching for the first `/` and then for the first
      placeholder after it. */
  lemma SplitsFound(t: string)
    ensures forall loc :: Splits(t, loc) ==>
              && IndexOf(t, "/") == Some(|loc.bucket|)
              && IndexOf(t[|loc.bucket| + 1..], Placeholder) == Some(|loc.prefix|)
  {
    CharOccurrence(t, '/');
    forall loc | Splits(t, loc) ensures IndexOf(t, "/") == Some(|loc.bucket|) {
      assert t[|loc.bucket|] == '/';
      assert '/' !in t[..|loc.bucket|];
    }
  }

  /** The bucket and listing prefix of a template, or the error Python raises. */
  function Decompose(template: string): (r: Result<Location, PatternError>)
    ensures r.Success? ==> Splits(Trim(template), r.value)
    ensures r.Failure? ==> forall loc :: !Splits(Trim(template), loc)
    ensures r == Failure(MissingSeparator) <==> '/' !in Trim(template)
  {
    var t := Trim(template);
    CharOccurrence(t, '/');
    SplitsFound(t);
    match IndexOf(t, "/")
    case None => Failure(MissingSeparator)
    case Some(s) =>
      var rest := t[s + 1..];
      match IndexOf(rest, Placeholder)
      case None => Failure(MissingPlaceholder)
      case Some(i) => Success(Location(t[..s], rest[..i]))
  }

  /** `bucket/prefixPRIMARY_KEYsuffix` splits at its first `/` and first placeholder. */
  lemma SplitsShape(bucket: string, after: string, prefix: string, suffix: string)
    requires '/' !in bucket
    requires !Contains(prefix, Placeholder)
    requires after == prefix + Placeholder + suffix
    ensures Splits(bucket + "/" + after, Location(bucket, prefix))
  {
    var t := bucket + "/" + after;
    FirstOccurrence(prefix, Placeholder, suffix);
    assert t[|bucket| + 1..] == after;
    assert t[..|bucket|] == bucket;
    assert after[..|prefix|] == prefix;
  }

  /** A template of the documented shape `gs://<bucket>/<prefix>PRIMARY_KEY<suffix>`
      decomposes into exactly that bucket and prefix. */
  lemma DecomposeShape(bucket: string, prefix: string, suffix: string)
    requires '/' !in bucket
    requires !Contains(prefix, Placeholder)
    requires !Contains(bucket + "/" + prefix + Placeholder + suffix, Scheme)
    ensures Decompose(Scheme + bucket + "/" + prefix + Placeholder + suffix)
            == Success(Location(bucket, prefix))
  {
    var after := prefix + Placeholder + suffix;
    var rest := bucket + "/" + after;
    assert rest == bucket + "/" + prefix + Placeholder + suffix;
    assert Scheme + rest == Scheme + bucket + "/" + prefix + Placeholder + suffix;
    assert (Scheme + rest)[|Scheme|..] == rest;
    SplitsShape(bucket, after, prefix, suffix);
    SplitsUnique(rest, Decompose(Scheme + rest).value, Location(bucket, prefix));
  }

  /** Regular-expression metacharacters other than `.`; a template whose literal text
      holds one of these is outside the model. */
  const MetaChars := "^$*+?{}[]\\|()"

  /** Literal template text the model can interpret: no metacharacter but `.`. */
  predicate PlainLiteral(s: string)
  {
    forall i :: 0 <= i < |s| ==> s[i] !in MetaChars
  }

  /** The templates this model covers: exactly one placeholder, and plain literal
      text around it. */
  predicate Supported(template: string)
  {
    match IndexOf(template, Placeholder)
    case None => false
    case Some(i) =>
      && !Contains(template[i + |Placeholder|..], Placeholder)
      && PlainLiteral(template[..i])
      && PlainLiteral(template[i + |Placeholder|..])
  }

  /** The compiled regular expression `head(\w+)tail`: the literal text before and
      after the placeholder. */
  datatype Matcher = Matcher(head: string, tail: string)

  /** `re.compile(template.replace('PRIMARY_KEY', '(\w+)'))` for a supported template:
      the expression is the template with `WordGroup` in place of its one placeholder. */
  function Compile(template: string): (m: Matcher)
    requires Supported(template)
    ensures m.head + Placeholder + m.tail == template
    ensures !Contains(m.head, Placeholder) && !Contains(m.tail, Placeholder)
    ensures PlainLiteral(m.head) && PlainLiteral(m.tail)
    ensures forall r :: ReplaceAll(template, Placeholder, r) == m.head + r + m.tail
    ensures ReplaceAll(template, Placeholder, WordGroup) == m.head + WordGroup + m.tail
  {
    var i := IndexOf(template, Placeholder).value;
    var m := Matcher(template[..i], template[i + |Placeholder|..]);
    assert template[i..i + |Placeholder|] == Placeholder;
    assert m.head + Placeholder + m.tail == template;
    BeforeFirst(template, Placeholder, i);
    assert forall r :: ReplaceAll(template, Placeholder, r) == m.head + r + m.tail by {
      forall r ensures ReplaceAll(template, Placeholder, r) == m.head + r + m.tail {
        ReplaceOnly(template, Placeholder, r, i);
      }
    }
    m
  }

  /** Splitting a template at its one placeholder recovers the text around it. */
  lemma CompileShape(head: string, tail: string)
    requires !Contains(head, Placeholder) && !Contains(tail, Placeholder)
    requires PlainLiteral(head) && PlainLiteral(tail)
    ensures Supported(head + Placeholder + tail)
    ensures Compile(head + Placeholder + tail) == Matcher(head, tail)
  {
    var t := head + Placeholder + tail;
    FirstOccurrence(head, Placeholder, tail);
    assert t[..|head|] == head;
    assert t[|head| + |Placeholder|..] == tail;
  }

  /** Python 2's `\w` on a byte string: ASCII letters, digits and underscore. */
  predicate IsWordChar(c: char)
  {
    ('a' <= c <= 'z') || ('A' <= c <= 'Z') || ('0' <= c <= '9') || c == '_'
  }

  /** One template character against one path character: `.` matches anything but
      a newline, every other character matches itself. */
  predicate CharMatches(p: char, c: char)
  {
    if p == '.' then c != '\n' else c == p
  }

  /** The literal text `lit` matches `s` starting at index `i`. */
  predicate LiteralAt(lit: string, s: string, i: nat)
  {
    i + |lit| <= |s| && forall j :: 0 <= j < |lit| ==> CharMatches(lit[j], s[i + j])
  }

  /** `re.match` succeeds with group 1 of length `n`: the head matches at the start,
      `n` word characters follow, and then the tail matches (whatever comes after it
      is allowed, since `re.match` anchors only at the start). */
  ghost predicate Captures(m: Matcher, path: string, n: nat)
  {
    && LiteralAt(m.head, path, 0)
    && 1 <= n
    && |m.head| + n <= |path|
    && (forall j :: |m.head| <= j < |m.head| + n ==> IsWordChar(path[j]))
    && TailAt(m, path, n)
  }

  /** The length of the run of word characters in `s` that starts at `i`. */
  function WordRun(s: string, i: nat): (n: nat)
    requires i <= |s|
    ensures i + n <= |s|
    ensures forall j :: i <= j < i + n ==> IsWordChar(s[j])
    ensures i + n == |s| || !IsWordChar(s[i + n])
    decreases |s| - i
  {
    if i < |s| && IsWordChar(s[i]) then 1 + WordRun(s, i + 1) else 0
  }

  /** The tail matches right after a group of length `n`. */
  predicate TailAt(m: Matcher, path: string, n: nat)
  {
    LiteralAt(m.tail, path, |m.head| + n)
  }

  /** A group of word characters never runs past the maximal word run. */
  lemma CaptureWithinRun(m: Matcher, path: string)
    requires |m.head| <= |path|
    ensures forall n: nat :: Captures(m, path, n) ==> n <= WordRun(path, |m.head|)
  {
    var w := WordRun(path, |m.head|);
    forall n: nat | Captures(m, path, n) ensures n <= w {
    }
  }

  /** Greedy backtracking of `(\w+)`: try group lengths `n`, `n - 1`, ..., `1` and
      keep the first after which the tail matches. */
  function Backtrack(m: Matcher, path: string, n: nat): (r: Option<nat>)
    requires |m.head| + n <= |path|
    ensures r.Some? ==> 1 <= r.value <= n && TailAt(m, path, r.value)
    ensures r.Some? ==> forall k: nat :: r.value < k <= n ==> !TailAt(m, path, k)
    ensures r.None? ==> forall k: nat :: 1 <= k <= n ==> !TailAt(m, path, k)
  {
    if n == 0 then None
    else if TailAt(m, path, n) then Some(n)
    else Backtrack(m, path, n - 1)
  }

  /** `re.match(regex, path)` followed by `match.group(1)`: the primary key, or
      `None` when the path does not match. */
  function Match(m: Matcher, path: string): (r: Option<string>)
    ensures r.Some? ==> Captures(m, path, |r.value|)
    ensures r.Some? ==> r.value == path[|m.head|..|m.head| + |r.value|]
    ensures r.Some? ==> forall n: nat :: Captures(m, path, n) ==> n <= |r.value|
    ensures r.None? ==> forall n: nat :: !Captures(m, path, n)
  {
    if !LiteralAt(m.head, path, 0) then None
    else
      var w := WordRun(path, |m.head|);
      CaptureWithinRun(m, path);
      match Backtrack(m, path, w)
      case None => None
      case Some(n) => Some(path[|m.head|..|m.head| + n])
  }

  /** A non-empty run of word characters. */
  predicate IsKey(key: string)
  {
    |key| > 0 && forall i :: 0 <= i < |key| ==> IsWordChar(key[i])
  }

  /** A literal matches its own text. */
  lemma LiteralMatchesItself(lit: string, s: string, i: nat)
    requires i + |lit| <= |s| && s[i..i + |lit|] == lit
    ensures LiteralAt(lit, s, i)
  {
    forall j | 0 <= j < |lit| ensures CharMatches(lit[j], s[i + j]) {
      assert s[i + j] == s[i..i + |lit|][j];
    }
  }

  /** The run of word characters at `i` is exactly `n` long when `n` word characters
      are followed by a non-word character or the end. */
  lemma WordRunExact(s: string, i: nat, n: nat)
    requires i + n <= |s|
    requires forall j :: i <= j < i + n ==> IsWordChar(s[j])
    requires i + n == |s| || !IsWordChar(s[i + n])
    ensures WordRun(s, i) == n
  {
  }

  /** Matching `head + key + rest` captures `key` when the tail matches at the start
      of `rest` and `rest` does not start with a word character; whatever follows
      the tail is ignored. */
  lemma MatchSplice(m: Matcher, key: string, rest: string)
    requires IsKey(key)
    requires LiteralAt(m.tail, rest, 0)
    requires |rest| == 0 || !IsWordChar(rest[0])
    ensures Match(m, m.head + key + rest) == Some(key)
  {
    var path := m.head + key + rest;
    var h := |m.head|;
    assert path[..h] == m.head;
    LiteralMatchesItself(m.head, path, 0);
    assert path[h..h + |key|] == key;
    assert forall j :: 0 <= j < |rest| ==> path[h + |key| + j] == rest[j];
    assert TailAt(m, path, |key|);
    assert forall j :: h <= j < h + |key| ==> path[j] == key[j - h];
    assert h + |key| < |path| ==> path[h + |key|] == rest[0];
    WordRunExact(path, h, |key|);
  }

  /** Matching `head + key + tail` captures exactly `key`: the group of that length
      leaves the tail in place, and a longer group would leave too little text for
      the tail, so the greedy group stops at the key. */
  lemma MatchExact(m: Matcher, key: string, path: string)
    requires IsKey(key)
    requires path == m.head + key + m.tail
    ensures Match(m, path) == Some(key)
  {
    var h := |m.head|;
    assert path[..h] == m.head;
    LiteralMatchesItself(m.head, path, 0);
    assert path[h + |key|..] == m.tail;
    LiteralMatchesItself(m.tail, path, h + |key|);
    assert forall j :: h <= j < h + |key| ==> path[j] == key[j - h];
    assert Captures(m, path, |key|);
    var v := Match(m, path).value;
    assert |v| >= |key|;
    assert TailAt(m, path, |v|);
    assert h + |v| + |m.tail| <= |path| == h + |key| + |m.tail|;
    assert v == path[h..h + |key|] == key;
  }

  /** Round trip: substituting a key for the placeholder of a supported template and
      matching the resulting path gives that key back. */
  lemma MatchSubstituted(template: string, key: string)
    requires Supported(template)
    requires IsKey(key)
    ensures Match(Compile(template), ReplaceAll(template, Placeholder, key)) == Some(key)
  {
    var m := Compile(template);
    MatchExact(m, key, ReplaceAll(template, Placeholder, key));
  }
}
