/** Storage keys: normalising, joining, and the bucket and path a key denotes. */
module StorageKeys {
  import opened Text

  datatype Visibility = Public | Private

  datatype StorageError = InvalidKey | UnknownVisibility(key: string) | NotPublic | SigningFailed

  datatype Result<T> = Ok(value: T) | Err(error: StorageError)

  const PUBLIC := "public"
  const PRIVATE := "private"

  function Name(v: Visibility): string {
    match v case Public => PUBLIC case Private => PRIVATE
  }

  // ---------- Paths ----------

  function TrimLeft(s: string): string {
    if s != "" && s[0] == '/' then TrimLeft(s[1..]) else s
  }

  function TrimRight(s: string): string {
    if s != "" && s[|s| - 1] == '/' then TrimRight(s[..|s| - 1]) else s
  }

  function Trim(s: string): string {
    TrimRight(TrimLeft(s))
  }

  function ForwardSlashes(s: string): (r: string)
    ensures |r| == |s|
    ensures forall i :: 0 <= i < |s| ==> r[i] == if s[i] == '\\' then '/' else s[i]
  {
    seq(|s|, i requires 0 <= i < |s| => if s[i] == '\\' then '/' else s[i])
  }

  const DOT := "."
  const DOT_DOT := ".."

  predicate ValidSegments(segments: seq<string>) {
    forall s :: s in segments ==> s != "" && s != DOT && s != DOT_DOT
  }

  function SanitizeKey(input: string): Result<string> {
    if input == "" || '\0' in input then Err(InvalidKey)
    else
      var key := Trim(ForwardSlashes(input));
      if ValidSegments(Split(key, '/')) then Ok(key) else Err(InvalidKey)
  }

  function Trimmed(parts: seq<string>): seq<string> {
    if parts == [] then []
    else if Trim(parts[0]) == "" then Trimmed(parts[1..])
    else [Trim(parts[0])] + Trimmed(parts[1..])
  }

  function JoinKey(parts: seq<string>): string {
    if Trimmed(parts) == [] then "" else Join(Trimmed(parts), '/')
  }

  predicate StartsWith(s: string, prefix: string) {
    |prefix| <= |s| && s[..|prefix|] == prefix
  }

  function StripPrefix(key: string, prefix: string): Result<string> {
    match SanitizeKey(key)
    case Err(e) => Err(e)
    case Ok(normalized) =>
      var p := Trim(prefix);
      if p == "" then Ok(normalized)
      else if normalized == p then Ok("")
      else if StartsWith(normalized, p + "/") then Ok(normalized[|p| + 1..])
      else Ok(normalized)
  }

  // ---------- The provider's view of a key ----------

  function VisibilityFromKey(key: string): Result<Visibility> {
    match SanitizeKey(key)
    case Err(e) => Err(e)
    case Ok(normalized) => Ok(if Split(normalized, '/')[0] == PRIVATE then Private else Public)
  }

  datatype Buckets = Buckets(publicBucket: string, privateBucket: string)

  function BucketFor(b: Buckets, v: Visibility): string {
    if v == Private then b.privateBucket else b.publicBucket
  }

  function PathFor(key: string): Result<string> {
    match VisibilityFromKey(key)
    case Err(e) => Err(e)
    case Ok(v) => StripPrefix(key, Name(v))
  }

  // ---------- The service's view of a key ----------

  function VisibilityOf(key: string): Result<Visibility> {
    var prefix := Split(TrimLeft(key), '/')[0];
    if prefix == PUBLIC then Ok(Public)
    else if prefix == PRIVATE then Ok(Private)
    else Err(UnknownVisibility(key))
  }

  /** The key of a new upload. */
  function TargetKey(v: Visibility, folder: string, filename: string): string {
    JoinKey([Name(v), folder, filename])
  }

  // ---------- Trimming and first segments ----------

  lemma {:induction false} TrimLeftClean(s: string)
    ensures TrimLeft(s) == "" || TrimLeft(s)[0] != '/'
    ensures |TrimLeft(s)| <= |s| && TrimLeft(s) == s[|s| - |TrimLeft(s)|..]
  {
    if s != "" && s[0] == '/' {
      TrimLeftClean(s[1..]);
    }
  }

  lemma {:induction false} TrimRightClean(s: string)
    ensures TrimRight(s) == "" || TrimRight(s)[|TrimRight(s)| - 1] != '/'
    ensures |TrimRight(s)| <= |s| && TrimRight(s) == s[..|TrimRight(s)|]
  {
    if s != "" && s[|s| - 1] == '/' {
      TrimRightClean(s[..|s| - 1]);
    }
  }

  /** A string without slashes at its ends is its own trimming. */
  lemma TrimFixes(s: string)
    requires s == "" || (s[0] != '/' && s[|s| - 1] != '/')
    ensures Trim(s) == s
  {
  }

  lemma TrimClean(s: string)
    ensures Trim(s) == "" || (Trim(s)[0] != '/' && Trim(s)[|Trim(s)| - 1] != '/')
    ensures forall c :: c in Trim(s) ==> c in s
  {
    TrimLeftClean(s);
    TrimRightClean(TrimLeft(s));
  }

  /** A string is its first segment, or that and a slash and the rest. */
  lemma {:induction false} FirstSegment(s: string)
    ensures var p := Split(s, '/')[0];
            |p| <= |s| && p == s[..|p|] && (|p| < |s| ==> s[|p|] == '/')
  {
    if s != "" {
      FirstSegment(s[1..]);
    }
  }

  /** And conversely. */
  lemma FirstSegmentIs(s: string, p: string)
    requires '/' !in p && StartsWith(s, p) && (|p| < |s| ==> s[|p|] == '/')
    ensures Split(s, '/')[0] == p
  {
    if |p| == |s| {
      assert s == p;
      SplitSingle(p, '/');
    } else {
      var rest := s[|p| + 1..];
      assert s == p + ['/'] + rest;
      SplitField(p, '/', rest);
    }
  }

  lemma EmptyIsInvalid()
    ensures !ValidSegments(Split("", '/'))
  {
    var none := Split("", '/');
    assert none[0] == "" && none[0] in none;
  }

  /** A normalised key is not empty, and no slash is at its ends. */
  lemma Normalised(key: string)
    requires SanitizeKey(key).Ok?
    ensures var n := SanitizeKey(key).value;
            n != "" && n[0] != '/' && n[|n| - 1] != '/' && '\\' !in n && '\0' !in n
  {
    TrimClean(ForwardSlashes(key));
    EmptyIsInvalid();
    assert '\\' !in ForwardSlashes(key) && '\0' !in ForwardSlashes(key);
  }

  /** A normalised key normalises to itself. */
  lemma SanitizeSettles(key: string)
    requires SanitizeKey(key).Ok?
    ensures SanitizeKey(SanitizeKey(key).value) == SanitizeKey(key)
  {
    var n := SanitizeKey(key).value;
    Normalised(key);
    assert ForwardSlashes(n) == n;
    TrimFixes(n);
  }

  // ---------- Bucket and path ----------

  /** The first segment names a visibility, and another segment follows. */
  predicate Prefixed(normalized: string) {
    var first := Split(normalized, '/')[0];
    (first == PUBLIC || first == PRIVATE) && |first| < |normalized|
  }

  lemma NamesAreClean(v: Visibility)
    ensures Name(v) != "" && Trim(Name(v)) == Name(v) && '/' !in Name(v)
    ensures Name(v)[0] == 'p' && '\\' !in Name(v)
  {
    TrimFixes(Name(v));
  }

  lemma NamesDiffer()
    ensures PUBLIC != PRIVATE
  {
    assert |PUBLIC| == 6 && |PRIVATE| == 7;
  }

  lemma StartsWithSlash(s: string, p: string)
    requires StartsWith(s, p + "/")
    ensures |p| < |s| && s[..|p|] == p && s[|p|] == '/'
  {
    assert s[..|p|] == (p + "/")[..|p|] == p && s[|p|] == (p + "/")[|p|] == '/';
  }

  lemma StartsIff(s: string, p: string)
    requires '/' !in p
    ensures StartsWith(s, p + "/") <==> Split(s, '/')[0] == p && |p| < |s|
    ensures s == p ==> Split(s, '/')[0] == p
  {
    FirstSegment(s);
    if Split(s, '/')[0] == p && |p| < |s| {
      assert s[..|p| + 1] == s[..|p|] + [s[|p|]];
    }
    if StartsWith(s, p + "/") {
      StartsWithSlash(s, p);
      FirstSegmentIs(s, p);
    }
    if s == p {
      FirstSegmentIs(s, p);
    }
  }

  /** What follows the first segment if that is `p`; all of a string that starts otherwise. */
  function After(s: string, first: string, p: string): string {
    if first == p && |p| < |s| then s[|p| + 1..] else if s == p then "" else s
  }

  lemma AfterRebuilds(s: string, first: string, p: string)
    requires |first| <= |s| && first == s[..|first|] && (|first| < |s| ==> s[|first|] == '/')
    ensures p + "/" + After(s, first, p) == s <==> first == p && |p| < |s|
  {
    if first == p && |p| < |s| {
      assert s == s[..|p|] + [s[|p|]] + s[|p| + 1..];
    } else {
      assert |p + "/" + After(s, first, p)| == |p| + 1 + |After(s, first, p)|;
    }
  }

  lemma Stripped(key: string, v: Visibility)
    requires SanitizeKey(key).Ok?
    ensures var n := SanitizeKey(key).value; StripPrefix(key, Name(v)) == Ok(After(n, Split(n, '/')[0], Name(v)))
  {
    NamesAreClean(v);
    StartsIff(SanitizeKey(key).value, Name(v));
  }

  /** The visibility and the path spell the normalised key out again exactly when it is prefixed. */
  lemma LocationRebuilds(key: string)
    requires SanitizeKey(key).Ok?
    ensures VisibilityFromKey(key).Ok? && PathFor(key).Ok?
    ensures Name(VisibilityFromKey(key).value) + "/" + PathFor(key).value == SanitizeKey(key).value <==> Prefixed(SanitizeKey(key).value)
  {
    var n := SanitizeKey(key).value;
    var v := VisibilityFromKey(key).value;
    NamesDiffer();
    NamesAreClean(v);
    Stripped(key, v);
    FirstSegment(n);
    AfterRebuilds(n, Split(n, '/')[0], Name(v));
  }

  /** Under distinct buckets, two prefixed keys denote one object exactly when they normalise alike. */
  lemma LocationInjective(b: Buckets, k: string, l: string)
    requires b.publicBucket != b.privateBucket
    requires SanitizeKey(k).Ok? && SanitizeKey(l).Ok?
    requires Prefixed(SanitizeKey(k).value) && Prefixed(SanitizeKey(l).value)
    ensures VisibilityFromKey(k).Ok? && VisibilityFromKey(l).Ok?
    ensures BucketFor(b, VisibilityFromKey(k).value) == BucketFor(b, VisibilityFromKey(l).value) && PathFor(k) == PathFor(l)
       <==> SanitizeKey(k) == SanitizeKey(l)
  {
    LocationRebuilds(k);
    LocationRebuilds(l);
    if SanitizeKey(k) == SanitizeKey(l) {
      SamePath(k, l);
    }
  }

  lemma SamePath(k: string, l: string)
    requires SanitizeKey(k).Ok? && SanitizeKey(k) == SanitizeKey(l)
    ensures VisibilityFromKey(k) == VisibilityFromKey(l) && PathFor(k) == PathFor(l)
  {
  }

  // ---------- The service and the provider agree ----------

  /** Backslashes become slashes only after the first segment, if that has none. */
  lemma {:induction false} TrimThenSlash(s: string)
    requires TrimLeft(s) != "" && TrimLeft(s)[0] != '\\'
    ensures TrimLeft(ForwardSlashes(s)) == ForwardSlashes(TrimLeft(s))
  {
    if s[0] == '/' {
      TrimThenSlash(s[1..]);
      assert ForwardSlashes(s)[1..] == ForwardSlashes(s[1..]);
    }
  }

  lemma {:induction false} TrimKeepsFirst(p: string, rest: string)
    requires p != "" && '/' !in p
    ensures Split(TrimRight(p + "/" + rest), '/')[0] == p
    decreases |rest|
  {
    var s := p + "/" + rest;
    if rest == "" {
      assert s[..|s| - 1] == p && TrimRight(p) == p;
      SplitSingle(p, '/');
    } else if rest[|rest| - 1] == '/' {
      assert s[..|s| - 1] == p + "/" + rest[..|rest| - 1];
      TrimKeepsFirst(p, rest[..|rest| - 1]);
    } else {
      assert s == p + ['/'] + rest;
      SplitField(p, '/', rest);
    }
  }

  /** Where the service can tell a key's visibility, the provider finds the same one, or no valid key. */
  lemma VisibilitiesAgree(key: string)
    requires VisibilityOf(key).Ok? && SanitizeKey(key).Ok?
    ensures VisibilityFromKey(key) == VisibilityOf(key)
  {
    var v := VisibilityOf(key).value;
    var t := TrimLeft(key);
    var p := Name(v);
    NamesDiffer();
    NamesAreClean(v);
    FirstSegment(t);
    TrimThenSlash(key);
    SlashesKeepFirst(t, p);
  }

  lemma SlashesKeepFirst(t: string, p: string)
    requires p != "" && '/' !in p && '\\' !in p && Split(t, '/')[0] == p
    ensures Split(TrimRight(ForwardSlashes(t)), '/')[0] == p
  {
    FirstSegment(t);
    var u := ForwardSlashes(t);
    if |p| == |t| {
      assert u == p;
      SplitSingle(p, '/');
    } else {
      assert u == p + "/" + u[|p| + 1..];
      TrimKeepsFirst(p, u[|p| + 1..]);
    }
  }

  // ---------- Upload targets ----------

  /** The key built for an upload tells the visibility it was built for. */
  lemma TargetKeepsVisibility(v: Visibility, folder: string, filename: string)
    ensures VisibilityOf(TargetKey(v, folder, filename)) == Ok(v)
  {
    var parts := [Name(v), folder, filename];
    var key := TargetKey(v, folder, filename);
    NamesAreClean(v);
    NamesDiffer();
    assert Trimmed(parts) == [Name(v)] + Trimmed(parts[1..]);
    var rest := Trimmed(parts[1..]);
    if rest == [] {
      assert key == Name(v);
    } else {
      assert key == Name(v) + ['/'] + Join(rest, '/');
    }
    FirstSegmentIs(key, Name(v));
    assert TrimLeft(key) == key;
  }

  // ---------- Keys spelled out ----------

  /** Non-empty segments other than dots, with single forward slashes between them. */
  predicate CleanPath(s: string) {
    && s != "" && '\0' !in s && '\\' !in s
    && forall segment :: segment in Split(s, '/') ==> segment != "" && segment != "." && segment != ".."
  }

  predicate OnlySlashes(s: string) {
    forall i :: 0 <= i < |s| ==> s[i] == '/'
  }

  lemma {:induction false} TrimLeftCuts(left: string, s: string)
    requires OnlySlashes(left) && s != "" && s[0] != '/'
    ensures TrimLeft(left + s) == s
  {
    if left == "" {
      assert left + s == s;
    } else {
      assert (left + s)[1..] == left[1..] + s && (left + s)[0] == left[0];
      TrimLeftCuts(left[1..], s);
    }
  }

  lemma {:induction false} TrimRightCuts(s: string, right: string)
    requires OnlySlashes(right) && s != "" && s[|s| - 1] != '/'
    ensures TrimRight(s + right) == s
  {
    if right == "" {
      assert s + right == s;
    } else {
      var n := |right| - 1;
      assert (s + right)[..|s + right| - 1] == s + right[..n];
      TrimRightCuts(s, right[..n]);
    }
  }

  /** What is trimmed away is slashes. */
  lemma {:induction false} TrimLeftSplits(s: string) returns (left: string)
    ensures s == left + TrimLeft(s) && OnlySlashes(left)
  {
    if s != "" && s[0] == '/' {
      left := TrimLeftSplits(s[1..]);
      left := "/" + left;
    } else {
      left := "";
    }
  }

  lemma {:induction false} TrimRightSplits(s: string) returns (right: string)
    ensures s == TrimRight(s) + right && OnlySlashes(right)
  {
    if s != "" && s[|s| - 1] == '/' {
      right := TrimRightSplits(s[..|s| - 1]);
      right := right + "/";
    } else {
      right := "";
    }
  }

  /** A clean path, with slashes of either kind inside and any number of them at the ends. */
  ghost predicate Spells(key: string, n: string) {
    exists left, right :: OnlySlashes(left) && OnlySlashes(right) && ForwardSlashes(key) == left + n + right
  }

  lemma TrimSplits(u: string) returns (left: string, right: string)
    ensures u == left + Trim(u) + right && OnlySlashes(left) && OnlySlashes(right)
  {
    left := TrimLeftSplits(u);
    right := TrimRightSplits(TrimLeft(u));
  }

  lemma SegmentsClean(n: string)
    requires ValidSegments(Split(n, '/')) && n != "" && '\0' !in n && '\\' !in n
    ensures CleanPath(n)
  {
  }

  lemma SanitizedClean(key: string, n: string)
    requires SanitizeKey(key) == Ok(n)
    ensures '\0' !in key && CleanPath(n) && n == Trim(ForwardSlashes(key))
  {
    Normalised(key);
    SegmentsClean(n);
  }

  lemma SanitizedSpells(key: string, n: string)
    requires SanitizeKey(key) == Ok(n)
    ensures Spells(key, n)
  {
    SanitizedClean(key, n);
    var left, right := TrimSplits(ForwardSlashes(key));
  }

  lemma TrimCuts(left: string, n: string, right: string)
    requires OnlySlashes(left) && OnlySlashes(right) && n != "" && n[0] != '/' && n[|n| - 1] != '/'
    ensures Trim(left + n + right) == n
  {
    assert left + n + right == left + (n + right);
    TrimLeftCuts(left, n + right);
    TrimRightCuts(n, right);
  }

  lemma SpelledIsSanitized(key: string, n: string)
    requires '\0' !in key && CleanPath(n) && Spells(key, n)
    ensures SanitizeKey(key) == Ok(n)
  {
    var left, right :| OnlySlashes(left) && OnlySlashes(right) && ForwardSlashes(key) == left + n + right;
    CleanEnds(n);
    TrimCuts(left, n, right);
  }

  /** A key is accepted exactly when it spells a clean path and holds no null character, and then stands for that path. */
  lemma SanitizeIff(key: string, n: string)
    ensures SanitizeKey(key) == Ok(n) <==> '\0' !in key && CleanPath(n) && Spells(key, n)
  {
    if SanitizeKey(key) == Ok(n) {
      SanitizedClean(key, n);
      SanitizedSpells(key, n);
    }
    if '\0' !in key && CleanPath(n) && Spells(key, n) {
      SpelledIsSanitized(key, n);
    }
  }

  lemma CleanEnds(s: string)
    requires CleanPath(s)
    ensures s[0] != '/' && s[|s| - 1] != '/' && Trim(s) == s && ForwardSlashes(s) == s && SanitizeKey(s) == Ok(s)
  {
    var segments := Split(s, '/');
    FirstSegment(s);
    assert segments[0] in segments;
    LastSegment(s);
    assert segments[|segments| - 1] in segments;
    TrimFixes(s);
  }

  /** A string that ends in a slash has an empty last segment. */
  lemma {:induction false} LastSegment(s: string)
    ensures s != "" && s[|s| - 1] == '/' ==> Split(s, '/')[|Split(s, '/')| - 1] == ""
  {
    if s != "" {
      LastSegment(s[1..]);
    }
  }

  lemma Prefixes(name: string, s: string)
    requires CleanPath(s) && name != "" && '/' !in name && '\0' !in name && '\\' !in name && name != DOT && name != DOT_DOT
    ensures CleanPath(name + "/" + s) && Split(name + "/" + s, '/') == [name] + Split(s, '/')
  {
    assert name + "/" + s == name + ['/'] + s;
    SplitField(name, '/', s);
  }

  lemma NameSpells(v: Visibility)
    ensures Name(v) == if v == Public then "public" else "private"
    ensures Name(v) != DOT && Name(v) != DOT_DOT && '\0' !in Name(v)
  {
    assert |Name(v)| >= 6;
  }

  lemma ServiceSpells(key: string, v: Visibility)
    requires key != "" && key[0] != '/' && Split(key, '/')[0] == Name(v)
    ensures VisibilityOf(key) == Ok(v)
  {
    NamesDiffer();
  }

  lemma ProviderSpells(key: string, v: Visibility, s: string)
    requires SanitizeKey(key) == Ok(key) && key == Name(v) + "/" + s && Split(key, '/')[0] == Name(v)
    ensures VisibilityFromKey(key) == Ok(v) && PathFor(key) == Ok(s)
  {
    NamesDiffer();
    Stripped(key, v);
    assert key[|Name(v)| + 1..] == s;
  }

  lemma KeyLocates(key: string, v: Visibility, s: string)
    requires CleanPath(s) && key == Name(v) + "/" + s
    ensures VisibilityOf(key) == Ok(v) && VisibilityFromKey(key) == Ok(v) && PathFor(key) == Ok(s)
  {
    NameSpells(v);
    NamesAreClean(v);
    Prefixes(Name(v), s);
    CleanEnds(key);
    ServiceSpells(key, v);
    ProviderSpells(key, v, s);
  }

  /** The key of a clean path under a visibility: both sides agree on it, and the path is the rest. */
  lemma PublicKeySpells(s: string)
    requires CleanPath(s)
    ensures VisibilityOf("public/" + s) == Ok(Public) && VisibilityFromKey("public/" + s) == Ok(Public) && PathFor("public/" + s) == Ok(s)
  {
    assert "public/" + s == PUBLIC + "/" + s;
    KeyLocates("public/" + s, Public, s);
  }

  lemma PrivateKeySpells(s: string)
    requires CleanPath(s)
    ensures VisibilityOf("private/" + s) == Ok(Private) && VisibilityFromKey("private/" + s) == Ok(Private) && PathFor("private/" + s) == Ok(s)
  {
    assert "private/" + s == PRIVATE + "/" + s;
    KeyLocates("private/" + s, Private, s);
  }

  lemma CleanJoins(a: string, b: string)
    requires CleanPath(a) && CleanPath(b)
    ensures CleanPath(a + "/" + b)
  {
    SplitJoined(a, b, '/');
    assert a + "/" + b == a + ['/'] + b;
  }

  lemma {:induction false} SplitJoined(a: string, b: string, sep: char)
    ensures Split(a + [sep] + b, sep) == Split(a, sep) + Split(b, sep)
  {
    var s := a + [sep] + b;
    if a == "" {
      assert s[1..] == b;
    } else {
      assert s[1..] == a[1..] + [sep] + b && s[0] == a[0];
      SplitJoined(a[1..], b, sep);
      SplitHead(a, Split(b, sep), sep);
    }
  }

  lemma SplitHead(a: string, more: seq<string>, sep: char)
    requires a != ""
    ensures var rest := Split(a[1..], sep) + more;
            Split(a, sep) + more == if a[0] == sep then [""] + rest else [[a[0]] + rest[0]] + rest[1..]
  {
  }

  /** The key of an upload into a clean folder under a clean name. */
  lemma TargetSpells(v: Visibility, folder: string, filename: string)
    requires CleanPath(folder) && CleanPath(filename)
    ensures TargetKey(v, folder, filename) == (if v == Public then "public/" else "private/") + (folder + "/" + filename)
  {
    NamesAreClean(v);
    NameSpells(v);
    CleanEnds(folder);
    CleanEnds(filename);
    assert Trimmed([filename]) == [filename];
    assert [folder, filename][1..] == [filename];
    assert Trimmed([folder, filename]) == [folder, filename];
    assert [Name(v), folder, filename][1..] == [folder, filename];
    assert Trimmed([Name(v), folder, filename]) == [Name(v), folder, filename];
    assert Join([folder, filename], '/') == folder + ['/'] + filename;
    assert Join([Name(v), folder, filename], '/') == Name(v) + ['/'] + (folder + ['/'] + filename);
  }

  /** And without a folder. */
  lemma TargetWithoutFolder(v: Visibility, filename: string)
    requires CleanPath(filename)
    ensures TargetKey(v, "", filename) == (if v == Public then "public/" else "private/") + filename
  {
    NamesAreClean(v);
    NameSpells(v);
    CleanEnds(filename);
    assert Trimmed([filename]) == [filename];
    assert ["", filename][1..] == [filename];
    assert Trimmed(["", filename]) == [filename];
    assert [Name(v), "", filename][1..] == ["", filename];
    assert Join([Name(v), filename], '/') == Name(v) + ['/'] + filename;
  }
}
