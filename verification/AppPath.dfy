/** Mapping between app URIs (`internal://type/file`) and absolute paths, as on the device build. */
module AppPath {

  import opened Options

  const URI_PREFIX: string := "internal://"
  const ABS_PREFIX: string := "/data/quickapp"
  const TMP: string := "tmp"
  const TYPES: seq<string> := ["cache", "file", "mass", TMP]

  // ---------------------------------------------------------------- string search

  predicate OccursAt(s: string, t: string, i: nat) {
    i + |t| <= |s| && s[i..i + |t|] == t
  }

  ghost predicate Contains(s: string, t: string) {
    exists i :: OccursAt(s, t, i)
  }

  /** `i` is the first occurrence. */
  ghost predicate First(s: string, t: string, i: nat) {
    OccursAt(s, t, i) && forall j :: 0 <= j < i ==> !OccursAt(s, t, j)
  }

  /** strstr: the first occurrence from position `i` on. */
  function Find(s: string, t: string, i: nat): (r: Option<nat>)
    ensures r.Some? ==> i <= r.value && OccursAt(s, t, r.value) && forall j :: i <= j < r.value ==> !OccursAt(s, t, j)
    ensures r.None? ==> forall j :: i <= j ==> !OccursAt(s, t, j)
    decreases |s| - i
  {
    if i > |s| then None
    else if OccursAt(s, t, i) then Some(i)
    else if i == |s| then None
    else Find(s, t, i + 1)
  }

  method StrStr(s: string, t: string) returns (r: Option<nat>)
    ensures r == Find(s, t, 0)
  {
    var i := 0;
    while i <= |s|
      invariant 0 <= i <= |s| + 1
      invariant Find(s, t, 0) == Find(s, t, i)
    {
      if OccursAt(s, t, i) { return Some(i); }
      i := i + 1;
    }
    r := None;
  }

  lemma FindFirst(s: string, t: string, i: nat)
    requires First(s, t, i)
    ensures Find(s, t, 0) == Some(i)
  {
  }

  // ---------------------------------------------------------------- the two mappings

  /** A type is accepted when it starts with one of the known names. */
  predicate KnownType(t: string) {
    exists i :: 0 <= i < |TYPES| && TYPES[i] <= t
  }

  datatype Parts = Parts(kind: string, file: Option<string>)

  /** The text after the scheme, cut at its first slash. */
  function Cut(tail: string): Parts {
    match Find(tail, "/", 0)
    case Some(i) => Parts(tail[..i], Some(tail[i + 1..]))
    case None => Parts(tail, None)
  }

  function Join(p: Parts, pkg: string): string {
    ABS_PREFIX + "/" + p.kind + (if p.kind == TMP then "" else "/" + pkg) +
    (if p.file.Some? then "/" + p.file.value else "")
  }

  /** The scheme may stand anywhere in the URI; what is skipped is always its length. */
  function ToAbsolute(pkg: string, uri: string): Option<string> {
    if Find(uri, URI_PREFIX, 0).None? then None
    else
      var p := Cut(uri[|URI_PREFIX|..]);
      if KnownType(p.kind) then Some(Join(p, pkg)) else None
  }

  /** `rest` is the text after the prefix and a slash; the package name is searched in it, the slash
      before it ends the type, and the file name starts one character after it. An occurrence at the
      very start leaves the type uncut. */
  function RelativeRest(pkg: string, rest: string): Option<string> {
    match Find(rest, pkg, 0)
    case None => None
    case Some(i) =>
      var kind := if i == 0 then rest else rest[..i - 1];
      var file := if i + |pkg| + 1 > |rest| then "" else rest[i + |pkg| + 1..];
      Some(URI_PREFIX + kind + "/" + file)
  }

  function ToRelative(pkg: string, path: string): Option<string> {
    match Find(path, ABS_PREFIX, 0)
    case None => None
    case Some(at) =>
      var tail := path[at + |ABS_PREFIX|..];
      match Find(tail, "/", 0)
      case None => None
      case Some(i) => RelativeRest(pkg, tail[i + 1..])
  }

  /** The procedure for the first mapping, with its loop over the type names. */
  method RelativeToAbsolute(pkg: string, uri: string) returns (path: Option<string>)
    ensures path == ToAbsolute(pkg, uri)
  {
    var scheme := StrStr(uri, URI_PREFIX);
    if scheme.None? { return None; }
    var tail := uri[|URI_PREFIX|..];
    var slash := StrStr(tail, "/");
    var kind, file := tail, None;
    if slash.Some? {
      kind, file := tail[..slash.value], Some(tail[slash.value + 1..]);
    }
    var i := 0;
    while i < |TYPES| && !(TYPES[i] <= kind)
      invariant 0 <= i <= |TYPES|
      invariant forall k :: 0 <= k < i ==> !(TYPES[k] <= kind)
    {
      i := i + 1;
    }
    if i == |TYPES| { return None; }
    path := Some(Join(Parts(kind, file), pkg));
  }

  method AbsoluteToRelative(pkg: string, path: string) returns (uri: Option<string>)
    ensures uri == ToRelative(pkg, path)
  {
    var at := StrStr(path, ABS_PREFIX);
    if at.None? { return None; }
    var tail := path[at.value + |ABS_PREFIX|..];
    var slash := StrStr(tail, "/");
    if slash.None? { return None; }
    uri := CutAtPackage(pkg, tail[slash.value + 1..]);
  }

  method CutAtPackage(pkg: string, rest: string) returns (uri: Option<string>)
    ensures uri == RelativeRest(pkg, rest)
  {
    var name := StrStr(rest, pkg);
    if name.None? { return None; }
    var kind := if name.value == 0 then rest else rest[..name.value - 1];
    var file := if name.value + |pkg| + 1 > |rest| then "" else rest[name.value + |pkg| + 1..];
    uri := Some(URI_PREFIX + kind + "/" + file);
  }

  // ---------------------------------------------------------------- the first mapping, in full

  /** A type is accepted exactly when it begins with one of four words. */
  lemma KnownExactly(t: string)
    ensures KnownType(t) <==> "cache" <= t || "file" <= t || "mass" <= t || "tmp" <= t
  {
    assert TYPES[0] == "cache" && TYPES[1] == "file" && TYPES[2] == "mass" && TYPES[3] == "tmp";
  }

  /** The absolute path of an accepted URI, and nothing for any other. */
  lemma AbsoluteExactly(pkg: string, kind: string, file: string)
    requires SlashFree(kind)
    ensures var known := "cache" <= kind || "file" <= kind || "mass" <= kind || "tmp" <= kind;
      && ToAbsolute(pkg, "internal://" + kind + "/" + file) ==
         (if !known then None
          else if kind == "tmp" then Some("/data/quickapp" + "/" + kind + "" + ("/" + file))
          else Some("/data/quickapp" + "/" + kind + ("/" + pkg) + ("/" + file)))
      && ToAbsolute(pkg, "internal://" + kind) ==
         (if !known then None
          else if kind == "tmp" then Some("/data/quickapp" + "/" + kind + "" + "")
          else Some("/data/quickapp" + "/" + kind + ("/" + pkg) + ""))
  {
    KnownExactly(kind);
    CutKind(kind, file);
    AfterScheme(kind + "/" + file);
    AfterScheme(kind);
    Regroup("internal://", kind, "/", file);
  }

  /** The scheme is found in front, and what follows it is what gets cut. */
  lemma AfterScheme(tail: string)
    ensures Find(URI_PREFIX + tail, URI_PREFIX, 0).Some? && (URI_PREFIX + tail)[|URI_PREFIX|..] == tail
  {
    var uri := URI_PREFIX + tail;
    assert uri[0..|URI_PREFIX|] == URI_PREFIX;
    FindFirst(uri, URI_PREFIX, 0);
  }

  /** A text without the scheme anywhere is refused. */
  lemma WithoutScheme(pkg: string, uri: string)
    requires !Contains(uri, "internal://")
    ensures ToAbsolute(pkg, uri) == None
  {
    var r := Find(uri, "internal://", 0);
  }

  /** What follows the first slash behind the first occurrence of the prefix. */
  ghost predicate Behind(path: string, at: nat, i: nat, rest: string) {
    && First(path, "/data/quickapp", at) && at + 14 <= |path|
    && First(path[at + 14..], "/", i) && rest == path[at + 14..][i + 1..]
  }

  /** The second mapping looks for the package name in that rest and nowhere else: what is before it, less
      a slash, is the type, and what is behind it, less a slash, the file. */
  lemma RelativeValue(pkg: string, path: string, at: nat, i: nat, rest: string)
    requires Behind(path, at, i, rest)
    ensures !Contains(rest, pkg) ==> ToRelative(pkg, path) == None
    ensures forall n: nat :: n > 0 && First(rest, pkg, n) ==>
      ToRelative(pkg, path) == Some("internal://" + rest[..n - 1] + "/" +
        (if n + |pkg| + 1 > |rest| then "" else rest[n + |pkg| + 1..]))
  {
    FindFirst(path, "/data/quickapp", at);
    FindFirst(path[at + 14..], "/", i);
    assert ToRelative(pkg, path) == RelativeRest(pkg, rest);
    RestValue(pkg, rest);
  }

  lemma RestValue(pkg: string, rest: string)
    ensures !Contains(rest, pkg) ==> RelativeRest(pkg, rest) == None
    ensures forall n: nat :: n > 0 && First(rest, pkg, n) ==>
      RelativeRest(pkg, rest) == Some("internal://" + rest[..n - 1] + "/" +
        (if n + |pkg| + 1 > |rest| then "" else rest[n + |pkg| + 1..]))
  {
    var r := Find(rest, pkg, 0);
    assert r.Some? ==> OccursAt(rest, pkg, r.value);
  }

  /** Without the prefix, or without a slash behind it, there is nothing to map. */
  lemma NothingToMap(pkg: string, path: string)
    ensures !Contains(path, "/data/quickapp") ==> ToRelative(pkg, path) == None
    ensures forall at: nat :: First(path, "/data/quickapp", at) && !Contains(path[at + 14..], "/") ==>
      ToRelative(pkg, path) == None
  {
    var r := Find(path, "/data/quickapp", 0);
    forall at: nat | First(path, "/data/quickapp", at) && !Contains(path[at + 14..], "/")
      ensures ToRelative(pkg, path) == None
    {
      FindFirst(path, "/data/quickapp", at);
      var s := Find(path[at + 14..], "/", 0);
    }
  }

  // ---------------------------------------------------------------- cutting what was joined

  ghost predicate SlashFree(s: string) {
    forall i :: 0 <= i < |s| ==> s[i] != '/'
  }

  lemma SlashAt(s: string, i: nat)
    ensures OccursAt(s, "/", i) <==> i < |s| && s[i] == '/'
  {
    if i < |s| { assert s[i..i + 1] == [s[i]]; }
  }

  lemma OccursChar(s: string, t: string, i: nat, k: nat)
    requires OccursAt(s, t, i) && k < |t|
    ensures s[i + k] == t[k]
  {
    assert s[i..i + |t|][k] == s[i + k];
  }

  lemma Regroup(a: string, b: string, c: string, d: string)
    ensures a + (b + c + d) == a + b + c + d
  {
  }

  lemma CutKind(kind: string, file: string)
    requires SlashFree(kind)
    ensures Cut(kind) == Parts(kind, None)
    ensures Cut(kind + "/" + file) == Parts(kind, Some(file))
  {
    var tail := kind + "/" + file;
    forall j: nat ensures j < |kind| ==> !OccursAt(kind, "/", j) && !OccursAt(tail, "/", j) {
      SlashAt(kind, j);
      SlashAt(tail, j);
    }
    assert tail[|kind|..|kind| + 1] == "/";
    FindFirst(tail, "/", |kind|);
  }

  /** The URI in front of a path that was joined is found again at its fixed places. */
  lemma RelativeOfJoined(pkg: string, rest: string)
    ensures ToRelative(pkg, ABS_PREFIX + "/" + rest) == RelativeRest(pkg, rest)
  {
    var path := ABS_PREFIX + "/" + rest;
    assert path[0..|ABS_PREFIX|] == ABS_PREFIX;
    FindFirst(path, ABS_PREFIX, 0);
    var tail := path[|ABS_PREFIX|..];
    assert tail == "/" + rest;
    assert tail[0..1] == "/";
    FindFirst(tail, "/", 0);
    assert tail[1..] == rest;
  }

  /** After a slash-free type, a slash-free package name that the type does not contain is found
      exactly where it was put. */
  lemma PackageFound(kind: string, pkg: string, more: string)
    requires SlashFree(pkg) && pkg != "" && !Contains(kind, pkg)
    ensures Find(kind + "/" + pkg + more, pkg, 0) == Some(|kind| + 1)
  {
    var s := kind + "/" + pkg + more;
    assert s[|kind| + 1..|kind| + 1 + |pkg|] == pkg;
    forall j | 0 <= j < |kind| + 1 ensures !OccursAt(s, pkg, j) {
      if j + |pkg| <= |kind| {
        assert kind[j..j + |pkg|] == s[j..j + |pkg|];
        assert OccursAt(s, pkg, j) == OccursAt(kind, pkg, j);
      } else if OccursAt(s, pkg, j) {
        OccursChar(s, pkg, j, |kind| - j);
      }
    }
    FindFirst(s, pkg, |kind| + 1);
  }

  /** If the type does contain it, it is found inside the type. */
  lemma PackageInType(kind: string, pkg: string, more: string)
    requires Contains(kind, pkg)
    ensures var r := Find(kind + more, pkg, 0); r.Some? && r.value + |pkg| <= |kind|
  {
    var i: nat :| OccursAt(kind, pkg, i);
    assert (kind + more)[i..i + |pkg|] == kind[i..i + |pkg|];
    assert OccursAt(kind + more, pkg, i);
  }

  // ---------------------------------------------------------------- the round trip

  ghost function Trip(pkg: string, uri: string): Option<string> {
    match ToAbsolute(pkg, uri)
    case Some(path) => ToRelative(pkg, path)
    case None => None
  }

  /** The scheme is found at the start, and what follows it is what gets cut and joined. */
  lemma TripJoined(pkg: string, tail: string, rest: string)
    requires KnownType(Cut(tail).kind) && Join(Cut(tail), pkg) == ABS_PREFIX + "/" + rest
    ensures Trip(pkg, URI_PREFIX + tail) == RelativeRest(pkg, rest)
  {
    var uri := URI_PREFIX + tail;
    assert uri[0..|URI_PREFIX|] == URI_PREFIX;
    FindFirst(uri, URI_PREFIX, 0);
    assert uri[|URI_PREFIX|..] == tail;
    RelativeOfJoined(pkg, rest);
  }

  /** For every accepted URI with a file part and every slash-free package name, the trip to the
      absolute path and back gives the same URI exactly when the type is not `tmp` and does not
      contain the package name. */
  lemma RoundTripWithFile(pkg: string, kind: string, file: string)
    requires SlashFree(kind) && KnownType(kind) && SlashFree(pkg) && pkg != ""
    ensures var uri := URI_PREFIX + kind + "/" + file;
      Trip(pkg, uri) == Some(uri) <==> kind != TMP && !Contains(kind, pkg)
  {
    if kind == TMP {
      TmpTrip(pkg, file);
      NeverTheSame(pkg, TMP + "/" + file);
      Regroup(URI_PREFIX, TMP, "/", file);
    } else {
      PackageTrip(pkg, kind, file);
      WithPackage(pkg, kind, file);
    }
  }

  lemma TmpTrip(pkg: string, file: string)
    ensures Trip(pkg, URI_PREFIX + TMP + "/" + file) == RelativeRest(pkg, TMP + "/" + file)
    ensures Trip(pkg, URI_PREFIX + TMP) == RelativeRest(pkg, TMP)
  {
    assert TYPES[3] <= TMP;
    CutKind(TMP, file);
    assert Join(Parts(TMP, Some(file)), pkg) == ABS_PREFIX + "/" + (TMP + "/" + file);
    TripJoined(pkg, TMP + "/" + file, TMP + "/" + file);
    Regroup(URI_PREFIX, TMP, "/", file);
    assert Join(Parts(TMP, None), pkg) == ABS_PREFIX + "/" + TMP;
    TripJoined(pkg, TMP, TMP);
  }

  lemma PackageTrip(pkg: string, kind: string, file: string)
    requires SlashFree(kind) && KnownType(kind) && kind != TMP
    ensures Trip(pkg, URI_PREFIX + kind + "/" + file) == RelativeRest(pkg, kind + ("/" + pkg) + ("/" + file))
  {
    CutKind(kind, file);
    Regroup(ABS_PREFIX + "/", kind, "/" + pkg, "/" + file);
    TripJoined(pkg, kind + "/" + file, kind + ("/" + pkg) + ("/" + file));
    Regroup(URI_PREFIX, kind, "/", file);
  }

  lemma PackageTripAlone(pkg: string, kind: string)
    requires SlashFree(kind) && KnownType(kind) && kind != TMP
    ensures Trip(pkg, URI_PREFIX + kind) == RelativeRest(pkg, kind + ("/" + pkg))
  {
    CutKind(kind, "");
    assert Join(Parts(kind, None), pkg) == ABS_PREFIX + "/" + (kind + ("/" + pkg));
    TripJoined(pkg, kind, kind + ("/" + pkg));
  }

  lemma WithPackage(pkg: string, kind: string, file: string)
    requires SlashFree(kind) && SlashFree(pkg) && pkg != ""
    ensures RelativeRest(pkg, kind + ("/" + pkg) + ("/" + file)) == Some(URI_PREFIX + kind + "/" + file) <==>
              !Contains(kind, pkg)
  {
    var rest := kind + ("/" + pkg) + ("/" + file);
    if Contains(kind, pkg) {
      assert rest == kind + ("/" + pkg + "/" + file);
      PackageInType(kind, pkg, "/" + pkg + "/" + file);
      CutInsideType(pkg, kind, rest, file);
    } else {
      assert rest == kind + "/" + pkg + ("/" + file);
      PackageFound(kind, pkg, "/" + file);
      assert rest[..|kind|] == kind && rest[|kind| + 1 + |pkg| + 1..] == file;
    }
  }

  /** A rest without the package name between type and file never maps back to itself. */
  lemma NeverTheSame(pkg: string, rest: string)
    requires pkg != ""
    ensures RelativeRest(pkg, rest) != Some(URI_PREFIX + rest)
  {
    var r := Find(rest, pkg, 0);
    if r.Some? {
      var i := r.value;
      var kind := if i == 0 then rest else rest[..i - 1];
      var file := if i + |pkg| + 1 > |rest| then "" else rest[i + |pkg| + 1..];
      assert |URI_PREFIX + kind + "/" + file| == |URI_PREFIX| + |kind| + 1 + |file|;
    }
  }

  lemma CutInsideType(pkg: string, kind: string, rest: string, file: string)
    requires pkg != "" && SlashFree(kind) && kind <= rest && |rest| >= |kind| + |file| + 1
    requires var r := Find(rest, pkg, 0); r.Some? && r.value + |pkg| <= |kind|
    ensures RelativeRest(pkg, rest) != Some(URI_PREFIX + kind + "/" + file)
  {
    var i := Find(rest, pkg, 0).value;
    var uri := URI_PREFIX + kind + "/" + file;
    var cut := if i == 0 then rest else rest[..i - 1];
    var name := if i + |pkg| + 1 > |rest| then "" else rest[i + |pkg| + 1..];
    var back := URI_PREFIX + cut + "/" + name;
    if i == 0 {
      assert |back| > |uri|;
    } else {
      var at := |URI_PREFIX| + i - 1;
      assert back[at] == '/';
      assert uri[at] == kind[i - 1];
    }
  }

  /** Without a file part the trip adds a slash, exactly under the same condition, or when the type is
      `tmp` and the package name happens to be its beginning. */
  lemma RoundTripWithoutFile(pkg: string, kind: string)
    requires SlashFree(kind) && KnownType(kind) && SlashFree(pkg) && pkg != ""
    ensures var uri := URI_PREFIX + kind;
      Trip(pkg, uri) == Some(uri + "/") <==> (if kind == TMP then |pkg| >= 2 && pkg <= TMP else !Contains(kind, pkg))
  {
    if kind == TMP {
      TmpTrip(pkg, "");
      TmpAlone(pkg);
    } else {
      PackageTripAlone(pkg, kind);
      WithPackageAlone(pkg, kind);
    }
  }

  lemma WithPackageAlone(pkg: string, kind: string)
    requires SlashFree(kind) && SlashFree(pkg) && pkg != ""
    ensures RelativeRest(pkg, kind + ("/" + pkg)) == Some(URI_PREFIX + kind + "/") <==> !Contains(kind, pkg)
  {
    var rest := kind + ("/" + pkg);
    assert URI_PREFIX + kind + "/" == URI_PREFIX + kind + "/" + "";
    if Contains(kind, pkg) {
      PackageInType(kind, pkg, "/" + pkg);
      CutInsideType(pkg, kind, rest, "");
    } else {
      assert rest == kind + "/" + pkg + "";
      PackageFound(kind, pkg, "");
      assert rest[..|kind|] == kind;
    }
  }

  lemma TmpAlone(pkg: string)
    requires pkg != ""
    ensures RelativeRest(pkg, TMP) == Some(URI_PREFIX + TMP + "/") <==> |pkg| >= 2 && pkg <= TMP
  {
    var r := Find(TMP, pkg, 0);
    if pkg <= TMP {
      assert TMP[0..|pkg|] == pkg;
      FindFirst(TMP, pkg, 0);
    }
    if r.Some? {
      var i := r.value;
      var kind := if i == 0 then TMP else TMP[..i - 1];
      var file := if i + |pkg| + 1 > |TMP| then "" else TMP[i + |pkg| + 1..];
      assert i == 0 <==> pkg <= TMP;
      assert |URI_PREFIX + kind + "/" + file| == |URI_PREFIX| + |kind| + 1 + |file|;
      assert URI_PREFIX + TMP + "/" + "" == URI_PREFIX + TMP + "/";
    }
  }

  // ---------------------------------------------------------------- where the round trip fails

  /** A `tmp` path has no package in it, so mapping it back fails. */
  lemma TmpUriIsLost()
    ensures Trip("com.app", URI_PREFIX + TMP + "/" + "f") == None
  {
    TmpTrip("com.app", "f");
    assert |TMP + "/" + "f"| == 5;
    assert Find(TMP + "/" + "f", "com.app", 0).None?;
  }

  /** A package name that is part of the type is found there, and the URI comes back mangled. */
  lemma PackageInTypeMangles()
    ensures KnownType("cache")
    ensures Trip("ache", URI_PREFIX + "cache" + "/" + "f") == Some(URI_PREFIX + "" + "/" + "ache/f")
  {
    var pkg, kind, file := "ache", "cache", "f";
    assert TYPES[0] == kind;
    PackageTrip(pkg, kind, file);
    CacheRest(pkg, kind, file);
    MangledRest(kind + ("/" + pkg) + ("/" + file));
  }

  lemma CacheRest(pkg: string, kind: string, file: string)
    requires pkg == "ache" && kind == "cache" && file == "f"
    ensures kind + ("/" + pkg) + ("/" + file) == "cache/ache/f"
  {
  }

  lemma MangledRest(rest: string)
    requires rest == "cache/ache/f"
    ensures RelativeRest("ache", rest) == Some(URI_PREFIX + "" + "/" + "ache/f")
  {
    var pkg := "ache";
    assert rest[1..1 + |pkg|] == pkg && rest[0] != pkg[0];
    assert rest[0..|pkg|][0] == rest[0];
    FindFirst(rest, pkg, 1);
    assert rest[..0] == "" && rest[6..] == "ache/f";
  }
}
