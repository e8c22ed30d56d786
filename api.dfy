/**
  Channel state and switching (src/api.ts): which channel the well-known
  path `<root>\atom` currently points at, where each channel lives, which
  installed version a channel directory holds, and the deactivate/switch
  sequence with its Squirrel lifecycle hooks.

  `semver.gte` is the parameter `gte`, and whether a spawned process exits
  with code 0 is the parameter `launch`. Each asynchronous operation is
  given twice: as a function computing its `Effect` (outcome, new entries,
  processes spawned), and as a method that performs the same steps on a
  `FileSystem` and is proved to have exactly that effect.
 */
module Api {
  import opened Common
  import opened Fs

  datatype AtomVersionKind = NotInstalled | Unknown | Stable | Beta | Daily

  /** The numeric value TypeScript gives each enum member. */
  function Ordinal(kind: AtomVersionKind): nat
  {
    match kind
    case NotInstalled => 0
    case Unknown => 1
    case Stable => 2
    case Beta => 3
    case Daily => 4
  }

  /** The kinds that name a real channel; the other two are sentinels. */
  predicate IsChannel(kind: AtomVersionKind)
  {
    kind == Stable || kind == Beta || kind == Daily
  }

  // ---------------------------------------------------------------------
  // Paths
  // ---------------------------------------------------------------------

  /** The value of `%LOCALAPPDATA%`, fixed for the model. */
  const LocalAppData: Path := "C:\\Users\\user\\AppData\\Local"

  /** `baseDir || process.env['LOCALAPPDATA']`: an empty string also falls back. */
  function Root(baseDir: Option<Path>): Path
  {
    if baseDir.Some? && baseDir.value != "" then baseDir.value else LocalAppData
  }

  /** `path.join(dir, name)` for a directory and a single name. */
  function Join(dir: Path, name: string): Path
  {
    dir + "\\" + name
  }

  /** The well-known active path `<root>\atom`. */
  function AtomPath(baseDir: Option<Path>): Path
  {
    Join(Root(baseDir), "atom")
  }

  function DirName(kind: AtomVersionKind): string
    requires IsChannel(kind)
  {
    match kind
    case Stable => "avm-atom-stable"
    case Beta => "avm-atom-beta"
    case Daily => "avm-atom-daily"
  }

  /** `getInstalledAtomPath`: the channel's directory under the root; throws for a sentinel kind. */
  function GetInstalledAtomPath(kind: AtomVersionKind, baseDir: Option<Path>): (r: Result<Path>)
    ensures r.Success? <==> IsChannel(kind)
    ensures r.Failure? ==> r.error == UnsupportedKind(Ordinal(kind))
    ensures r.Success? ==> r.value == Join(Root(baseDir), DirName(kind))
  {
    if IsChannel(kind) then Success(Join(Root(baseDir), DirName(kind)))
    else Failure(UnsupportedKind(Ordinal(kind)))
  }

  /** The three channels live in three different directories of one root. */
  lemma InstalledAtomPathInjective(k1: AtomVersionKind, k2: AtomVersionKind, baseDir: Option<Path>)
    requires GetInstalledAtomPath(k1, baseDir).Success?
    requires GetInstalledAtomPath(k1, baseDir) == GetInstalledAtomPath(k2, baseDir)
    ensures k1 == k2
  {
    var root := Root(baseDir);
    assert |Join(root, DirName(k1))| == |Join(root, DirName(k2))|;
  }

  /** Two roots give the same active path only if they are the same root. */
  lemma AtomPathInjective(a: Option<Path>, b: Option<Path>)
    requires AtomPath(a) == AtomPath(b)
    ensures Root(a) == Root(b)
  {
    var pa, pb := AtomPath(a), AtomPath(b);
    assert Root(a) == pa[..|pa| - 5];
    assert Root(b) == pb[..|pb| - 5];
  }

  /** A channel directory is never the active path of any root. */
  lemma ChannelPathIsNotAtomPath(kind: AtomVersionKind, root: Path, baseDir: Option<Path>)
    requires IsChannel(kind)
    ensures Join(root, DirName(kind)) != AtomPath(baseDir)
  {
    var p, q := Join(root, DirName(kind)), AtomPath(baseDir);
    assert p[|p| - 1] != 'm';
    assert q[|q| - 1] == 'm';
  }

  // ---------------------------------------------------------------------
  // Classifying the link target: /\\avm-atom-(stable|beta|daily)/i, then a
  // case-sensitive switch on the captured text
  // ---------------------------------------------------------------------

  const Marker: string := "\\avm-atom-"

  /**
    The canonical form the `i` flag compares. Outside unicode mode a
    character whose upper case is ASCII but which is not ASCII itself keeps
    its own form, so against the pattern's ASCII letters only ASCII case
    differences are ignored.
   */
  function FoldCase(c: char): char
  {
    if 'a' <= c <= 'z' then (c as int - 32) as char else c
  }

  /** `a` and `b` are the same text, ignoring ASCII case. */
  predicate CiEqual(a: string, b: string)
  {
    |a| == |b| && forall k :: 0 <= k < |a| ==> FoldCase(a[k]) == FoldCase(b[k])
  }

  /** `w` occurs in `s` at index `i`, ignoring ASCII case. */
  predicate MatchesAt(s: string, i: nat, w: string)
  {
    i + |w| <= |s| && CiEqual(s[i..i + |w|], w)
  }

  predicate ContainsMarker(s: string)
  {
    exists i: nat :: i <= |s| && MatchesAt(s, i, Marker)
  }

  /** The text the group captures when the whole pattern matches at index `i`. */
  function CaptureAt(s: string, i: nat): (c: Option<string>)
    ensures c.Some? ==> MatchesAt(s, i, Marker)
  {
    if !MatchesAt(s, i, Marker) then None
    else
      var j := i + |Marker|;
      if MatchesAt(s, j, "stable") then Some(s[j..j + 6])
      else if MatchesAt(s, j, "beta") then Some(s[j..j + 4])
      else if MatchesAt(s, j, "daily") then Some(s[j..j + 5])
      else None
  }

  /** `String.prototype.match` without `g`: the leftmost index, from `from` on, where the pattern matches. */
  function FirstMatch(s: string, from: nat): (r: Option<nat>)
    ensures r.Some? ==> from <= r.value < |s| && CaptureAt(s, r.value).Some?
    ensures forall j :: from <= j < |s| && (r.None? || j < r.value) ==> CaptureAt(s, j).None?
    decreases |s| - from
  {
    if from >= |s| then None
    else if CaptureAt(s, from).Some? then Some(from)
    else FirstMatch(s, from + 1)
  }

  /** The `switch (m[1])`: exact, case-sensitive comparison of the capture. */
  function KindOfCapture(capture: string): (kind: AtomVersionKind)
    ensures kind != NotInstalled
    ensures kind != Unknown ==> IsChannel(kind) && capture == DirName(kind)[|Marker| - 1..]
  {
    if capture == "stable" then Stable
    else if capture == "beta" then Beta
    else if capture == "daily" then Daily
    else Unknown
  }

  /** The kind a resolved link target denotes. */
  function Classify(resolved: Path): (kind: AtomVersionKind)
    ensures kind != NotInstalled
    ensures FirstMatch(resolved, 0).None? ==> kind == Unknown
  {
    match FirstMatch(resolved, 0)
    case None => Unknown
    case Some(i) => KindOfCapture(CaptureAt(resolved, i).value)
  }

  /** `c` is one of the three alternatives, in any ASCII case. */
  predicate IsChannelWordCi(c: string)
  {
    CiEqual(c, "stable") || CiEqual(c, "beta") || CiEqual(c, "daily")
  }

  /** No occurrence of the marker starts inside `base` when a backslash follows it. */
  lemma NoMatchInsideBase(base: string, tail: string, j: nat)
    requires !ContainsMarker(base)
    requires tail != [] && tail[0] == '\\'
    requires j < |base|
    ensures CaptureAt(base + tail, j).None?
  {
    var s := base + tail;
    assert s[..|base|] == base;
    if j + |Marker| <= |base| {
      assert !MatchesAt(base, j, Marker);
      assert s[j..j + |Marker|] == base[j..j + |Marker|];
    } else if j + |Marker| <= |s| {
      var k := |base| - j;
      var w := s[j..j + |Marker|];
      assert w[k] == '\\';
      assert forall n :: 1 <= n < |Marker| ==> FoldCase(Marker[n]) != '\\';
      assert FoldCase(w[k]) != FoldCase(Marker[k]);
    }
  }

  /** Matching and capturing at `|p|` in `p + t` is matching and capturing at 0 in `t`. */
  lemma CaptureShift(p: string, t: string)
    ensures CaptureAt(p + t, |p|) == CaptureAt(t, 0)
  {
    var s, i, j := p + t, |p|, |Marker|;
    if j <= |t| {
      assert s[i..i + j] == t[0..j];
    }
    if j + 6 <= |t| {
      assert s[i + j..i + j + 6] == t[j..j + 6];
    }
    if j + 5 <= |t| {
      assert s[i + j..i + j + 5] == t[j..j + 5];
    }
    if j + 4 <= |t| {
      assert s[i + j..i + j + 4] == t[j..j + 4];
    }
  }

  /** The pattern matches at the start of `m + c + rest` and captures `c`. */
  lemma CaptureOfChannelWord(m: string, c: string, rest: string)
    requires |m| == |Marker| && MatchesAt(m, 0, Marker)
    requires IsChannelWordCi(c)
    ensures CaptureAt(m + c + rest, 0) == Some(c)
  {
    var s := m + c + rest;
    var j := |Marker|;
    assert s[0..j] == m[0..j];
    assert s[j..j + |c|] == c;
    assert s[j] == c[0];
    if CiEqual(c, "beta") {
      assert FoldCase(c[0]) == 'B';
    } else if CiEqual(c, "daily") {
      assert FoldCase(c[0]) == 'D';
    }
  }

  /**
    The leftmost match decides and no end anchor applies: after a prefix in
    which the marker never occurs, a marker in any case followed by a
    channel word in any case is classified by the exact text of that word,
    whatever follows it.
   */
  lemma {:induction false} ClassifyLeftmost(base: string, m: string, c: string, rest: string)
    requires !ContainsMarker(base)
    requires |m| == |Marker| && MatchesAt(m, 0, Marker)
    requires IsChannelWordCi(c)
    ensures Classify(base + m + c + rest) == KindOfCapture(c)
  {
    var t := m + c + rest;
    var s := base + t;
    assert s == base + m + c + rest;
    CaptureOfChannelWord(m, c, rest);
    CaptureShift(base, t);
    assert t[0] == m[0] == '\\' by {
      assert FoldCase(m[0]) == FoldCase(Marker[0]);
    }
    forall j | 0 <= j < |base|
      ensures CaptureAt(s, j).None?
    {
      NoMatchInsideBase(base, t, j);
    }
    assert FirstMatch(s, 0) == Some(|base|);
  }

  /** Round trip: the directory a channel is installed in classifies as that channel. */
  lemma ClassifyRoundTrip(base: Path, kind: AtomVersionKind)
    requires IsChannel(kind)
    requires !ContainsMarker(base)
    ensures Classify(Join(base, DirName(kind))) == kind
  {
    var word := DirName(kind)[|Marker| - 1..];
    assert Join(base, DirName(kind)) == base + Marker + word + "";
    assert MatchesAt(Marker, 0, Marker);
    ClassifyLeftmost(base, Marker, word, "");
  }

  /** The regex ignores case but the switch does not: an upper-case capture is Unknown. */
  lemma UpperCaseCaptureIsUnknown()
    ensures Classify("C:\\AVM-ATOM-Stable") == Unknown
  {
    assert "C:\\AVM-ATOM-Stable" == "C:" + "\\AVM-ATOM-" + "Stable" + "";
    ClassifyLeftmost("C:", "\\AVM-ATOM-", "Stable", "");
  }

  /** Nothing anchors the end: text after the channel word is ignored. */
  lemma TrailingTextIsIgnored()
    ensures Classify("C:\\avm-atom-stable-old\\app") == Stable
  {
    assert "C:\\avm-atom-stable-old\\app" == "C:" + Marker + "stable" + "-old\\app";
    assert MatchesAt(Marker, 0, Marker);
    ClassifyLeftmost("C:", Marker, "stable", "-old\\app");
  }

  /** Only the leftmost match counts, even when a later one would classify. */
  lemma LeftmostMatchDecides()
    ensures Classify("D:\\avm-atom-Beta\\avm-atom-daily") == Unknown
  {
    assert "D:\\avm-atom-Beta\\avm-atom-daily" == "D:" + Marker + "Beta" + "\\avm-atom-daily";
    assert MatchesAt(Marker, 0, Marker);
    ClassifyLeftmost("D:", Marker, "Beta", "\\avm-atom-daily");
  }

  // ---------------------------------------------------------------------
  // getInstalledAtomVersionType
  // ---------------------------------------------------------------------

  /**
    Absent (or a dangling link) is NotInstalled, present but not a link is
    Unknown, and a link is classified by its target. `isPathSymbolicLink`
    cannot throw here: the path exists, so its attribute word is not -1.
   */
  function GetInstalledAtomVersionType(entries: map<Path, Entry>, baseDir: Option<Path>): (kind: AtomVersionKind)
    ensures kind == NotInstalled <==> !Exists(entries, AtomPath(baseDir))
    ensures Exists(entries, AtomPath(baseDir)) && !entries[AtomPath(baseDir)].Link? ==> kind == Unknown
    ensures Exists(entries, AtomPath(baseDir)) && entries[AtomPath(baseDir)].Link? ==>
      kind == Classify(entries[AtomPath(baseDir)].target)
  {
    var atomDir := AtomPath(baseDir);
    if !Exists(entries, atomDir) then NotInstalled
    else if !IsSymbolicLink(entries, atomDir).value then Unknown
    else Classify(Resolve(entries, atomDir))
  }

  /** Only the entry at `<root>\atom`, and whether its link target exists, matter. */
  lemma ActiveKindIsLocal(e1: map<Path, Entry>, e2: map<Path, Entry>, baseDir: Option<Path>)
    requires AtomPath(baseDir) in e1 <==> AtomPath(baseDir) in e2
    requires AtomPath(baseDir) in e1 ==> e1[AtomPath(baseDir)] == e2[AtomPath(baseDir)]
    requires AtomPath(baseDir) in e1 && e1[AtomPath(baseDir)].Link? ==>
      (e1[AtomPath(baseDir)].target in e1 <==> e1[AtomPath(baseDir)].target in e2)
    ensures GetInstalledAtomVersionType(e1, baseDir) == GetInstalledAtomVersionType(e2, baseDir)
  {
  }

  // ---------------------------------------------------------------------
  // getCurrentPackageVersion
  // ---------------------------------------------------------------------

  /** `semver.gte(a, b)`. */
  type VersionOrder = (string, string) -> bool

  /** What semver precedence is on valid versions: total and transitive. */
  ghost predicate TotalPreorder(gte: VersionOrder)
  {
    && (forall a, b :: gte(a, b) || gte(b, a))
    && (forall a, b, c :: gte(a, b) && gte(b, c) ==> gte(a, c))
  }

  lemma Reflexive(gte: VersionOrder, a: string)
    requires TotalPreorder(gte)
    ensures gte(a, a)
  {
    assert gte(a, a) || gte(a, a);
  }

  const InitialVersion: string := "0.0.0"

  predicate AppMarkerAt(name: string, i: nat)
  {
    i + 4 <= |name| && name[i..i + 4] == "app-"
  }

  /** `!!x.match(/app-/)`: the name contains `app-` anywhere, case-sensitively. */
  predicate HasAppMarker(name: string)
  {
    exists i: nat :: i <= |name| && AppMarkerAt(name, i)
  }

  /** `x.replace(/^app-/, '')`. */
  function StripAppPrefix(name: string): (v: string)
    ensures AppMarkerAt(name, 0) ==> name == "app-" + v
    ensures !AppMarkerAt(name, 0) ==> v == name
  {
    if AppMarkerAt(name, 0) then name[4..] else name
  }

  /** The `filter` step: the names holding `app-`, in listing order. */
  function AppEntries(names: seq<string>): (apps: seq<string>)
    ensures |apps| <= |names|
    ensures forall x :: x in apps <==> x in names && HasAppMarker(x)
  {
    if names == [] then []
    else (if HasAppMarker(names[0]) then [names[0]] else []) + AppEntries(names[1..])
  }

  /** Filtering commutes with concatenation, so the listing's order is kept. */
  lemma {:induction false} AppEntriesAppend(a: seq<string>, b: seq<string>)
    ensures AppEntries(a + b) == AppEntries(a) + AppEntries(b)
  {
    if a == [] {
      assert a + b == b;
    } else {
      assert (a + b)[0] == a[0];
      assert (a + b)[1..] == a[1..] + b;
      AppEntriesAppend(a[1..], b);
    }
  }

  /** The `i`-th kept name sits at some index `k` of the listing, and the kept names after it are those after `k`. */
  lemma {:induction false} AppEntriesSuffix(names: seq<string>, i: nat)
    requires i < |AppEntries(names)|
    ensures exists k :: 0 <= k < |names| && names[k] == AppEntries(names)[i]
                        && AppEntries(names[k + 1..]) == AppEntries(names)[i + 1..]
  {
    var apps, rest := AppEntries(names), AppEntries(names[1..]);
    if HasAppMarker(names[0]) && i == 0 {
      assert names[0] == apps[0] && rest == apps[1..];
    } else {
      var i' := if HasAppMarker(names[0]) then i - 1 else i;
      assert rest[i' + 1..] == apps[i + 1..] && rest[i'] == apps[i];
      AppEntriesSuffix(names[1..], i');
      var k :| 0 <= k < |names[1..]| && names[1..][k] == rest[i']
               && AppEntries(names[1..][k + 1..]) == rest[i' + 1..];
      assert names[1..][k + 1..] == names[k + 2..];
      assert names[k + 1] == apps[i] && AppEntries(names[k + 2..]) == apps[i + 1..];
    }
  }
  function Versions(apps: seq<string>): (vs: seq<string>)
    ensures |vs| == |apps|
    ensures forall i :: 0 <= i < |apps| ==> vs[i] == StripAppPrefix(apps[i])
  {
    seq(|apps|, i requires 0 <= i < |apps| => StripAppPrefix(apps[i]))
  }

  /**
    The `reduce` step: keep the candidate when `gte(candidate, acc)`. The
    result is either the seed, which then no candidate was `gte`, or some
    candidate that no LATER candidate is `gte`: among equals the later wins.
   */
  function Newest(vs: seq<string>, acc: string, gte: VersionOrder): (r: string)
    ensures r == acc || r in vs
    ensures (r == acc && forall j :: 0 <= j < |vs| ==> !gte(vs[j], acc))
         || (exists i :: 0 <= i < |vs| && vs[i] == r && forall j :: i < j < |vs| ==> !gte(vs[j], r))
    decreases |vs|
  {
    if vs == [] then acc
    else
      var r := Newest(vs[1..], if gte(vs[0], acc) then vs[0] else acc, gte);
      assert forall j :: 1 <= j < |vs| ==> vs[j] == vs[1..][j - 1];
      r
  }

  /** Under a total preorder the fold's result is `gte` the seed and every candidate. */
  lemma {:induction false} NewestIsUpperBound(vs: seq<string>, acc: string, gte: VersionOrder)
    requires TotalPreorder(gte)
    ensures gte(Newest(vs, acc, gte), acc)
    ensures forall j :: 0 <= j < |vs| ==> gte(Newest(vs, acc, gte), vs[j])
    decreases |vs|
  {
    if vs == [] {
      Reflexive(gte, acc);
    } else {
      var next := if gte(vs[0], acc) then vs[0] else acc;
      NewestIsUpperBound(vs[1..], next, gte);
      var r := Newest(vs, acc, gte);
      assert r == Newest(vs[1..], next, gte);
      assert gte(r, next);
      Reflexive(gte, acc);
      Reflexive(gte, vs[0]);
      assert gte(vs[0], acc) || gte(acc, vs[0]);
      assert gte(next, acc) && gte(next, vs[0]);
      forall j | 1 <= j < |vs|
        ensures gte(r, vs[j])
      {
        assert vs[j] == vs[1..][j - 1];
      }
    }
  }

  /** Reordering the listing can change the winner only to an equivalent version. */
  lemma NewestIgnoresOrder(vs1: seq<string>, vs2: seq<string>, acc: string, gte: VersionOrder)
    requires TotalPreorder(gte)
    requires multiset(vs1) == multiset(vs2)
    ensures gte(Newest(vs1, acc, gte), Newest(vs2, acc, gte))
    ensures gte(Newest(vs2, acc, gte), Newest(vs1, acc, gte))
  {
    NewestIsUpperBound(vs1, acc, gte);
    NewestIsUpperBound(vs2, acc, gte);
    var r1, r2 := Newest(vs1, acc, gte), Newest(vs2, acc, gte);
    if r2 != acc {
      assert r2 in multiset(vs1);
      var j :| 0 <= j < |vs1| && vs1[j] == r2;
    }
    if r1 != acc {
      assert r1 in multiset(vs2);
      var j :| 0 <= j < |vs2| && vs2[j] == r1;
    }
  }

  /** The `app-` name at index `i` of the listing gives `v`, and no later `app-` name is `gte` it. */
  predicate LastNewestAt(names: seq<string>, i: int, v: string, gte: VersionOrder)
  {
    && 0 <= i < |names| && HasAppMarker(names[i]) && StripAppPrefix(names[i]) == v
    && forall j :: i < j < |names| && HasAppMarker(names[j]) ==> !gte(StripAppPrefix(names[j]), v)
  }

  /**
    The fold over the listing: either no `app-` version is `gte` `0.0.0` and
    `0.0.0` stays, or the winner is the stripped name at some index that no
    LATER `app-` name in the listing is `gte`.
   */
  lemma NewestOverListing(names: seq<string>, gte: VersionOrder)
    ensures var v := Newest(Versions(AppEntries(names)), InitialVersion, gte);
      || (v == InitialVersion
          && forall j :: 0 <= j < |names| && HasAppMarker(names[j]) ==> !gte(StripAppPrefix(names[j]), InitialVersion))
      || exists i :: LastNewestAt(names, i, v, gte)
  {
    var vs := Versions(AppEntries(names));
    var v := Newest(vs, InitialVersion, gte);
    if i :| 0 <= i < |vs| && vs[i] == v && forall j :: i < j < |vs| ==> !gte(vs[j], v) {
      var k := LaterWinsInListing(names, i, v, gte);
    } else {
      NoVersionInListing(names, gte);
    }
  }

  /** A kept name no later kept name is `gte` is a name no later `app-` name of the listing is `gte`. */
  lemma LaterWinsInListing(names: seq<string>, i: nat, v: string, gte: VersionOrder) returns (k: nat)
    requires i < |AppEntries(names)| && Versions(AppEntries(names))[i] == v
    requires forall j :: i < j < |AppEntries(names)| ==> !gte(Versions(AppEntries(names))[j], v)
    ensures LastNewestAt(names, k, v, gte)
  {
    var apps := AppEntries(names);
    var vs := Versions(apps);
    AppEntriesSuffix(names, i);
    k :| 0 <= k < |names| && names[k] == apps[i] && AppEntries(names[k + 1..]) == apps[i + 1..];
    assert names[k] in apps;
    forall j | k < j < |names| && HasAppMarker(names[j])
      ensures !gte(StripAppPrefix(names[j]), v)
    {
      var m := LaterNameIsLaterKept(names, i, k, j);
      assert vs[m] == StripAppPrefix(names[j]);
    }
  }

  /** An `app-` name after index `k` is kept after position `i`, when the names kept after `k` are those after `i`. */
  lemma LaterNameIsLaterKept(names: seq<string>, i: nat, k: nat, j: nat) returns (m: nat)
    requires i < |AppEntries(names)| && k < j < |names| && HasAppMarker(names[j])
    requires AppEntries(names[k + 1..]) == AppEntries(names)[i + 1..]
    ensures i < m < |AppEntries(names)| && AppEntries(names)[m] == names[j]
  {
    var apps := AppEntries(names);
    assert names[k + 1..][j - k - 1] == names[j];
    assert names[j] in apps[i + 1..];
    var m' :| 0 <= m' < |apps[i + 1..]| && apps[i + 1..][m'] == names[j];
    m := i + 1 + m';
  }

  /** When the fold keeps its seed, no `app-` name of the listing is `gte` `0.0.0`. */
  lemma NoVersionInListing(names: seq<string>, gte: VersionOrder)
    requires forall j :: 0 <= j < |AppEntries(names)| ==> !gte(Versions(AppEntries(names))[j], InitialVersion)
    ensures forall j :: 0 <= j < |names| && HasAppMarker(names[j]) ==> !gte(StripAppPrefix(names[j]), InitialVersion)
  {
    var apps := AppEntries(names);
    var vs := Versions(apps);
    forall j | 0 <= j < |names| && HasAppMarker(names[j])
      ensures !gte(StripAppPrefix(names[j]), InitialVersion)
    {
      assert names[j] in apps;
      var m :| 0 <= m < |apps| && apps[m] == names[j];
      assert vs[m] == StripAppPrefix(names[j]);
    }
  }

  /**
    `getCurrentPackageVersion(appDir)`: throws when the directory cannot be
    listed or holds no `app-` name; otherwise folds the stripped names from
    `0.0.0`, so the answer is `0.0.0` or one of the stripped names.
   */
  function GetCurrentPackageVersion(entries: map<Path, Entry>, appDir: Path, gte: VersionOrder): (r: Result<string>)
    ensures ReadDir(entries, appDir).Failure? ==> r.Failure?
    ensures ReadDir(entries, appDir).Success? ==>
      (r.Failure? <==> forall x :: x in ReadDir(entries, appDir).value ==> !HasAppMarker(x))
    ensures r.Failure? && ReadDir(entries, appDir).Success? ==> r.error == NotSquirrelPackage(appDir)
    ensures r.Success? ==>
      (r.value == InitialVersion
       || exists x :: x in ReadDir(entries, appDir).value && HasAppMarker(x) && r.value == StripAppPrefix(x))
    ensures r.Success? ==>
      var names := ReadDir(entries, appDir).value;
      || (r.value == InitialVersion
          && forall j :: 0 <= j < |names| && HasAppMarker(names[j]) ==> !gte(StripAppPrefix(names[j]), InitialVersion))
      || exists i :: LastNewestAt(names, i, r.value, gte)
  {
    match ReadDir(entries, appDir)
    case Failure(e) => Failure(e)
    case Success(names) =>
      var apps := AppEntries(names);
      assert apps != [] ==> apps[0] in apps;
      if |apps| < 1 then Failure(NotSquirrelPackage(appDir))
      else
        var v := Newest(Versions(apps), InitialVersion, gte);
        NewestOverListing(names, gte);
        assert v != InitialVersion ==> exists i :: 0 <= i < |apps| && v == StripAppPrefix(apps[i]);
        Success(v)
  }

  /** The version picked is `gte` every installed `app-` version and `0.0.0`. */
  lemma CurrentPackageVersionIsNewest(entries: map<Path, Entry>, appDir: Path, gte: VersionOrder, name: string)
    requires TotalPreorder(gte)
    requires GetCurrentPackageVersion(entries, appDir, gte).Success?
    requires name in ReadDir(entries, appDir).value && HasAppMarker(name)
    ensures gte(GetCurrentPackageVersion(entries, appDir, gte).value, StripAppPrefix(name))
    ensures gte(GetCurrentPackageVersion(entries, appDir, gte).value, InitialVersion)
  {
    var apps := AppEntries(ReadDir(entries, appDir).value);
    NewestIsUpperBound(Versions(apps), InitialVersion, gte);
    var i :| 0 <= i < |apps| && apps[i] == name;
    assert Versions(apps)[i] == StripAppPrefix(name);
  }

  // ---------------------------------------------------------------------
  // Lifecycle hooks, deactivation and switching
  // ---------------------------------------------------------------------

  /** What an operation does: its outcome, the new entries, the processes it spawned. */
  datatype Effect = Effect(outcome: Outcome, entries: map<Path, Entry>, runs: seq<Process>)

  /** `<atomDir>\app-<version>\atom.exe`. */
  function AtomExe(atomDir: Path, version: string): Path
  {
    Join(Join(atomDir, "app-" + version), "atom.exe")
  }

  /**
    `runInstallHookOnCurrentAtom(type, baseDir)`: nothing when the active
    path is absent; otherwise at most one process, the `atom.exe` of the
    current version with exactly `--squirrel-<type>` and that version.
   */
  function HookEffect(entries: map<Path, Entry>, hookType: string, baseDir: Option<Path>, gte: VersionOrder, launch: Process -> bool): (h: Effect)
    ensures h.entries == entries
    ensures !Exists(entries, AtomPath(baseDir)) ==> h.outcome.Pass? && h.runs == []
    ensures |h.runs| <= 1
    ensures Exists(entries, AtomPath(baseDir)) ==>
      (h.runs != [] <==> GetCurrentPackageVersion(entries, AtomPath(baseDir), gte).Success?)
    ensures Exists(entries, AtomPath(baseDir)) && GetCurrentPackageVersion(entries, AtomPath(baseDir), gte).Failure? ==>
      h.outcome == Fail(GetCurrentPackageVersion(entries, AtomPath(baseDir), gte).error)
    ensures h.runs == [] && h.outcome.Fail? ==> GetCurrentPackageVersion(entries, AtomPath(baseDir), gte).Failure?
    ensures h.runs != [] ==>
      && |h.runs[0].args| == 2
      && GetCurrentPackageVersion(entries, AtomPath(baseDir), gte) == Success(h.runs[0].args[1])
      && h.runs[0] == Process(AtomExe(AtomPath(baseDir), h.runs[0].args[1]), ["--squirrel-" + hookType, h.runs[0].args[1]])
      && (h.outcome.Pass? <==> launch(h.runs[0]))
  {
    var atomDir := AtomPath(baseDir);
    if !Exists(entries, atomDir) then Effect(Pass, entries, [])
    else match GetCurrentPackageVersion(entries, atomDir, gte)
      case Failure(e) => Effect(Fail(e), entries, [])
      case Success(version) =>
        var p := Process(AtomExe(atomDir, version), ["--squirrel-" + hookType, version]);
        Effect(if launch(p) then Pass else Fail(HookFailed(p.exe)), entries, [p])
  }

  /**
    `uninstallCurrentAtom(baseDir)`: nothing when the active path is absent;
    otherwise the uninstall hook first, and a failing hook stops everything;
    then only a link at the active path is removed: a plain directory, the
    link's target and every other entry stay.
   */
  function UninstallEffect(entries: map<Path, Entry>, baseDir: Option<Path>, gte: VersionOrder, launch: Process -> bool): (u: Effect)
    ensures !Exists(entries, AtomPath(baseDir)) ==> u == Effect(Pass, entries, [])
    ensures u.runs == HookEffect(entries, "uninstall", baseDir, gte, launch).runs
    ensures HookEffect(entries, "uninstall", baseDir, gte, launch).outcome.Fail? ==> u.outcome.Fail? && u.entries == entries
    ensures u.entries == entries
         || (&& u.outcome.Pass?
             && AtomPath(baseDir) in entries && entries[AtomPath(baseDir)].Link?
             && u.entries == entries - {AtomPath(baseDir)})
    ensures Exists(entries, AtomPath(baseDir)) && !entries[AtomPath(baseDir)].Link? ==>
      u.entries == entries && u.outcome == HookEffect(entries, "uninstall", baseDir, gte, launch).outcome
    ensures var a := AtomPath(baseDir);
      Exists(entries, a) && entries[a].Link? && HookEffect(entries, "uninstall", baseDir, gte, launch).outcome.Pass? ==>
        && (entries[a].directory ==> u.outcome.Pass? && u.entries == entries - {a})
        && (!entries[a].directory ==> u.outcome == Fail(NotADirectory(a)) && u.entries == entries)
  {
    var atomDir := AtomPath(baseDir);
    if !Exists(entries, atomDir) then Effect(Pass, entries, [])
    else
      var hook := HookEffect(entries, "uninstall", baseDir, gte, launch);
      if hook.outcome.Fail? then hook
      else if !IsSymbolicLink(entries, atomDir).value then hook
      else match RemoveDir(entries, atomDir)
        case Failure(e) => Effect(Fail(e), entries, hook.runs)
        case Success(removed) => Effect(Pass, removed, hook.runs)
  }

  /**
    `switchToInstalledAtom(kind, baseDir)`: fails with no change for a
    sentinel kind or a missing channel directory; deactivates the DEFAULT
    root; links `<baseDir>\atom` to the channel directory; then starts the
    install hook without waiting for it, so its outcome is dropped.
   */
  function SwitchEffect(entries: map<Path, Entry>, kind: AtomVersionKind, baseDir: Option<Path>, gte: VersionOrder, launch: Process -> bool): (s: Effect)
    ensures !IsChannel(kind) ==> s == Effect(Fail(UnsupportedKind(Ordinal(kind))), entries, [])
    ensures IsChannel(kind) && !Exists(entries, Join(Root(baseDir), DirName(kind))) ==>
      s == Effect(Fail(ChannelNotInstalled(Join(Root(baseDir), DirName(kind)))), entries, [])
    ensures s.outcome.Pass? ==>
      && IsChannel(kind)
      && AtomPath(baseDir) in s.entries
      && s.entries[AtomPath(baseDir)].Link?
      && s.entries[AtomPath(baseDir)].target == Join(Root(baseDir), DirName(kind))
    ensures forall q :: q != AtomPath(baseDir) && q != AtomPath(None) ==>
      (q in s.entries <==> q in entries) && (q in entries ==> s.entries[q] == entries[q])
    ensures IsChannel(kind) && Exists(entries, Join(Root(baseDir), DirName(kind))) ==>
      var newAtom, u := Join(Root(baseDir), DirName(kind)), UninstallEffect(entries, None, gte, launch);
      && (u.outcome.Fail? ==> s == u)
      && (u.outcome.Pass? && Exists(u.entries, newAtom) && AtomPath(baseDir) !in u.entries ==>
            && s.outcome.Pass?
            && s.entries == u.entries[AtomPath(baseDir) := Link(newAtom, IsDirectory(u.entries, newAtom))]
            && s.runs == u.runs + HookEffect(s.entries, "install", baseDir, gte, launch).runs)
      && (u.outcome.Pass? && Exists(u.entries, newAtom) && AtomPath(baseDir) in u.entries ==>
            s == Effect(Fail(CreateLinkFailed(ERROR_ALREADY_EXISTS)), u.entries, u.runs))
      && (u.outcome.Pass? && !Exists(u.entries, newAtom) ==>
            s == Effect(Fail(NoSuchPath(newAtom)), u.entries, u.runs))
  {
    match GetInstalledAtomPath(kind, baseDir)
    case Failure(e) => Effect(Fail(e), entries, [])
    case Success(newAtom) =>
      if !Exists(entries, newAtom) then Effect(Fail(ChannelNotInstalled(newAtom)), entries, [])
      else
        var u := UninstallEffect(entries, None, gte, launch);
        if u.outcome.Fail? then u
        else match CreateSymbolicLinkEffect(u.entries, newAtom, AtomPath(baseDir))
          case Failure(e) => Effect(Fail(e), u.entries, u.runs)
          case Success(linked) =>
            var h := HookEffect(linked, "install", baseDir, gte, launch);
            Effect(Pass, linked, u.runs + h.runs)
  }

  /** After a successful switch the active channel is the one switched to. */
  lemma SwitchActivatesChannel(entries: map<Path, Entry>, kind: AtomVersionKind, baseDir: Option<Path>, gte: VersionOrder, launch: Process -> bool)
    requires !ContainsMarker(Root(baseDir))
    requires SwitchEffect(entries, kind, baseDir, gte, launch).outcome.Pass?
    ensures GetInstalledAtomVersionType(SwitchEffect(entries, kind, baseDir, gte, launch).entries, baseDir) == kind
  {
    var s := SwitchEffect(entries, kind, baseDir, gte, launch);
    var newAtom := Join(Root(baseDir), DirName(kind));
    var atom := AtomPath(baseDir);
    var u := UninstallEffect(entries, None, gte, launch);
    var linked := CreateSymbolicLinkEffect(u.entries, newAtom, atom);
    assert linked.Success? && s.entries == linked.value;
    assert Exists(u.entries, newAtom);
    ChannelPathIsNotAtomPath(kind, Root(baseDir), baseDir);
    assert newAtom in u.entries;
    assert newAtom in s.entries;
    ClassifyRoundTrip(Root(baseDir), kind);
  }

  /** The install hook is not awaited: how it exits changes nothing in the effect. */
  lemma SwitchIgnoresInstallHook(entries: map<Path, Entry>, kind: AtomVersionKind, baseDir: Option<Path>, gte: VersionOrder,
                                 launch1: Process -> bool, launch2: Process -> bool)
    requires forall p :: launch1(p) != launch2(p) ==> p.args != [] && p.args[0] == "--squirrel-install"
    ensures SwitchEffect(entries, kind, baseDir, gte, launch1) == SwitchEffect(entries, kind, baseDir, gte, launch2)
  {
    var h1 := HookEffect(entries, "uninstall", None, gte, launch1);
    var h2 := HookEffect(entries, "uninstall", None, gte, launch2);
    if h1.runs != [] {
      assert |"--squirrel-" + "uninstall"| != |"--squirrel-install"|;
      assert launch1(h1.runs[0]) == launch2(h1.runs[0]);
    }
    assert UninstallEffect(entries, None, gte, launch1) == UninstallEffect(entries, None, gte, launch2);
  }

  /**
    Deactivation acts on the default root: with another root whose active
    path is already taken, the new link cannot be created and the switch fails.
   */
  lemma SwitchBlockedByOtherRoot(entries: map<Path, Entry>, kind: AtomVersionKind, baseDir: Option<Path>, gte: VersionOrder, launch: Process -> bool)
    requires Root(baseDir) != LocalAppData
    requires AtomPath(baseDir) in entries
    ensures SwitchEffect(entries, kind, baseDir, gte, launch).outcome.Fail?
  {
    if AtomPath(baseDir) == AtomPath(None) {
      AtomPathInjective(baseDir, None);
    }
  }

  /**
    With a channel active and any `app-` directory in it, the hook runs
    exactly one process: the `atom.exe` of a version `gte` every installed one.
   */
  lemma HookRunsNewestVersion(entries: map<Path, Entry>, hookType: string, baseDir: Option<Path>, gte: VersionOrder,
                              launch: Process -> bool, name: string)
    requires TotalPreorder(gte)
    requires Exists(entries, AtomPath(baseDir))
    requires ReadDir(entries, AtomPath(baseDir)).Success?
    requires name in ReadDir(entries, AtomPath(baseDir)).value && HasAppMarker(name)
    ensures var h := HookEffect(entries, hookType, baseDir, gte, launch);
      && |h.runs| == 1
      && h.runs[0].exe == AtomExe(AtomPath(baseDir), h.runs[0].args[1])
      && gte(h.runs[0].args[1], StripAppPrefix(name))
  {
    var atomDir := AtomPath(baseDir);
    assert GetCurrentPackageVersion(entries, atomDir, gte).Success?;
    CurrentPackageVersionIsNewest(entries, atomDir, gte, name);
  }

  /** A passing uninstall over an active channel link leaves no channel active. */
  lemma UninstallDeactivates(entries: map<Path, Entry>, baseDir: Option<Path>, gte: VersionOrder, launch: Process -> bool)
    requires Exists(entries, AtomPath(baseDir)) && entries[AtomPath(baseDir)].Link?
    requires UninstallEffect(entries, baseDir, gte, launch).outcome.Pass?
    ensures GetInstalledAtomVersionType(UninstallEffect(entries, baseDir, gte, launch).entries, baseDir) == NotInstalled
  {
    var u := UninstallEffect(entries, baseDir, gte, launch);
    assert AtomPath(baseDir) !in u.entries;
  }

  /** The operations as they run against the machine. */

  method RunInstallHookOnCurrentAtom(fs: FileSystem, hookType: string, baseDir: Option<Path>, gte: VersionOrder, launch: Process -> bool)
    returns (r: Outcome)
    modifies fs`spawned
    ensures r == HookEffect(old(fs.entries), hookType, baseDir, gte, launch).outcome
    ensures fs.spawned == old(fs.spawned) + HookEffect(old(fs.entries), hookType, baseDir, gte, launch).runs
  {
    var atomDir := AtomPath(baseDir);
    if !Exists(fs.entries, atomDir) {
      return Pass;
    }
    var version := GetCurrentPackageVersion(fs.entries, atomDir, gte);
    if version.Failure? {
      return Fail(version.error);
    }
    var atomDotExe := AtomExe(atomDir, version.value);
    var ok := fs.Spawn(Process(atomDotExe, ["--squirrel-" + hookType, version.value]), launch);
    r := if ok then Pass else Fail(HookFailed(atomDotExe));
  }

  method UninstallCurrentAtom(fs: FileSystem, baseDir: Option<Path>, gte: VersionOrder, launch: Process -> bool)
    returns (r: Outcome)
    modifies fs
    ensures r == UninstallEffect(old(fs.entries), baseDir, gte, launch).outcome
    ensures fs.entries == UninstallEffect(old(fs.entries), baseDir, gte, launch).entries
    ensures fs.spawned == old(fs.spawned) + UninstallEffect(old(fs.entries), baseDir, gte, launch).runs
  {
    var atomDir := AtomPath(baseDir);
    if !Exists(fs.entries, atomDir) {
      return Pass;
    }
    r := RunInstallHookOnCurrentAtom(fs, "uninstall", baseDir, gte, launch);
    if r.Fail? {
      return;
    }
    // the path exists, so isPathSymbolicLink does not throw
    if IsSymbolicLink(fs.entries, atomDir).value {
      r := fs.RemoveDirectory(atomDir);
    }
  }

  method SwitchToInstalledAtom(fs: FileSystem, kind: AtomVersionKind, baseDir: Option<Path>, gte: VersionOrder, launch: Process -> bool)
    returns (r: Outcome)
    modifies fs
    ensures r == SwitchEffect(old(fs.entries), kind, baseDir, gte, launch).outcome
    ensures fs.entries == SwitchEffect(old(fs.entries), kind, baseDir, gte, launch).entries
    ensures fs.spawned == old(fs.spawned) + SwitchEffect(old(fs.entries), kind, baseDir, gte, launch).runs
  {
    var newAtom := GetInstalledAtomPath(kind, baseDir);
    if newAtom.Failure? {
      return Fail(newAtom.error);
    }
    if !Exists(fs.entries, newAtom.value) {
      return Fail(ChannelNotInstalled(newAtom.value));
    }
    ghost var u := UninstallEffect(fs.entries, None, gte, launch);
    r := UninstallCurrentAtom(fs, None, gte, launch);
    if r.Fail? {
      return;
    }
    var linkedAtom := AtomPath(baseDir);
    ghost var linked := CreateSymbolicLinkEffect(fs.entries, newAtom.value, linkedAtom);
    r := fs.CreateSymbolicLink(newAtom.value, linkedAtom);
    if r.Fail? {
      return;
    }
    assert fs.entries == linked.value;
    // not awaited: the hook's outcome is dropped
    var _ := RunInstallHookOnCurrentAtom(fs, "install", baseDir, gte, launch);
    assert fs.spawned == old(fs.spawned) + (u.runs + HookEffect(linked.value, "install", baseDir, gte, launch).runs);
  }
}
