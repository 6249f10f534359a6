/** Where a saved image goes and what it is called: the display name built
    for each image of a batch, the folder the preview screen computes from the
    session, and the relative path the image store receives for that folder. */
module Naming {
  import opened Basics
  import opened Text
  import opened SessionState

  const Extension: string := ".jpg"

  /** The display name of the image at `index` (0-based) of a batch, saved at
      the moment written as `stamp`. The location segment is present exactly
      when the location is not blank; the counter is `index + 1`. */
  function FileName(s: Session, stamp: string, index: nat): string {
    var tail := s.inspectionPart + "_" + s.inspectionDetail + "_" + stamp + "_" + Decimal(index + 1) + Extension;
    if IsBlank(s.location) then tail else s.location + "_" + tail
  }

  /** The text after the last `sep`, or all of `s` when `sep` does not occur. */
  function AfterLast(s: string, sep: char): (r: string)
    ensures |r| <= |s| && r == s[|s| - |r|..]
    ensures sep !in r
    ensures |r| < |s| ==> s[|s| - |r| - 1] == sep
    decreases |s|
  {
    if |s| == 0 then ""
    else if s[|s| - 1] == sep then ""
    else
      var r := AfterLast(s[..|s| - 1], sep);
      SuffixSnoc(s, r);
      r + [s[|s| - 1]]
  }

  /** A suffix of all but the last element, extended by the last element, is
      a suffix. */
  lemma SuffixSnoc<T>(s: seq<T>, r: seq<T>)
    requires |s| > 0 && |r| <= |s| - 1 && r == s[..|s| - 1][|s| - 1 - |r|..]
    ensures r + [s[|s| - 1]] == s[|s| - |r| - 1..]
  {
  }

  lemma {:induction false} AfterLastOfSuffix(a: string, sep: char, b: string)
    requires sep !in b
    ensures AfterLast(a + [sep] + b, sep) == b
    decreases |b|
  {
    var s := a + [sep] + b;
    if |b| > 0 {
      var b' := b[..|b| - 1];
      assert s[..|s| - 1] == a + [sep] + b';
      AfterLastOfSuffix(a, sep, b');
      assert b == b' + [b[|b| - 1]];
    }
  }

  /** Recovers the batch position from a display name: the number between the
      last '_' and the extension, less one. */
  function IndexOfName(name: string): (r: Option<nat>)
    ensures r.Some? ==> |name| > |Extension| && name[|name| - |Extension|..] == Extension
  {
    if |name| < |Extension| || name[|name| - |Extension|..] != Extension then None
    else
      var counter := AfterLast(name[..|name| - |Extension|], '_');
      if |counter| == 0 || !AllDigits(counter) || ParseNat(counter) == 0 then None
      else Some(ParseNat(counter) - 1)
  }

  /** Where the extension and the counter sit in a name. */
  lemma NameParts(prefix: string, counter: string, ext: string)
    ensures var n := prefix + "_" + counter + ext;
      n[|n| - |ext|..] == ext && n[..|n| - |ext|] == prefix + ['_'] + counter
  {
  }

  lemma PrependSegment(first: string, prefix: string, counter: string, ext: string)
    ensures first + "_" + (prefix + "_" + counter + ext) == (first + "_" + prefix) + "_" + counter + ext
  {
  }

  lemma CounterIndex(prefix: string, index: nat)
    ensures IndexOfName(prefix + "_" + Decimal(index + 1) + Extension) == Some(index)
  {
    var d := Decimal(index + 1);
    NameParts(prefix, d, Extension);
    assert !IsDigit('_');
    assert forall k | 0 <= k < |d| :: d[k] != '_';
    AfterLastOfSuffix(prefix, '_', d);
    DecimalRoundTrip(index + 1);
  }

  /** The position of an image in its batch can be read back from its name,
      whatever the session fields and the time stamp contain. */
  lemma NameIndexRoundTrip(s: Session, stamp: string, index: nat)
    ensures IndexOfName(FileName(s, stamp, index)) == Some(index)
  {
    var prefix := s.inspectionPart + "_" + s.inspectionDetail + "_" + stamp;
    if IsBlank(s.location) {
      CounterIndex(prefix, index);
    } else {
      PrependSegment(s.location, prefix, Decimal(index + 1), Extension);
      CounterIndex(s.location + "_" + prefix, index);
    }
  }

  /** Two images at different positions never get the same name, even when
      their time stamps (taken per image) or the sessions differ. */
  lemma NamesDistinct(s: Session, t: Session, stampA: string, stampB: string, i: nat, j: nat)
    requires i != j
    ensures FileName(s, stampA, i) != FileName(t, stampB, j)
  {
    NameIndexRoundTrip(s, stampA, i);
    NameIndexRoundTrip(t, stampB, j);
  }

  /** A blank location contributes nothing to the name; any other location is
      the first segment, followed by the name a blank location gives. */
  lemma LocationSegment(s: Session, stamp: string, index: nat)
    ensures IsBlank(s.location) ==> FileName(s, stamp, index) == FileName(s.(location := ""), stamp, index)
    ensures !IsBlank(s.location) ==>
      FileName(s, stamp, index) == s.location + "_" + FileName(s.(location := ""), stamp, index)
  {
  }

  /** The date part of the session time stamp: the text before its first
      space, all of it when there is none. */
  function DatePart(timestamp: string): (r: string)
    ensures r <= timestamp && ' ' !in r
    ensures ' ' !in timestamp ==> r == timestamp
    ensures |r| < |timestamp| ==> timestamp[|r|] == ' '
  {
    BeforeFirst(timestamp, ' ')
  }

  /** The folder the preview screen shows and stores in the session. */
  function BasePath(s: Session): string {
    var date := DatePart(s.timestamp);
    if IsBlank(s.location) then
      "SAFE-REP/" + s.siteName + "/" + date + "/"
    else
      "SAFE-REP/" + s.siteName + "/" + date + "/" + s.location + "/" + s.inspectionPart + "/" + s.inspectionDetail + "/"
  }

  predicate SlashFree(x: string) {
    '/' !in x
  }

  lemma AppFolder(site: string)
    ensures "SAFE-REP/" + site == "SAFE-REP" + "/" + site
    ensures SlashFree("SAFE-REP")
  {
  }

  lemma TopSegments(app: string, site: string, date: string)
    requires SlashFree(app) && SlashFree(site) && SlashFree(date)
    ensures Split(app + "/" + site + "/" + date, '/') == [app, site, date]
  {
    SplitNoSeparator(app, '/');
    var a1 := app + "/" + site;
    SplitSnoc(app, '/', site);
    assert Split(a1, '/') == [app, site];
    SplitSnoc(a1, '/', date);
  }

  /** One more segment after a '/'. */
  lemma SegmentSnoc(x: string, y: string, w: seq<string>)
    requires SlashFree(y) && Split(x, '/') == w
    ensures Split(x + "/" + y, '/') == w + [y]
  {
    SplitSnoc(x, '/', y);
  }

  lemma FourMore<T>(a: seq<T>, p: T, q: T, u: T, v: T)
    ensures a + [p] + [q] + [u] + [v] == a + [p, q, u, v]
  {
  }

  lemma DeepSegments(top: string, location: string, part: string, detail: string, above: seq<string>)
    requires SlashFree(location) && SlashFree(part) && SlashFree(detail)
    requires Split(top, '/') == above
    ensures Split(top + "/" + location + "/" + part + "/" + detail + "/", '/') == above + [location, part, detail, ""]
  {
    var a3 := top + "/" + location;
    SegmentSnoc(top, location, above);
    var a4 := a3 + "/" + part;
    SegmentSnoc(a3, part, above + [location]);
    var a5 := a4 + "/" + detail;
    SegmentSnoc(a4, detail, above + [location] + [part]);
    assert a5 + "/" == a5 + "/" + "";
    SegmentSnoc(a5, "", above + [location] + [part] + [detail]);
    FourMore(above, location, part, detail, "");
  }

  /** The folder's segments when no field contains '/': the app folder, the
      site, the date, and (when the location is not blank) the location, part
      and detail, then the empty text after the closing '/'. */
  lemma TopFolderSegments(site: string, date: string)
    requires SlashFree(site) && SlashFree(date)
    ensures Split("SAFE-REP/" + site + "/" + date, '/') == ["SAFE-REP", site, date]
  {
    AppFolder(site);
    TopSegments("SAFE-REP", site, date);
  }

  lemma ShallowSegments(site: string, date: string)
    requires SlashFree(site) && SlashFree(date)
    ensures Split("SAFE-REP/" + site + "/" + date + "/", '/') == ["SAFE-REP", site, date, ""]
  {
    var top := "SAFE-REP/" + site + "/" + date;
    TopFolderSegments(site, date);
    assert top + "/" == top + "/" + "";
    SegmentSnoc(top, "", ["SAFE-REP", site, date]);
  }

  lemma DeepFolderSegments(site: string, date: string, location: string, part: string, detail: string)
    requires SlashFree(site) && SlashFree(date)
    requires SlashFree(location) && SlashFree(part) && SlashFree(detail)
    ensures Split("SAFE-REP/" + site + "/" + date + "/" + location + "/" + part + "/" + detail + "/", '/')
         == ["SAFE-REP", site, date, location, part, detail, ""]
  {
    var top := "SAFE-REP/" + site + "/" + date;
    TopFolderSegments(site, date);
    DeepSegments(top, location, part, detail, ["SAFE-REP", site, date]);
  }

  lemma BasePathSegments(s: Session)
    requires SlashFree(s.siteName) && SlashFree(s.timestamp)
    requires SlashFree(s.location) && SlashFree(s.inspectionPart) && SlashFree(s.inspectionDetail)
    ensures IsBlank(s.location) ==>
      Split(BasePath(s), '/') == ["SAFE-REP", s.siteName, DatePart(s.timestamp), ""]
    ensures !IsBlank(s.location) ==>
      Split(BasePath(s), '/') == ["SAFE-REP", s.siteName, DatePart(s.timestamp), s.location, s.inspectionPart, s.inspectionDetail, ""]
  {
    var date := DatePart(s.timestamp);
    if IsBlank(s.location) {
      ShallowSegments(s.siteName, date);
    } else {
      DeepFolderSegments(s.siteName, date, s.location, s.inspectionPart, s.inspectionDetail);
    }
  }

  /** The blank-location folder is the top of the other one: both start with
      the app folder, site and date, and both end with '/'. Neither starts
      with '/', so both are relative. */
  lemma BasePathShape(s: Session)
    ensures "SAFE-REP/" + s.siteName + "/" + DatePart(s.timestamp) + "/" <= BasePath(s)
    ensures BasePath(s.(location := "")) <= BasePath(s)
    ensures |BasePath(s)| > 1 && BasePath(s)[|BasePath(s)| - 1] == '/'
    ensures BasePath(s)[0] != '/'
  {
    var top := "SAFE-REP/" + s.siteName + "/" + DatePart(s.timestamp) + "/";
    if !IsBlank(s.location) {
      var deep := s.location + "/" + s.inspectionPart + "/" + s.inspectionDetail + "/";
      assert BasePath(s) == top + deep;
    }
    assert IsBlank("");
  }

  // The relative path handed to the image store is `File("Pictures", basePath).path`:
  // the platform's Unix path rules collapse repeated '/' and drop a trailing '/'
  // before the parent and child are joined.

  /** The platform's name of the shared pictures folder. */
  const Pictures: string := "Pictures"

  predicate NoDoubleSlash(p: string) {
    forall i :: 0 <= i < |p| - 1 ==> !(p[i] == '/' && p[i + 1] == '/')
  }

  /** Every run of '/' shortened to a single '/'. */
  function Collapse(p: string): (r: string)
    ensures NoDoubleSlash(r) && |r| <= |p|
    ensures |p| > 0 ==> |r| > 0 && r[0] == p[0] && r[|r| - 1] == p[|p| - 1]
    decreases |p|
  {
    if |p| <= 1 then p
    else if p[0] == '/' && p[1] == '/' then Collapse(p[1..])
    else [p[0]] + Collapse(p[1..])
  }

  /** A path in normal form: no repeated '/', and no trailing '/' unless the
      path is the root "/". */
  function Normalize(p: string): (r: string)
    ensures NoDoubleSlash(r)
    ensures |r| > 1 ==> r[|r| - 1] != '/'
    ensures |p| > 0 ==> |r| > 0 && r[0] == p[0]
  {
    var c := Collapse(p);
    if |c| > 1 && c[|c| - 1] == '/' then c[..|c| - 1] else c
  }

  /** Joins a normalised parent and child the way the Unix file system does. */
  function Resolve(parent: string, child: string): string {
    if |child| == 0 then parent
    else if child[0] == '/' then (if parent == "/" then child else parent + child)
    else if parent == "/" then parent + child
    else parent + "/" + child
  }

  /** The path of a file made from a parent and a child name. */
  function FilePath(parent: string, child: string): string {
    if |parent| == 0 then Resolve("/", Normalize(child))
    else Resolve(Normalize(parent), Normalize(child))
  }

  function RelativePath(basePath: string): string {
    FilePath(Pictures, basePath)
  }

  lemma {:induction false} CollapseClean(p: string)
    requires NoDoubleSlash(p)
    ensures Collapse(p) == p
    decreases |p|
  {
    if |p| > 1 {
      assert !(p[0] == '/' && p[1] == '/');
      CollapseClean(p[1..]);
    }
  }

  /** Normalising twice is normalising once. */
  lemma NormalizeIdempotent(p: string)
    ensures Normalize(Normalize(p)) == Normalize(p)
  {
    CollapseClean(Normalize(p));
  }

  /** A clean prefix passes through collapsing unchanged when it does not
      meet the rest at a double '/'. */
  lemma {:induction false} CollapseAppend(p: string, b: string)
    requires NoDoubleSlash(p)
    requires |p| == 0 || |b| == 0 || p[|p| - 1] != '/' || b[0] != '/'
    ensures Collapse(p + b) == p + Collapse(b)
    decreases |p|
  {
    if |p| == 0 {
      assert p + b == b;
    } else if |b| == 0 {
      assert p + b == p;
      CollapseClean(p);
    } else {
      var s := p + b;
      assert s[1..] == p[1..] + b;
      assert !(s[0] == '/' && s[1] == '/');
      CollapseAppend(p[1..], b);
    }
  }

  /** Two clean paths that do not meet at a double '/' join into a clean one. */
  lemma CleanConcat(p: string, b: string)
    requires NoDoubleSlash(p) && NoDoubleSlash(b)
    requires |p| == 0 || |b| == 0 || p[|p| - 1] != '/' || b[0] != '/'
    ensures NoDoubleSlash(p + b)
  {
    var q := p + b;
    forall i | 0 <= i < |q| - 1
      ensures !(q[i] == '/' && q[i + 1] == '/')
    {
      if i < |p| - 1 {
        assert q[i] == p[i] && q[i + 1] == p[i + 1];
      } else if i == |p| - 1 {
        assert q[i] == p[i] && q[i + 1] == b[0];
      } else {
        assert q[i] == b[i - |p|] && q[i + 1] == b[i + 1 - |p|];
      }
    }
  }

  /** A clean path ending in '/' loses exactly that '/'. */
  lemma NormalizeDropsClosingSlash(q: string)
    requires NoDoubleSlash(q) && |q| > 1 && q[|q| - 1] == '/'
    ensures Normalize(q) + "/" == q
  {
    CollapseClean(q);
    assert q[..|q| - 1] + "/" == q;
  }

  /** A clean parent that is not the root, joined with a child that does not
      start with '/', gives the normal form of parent + "/" + child. */
  lemma ResolveIsNormalJoin(parent: string, child: string)
    requires NoDoubleSlash(parent) && |parent| > 0 && parent[|parent| - 1] != '/'
    requires |child| == 0 || child[0] != '/'
    ensures Resolve(Normalize(parent), Normalize(child)) == Normalize(parent + "/" + child)
  {
    CollapseClean(parent);
    assert Normalize(parent) == parent;
    var top := parent + "/";
    assert NoDoubleSlash(top) by {
      CleanConcat(parent, "/");
    }
    CollapseAppend(top, child);
    var c := Collapse(child);
    assert |c| == 0 || c[0] != '/';
    NormalizeOfCollapse(child, c);
    NormalizeOfCollapse(top + child, top + c);
    JoinCases(parent, c, Normalize(child), Normalize(top + child));
  }

  /** `Normalize` once the collapsed form is known. */
  lemma NormalizeOfCollapse(p: string, c: string)
    requires Collapse(p) == c
    ensures Normalize(p) == if |c| > 1 && c[|c| - 1] == '/' then c[..|c| - 1] else c
  {
  }

  /** The case analysis behind `ResolveIsNormalJoin`, on collapsed forms. */
  lemma JoinCases(parent: string, c: string, nc: string, whole: string)
    requires |parent| > 0 && parent[|parent| - 1] != '/'
    requires |c| == 0 || c[0] != '/'
    requires nc == if |c| > 1 && c[|c| - 1] == '/' then c[..|c| - 1] else c
    requires whole == var j := parent + "/" + c;
      if |j| > 1 && j[|j| - 1] == '/' then j[..|j| - 1] else j
    ensures Resolve(parent, nc) == whole
  {
    var top := parent + "/";
    assert parent != "/";
    if |c| == 0 {
      assert top + c == top;
      assert top[..|top| - 1] == parent;
    } else if |c| > 1 && c[|c| - 1] == '/' {
      assert (top + c)[..|top + c| - 1] == top + nc;
    } else {
      assert (top + c)[|top + c| - 1] == c[|c| - 1];
    }
  }

  /** For any folder that does not start with '/', the relative path is the
      displayed "Pictures/" + folder in normal form. */
  lemma RelativePathIsShownPath(basePath: string)
    requires |basePath| == 0 || basePath[0] != '/'
    ensures RelativePath(basePath) == Normalize(Pictures + "/" + basePath)
  {
    assert NoDoubleSlash(Pictures) && |Pictures| > 0 && Pictures[|Pictures| - 1] != '/';
    ResolveIsNormalJoin(Pictures, basePath);
  }

  /** A clean folder path followed by a clean segment stays clean. */
  lemma CleanSnoc(p: string, x: string)
    requires NoDoubleSlash(p) && |p| > 0 && p[|p| - 1] != '/'
    requires SlashFree(x) && |x| > 0
    ensures NoDoubleSlash(p + "/" + x) && (p + "/" + x)[|p + "/" + x| - 1] != '/'
  {
    var q := p + "/" + x;
    forall i | 0 <= i < |q| - 1
      ensures !(q[i] == '/' && q[i + 1] == '/')
    {
      if i < |p| - 1 {
        assert q[i] == p[i] && q[i + 1] == p[i + 1];
      } else if i == |p| - 1 {
        assert q[i] == p[i];
      } else {
        assert q[i + 1] == x[i - |p|];
      }
    }
    assert q[|q| - 1] == x[|x| - 1];
  }

  lemma CleanSlash(p: string)
    requires NoDoubleSlash(p) && |p| > 0 && p[|p| - 1] != '/'
    ensures NoDoubleSlash(p + "/")
  {
    var q := p + "/";
    forall i | 0 <= i < |q| - 1
      ensures !(q[i] == '/' && q[i + 1] == '/')
    {
      assert q[i] == p[i];
    }
  }

  /** Every segment the folder is built from is present and free of '/'. */
  predicate CleanSegments(s: Session) {
    && SlashFree(s.siteName) && |s.siteName| > 0
    && SlashFree(DatePart(s.timestamp)) && |DatePart(s.timestamp)| > 0
    && (!IsBlank(s.location) ==>
          && SlashFree(s.location) && |s.location| > 0
          && SlashFree(s.inspectionPart) && |s.inspectionPart| > 0
          && SlashFree(s.inspectionDetail) && |s.inspectionDetail| > 0)
  }

  lemma BasePathClean(s: Session)
    requires CleanSegments(s)
    ensures NoDoubleSlash(BasePath(s))
  {
    var date := DatePart(s.timestamp);
    var top := "SAFE-REP/" + s.siteName + "/" + date;
    assert NoDoubleSlash("SAFE-REP") && "SAFE-REP"[|"SAFE-REP"| - 1] != '/';
    AppFolder(s.siteName);
    CleanSnoc("SAFE-REP", s.siteName);
    CleanSnoc("SAFE-REP/" + s.siteName, date);
    if IsBlank(s.location) {
      CleanSlash(top);
      assert BasePath(s) == top + "/";
    } else {
      var a3 := top + "/" + s.location;
      CleanSnoc(top, s.location);
      var a4 := a3 + "/" + s.inspectionPart;
      CleanSnoc(a3, s.inspectionPart);
      var a5 := a4 + "/" + s.inspectionDetail;
      CleanSnoc(a4, s.inspectionDetail);
      CleanSlash(a5);
      assert BasePath(s) == a5 + "/";
    }
  }

  /** A clean folder ending in '/' under a clean parent: the file path is the
      parent, '/', and the folder without its closing '/'. */
  lemma CleanFolderPath(parent: string, folder: string)
    requires NoDoubleSlash(parent) && |parent| > 0 && parent[|parent| - 1] != '/'
    requires NoDoubleSlash(folder) && |folder| > 1 && folder[0] != '/' && folder[|folder| - 1] == '/'
    ensures FilePath(parent, folder) + "/" == parent + "/" + folder
  {
    ResolveIsNormalJoin(parent, folder);
    assert NoDoubleSlash(parent + "/") by {
      CleanConcat(parent, "/");
    }
    CleanConcat(parent + "/", folder);
    NormalizeDropsClosingSlash(parent + "/" + folder);
  }

  /** When every segment is present and free of '/', the image is saved in
      exactly the folder the preview screen shows: "Pictures/" + the base
      path, whose closing '/' the path rules drop. */
  lemma SavedWhereShown(s: Session)
    requires CleanSegments(s)
    ensures RelativePath(BasePath(s)) + "/" == Pictures + "/" + BasePath(s)
  {
    var bp := BasePath(s);
    BasePathShape(s);
    BasePathClean(s);
    assert NoDoubleSlash(Pictures) && |Pictures| > 0 && Pictures[|Pictures| - 1] != '/';
    CleanFolderPath(Pictures, bp);
  }
}
