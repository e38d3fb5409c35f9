/**
 Wiki paths as strings and as segment lists, with "page is folder" reference resolution:
 backend/internal/links/helpers.go. Resolution removes dot segments as in section 5.2.4 of RFC 3986.
 */
module WikiPath {
  import opened Text

  // ----- Splitting and joining at '/' -----

  function Split(s: string): (segs: seq<string>)
    ensures |segs| >= 1
    ensures forall seg :: seg in segs ==> '/' !in seg
  {
    if s == [] then [""]
    else
      var rest := Split(s[1..]);
      if s[0] == '/' then [""] + rest else [[s[0]] + rest[0]] + rest[1..]
  }

  function Join(segs: seq<string>): string {
    if segs == [] then ""
    else if |segs| == 1 then segs[0]
    else segs[0] + "/" + Join(segs[1..])
  }

  function NonEmpty(segs: seq<string>): (r: seq<string>)
    ensures forall seg :: seg in r <==> seg in segs && seg != ""
  {
    if segs == [] then []
    else (if segs[0] == "" then [] else [segs[0]]) + NonEmpty(segs[1..])
  }

  /** The page names a path spells, whatever its slashes look like. */
  function Names(s: string): seq<string> {
    NonEmpty(Split(s))
  }

  function Print(segs: seq<string>): string {
    "/" + Join(segs)
  }

  lemma {:induction false} SplitConcat(a: string, b: string)
    ensures Split(a + "/" + b) == Split(a) + Split(b)
    decreases |a|
  {
    var s := a + "/" + b;
    if a == [] {
      assert s[1..] == b;
    } else {
      assert s[1..] == a[1..] + "/" + b;
      SplitConcat(a[1..], b);
    }
  }

  lemma {:induction false} SplitWhole(s: string)
    requires '/' !in s
    ensures Split(s) == [s]
  {
    if s != [] {
      SplitWhole(s[1..]);
      assert s == [s[0]] + s[1..];
    }
  }

  lemma {:induction false} JoinSplit(s: string)
    ensures Join(Split(s)) == s
  {
    if s != [] {
      JoinSplit(s[1..]);
      var rest := Split(s[1..]);
      if s[0] == '/' {
        assert ([""] + rest)[1..] == rest;
      } else if |rest| > 1 {
        assert ([[s[0]] + rest[0]] + rest[1..])[1..] == rest[1..];
      }
    }
  }

  lemma {:induction false} SplitJoin(segs: seq<string>)
    requires segs != [] && forall seg :: seg in segs ==> '/' !in seg
    ensures Split(Join(segs)) == segs
  {
    SplitWhole(segs[0]);
    if |segs| > 1 {
      SplitConcat(segs[0], Join(segs[1..]));
      SplitJoin(segs[1..]);
    }
  }

  lemma {:induction false} NonEmptyConcat(a: seq<string>, b: seq<string>)
    ensures NonEmpty(a + b) == NonEmpty(a) + NonEmpty(b)
  {
    if a == [] {
      assert a + b == b;
    } else {
      assert (a + b)[1..] == a[1..] + b;
      NonEmptyConcat(a[1..], b);
    }
  }

  lemma {:induction false} NonEmptyOfNames(segs: seq<string>)
    requires "" !in segs
    ensures NonEmpty(segs) == segs
  {
    if segs != [] {
      NonEmptyOfNames(segs[1..]);
    }
  }

  lemma NamesConcat(a: string, b: string)
    ensures Names(a + "/" + b) == Names(a) + Names(b)
  {
    SplitConcat(a, b);
    NonEmptyConcat(Split(a), Split(b));
  }

  lemma NamesOfSlash(s: string)
    ensures Names("/" + s) == Names(s)
  {
    NamesConcat("", s);
    assert "" + "/" + s == "/" + s;
  }

  lemma NamesOfPrint(segs: seq<string>)
    requires "" !in segs && forall seg :: seg in segs ==> '/' !in seg
    ensures Names(Print(segs)) == segs
  {
    NamesOfSlash(Join(segs));
    if segs != [] {
      SplitJoin(segs);
      NonEmptyOfNames(segs);
    }
  }

  // ----- Normalization -----

  function CutQuery(p: string): string {
    var h := p[..IndexAny(p, {'#'})];
    h[..IndexAny(h, {'?'})]
  }

  /** What normalizeWikiPath computes: "" stays "", anything else is "/" and its names. */
  function Normalize(p: string): string {
    if p == "" then "" else Print(Names(CutQuery(p)))
  }

  /** strings.ReplaceAll(p, "//", "/"): one left-to-right pass over non-overlapping pairs. */
  function HalveSlashes(s: string): string {
    if |s| >= 2 && s[0] == '/' && s[1] == '/' then "/" + HalveSlashes(s[2..])
    else if s == "" then ""
    else [s[0]] + HalveSlashes(s[1..])
  }

  predicate HasDoubleSlash(s: string) {
    exists i :: 0 <= i < |s| - 1 && s[i] == '/' && s[i + 1] == '/'
  }

  function TrimRightSlashes(s: string): string {
    if s != "" && s[|s| - 1] == '/' then TrimRightSlashes(s[..|s| - 1]) else s
  }

  lemma {:induction false} DoubleSlashInSubstring(s: string, lo: nat, hi: nat)
    requires lo <= hi <= |s|
    ensures HasDoubleSlash(s[lo..hi]) ==> HasDoubleSlash(s)
  {
    if HasDoubleSlash(s[lo..hi]) {
      var i :| 0 <= i < hi - lo - 1 && s[lo..hi][i] == '/' && s[lo..hi][i + 1] == '/';
      assert s[lo + i] == '/' && s[lo + i + 1] == '/';
    }
  }

  /** Names of a string, one character at a time. */
  lemma NamesUnfold(c: char, s: string)
    ensures Names(s) == if Split(s)[0] == "" then NonEmpty(Split(s)[1..]) else [Split(s)[0]] + NonEmpty(Split(s)[1..])
    ensures Names([c] + s) == if c == '/' then Names(s) else [[c] + Split(s)[0]] + NonEmpty(Split(s)[1..])
    ensures Split(s)[0] == "" <==> s == "" || s[0] == '/'
  {
    assert ([c] + s)[1..] == s;
    var rest := Split(s);
    if c == '/' {
      assert ([""] + rest)[1..] == rest;
    } else {
      assert ([[c] + rest[0]] + rest[1..])[1..] == rest[1..];
    }
  }

  lemma {:induction false} HalveKeepsNames(s: string)
    ensures Names(HalveSlashes(s)) == Names(s)
    ensures s != "" ==> HalveSlashes(s) != "" && HalveSlashes(s)[0] == s[0]
    decreases |s|
  {
    if |s| >= 2 && s[0] == '/' && s[1] == '/' {
      HalveKeepsNames(s[2..]);
      NamesOfSlash(HalveSlashes(s[2..]));
      NamesOfSlash(s[2..]);
      NamesOfSlash("/" + s[2..]);
      assert s == "/" + ("/" + s[2..]);
    } else if s != "" {
      var rest := HalveSlashes(s[1..]);
      HalveKeepsNames(s[1..]);
      assert s == [s[0]] + s[1..];
      NamesUnfold(s[0], rest);
      NamesUnfold(s[0], s[1..]);
      if s[1..] != "" && s[1] != '/' {
        assert Names(rest)[1..] == NonEmpty(Split(rest)[1..]);
        assert Names(s[1..])[1..] == NonEmpty(Split(s[1..])[1..]);
      }
    }
  }

  lemma {:induction false} HalveShrinks(s: string)
    ensures |HalveSlashes(s)| <= |s|
    ensures HasDoubleSlash(s) ==> |HalveSlashes(s)| < |s|
    decreases |s|
  {
    if |s| >= 2 && s[0] == '/' && s[1] == '/' {
      HalveShrinks(s[2..]);
    } else if s != "" {
      HalveShrinks(s[1..]);
      if HasDoubleSlash(s) {
        var i :| 0 <= i < |s| - 1 && s[i] == '/' && s[i + 1] == '/';
        assert s[1..][i - 1] == '/' && s[1..][i] == '/';
      }
    }
  }

  lemma {:induction false} TrimKeepsNames(s: string)
    ensures Names(TrimRightSlashes(s)) == Names(s)
    ensures var t := TrimRightSlashes(s); |t| <= |s| && t == s[..|t|] && (t == "" || t[|t| - 1] != '/')
  {
    if s != "" && s[|s| - 1] == '/' {
      var init := s[..|s| - 1];
      TrimKeepsNames(init);
      NamesConcat(init, "");
      assert s == init + "/" + "";
      assert Names(init) + [] == Names(init);
    }
  }

  /** Without a double or trailing slash, only the first segment can be empty. */
  lemma {:induction false} NoEmptySegments(s: string)
    requires s != "" && !HasDoubleSlash(s) && s[|s| - 1] != '/'
    ensures "" !in Split(s)[1..] && (Split(s)[0] == "" <==> s[0] == '/')
  {
    var rest := s[1..];
    if rest != "" {
      DoubleSlashInSubstring(s, 1, |s|);
      NoEmptySegments(rest);
      assert Split(rest) == [Split(rest)[0]] + Split(rest)[1..];
      if s[0] == '/' {
        assert s[1] != '/';
      }
    }
  }

  lemma AlreadyCanonical(p: string)
    requires p != "" && p[0] == '/' && !HasDoubleSlash(p) && (|p| > 1 ==> p[|p| - 1] != '/')
    ensures p == Print(Names(p))
  {
    var q := p[1..];
    assert p == "/" + q;
    NamesOfSlash(q);
    if q != "" {
      DoubleSlashInSubstring(p, 1, |p|);
      assert p[1] != '/';
      NoEmptySegments(q);
      assert Split(q) == [Split(q)[0]] + Split(q)[1..];
      NonEmptyOfNames(Split(q));
      JoinSplit(q);
    }
  }

  method NormalizeWikiPath(path: string) returns (p: string)
    ensures p == Normalize(path)
  {
    p := path;
    if p == "" {
      return "";
    }
    p := p[..IndexAny(p, {'#'})];
    p := p[..IndexAny(p, {'?'})];
    ghost var cut := p;
    if !IsAbsolute(p) {
      NamesOfSlash(p);
      p := "/" + p;
    }
    while HasDoubleSlash(p)
      invariant p != "" && p[0] == '/' && Names(p) == Names(cut)
      decreases |p|
    {
      HalveKeepsNames(p);
      HalveShrinks(p);
      p := HalveSlashes(p);
    }
    if |p| > 1 {
      TrimKeepsNames(p);
      NoDoubleInPrefix(p, |TrimRightSlashes(p)|);
      p := TrimRightSlashes(p);
    }
    AlreadyCanonical(p);
  }

  lemma NoDoubleInPrefix(p: string, n: nat)
    requires n <= |p| && !HasDoubleSlash(p) && |p| > 1 && p[0] == '/'
    ensures !HasDoubleSlash(p[..n])
    ensures n == |TrimRightSlashes(p)| ==> n > 0
  {
    DoubleSlashInSubstring(p, 0, n);
    assert p[|p| - 1] == '/' && p[|p| - 2] == '/' ==> HasDoubleSlash(p);
    var init := p[..|p| - 1];
    assert p[|p| - 1] == '/' ==> init[|init| - 1] != '/';
  }

  // ----- Reference resolution -----

  function Front<T>(s: seq<T>, drop: nat): seq<T> {
    if drop <= |s| then s[..|s| - drop] else []
  }

  /** Removing dot segments: a stack of segments, popped by "..", untouched by ".". */
  function Walk(stack: seq<string>, segs: seq<string>): seq<string>
    decreases |segs|
  {
    if segs == [] then stack
    else if segs[0] == "." then Walk(stack, segs[1..])
    else if segs[0] == ".." then Walk(Front(stack, 1), segs[1..])
    else Walk(stack + [segs[0]], segs[1..])
  }

  /** strings.TrimPrefix(path, "/"). */
  function TrimRoot(path: string): string {
    if IsAbsolute(path) then path[1..] else path
  }

  function RemoveDotSegments(path: string): string {
    Print(Walk([], Split(TrimRoot(path))))
  }

  /** HasPrefix(p, "/") and HasPrefix(p, "//"). */
  predicate IsAbsolute(p: string) {
    p != "" && p[0] == '/'
  }

  predicate StartsDouble(p: string) {
    |p| >= 2 && p[0] == '/' && p[1] == '/'
  }

  /** An authority is parsed after "//", unless a third slash follows. */
  predicate HasAuthority(ref: string) {
    StartsDouble(ref) && !(|ref| > 2 && ref[2] == '/')
  }

  function Folder(current: string): string {
    var base := Normalize(current);
    if base != "" && base[|base| - 1] == '/' then base else base + "/"
  }

  /**
   The path that a page at `current` reaches through `href`; "" when nothing remains to look up.
   Percent escapes and schemes are not interpreted.
   */
  function ResolveURLPath(current: string, href: string): string {
    var ref := CutQuery(href);
    if HasAuthority(ref) && IndexAny(ref[2..], {'/'}) > 0 then
      var path := ref[2 + IndexAny(ref[2..], {'/'})..];
      if path == "" then "" else Normalize(RemoveDotSegments(path))
    else
      var path := if HasAuthority(ref) then ref[2 + IndexAny(ref[2..], {'/'})..] else ref;
      Normalize(RemoveDotSegments(if IsAbsolute(path) then path else Folder(current) + path))
  }

  // ----- What a page path is -----

  /** A name a page can have: anything that does not act as path syntax. The slug alphabet is a subset. */
  predicate IsName(seg: string) {
    seg != "" && seg != "." && seg != ".." && Free(seg, {'/', '?', '#'})
  }

  predicate AreNames(segs: seq<string>) {
    forall seg :: seg in segs ==> IsName(seg)
  }

  /** A page's own path, with or without a leading slash; the root page has the empty path. */
  predicate IsPagePath(p: string) {
    AreNames(Names(p)) && Free(p, {'?', '#'})
  }

  function Ups(k: nat): (r: seq<string>)
    ensures |r| == k && forall i :: 0 <= i < k ==> r[i] == ".."
  {
    seq(k, i => "..")
  }

  lemma FreeIsUncut(p: string)
    requires Free(p, {'?', '#'})
    ensures CutQuery(p) == p
  {
    assert IndexAny(p, {'#'}) == |p|;
    assert p[..|p|] == p;
    assert IndexAny(p, {'?'}) == |p|;
  }

  lemma {:induction false} JoinIsFree(segs: seq<string>)
    requires forall seg :: seg in segs ==> Free(seg, {'?', '#'})
    ensures Free(Join(segs), {'?', '#'})
  {
    if segs != [] {
      assert Free(segs[0], {'?', '#'});
      JoinIsFree(segs[1..]);
    }
  }

  lemma PrintIsPagePath(segs: seq<string>)
    requires AreNames(segs)
    ensures IsPagePath(Print(segs)) && Names(Print(segs)) == segs && Normalize(Print(segs)) == Print(segs)
  {
    forall seg | seg in segs
      ensures Free(seg, {'?', '#'}) && '/' !in seg && seg != ""
    {
      assert IsName(seg);
    }
    JoinIsFree(segs);
    NamesOfPrint(segs);
    FreeIsUncut(Print(segs));
  }

  lemma {:induction false} WalkConcat(stack: seq<string>, a: seq<string>, b: seq<string>)
    ensures Walk(stack, a + b) == Walk(Walk(stack, a), b)
    decreases |a|
  {
    if a == [] {
      assert a + b == b;
    } else {
      assert (a + b)[1..] == a[1..] + b;
      WalkConcat(if a[0] == "." then stack else if a[0] == ".." then Front(stack, 1) else stack + [a[0]], a[1..], b);
    }
  }

  lemma {:induction false} WalkNames(stack: seq<string>, names: seq<string>)
    requires AreNames(names)
    ensures Walk(stack, names) == stack + names
    decreases |names|
  {
    if names != [] {
      assert IsName(names[0]);
      WalkNames(stack + [names[0]], names[1..]);
      assert stack + [names[0]] + names[1..] == stack + names;
    }
  }

  lemma {:induction false} WalkUps(stack: seq<string>, k: nat)
    ensures Walk(stack, Ups(k)) == Front(stack, k)
    decreases k
  {
    if k > 0 {
      assert Ups(k)[1..] == Ups(k - 1);
      WalkUps(Front(stack, 1), k - 1);
    }
  }

  /** Whatever the reference, what is left has no dot segments. */
  lemma {:induction false} WalkLeavesNoDots(stack: seq<string>, segs: seq<string>)
    requires "." !in stack && ".." !in stack
    ensures "." !in Walk(stack, segs) && ".." !in Walk(stack, segs)
    ensures forall seg :: seg in Walk(stack, segs) ==> seg in stack || seg in segs
    decreases |segs|
  {
    if segs != [] {
      WalkLeavesNoDots(if segs[0] == "." then stack else if segs[0] == ".." then Front(stack, 1) else stack + [segs[0]], segs[1..]);
    }
  }

  lemma CutIsFree(p: string)
    ensures Free(CutQuery(p), {'?', '#'})
  {
    var h := p[..IndexAny(p, {'#'})];
    assert Free(h, {'#'});
    assert forall k :: 0 <= k < IndexAny(h, {'?'}) ==> h[k] in h;
  }

  lemma {:induction false} SegmentsAreFree(s: string, chars: set<char>)
    requires Free(s, chars)
    ensures forall seg :: seg in Split(s) ==> Free(seg, chars)
  {
    if s != "" {
      SegmentsAreFree(s[1..], chars);
      var rest := Split(s[1..]);
      assert Free(rest[0], chars);
      forall seg | seg in Split(s)
        ensures Free(seg, chars)
      {
        assert seg == "" || seg == [s[0]] + rest[0] || seg in rest;
      }
    }
  }

  lemma {:induction false} RemovedDotsIsPagePath(path: string)
    requires Free(path, {'?', '#'})
    ensures AreNames(NonEmpty(Walk([], Split(TrimRoot(path)))))
    ensures Normalize(RemoveDotSegments(path)) == Print(NonEmpty(Walk([], Split(TrimRoot(path)))))
  {
    var segs := Split(TrimRoot(path));
    var out := Walk([], segs);
    WalkLeavesNoDots([], segs);
    SegmentsAreFree(TrimRoot(path), {'?', '#'});
    assert forall seg :: seg in out ==> Free(seg, {'?', '#'}) && '/' !in seg;
    JoinIsFree(out);
    FreeIsUncut(Print(out));
    NamesOfSlash(Join(out));
    if out != [] {
      SplitJoin(out);
    }
  }

  /** A resolved path is "" or the canonical path of a page. */
  lemma {:induction false} ResolvedIsPagePath(current: string, href: string)
    ensures var r := ResolveURLPath(current, href);
            r == "" || (IsPagePath(r) && r == Print(Names(r)))
  {
    var ref := CutQuery(href);
    CutIsFree(href);
    FolderIsFree(current);
    var authority := IndexAny(ref[2 * (if HasAuthority(ref) then 1 else 0)..], {'/'});
    var path := if HasAuthority(ref) then ref[2 + authority..] else ref;
    var full := if IsAbsolute(path) then path else Folder(current) + path;
    assert Free(path, {'?', '#'}) && Free(full, {'?', '#'});
    RemovedDotsIsPagePath(path);
    RemovedDotsIsPagePath(full);
    PrintIsPagePath(NonEmpty(Walk([], Split(TrimRoot(path)))));
    PrintIsPagePath(NonEmpty(Walk([], Split(TrimRoot(full)))));
  }

  lemma FolderIsFree(current: string)
    ensures Free(Folder(current), {'?', '#'})
  {
    if current != "" {
      CutIsFree(current);
      SegmentsAreFree(CutQuery(current), {'?', '#'});
      JoinIsFree(Names(CutQuery(current)));
    }
  }
}
