/**
 The page a link names, by the shape of its text: relative, rooted, or behind an authority (normalizeLink in
 backend/internal/links/helpers.go, on top of Go's net/url).
 */
module LinkTargets {
  import opened Wrappers
  import opened Text
  import opened WikiPath
  import opened LinkRewrite

  /** A query or a fragment, or nothing. */
  predicate IsSuffix(tail: string) {
    tail == "" || tail[0] == '?' || tail[0] == '#'
  }

  /** It does not count. */
  lemma SuffixIsCut(ref: string, tail: string)
    requires Free(ref, {'?', '#'}) && IsSuffix(tail)
    ensures CutQuery(ref + tail) == ref
  {
    var p := ref + tail;
    forall i | 0 <= i < |ref|
      ensures p[i] == ref[i] && p[i] !in {'?', '#'}
    {
      assert ref[i] in ref;
    }
    assert tail != "" ==> p[|ref|] == tail[0];
    var h := p[..IndexAny(p, {'#'})];
    assert |ref| <= |h|;
    assert |ref| < |h| ==> h[|ref|] == p[|ref|] == '?';
    assert IndexAny(h, {'?'}) == |ref|;
    assert h[..|ref|] == ref;
  }

  lemma SuffixDoesNotCount(current: string, ref: string, tail: string)
    requires Free(ref, {'?', '#'}) && IsSuffix(tail)
    ensures ResolveURLPath(current, ref + tail) == ResolveURLPath(current, ref)
  {
    SuffixIsCut(ref, tail);
    SuffixIsCut(ref, "");
    assert ref + "" == ref;
  }

  /** A link without a slash in front is walked from the names of the page. */
  lemma RelativeTarget(current: string, ref: string, tail: string)
    requires IsPagePath(current) && Free(ref, {'?', '#'}) && IsSuffix(tail) && (ref == "" || ref[0] != '/')
    ensures ResolveURLPath(current, ref + tail) == Print(NonEmpty(Walk(Names(current), Split(ref))))
  {
    SuffixDoesNotCount(current, ref, tail);
    ResolveRelative(current, ref);
  }

  lemma WalkedFromTheRoot(path: string, rest: string)
    requires path == "/" + rest && Free(rest, {'?', '#'})
    ensures Normalize(RemoveDotSegments(path)) == Print(NonEmpty(Walk([], Split(rest))))
  {
    assert path[1..] == rest;
    assert Free(path, {'?', '#'});
    RemovedDotsIsPagePath(path);
  }

  /** One slash in front, or at least three: walked from the root. */
  lemma RootedTarget(current: string, rest: string, tail: string)
    requires Free(rest, {'?', '#'}) && IsSuffix(tail)
    requires rest == "" || rest[0] != '/' || (|rest| > 1 && rest[1] == '/')
    ensures ResolveURLPath(current, "/" + rest + tail) == Print(NonEmpty(Walk([], Split(rest))))
  {
    var ref := "/" + rest;
    assert Free(ref, {'?', '#'});
    SuffixDoesNotCount(current, ref, tail);
    SuffixIsCut(ref, "");
    assert ref + "" == ref;
    WalkedFromTheRoot(ref, rest);
  }

  lemma HostEnds(host: string, path: string)
    requires host != "" && '/' !in host && (path == "" || path[0] == '/')
    ensures IndexAny(host + path, {'/'}) == |host|
  {
    var s := host + path;
    forall i | 0 <= i < |host|
      ensures s[i] != '/'
    {
      assert s[i] == host[i] && host[i] in host;
    }
    assert path != "" ==> s[|host|] == '/';
  }

  lemma HostText(host: string, path: string)
    requires host != "" && '/' !in host && Free(host + path, {'?', '#'})
    ensures var ref := "//" + host + path;
            Free(ref, {'?', '#'}) && |ref| > 2 && ref[0] == ref[1] == '/' && ref[2] != '/'
            && ref[2..] == host + path && ref[2 + |host|..] == path && Free(path, {'?', '#'})
  {
    var ref := "//" + host + path;
    assert ref[2..] == host + path && ref[2] == host[0] && host[0] in host;
    assert forall c :: c in ref ==> c == '/' || c in host + path;
    assert forall c :: c in path ==> c in host + path;
  }

  lemma HostIsSkipped(current: string, ref: string, host: string, path: string)
    requires Free(ref, {'?', '#'}) && |ref| > 2 && ref[0] == ref[1] == '/' && ref[2] != '/'
    requires host != "" && ref[2..] == host + path && IndexAny(host + path, {'/'}) == |host| && ref[2 + |host|..] == path
    ensures ResolveURLPath(current, ref) == if path == "" then "" else Normalize(RemoveDotSegments(path))
  {
    hide RemoveDotSegments, Normalize;
    FreeIsUncut(ref);
  }

  /** Two slashes and a host: the path behind the host is walked from the root; without one no page is named. */
  lemma HostTarget(current: string, host: string, path: string, tail: string)
    requires host != "" && '/' !in host && Free(host + path, {'?', '#'}) && IsSuffix(tail) && (path == "" || path[0] == '/')
    ensures ResolveURLPath(current, "//" + host + path + tail) ==
            if path == "" then "" else Print(NonEmpty(Walk([], Split(path[1..]))))
  {
    hide ResolveURLPath, Free, IndexAny, RemoveDotSegments, Normalize;
    HostText(host, path);
    SuffixDoesNotCount(current, "//" + host + path, tail);
    HostEnds(host, path);
    HostIsSkipped(current, "//" + host + path, host, path);
    if path != "" {
      BehindSlash(path);
      WalkedFromTheRoot(path, path[1..]);
    }
  }

  lemma BehindSlash(path: string)
    requires path != "" && path[0] == '/' && Free(path, {'?', '#'})
    ensures path == "/" + path[1..] && Free(path[1..], {'?', '#'})
  {
  }

  /** Two slashes and nothing else name the page itself. */
  lemma EmptyHostTarget(current: string, tail: string)
    requires IsPagePath(current) && IsSuffix(tail)
    ensures ResolveURLPath(current, "//" + tail) == Print(Names(current))
  {
    SuffixDoesNotCount(current, "//", tail);
    FreeIsUncut("//");
    ResolveUnfoldsRelative(current, "");
    ResolveRelative(current, "");
    NothingWalked(Names(current));
  }

  lemma NothingWalked(names: seq<string>)
    requires AreNames(names)
    ensures NonEmpty(Walk(names, Split(""))) == names
  {
    assert Walk(names, [""]) == names + [""];
    NonEmptyConcat(names, [""]);
    NamesAreSegments(names);
    NonEmptyOfNames(names);
    assert names + [] == names;
  }

  // ----- Rules -----

  /** The rule is about this page, or about a folder it is in. */
  predicate IsAbout(r: RewriteRule, path: string) {
    path == r.oldPath || r.oldPath + "/" <= path
  }

  /** A page that no rule is about stays where it is. */
  lemma {:induction false} NoRuleApplies(path: string, rules: seq<RewriteRule>)
    ensures ApplyRewriteRules(path, rules) == None <==> forall k :: 0 <= k < |rules| ==> !IsAbout(rules[k], path)
  {
    if rules != [] {
      PrefixByText(path, rules[0].oldPath + "/");
      NoRuleApplies(path, rules[1..]);
      assert forall k :: 0 < k < |rules| ==> rules[k] == rules[1..][k - 1];
    }
  }

  lemma PrefixByText(s: string, p: string)
    ensures HasPrefix(s, p) <==> p <= s
  {
  }

  /** Of the rules about a page the first one counts: it puts the new path in the place of the old one. */
  lemma {:induction false} FirstRuleApplies(path: string, rules: seq<RewriteRule>, k: nat)
    requires k < |rules| && IsAbout(rules[k], path) && forall j :: 0 <= j < k ==> !IsAbout(rules[j], path)
    ensures ApplyRewriteRules(path, rules) == Some(rules[k].newPath + path[|rules[k].oldPath|..])
    decreases k
  {
    PrefixByText(path, rules[0].oldPath + "/");
    if k == 0 {
      RuleApplies(path, rules);
    } else {
      assert !IsAbout(rules[0], path);
      assert forall j :: 0 <= j < k - 1 ==> rules[1..][j] == rules[j + 1];
      FirstRuleApplies(path, rules[1..], k - 1);
    }
  }

  lemma RuleApplies(path: string, rules: seq<RewriteRule>)
    requires rules != [] && IsAbout(rules[0], path)
    ensures ApplyRewriteRules(path, rules) == Some(rules[0].newPath + path[|rules[0].oldPath|..])
  {
    var was := rules[0].oldPath;
    PrefixByText(path, was + "/");
    if path == was {
      assert rules[0].newPath + path[|was|..] == rules[0].newPath;
    } else {
      assert path[..|was|] == (was + "/")[..|was|] == was;
    }
  }
}
