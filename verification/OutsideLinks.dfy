/**
 Links that do not name a page: addresses of the web and of mail, and files of the asset folder
 (backend/internal/links/link_refactor.go, helpers.go). Moving pages never touches them.
 */
module OutsideLinks {
  import opened Text
  import opened WikiPath
  import opened LinkRewrite
  import opened LinkTargets
  import opened PageSlugs

  // ----- What is outside, by its text -----

  /** It begins with one of three schemes, in whatever case. */
  ghost predicate IsWebAddress(destination: string) {
    exists n: nat :: n <= |destination| && ToLower(destination[..n]) in {"http://", "https://", "mailto:"}
  }

  predicate AllBlank(s: string) {
    forall i :: 0 <= i < |s| ==> IsSpace(s[i])
  }

  /** Behind blanks and perhaps an opening angle bracket, it begins with the asset folder, rooted or not. */
  predicate IsFileAt(destination: string, n: nat, m: nat) {
    && n <= m <= |destination| && AllBlank(destination[..n]) && destination[n..m] in {"", "<"}
    && (HasPrefix(destination[m..], "/assets/") || HasPrefix(destination[m..], "assets/"))
  }

  ghost predicate IsAssetFile(destination: string) {
    exists n: nat, m: nat :: IsFileAt(destination, n, m)
  }

  // ----- The tests of the source find exactly these -----

  lemma FoldedPrefix(s: string, p: string)
    requires |p| <= |s|
    ensures ToLower(s)[..|p|] == ToLower(s[..|p|])
  {
  }

  lemma {:induction false} ExternalByText(base: string)
    ensures IsExternalLinkDestination(base) <==> IsWebAddress(base) || (base != "" && base[0] == '#')
  {
    var schemes := ["http://", "https://", "mailto:", "#"];
    forall k | 0 <= k < 4 && |schemes[k]| <= |base|
      ensures ToLower(base)[..|schemes[k]|] == ToLower(base[..|schemes[k]|])
    {
      FoldedPrefix(base, schemes[k]);
    }
    assert |schemes[0]| == 7 && |schemes[1]| == 8 && |schemes[2]| == 7 && |schemes[3]| == 1;
    if IsWebAddress(base) {
      var n: nat :| n <= |base| && ToLower(base[..n]) in {"http://", "https://", "mailto:"};
      assert |ToLower(base[..n])| == n;
      assert n == 7 || n == 8;
      FoldedPrefix(base, if n == 7 then "http://" else "https://");
    }
    if base != "" {
      assert base[..1] == [base[0]];
      assert ToLower(base[..1])[0] == Lower(base[0]);
    }
  }

  lemma {:induction false} TrimRightKeeps(s: string, k: nat)
    requires 0 < k <= |s| && !IsSpace(s[k - 1])
    ensures |TrimRightSpace(s)| >= k
  {
    if IsSpace(s[|s| - 1]) {
      TrimRightKeeps(s[..|s| - 1], k);
    }
  }

  lemma {:induction false} TrimLeftOfBlanks(s: string, n: nat)
    requires n < |s| && AllBlank(s[..n]) && !IsSpace(s[n])
    ensures TrimLeftSpace(s) == s[n..]
    decreases n
  {
    if n > 0 {
      assert s[..n][0] == s[0];
      assert s[1..][..n - 1] == s[..n][1..];
      TrimLeftOfBlanks(s[1..], n - 1);
    }
  }

  lemma {:induction false} TrimLeftTakesBlanks(s: string) returns (n: nat)
    ensures n <= |s| && AllBlank(s[..n]) && TrimLeftSpace(s) == s[n..]
  {
    n := 0;
    if s != "" && IsSpace(s[0]) {
      n := TrimLeftTakesBlanks(s[1..]);
      assert s[..n + 1] == [s[0]] + s[1..][..n];
      n := n + 1;
    }
  }

  lemma PrefixOfPrefix(s: string, k: nat, p: string)
    requires k <= |s|
    ensures HasPrefix(s[..k], p) ==> HasPrefix(s, p)
    ensures |p| <= k && HasPrefix(s, p) ==> HasPrefix(s[..k], p)
  {
    assert |p| <= k ==> s[..k][..|p|] == s[..|p|];
  }

  /** Behind the bracket, what is trimmed on the right is no part of the folder. */
  lemma FolderStays(t: string, folder: string)
    requires folder in {"/assets/", "assets/"}
    ensures HasPrefix(TrimSuffix(t, ">"), folder) <==> HasPrefix(t, folder)
  {
    if TrimSuffix(t, ">") != t {
      PrefixOfPrefix(t, |t| - 1, folder);
      assert t[|t| - 1..][0] == '>' && folder[|folder| - 1] == '/';
      assert t[..|t|] == t;
      assert t != folder;
    }
  }

  /** The bracket in front of the folder, and nothing else, is taken off. */
  lemma UnwrapsTo(t: string, k: nat, folder: string)
    requires k <= |t| && t[..k] in {"", "<"} && HasPrefix(t[k..], folder) && folder != "" && folder[0] != '<'
    ensures TrimPrefix(t, "<") == t[k..]
  {
    assert t[k..][..|folder|][0] == folder[0];
    assert k == 1 ==> t[..1] == "<";
    assert k == 0 ==> t[..1][0] != '<' && t[0..] == t;
    assert k == |t[..k]|;
  }

  lemma {:induction false} FileIsAsset(base: string, n: nat, m: nat)
    requires IsFileAt(base, n, m)
    ensures IsAssetLinkDestination(base)
  {
    hide IsSpace;
    var folder := if HasPrefix(base[m..], "/assets/") then "/assets/" else "assets/";
    var left, k := base[n..], m - n + |folder|;
    FolderIsText(folder);
    FileBegins(base, n, m, folder);
    TrimLeftOfBlanks(base, n);
    TrimRightKeeps(left, k);
    TrimRightIsPrefix(left);
    var t := TrimRightSpace(left);
    assert t == left[..|t|];
    assert t[..m - n] == base[n..m] && t[m - n..] == base[m..][..|t| - (m - n)];
    PrefixOfPrefix(base[m..], |t| - (m - n), folder);
    UnwrapsTo(t, m - n, folder);
    FolderStays(t[m - n..], folder);
  }

  lemma FolderIsText(folder: string)
    requires folder in {"/assets/", "assets/"}
    ensures folder != "" && !IsSpace(folder[0]) && !IsSpace(folder[|folder| - 1]) && folder[0] != '<' && !IsSpace('<')
  {
  }

  lemma FileBegins(base: string, n: nat, m: nat, folder: string)
    requires n <= m <= |base| && base[n..m] in {"", "<"} && HasPrefix(base[m..], folder) && folder != ""
    requires !IsSpace(folder[0]) && !IsSpace(folder[|folder| - 1]) && !IsSpace('<')
    ensures n < |base| && !IsSpace(base[n]) && m - n + |folder| <= |base[n..]| && !IsSpace(base[n..][m - n + |folder| - 1])
  {
    hide IsSpace;
    var f := base[m..][..|folder|];
    assert f == folder && f[0] == base[m] && f[|folder| - 1] == base[m + |folder| - 1];
    assert n < m ==> base[n..m][0] == base[n];
  }

  lemma {:induction false} AssetIsFile(base: string)
    requires IsAssetLinkDestination(base)
    ensures IsAssetFile(base)
  {
    hide IsSpace, HasPrefix, TrimLeftSpace, TrimRightSpace, TrimSuffix;
    var n := TrimLeftTakesBlanks(base);
    var left := base[n..];
    TrimRightIsPrefix(left);
    var t := TrimRightSpace(left);
    var m := if HasPrefix(t, "<") then n + 1 else n;
    var inner := TrimPrefix(t, "<");
    Unwrapped(t);
    FolderStays(inner, "/assets/");
    FolderStays(inner, "assets/");
    assert inner == base[m..][..|inner|];
    PrefixOfPrefix(base[m..], |inner|, "/assets/");
    PrefixOfPrefix(base[m..], |inner|, "assets/");
    assert m > n ==> base[n..m] == t[..1];
    assert IsFileAt(base, n, m);
  }

  lemma Unwrapped(t: string)
    ensures if HasPrefix(t, "<") then t != "" && t[..1] == "<" && TrimPrefix(t, "<") == t[1..] else TrimPrefix(t, "<") == t[0..] == t
  {
  }

  /** What the rewriters take for a link between pages: everything but web and mail addresses, fragments and asset files. */
  lemma {:induction false} PageLinkByText(base: string)
    ensures IsPageLink(base) <==> base != "" && base[0] != '#' && !IsWebAddress(base) && !IsAssetFile(base)
  {
    ExternalByText(base);
    if IsAssetLinkDestination(base) {
      AssetIsFile(base);
    }
    if IsAssetFile(base) {
      var n: nat, m: nat :| IsFileAt(base, n, m);
      FileIsAsset(base, n, m);
    }
  }

  // ----- Both rewriters leave them alone -----

  lemma SplitBehindLead(lead: string, rest: string)
    requires Free(lead, {'?', '#'})
    ensures var base := SplitLinkDestination(lead + rest).0; |lead| <= |base| && base[..|lead|] == lead && base == (lead + rest)[..|base|]
  {
    var d := lead + rest;
    var i := IndexAny(d, {'?', '#'});
    assert forall k :: 0 <= k < |lead| ==> d[k] == lead[k] && lead[k] in lead;
    assert |lead| <= i;
  }

  /** A web or mail address, whatever follows its scheme. */
  lemma {:induction false} WebAddressIsLeftAlone(lead: string, rest: string, page: string, newPage: string, rules: seq<RewriteRule>)
    requires ToLower(lead) in {"http://", "https://", "mailto:"}
    ensures RewriteLinkDestination(page, lead + rest, rules) == Rewritten(lead + rest, false, false)
    ensures RewriteRelativeLinkForPathChange(page, newPage, lead + rest, rules) == Rewritten(lead + rest, false, false)
  {
    hide ResolveURLPath, IsExternalLinkDestination, IsAssetLinkDestination, SplitLinkDestination;
    SchemeIsFree(lead);
    SplitBehindLead(lead, rest);
    var base := SplitLinkDestination(lead + rest).0;
    assert IsWebAddress(base) by {
      assert ToLower(base[..|lead|]) == ToLower(lead);
    }
    ExternalByText(base);
  }

  lemma SchemeIsFree(lead: string)
    requires ToLower(lead) in {"http://", "https://", "mailto:"}
    ensures Free(lead, {'?', '#'})
  {
    forall c | c in lead
      ensures c !in {'?', '#'}
    {
      var i :| 0 <= i < |lead| && lead[i] == c;
      assert ToLower(lead)[i] == Lower(c);
    }
  }

  /** A link into the page it stands on: only a query or a fragment. */
  lemma OwnPartIsLeftAlone(mark: char, rest: string, page: string, newPage: string, rules: seq<RewriteRule>)
    requires mark in {'?', '#'}
    ensures RewriteLinkDestination(page, [mark] + rest, rules) == Rewritten([mark] + rest, false, false)
    ensures RewriteRelativeLinkForPathChange(page, newPage, [mark] + rest, rules) == Rewritten([mark] + rest, false, false)
  {
  }

  /** A file of the asset folder, wrapped in angle brackets or not, rooted or not. */
  lemma {:induction false} AssetIsLeftAlone(blanks: string, open: string, folder: string, rest: string, page: string, newPage: string, rules: seq<RewriteRule>)
    requires AllBlank(blanks) && open in {"", "<"} && folder in {"/assets/", "assets/"}
    ensures var link := blanks + open + folder + rest;
            && RewriteLinkDestination(page, link, rules) == Rewritten(link, false, false)
            && RewriteRelativeLinkForPathChange(page, newPage, link, rules) == Rewritten(link, false, false)
  {
    hide ResolveURLPath, IsExternalLinkDestination, IsAssetLinkDestination, SplitLinkDestination, IsSpace;
    var lead, n, m := blanks + open + folder, |blanks|, |blanks| + |open|;
    assert Free(lead, {'?', '#'}) by {
      BlankIsNoMark();
      assert forall c :: c in blanks ==> IsSpace(c);
    }
    SplitBehindLead(lead, rest);
    var base := SplitLinkDestination(lead + rest).0;
    LeadParts(base, blanks, open, folder);
    FileIsAsset(base, n, m);
  }

  lemma LeadParts(base: string, blanks: string, open: string, folder: string)
    requires blanks + open + folder <= base
    ensures var n, m := |blanks|, |blanks| + |open|; base[..n] == blanks && base[n..m] == open && folder <= base[m..]
  {
    var lead := blanks + open + folder;
    assert base[..|lead|] == lead;
    assert base[..|blanks|] == lead[..|blanks|] == blanks;
    assert base[|blanks|..|blanks| + |open|] == lead[|blanks|..|blanks| + |open|] == open;
    assert base[|blanks| + |open|..|lead|] == lead[|blanks| + |open|..] == folder;
    assert base[|blanks| + |open|..][..|folder|] == folder;
  }

  lemma BlankIsNoMark()
    ensures !IsSpace('?') && !IsSpace('#')
  {
  }

  lemma AddressStarts(base: string, n: nat)
    requires n <= |base| && ToLower(base[..n]) in {"http://", "https://", "mailto:"}
    ensures base != "" && Lower(base[0]) in {'h', 'm'}
  {
    assert |ToLower(base[..n])| == n;
    assert ToLower(base[..n])[0] == Lower(base[0]);
  }

  lemma FileStarts(base: string, n: nat, m: nat)
    requires IsFileAt(base, n, m)
    ensures base != "" && (IsSpace(base[0]) || base[0] == '<' || HasPrefix(base, "/assets/") || HasPrefix(base, "assets/"))
  {
    hide IsSpace;
    if n > 0 {
      assert base[..n][0] == base[0];
    } else if m > 0 {
      assert base[0..m][0] == base[0];
    } else {
      assert base[0..] == base;
    }
  }

  lemma PrefixStarts(s: string, p: string)
    requires |p| > 1
    ensures HasPrefix(s, p) ==> s[0] == p[0] && s[1] == p[1]
  {
    if HasPrefix(s, p) {
      assert s[..|p|][0] == s[0] && s[..|p|][1] == s[1];
    }
  }

  lemma HostIsPageLink(host: string)
    ensures IsPageLink("//" + host)
  {
    hide IsPageLink, HasPrefix;
    var base := "//" + host;
    PageLinkByText(base);
    PrefixStarts(base, "/assets/");
    PrefixStarts(base, "assets/");
    if IsWebAddress(base) {
      var n: nat :| n <= |base| && ToLower(base[..n]) in {"http://", "https://", "mailto:"};
      AddressStarts(base, n);
    }
    if IsAssetFile(base) {
      var n: nat, m: nat :| IsFileAt(base, n, m);
      FileStarts(base, n, m);
    }
  }

  /** A link with a host and no path is left alone: with a warning by the rewriter that looks at rooted links. */
  lemma HostLinkIsLeftAlone(host: string, tail: string, page: string, newPage: string, rules: seq<RewriteRule>)
    requires host != "" && '/' !in host && Free(host, {'?', '#'}) && IsSuffix(tail)
    ensures var link := "//" + host + tail;
            && RewriteLinkDestination(page, link, rules) == Rewritten(link, false, true)
            && RewriteRelativeLinkForPathChange(page, newPage, link, rules) == Rewritten(link, false, false)
  {
    hide ResolveURLPath, IsPageLink, SplitLinkDestination;
    var base := "//" + host;
    HostIsPageLink(host);
    assert Free(base, {'?', '#'}) by {
      assert forall c :: c in base ==> c == '/' || c in host;
    }
    SplitAtSuffix(base, tail);
    assert host + "" == host && base + "" + "" == base;
    HostTarget(page, host, "", "");
    assert IsPageLink(base) by { HostIsPageLink(host); }
    UnresolvedIsWarned(page, newPage, base, tail, rules);
  }

  lemma UnresolvedIsWarned(page: string, newPage: string, base: string, tail: string, rules: seq<RewriteRule>)
    requires IsPageLink(base) && IsAbsolute(base) && SplitLinkDestination(base + tail) == (base, tail) && ResolveURLPath(page, base) == ""
    ensures RewriteLinkDestination(page, base + tail, rules) == Rewritten(base + tail, false, true)
    ensures RewriteRelativeLinkForPathChange(page, newPage, base + tail, rules) == Rewritten(base + tail, false, false)
  {
  }
}
