/**
 The string operations the Go and TypeScript sources take from their standard libraries.
 A `char` stands for a rune; every character the sources treat specially is ASCII.
 */
module Text {
  /** The White_Space code points accepted by Go's unicode.IsSpace. */
  predicate IsSpace(c: char) {
    || c in " \t\n\r" || c == '\U{0B}' || c == '\U{0C}' || c == '\U{85}' || c == '\U{A0}' || c == '\U{1680}'
    || '\U{2000}' <= c <= '\U{200A}' || c == '\U{2028}' || c == '\U{2029}' || c == '\U{202F}' || c == '\U{205F}'
    || c == '\U{3000}'
  }

  /** Lower case of the code points whose lower case is ASCII; every other code point is left alone. */
  function Lower(c: char): char {
    if 'A' <= c <= 'Z' then (c as int + 32) as char
    else if c == '\U{130}' then 'i'
    else if c == '\U{212A}' then 'k'
    else c
  }

  function ToLower(s: string): (r: string)
    ensures |r| == |s| && forall i :: 0 <= i < |s| ==> r[i] == Lower(s[i])
  {
    seq(|s|, i requires 0 <= i < |s| => Lower(s[i]))
  }

  predicate HasPrefix(s: string, p: string) {
    |p| <= |s| && s[..|p|] == p
  }

  predicate HasSubstring(s: string, part: string) {
    HasPrefix(s, part) || (s != "" && HasSubstring(s[1..], part))
  }

  lemma {:induction false} SubstringAt(s: string, part: string) returns (i: nat)
    requires HasSubstring(s, part)
    ensures i <= |s| && HasPrefix(s[i..], part)
  {
    if HasPrefix(s, part) {
      i := 0;
    } else {
      i := SubstringAt(s[1..], part);
      i := i + 1;
      assert s[1..][i - 1..] == s[i..];
    }
  }

  lemma Assoc(a: string, b: string, c: string)
    ensures a + b + c == a + (b + c)
  {
  }

  function TrimPrefix(s: string, p: string): string {
    if HasPrefix(s, p) then s[|p|..] else s
  }

  function TrimSuffix(s: string, p: string): string {
    if |p| <= |s| && s[|s| - |p|..] == p then s[..|s| - |p|] else s
  }

  function TrimLeftSpace(s: string): (r: string)
  {
    if s != [] && IsSpace(s[0]) then TrimLeftSpace(s[1..]) else s
  }

  function TrimRightSpace(s: string): (r: string)
  {
    if s != [] && IsSpace(s[|s| - 1]) then TrimRightSpace(s[..|s| - 1]) else s
  }

  lemma {:induction false} TrimRightIsPrefix(s: string)
    ensures |TrimRightSpace(s)| <= |s| && TrimRightSpace(s) == s[..|TrimRightSpace(s)|]
  {
    if s != [] && IsSpace(s[|s| - 1]) {
      TrimRightIsPrefix(s[..|s| - 1]);
    }
  }

  function TrimSpace(s: string): string {
    TrimRightSpace(TrimLeftSpace(s))
  }

  lemma {:induction false} TrimLeftByText(lead: string, core: string)
    requires (forall i :: 0 <= i < |lead| ==> IsSpace(lead[i])) && (core == "" || !IsSpace(core[0]))
    ensures TrimLeftSpace(lead + core) == core
  {
    if lead != "" {
      assert (lead + core)[1..] == lead[1..] + core;
      TrimLeftByText(lead[1..], core);
    } else {
      assert lead + core == core;
    }
  }

  lemma {:induction false} TrimRightByText(core: string, trail: string)
    requires (forall i :: 0 <= i < |trail| ==> IsSpace(trail[i])) && (core == "" || !IsSpace(core[|core| - 1]))
    ensures TrimRightSpace(core + trail) == core
  {
    if trail != "" {
      assert (core + trail)[..|core + trail| - 1] == core + trail[..|trail| - 1];
      TrimRightByText(core, trail[..|trail| - 1]);
    } else {
      assert core + trail == core;
    }
  }

  /** Trimming takes off the blanks at both ends and nothing else. */
  lemma TrimByText(lead: string, core: string, trail: string)
    requires (forall i :: 0 <= i < |lead| ==> IsSpace(lead[i])) && (forall i :: 0 <= i < |trail| ==> IsSpace(trail[i]))
    requires core != "" && !IsSpace(core[0]) && !IsSpace(core[|core| - 1])
    ensures TrimSpace(lead + core + trail) == core
  {
    Assoc(lead, core, trail);
    TrimLeftByText(lead, core + trail);
    TrimRightByText(core, trail);
  }

  /** The position of the first character of `s` that is in `chars`, or |s|. */
  function IndexAny(s: string, chars: set<char>): (i: nat)
    ensures i <= |s|
    ensures forall k :: 0 <= k < i ==> s[k] !in chars
    ensures i < |s| ==> s[i] in chars
  {
    if s == [] || s[0] in chars then 0 else 1 + IndexAny(s[1..], chars)
  }

  predicate Free(s: string, chars: set<char>) {
    forall c :: c in s ==> c !in chars
  }
}
