/** Hand-written matchers for the two regular expressions of the connect script
    (src/aws_connect.py lines 27-28), and for the corrected instance pattern.
    Each has the shape  OPENER ( CLS+ ) [ ' '* ] CLOSER : a literal opener, a
    captured group of one or more characters of one class, optionally spaces,
    and one closing character. For the patterns used here neither the closer nor
    the space belongs to the class, so the greedy run of class characters is the
    only run a backtracking regex engine could end the group on. */
module Patterns {
  import opened Common
  import opened Text

  datatype Pattern = Pattern(opener: string, cls: char -> bool, padded: bool, closer: char)

  /** `[a-zA-Z0-9\-]` */
  predicate IsProfileChar(c: char)
  {
    ('a' <= c <= 'z') || ('A' <= c <= 'Z') || ('0' <= c <= '9') || c == '-'
  }

  /** `[\-a-z0-9]` */
  predicate IsIdChar(c: char)
  {
    ('a' <= c <= 'z') || ('0' <= c <= '9') || c == '-'
  }

  /** `\[profile ([a-zA-Z0-9\-]+)\]` */
  const ProfilePattern := Pattern("[profile ", IsProfileChar, false, ']')

  /** `\(([\-a-z0-9]+)\)`, as the connect script writes it. */
  const IdPattern := Pattern("(", IsIdChar, false, ')')

  /** `\(([\-a-z0-9]+) *\)`: the instance pattern tolerating the padding that
      the instance labels put before the closing parenthesis. */
  const PaddedIdPattern := Pattern("(", IsIdChar, true, ')')

  predicate AllOf(s: string, cls: char -> bool)
  {
    forall i :: 0 <= i < |s| ==> cls(s[i])
  }

  /** The group captured by a match of `pat` that starts at position `p`. */
  function MatchAt(s: string, p: nat, pat: Pattern): Option<string>
    requires p <= |s|
  {
    var start := p + |pat.opener|;
    if start <= |s| && s[p..start] == pat.opener then
      var n := RunLength(s, start, pat.cls);
      var end := start + n;
      var close := if pat.padded then end + RunLength(s, end, IsSpace) else end;
      if n > 0 && close < |s| && s[close] == pat.closer then Some(s[start..end])
      else None
    else None
  }

  /** What a match captures: a non-empty run of the class, standing right
      after the opener and followed by the closer (after the spaces a padded
      pattern allows). */
  lemma MatchAtSound(s: string, p: nat, pat: Pattern)
    requires p <= |s|
    ensures MatchAt(s, p, pat).Some? ==>
      MatchAt(s, p, pat).value != [] && AllOf(MatchAt(s, p, pat).value, pat.cls)
    ensures MatchAt(s, p, pat).Some? ==>
      exists sp: nat :: (pat.padded || sp == 0) &&
        OccursAt(s, pat.opener + MatchAt(s, p, pat).value + Spaces(sp) + [pat.closer], p)
  {
    if MatchAt(s, p, pat).Some? {
      var start := p + |pat.opener|;
      var end := start + RunLength(s, start, pat.cls);
      var sp := if pat.padded then RunLength(s, end, IsSpace) else 0;
      PiecesOccur(s, p, pat.opener, MatchAt(s, p, pat).value, sp, pat.closer);
      RunIsAllOf(s, start, pat.cls);
    }
  }

  /** The run RunLength measures consists of characters of its class. */
  lemma RunIsAllOf(s: string, i: nat, cls: char -> bool)
    requires i <= |s|
    ensures AllOf(s[i..i + RunLength(s, i, cls)], cls)
  {
    var run := s[i..i + RunLength(s, i, cls)];
    forall k | 0 <= k < |run|
      ensures cls(run[k])
    {
      assert run[k] == s[i + k];
    }
  }

  /** An opener, a captured text, `sp` spaces and a closer written one after
      the other from `p` on form one piece of `s` there. */
  lemma PiecesOccur(s: string, p: nat, opener: string, v: string, sp: nat, closer: char)
    requires p + |opener| + |v| + sp < |s|
    requires s[p..p + |opener|] == opener && s[p + |opener|..p + |opener| + |v|] == v
    requires forall k :: p + |opener| + |v| <= k < p + |opener| + |v| + sp ==> IsSpace(s[k])
    requires s[p + |opener| + |v| + sp] == closer
    ensures OccursAt(s, opener + v + Spaces(sp) + [closer], p)
  {
    var end := p + |opener| + |v|;
    assert s[end..end + sp] == Spaces(sp);
    assert s[p..end + sp + 1] == s[p..p + |opener|] + s[p + |opener|..end] + s[end..end + sp] + [s[end + sp]];
  }

  /** What a position without a match says about the text there, once the
      opener is in place: the run is empty or the closer is missing. */
  lemma MatchAtNoneFacts(s: string, p: nat, pat: Pattern)
    requires p + |pat.opener| <= |s| && s[p..p + |pat.opener|] == pat.opener
    requires MatchAt(s, p, pat).None?
    ensures var n := RunLength(s, p + |pat.opener|, pat.cls);
      var end := p + |pat.opener| + n;
      var close := if pat.padded then end + RunLength(s, end, IsSpace) else end;
      n > 0 && close < |s| ==> s[close] != pat.closer
  {
  }

  /** Where the run is empty, or the character after it (and, if padded,
      after the spaces) is not the closer, nothing matches. */
  lemma MatchAtNoCloser(s: string, p: nat, pat: Pattern, close: nat)
    requires p + |pat.opener| <= |s|
    requires var end := p + |pat.opener| + RunLength(s, p + |pat.opener|, pat.cls);
      close == if pat.padded then end + RunLength(s, end, IsSpace) else end
    requires RunLength(s, p + |pat.opener|, pat.cls) > 0 && close < |s| ==> s[close] != pat.closer
    ensures MatchAt(s, p, pat).None?
  {
  }

  /** MatchAtNoneFacts for the instance pattern as written, with the run of
      `n` id characters after "(". */
  lemma IdNoneFacts(s: string, p: nat, n: nat)
    requires p + 1 <= |s| && s[p..p + 1] == "("
    requires MatchAt(s, p, IdPattern).None?
    requires RunLength(s, p + 1, IsIdChar) == n
    ensures n > 0 && p + 1 + n < |s| ==> s[p + 1 + n] != ')'
  {
    MatchAtNoneFacts(s, p, IdPattern);
  }

  /** MatchAtNoneFacts for the padded instance pattern, with the run of `n`
      id characters after "(" and the `sp` spaces after it. */
  lemma PaddedIdNoneFacts(s: string, p: nat, n: nat, sp: nat)
    requires p + 1 <= |s| && s[p..p + 1] == "("
    requires MatchAt(s, p, PaddedIdPattern).None?
    requires RunLength(s, p + 1, IsIdChar) == n
    requires p + 1 + n <= |s| && RunLength(s, p + 1 + n, IsSpace) == sp
    ensures n > 0 && p + 1 + n + sp < |s| ==> s[p + 1 + n + sp] != ')'
  {
    MatchAtNoneFacts(s, p, PaddedIdPattern);
  }

  /** MatchAtNoCloser for the instance pattern as written: a run of `n` id
      characters after "(" that is empty or not followed by ")". */
  lemma IdNoCloser(s: string, p: nat, n: nat)
    requires p + 1 + n <= |s|
    requires RunLength(s, p + 1, IsIdChar) == n
    requires n > 0 && p + 1 + n < |s| ==> s[p + 1 + n] != ')'
    ensures MatchAt(s, p, IdPattern).None?
  {
    MatchAtNoCloser(s, p, IdPattern, p + 1 + n);
  }

  /** MatchAtNoCloser for the padded instance pattern: a run of `n` id
      characters after "(" and `sp` spaces, empty or not followed by ")". */
  lemma PaddedIdNoCloser(s: string, p: nat, n: nat, sp: nat)
    requires p + 1 + n + sp <= |s|
    requires RunLength(s, p + 1, IsIdChar) == n
    requires RunLength(s, p + 1 + n, IsSpace) == sp
    requires n > 0 && p + 1 + n + sp < |s| ==> s[p + 1 + n + sp] != ')'
    ensures MatchAt(s, p, PaddedIdPattern).None?
  {
    MatchAtNoCloser(s, p, PaddedIdPattern, p + 1 + n + sp);
  }

  /** Without the opener at `p`, nothing matches there. */
  lemma MatchAtNoOpener(s: string, p: nat, pat: Pattern)
    requires p <= |s| && !OccursAt(s, pat.opener, p)
    ensures MatchAt(s, p, pat).None?
  {
  }

  /** The opener, a maximal non-empty run ending at `e`, the spaces a padded
      pattern allows, and the closer at `close`: a match capturing the run. */
  lemma MatchAtCapture(s: string, p: nat, pat: Pattern, e: nat, close: nat)
    requires p + |pat.opener| < e <= close < |s|
    requires s[p..p + |pat.opener|] == pat.opener
    requires RunLength(s, p + |pat.opener|, pat.cls) == e - (p + |pat.opener|)
    requires close == if pat.padded then e + RunLength(s, e, IsSpace) else e
    requires s[close] == pat.closer
    ensures MatchAt(s, p, pat) == Some(s[p + |pat.opener|..e])
  {
  }

  /** A match found in `a` is found at the same place in any `s` extending
      `a`: its opener, run, spaces and closer all lie in `a`, and the
      character that ended the run (or the spaces) is still there. */
  lemma MatchAtExtended(a: string, s: string, p: nat, pat: Pattern)
    requires p <= |a| <= |s|
    requires forall k :: 0 <= k < |a| ==> s[k] == a[k]
    requires MatchAt(a, p, pat).Some?
    ensures MatchAt(s, p, pat) == MatchAt(a, p, pat)
  {
    MatchAtFits(a, p, pat);
    var start := p + |pat.opener|;
    var end := start + RunLength(a, start, pat.cls);
    var close := if pat.padded then end + RunLength(a, end, IsSpace) else end;
    MatchAtParts(a, p, pat, start, end, close);
    ExtendedParts(a, s, p, pat, start, end, close);
    MatchAtCapture(s, p, pat, end, close);
  }

  lemma MatchAtFits(a: string, p: nat, pat: Pattern)
    requires p <= |a| && MatchAt(a, p, pat).Some?
    ensures p + |pat.opener| <= |a|
  {
  }

  /** The pieces of a match: where its run ends and where its closer stands. */
  lemma MatchAtParts(a: string, p: nat, pat: Pattern, start: nat, end: nat, close: nat)
    requires p <= |a| && MatchAt(a, p, pat).Some?
    requires start == p + |pat.opener| && start <= |a|
    requires end == start + RunLength(a, start, pat.cls)
    requires close == if pat.padded then end + RunLength(a, end, IsSpace) else end
    ensures start < end <= close < |a| && a[p..start] == pat.opener && a[close] == pat.closer
    ensures MatchAt(a, p, pat) == Some(a[start..end])
  {
  }

  /** The pieces of a match in `a` are the same pieces in `s`, which extends `a`. */
  lemma ExtendedParts(a: string, s: string, p: nat, pat: Pattern, start: nat, end: nat, close: nat)
    requires p <= start < end <= close < |a| <= |s|
    requires forall k :: 0 <= k < |a| ==> s[k] == a[k]
    requires a[p..start] == pat.opener && start == p + |pat.opener|
    requires end == start + RunLength(a, start, pat.cls)
    requires close == if pat.padded then end + RunLength(a, end, IsSpace) else end
    ensures s[p..start] == pat.opener && s[close] == a[close]
    ensures RunLength(s, start, pat.cls) == end - start
    ensures close == if pat.padded then end + RunLength(s, end, IsSpace) else end
    ensures s[start..end] == a[start..end]
  {
    assert s[p..start] == a[p..start];
    RunKept(a, s, start, pat.cls);
    if pat.padded {
      RunKept(a, s, end, IsSpace);
    }
    assert s[start..end] == a[start..end];
  }

  /** The leftmost position at or after `p` where `pat` matches. */
  function FirstMatch(s: string, p: nat, pat: Pattern): (r: Option<nat>)
    requires p <= |s|
    ensures r.Some? ==> p <= r.value <= |s| && MatchAt(s, r.value, pat).Some?
    ensures r.Some? ==> forall k :: p <= k < r.value ==> MatchAt(s, k, pat).None?
    ensures r.None? ==> forall k :: p <= k <= |s| ==> MatchAt(s, k, pat).None?
    decreases |s| - p
  {
    if MatchAt(s, p, pat).Some? then Some(p)
    else if p == |s| then None
    else FirstMatch(s, p + 1, pat)
  }

  /** Python's `re.search(pat, s).group(1)`, with None where `re.search`
      finds nothing. */
  function Search(s: string, pat: Pattern): Option<string>
  {
    match FirstMatch(s, 0, pat)
    case None => None
    case Some(p) => MatchAt(s, p, pat)
  }

  /** What Search returns: the group of the leftmost match, or None exactly
      when no position matches. */
  lemma SearchSpec(s: string, pat: Pattern)
    ensures Search(s, pat).None? <==> forall k :: 0 <= k <= |s| ==> MatchAt(s, k, pat).None?
    ensures Search(s, pat).Some? ==>
      exists p :: 0 <= p <= |s| && Search(s, pat) == MatchAt(s, p, pat) &&
        forall k :: 0 <= k < p ==> MatchAt(s, k, pat).None?
  {
  }

  /** A match with no match to its left is what Search finds. */
  lemma SearchLeftmost(s: string, p: nat, pat: Pattern)
    requires p <= |s| && MatchAt(s, p, pat).Some?
    requires forall k :: 0 <= k < p ==> MatchAt(s, k, pat).None?
    ensures Search(s, pat) == MatchAt(s, p, pat)
  {
    var r := FirstMatch(s, 0, pat);
    assert r == Some(p);
  }

  /** A profile name: what `[a-zA-Z0-9\-]+` can capture. */
  predicate IsProfileName(name: string)
  {
    name != [] && AllOf(name, IsProfileChar)
  }

  /** An instance id: what `[\-a-z0-9]+` can capture. */
  predicate IsInstanceId(id: string)
  {
    id != [] && AllOf(id, IsIdChar)
  }

  /** Every profile the pattern captures is a non-empty name over
      `[A-Za-z0-9-]`, and the whole header `[profile NAME]` it was captured
      from is in the line. */
  lemma ProfileSearchSound(line: string)
    ensures Search(line, ProfilePattern).Some? ==>
      IsProfileName(Search(line, ProfilePattern).value) &&
      Contains(line, "[profile " + Search(line, ProfilePattern).value + "]")
  {
    match FirstMatch(line, 0, ProfilePattern)
    case None =>
    case Some(p) =>
      MatchAtSound(line, p, ProfilePattern);
      var name := MatchAt(line, p, ProfilePattern).value;
      var sp: nat :| sp == 0 &&
        OccursAt(line, "[profile " + name + Spaces(sp) + [']'], p);
      assert Spaces(0) == [];
      assert "[profile " + name + Spaces(sp) + [']'] == "[profile " + name + "]";
  }

  /** A line that begins with a profile header yields that header's name,
      whatever follows it. */
  lemma ProfileHeaderRoundTrip(name: string, rest: string)
    requires IsProfileName(name)
    ensures Search("[profile " + name + "]" + rest, ProfilePattern) == Some(name)
  {
    var s := "[profile " + name + "]" + rest;
    ProfileHeaderMatch(s, name, rest);
    SearchLeftmost(s, 0, ProfilePattern);
  }

  /** A profile header anywhere in a line is found: the line yields some
      profile (the leftmost header's, which may stand before this one). */
  lemma ProfileHeaderFound(pre: string, name: string, rest: string)
    requires IsProfileName(name)
    ensures Search(pre + "[profile " + name + "]" + rest, ProfilePattern).Some?
  {
    var s := pre + "[profile " + name + "]" + rest;
    var q := |pre|;
    var e := q + 9 + |name|;
    assert s[q..q + 9] == "[profile ";
    assert forall k :: q + 9 <= k < e ==> s[k] == name[k - q - 9];
    assert s[e] == ']';
    RunLengthUnique(s, q + 9, e, IsProfileChar);
    MatchAtCapture(s, q, ProfilePattern, e, e);
    SearchSpec(s, ProfilePattern);
  }

  /** The header at the start of a line matches there. */
  lemma ProfileHeaderMatch(s: string, name: string, rest: string)
    requires IsProfileName(name)
    requires s == "[profile " + name + "]" + rest
    ensures MatchAt(s, 0, ProfilePattern) == Some(name)
  {
    assert s[0..9] == "[profile ";
    assert forall k :: 9 <= k < 9 + |name| ==> s[k] == name[k - 9];
    assert s[9 + |name|] == ']';
    RunLengthUnique(s, 9, 9 + |name|, IsProfileChar);
    assert s[9..9 + |name|] == name;
  }

  /** A line shorter than the literal "[profile " holds no profile header. */
  lemma ShortLineHasNoProfile(line: string)
    requires |line| < 9
    ensures Search(line, ProfilePattern) == None
  {
  }
}
