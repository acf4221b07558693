/** String helpers shared by the selector and the connect script: ASCII lower
    casing, substring search, left-aligned padding, Python's `str.splitlines`,
    `'\n'.join` and the shell's splitting of a command line into words. */
module Text {

  /** Python's `str.lower()`, restricted to ASCII: only 'A'..'Z' change. */
  function LowerChar(c: char): (d: char)
    ensures !('A' <= d <= 'Z')
    ensures !('A' <= c <= 'Z') ==> d == c
  {
    if 'A' <= c <= 'Z' then (c as int - 'A' as int + 'a' as int) as char else c
  }

  function Lower(s: string): (r: string)
    ensures |r| == |s|
  {
    seq(|s|, i requires 0 <= i < |s| => LowerChar(s[i]))
  }

  /** Lower casing twice is lower casing once. */
  lemma LowerIdempotent(s: string)
    ensures Lower(Lower(s)) == Lower(s)
  {
    forall i | 0 <= i < |s|
      ensures Lower(Lower(s))[i] == Lower(s)[i]
    {
      assert Lower(Lower(s))[i] == LowerChar(Lower(s)[i]);
    }
  }

  /** `q` occurs in `s` starting at position `i`. */
  predicate OccursAt(s: string, q: string, i: nat)
  {
    i + |q| <= |s| && s[i..i + |q|] == q
  }

  /** Python's `q in s` on strings: `q` occurs as a contiguous piece of `s`. */
  predicate Contains(s: string, q: string)
  {
    exists i: nat | i <= |s| :: OccursAt(s, q, i)
  }

  /** The empty string occurs in every string. */
  lemma ContainsEmpty(s: string)
    ensures Contains(s, "")
  {
    assert OccursAt(s, "", 0);
  }

  function Spaces(n: nat): (r: string)
    ensures |r| == n && forall i :: 0 <= i < n ==> r[i] == ' '
  {
    seq(n, _ => ' ')
  }

  /** Python's `f'{s:<w}'`: `s` left-aligned, padded with spaces to at least
      `w` characters and never truncated. */
  function PadRight(s: string, w: nat): (r: string)
    ensures |r| == if |s| >= w then |s| else w
    ensures r[..|s|] == s
    ensures forall i :: |s| <= i < |r| ==> r[i] == ' '
  {
    if |s| >= w then s else s + Spaces(w - |s|)
  }

  /** Length of the longest run of `cls` characters of `s` starting at `i`. */
  function RunLength(s: string, i: nat, cls: char -> bool): (n: nat)
    requires i <= |s|
    ensures i + n <= |s|
    ensures forall k :: i <= k < i + n ==> cls(s[k])
    ensures i + n == |s| || !cls(s[i + n])
    decreases |s| - i
  {
    if i < |s| && cls(s[i]) then 1 + RunLength(s, i + 1, cls) else 0
  }

  /** A run of `cls` characters from `i` to `j` that cannot be extended is the
      one RunLength measures. */
  lemma RunLengthUnique(s: string, i: nat, j: nat, cls: char -> bool)
    requires i <= j <= |s|
    requires forall k :: i <= k < j ==> cls(s[k])
    requires j == |s| || !cls(s[j])
    ensures RunLength(s, i, cls) == j - i
  {
  }

  /** A run that ends inside `a` is the same run in any `s` extending `a`. */
  lemma RunKept(a: string, s: string, i: nat, cls: char -> bool)
    requires i <= |a| <= |s|
    requires forall k :: 0 <= k < |a| ==> s[k] == a[k]
    requires i + RunLength(a, i, cls) < |a|
    ensures RunLength(s, i, cls) == RunLength(a, i, cls)
  {
    var j := i + RunLength(a, i, cls);
    assert s[j] == a[j];
    forall k | i <= k < j
      ensures cls(s[k])
    {
      assert s[k] == a[k];
    }
    RunLengthUnique(s, i, j, cls);
  }

  // ---------------------------------------------------------------- lines

  /** The line boundaries of Python's `str.splitlines`. */
  predicate IsLineBreak(c: char)
  {
    c == '\n' || c == '\r' || c == '\U{0B}' || c == '\U{0C}' || c == '\U{1C}' ||
    c == '\U{1D}' || c == '\U{1E}' || c == '\U{85}' || c == '\U{2028}' || c == '\U{2029}'
  }

  predicate NotLineBreak(c: char)
  {
    !IsLineBreak(c)
  }

  predicate NoLineBreak(s: string)
  {
    forall i :: 0 <= i < |s| ==> NotLineBreak(s[i])
  }

  /** Python's `s.splitlines()`: "\r\n" is one boundary, a trailing boundary
      does not start an empty last line, and "" has no lines. */
  function SplitLines(s: string): (lines: seq<string>)
    ensures forall l :: l in lines ==> NoLineBreak(l)
    ensures s == [] <==> lines == []
    decreases |s|
  {
    if s == [] then []
    else
      var n := RunLength(s, 0, NotLineBreak);
      if n == |s| then [s]
      else
        var skip := if s[n] == '\r' && n + 1 < |s| && s[n + 1] == '\n' then 2 else 1;
        [s[..n]] + SplitLines(s[n + skip..])
  }

  /** Python's `sep.join(parts)`. */
  function Join(parts: seq<string>, sep: string): string
    decreases |parts|
  {
    if parts == [] then ""
    else if |parts| == 1 then parts[0]
    else parts[0] + sep + Join(parts[1..], sep)
  }

  /** Joining two non-empty lists is joining each and putting the separator
      between them. */
  lemma {:induction false} JoinAppend(xs: seq<string>, ys: seq<string>, sep: string)
    requires xs != [] && ys != []
    ensures Join(xs + ys, sep) == Join(xs, sep) + sep + Join(ys, sep)
    decreases |xs|
  {
    if |xs| == 1 {
      assert xs + ys == [xs[0]] + ys;
      JoinCons(xs[0], ys, sep);
    } else {
      var tail := xs[1..];
      JoinAppend(tail, ys, sep);
      assert xs + ys == [xs[0]] + (tail + ys);
      JoinCons(xs[0], tail + ys, sep);
      assert Join(xs, sep) == xs[0] + sep + Join(tail, sep);
    }
  }

  /** `Join` of one part before a non-empty list. */
  lemma JoinCons(w: string, ws: seq<string>, sep: string)
    requires ws != []
    ensures Join([w] + ws, sep) == w + sep + Join(ws, sep)
  {
    assert ([w] + ws)[1..] == ws;
  }

  /** Joining lines with '\n' and splitting the text again gives the lines
      back, when no line holds a boundary and the last one is not empty. */
  lemma {:induction false} SplitLinesJoin(lines: seq<string>)
    requires lines != [] && lines[|lines| - 1] != []
    requires forall l :: l in lines ==> NoLineBreak(l)
    ensures SplitLines(Join(lines, "\n")) == lines
    decreases |lines|
  {
    var first := lines[0];
    assert first in lines;
    if |lines| == 1 {
      RunLengthUnique(first, 0, |first|, NotLineBreak);
    } else {
      var tail := lines[1..];
      assert Join(lines, "\n") == first + "\n" + Join(tail, "\n");
      SplitLinesCons(first, Join(tail, "\n"));
      assert tail[|tail| - 1] == lines[|lines| - 1];
      assert forall l :: l in tail ==> l in lines;
      SplitLinesJoin(tail);
      assert lines == [first] + tail;
    }
  }

  /** A line without a boundary, then "\n": that line comes first. */
  lemma SplitLinesCons(first: string, rest: string)
    requires NoLineBreak(first)
    ensures SplitLines(first + "\n" + rest) == [first] + SplitLines(rest)
  {
    var s := first + "\n" + rest;
    RunLengthUnique(s, 0, |first|, NotLineBreak);
    assert s[|first|] == '\n';
    assert s[..|first|] == first;
    assert s[|first| + 1..] == rest;
  }

  // ---------------------------------------------------------------- words

  predicate IsSpace(c: char)
  {
    c == ' '
  }

  predicate NotSpace(c: char)
  {
    c != ' '
  }

  predicate NoSpace(s: string)
  {
    forall i :: 0 <= i < |s| ==> NotSpace(s[i])
  }

  /** The words `/bin/sh` sees in a command line made of shell-literal
      characters and spaces (see IsShellLiteral): maximal runs of non-space
      characters, in order. On such a line field splitting at spaces is all
      the shell does; quoting, expansions and command separators do not
      arise. */
  function Words(s: string): (ws: seq<string>)
    ensures forall w :: w in ws ==> w != [] && NoSpace(w)
    decreases |s|
  {
    if s == [] then []
    else if s[0] == ' ' then Words(s[1..])
    else
      var n := RunLength(s, 0, NotSpace);
      [s[..n]] + Words(s[n..])
  }

  /** A word, a space and the rest: the word comes first, then the words of
      the rest. */
  lemma WordsCons(w: string, rest: string)
    requires w != [] && NoSpace(w)
    ensures Words(w + " " + rest) == [w] + Words(rest)
  {
    var s := w + " " + rest;
    RunLengthUnique(s, 0, |w|, NotSpace);
    assert s[..|w|] == w;
    assert s[|w|..] == " " + rest;
    assert (" " + rest)[1..] == rest;
  }

  /** A single word is its own only word. */
  lemma WordsOne(w: string)
    requires w != [] && NoSpace(w)
    ensures Words(w) == [w]
  {
    RunLengthUnique(w, 0, |w|, NotSpace);
    assert w[..|w|] == w;
    assert Words(w[|w|..]) == [];
  }

  /** A command line built by joining non-empty, space-free words with single
      spaces splits back into exactly those words. */
  lemma {:induction false} WordsJoin(ws: seq<string>)
    requires forall w :: w in ws ==> w != [] && NoSpace(w)
    ensures Words(Join(ws, " ")) == ws
    decreases |ws|
  {
    if ws == [] {
    } else if |ws| == 1 {
      assert ws[0] in ws;
      WordsOne(ws[0]);
    } else {
      var w := ws[0];
      assert w in ws;
      assert forall v :: v in ws[1..] ==> v in ws;
      WordsJoin(ws[1..]);
      assert ws == [w] + ws[1..];
      JoinCons(w, ws[1..], " ");
      WordsCons(w, Join(ws[1..], " "));
    }
  }

  /** Characters `/bin/sh` takes literally in an unquoted word: letters,
      digits and `-_./:`. Quotes, `$`, `;`, `|`, `&`, glob and redirection
      characters and every kind of white space are not among them. */
  predicate IsShellLiteral(c: char)
  {
    ('a' <= c <= 'z') || ('A' <= c <= 'Z') || ('0' <= c <= '9') ||
    c == '-' || c == '_' || c == '.' || c == '/' || c == ':'
  }

  /** A non-empty word of shell-literal characters. */
  predicate IsShellWord(w: string)
  {
    w != [] && forall i :: 0 <= i < |w| ==> IsShellLiteral(w[i])
  }

  /** Shell-literal characters and spaces only. */
  predicate IsPlainCommandLine(s: string)
  {
    forall i :: 0 <= i < |s| ==> IsShellLiteral(s[i]) || s[i] == ' '
  }

  /** Joining shell words with single spaces gives a command line of
      shell-literal characters and spaces, which the shell only splits. */
  lemma {:induction false} JoinShellWords(ws: seq<string>)
    requires forall w :: w in ws ==> IsShellWord(w)
    ensures IsPlainCommandLine(Join(ws, " "))
    decreases |ws|
  {
    if |ws| > 1 {
      var w := ws[0];
      assert w in ws;
      assert forall v :: v in ws[1..] ==> v in ws;
      JoinShellWords(ws[1..]);
      var rest := Join(ws[1..], " ");
      assert Join(ws, " ") == w + " " + rest;
      forall i | 0 <= i < |w + " " + rest|
        ensures IsShellLiteral((w + " " + rest)[i]) || (w + " " + rest)[i] == ' '
      {
        if i > |w| {
          assert (w + " " + rest)[i] == rest[i - |w| - 1];
        }
      }
    } else if |ws| == 1 {
      assert ws[0] in ws;
    }
  }

  /** A shell word is a non-empty word without spaces. */
  lemma ShellWordIsWord(w: string)
    requires IsShellWord(w)
    ensures w != [] && NoSpace(w)
  {
    forall i | 0 <= i < |w|
      ensures NotSpace(w[i])
    {
      assert IsShellLiteral(w[i]);
    }
  }
}
