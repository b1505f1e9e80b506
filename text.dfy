/**
 * Character-level helpers used by the argument lexer and the dotted-syntax
 * normaliser: stripping a set of characters from both ends (Python's
 * `str.strip(chars)`), whitespace splitting (the stand-in for POSIX
 * `shlex.split`), first occurrence of a character (`re.search(r"\.")`) and
 * the leftmost lazy group `open .*? close` (`re.search(r"\{(.*?)\}")` and its
 * bracket and parenthesis variants, where `.` does not match a newline).
 */
module Text {
  import opened Wrappers

  /** The characters POSIX-mode `shlex` splits on. */
  const Whitespace: set<char> := {' ', '\t', '\r', '\n'}

  /** A non-empty run of non-whitespace characters. */
  predicate IsWord(w: string) {
    |w| > 0 && forall i :: 0 <= i < |w| ==> w[i] !in Whitespace
  }

  // ---------------------------------------------------------------------
  // str.strip(chars)

  /** The length of the longest prefix of `s` made of `chars`. */
  function Leading(s: string, chars: set<char>): (n: nat)
    ensures n <= |s|
    ensures forall i :: 0 <= i < n ==> s[i] in chars
    ensures n == |s| || s[n] !in chars
  {
    if s != [] && s[0] in chars then 1 + Leading(s[1..], chars) else 0
  }

  /** The length of the longest suffix of `s` made of `chars`. */
  function Trailing(s: string, chars: set<char>): (n: nat)
    ensures n <= |s|
    ensures forall i :: |s| - n <= i < |s| ==> s[i] in chars
    ensures n == |s| || s[|s| - n - 1] !in chars
  {
    if s != [] && s[|s| - 1] in chars then 1 + Trailing(s[..|s| - 1], chars) else 0
  }

  /** Python's `s.lstrip(chars)`. */
  function LStrip(s: string, chars: set<char>): (t: string)
    ensures |t| <= |s|
    ensures t == [] || t[0] !in chars
  {
    s[Leading(s, chars)..]
  }

  /** Python's `s.rstrip(chars)`. */
  function RStrip(s: string, chars: set<char>): string {
    s[..|s| - Trailing(s, chars)]
  }

  /** Python's `s.strip(chars)`: both ends. */
  function Strip(s: string, chars: set<char>): string {
    RStrip(LStrip(s, chars), chars)
  }

  /** The result of `Strip` is the run of its input starting at `a` whose
      surroundings are made of `chars` only, and neither of its ends is in
      `chars`. */
  lemma StripIsTrimmedSlice(s: string, chars: set<char>) returns (a: nat)
    ensures var t := Strip(s, chars);
      a + |t| <= |s|
      && (forall k :: 0 <= k < |t| ==> t[k] == s[a + k])
      && (t == [] || (t[0] !in chars && t[|t| - 1] !in chars))
      && (forall i :: 0 <= i < a ==> s[i] in chars)
      && (forall i :: a + |t| <= i < |s| ==> s[i] in chars)
  {
    a := Leading(s, chars);
    var u := s[a..];
    var b := Trailing(u, chars);
    var t := u[..|u| - b];
    assert t == Strip(s, chars);
    assert forall i :: a + |t| <= i < |s| ==> s[i] == u[i - a];
  }

  /** A string whose ends are not in `chars` is left alone. */
  lemma StripKeeps(s: string, chars: set<char>)
    requires s == [] || (s[0] !in chars && s[|s| - 1] !in chars)
    ensures Strip(s, chars) == s
  {
  }

  /** Stripping twice is stripping once. */
  lemma StripIdempotent(s: string, chars: set<char>)
    ensures Strip(Strip(s, chars), chars) == Strip(s, chars)
  {
    var _ := StripIsTrimmedSlice(s, chars);
    StripKeeps(Strip(s, chars), chars);
  }

  // ---------------------------------------------------------------------
  // whitespace splitting

  /** The longest prefix of `s` free of whitespace. */
  function WordPrefix(s: string): (w: string)
    ensures w <= s
    ensures forall i :: 0 <= i < |w| ==> w[i] !in Whitespace
    ensures |w| < |s| ==> s[|w|] in Whitespace
  {
    if s == [] || s[0] in Whitespace then [] else [s[0]] + WordPrefix(s[1..])
  }

  /** The whitespace-separated words of `s`, in order. */
  function Words(s: string): (ws: seq<string>)
    ensures forall i :: 0 <= i < |ws| ==> IsWord(ws[i])
    decreases |s|
  {
    var t := LStrip(s, Whitespace);
    if t == [] then []
    else
      var w := WordPrefix(t);
      [w] + Words(t[|w|..])
  }

  /** Joins words with single blanks. */
  function Unwords(ws: seq<string>): string {
    if ws == [] then ""
    else if |ws| == 1 then ws[0]
    else ws[0] + (" " + Unwords(ws[1..]))
  }

  lemma WordPrefixOf(w: string, rest: string)
    requires IsWord(w)
    requires rest == [] || rest[0] in Whitespace
    ensures WordPrefix(w + rest) == w
  {
    if |w| > 1 {
      assert (w + rest)[1..] == w[1..] + rest;
      WordPrefixOf(w[1..], rest);
    } else {
      assert (w + rest)[1..] == rest;
    }
  }

  /** A word followed by nothing or by whitespace is split off first. */
  lemma WordsCons(w: string, rest: string)
    requires IsWord(w)
    requires rest == [] || rest[0] in Whitespace
    ensures Words(w + rest) == [w] + Words(rest)
  {
    var s := w + rest;
    assert s[0] == w[0];
    assert Leading(s, Whitespace) == 0;
    WordPrefixOf(w, rest);
    assert s[|w|..] == rest;
  }

  /** A leading blank does not change the split. */
  lemma WordsBlank(rest: string)
    ensures Words(" " + rest) == Words(rest)
  {
    var s := " " + rest;
    assert s[1..] == rest;
    assert Leading(s, Whitespace) == 1 + Leading(rest, Whitespace);
    assert s[1 + Leading(rest, Whitespace)..] == rest[Leading(rest, Whitespace)..];
  }

  /** Splitting a blank-joined list of words gives the words back. */
  lemma {:induction false} WordsOfUnwords(ws: seq<string>)
    requires forall i :: 0 <= i < |ws| ==> IsWord(ws[i])
    ensures Words(Unwords(ws)) == ws
  {
    if ws == [] {
    } else if |ws| == 1 {
      assert ws[0] + [] == ws[0];
      WordsCons(ws[0], []);
    } else {
      var rest := Unwords(ws[1..]);
      assert ws == [ws[0]] + ws[1..];
      calc {
        Words(Unwords(ws));
        Words(ws[0] + (" " + rest));
        { WordsCons(ws[0], " " + rest); }
        [ws[0]] + Words(" " + rest);
        { WordsBlank(rest); }
        [ws[0]] + Words(rest);
        { WordsOfUnwords(ws[1..]); }
        [ws[0]] + ws[1..];
      }
    }
  }

  /** Nothing but whitespace (possibly nothing at all). */
  predicate Blank(g: string) {
    forall i :: 0 <= i < |g| ==> g[i] in Whitespace
  }

  /** Words laid out between whitespace gaps:
      `gaps[0] + ws[0] + gaps[1] + ... + ws[n - 1] + gaps[n]`. */
  function Spaced(ws: seq<string>, gaps: seq<string>): string
    requires |gaps| == |ws| + 1
  {
    if ws == [] then gaps[0] else gaps[0] + (ws[0] + Spaced(ws[1..], gaps[1..]))
  }

  /** Gaps that separate words: all whitespace, the inner ones non-empty,
      the outer ones possibly empty. */
  predicate Gaps(gaps: seq<string>) {
    (forall i :: 0 <= i < |gaps| ==> Blank(gaps[i]))
    && (forall i :: 0 < i < |gaps| - 1 ==> gaps[i] != [])
  }

  lemma {:induction false} LeadingBlank(g: string, rest: string)
    requires Blank(g)
    ensures Leading(g + rest, Whitespace) == |g| + Leading(rest, Whitespace)
  {
    if g != [] {
      assert (g + rest)[0] == g[0] && g[0] in Whitespace;
      assert (g + rest)[1..] == g[1..] + rest;
      assert Blank(g[1..]) by {
        forall i | 0 <= i < |g| - 1 ensures g[1..][i] in Whitespace {
          assert g[1..][i] == g[i + 1];
        }
      }
      LeadingBlank(g[1..], rest);
    } else {
      assert g + rest == rest;
    }
  }

  /** Leading whitespace, of any kind and length, does not change the split. */
  lemma WordsAfterBlank(g: string, rest: string)
    requires Blank(g)
    ensures Words(g + rest) == Words(rest)
  {
    var s := g + rest;
    var n := Leading(rest, Whitespace);
    LeadingBlank(g, rest);
    assert s[|g| + n..] == rest[n..];
    assert LStrip(s, Whitespace) == LStrip(rest, Whitespace);
  }

  /** What follows the first word of a layout is empty or starts with
      whitespace. */
  lemma SpacedAfterWord(ws: seq<string>, gaps: seq<string>)
    requires |gaps| == |ws| + 1 && Gaps(gaps) && ws != []
    ensures var rest := Spaced(ws[1..], gaps[1..]); rest == [] || rest[0] in Whitespace
  {
    if |ws| > 1 {
      assert gaps[1] != [];
      assert Spaced(ws[1..], gaps[1..]) == gaps[1] + (ws[1..][0] + Spaced(ws[1..][1..], gaps[1..][1..]));
    } else {
      assert Spaced(ws[1..], gaps[1..]) == gaps[1];
    }
  }

  lemma GapsTail(gaps: seq<string>)
    requires Gaps(gaps) && gaps != []
    ensures Gaps(gaps[1..])
  {
    forall i | 0 <= i < |gaps| - 1 ensures Blank(gaps[1..][i]) && (0 < i < |gaps| - 2 ==> gaps[1..][i] != []) {
      assert gaps[1..][i] == gaps[i + 1];
    }
  }

  /** Splitting words laid out between any whitespace gaps gives the words. */
  lemma {:induction false} WordsOfSpaced(ws: seq<string>, gaps: seq<string>)
    requires |gaps| == |ws| + 1 && Gaps(gaps)
    requires forall i :: 0 <= i < |ws| ==> IsWord(ws[i])
    ensures Words(Spaced(ws, gaps)) == ws
  {
    if ws == [] {
      assert gaps[0] + [] == gaps[0];
      WordsAfterBlank(gaps[0], []);
    } else {
      var rest := Spaced(ws[1..], gaps[1..]);
      SpacedAfterWord(ws, gaps);
      GapsTail(gaps);
      WordsAfterBlank(gaps[0], ws[0] + rest);
      WordsCons(ws[0], rest);
      WordsOfSpaced(ws[1..], gaps[1..]);
      assert ws == [ws[0]] + ws[1..];
    }
  }

  /** One step of the split: the leading whitespace, the first word, and
      the rest, which is empty or starts with whitespace. */
  lemma WordsStep(s: string)
    requires LStrip(s, Whitespace) != []
    ensures var n := Leading(s, Whitespace); var t := s[n..]; var w := WordPrefix(t); var rest := t[|w|..];
      && s == s[..n] + (w + rest)
      && Words(s) == [w] + Words(rest)
      && (rest == [] || rest[0] in Whitespace)
  {
    var n := Leading(s, Whitespace);
    var t := s[n..];
    assert t == LStrip(s, Whitespace);
    var w := WordPrefix(t);
    var rest := t[|w|..];
    assert s == s[..n] + (w + rest) by {
      assert t == w + rest;
      assert s == s[..n] + t;
    }
    assert Words(s) == [w] + Words(rest);
    assert rest == [] || rest[0] in Whitespace by {
      if rest != [] {
        assert rest[0] == t[|w|];
      }
    }
  }

  lemma SpacedCons(g: string, w: string, ws: seq<string>, gs: seq<string>)
    requires |gs| == |ws| + 1
    ensures Spaced([w] + ws, [g] + gs) == g + (w + Spaced(ws, gs))
  {
    assert ([w] + ws)[1..] == ws && ([g] + gs)[1..] == gs;
  }

  lemma GapsCons(g: string, gs: seq<string>)
    requires Blank(g) && Gaps(gs)
    requires |gs| > 1 ==> gs[0] != []
    ensures Gaps([g] + gs)
  {
    var all := [g] + gs;
    forall i | 0 <= i < |all| ensures Blank(all[i]) {
      if i > 0 {
        assert all[i] == gs[i - 1];
      }
    }
    forall i | 0 < i < |all| - 1 ensures all[i] != [] {
      assert all[i] == gs[i - 1];
    }
  }

  /** Conversely, every string is its words laid out between whitespace
      gaps, the first gap being its leading whitespace. */
  lemma {:induction false} SpacedWords(s: string) returns (gaps: seq<string>)
    ensures |gaps| == |Words(s)| + 1 && Gaps(gaps)
    ensures gaps[0] == s[..Leading(s, Whitespace)]
    ensures Spaced(Words(s), gaps) == s
    decreases |s|
  {
    var n := Leading(s, Whitespace);
    var g := s[..n];
    if LStrip(s, Whitespace) == [] {
      gaps := [s];
      assert g == s;
    } else {
      WordsStep(s);
      var w := WordPrefix(s[n..]);
      var rest := s[n..][|w|..];
      var gs := SpacedWords(rest);
      gaps := [g] + gs;
      assert |gs| > 1 ==> gs[0] != [] by {
        if |gs| > 1 {
          assert rest != [] && rest[0] in Whitespace;
          assert Leading(rest, Whitespace) >= 1;
        }
      }
      GapsCons(g, gs);
      SpacedCons(g, w, Words(rest), gs);
    }
  }

  /** The split is exactly the decomposition into words and separating
      whitespace: `Words(s) == ws` if and only if `s` lays out `ws`
      between gaps of whitespace. */
  lemma WordsExact(s: string, ws: seq<string>)
    requires forall i :: 0 <= i < |ws| ==> IsWord(ws[i])
    ensures Words(s) == ws <==> exists gaps :: |gaps| == |ws| + 1 && Gaps(gaps) && Spaced(ws, gaps) == s
  {
    if Words(s) == ws {
      var gaps := SpacedWords(s);
    }
    if exists gaps :: |gaps| == |ws| + 1 && Gaps(gaps) && Spaced(ws, gaps) == s {
      var gaps :| |gaps| == |ws| + 1 && Gaps(gaps) && Spaced(ws, gaps) == s;
      WordsOfSpaced(ws, gaps);
    }
  }

  // ---------------------------------------------------------------------
  // first occurrence of a character

  function FirstIndex(s: string, c: char): (r: Option<nat>)
    ensures r.Some? ==> r.value < |s| && s[r.value] == c && forall k :: 0 <= k < r.value ==> s[k] != c
    ensures r.None? <==> c !in s
  {
    if s == [] then None
    else if s[0] == c then Some(0)
    else match FirstIndex(s[1..], c)
      case None => None
      case Some(d) => Some(d + 1)
  }

  // ---------------------------------------------------------------------
  // the leftmost lazy group `open .*? close`

  /** No `close` and no newline at positions a .. b - 1. */
  ghost predicate Clean(s: string, close: char, a: int, b: int)
    requires 0 <= a && b <= |s|
  {
    forall k :: a <= k < b ==> s[k] != close && s[k] != '\n'
  }

  /** `s[i..e]` is a match of `open .*? close` starting at i: it opens at i,
      closes at the first `close` after i, with no newline in between. */
  ghost predicate GroupAt(s: string, open: char, close: char, i: int, e: int) {
    0 <= i && i + 2 <= e <= |s| && s[i] == open && s[e - 1] == close
    && Clean(s, close, i + 1, e - 1)
  }

  /** The match a regular-expression search reports: the leftmost one. */
  ghost predicate FirstGroup(s: string, open: char, close: char, i: int, e: int) {
    GroupAt(s, open, close, i, e)
    && forall i', e' :: 0 <= i' < i ==> !GroupAt(s, open, close, i', e')
  }

  /** Scans from j for the first `close`, giving up at a newline. */
  function CloseFrom(s: string, close: char, j: nat): (r: Option<nat>)
    requires j <= |s|
    ensures r.Some? ==> j <= r.value < |s|
    decreases |s| - j
  {
    if j == |s| || s[j] == '\n' then None
    else if s[j] == close then Some(j)
    else CloseFrom(s, close, j + 1)
  }

  /** Scans from i for the first `open` that is followed by a match. */
  function GroupFrom(s: string, open: char, close: char, i: nat): (r: Option<(nat, nat)>)
    requires i <= |s|
    ensures r.Some? ==> i <= r.value.0 && r.value.0 + 2 <= r.value.1 <= |s|
    decreases |s| - i
  {
    if i == |s| then None
    else if s[i] == open && CloseFrom(s, close, i + 1).Some? then
      Some((i, CloseFrom(s, close, i + 1).value + 1))
    else GroupFrom(s, open, close, i + 1)
  }

  function FindGroup(s: string, open: char, close: char): (r: Option<(nat, nat)>)
    ensures r.Some? ==> r.value.0 + 2 <= r.value.1 <= |s|
  {
    GroupFrom(s, open, close, 0)
  }

  lemma {:induction false} CloseFromExact(s: string, close: char, j: nat, e: int)
    requires j <= e < |s| && close != '\n'
    ensures CloseFrom(s, close, j) == Some(e) <==> (s[e] == close && Clean(s, close, j, e))
    decreases e - j
  {
    if j < e {
      if s[j] != close && s[j] != '\n' {
        CloseFromExact(s, close, j + 1, e);
      }
    }
  }

  /** An `open` at i starts a match exactly when the scan from i + 1 finds
      its `close`. */
  lemma GroupAtByScan(s: string, open: char, close: char, i: int, e: int)
    requires close != '\n' && 0 <= i < |s| && i + 2 <= e <= |s|
    ensures GroupAt(s, open, close, i, e)
      <==> s[i] == open && CloseFrom(s, close, i + 1) == Some(e - 1)
  {
    CloseFromExact(s, close, i + 1, e - 1);
  }

  lemma {:induction false} GroupFromExact(s: string, open: char, close: char, i: nat)
    requires i <= |s| && close != '\n'
    ensures forall a, e ::
      (GroupFrom(s, open, close, i) == Some((a, e))
       <==> (i <= a && GroupAt(s, open, close, a, e)
             && forall a', e' :: i <= a' < a ==> !GroupAt(s, open, close, a', e')))
    ensures GroupFrom(s, open, close, i) == None
      <==> forall a, e :: i <= a ==> !GroupAt(s, open, close, a, e)
    decreases |s| - i
  {
    if i < |s| {
      GroupFromExact(s, open, close, i + 1);
      forall e | i + 2 <= e <= |s| {
        GroupAtByScan(s, open, close, i, e);
      }
      if s[i] == open && CloseFrom(s, close, i + 1).Some? {
        var e := CloseFrom(s, close, i + 1).value + 1;
        assert GroupAt(s, open, close, i, e);
        forall a, e' | GroupAt(s, open, close, a, e') && a == i ensures e' == e {
          GroupAtByScan(s, open, close, i, e');
        }
      } else {
        forall e | GroupAt(s, open, close, i, e) ensures false {
          GroupAtByScan(s, open, close, i, e);
        }
      }
    }
  }

  /** `FindGroup` reports exactly the leftmost match, and nothing when
      there is none. */
  lemma FindGroupSpec(s: string, open: char, close: char)
    requires close != '\n'
    ensures forall i, e :: FindGroup(s, open, close) == Some((i, e)) <==> FirstGroup(s, open, close, i, e)
    ensures FindGroup(s, open, close) == None <==> forall i, e :: !GroupAt(s, open, close, i, e)
  {
    GroupFromExact(s, open, close, 0);
  }

  /** The leftmost match is the one `FindGroup` reports. */
  lemma FindGroupOf(s: string, open: char, close: char, i: int, e: int)
    requires close != '\n' && FirstGroup(s, open, close, i, e)
    ensures FindGroup(s, open, close) == Some((i, e))
  {
    FindGroupSpec(s, open, close);
  }

  /** The position `FindGroup` reports is the leftmost match. */
  lemma FindGroupFirst(s: string, open: char, close: char)
    requires close != '\n' && FindGroup(s, open, close).Some?
    ensures FirstGroup(s, open, close, FindGroup(s, open, close).value.0, FindGroup(s, open, close).value.1)
  {
    FindGroupSpec(s, open, close);
  }

  /** Without an `open` character there is no match. */
  lemma NoOpenNoGroup(s: string, open: char, close: char)
    requires open !in s
    ensures forall i, e :: !GroupAt(s, open, close, i, e)
  {
  }
}
