/**
 * The argument lexer `fparse` (console.py:16-31): an argument string becomes
 * a token list. The first `{...}` group, or failing that the first `[...]`
 * group, is kept verbatim as the last token; the text before it is split
 * into words, each with commas stripped from both ends; any text after the
 * group is dropped.
 */
module Lexer {
  import opened Wrappers
  import opened Text

  const Commas: set<char> := {','}

  /** Each word with commas stripped from both ends (`f.strip(",")`). */
  function StripEach(ws: seq<string>): (ts: seq<string>)
    ensures |ts| == |ws|
    ensures forall i :: 0 <= i < |ws| ==> ts[i] == Strip(ws[i], Commas)
  {
    seq(|ws|, i requires 0 <= i < |ws| => Strip(ws[i], Commas))
  }

  function Fparse(arg: string): (tokens: seq<string>)
    ensures arg == [] ==> tokens == []
  {
    match FindGroup(arg, '{', '}')
    case Some((i, e)) => StripEach(Words(arg[..i])) + [arg[i..e]]
    case None =>
      match FindGroup(arg, '[', ']')
      case Some((i, e)) => StripEach(Words(arg[..i])) + [arg[i..e]]
      case None => StripEach(Words(arg))
  }

  /** A token the splitter produced: no whitespace, no comma at either end
      (it may be empty when the word was all commas). */
  predicate PlainToken(t: string) {
    (forall k :: 0 <= k < |t| ==> t[k] !in Whitespace)
    && (t == [] || (t[0] != ',' && t[|t| - 1] != ','))
  }

  lemma StrippedWordsArePlain(ws: seq<string>)
    requires forall i :: 0 <= i < |ws| ==> IsWord(ws[i])
    ensures forall i :: 0 <= i < |ws| ==> PlainToken(StripEach(ws)[i])
  {
    forall i | 0 <= i < |ws| ensures PlainToken(StripEach(ws)[i]) {
      StrippedWordIsPlain(ws[i]);
    }
  }

  lemma StrippedWordIsPlain(w: string)
    requires IsWord(w)
    ensures PlainToken(Strip(w, Commas))
  {
    var a := StripIsTrimmedSlice(w, Commas);
  }

  /** Brace case: when a `{...}` group occurs, the tokens are the stripped
      words before the leftmost group followed by that group, braces
      included; brackets play no part. */
  lemma FparseBrace(arg: string, i: int, e: int)
    requires FirstGroup(arg, '{', '}', i, e)
    ensures Fparse(arg) == StripEach(Words(arg[..i])) + [arg[i..e]]
    ensures |Fparse(arg)| >= 1 && Fparse(arg)[|Fparse(arg)| - 1] == arg[i..e]
    ensures forall k :: 0 <= k < |Fparse(arg)| - 1 ==> PlainToken(Fparse(arg)[k])
  {
    FindGroupSpec(arg, '{', '}');
    StrippedWordsArePlain(Words(arg[..i]));
  }

  /** Bracket case: with no `{...}` group, the first `[...]` group is the
      trailing token after the stripped words that precede it. */
  lemma FparseBracket(arg: string, i: int, e: int)
    requires forall i', e' :: !GroupAt(arg, '{', '}', i', e')
    requires FirstGroup(arg, '[', ']', i, e)
    ensures Fparse(arg) == StripEach(Words(arg[..i])) + [arg[i..e]]
    ensures forall k :: 0 <= k < |Fparse(arg)| - 1 ==> PlainToken(Fparse(arg)[k])
  {
    FindGroupSpec(arg, '{', '}');
    FindGroupSpec(arg, '[', ']');
    StrippedWordsArePlain(Words(arg[..i]));
  }

  /** Plain case: with neither kind of group, every token is a split word
      with its commas stripped. */
  lemma FparsePlain(arg: string)
    requires forall i, e :: !GroupAt(arg, '{', '}', i, e)
    requires forall i, e :: !GroupAt(arg, '[', ']', i, e)
    ensures Fparse(arg) == StripEach(Words(arg))
    ensures forall k :: 0 <= k < |Fparse(arg)| ==> PlainToken(Fparse(arg)[k])
  {
    FindGroupSpec(arg, '{', '}');
    FindGroupSpec(arg, '[', ']');
    StrippedWordsArePlain(Words(arg));
  }

  /** A group found in `arg` is still the leftmost one in `arg + rest`. */
  lemma FirstGroupExtends(arg: string, rest: string, open: char, close: char, i: int, e: int)
    requires FirstGroup(arg, open, close, i, e)
    ensures FirstGroup(arg + rest, open, close, i, e)
  {
    var s := arg + rest;
    forall i', e' | 0 <= i' < i ensures !GroupAt(s, open, close, i', e') {
      if GroupAt(s, open, close, i', e') {
        assert e' <= e by {
          assert s[e - 1] == arg[e - 1];
        }
        assert forall k :: 0 <= k < e' ==> s[k] == arg[k];
        assert GroupAt(arg, open, close, i', e');
      }
    }
  }

  /** Text after the first brace group is dropped. */
  lemma FparseIgnoresTail(arg: string, rest: string)
    requires FindGroup(arg, '{', '}').Some?
    ensures Fparse(arg + rest) == Fparse(arg)
  {
    FindGroupSpec(arg, '{', '}');
    var i := FindGroup(arg, '{', '}').value.0;
    var e := FindGroup(arg, '{', '}').value.1;
    assert FirstGroup(arg, '{', '}', i, e);
    FirstGroupExtends(arg, rest, '{', '}', i, e);
    var s := arg + rest;
    assert s[..i] == arg[..i] && s[i..e] == arg[i..e];
    FparseBrace(s, i, e);
    FparseBrace(arg, i, e);
  }

  /** The words a canonical command line carries: non-empty, no whitespace,
      no comma at either end, no brace or bracket. */
  predicate SimpleToken(t: string) {
    IsWord(t) && t[0] != ',' && t[|t| - 1] != ',' && '{' !in t && '[' !in t
  }

  /** A word free of braces and brackets. */
  predicate LiteralFree(w: string) {
    IsWord(w) && '{' !in w && '[' !in w
  }

  /** Fparse of blank-joined words without braces or brackets strips the
      commas off each word. */
  lemma FparseWords(ws: seq<string>)
    requires forall i :: 0 <= i < |ws| ==> LiteralFree(ws[i])
    ensures Fparse(Unwords(ws)) == StripEach(ws)
  {
    var s := Unwords(ws);
    assert Fparse(s) == StripEach(Words(s)) by {
      UnwordsChars(ws, '{');
      UnwordsChars(ws, '[');
      NoOpenNoGroup(s, '{', '}');
      NoOpenNoGroup(s, '[', ']');
      FparsePlain(s);
    }
    assert Words(s) == ws by {
      WordsOfUnwords(ws);
    }
  }

  /** Fparse of blank-joined simple tokens gives the tokens back. */
  lemma FparseUnwords(ws: seq<string>)
    requires forall i :: 0 <= i < |ws| ==> SimpleToken(ws[i])
    ensures Fparse(Unwords(ws)) == ws
  {
    FparseWords(ws);
    forall i | 0 <= i < |ws| ensures StripEach(ws)[i] == ws[i] {
      StripKeeps(ws[i], Commas);
    }
  }

  /** A comma after a simple token is stripped off again. */
  lemma StripTrailingComma(w: string)
    requires SimpleToken(w)
    ensures Strip(w + ",", Commas) == w
  {
    var s := w + ",";
    assert s[0] == w[0];
    assert Leading(s, Commas) == 0;
    assert s[..|s| - 1] == w;
    assert Trailing(s, Commas) == 1;
    assert s[..|s| - 1] == w;
  }

  /** Words written as a comma-separated list, `a, b, c`: each word but the
      last followed by a comma. */
  function Commaed(ws: seq<string>): (cs: seq<string>)
    ensures |cs| == |ws|
    ensures forall i :: 0 <= i < |ws| - 1 ==> cs[i] == ws[i] + ","
    ensures ws != [] ==> cs[|ws| - 1] == ws[|ws| - 1]
  {
    seq(|ws|, i requires 0 <= i < |ws| => if i < |ws| - 1 then ws[i] + "," else ws[i])
  }

  /** Stripping the commas of a comma-separated list of simple tokens gives
      the tokens back. */
  lemma StripEachCommaed(ws: seq<string>)
    requires forall i :: 0 <= i < |ws| ==> SimpleToken(ws[i])
    ensures forall i :: 0 <= i < |ws| ==> LiteralFree(Commaed(ws)[i])
    ensures StripEach(Commaed(ws)) == ws
  {
    var cs := Commaed(ws);
    forall i | 0 <= i < |cs| ensures LiteralFree(cs[i]) && StripEach(cs)[i] == ws[i] {
      if i < |ws| - 1 {
        assert cs[i] == ws[i] + ",";
        assert '{' !in cs[i] && '[' !in cs[i];
        StripTrailingComma(ws[i]);
      } else {
        StripKeeps(ws[i], Commas);
      }
    }
  }

  /** A comma-separated list of simple tokens after a leading simple token
      lexes to all the tokens: the argument string `C a, b, c`. */
  lemma FparseCommaed(cls: string, ws: seq<string>)
    requires SimpleToken(cls)
    requires forall i :: 0 <= i < |ws| ==> SimpleToken(ws[i])
    ensures Fparse(Unwords([cls] + Commaed(ws))) == [cls] + ws
  {
    var cs := Commaed(ws);
    var all := [cls] + cs;
    StripEachCommaed(ws);
    forall i | 0 <= i < |all| ensures LiteralFree(all[i]) && StripEach(all)[i] == ([cls] + ws)[i] {
      if i == 0 {
        StripKeeps(cls, Commas);
      } else {
        assert all[i] == cs[i - 1];
        assert StripEach(cs)[i - 1] == ws[i - 1];
      }
    }
    FparseWords(all);
  }

  /** A character that no word holds is not in their blank-joined form. */
  lemma {:induction false} UnwordsChars(ws: seq<string>, c: char)
    requires c != ' '
    requires forall i :: 0 <= i < |ws| ==> c !in ws[i]
    ensures c !in Unwords(ws)
  {
    if |ws| > 1 {
      UnwordsChars(ws[1..], c);
    }
  }

  /** A character other than the blank and the comma that no word holds is
      not in their comma-separated list. */
  lemma CommaedChars(ws: seq<string>, c: char)
    requires c != ' ' && c != ','
    requires forall i :: 0 <= i < |ws| ==> c !in ws[i]
    ensures c !in Unwords(Commaed(ws))
  {
    var cs := Commaed(ws);
    forall i | 0 <= i < |cs| ensures c !in cs[i] {
      if i < |ws| - 1 {
        assert cs[i] == ws[i] + ",";
      }
    }
    UnwordsChars(cs, c);
  }

  /** A simple token followed by one blank lexes to that token. */
  lemma FparseTrailingBlank(t: string)
    requires SimpleToken(t)
    ensures Fparse(t + " ") == [t]
  {
    var s := t + " ";
    assert '{' !in s && '[' !in s;
    NoOpenNoGroup(s, '{', '}');
    NoOpenNoGroup(s, '[', ']');
    FparsePlain(s);
    WordsCons(t, " ");
    WordsBlank([]);
    assert " " + [] == " ";
    StripKeeps(t, Commas);
  }
}
