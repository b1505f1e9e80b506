/**
 * The dotted-syntax normaliser `HBNBCommand.default` (console.py:56-75),
 * without the call it makes: `Class.method(args)` is taken apart at the
 * first `.` and at the leftmost `(...)` after it, and a method named in the
 * handler table becomes a call of that handler with `"Class args"`.
 * Anything else is unknown syntax.
 */
module Normaliser {
  import opened Wrappers
  import opened Text

  /** The handler table of `default` (console.py:58-64). */
  datatype Handler = DoAll | DoShow | DoDestroy | DoCount | DoUpdate

  const HandlerNames: set<string> := {"all", "show", "destroy", "count", "update"}

  function NameOf(h: Handler): string {
    match h
    case DoAll => "all"
    case DoShow => "show"
    case DoDestroy => "destroy"
    case DoCount => "count"
    case DoUpdate => "update"
  }

  /** Table lookup: the handler registered under `name`, if any. */
  function HandlerNamed(name: string): (h: Option<Handler>)
    ensures h.Some? <==> name in HandlerNames
    ensures h.Some? ==> NameOf(h.value) == name
  {
    if name == "all" then Some(DoAll)
    else if name == "show" then Some(DoShow)
    else if name == "destroy" then Some(DoDestroy)
    else if name == "count" then Some(DoCount)
    else if name == "update" then Some(DoUpdate)
    else None
  }

  /** Every handler is found under its own name. */
  lemma HandlerNamedOf(h: Handler)
    ensures HandlerNamed(NameOf(h)) == Some(h)
  {
  }

  /** The names in the table are plain words, without parentheses. */
  lemma HandlerNameLetters(name: string)
    requires name in HandlerNames
    ensures '(' !in name
  {
    forall k | 0 <= k < |name| ensures name[k] != '(' {
      if name == "all" {
      } else if name == "show" {
      } else if name == "destroy" {
      } else if name == "count" {
      } else {
        assert name == "update";
      }
    }
  }

  /** The pieces of `cls.name(args)tail`. */
  datatype CallParts = CallParts(cls: string, name: string, args: string, tail: string)

  /** The text after the first `.`: `name(args)tail`. */
  function AfterDot(p: CallParts): string {
    p.name + "(" + p.args + ")" + p.tail
  }

  /** `line` reads `cls.name(args)tail` where the `.` is the first one and
      `(args)` is the leftmost match of `\((.*?)\)` in the text after it. */
  ghost predicate Shaped(line: string, p: CallParts) {
    line == p.cls + "." + AfterDot(p)
    && '.' !in p.cls
    && FirstGroup(AfterDot(p), '(', ')', |p.name|, |p.name| + |p.args| + 2)
  }

  /** The two searches of `default` (console.py:65-70). */
  function Decompose(line: string): Option<CallParts> {
    var dot := FirstIndex(line, '.');
    if dot.None? then None
    else
      var rest := line[dot.value + 1..];
      var group := FindGroup(rest, '(', ')');
      if group.None? then None
      else
        var i, e := group.value.0, group.value.1;
        Some(CallParts(line[..dot.value], rest[..i], rest[i + 1..e - 1], rest[e..]))
  }

  /** What `default` does with a line: call a handler with an argument
      string, or report unknown syntax. */
  datatype Dispatch = NoCall | Call(handler: Handler, arg: string)

  function Normalise(line: string): Dispatch {
    match Decompose(line)
    case None => NoCall
    case Some(p) =>
      match HandlerNamed(p.name)
      case None => NoCall
      case Some(h) => Call(h, p.cls + " " + p.args)
  }

  lemma AfterDotSplit(p: CallParts)
    ensures var r := AfterDot(p);
      |r| == |p.name| + |p.args| + 2 + |p.tail|
      && r[..|p.name|] == p.name
      && r[|p.name|] == '('
      && r[|p.name| + 1..|p.name| + 1 + |p.args|] == p.args
      && r[|p.name| + 1 + |p.args|] == ')'
      && r[|p.name| + |p.args| + 2..] == p.tail
  {
  }

  /** The first `.` of `cls + "." + r` is the one after `cls` when `cls`
      has none. */
  lemma FirstDot(cls: string, r: string)
    requires '.' !in cls
    ensures var line := cls + "." + r;
      FirstIndex(line, '.') == Some(|cls|) && line[..|cls|] == cls && line[|cls| + 1..] == r
  {
    var line := cls + "." + r;
    assert line[|cls|] == '.' && line[..|cls|] == cls;
  }

  /** `Decompose` cuts at the dot and the group its two searches report. */
  lemma DecomposeAt(line: string, d: nat, i: nat, e: nat)
    requires FirstIndex(line, '.') == Some(d)
    requires FindGroup(line[d + 1..], '(', ')') == Some((i, e))
    ensures Decompose(line) == Some(CallParts(line[..d], line[d + 1..][..i], line[d + 1..][i + 1..e - 1], line[d + 1..][e..]))
  {
  }

  /** The pieces of a call shape are found again at their positions. */
  lemma PartsOfAfterDot(p: CallParts)
    ensures var r, i, e := AfterDot(p), |p.name|, |p.name| + |p.args| + 2;
      p == CallParts(p.cls, r[..i], r[i + 1..e - 1], r[e..])
  {
    AfterDotSplit(p);
  }

  /** The first dot of `cls.name(args)tail` is the one after `cls`. */
  lemma DotOfShape(line: string, p: CallParts)
    requires line == p.cls + "." + AfterDot(p) && '.' !in p.cls
    ensures FirstIndex(line, '.') == Some(|p.cls|)
    ensures |p.cls| < |line| && line[..|p.cls|] == p.cls && line[|p.cls| + 1..] == AfterDot(p)
  {
    FirstDot(p.cls, AfterDot(p));
  }

  /** Cutting `line` at the dot and at the group gives back the pieces. */
  lemma PartsAt(line: string, p: CallParts)
    requires |p.cls| < |line| && line[..|p.cls|] == p.cls && line[|p.cls| + 1..] == AfterDot(p)
    ensures var d, i, e := |p.cls|, |p.name|, |p.name| + |p.args| + 2;
      p == CallParts(line[..d], line[d + 1..][..i], line[d + 1..][i + 1..e - 1], line[d + 1..][e..])
  {
    PartsOfAfterDot(p);
  }

  /** In `cls.name(args)tail`, with no dot in `cls` and the group found
      where `(args)` is, the two searches stop at the pieces. */
  lemma ShapedAt(line: string, p: CallParts)
    requires line == p.cls + "." + AfterDot(p) && '.' !in p.cls
    requires FindGroup(AfterDot(p), '(', ')') == Some((|p.name|, |p.name| + |p.args| + 2))
    ensures var d, i, e := |p.cls|, |p.name|, |p.name| + |p.args| + 2;
      FirstIndex(line, '.') == Some(d)
      && FindGroup(line[d + 1..], '(', ')') == Some((i, e))
      && p == CallParts(line[..d], line[d + 1..][..i], line[d + 1..][i + 1..e - 1], line[d + 1..][e..])
  {
    DotOfShape(line, p);
    PartsAt(line, p);
  }

  /** `Decompose` returns `p` when the two searches stop at its pieces. */
  lemma DecomposeAtParts(line: string, p: CallParts)
    requires var d, i, e := |p.cls|, |p.name|, |p.name| + |p.args| + 2;
      FirstIndex(line, '.') == Some(d)
      && FindGroup(line[d + 1..], '(', ')') == Some((i, e))
      && p == CallParts(line[..d], line[d + 1..][..i], line[d + 1..][i + 1..e - 1], line[d + 1..][e..])
    ensures Decompose(line) == Some(p)
  {
    DecomposeAt(line, |p.cls|, |p.name|, |p.name| + |p.args| + 2);
  }

  lemma ShapedDecomposes(line: string, p: CallParts)
    requires Shaped(line, p)
    ensures Decompose(line) == Some(p)
  {
    FindGroupOf(AfterDot(p), '(', ')', |p.name|, |p.name| + |p.args| + 2);
    ShapedAt(line, p);
    DecomposeAtParts(line, p);
  }

  /** Cutting a group `r[i..e]` out of `r` and putting it back. */
  lemma GroupSplit(r: string, i: int, e: int)
    requires GroupAt(r, '(', ')', i, e)
    ensures r == r[..i] + "(" + r[i + 1..e - 1] + ")" + r[e..]
  {
  }

  /** Cutting at the first dot and at the leftmost group after it gives a
      shape of the line. */
  lemma CutIsShaped(line: string, d: nat, i: nat, e: nat)
    requires FirstIndex(line, '.') == Some(d)
    requires FirstGroup(line[d + 1..], '(', ')', i, e)
    ensures Shaped(line, CallParts(line[..d], line[d + 1..][..i], line[d + 1..][i + 1..e - 1], line[d + 1..][e..]))
  {
    var rest := line[d + 1..];
    var p := CallParts(line[..d], rest[..i], rest[i + 1..e - 1], rest[e..]);
    GroupSplit(rest, i, e);
    DotSplit(line, d);
    assert |p.name| == i && |p.name| + |p.args| + 2 == e;
  }

  /** A line is its text before the first dot, the dot, and the rest. */
  lemma DotSplit(line: string, d: nat)
    requires FirstIndex(line, '.') == Some(d)
    ensures line == line[..d] + "." + line[d + 1..]
    ensures '.' !in line[..d]
  {
    assert line == line[..d] + [line[d]] + line[d + 1..];
    assert forall k :: 0 <= k < d ==> line[..d][k] == line[k];
  }

  lemma DecomposedIsShaped(line: string, p: CallParts)
    requires Decompose(line) == Some(p)
    ensures Shaped(line, p)
  {
    var d := FirstIndex(line, '.').value;
    var rest := line[d + 1..];
    var i := FindGroup(rest, '(', ')').value.0;
    var e := FindGroup(rest, '(', ')').value.1;
    DecomposeAt(line, d, i, e);
    FindGroupFirst(rest, '(', ')');
    CutIsShaped(line, d, i, e);
  }

  /** `Decompose` finds exactly the shape of `line`: it returns `p` if and
      only if `line` is shaped by `p`. */
  lemma DecomposeExact(line: string, p: CallParts)
    ensures Decompose(line) == Some(p) <==> Shaped(line, p)
  {
    if Shaped(line, p) {
      ShapedDecomposes(line, p);
    }
    if Decompose(line) == Some(p) {
      DecomposedIsShaped(line, p);
    }
  }

  /** Without a `.`, or without a `(...)` after the first one, nothing has
      the call shape. */
  lemma DecomposeNone(line: string)
    ensures Decompose(line) == None <==> forall p :: !Shaped(line, p)
  {
    if Decompose(line).Some? {
      DecomposeExact(line, Decompose(line).value);
    }
    forall p | Shaped(line, p) ensures Decompose(line).Some? {
      DecomposeExact(line, p);
    }
  }

  /** Success: a line shaped `cls.name(args)tail` with `name` in the
      table calls that handler with exactly `cls + " " + args`. */
  lemma NormaliseCall(line: string, p: CallParts)
    requires Shaped(line, p) && p.name in HandlerNames
    ensures Normalise(line) == Call(HandlerNamed(p.name).value, p.cls + " " + p.args)
    ensures NameOf(Normalise(line).handler) == p.name
  {
    DecomposeExact(line, p);
  }

  /** Failure: `default` calls nothing exactly when no reading of the line
      as a call shape names a handler. */
  lemma NormaliseNoCall(line: string)
    ensures Normalise(line) == NoCall
      <==> forall p :: Shaped(line, p) ==> p.name !in HandlerNames
  {
    DecomposeNone(line);
    if Decompose(line).Some? {
      var q := Decompose(line).value;
      DecomposeExact(line, q);
      forall p | Shaped(line, p) ensures p == q {
        DecomposeExact(line, p);
      }
    }
  }

  /** The dotted form `C.m(a)` of a simple call: no `.` in the class, no
      `(` in the method name, no `)` or newline in the arguments. It
      becomes the canonical `m` handler called with `"C a"`. */
  lemma DottedCall(cls: string, m: string, args: string)
    requires '.' !in cls && '(' !in m && ')' !in args && '\n' !in args
    requires m in HandlerNames
    ensures Normalise(cls + "." + m + "(" + args + ")") == Call(HandlerNamed(m).value, cls + " " + args)
  {
    var p := CallParts(cls, m, args, "");
    var r := AfterDot(p);
    AfterDotSplit(p);
    assert cls + "." + m + "(" + args + ")" == cls + "." + r;
    var e := |m| + |args| + 2;
    assert GroupAt(r, '(', ')', |m|, e) by {
      assert forall k :: |m| + 1 <= k < e - 1 ==> r[k] == args[k - |m| - 1];
    }
    forall i', e' | 0 <= i' < |m| ensures !GroupAt(r, '(', ')', i', e') {
      assert r[i'] == m[i'];
    }
    NormaliseCall(cls + "." + m + "(" + args + ")", p);
  }
}
