/**
 * What each console command does to the abstract store, as functions: the
 * ordered validation ladders, the handlers `do_create`, `do_show`,
 * `do_destroy`, `do_all`, `do_count` and `do_update` (console.py:86-206),
 * and `default` with the call it makes (console.py:56-75). The class
 * `Console.Console` runs the same steps in place and is proved to agree with
 * these functions.
 */
module Handlers {
  import opened Wrappers
  import opened Objects
  import opened Lexer
  import opened Normaliser

  /** The diagnostics of the validation ladders, in the order they are
      checked. */
  datatype Error =
    | ClassNameMissing
    | ClassDoesntExist
    | InstanceIdMissing
    | NoInstanceFound
    | AttributeNameMissing
    | ValueMissing

  /** The exact line printed for each diagnostic. */
  function Diagnostic(e: Error): string {
    match e
    case ClassNameMissing => "** class name missing **"
    case ClassDoesntExist => "** class doesn't exist **"
    case InstanceIdMissing => "** instance id missing **"
    case NoInstanceFound => "** no instance found **"
    case AttributeNameMissing => "** attribute name missing **"
    case ValueMissing => "** value missing **"
  }

  /** The line `default` prints for input it cannot rewrite. */
  function UnknownSyntaxLine(line: string): string {
    "*** Unknown syntax: " + line
  }

  /** Each diagnostic has its own line. */
  lemma DiagnosticsDistinct(a: Error, b: Error)
    ensures Diagnostic(a) == Diagnostic(b) <==> a == b
  {
    if a != b {
      assert Diagnostic(a)[3] != Diagnostic(b)[3] || |Diagnostic(a)| != |Diagnostic(b)|
        || Diagnostic(a)[5] != Diagnostic(b)[5];
    }
  }

  /** The unknown-syntax line is never a diagnostic: it starts with three
      stars, every diagnostic with two and a blank. */
  lemma UnknownSyntaxIsNoDiagnostic(line: string, e: Error)
    ensures UnknownSyntaxLine(line) != Diagnostic(e)
  {
    assert UnknownSyntaxLine(line)[2] == '*';
    assert Diagnostic(e)[2] == ' ';
  }

  /** What a command prints. `Shown` and `Listed` carry the instances
      printed (their text layout is not modelled); `Silent` prints nothing. */
  datatype Output =
    | Report(error: Error)
    | UnknownSyntax(line: string)
    | NewId(id: string)
    | Shown(record: Record)
    | Listed(records: seq<Record>)
    | Counted(n: nat)
    | Silent

  /** A command's output and the store it leaves. */
  datatype Outcome = Outcome(out: Output, store: Store)

  /** What evaluating the third `update` token as a Python expression gives:
      a `NameError`, a dictionary (already parsed), or any other value. */
  datatype Literal = Undefined | Mapping(entries: map<string, Value>) | NotMapping

  // ---------------------------------------------------------------------
  // validation ladders

  /** `create`: class name present, then known (console.py:91-94). */
  function CheckClass(tokens: seq<string>): (r: Option<Error>)
    ensures r == Some(ClassNameMissing) <==> tokens == []
    ensures r == Some(ClassDoesntExist) <==> tokens != [] && tokens[0] !in Registry
    ensures r == None <==> tokens != [] && tokens[0] in Registry
  {
    if tokens == [] then Some(ClassNameMissing)
    else if tokens[0] !in Registry then Some(ClassDoesntExist)
    else None
  }

  /** `show`, `destroy`, `update`: class name present, known, id present,
      instance `"C.id"` stored, checked in that order (console.py:105-112,
      121-128, 168-179). Each diagnostic is reported exactly when every
      earlier check passed and its own failed. */
  function CheckTarget(tokens: seq<string>, keys: set<string>): (r: Option<Error>)
    ensures r == Some(ClassNameMissing) <==> tokens == []
    ensures r == Some(ClassDoesntExist) <==> tokens != [] && tokens[0] !in Registry
    ensures r == Some(InstanceIdMissing) <==> |tokens| == 1 && tokens[0] in Registry
    ensures r == Some(NoInstanceFound)
      <==> |tokens| >= 2 && tokens[0] in Registry && Key(tokens[0], tokens[1]) !in keys
    ensures r == None <==> |tokens| >= 2 && tokens[0] in Registry && Key(tokens[0], tokens[1]) in keys
  {
    if CheckClass(tokens).Some? then CheckClass(tokens)
    else if |tokens| == 1 then Some(InstanceIdMissing)
    else if Key(tokens[0], tokens[1]) !in keys then Some(NoInstanceFound)
    else None
  }

  // ---------------------------------------------------------------------
  // the handlers

  /** `do_create`: a new instance of the named class, stored under
      `"C.<fresh id>"`, whose id is printed. */
  function CreateSpec(tokens: seq<string>, st: Store, freshId: string): Outcome {
    match CheckClass(tokens)
    case Some(e) => Outcome(Report(e), st)
    case None =>
      var key := Key(tokens[0], freshId);
      var order := if key in st.records then st.order else st.order + [key];
      Outcome(NewId(freshId), Store(order, st.records[key := Record(tokens[0], map["id" := Raw(freshId)])]))
  }

  /** `do_show`: the stored instance `"C.id"`. */
  function ShowSpec(tokens: seq<string>, st: Store): Output {
    match CheckTarget(tokens, st.records.Keys)
    case Some(e) => Report(e)
    case None => Shown(st.records[Key(tokens[0], tokens[1])])
  }

  /** `do_destroy`: the entry `"C.id"` is deleted. */
  function DestroySpec(tokens: seq<string>, st: Store): Outcome {
    match CheckTarget(tokens, st.records.Keys)
    case Some(e) => Outcome(Report(e), st)
    case None =>
      var key := Key(tokens[0], tokens[1]);
      Outcome(Silent, Store(Remove(st.order, key), st.records - {key}))
  }

  /** The class `all` and `count` filter on, if a token names one. */
  function Wanted(tokens: seq<string>): Option<string> {
    if |tokens| > 0 then Some(tokens[0]) else None
  }

  /** `do_all`: every stored instance, or those of the named class, in store
      order. */
  function AllSpec(tokens: seq<string>, st: Store): Output {
    if |tokens| > 0 && tokens[0] !in Registry then Report(ClassDoesntExist)
    else Listed(Selected(st.order, st.records, Wanted(tokens)))
  }

  /** `do_count`: how many stored instances have the first token as class
      name. The source reads the first token only inside the loop over the
      stored instances, so with no token it fails unless the store is
      empty, and then prints 0. */
  function CountSpec(tokens: seq<string>, st: Store): Output
    requires tokens != [] || st.records == map[]
  {
    if tokens == [] then Counted(0)
    else Counted(|MatchingKeys(st.records, Some(tokens[0]))|)
  }

  /** The 4-token form: a class-declared attribute gets the value converted
      to its declared type, any other the raw string (console.py:192-196). */
  function AssignText(decl: Schema, name: string, raw: string): Value {
    if name in decl then Coerce(decl[name], Raw(raw)) else Raw(raw)
  }

  /** The dictionary form: only attributes declared with a scalar type are
      converted; any other value is stored as given (console.py:200-205). */
  function AssignEntry(decl: Schema, name: string, v: Value): Value {
    if name in decl && IsScalar(decl[name]) then Coerce(decl[name], v) else v
  }

  /** Attributes after every entry of a dictionary has been assigned. */
  function MergeEntries(decl: Schema, attrs: Attributes, entries: map<string, Value>): Attributes {
    attrs + map k | k in entries :: AssignEntry(decl, k, entries[k])
  }

  /** Assigning one more entry after the others. */
  lemma MergeStep(decl: Schema, attrs: Attributes, entries: map<string, Value>, k: string, v: Value)
    ensures MergeEntries(decl, attrs, entries[k := v]) == MergeEntries(decl, attrs, entries)[k := AssignEntry(decl, k, v)]
  {
  }

  /** `do_update` evaluates its third token again when there are five or
      more tokens, and a `NameError` there is not caught (console.py:197). */
  predicate UpdateCrashes(tokens: seq<string>, st: Store, evaluate: string -> Literal) {
    CheckTarget(tokens, st.records.Keys).None? && |tokens| >= 5 && evaluate(tokens[2]).Undefined?
  }

  /** `do_update` (console.py:165-205). */
  function UpdateSpec(tokens: seq<string>, st: Store, schemas: Schemas, evaluate: string -> Literal): Outcome
    requires !UpdateCrashes(tokens, st, evaluate)
  {
    match CheckTarget(tokens, st.records.Keys)
    case Some(e) => Outcome(Report(e), st)
    case None =>
      if |tokens| == 2 then Outcome(Report(AttributeNameMissing), st)
      else if |tokens| == 3 && evaluate(tokens[2]).Undefined? then Outcome(Report(ValueMissing), st)
      else
        var key := Key(tokens[0], tokens[1]);
        var rec := st.records[key];
        var decl := Declared(schemas, rec.cls);
        if |tokens| == 4 then
          var attrs := rec.attrs[tokens[2] := AssignText(decl, tokens[2], tokens[3])];
          Outcome(Silent, st.(records := st.records[key := rec.(attrs := attrs)]))
        else
          match evaluate(tokens[2])
          case Mapping(entries) =>
            var attrs := MergeEntries(decl, rec.attrs, entries);
            Outcome(Silent, st.(records := st.records[key := rec.(attrs := attrs)]))
          case _ => Outcome(Silent, st)
  }

  // ---------------------------------------------------------------------
  // dispatch

  /** The inputs on which the source raises instead of printing: `count`
      with no token over a non-empty store, and the uncaught `NameError` of
      `update`. */
  predicate Crashes(h: Handler, arg: string, st: Store, evaluate: string -> Literal) {
    (h == DoCount && Fparse(arg) == [] && st.records != map[])
    || (h == DoUpdate && UpdateCrashes(Fparse(arg), st, evaluate))
  }

  /** A handler of `default`'s table run on an argument string; each one
      lexes its argument itself. */
  function Run(h: Handler, arg: string, st: Store, schemas: Schemas, evaluate: string -> Literal): Outcome
    requires !Crashes(h, arg, st, evaluate)
  {
    var tokens := Fparse(arg);
    match h
    case DoAll => Outcome(AllSpec(tokens, st), st)
    case DoShow => Outcome(ShowSpec(tokens, st), st)
    case DoDestroy => DestroySpec(tokens, st)
    case DoCount => Outcome(CountSpec(tokens, st), st)
    case DoUpdate => UpdateSpec(tokens, st, schemas, evaluate)
  }

  predicate DefaultCrashes(line: string, st: Store, evaluate: string -> Literal) {
    Normalise(line).Call? && Crashes(Normalise(line).handler, Normalise(line).arg, st, evaluate)
  }

  /** `default`: the rewritten call, or the unknown-syntax line. */
  function DefaultSpec(line: string, st: Store, schemas: Schemas, evaluate: string -> Literal): Outcome
    requires !DefaultCrashes(line, st, evaluate)
  {
    match Normalise(line)
    case NoCall => Outcome(UnknownSyntax(line), st)
    case Call(h, arg) => Run(h, arg, st, schemas, evaluate)
  }
}
