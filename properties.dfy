/**
 * What the console's commands promise, stated over the functions of
 * `Handlers`: errors leave the store alone, `destroy` removes exactly one
 * entry, `create` adds one, `update` touches one attribute (or the entries
 * of one dictionary) of one instance, `all` and `count` agree with the
 * store, every command keeps the store well formed, and the dotted form
 * `C.m(args)` runs exactly the command `m C args`.
 */
module Properties {
  import opened Wrappers
  import opened Text
  import opened Objects
  import opened Lexer
  import opened Normaliser
  import opened Handlers

  /** Every stored instance is of a registered class. */
  predicate Registered(st: Store) {
    forall k :: k in st.records ==> st.records[k].cls in Registry
  }

  // ---------------------------------------------------------------------
  // errors

  /** A `create` that reports an error leaves the store as it was; one that
      does not, prints the new id. */
  lemma CreateErrorKeepsStore(tokens: seq<string>, st: Store, freshId: string)
    ensures CreateSpec(tokens, st, freshId).out.Report? ==> CreateSpec(tokens, st, freshId).store == st
    ensures !CreateSpec(tokens, st, freshId).out.Report? ==> CreateSpec(tokens, st, freshId).out == NewId(freshId)
  {
  }

  /** A command of the handler table that reports an error leaves the store
      as it was. */
  lemma ErrorKeepsStore(h: Handler, arg: string, st: Store, schemas: Schemas, evaluate: string -> Literal)
    requires !Crashes(h, arg, st, evaluate)
    ensures Run(h, arg, st, schemas, evaluate).out.Report? ==> Run(h, arg, st, schemas, evaluate).store == st
  {
    if h == DoUpdate {
      UpdateErrorKeepsStore(Fparse(arg), st, schemas, evaluate);
    }
  }

  lemma UpdateErrorKeepsStore(tokens: seq<string>, st: Store, schemas: Schemas, evaluate: string -> Literal)
    requires !UpdateCrashes(tokens, st, evaluate)
    ensures var o := UpdateSpec(tokens, st, schemas, evaluate);
      o.out.Report? ==> o.store == st
  {
  }

  /** `show`, `all` and `count` never change the store. */
  lemma QueriesKeepStore(h: Handler, arg: string, st: Store, schemas: Schemas, evaluate: string -> Literal)
    requires h == DoShow || h == DoAll || h == DoCount
    requires !Crashes(h, arg, st, evaluate)
    ensures Run(h, arg, st, schemas, evaluate).store == st
  {
  }

  // ---------------------------------------------------------------------
  // create

  /** A `create` of a registered class under a new key keeps the store well
      formed and registered, lists the new key last, and adds exactly one
      instance of that class, whose only attribute is its id. */
  lemma CreateAddsOne(tokens: seq<string>, st: Store, freshId: string)
    requires WellFormed(st) && Registered(st)
    requires tokens != [] && tokens[0] in Registry
    requires Key(tokens[0], freshId) !in st.records
    ensures var o := CreateSpec(tokens, st, freshId);
      var rec := Record(tokens[0], map["id" := Raw(freshId)]);
      && WellFormed(o.store) && Registered(o.store)
      && o.store.order == st.order + [Key(tokens[0], freshId)]
      && Selected(o.store.order, o.store.records, None) == Selected(st.order, st.records, None) + [rec]
      && |MatchingKeys(o.store.records, Some(tokens[0]))| == |MatchingKeys(st.records, Some(tokens[0]))| + 1
  {
    var key := Key(tokens[0], freshId);
    var rec := Record(tokens[0], map["id" := Raw(freshId)]);
    var o := CreateSpec(tokens, st, freshId);
    assert o.store == Store(st.order + [key], st.records[key := rec]);
    assert key !in st.order;
    assert Distinct(st.order + [key]);
    SelectedAppend(st.order, st.records, key, rec, None);
    SelectedAppend(st.order, st.records, key, rec, Some(tokens[0]));
    SelectedAll(st, Some(tokens[0]));
    SelectedAll(o.store, Some(tokens[0]));
  }

  /** Whatever the key, the new instance is what `show` then finds. */
  lemma ShowAfterCreate(tokens: seq<string>, st: Store, freshId: string)
    requires tokens != [] && tokens[0] in Registry
    ensures ShowSpec([tokens[0], freshId], CreateSpec(tokens, st, freshId).store)
      == Shown(Record(tokens[0], map["id" := Raw(freshId)]))
  {
  }

  /** `create` keeps the store well formed, also when the new key was
      already stored (its place in the order is then kept). */
  lemma CreateKeepsWellFormed(tokens: seq<string>, st: Store, freshId: string)
    requires WellFormed(st)
    ensures WellFormed(CreateSpec(tokens, st, freshId).store)
  {
    if CheckClass(tokens).None? {
      var key := Key(tokens[0], freshId);
      if key !in st.records {
        assert key !in st.order;
        assert Distinct(st.order + [key]);
      }
    }
  }

  // ---------------------------------------------------------------------
  // destroy

  /** A successful `destroy` removes the key `"C.id"` and nothing else: every
      other key keeps its record and its place in the order, and the store
      stays well formed. */
  lemma DestroyRemovesExactly(tokens: seq<string>, st: Store)
    requires WellFormed(st)
    requires |tokens| >= 2 && tokens[0] in Registry && Key(tokens[0], tokens[1]) in st.records
    ensures var o := DestroySpec(tokens, st); var key := Key(tokens[0], tokens[1]);
      && o.out == Silent
      && o.store.records.Keys == st.records.Keys - {key}
      && (forall k :: k in o.store.records ==> o.store.records[k] == st.records[k])
      && (forall k :: k in o.store.order <==> k in st.order && k != key)
      && (exists j :: 0 <= j < |st.order| && st.order[j] == key && o.store.order == st.order[..j] + st.order[j + 1..])
      && WellFormed(o.store)
  {
    var key := Key(tokens[0], tokens[1]);
    var j :| 0 <= j < |st.order| && st.order[j] == key;
    RemoveAt(st.order, key, j);
  }

  /** After a successful `destroy`, `show` of the same arguments finds no
      instance. */
  lemma ShowAfterDestroy(tokens: seq<string>, st: Store)
    requires |tokens| >= 2 && tokens[0] in Registry && Key(tokens[0], tokens[1]) in st.records
    ensures ShowSpec(tokens, DestroySpec(tokens, st).store) == Report(NoInstanceFound)
  {
  }

  // ---------------------------------------------------------------------
  // update

  /** The four-token form `update C id attr value` changes the attribute
      `attr` of instance `"C.id"` only: a class-declared attribute gets the
      value converted to its declared type, any other the raw string. The
      order, the other instances and the other attributes stay as they were. */
  lemma UpdateAttribute(tokens: seq<string>, st: Store, schemas: Schemas, evaluate: string -> Literal)
    requires |tokens| == 4 && tokens[0] in Registry && Key(tokens[0], tokens[1]) in st.records
    ensures var o := UpdateSpec(tokens, st, schemas, evaluate);
      var key := Key(tokens[0], tokens[1]);
      var rec := st.records[key];
      var name := tokens[2];
      var decl := Declared(schemas, rec.cls);
      && o.out == Silent
      && o.store.order == st.order
      && o.store.records.Keys == st.records.Keys
      && (forall k :: k in st.records && k != key ==> o.store.records[k] == st.records[k])
      && o.store.records[key].cls == rec.cls
      && o.store.records[key].attrs.Keys == rec.attrs.Keys + {name}
      && (forall a :: a in rec.attrs && a != name ==> o.store.records[key].attrs[a] == rec.attrs[a])
      && (name in decl ==> o.store.records[key].attrs[name] == Value(decl[name], tokens[3]))
      && (name !in decl ==> o.store.records[key].attrs[name] == Raw(tokens[3]))
  {
  }

  /** After a four-token `update`, `show` finds the new value. */
  lemma ShowAfterUpdate(tokens: seq<string>, st: Store, schemas: Schemas, evaluate: string -> Literal)
    requires |tokens| == 4 && tokens[0] in Registry && Key(tokens[0], tokens[1]) in st.records
    ensures var o := UpdateSpec(tokens, st, schemas, evaluate);
      var rec := st.records[Key(tokens[0], tokens[1])];
      && ShowSpec(tokens[..2], o.store).Shown?
      && ShowSpec(tokens[..2], o.store).record.attrs[tokens[2]]
         == AssignText(Declared(schemas, rec.cls), tokens[2], tokens[3])
  {
    UpdateAttribute(tokens, st, schemas, evaluate);
    assert tokens[..2][0] == tokens[0] && tokens[..2][1] == tokens[1];
  }

  /** The dictionary form (three tokens, or five or more, whose third one
      evaluates to a dictionary) assigns every entry: an attribute declared
      with a scalar type gets the entry converted to that type, any other
      the entry's value as given; attributes outside the dictionary, and all
      other instances, stay as they were. */
  lemma UpdateMapping(tokens: seq<string>, st: Store, schemas: Schemas, evaluate: string -> Literal)
    requires |tokens| >= 3 && |tokens| != 4 && tokens[0] in Registry && Key(tokens[0], tokens[1]) in st.records
    requires evaluate(tokens[2]).Mapping?
    ensures var o := UpdateSpec(tokens, st, schemas, evaluate);
      var key := Key(tokens[0], tokens[1]);
      var rec := st.records[key];
      var entries := evaluate(tokens[2]).entries;
      var decl := Declared(schemas, rec.cls);
      var attrs := o.store.records[key].attrs;
      && o.out == Silent
      && o.store.order == st.order
      && o.store.records.Keys == st.records.Keys
      && (forall k :: k in st.records && k != key ==> o.store.records[k] == st.records[k])
      && o.store.records[key].cls == rec.cls
      && attrs.Keys == rec.attrs.Keys + entries.Keys
      && (forall a :: a in rec.attrs && a !in entries ==> attrs[a] == rec.attrs[a])
      && (forall a :: a in entries && a in decl && IsScalar(decl[a]) ==> attrs[a] == Value(decl[a], entries[a].text))
      && (forall a :: a in entries && !(a in decl && IsScalar(decl[a])) ==> attrs[a] == entries[a])
  {
  }

  /** A third token that evaluates to something other than a dictionary
      (with three tokens, or five or more) changes nothing and prints
      nothing. */
  lemma UpdateNotMapping(tokens: seq<string>, st: Store, schemas: Schemas, evaluate: string -> Literal)
    requires |tokens| >= 3 && |tokens| != 4 && tokens[0] in Registry && Key(tokens[0], tokens[1]) in st.records
    requires evaluate(tokens[2]).NotMapping?
    ensures UpdateSpec(tokens, st, schemas, evaluate) == Outcome(Silent, st)
  {
  }

  /** The last two rungs of `update`'s ladder (console.py:180-188): once
      `"C.id"` is found, the attribute name is missing exactly when there
      are two tokens, and the value is missing exactly when there are three
      and the third does not name anything; an error is reported exactly
      when some rung fails. */
  lemma UpdateLadder(tokens: seq<string>, st: Store, schemas: Schemas, evaluate: string -> Literal)
    requires !UpdateCrashes(tokens, st, evaluate)
    ensures var o := UpdateSpec(tokens, st, schemas, evaluate);
      CheckTarget(tokens, st.records.Keys).None? ==>
        && (o.out == Report(AttributeNameMissing) <==> |tokens| == 2)
        && (o.out == Report(ValueMissing) <==> |tokens| == 3 && evaluate(tokens[2]).Undefined?)
    ensures var o := UpdateSpec(tokens, st, schemas, evaluate);
      o.out.Report?
      <==> (|| CheckTarget(tokens, st.records.Keys).Some?
            || |tokens| == 2
            || (|tokens| == 3 && evaluate(tokens[2]).Undefined?))
  {
  }

  // ---------------------------------------------------------------------
  // all and count

  /** `all` lists exactly the stored instances of the named class (all of
      them with no class name), each once. */
  lemma AllExact(tokens: seq<string>, st: Store)
    requires WellFormed(st)
    requires tokens == [] || tokens[0] in Registry
    ensures AllSpec(tokens, st).Listed?
    ensures forall r ::
      (r in AllSpec(tokens, st).records
       <==> exists k :: k in st.records && st.records[k] == r && Matches(r, Wanted(tokens)))
    ensures |AllSpec(tokens, st).records| == |MatchingKeys(st.records, Wanted(tokens))|
  {
    SelectedMembers(st.order, st.records, Wanted(tokens));
    SelectedAll(st, Wanted(tokens));
  }

  /** `count C` of a registered class is the length of `all C`. */
  lemma CountIsLengthOfAll(tokens: seq<string>, st: Store)
    requires WellFormed(st)
    requires tokens != [] && tokens[0] in Registry
    ensures CountSpec(tokens, st).n == |AllSpec(tokens, st).records|
  {
    SelectedAll(st, Some(tokens[0]));
  }

  /** `count` does not check the class name: over a registered store, an
      unknown class counts zero where `all` reports an error. */
  lemma CountUnknownClass(tokens: seq<string>, st: Store)
    requires Registered(st)
    requires tokens != [] && tokens[0] !in Registry
    ensures CountSpec(tokens, st) == Counted(0)
    ensures AllSpec(tokens, st) == Report(ClassDoesntExist)
  {
    assert MatchingKeys(st.records, Some(tokens[0])) == {};
  }

  /** With no class name, `count` over an empty store prints 0: the loop
      that reads the missing token never runs. */
  lemma CountNothingStored(arg: string, st: Store, schemas: Schemas, evaluate: string -> Literal)
    requires Fparse(arg) == [] && st.records == map[]
    ensures !Crashes(DoCount, arg, st, evaluate)
    ensures Run(DoCount, arg, st, schemas, evaluate) == Outcome(Counted(0), st)
  {
  }

  /** The dotted `.count()` hands `count` the blank argument, which has no
      tokens: over an empty store it prints 0. */
  lemma DottedCountNothingStored(st: Store, schemas: Schemas, evaluate: string -> Literal)
    requires st.records == map[]
    ensures !DefaultCrashes(".count()", st, evaluate)
    ensures DefaultSpec(".count()", st, schemas, evaluate) == Outcome(Counted(0), st)
  {
    assert "" + "." + "count" + "(" + "" + ")" == ".count()";
    DottedCall("", "count", "");
    assert "" + " " + "" == " ";
    assert Fparse(" ") == [] by {
      NoOpenNoGroup(" ", '{', '}');
      NoOpenNoGroup(" ", '[', ']');
      FparsePlain(" ");
      WordsBlank([]);
      assert " " + [] == " ";
    }
  }

  // ---------------------------------------------------------------------
  // invariants of every command

  /** Every command of the handler table keeps the store well formed and
      registered. */
  lemma RunKeepsInvariants(h: Handler, arg: string, st: Store, schemas: Schemas, evaluate: string -> Literal)
    requires WellFormed(st) && Registered(st)
    requires !Crashes(h, arg, st, evaluate)
    ensures WellFormed(Run(h, arg, st, schemas, evaluate).store)
    ensures Registered(Run(h, arg, st, schemas, evaluate).store)
  {
    match h
    case DoDestroy => DestroyKeepsInvariants(Fparse(arg), st);
    case DoUpdate => UpdateKeepsInvariants(Fparse(arg), st, schemas, evaluate);
    case _ =>
  }

  lemma DestroyKeepsInvariants(tokens: seq<string>, st: Store)
    requires WellFormed(st) && Registered(st)
    ensures WellFormed(DestroySpec(tokens, st).store) && Registered(DestroySpec(tokens, st).store)
  {
  }

  /** `update` changes attributes only: the keys, their order and every class
      stay as they were. */
  lemma UpdateKeepsInvariants(tokens: seq<string>, st: Store, schemas: Schemas, evaluate: string -> Literal)
    requires WellFormed(st) && Registered(st)
    requires !UpdateCrashes(tokens, st, evaluate)
    ensures var o := UpdateSpec(tokens, st, schemas, evaluate);
      && o.store.order == st.order
      && o.store.records.Keys == st.records.Keys
      && (forall k :: k in st.records ==> o.store.records[k].cls == st.records[k].cls)
      && WellFormed(o.store) && Registered(o.store)
  {
  }

  /** `create` keeps the store registered. */
  lemma CreateKeepsRegistered(tokens: seq<string>, st: Store, freshId: string)
    requires Registered(st)
    ensures Registered(CreateSpec(tokens, st, freshId).store)
  {
  }

  /** So does `default`. */
  lemma DefaultKeepsInvariants(line: string, st: Store, schemas: Schemas, evaluate: string -> Literal)
    requires WellFormed(st) && Registered(st)
    requires !DefaultCrashes(line, st, evaluate)
    ensures WellFormed(DefaultSpec(line, st, schemas, evaluate).store)
    ensures Registered(DefaultSpec(line, st, schemas, evaluate).store)
  {
    if Normalise(line).Call? {
      RunKeepsInvariants(Normalise(line).handler, Normalise(line).arg, st, schemas, evaluate);
    }
  }

  // ---------------------------------------------------------------------
  // default

  /** Without a dot, `default` prints the unknown-syntax line and changes
      nothing. */
  lemma DefaultNoDot(line: string, st: Store, schemas: Schemas, evaluate: string -> Literal)
    requires '.' !in line
    ensures !DefaultCrashes(line, st, evaluate)
    ensures DefaultSpec(line, st, schemas, evaluate) == Outcome(UnknownSyntax(line), st)
  {
  }

  /** A call shape naming a method outside the table is unknown syntax. */
  lemma DefaultUnknownMethod(line: string, p: CallParts, st: Store, schemas: Schemas, evaluate: string -> Literal)
    requires Shaped(line, p) && p.name !in HandlerNames
    ensures !DefaultCrashes(line, st, evaluate)
    ensures DefaultSpec(line, st, schemas, evaluate) == Outcome(UnknownSyntax(line), st)
  {
    DecomposeExact(line, p);
  }

  /** A call shape naming a method of the table runs that handler on
      `"cls args"`. */
  lemma DefaultSuccess(line: string, p: CallParts, st: Store, schemas: Schemas, evaluate: string -> Literal)
    requires Shaped(line, p) && p.name in HandlerNames
    requires !Crashes(HandlerNamed(p.name).value, p.cls + " " + p.args, st, evaluate)
    ensures !DefaultCrashes(line, st, evaluate)
    ensures DefaultSpec(line, st, schemas, evaluate)
      == Run(HandlerNamed(p.name).value, p.cls + " " + p.args, st, schemas, evaluate)
  {
    NormaliseCall(line, p);
  }

  /** `C.m(args)` does what the command line `m C args` does. */
  lemma DottedIsCanonical(cls: string, m: string, args: string, st: Store, schemas: Schemas, evaluate: string -> Literal)
    requires '.' !in cls && '(' !in m && ')' !in args && '\n' !in args
    requires m in HandlerNames
    requires !Crashes(HandlerNamed(m).value, cls + " " + args, st, evaluate)
    ensures !DefaultCrashes(cls + "." + m + "(" + args + ")", st, evaluate)
    ensures DefaultSpec(cls + "." + m + "(" + args + ")", st, schemas, evaluate)
      == Run(HandlerNamed(m).value, cls + " " + args, st, schemas, evaluate)
  {
    DottedCall(cls, m, args);
  }

  /** The dotted form of a command on simple tokens sees the same tokens:
      `C.show(id)` gives `show` the tokens `[C, id]`. */
  lemma DottedTokens(cls: string, ws: seq<string>)
    requires SimpleToken(cls)
    requires forall i :: 0 <= i < |ws| ==> SimpleToken(ws[i])
    ensures Fparse(cls + " " + Unwords(ws)) == [cls] + ws
  {
    if ws == [] {
      assert cls + " " + Unwords(ws) == cls + " ";
      FparseTrailingBlank(cls);
    } else {
      UnwordsCons(cls, ws);
      FparseUnwords([cls] + ws);
    }
  }

  /** Putting one more simple token in front. */
  lemma UnwordsCons(cls: string, ws: seq<string>)
    requires ws != []
    requires SimpleToken(cls)
    requires forall i :: 0 <= i < |ws| ==> SimpleToken(ws[i])
    ensures Unwords([cls] + ws) == cls + " " + Unwords(ws)
    ensures forall i :: 0 <= i < |[cls] + ws| ==> SimpleToken(([cls] + ws)[i])
  {
    var all := [cls] + ws;
    assert all[0] == cls && all[1..] == ws;
    assert Unwords(all) == cls + (" " + Unwords(ws));
    assert cls + (" " + Unwords(ws)) == cls + " " + Unwords(ws);
    forall i | 0 <= i < |all| ensures SimpleToken(all[i]) {
      if i > 0 {
        assert all[i] == ws[i - 1];
      }
    }
  }

  /** Blank-joining one more word in front. */
  lemma UnwordsFront(w: string, ws: seq<string>)
    requires ws != []
    ensures Unwords([w] + ws) == w + " " + Unwords(ws)
  {
    var all := [w] + ws;
    assert all[0] == w && all[1..] == ws;
    assert Unwords(all) == w + (" " + Unwords(ws));
    assert w + (" " + Unwords(ws)) == w + " " + Unwords(ws);
  }

  /** The argument string of `C.m(a, b, c)` lexes to the tokens of the
      command line `m C a b c`, the commas gone. */
  lemma CommaedArgTokens(cls: string, ws: seq<string>)
    requires SimpleToken(cls)
    requires forall i :: 0 <= i < |ws| ==> SimpleToken(ws[i])
    ensures Fparse(cls + " " + Unwords(Commaed(ws))) == [cls] + ws
    ensures Fparse(Unwords([cls] + ws)) == [cls] + ws
  {
    if ws == [] {
      assert cls + " " + Unwords(Commaed(ws)) == cls + " ";
      FparseTrailingBlank(cls);
      assert Unwords([cls] + ws) == cls;
      FparseUnwords([cls]);
    } else {
      UnwordsFront(cls, Commaed(ws));
      FparseCommaed(cls, ws);
      UnwordsCons(cls, ws);
      FparseUnwords([cls] + ws);
    }
  }

  /** A handler sees its argument only through the tokens. */
  lemma RunByTokens(h: Handler, a: string, b: string, st: Store, schemas: Schemas, evaluate: string -> Literal)
    requires Fparse(a) == Fparse(b)
    requires !Crashes(h, a, st, evaluate)
    ensures !Crashes(h, b, st, evaluate)
    ensures Run(h, a, st, schemas, evaluate) == Run(h, b, st, schemas, evaluate)
  {
  }

  /** The comma-separated dotted form `C.m(a, b, c)` does exactly what the
      command line `m C a b c` does. */
  lemma DottedEqualsCanonical(cls: string, m: string, ws: seq<string>, st: Store, schemas: Schemas, evaluate: string -> Literal)
    requires SimpleToken(cls) && '.' !in cls
    requires forall i :: 0 <= i < |ws| ==> SimpleToken(ws[i]) && ')' !in ws[i]
    requires m in HandlerNames
    requires !Crashes(HandlerNamed(m).value, Unwords([cls] + ws), st, evaluate)
    ensures !DefaultCrashes(cls + "." + m + "(" + Unwords(Commaed(ws)) + ")", st, evaluate)
    ensures DefaultSpec(cls + "." + m + "(" + Unwords(Commaed(ws)) + ")", st, schemas, evaluate)
      == Run(HandlerNamed(m).value, Unwords([cls] + ws), st, schemas, evaluate)
  {
    var args := Unwords(Commaed(ws));
    assert ')' !in args by {
      CommaedChars(ws, ')');
    }
    assert '\n' !in args by {
      assert forall i :: 0 <= i < |ws| ==> '\n' !in ws[i];
      CommaedChars(ws, '\n');
    }
    HandlerNameLetters(m);
    var h := HandlerNamed(m).value;
    CommaedArgTokens(cls, ws);
    RunByTokens(h, Unwords([cls] + ws), cls + " " + args, st, schemas, evaluate);
    DottedCall(cls, m, args);
  }
}
