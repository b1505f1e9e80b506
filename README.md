# HBnB console, modelled in Dafny

This project models the command interpreter of the HBnB console
(`console.py`). The model covers:

- the argument lexer `fparse`;
- the class registry;
- the dotted-syntax normaliser `default`, which rewrites `Class.method(args)`
  to `method Class args`;
- the six handlers `create`, `show`, `destroy`, `all`, `count` and `update`.

They all work on the object store: a dictionary from keys `"<Class>.<id>"`
to instances, iterated in insertion order.

The modules:

- `Text`: character-level pieces of the source.
  - `str.strip(",")`.
  - The whitespace split that stands in for `shlex.split`.
  - The first `.` of a line.
  - The leftmost lazy match of `\{(.*?)\}` and its bracket and parenthesis
    variants, in which `.` matches any character except a newline.
- `Lexer`: `fparse` as the function `Fparse`.
- `Normaliser`: the two searches of `default` and its handler table.
- `Objects`: the registry, attribute values, class-level attribute
  declarations, stored instances (a class whose attribute dictionary is
  written in place), and the abstract store `Store(order, records)`.
- `Handlers`: each handler as a function from tokens and store to
  `Outcome(output, new store)`. Each validation ladder is checked in its
  fixed order.
- `Console`: the class `Console`, whose fields are the store's key order
  and its key-to-instance map. Each handler is a method. The method deletes
  entries and writes into the stored instances in place. Each method is
  proved to leave its abstract view exactly where the function in
  `Handlers` says.
- `Properties`: what the commands promise. Errors leave the store alone.
  `destroy` removes exactly one key. `update` touches one instance. `all`
  and `count` agree with the store. Invariants are preserved. The dotted
  form does what the command line does.

Python's builtin `eval`, called on the third `update` token, is the
parameter `evaluate: string -> Literal`. A `Literal` is one of:

- a `NameError` (`Undefined`);
- a dictionary, already parsed (`Mapping`);
- any other value (`NotMapping`).

The id of a new instance is the parameter `freshId`. The class-level
attribute declarations that `update` inspects are the `Schemas` the
console is constructed with. They map an attribute name to its type:
`str`, `int`, `float` or anything else.

Where the code and its documentation disagree, the model follows the code:

- `fparse` strips commas from both ends of each word (`str.strip(",")`),
  not only trailing ones.
- The four-token `update` converts the value whenever the class declares
  the attribute, whatever the declared type (console.py:192). Only the
  dictionary form limits conversion to `str`, `int` and `float`
  (console.py:200-201).
- Not every error is a printed diagnostic. Two inputs raise an exception
  instead, and both are preconditions here:
  - `count` with no argument indexes an empty token list inside its loop
    (console.py:155). This happens only when at least one instance is
    stored. Over an empty store the loop never runs and `count` prints 0.
  - An `update` with five or more tokens evaluates its third token at
    console.py:197 with no handler for `NameError`. With five or more
    tokens, the guarded evaluation at console.py:185 is never reached.
- `default` is what `cmd` calls for any line that names no `do_` command,
  not only for the dotted syntax. A line such as `hello` reaches it and is
  reported as unknown syntax. The handlers lex their own argument string.
  The normaliser passes on `"<Class> <args>"` without the parentheses and
  drops any text after the closing one.

## Model

| member | source | states |
|---|---|---|
| Text.Leading | console.py:21 | the count of leading strip characters: all of them are in the set, and the next character is not |
| Text.StripIsTrimmedSlice | console.py:21 | `strip(chars)` gives the slice of its input whose ends are not in `chars` and whose surroundings are made only of `chars` |
| Text.StripKeeps | console.py:21 | a word whose ends are not in `chars` is unchanged by `strip(chars)` |
| Text.StripIdempotent | console.py:21 | stripping twice is stripping once |
| Text.Words | console.py:21 | the split yields only non-empty words without whitespace |
| Text.WordsAfterBlank | console.py:21 | leading whitespace of any kind and length does not change the split |
| Text.WordsOfSpaced | console.py:21 | words laid out between any whitespace gaps (tabs, runs of blanks, whitespace at either end) split back into those words, in order |
| Text.SpacedWords | console.py:21 | every string is its split words laid out between whitespace gaps, the first gap being its leading whitespace |
| Text.WordsExact | console.py:21 | the split is `ws` if and only if the string lays out `ws` between gaps of whitespace: the words are the input's maximal whitespace-free runs, in order |
| Text.WordsOfUnwords | console.py:21 | splitting words joined by blanks gives back the same words |
| Text.FirstIndex | console.py:65-67 | the position of the first `.`: that character is a dot, no earlier one is, and there is none exactly when no dot occurs |
| Text.FindGroupSpec | console.py:17-18 | the group search reports exactly the leftmost `open .*? close` match, and reports nothing exactly when there is no match |
| Text.FindGroupOf | console.py:68 | a leftmost match is what the group search returns |
| Text.NoOpenNoGroup | console.py:19-20 | text without an opening character has no group |
| Lexer.StripEach | console.py:21 | each word, in order, with commas stripped at both ends |
| Lexer.Fparse | console.py:16-31 | empty input yields no tokens |
| Lexer.FparseBrace | console.py:17-31 | with a `{...}` group: the stripped words before the leftmost group, then the group with its braces as the last token; brackets play no part; every earlier token is plain |
| Lexer.FparseBracket | console.py:18-26 | with no brace group but a `[...]` group: the stripped words before the leftmost bracket group, then that group |
| Lexer.FparsePlain | console.py:19-21 | with neither kind of group: every whitespace word with its commas stripped, each token free of whitespace and without a comma at either end |
| Lexer.StrippedWordsArePlain | console.py:21 | a stripped word has no whitespace and no comma at either end |
| Lexer.FirstGroupExtends | console.py:17 | text appended after a leftmost group does not change which group is leftmost |
| Lexer.FparseIgnoresTail | console.py:28-31 | text after the first brace group is dropped |
| Lexer.FparseWords | console.py:21 | words without braces or brackets, joined by blanks, lex to those words with their commas stripped |
| Lexer.FparseUnwords | console.py:16-31 | blank-joined simple tokens lex back to the same tokens |
| Lexer.StripTrailingComma | console.py:21 | the comma after a list item is stripped off |
| Lexer.FparseCommaed | console.py:16-31 | `C a, b, c` lexes to `[C, a, b, c]` |
| Lexer.FparseTrailingBlank | console.py:16-31 | a simple token followed by a blank lexes to that token alone |
| Normaliser.HandlerNamed | console.py:58-71 | table lookup: a handler is found exactly for the five table names, and it is the one registered under that name |
| Normaliser.HandlerNamedOf | console.py:58-64 | each handler is found under its own name |
| Normaliser.DecomposeExact | console.py:65-70 | cutting a line at its first `.` and at the leftmost `(...)` after it gives `p` if and only if the line reads `cls.name(args)tail` with those pieces |
| Normaliser.DecomposeNone | console.py:65-70 | the cut fails exactly when the line has no call shape |
| Normaliser.NormaliseCall | console.py:71-73 | success: a call shape whose method name is in the table calls that handler with `"cls args"` |
| Normaliser.NormaliseNoCall | console.py:66-74 | failure: nothing is called exactly when no call shape of the line names a handler |
| Normaliser.DottedCall | console.py:65-73 | `C.m(a)` with `m` in the table calls handler `m` on `"C a"` |
| Objects.Coerce | console.py:192-203 | conversion gives the declared type and keeps the text; a value that already has the type is unchanged |
| Objects.Remove | console.py:130 | deleting a key keeps every other key and no other, and keeps keys distinct |
| Objects.RemoveAt | console.py:130 | on distinct keys, deleting a key cuts it out at its position: the keys before and after it stay, in their order |
| Objects.SelectedMembers | console.py:142-146 | a record is listed exactly when it is stored under a listed key and matches the class filter |
| Objects.SelectedCount | console.py:142-146 | over distinct keys, the listing has one entry per matching key |
| Objects.SelectedAll | console.py:142-156 | for a well-formed store, the listing has as many entries as there are matching stored keys |
| Objects.SelectedAppend | console.py:142-146 | storing a new key adds its record at the end of the listing, if it matches |
| Handlers.CheckClass | console.py:91-94 | class name missing exactly when there are no tokens; class unknown exactly when the first token is not registered; otherwise no error |
| Handlers.DiagnosticsDistinct | console.py:92-187 | each diagnostic is printed as its own line: two lines are equal exactly when the errors are |
| Handlers.UnknownSyntaxIsNoDiagnostic | console.py:74 | the unknown-syntax line is never one of the diagnostics |
| Handlers.CheckTarget | console.py:105-112 | each error of the show/destroy/update ladder occurs exactly when the earlier checks pass and its own check fails; none occurs exactly when `"C.id"` is stored |
| Console.Console.Create | console.py:86-97 | the output and the new store are those of `CreateSpec`: an error leaves the store alone; otherwise a new instance with only its id is stored under `"C.<id>"` and the id is printed |
| Console.Console.Insert | console.py:96 | storing under a key: a new key goes last, an existing key keeps its place, and only that entry changes |
| Console.Console.Delete | console.py:130 | the key leaves both the order and the map, and nothing else changes |
| Console.Console.Show | console.py:99-114 | the output is that of `ShowSpec`: the ladder's error, or the instance stored under `"C.id"` |
| Console.Console.Destroy | console.py:116-131 | the output and the new store are those of `DestroySpec` |
| Console.Console.All | console.py:133-147 | the loop over the store lists exactly `AllSpec`: the unknown-class error, or the matching instances in store order |
| Console.Console.Count | console.py:149-157 | the counting loop gives the number of stored instances whose class is the first token, or 0 when there is no token and nothing is stored |
| Console.Console.Update | console.py:159-206 | the output and the new store are those of `UpdateSpec`, including the in-place writes of both forms |
| Console.MergeInto | console.py:199-205 | the dictionary loop assigns every entry, each converted when its attribute is declared with a scalar type |
| Console.Console.Default | console.py:56-75 | output and store are those of `DefaultSpec`: the handler the normaliser names, run in place, or the unknown-syntax line |
| Properties.CreateErrorKeepsStore | console.py:91-96 | `create` either reports an error and leaves the store alone, or prints the new id |
| Properties.ErrorKeepsStore | console.py:105-188 | every reported error of a table handler leaves the store unchanged |
| Properties.UpdateErrorKeepsStore | console.py:168-188 | every error of `update`'s ladder, including a missing value, leaves the store unchanged |
| Properties.QueriesKeepStore | console.py:99-157 | `show`, `all` and `count` never change the store |
| Properties.CreateAddsOne | console.py:93-96 | creating a registered class under a new key adds exactly one instance of that class, listed last; `all` grows by it and `count` by one |
| Properties.ShowAfterCreate | console.py:96-114 | `show C <new id>` finds the created instance |
| Properties.CreateKeepsWellFormed | console.py:96 | `create` keeps the keys distinct and equal to the stored keys |
| Properties.DestroyRemovesExactly | console.py:129-130 | a successful `destroy` removes exactly `"C.id"`; every other key keeps its record and its place |
| Properties.ShowAfterDestroy | console.py:111-130 | after `destroy C id`, `show C id` reports no instance found |
| Properties.UpdateLadder | console.py:168-188 | once `"C.id"` is found, the attribute name is missing exactly with two tokens, and the value is missing exactly with three tokens whose third does not name anything; `update` reports an error exactly when a rung fails |
| Properties.UpdateAttribute | console.py:190-196 | the four-token form changes only attribute `fargl[2]` of `"C.id"`: converted to the declared type if the class declares it, the raw text otherwise |
| Properties.ShowAfterUpdate | console.py:111-196 | after a four-token `update`, `show` finds the new value |
| Properties.UpdateMapping | console.py:197-205 | the dictionary form assigns every entry, converting exactly the scalar-declared ones and keeping all other attributes and instances |
| Properties.UpdateNotMapping | console.py:183-199 | a third token that evaluates to something other than a dictionary changes nothing |
| Properties.AllExact | console.py:138-147 | `all` lists exactly the stored instances of the class (of every class with no argument), each once |
| Properties.CountIsLengthOfAll | console.py:149-157 | `count C` equals the length of `all C` for a registered class |
| Properties.CountUnknownClass | console.py:152-157 | `count` does not check the class: an unknown class counts 0 where `all` reports an error |
| Properties.CountNothingStored | console.py:152-157 | with no token, `count` over an empty store prints 0 and does not fail |
| Properties.DottedCountNothingStored | console.py:65-73 | `.count()` over an empty store prints 0 |
| Properties.RunKeepsInvariants | console.py:99-206 | every handler keeps the store well formed and every stored class registered |
| Properties.DestroyKeepsInvariants | console.py:130 | `destroy` keeps both invariants |
| Properties.UpdateKeepsInvariants | console.py:190-205 | `update` keeps the keys, their order and every instance's class |
| Properties.CreateKeepsRegistered | console.py:93-96 | `create` stores only registered classes |
| Properties.DefaultKeepsInvariants | console.py:56-75 | `default` keeps both invariants |
| Properties.DefaultNoDot | console.py:65-74 | a line without a `.` prints the unknown-syntax line and changes nothing |
| Properties.DefaultUnknownMethod | console.py:71-74 | a call shape whose method is not in the table is unknown syntax |
| Properties.DefaultSuccess | console.py:71-73 | a call shape whose method is in the table runs that handler on `"cls args"` |
| Properties.DottedIsCanonical | console.py:65-73 | `C.m(args)` does what `m` does on `"C args"` |
| Properties.DottedTokens | console.py:16-72 | the argument string of `C.m(a b)` lexes to `[C, a, b]` |
| Properties.CommaedArgTokens | console.py:16-72 | the argument string of `C.m(a, b, c)` and the command line `C a b c` lex to the same tokens `[C, a, b, c]` |
| Properties.RunByTokens | console.py:90-165 | each handler depends on its argument only through the tokens `fparse` gives |
| Properties.DottedEqualsCanonical | console.py:16-206 | `C.m(a, b, c)` has the same output and the same effect on the store as the command line `m C a b c` |

## Left out

- The interactive loop: `cmd.Cmd`, the prompt, `emptyline`, `quit`, `EOF`
  and the `__main__` entry (console.py:41, 52-54, 77-84, 209-210). This is
  terminal I/O.
- The values handlers return to `cmd` (`False` from `update`'s ladder and
  from `default`). The loop is not modelled, so nothing reads them.
- `storage.save`, `storage.reload` and the JSON file. Persistence is done
  by the `models` package, which is not part of this model. The store is
  the abstract `Store`, or the fields of `Console`.
- The `models` package itself: constructing an instance, its `created_at`
  and `updated_at` stamps, and how `__str__` lays out the printed text.
  - A new instance gets only its `id`.
  - `show` and `all` return the records they print, not the text.
  - The class-level attribute declarations are the `Schemas` parameter.
- `shlex.split`: quotes and escapes are not modelled, and neither is the
  `ValueError` an unclosed quote raises. Splitting is on blank, tab,
  carriage return and newline only.
- Python's `eval`: it is the `evaluate` parameter. Of its exceptions, only
  `NameError` is modelled. A `SyntaxError` or any other exception at
  console.py:185, console.py:197 or console.py:199 is not.
- Side effects of `eval`: `evaluate` is a function, so the model assumes
  that evaluating the third `update` token is deterministic and changes
  nothing. The source evaluates it up to three times (console.py:185, 197
  and 199), and an expression such as `storage.all().clear()` would empty
  the store. `Properties.ErrorKeepsStore`, `Properties.UpdateErrorKeepsStore`
  and `Properties.UpdateNotMapping` hold only under this assumption.
- The numbers behind converted values: `Coerce` keeps the text and records
  the type. A conversion that raises (`int("abc")`) is not modelled.
- Dictionary keys that are not strings, in the dictionary form of `update`.
- The first token's `eval(...)()` in `create` (console.py:96) stands for
  the registered class's constructor. Any other meaning of `eval` is not
  modelled.
- Console.Console.Count: requires a token unless nothing is stored. With no
  token and at least one stored instance, the source raises `IndexError`
  at console.py:155, so that case is excluded rather than modelled
  (`Handlers.CountSpec` likewise).
- Console.Console.Update: requires that the five-or-more-token form does
  not evaluate the third token to a `NameError`. The source does not catch
  that exception (console.py:197), so the case is excluded
  (`Handlers.UpdateSpec`, `Console.Console.Default` and
  `Handlers.DefaultSpec` likewise).
