# Notebook query front end and note graph, in Dafny

This project models the query language of a small note-taking tool, together with the two
storage back ends that keep its notes linked as parents and children.

A query is one prefix call such as `(+ 1 (* 2 3))`. Its params are string literals, number
literals and nested calls.

- **lisp.py** defines the grammar and a transformer. The transformer looks up each call's
  function name in a dictionary the caller supplies. It converts number literals to `int`, or to
  `float` when they contain a dot. It strips the quotes from string literals. It applies every
  function to the values of its params, bottom-up.
- **query.py** is an earlier copy of the same front end. It has a stricter function-name class
  and a global table filled by `expose`, which holds the arithmetic builtins `+ * / // -`.
- **rel/graph.py** keeps notes ("nodes") in an SQL store. The edges between them form a set of
  `(head, tail)` pairs, because that pair is the table's primary key.
- **notes.py** keeps notes as the vertices of a graph_tool multigraph.

Both storage back ends share the helpers `to_iter` and `short`.

Modules:

- `Results`: the `Result` and `Option` wrappers, and the errors of a query.
- `Grammar`: the lexer. It is parameterised by the dialect (lisp.py or query.py), because the two
  differ only in the function-name class. Every token class starts with a character no other
  class can start with. Within a class, the model matches the regular expression greedily,
  backtracking as Python's `re` does. So a string literal reaches the last `"` before the next
  whitespace.
- `Parser`: the recursive-descent parser, and the printer it is proved inverse to.
- `Transformer`: literal values, and bottom-up evaluation that records which functions were
  applied and in what order. It also holds `parse(expr, func_dict)`.
- `Registry`: `expose(name, function)`.
- `Arithmetic`: the builtins of query.py, with Python 2 semantics on `int` and `str`, and
  query.py's `parse`.
- `Examples`: concrete queries and their values, derived from the general lemmas.
- `Common`: `to_iter` and `short`.
- `NodeStore`: the edge relation of rel/graph.py.
- `Notebooks`: notes.py.

Errors are values: `Result.Err`, where the source raises.

Two facts about the code shape the model:

- **Unknown function names.** A call's function name is looked up when that call is reached
  during the bottom-up transform (lisp.py:26-27, query.py:47-48). There is no separate check of
  all names before evaluation. So in `(f (g) (h))` an unknown `h` is reported only after `g` has
  been applied.
- **Arity.** No builtin declares an arity. `/` and `//` are two-argument lambdas
  (query.py:28-29), so any other number of arguments is the error of that call itself.

## Model

| member | source | states |
|---|---|---|
| `Grammar.DigitRun` | lisp.py:9 | length of the longest all-digit prefix: every character before it is a digit, the one at it is not |
| `Grammar.FuncRun` | lisp.py:8 | length of the longest prefix of function-name characters of the dialect, maximal |
| `Grammar.NonSpaceRun` | lisp.py:10 | length of the longest prefix without space, tab or newline, maximal |
| `Grammar.LastQuote` | lisp.py:10 | the last position before the bound holding `"`, after the opening one; none when there is none |
| `Grammar.NumeralLength` | lisp.py:9 | the number token at the front is non-empty, a word of `[0-9]+(\.[0-9]+)?`, and the longest such prefix: no longer prefix is a numeral |
| `Grammar.NumeralLengthOf` | lisp.py:9 | a numeral followed by something that is neither a digit nor a dot is read back whole |
| `Grammar.Scan` | lisp.py:6-10 | the token read is a word of its class and spells the input's prefix; a name and a number are the longest such prefix, and a string literal reaches the last `"` before whitespace; it fails, with a lexical error, exactly on a character no class starts with or on an unterminated string |
| `Grammar.Lex` | lisp.py:6-13 | every token produced is a word of its lexical class; a failure is a lexical error |
| `Grammar.LexSkipsSpace` | lisp.py:13 | leading space, tab and newline do not change the tokens |
| `Grammar.ScanReadsToken` | lisp.py:6-10 | a valid token followed by text that ends it is scanned back as itself, with its own length |
| `Grammar.ScanEnds` | lisp.py:6-10 | conversely, the text after a scanned token always ends that token |
| `Grammar.ScanToken` | lisp.py:6-10 | a valid token followed by `r` is scanned back as itself if and only if `r` ends it |
| `Grammar.LayoutTailEndsToken` | lisp.py:13 | in a whitespace layout, the text after a token cannot extend it |
| `Grammar.SeparatorsLexable` | lisp.py:13 | valid tokens with whitespace separators, non-empty wherever two tokens would merge, form a layout the lexer reads back |
| `Grammar.LexLayout` | lisp.py:5-13 | lexing a layout the lexer reads back gives exactly its tokens |
| `Grammar.LexSound` | lisp.py:5-13 | conversely, the tokens the lexer returns, with the whitespace it skipped, spell the input and form such a layout |
| `Grammar.LexExactly` | lisp.py:5-13 | `Lex` returns `ts` for `s` if and only if `s` is a readable layout of `ts` |
| `Grammar.LexFails` | lisp.py:5-13 | lexing fails, with a lexical error, if and only if the text is no readable layout of any tokens |
| `Grammar.LexIgnoresSpacing` | lisp.py:13 | two layouts of the same tokens lex to the same tokens |
| `Grammar.LexBareCall` | lisp.py:6-8 | `(name)` with no whitespace lexes as open, name, close |
| `Grammar.MinusStartsName` | query.py:8-9 | a `-` always starts a function name, never a number: there are no signed literals |
| `Parser.ParseExpr` | lisp.py:6 | a parsed call consumes at least one token; a failure is a syntax error |
| `Parser.ParseParams` | lisp.py:11 | parsing params never lengthens the input; a failure is a syntax error |
| `Parser.ParseTokens` | lisp.py:5-6 | an accepted stream is a call whose tokens are the whole stream; anything else is a syntax error |
| `Parser.ParseExprPrinted` | lisp.py:5-11 | the tokens of any call, followed by anything, parse back to that call with the rest left over |
| `Parser.ParseParamsPrinted` | lisp.py:11 | the tokens of any params, followed by a closing parenthesis, a name or nothing, parse back to those params |
| `Parser.ParseExprSound` | lisp.py:6 | whatever the parser accepts is a call, and the input is that call's tokens followed by the rest |
| `Parser.ParseParamsSound` | lisp.py:11 | accepted params are the printing of the returned trees and stop at a token that ends the run |
| `Parser.ParseTokensExactly` | lisp.py:5-6 | a token stream parses to `e` if and only if `e` is a call and the stream is exactly its tokens |
| `Parser.ValidTreeTokens` | lisp.py:8-11 | a tree built from valid words prints to valid tokens |
| `Parser.ValidParamsTokens` | lisp.py:11 | the same for a list of params |
| `Parser.EmptyCallRejected` | lisp.py:6-8 | `()` has no function name and is a syntax error |
| `Parser.NameParamRejected` | lisp.py:6-11 | a function name in param position, such as the `-` of `(+ -5)`, makes the call a syntax error |
| `Transformer.DecimalText` | lisp.py:9 | the decimal spelling of a natural number is a non-empty run of digits |
| `Transformer.DecimalRoundTrip` | lisp.py:30-32 | `int` of the decimal spelling of `n` is `n` |
| `Transformer.StringValue` | lisp.py:37-39 | the value is the token with exactly its first and last characters removed, no escapes |
| `Transformer.NumberValue` | lisp.py:30-34 | a numeral becomes an `int` exactly when it is all digits, and otherwise a float tagged by its own text; never a string |
| `Transformer.NumeralDot` | lisp.py:31-34 | a numeral contains a dot exactly when it is not all digits, which is when `int()` raises `ValueError` |
| `Transformer.IntegerLiteral` | lisp.py:30-32 | a literal without a dot is the integer it spells |
| `Transformer.ZeroPaddedLiteral` | lisp.py:30-32 | leading zeros are accepted and ignored: `int("007")` is 7 |
| `Transformer.DigitsOnlyRun` | lisp.py:9 | the leading digit run of an all-digit literal is the whole literal |
| `Transformer.FloatLiteral` | lisp.py:33-34 | a literal with a fractional part becomes a float, tagged by its text |
| `Transformer.Eval` | lisp.py:22-27 | a literal evaluates without applying anything; a call whose name is not in the dictionary fails with that name's KeyError; a call's value is its function's result on one value per param |
| `Transformer.EvalParams` | lisp.py:23 | successful params give one value per param |
| `Transformer.CallAppliesToParams` | lisp.py:22-27 | a call that reduces has its name in the dictionary, every param reduces, and the function applied to the params' values, in written order, gives the call's value |
| `Transformer.CallEval` | lisp.py:22-27 | conversely, params that reduce to some values and a function that accepts those values make the call reduce to the function's result, with its name applied after the params' applications |
| `Transformer.EvalParamsPointwise` | lisp.py:22-23 | the i-th argument value is the value of the i-th param: params are passed in written order |
| `Transformer.EvalParamsFirstError` | lisp.py:22-23 | a failure is the failure of the first failing param, every earlier one having succeeded |
| `Transformer.EvalAppliesInPostOrder` | lisp.py:22-23 | functions are applied in post-order: each nested call exactly once, before its enclosing call |
| `Transformer.EvalParamsAppliesInPostOrder` | lisp.py:22-23 | the same for a list of params, left to right |
| `Transformer.EvalNeedsBoundNames` | lisp.py:26-27 | a query that evaluates names only keys of the function dictionary |
| `Transformer.EvalParamsNeedBoundNames` | lisp.py:26-27 | the same for a list of params |
| `Transformer.EvalFailsOnlyInBuiltins` | lisp.py:22-27 | every failure is either the KeyError of a name of the tree missing from the dictionary, or an error one of the tree's functions raises |
| `Transformer.EvalParamsFailOnlyInBuiltins` | lisp.py:22-27 | the same for a list of params |
| `Transformer.BoundNamesInPostOrder` | lisp.py:26-27 | when every name of the tree is bound, every name applied is a key of the dictionary |
| `Transformer.BoundParamNamesInPostOrder` | lisp.py:26-27 | the same for a list of params |
| `Transformer.BoundNamesNoKeyError` | lisp.py:22-27 | conversely to `EvalNeedsBoundNames`: with every name bound, and no function raising a KeyError itself, evaluation never fails with an unknown name |
| `Transformer.ParseQuery` | lisp.py:42-45 | a value is the value of a call whose tokens, laid out readably, are the text; an error is a lexical error, a syntax error, or comes from the names of the call the text lexes to |
| `Transformer.LispParse` | lisp.py:42-45 | lisp.py's `parse`: a value is the result one of the dictionary's functions returned; an unknown-function error names a missing key, when no function reports one itself |
| `Transformer.LispParseBareCall` | lisp.py:42-45 | `parse("(f)", d)` calls `d["f"]` with no arguments, or fails with the KeyError when `f` is not a key |
| `Transformer.ParseQueryLayout` | lisp.py:42-45 | `parse` of any readable layout of a call's tokens is the value of that call, or its error |
| `Registry.Expose` | query.py:21-23 | `expose` returns its function, binds the name to it, adds only that key and leaves every other entry unchanged |
| `Registry.ExposeOverwrites` | query.py:21-23 | re-exposing a name overwrites it: only the last registration is visible |
| `Registry.ExposeCommutes` | query.py:21-23 | registrations under different names can be made in either order |
| `Arithmetic.FloorDiv` | query.py:28-29 | the quotient satisfies the floor bounds, for either sign of the divisor |
| `Arithmetic.FloorDivUnique` | query.py:28-29 | no other integer satisfies those bounds |
| `Arithmetic.Repeat` | query.py:27 | `s * n` is `n` copies of `s`: its length is `n * len(s)` (so `n <= 0` gives the empty string), it starts with `s`, dropping its first copy of `s` leaves the same string as dropping its last (so each character equals the one `len(s)` earlier), and `s * 1` is `s` |
| `Arithmetic.RepeatAdds` | query.py:27 | repeating `a + b` times is repeating `a` times, then `b` times |
| `Arithmetic.SumFromInts` | query.py:26 | the left fold of `+` succeeds exactly on integers and adds their sum to the seed |
| `Arithmetic.SumFrom` | query.py:26 | the left fold of `+` fails only with a type error or on a float |
| `Arithmetic.Add` | query.py:26 | `+` succeeds exactly on integer arguments, returns their sum, so `(+)` is 0; otherwise a type error or a float operand |
| `Arithmetic.ProductFromInts` | query.py:27 | the left fold of `*` over integers multiplies the seed by their product |
| `Arithmetic.ProductFrom` | query.py:27 | the left fold of `*` fails only with a type error or on a float |
| `Arithmetic.Multiply` | query.py:27 | `*` succeeds exactly when no operand is a float and at most one is a string, and gives a string exactly when one operand is; on integers it is their product, so `(*)` is 1; two strings raise TypeError; a failure is a type error or a float operand |
| `Arithmetic.ProductFromKinds` | query.py:27 | the left fold of `*` from an integer or string seed succeeds exactly when no operand is a float and at most one string is met, the seed included, and ends in a string exactly when one was met |
| `Arithmetic.MultiplyRepeats` | query.py:27 | `*` of a string and a count, in either order, repeats the string |
| `Arithmetic.DifferenceFromInts` | query.py:37 | the left fold of `-` subtracts the sum of the rest from the seed |
| `Arithmetic.DifferenceFrom` | query.py:37 | the left fold of `-` fails only with a type error or on a float |
| `Arithmetic.DifferenceFromKinds` | query.py:37 | the left fold of `-` succeeds exactly when there is nothing to subtract or the seed and every operand are integers |
| `Arithmetic.Subtract` | query.py:31-37 | `-` succeeds exactly on integer arguments (a string or float operand fails, even alone); on integers `(-)` is 0, `(- a)` is `-a`, otherwise `a0 - a1 - ... - an`; a failure is a type error or a float operand |
| `Arithmetic.Divide` | query.py:28-29 | `/` and `//` succeed exactly on two integers with a non-zero divisor; any other number of operands is the arity TypeError; two operands that are not both integers fail with a type error, or with the float case when one is a float; on two integers they fail on a zero divisor and otherwise give the quotient within the floor bounds |
| `Arithmetic.ArithmeticTable` | query.py:25-39 | the table holds exactly `+ * / // -`, bound to the five builtins, with `/` and `//` the same function |
| `Arithmetic.ArithmeticNoUnknown` | query.py:25-39 | no arithmetic builtin itself raises a KeyError |
| `Arithmetic.QueryParse` | query.py:63-67 | an unknown-function error of query.py's `parse` always names a key missing from the global table |
| `Arithmetic.ArithmeticNamesWritable` | query.py:8 | every registered name is a word of both func classes and can be written as a call head |
| `Examples.NestedArithmetic` | query.py:63-67 | `(+ 1 (* 2 3))` evaluates to 7 |
| `Examples.NestedEval` | query.py:43-48 | in `(+ 1 (* 2 3))`, `*` is applied before `+` |
| `Examples.FloorExample` | query.py:28 | `(/ (- 7) 2)` is -4: division floors |
| `Examples.ZeroDivisionExample` | query.py:28 | `(/ 1 0)` is a division-by-zero error |
| `Examples.StringBeforeClose` | lisp.py:10 | in `(f "a")` the string literal stops at its closing quote, before the parenthesis |
| `Examples.SmallNumber` | lisp.py:30-32 | a one-digit literal is the integer it spells |
| `Common.ToIter` | rel/graph.py:1-7 | `None` gives no element, an iterable is returned unchanged, anything else becomes a one-element list; notes.py:2-8 is the same |
| `Common.ToIterIdempotent` | notes.py:2-8 | normalising a normalised argument changes nothing; the result is empty exactly for `None` or an empty iterable |
| `Common.FirstNewline` | rel/graph.py:38-41 | index of the first newline, or the length when `index` raises: no newline before it, a newline at it |
| `Common.Short` | rel/graph.py:37-42 | the summary is a prefix of the content, at most 140 characters, without newline, and stops only at the cap or at a newline |
| `Common.ShortUnique` | rel/graph.py:37-42 | those properties determine the summary: any such prefix is `short` |
| `Common.ShortIdentity` | rel/graph.py:40-42 | a one-line content of at most 140 characters is its own summary |
| `Common.ShortIdempotent` | rel/graph.py:40-42 | summarising a summary changes nothing |
| `NodeStore.CreateEdge` | rel/graph.py:46-49 | adding a pair fails exactly when that primary key already exists; otherwise exactly that pair is added |
| `NodeStore.DeleteEdge` | rel/graph.py:52-55 | removing a pair fails exactly when it is absent; otherwise exactly that pair goes |
| `NodeStore.CreateAll` | rel/graph.py:59-61 | the add loop succeeds iff the listed nodes are distinct and none is linked yet, and adds exactly their edges |
| `NodeStore.DeleteAll` | rel/graph.py:63-65 | the remove loop succeeds iff the listed nodes are distinct and all linked, and removes exactly their edges |
| `NodeStore.UpdateChildren` | rel/graph.py:57-65 | adds `(self, c)` for each added child, then removes `(self, c)` for each removed one, with the exact success condition |
| `NodeStore.UpdateParents` | rel/graph.py:68-76 | the mirror image on `(p, self)` |
| `NodeStore.Children` | rel/graph.py:79-81 | the stored nodes that are tails of an edge headed by `self` |
| `NodeStore.Parents` | rel/graph.py:84-86 | the stored nodes that are heads of an edge whose tail is `self` |
| `NodeStore.ChildParentMirror` | rel/graph.py:79-86 | `b` is a child of `a` iff `a` is a parent of `b` |
| `NodeStore.UpdateChildrenAdds` | rel/graph.py:57-61 | after adding children, each is a child of `self` and `self` is its parent |
| `NodeStore.UpdateParentsAdds` | rel/graph.py:68-72 | after adding parents, each is a parent of `self` and `self` is its child |
| `NodeStore.ChildrenParentsMirror` | rel/graph.py:57-72 | adding `c` as a child of `p` equals adding `p` as a parent of `c` |
| `NodeStore.RemoveChildExactly` | rel/graph.py:63-65 | removing a child deletes exactly `(self, c)`, which must exist; every other edge stays |
| `Notebooks.NoteShort` | notes.py:46-51 | `Note.short` is the summary of the vertex's content, a prefix of at most 140 characters |
| `Notebooks.EdgesTo` | notes.py:56-57 | one edge per listed note, oriented by the role it plays |
| `Notebooks.RemoveOne` | notes.py:110-112 | removing an edge takes away one copy of that pair and nothing else |
| `Notebooks.RemoveEach` | notes.py:59-61 | the remove loop succeeds iff the pairs to remove are among the edges with multiplicity, and removes exactly them |
| `Notebooks.Update` | notes.py:54-61 | edges added first, then removed; success condition and resulting multiset of edges |
| `Notebooks.UpdateValid` | notes.py:106-107 | updates keep every edge between vertices of the graph |
| `Notebooks.OutNeighbours` | notes.py:63 | each out-neighbour is listed once per parallel edge from the vertex |
| `Notebooks.InNeighbours` | notes.py:75 | each in-neighbour is listed once per parallel edge into the vertex |
| `Notebooks.Children` | notes.py:54-63 | `children(add, remove)` fails exactly when the update fails; otherwise every note is returned as many times as the updated graph has edges `self -> c` |
| `Notebooks.Parents` | notes.py:66-75 | `parents(add, remove)` fails exactly when the update fails; otherwise every note is returned as many times as the updated graph has edges `p -> self` |
| `Notebooks.EdgesToCount` | notes.py:55-57 | the edge to a note is created once for each time it is listed |
| `Notebooks.ChildrenAdds` | notes.py:54-63 | `children(add=C)` succeeds and returns each `c` once more per listing |
| `Notebooks.ParentsAdds` | notes.py:66-75 | `parents(add=P)` succeeds and returns each `p` once more per listing |
| `Notebooks.ChildrenParentsMirror` | notes.py:54-75 | adding `c` as a child of `p` and `p` as a parent of `c` give the same graph |
| `Notebooks.RemoveChildExactly` | notes.py:59-61 | removing a child fails iff there is no such edge, and otherwise takes away exactly one copy of it |
| `Notebooks.Notes` | notes.py:139-144 | only notes of the notebook are listed, at most all of them |
| `Notebooks.NotesFilter` | notes.py:139-144 | a note is listed iff it is in the notebook and passes the predicate; an accepted note is listed as many times as it occurs, a rejected one never; the listing keeps vertex order |
| `Notebooks.NotesAll` | notes.py:143 | with no predicate every note is listed, in vertex order |
| `Notebooks.FindId` | notes.py:127-131 | the first vertex whose id matches, or none when no vertex has it |
| `Notebooks.RemainingNotes` | notes.py:136 | fast removal keeps every note in its slot but the last, which moves into the freed slot |
| `Notebooks.RemoveVertex` | notes.py:136 | one note fewer, exactly the removed one; the graph stays well formed |
| `Notebooks.RemoveVertexEdges` | notes.py:136 | between the remaining notes, exactly the edges not touching the removed vertex survive, in the model's edge order |
| `Notebooks.RelabelPairs` | notes.py:136 | renumbering the last vertex preserves which notes each surviving edge joins |
| `Notebooks.EffectiveId` | notes.py:121-125 | the note's id wins over `id`; `None` and the empty string count as no id |
| `Notebooks.RemoveNote` | notes.py:119-136 | no id is an error, an id no note has is an error, and these are the only errors; otherwise the note removed is the first vertex carrying that id, no earlier vertex carrying it |
| `Notebooks.RemoveNoteRemoves` | notes.py:127-136 | with unique ids, no note with that id remains and every other note does |
| `Notebooks.MultiplicityOne` | notes.py:23 | with unique ids each note occurs once |
| `Notebooks.RemoveNoteAsWritten` | notes.py:127-134 | as written, `remove_note` never succeeds: it fails on a missing id, and otherwise on the first vertex it inspects |
| `Notebooks.RemoveNoteAsWrittenFails` | notes.py:128-129 | a one-note notebook: the code as written fails where the intended lookup removes the note |

## Left out

- Float arithmetic. Float literals are kept as their text. Any arithmetic on a float is reported
  as one error, `FloatArithmetic`, with no value. This includes a float times a string, which
  Python reports as a `TypeError`.
- Python 2 integer identity. `len(args) is 1` in `subtract` (query.py:32) is modelled as `==`.
  That is what CPython's small-integer cache makes it.
- Exception types. The model distinguishes errors by cause only: lexing, syntax, unknown name,
  arity, type, division by zero. The token and position where plyplus reports a lexing or syntax
  error are not modelled.
- plyplus itself. Its lexer precedence and parse-tree shapes are not visible. The lexer is
  specified through the regular expressions of the grammar, each class matched greedily from the
  first character.
- The debug `print(ast)` of query.py:66, a side effect that is not part of the result.
- The one-argument `expose(func)` of query.py:18-19. The two-argument definition that follows
  replaces it, so it cannot be called.
- Builtins other than arithmetic. The set-oriented query functions are not defined in any
  modelled file, and are not invented here. The values a query can produce are `int`, `float`
  tags and `str`.
- Transformer.Eval: a builtin is a total function from argument values to a result. Builtins
  with side effects or other value kinds are outside the model.
- Storage plumbing. Left out: storm and sqlite sessions and table creation
  (rel/graph.py:126-170), graph_tool loading, saving and export (notes.py:93-103, 147-152),
  `create_note` and `create_node`, `uuid4` and `datetime` defaults, `__repr__` formatting, and
  the `content` setter. `Node.__hash__` and `Node.__eq__` are left out too; the latter refers to
  an undefined `Note`.
- NodeStore.UpdateChildren: storm reports a duplicate primary key when it flushes, not at
  `add`. The model reports the error at the call and keeps no partial update. The foreign keys
  of the edge table are not modelled: sqlite does not enforce them by default.
- NodeStore.UpdateParents: same flush timing as `UpdateChildren`.
- Notebooks.Children: the order in which graph_tool lists neighbours is not stated. Only how
  many times each neighbour appears is stated, which is all the source relies on.
- Notebooks.Parents: the order of the in-neighbours is not stated either, for the same reason.
  Only how many times each one appears is stated.
- Notebooks.Update: on failure the model returns an error and keeps the old graph. In notes.py
  the edges added before the failing `remove_edge` call, and the edges removed before it, stay
  applied, because graph_tool changes the graph in place. The partially updated graph is not
  modelled.
- Notebooks.NoteShort: counts characters, as `Common.Short` does. That is right for rel/graph.py,
  whose `content` is a `Unicode()` column (rel/graph.py:24). In notes.py, `content` is a
  graph_tool `"string"` property (notes.py:103), which Python 2 reads as a byte string. There
  `[:140]` cuts after 140 bytes and may split a multi-byte UTF-8 character. The model has no byte
  encoding.
- Arithmetic.Multiply: with one string among three or more operands, the contract says the
  result is a string but not which one; `Arithmetic.MultiplyRepeats` gives it for two operands.
  Python repeats the running string by each later count in turn, so a count of 0 or less anywhere
  after the string empties it.
- Arithmetic.Repeat: integers and strings are unbounded in the model. In Python, repeating a
  string a huge number of times raises `OverflowError` or `MemoryError`; the model returns the
  repeated string.
- Notebooks.Notes: the predicate is modelled as a pure function of a note's id and content, and
  the generator as a list. notes.py:142-143 passes a `Note` handle, through which a predicate
  could read the graph's edges or, by `children`/`parents` with `add`/`remove`, change them while
  the lazy generator runs. Such predicates are not modelled. The predicate ui.py builds
  (ui.py:75-77) only tests a note's id.
- Notebooks.NotesFilter: states membership, multiplicity and order only for predicates of that
  pure kind, for the same reason.
- Notebooks.RemoveNote: requires a well-formed graph, one where every edge joins two existing
  vertices, which graph_tool guarantees. The raised `Error` is undefined in notes.py, so each
  raise is in fact a `NameError`. Either way the call fails and changes nothing.
- Notebooks.RemoveNoteRemoves: assumes note ids are unique. They come from `uuid4`
  (notes.py:23), and a collision is not modelled.
- Note handles after a removal. graph_tool renumbers the last vertex, and a `Note` object
  holding the old descriptor of that vertex is not tracked.
- Python 2 strings. A `str` has no `__iter__` in Python 2, so `to_iter` treats a string as a
  single object (`PyArg.Scalar`).
- The command-line interface and the editor UI (rel/__init__.py, ui.py), and packaging
  (setup.py).

## Findings

| source | as written | input that shows it | evidently intended | confidence | as-written member | corrected member |
|---|---|---|---|---|---|---|
| notes.py:128-129 | the loop compares `v.id` for each graph_tool vertex `v`. A vertex has no `id` attribute, so the first iteration raises and no note can ever be removed | a notebook holding one note with id `"a"`, then `remove_note(id="a")`; see `Notebooks.RemoveNoteAsWrittenFails` | compare the vertex's `id` property, as `Note(self, vertex=v).id` reads it (notes.py:30-31), and remove the first matching vertex | medium, not executed | `Notebooks.RemoveNoteAsWritten` | `Notebooks.RemoveNote` |
