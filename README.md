# Data codec and five graph, tree and array algorithms, in Dafny

This project models six Python files and proves properties of the model.

**The data codec (`data_serialization.py`).** It works on a small dynamic value model: `None`, bool, int, float, str, list, and an insertion-ordered dict. Its parts are:

- scalar coercion of text tokens (`_token_to_primitive`);
- the inline **COLON** syntax `{k:v;...}` / `[a,b]`. It has a cursor-driven recursive-descent parser (`_ColonParser`, `parse_colon_format`) and a serializer with backslash escaping (`serialize_colon`);
- the indentation-based **PIPE** syntax: four spaces per level, `key|`, `key|value` and `- item` lines. It has a line writer (`serialize_pipe`) and a block reader (`parse_pipe_format` with `build_block`);
- the format dispatcher `convert_format`;
- the schema validator `validate_schema`, which collects error messages.

**The five algorithms.**

- Ford-Fulkerson maximum flow, with a breadth-first search on a residual capacity matrix (`Ford_fulkerson.py`).
- The preorder binary-tree codec with `None` markers (`serial_deserial_Binarytrees.py`).
- Enumeration of every path between two nodes by depth-first search (`all_paths_graphs.py`).
- The k-th smallest value of a binary search tree by iterative in-order traversal (`K_smallest_VST.py`).
- The maximum-product contiguous subarray (`max_product_Subarray.py`).

**How the model is written.** Code that mutates state is written as imperative Dafny:

- the COLON parser is a class with a cursor field;
- the PIPE block reader is a class with the shared line index;
- the validator is a class that holds the shared `errors` list;
- the max-flow graph holds the residual matrix in an `array2`;
- the tree codec is a class with its `index` field;
- the all-paths graph is a class with its adjacency dict;
- k-th smallest and maximum product are methods with loops.

Each method is proved against a specification function over values. The properties that hold across calls are stated as lemmas about those functions.

Modules:

| Module | Contents |
|---|---|
| `Text` | whitespace, `strip`, `lower`, `split` / `join` |
| `Numerals` | decimal text of integers, matching `-?\d+`, Python's `int()` |
| `Values` | the value datatype, dict assignment, coercion |
| `Colon`, `ColonWriter`, `ColonRoundTrip`, `Positions` | the COLON syntax |
| `Pipe`, `PipeRoundTrip`, `PipeFacts` | the PIPE syntax |
| `Convert` | the dispatcher |
| `Schemas` | the validator |
| `MaxFlow`, `TreeCodec`, `AllPaths`, `KthSmallest`, `MaxProduct` | the algorithms |

## Model

| member | source | states |
|---|---|---|
| Values.Coerce | Domain10_SrilakshmiThammineni_Assignment8/data_serialization.py:3-11 | coercion never fails and always yields a scalar (never a list or dict) |
| Values.CoerceCases | Domain10_SrilakshmiThammineni_Assignment8/data_serialization.py:3-11 | on the stripped token: `''` gives `''`; `null`/`true`/`false` in any case give None/True/False; a full `-?\d+` match gives that int; a full `-?\d+\.\d+` match gives a float; anything else gives the stripped string |
| Values.CoerceOfStripped | Domain10_SrilakshmiThammineni_Assignment8/data_serialization.py:4 | coercing a token and coercing its stripped form agree |
| Values.CoerceIntText | Domain10_SrilakshmiThammineni_Assignment8/data_serialization.py:9 | the decimal text of any int coerces back to that int |
| Values.Lookup | Domain10_SrilakshmiThammineni_Assignment8/data_serialization.py:176 | a key is found exactly when it is one of the dict's keys, and the value found is the one stored under it |
| Values.PutLookup | Domain10_SrilakshmiThammineni_Assignment8/data_serialization.py:60 | after `obj[key] = val`, looking up `key` gives `val`, and every other key keeps its value |
| Values.PutKeys | Domain10_SrilakshmiThammineni_Assignment8/data_serialization.py:77 | a re-assigned key keeps its position; a new key goes at the end |
| Values.PutUnique | Domain10_SrilakshmiThammineni_Assignment8/data_serialization.py:60 | assignment never creates a duplicate key |
| Numerals.NatToString | Domain10_SrilakshmiThammineni_Assignment8/data_serialization.py:183 | the index in `[idx]` is written as decimal digits denoting it, with no leading zero |
| Numerals.IntToStringRoundTrip | Domain10_SrilakshmiThammineni_Assignment8/data_serialization.py:9 | `str(i)` matches `-?\d+`, and its value is `i` |
| Numerals.IntTextNotFloat | Domain10_SrilakshmiThammineni_Assignment8/data_serialization.py:9-10 | an integer text never also matches the float pattern |
| Numerals.PyIntRoundTrip | Domain10_SrilakshmiThammineni_Assignment8/serial_deserial_Binarytrees.py:15 | `int(str(v)) == v` for every node value |
| Colon.SkipWs | Domain10_SrilakshmiThammineni_Assignment8/data_serialization.py:18-19 | `_consume_whitespace` moves forward and stops at the end or at a non-space |
| Colon.SkipWsSpaces | Domain10_SrilakshmiThammineni_Assignment8/data_serialization.py:18-19 | every character skipped is whitespace |
| Colon.ScanUntil | Domain10_SrilakshmiThammineni_Assignment8/data_serialization.py:25-28 | a token loop stops at the end or at a stop character |
| Colon.ScanUntilFirst | Domain10_SrilakshmiThammineni_Assignment8/data_serialization.py:39-42 | a token loop stops at the first stop character |
| Colon.ValueAt | Domain10_SrilakshmiThammineni_Assignment8/data_serialization.py:20-29 | a value that is read leaves the cursor within the text |
| Colon.ObjectAt | Domain10_SrilakshmiThammineni_Assignment8/data_serialization.py:48-65 | an object that is read is a dict, and the cursor is past its `{` |
| Colon.ListAt | Domain10_SrilakshmiThammineni_Assignment8/data_serialization.py:30-47 | a list that is read is a list, and the cursor is past its `[` |
| Colon.ItemAt | Domain10_SrilakshmiThammineni_Assignment8/data_serialization.py:35-43 | a list item consumes nothing only when it starts at `,` or `]` |
| Colon.Document | Domain10_SrilakshmiThammineni_Assignment8/data_serialization.py:67-81 | a text that `parse_colon_format` finishes on always gives a dict |
| Colon.ObjectEntriesMember | Domain10_SrilakshmiThammineni_Assignment8/data_serialization.py:59-64 | after a pair, `;` continues the object, the end of the text stops it with the pairs read, and anything else is read as the next key (a case of `ObjectEntries`, spelled out as a proof step) |
| Colon.ObjectEntriesClose | Domain10_SrilakshmiThammineni_Assignment8/data_serialization.py:52 | `}` after whitespace ends the object with the entries read (a case of `ObjectEntries`, spelled out as a proof step) |
| Colon.ListItemsItem | Domain10_SrilakshmiThammineni_Assignment8/data_serialization.py:35-46 | an item is appended, and `,` is skipped after it (a case of `ListItems`, spelled out as a proof step) |
| Colon.ListItemsClose | Domain10_SrilakshmiThammineni_Assignment8/data_serialization.py:34 | `]` after whitespace ends the list with the items read (a case of `ListItems`, spelled out as a proof step) |
| Colon.TopEntriesMember | Domain10_SrilakshmiThammineni_Assignment8/data_serialization.py:72-80 | a top-level pair followed by `;` continues; otherwise the dict read so far is the result (a case of `TopEntries`, spelled out as a proof step) |
| Colon.UnterminatedList | Domain10_SrilakshmiThammineni_Assignment8/data_serialization.py:30-47 | at the end of the text, `parse_list` never returns, whatever it has read |
| Colon.UnterminatedListLoops | Domain10_SrilakshmiThammineni_Assignment8/data_serialization.py:30-47 | `parse_colon_format("k:[a")` never returns |
| Colon.ColonParser.constructor | Domain10_SrilakshmiThammineni_Assignment8/data_serialization.py:14-15 | the parser starts with its cursor at 0 |
| Colon.ColonParser.Next | Domain10_SrilakshmiThammineni_Assignment8/data_serialization.py:17 | `_next` returns the character at the cursor and advances by one |
| Colon.ColonParser.ConsumeWhitespace | Domain10_SrilakshmiThammineni_Assignment8/data_serialization.py:18-19 | the cursor ends where `SkipWs` says |
| Colon.ColonParser.ReadUntil | Domain10_SrilakshmiThammineni_Assignment8/data_serialization.py:25-28 | returns the text up to the first stop character and leaves the cursor on that character |
| Colon.ColonParser.ReadPair | Domain10_SrilakshmiThammineni_Assignment8/data_serialization.py:53-61 | reads one `key:value` pair into the dict, as `PairAt` specifies |
| Colon.ColonParser.ParseValue | Domain10_SrilakshmiThammineni_Assignment8/data_serialization.py:20-29 | returns the value `ValueAt` specifies and leaves the cursor after it |
| Colon.ColonParser.ListMember | Domain10_SrilakshmiThammineni_Assignment8/data_serialization.py:33-46 | one turn of the list loop: it closes on `]`, or appends the next item and skips one `,` |
| Colon.ColonParser.ParseList | Domain10_SrilakshmiThammineni_Assignment8/data_serialization.py:30-47 | returns the list `ListAt` specifies and leaves the cursor after it |
| Colon.ColonParser.ObjectMember | Domain10_SrilakshmiThammineni_Assignment8/data_serialization.py:51-64 | one turn of the object loop: it closes on `}`, or assigns the next pair and skips one `;` |
| Colon.ColonParser.ParseObject | Domain10_SrilakshmiThammineni_Assignment8/data_serialization.py:48-65 | returns the dict `ObjectAt` specifies and leaves the cursor after it |
| Colon.ColonParser.TopMember | Domain10_SrilakshmiThammineni_Assignment8/data_serialization.py:73-80 | one top-level pair, and whether a `;` follows it |
| Colon.ParseColonFormat | Domain10_SrilakshmiThammineni_Assignment8/data_serialization.py:67-81 | returns the dict `Document` specifies |
| ColonWriter.SerializeColon | Domain10_SrilakshmiThammineni_Assignment8/data_serialization.py:84-86 | None is written `null`; a bool is tested before an int, so it is written `true` or `false` and never as a number; an int is written as its decimal text |
| ColonWriter.JoinedText | Domain10_SrilakshmiThammineni_Assignment8/data_serialization.py:92-98 | a list is written as `[`, the `,`-join of its items' texts and `]`; a dict as `{`, the `;`-join of its `k:v` parts in insertion order and `}` |
| ColonWriter.ItemsJoin | Domain10_SrilakshmiThammineni_Assignment8/data_serialization.py:93 | the writer's text of the items is the `,`-join of the items' texts, in order |
| ColonWriter.EntriesJoin | Domain10_SrilakshmiThammineni_Assignment8/data_serialization.py:95-98 | the writer's text of the entries is the `;`-join of one `k:v` part per entry, in insertion order |
| ColonWriter.StrTextUnchanged | Domain10_SrilakshmiThammineni_Assignment8/data_serialization.py:87-91 | a string is written unchanged exactly when it holds none of `;:{}[],` |
| ColonWriter.EscapeLength | Domain10_SrilakshmiThammineni_Assignment8/data_serialization.py:88-90 | escaping never shortens a string, and lengthens one that holds a reserved character |
| ColonWriter.EscapeRoundTrip | Domain10_SrilakshmiThammineni_Assignment8/data_serialization.py:89 | deleting the backslash before each escaped character recovers the string |
| ColonRoundTrip.CoerceKeyword | Domain10_SrilakshmiThammineni_Assignment8/data_serialization.py:6-8 | `null`, `true` and `false`, as `serialize_colon` writes them, coerce back to None, True and False |
| ColonRoundTrip.ScalarText | Domain10_SrilakshmiThammineni_Assignment8/data_serialization.py:84-91 | a round-trippable scalar is written as text that does not start with whitespace, contains no stop character and coerces back to the scalar |
| ColonRoundTrip.FirstChar | Domain10_SrilakshmiThammineni_Assignment8/data_serialization.py:84-98 | only the empty string is written as empty text; any other round-trippable value's text starts with neither whitespace nor a closing `]` or `}` |
| ColonRoundTrip.ValueRoundTrip | Domain10_SrilakshmiThammineni_Assignment8/data_serialization.py:20-29 | `parse_value` on the written text of a round-trippable value reads that value and stops at its end |
| ColonRoundTrip.ListRoundTrip | Domain10_SrilakshmiThammineni_Assignment8/data_serialization.py:30-47 | `parse_list` reads back a written list and stops after its `]` |
| ColonRoundTrip.ObjectRoundTrip | Domain10_SrilakshmiThammineni_Assignment8/data_serialization.py:48-65 | `parse_object` reads back a written dict and stops after its `}` |
| ColonRoundTrip.EntriesRoundTrip | Domain10_SrilakshmiThammineni_Assignment8/data_serialization.py:50-64 | the object loop reads the written entries back in order, after those already read |
| ColonRoundTrip.ColonRoundTrip | Domain10_SrilakshmiThammineni_Assignment8/data_serialization.py:67-98 | `parse_colon_format(serialize_colon(m)) == m` under these conditions: `m` is a dict with unique keys; keys are stripped, contain no `:` and do not start with `}`; strings hold no reserved character and coerce to themselves; no list ends with an empty string; there are no floats. An empty string as a dict value or as an earlier list item reads back |
| ColonRoundTrip.TrailingEmptyItemLost | Domain10_SrilakshmiThammineni_Assignment8/data_serialization.py:33-46 | the one list item left out above: `{'k': ['a', '']}` is written `{k:[a,]}`, and `parse_list` closes the list after `a`, so the dict read back differs |
| Pipe.PyStr | Domain10_SrilakshmiThammineni_Assignment8/data_serialization.py:117-121 | `str()` of a scalar: a string is itself, None is `None`, booleans are `True`/`False`, an int is its decimal text |
| Pipe.SerializePipe | Domain10_SrilakshmiThammineni_Assignment8/data_serialization.py:101-123 | returns exactly the rendered lines of the layout: `k\|` followed by a nested block for a dict or list value, `k\|v` for a scalar, `- item` bullets one level deeper, `-` and a block two levels deeper for a nested container, and four spaces per level |
| Pipe.EntryLines | Domain10_SrilakshmiThammineni_Assignment8/data_serialization.py:104-118 | the lines written for one dict item |
| Pipe.ListLines | Domain10_SrilakshmiThammineni_Assignment8/data_serialization.py:110-117 | the lines written for the items of a list value |
| Pipe.ListItem | Domain10_SrilakshmiThammineni_Assignment8/data_serialization.py:111-117 | one pass of the loop over a list value's items: the lines of the next item are added, and the written lines stay a prefix of the whole list's lines |
| Pipe.ItemLines | Domain10_SrilakshmiThammineni_Assignment8/data_serialization.py:111-117 | the lines written for one list item, scalar or nested |
| Pipe.InnerItems | Domain10_SrilakshmiThammineni_Assignment8/data_serialization.py:116 | the bullets of a list nested inside a list, two levels deeper |
| Pipe.BulletsAppend | Domain10_SrilakshmiThammineni_Assignment8/data_serialization.py:121 | the bullet lines of two lists of items, one after the other, are the bullets of the joined list |
| Pipe.SplitLines | Domain10_SrilakshmiThammineni_Assignment8/data_serialization.py:126 | the text splits into at least one line, and no line contains a line break |
| Pipe.LeadingSpaces | Domain10_SrilakshmiThammineni_Assignment8/data_serialization.py:129 | counts exactly the run of leading spaces |
| Pipe.Indented | Domain10_SrilakshmiThammineni_Assignment8/data_serialization.py:129-131 | the level is the number of leading spaces divided by four, rounded down, and the content is what follows them: everything before the content is a space, and the content does not start with one |
| Pipe.IndentLines | Domain10_SrilakshmiThammineni_Assignment8/data_serialization.py:127-132 | each line of the list becomes its (level, content) pair, in order |
| Pipe.PipeDocument | Domain10_SrilakshmiThammineni_Assignment8/data_serialization.py:125-158 | a text read without error gives a dict or a list |
| Pipe.PipeParser.constructor | Domain10_SrilakshmiThammineni_Assignment8/data_serialization.py:133 | the parser holds the parsed lines and starts with the shared index `i` at 0 |
| Pipe.PipeParser.BuildBlock | Domain10_SrilakshmiThammineni_Assignment8/data_serialization.py:134-156 | the value and the line index it leaves are those that `Block` specifies from the index it started at, with an empty dict as the accumulator |
| Pipe.ParsePipeFormat | Domain10_SrilakshmiThammineni_Assignment8/data_serialization.py:125-158 | returns what `PipeDocument` specifies, including the `TypeError` raised by a key assigned to a list |
| PipeRoundTrip.RenderFine | Domain10_SrilakshmiThammineni_Assignment8/data_serialization.py:126-131 | a written line is not blank, has no trailing space, and reads back as its own level and content |
| PipeRoundTrip.ReadRendered | Domain10_SrilakshmiThammineni_Assignment8/data_serialization.py:126-132 | joining the written lines with `\n` and splitting again yields the same lines; none is dropped as blank, and they read back as the same levels and contents |
| PipeRoundTrip.BlockEnds | Domain10_SrilakshmiThammineni_Assignment8/data_serialization.py:137-139 | a block ends at the end of the lines or at the first shallower line, with what it has read |
| PipeRoundTrip.KeyBlockRead | Domain10_SrilakshmiThammineni_Assignment8/data_serialization.py:147-151 | a `k\|` line assigns `k` the block read one level deeper and continues after it |
| PipeRoundTrip.KeyScalarRead | Domain10_SrilakshmiThammineni_Assignment8/data_serialization.py:147-154 | a `k\|v` line assigns `k` the coerced `v` |
| PipeRoundTrip.ScalarItemRead | Domain10_SrilakshmiThammineni_Assignment8/data_serialization.py:142-146 | a `- v` line appends the coerced `v` to the list, or starts a list |
| PipeRoundTrip.ItemsRead | Domain10_SrilakshmiThammineni_Assignment8/data_serialization.py:137-146 | a run of written bullets followed by the block's end reads back as the list of those items |
| PipeRoundTrip.EntriesRead | Domain10_SrilakshmiThammineni_Assignment8/data_serialization.py:134-156 | the written lines of a dict's items read back as those items, in order, after those already read |
| PipeRoundTrip.FloatScalar | Domain10_SrilakshmiThammineni_Assignment8/data_serialization.py:10 | a float such as `1.5`, whose kept text is stripped and matches `-?\d+\.\d+`, is a scalar the PIPE round trip admits |
| PipeRoundTrip.PipeRoundTrip | Domain10_SrilakshmiThammineni_Assignment8/data_serialization.py:101-158 | `parse_pipe_format('\n'.join(serialize_pipe(m))) == m` for a dict with unique surviving keys whose values are surviving scalars, nested such dicts, or non-empty lists of surviving scalars (and for such a list itself) |
| PipeFacts.EmptyChildrenWritten | Domain10_SrilakshmiThammineni_Assignment8/data_serialization.py:105-109 | `{k: {}}` and `{k: []}` are both written as the single line `k\|` |
| PipeFacts.EmptyChildrenRead | Domain10_SrilakshmiThammineni_Assignment8/data_serialization.py:147-151 | `k\|` reads back as `{k: {}}`, so `{k: []}` does not survive |
| PipeFacts.ItemReplacesDict | Domain10_SrilakshmiThammineni_Assignment8/data_serialization.py:142-146 | a `- ` line at the block's level replaces a dict read so far, whatever its keys, with a one-item list |
| PipeFacts.DeeperLineSkipped | Domain10_SrilakshmiThammineni_Assignment8/data_serialization.py:140 | a deeper line that no `key\|` claims is skipped |
| PipeFacts.NonItemAfterItem | Domain10_SrilakshmiThammineni_Assignment8/data_serialization.py:147-155 | once the block is a list, any non-`- ` line of its level raises `TypeError` |
| Convert.ReadFormat | Domain10_SrilakshmiThammineni_Assignment8/data_serialization.py:161-163 | only `COLON` and `PIPE` are read |
| Convert.WriteFormat | Domain10_SrilakshmiThammineni_Assignment8/data_serialization.py:164-167 | the result is a text, the value itself, or the `Unsupported to_format` error |
| Convert.UnknownSource | Domain10_SrilakshmiThammineni_Assignment8/data_serialization.py:161-163 | an unknown `from_format` raises `Unsupported from_format` before anything is read, whatever the target |
| Convert.UnknownTarget | Domain10_SrilakshmiThammineni_Assignment8/data_serialization.py:164-167 | an unknown `to_format` raises `Unsupported to_format` exactly when reading succeeded |
| Convert.Targets | Domain10_SrilakshmiThammineni_Assignment8/data_serialization.py:164-166 | `OBJ` returns the value read unchanged; `PIPE` returns the written lines joined by `\n`; `COLON` returns `serialize_colon` of it (a case of `ConvertFormat`, spelled out as a proof step) |
| Convert.ColonToObject | Domain10_SrilakshmiThammineni_Assignment8/data_serialization.py:161-166 | a round-trippable dict written in COLON converts to `OBJ` as itself |
| Convert.PipeToObject | Domain10_SrilakshmiThammineni_Assignment8/data_serialization.py:162-166 | a surviving dict or list written in PIPE converts to `OBJ` as itself |
| Convert.ColonPipeColon | Domain10_SrilakshmiThammineni_Assignment8/data_serialization.py:160-167 | converting COLON to PIPE, and then PIPE back to COLON, gives the COLON text of the value read, when that value survives PIPE |
| Convert.ConvertWith | Domain10_SrilakshmiThammineni_Assignment8/data_serialization.py:160-167 | running the parsers and writers gives what `convert_format` specifies |
| Schemas.NoErrorsIffConforms | Domain10_SrilakshmiThammineni_Assignment8/data_serialization.py:169-194 | no message at all exactly when the value matches the schema: every required key is present and matches; list items match a truthy element schema; the type tags hold (a bool counts as an int); `None` matches null; predicates hold |
| Schemas.FieldsNoErrors | Domain10_SrilakshmiThammineni_Assignment8/data_serialization.py:175-177 | a dict gets no message for its required keys exactly when each is present and matches |
| Schemas.ItemsNoErrors | Domain10_SrilakshmiThammineni_Assignment8/data_serialization.py:181-183 | a list gets no message for its items exactly when every item matches |
| Schemas.OnlyRequiredKeys | Domain10_SrilakshmiThammineni_Assignment8/data_serialization.py:175-177 | the messages for a dict depend only on the values of the required keys |
| Schemas.ExtraKeysIgnored | Domain10_SrilakshmiThammineni_Assignment8/data_serialization.py:175-177 | keys the schema does not name change no message |
| Schemas.NotObject | Domain10_SrilakshmiThammineni_Assignment8/data_serialization.py:173-174 | a non-dict against a dict schema gets exactly one message, `/: expected object` at the root, and no key is checked |
| Schemas.FalsyElementSchema | Domain10_SrilakshmiThammineni_Assignment8/data_serialization.py:181-183 | a list schema whose element schema is `{}`, `[]` or `None` checks no item |
| Schemas.PredicateOneError | Domain10_SrilakshmiThammineni_Assignment8/data_serialization.py:189-192 | a predicate that returns false or raises gives exactly one message; one that holds gives none |
| Schemas.FieldsConcatenate | Domain10_SrilakshmiThammineni_Assignment8/data_serialization.py:175-177 | each required key is checked whatever the earlier keys gave: the messages concatenate |
| Schemas.MissingAgeSample | Domain10_SrilakshmiThammineni_Assignment8/data_serialization.py:169-194 | `{name: "x"}` against `{name: str, age: int}` gives exactly `["/age: missing"]` |
| Schemas.Validator.constructor | Domain10_SrilakshmiThammineni_Assignment8/data_serialization.py:170 | the message list starts empty |
| Schemas.Validator.Validate | Domain10_SrilakshmiThammineni_Assignment8/data_serialization.py:171-192 | appends exactly the messages that `Errors` specifies to the shared list |
| Schemas.Validator.Field | Domain10_SrilakshmiThammineni_Assignment8/data_serialization.py:176-177 | appends the messages for one required key |
| Schemas.Validator.Item | Domain10_SrilakshmiThammineni_Assignment8/data_serialization.py:183 | appends the messages for one list item, under the path `path[idx]` |
| Schemas.ValidateSchema | Domain10_SrilakshmiThammineni_Assignment8/data_serialization.py:169-194 | returns the messages in order, and returns none exactly when the value conforms |
| MaxFlow.Graph.constructor | Domain10_SrilakshmiThammineni_Assignment8/Ford_fulkerson.py:4-6 | the residual matrix is a fresh copy of the given one, so the caller's matrix is never changed |
| MaxFlow.Graph.Bfs | Domain10_SrilakshmiThammineni_Assignment8/Ford_fulkerson.py:8-22 | returns true exactly when `t != s` and a positive-capacity walk leads from `s` to `t`; then `parent` leads back from `t` to `s` along a path without repeated nodes whose edges have positive capacity; `parent[s]` is untouched |
| MaxFlow.Graph.ScanRow | Domain10_SrilakshmiThammineni_Assignment8/Ford_fulkerson.py:15-21 | one row scan either finds `t` with an augmenting path, or keeps the search invariant and does not increase the termination measure |
| MaxFlow.Graph.PathFlow | Domain10_SrilakshmiThammineni_Assignment8/Ford_fulkerson.py:29-34 | the path flow is positive, no larger than any edge of the path, and equal to one of them: their minimum |
| MaxFlow.Graph.Augment | Domain10_SrilakshmiThammineni_Assignment8/Ford_fulkerson.py:35-40 | the matrix becomes the old one with the flow pushed along each edge of the path |
| MaxFlow.Graph.PushEdge | Domain10_SrilakshmiThammineni_Assignment8/Ford_fulkerson.py:38-39 | lowers `graph[u][v]` and raises `graph[v][u]` by the flow |
| MaxFlow.Graph.Round | Domain10_SrilakshmiThammineni_Assignment8/Ford_fulkerson.py:28-41 | one augmentation keeps the flow accounting and strictly lowers the source row's sum |
| MaxFlow.Graph.FordFulkerson | Domain10_SrilakshmiThammineni_Assignment8/Ford_fulkerson.py:24-42 | the result is the original source row's sum minus the residual source row's sum; it lies between 0 and the total capacity out of the source; it is 0 when source and sink coincide; at the end no positive-capacity walk leads from source to sink; residual pair sums are preserved and no capacity falls below the floor; every node other than source and sink keeps its row sum (flow conservation), and the sink's row sum grows by the result |
| MaxFlow.PushEntry | Domain10_SrilakshmiThammineni_Assignment8/Ford_fulkerson.py:38-39 | pushing along one edge changes only that entry and its reverse |
| MaxFlow.NetPair | Domain10_SrilakshmiThammineni_Assignment8/Ford_fulkerson.py:36-40 | along a path without repeated nodes, what one direction of a pair loses the other gains |
| MaxFlow.PushedResidual | Domain10_SrilakshmiThammineni_Assignment8/Ford_fulkerson.py:36-40 | augmenting by at most the bottleneck keeps every `graph[u][v] + graph[v][u]`, and keeps every capacity at or above its floor (0 for an edge that started non-negative) |
| MaxFlow.ProgressRound | Domain10_SrilakshmiThammineni_Assignment8/Ford_fulkerson.py:28-41 | a round adds the path flow to `max_flow` and takes it from the source row's sum |
| MaxFlow.PushedConserves | Domain10_SrilakshmiThammineni_Assignment8/Ford_fulkerson.py:35-40 | augmenting along a path from source to sink leaves the row sum of every other node unchanged: what a node on the path receives it sends on |
| MaxFlow.PushedRowAt | Domain10_SrilakshmiThammineni_Assignment8/Ford_fulkerson.py:35-40 | the node at position `i` of the path gains the flow from its predecessor and, unless it is the sink, loses it to its successor |
| MaxFlow.NetAt | Domain10_SrilakshmiThammineni_Assignment8/Ford_fulkerson.py:35-40 | on a path without repeated nodes, an entry of a node's row changes only toward its successor, by `-f`, and toward its predecessor, by `f` |
| MaxFlow.ConservedRound | Domain10_SrilakshmiThammineni_Assignment8/Ford_fulkerson.py:28-41 | a round keeps flow conservation at every other node and adds the path flow to the sink's row sum |
| MaxFlow.ProgressBound | Domain10_SrilakshmiThammineni_Assignment8/Ford_fulkerson.py:24-42 | the flow never exceeds the capacity out of the source |
| MaxFlow.ChainPath | Domain10_SrilakshmiThammineni_Assignment8/Ford_fulkerson.py:16-19 | the parents recorded by the search lead back along a positive walk without repeated nodes |
| MaxFlow.WalkStaysMarked | Domain10_SrilakshmiThammineni_Assignment8/Ford_fulkerson.py:13-22 | once the search is exhausted, every node that a positive walk reaches from `s` is visited |
| TreeCodec.TokenCount | Domain10_SrilakshmiThammineni_Assignment8/serial_deserial_Binarytrees.py:11-18 | a tree with n nodes gives 2n+1 tokens, n+1 of them `None` |
| TreeCodec.TokensNoComma | Domain10_SrilakshmiThammineni_Assignment8/serial_deserial_Binarytrees.py:15-20 | no token contains a comma, so splitting the join recovers the tokens |
| TreeCodec.Classify | Domain10_SrilakshmiThammineni_Assignment8/serial_deserial_Binarytrees.py:27-30 | a token is read as a missing node exactly when it is `None` |
| TreeCodec.Decode | Domain10_SrilakshmiThammineni_Assignment8/serial_deserial_Binarytrees.py:26-34 | reading at or past the end raises an index error; an empty tree is read exactly when the token is `None`; a subtree that is read consumes at least one token |
| TreeCodec.DecodeTokens | Domain10_SrilakshmiThammineni_Assignment8/serial_deserial_Binarytrees.py:26-34 | `build` reads exactly one encoded subtree, advancing the index by its token count and ignoring what follows |
| TreeCodec.RoundTrip | Domain10_SrilakshmiThammineni_Assignment8/serial_deserial_Binarytrees.py:8-36 | `deserialize(serialize(t))` is `t` for every tree |
| TreeCodec.ProperPrefixFails | Domain10_SrilakshmiThammineni_Assignment8/serial_deserial_Binarytrees.py:27 | a token list cut short of a whole tree raises an index error |
| TreeCodec.BadTokenFails | Domain10_SrilakshmiThammineni_Assignment8/serial_deserial_Binarytrees.py:30 | on the example `1,x,None,None`, the token `x`, which is neither `None` nor an integer, raises at `int()`, although the tokens after it would complete the tree |
| TreeCodec.SampleTokens | Domain10_SrilakshmiThammineni_Assignment8/serial_deserial_Binarytrees.py:38-46 | the sample tree serializes to `1,2,None,None,3,4,None,None,5,None,None` |
| TreeCodec.SampleRoundTrip | Domain10_SrilakshmiThammineni_Assignment8/serial_deserial_Binarytrees.py:45-48 | the sample deserializes to a root of value 1 |
| TreeCodec.Codec.constructor | Domain10_SrilakshmiThammineni_Assignment8/serial_deserial_Binarytrees.py:7 | a fresh codec's index is 0 |
| TreeCodec.Codec.Preorder | Domain10_SrilakshmiThammineni_Assignment8/serial_deserial_Binarytrees.py:11-17 | appends the node's preorder tokens to the shared list |
| TreeCodec.Codec.Serialize | Domain10_SrilakshmiThammineni_Assignment8/serial_deserial_Binarytrees.py:8-20 | the preorder tokens joined by commas |
| TreeCodec.Codec.Build | Domain10_SrilakshmiThammineni_Assignment8/serial_deserial_Binarytrees.py:26-34 | reads what `Decode` specifies from the current index, and leaves the index after the subtree |
| TreeCodec.Codec.Deserialize | Domain10_SrilakshmiThammineni_Assignment8/serial_deserial_Binarytrees.py:22-36 | the result depends only on the text, because the index is reset on every call |
| AllPaths.Graph.constructor | Domain10_SrilakshmiThammineni_Assignment8/all_paths_graphs.py:4-5 | the graph starts with no adjacency lists |
| AllPaths.Graph.AddEdge | Domain10_SrilakshmiThammineni_Assignment8/all_paths_graphs.py:7-8 | `v` goes at the end of `u`'s list, keeping order and duplicates; no other list changes |
| AllPaths.Graph.Dfs | Domain10_SrilakshmiThammineni_Assignment8/all_paths_graphs.py:14-21 | appends the walks from `current` in depth-first order, hands back the path as it found it, and changes no node's neighbours |
| AllPaths.Graph.SearchNeighbours | Domain10_SrilakshmiThammineni_Assignment8/all_paths_graphs.py:19-20 | appends the walks through each neighbour in list order |
| AllPaths.Graph.FindAllPaths | Domain10_SrilakshmiThammineni_Assignment8/all_paths_graphs.py:10-24 | returns the walks in depth-first order; `start == end` gives `[[start]]` |
| AllPaths.WalksValid | Domain10_SrilakshmiThammineni_Assignment8/all_paths_graphs.py:14-20 | every recorded path extends the current path by a walk from `current` to `end` along edges, meeting `end` only at its last node |
| AllPaths.WalksComplete | Domain10_SrilakshmiThammineni_Assignment8/all_paths_graphs.py:14-24 | every such walk is recorded |
| AllPaths.FindAllPathsExact | Domain10_SrilakshmiThammineni_Assignment8/all_paths_graphs.py:10-24 | a path is returned exactly when it starts at `start`, follows edges, and meets `end` only at its last node |
| AllPaths.SampleUnranked | Domain10_SrilakshmiThammineni_Assignment8/all_paths_graphs.py:26-35 | the sample graph has a cycle 2→0→2 that avoids `end`, so no ranking exists and the search does not end |
| KthSmallest.Inorder | Domain10_SrilakshmiThammineni_Assignment8/K_smallest_VST.py:12-20 | a non-empty tree has a non-empty in-order sequence |
| KthSmallest.PushKeeps | Domain10_SrilakshmiThammineni_Assignment8/K_smallest_VST.py:13-15 | pushing the current node and going left keeps the values still to be popped |
| KthSmallest.PopTakes | Domain10_SrilakshmiThammineni_Assignment8/K_smallest_VST.py:16-20 | popping yields the next in-order value, and the right subtree follows it |
| KthSmallest.KthSmallestValue | Domain10_SrilakshmiThammineni_Assignment8/K_smallest_VST.py:7-20 | for 1 ≤ k ≤ size, returns the k-th value in in-order sequence; otherwise returns None |
| KthSmallest.BstInorderIncreasing | Domain10_SrilakshmiThammineni_Assignment8/K_smallest_VST.py:12-20 | the in-order sequence of a search tree is strictly increasing |
| KthSmallest.KthIsKthSmallest | Domain10_SrilakshmiThammineni_Assignment8/K_smallest_VST.py:18-19 | in a search tree, exactly k-1 values lie below the returned one |
| KthSmallest.SampleKth | Domain10_SrilakshmiThammineni_Assignment8/K_smallest_VST.py:22-30 | the sample is a search tree with in-order 1..6, and k = 3 gives 3 |
| MaxProduct.Extend | Domain10_SrilakshmiThammineni_Assignment8/max_product_Subarray.py:7-10 | after the swap and update, the new running max and min bound the product of every slice ending at i from above and below (that they are reached is an invariant of `MaxProductSubarray`) |
| MaxProduct.ExtendBound | Domain10_SrilakshmiThammineni_Assignment8/max_product_Subarray.py:11 | the best product so far bounds every slice ending at or before i |
| MaxProduct.MaxProductSubarray | Domain10_SrilakshmiThammineni_Assignment8/max_product_Subarray.py:1-13 | an empty list fails at `nums[0]`; otherwise the result is the maximum product over all non-empty contiguous slices, it is at least every element, and a one-element list gives that element |
| MaxProduct.MaxProductUnique | Domain10_SrilakshmiThammineni_Assignment8/max_product_Subarray.py:11-13 | the maximum product is unique |
| MaxProduct.SampleMaxProduct | Domain10_SrilakshmiThammineni_Assignment8/max_product_Subarray.py:15-16 | `[2, 3, -2, 4]` gives 6 |
| Text.SplitJoin | Domain10_SrilakshmiThammineni_Assignment8/serial_deserial_Binarytrees.py:20-23 | splitting a comma-join of comma-free tokens recovers them |

## Left out

- **Printing and demos.** The `__main__` block of `data_serialization.py` and the module-level printing in the other files are I/O. The sample inputs appear only as lemmas.
- **Floats.** A float is kept as the decimal text it was read from, and `str(float)` normalisation is not modelled. Floats are therefore excluded from the COLON round trip. The PIPE round trip admits a float whose kept text is stripped and reads back as that same float, such as `1.5`, because the writer puts that text back unchanged (`PipeRoundTrip.FloatScalar`).
- **Characters.** Whitespace is the ASCII part of `str.isspace`; `\d` is ASCII digits; `lower()` folds ASCII letters only.
- **Line splitting.** `splitlines` is modelled as a split at each of `\n \r \v \f \x1c \x1d \x1e`. A `\r\n` pair therefore gives an extra empty line, and that line is dropped as blank, as all blank lines are.
- Pipe.PyStr: `repr` of a dict or list inside a list item is simplified. Strings are single-quoted without escaping and without Python's choice of quote character.
- Colon.ParseColonFormat: requires a text on which the parser finishes. The texts on which `parse_colon_format` runs forever are described by `Colon.Document` returning `Loops`, and by `UnterminatedList` and `UnterminatedListLoops`.
- Colon.ColonParser.ParseValue: this method, `ParseList`, `ParseObject`, `ReadPair`, `ListMember`, `ObjectMember` and `TopMember` require that the parse from the cursor finishes, for the same reason.
- Convert.ConvertWith: requires, when reading COLON, a text on which the parser finishes. `ConvertFormat` itself covers the non-terminating case as `NeverReturns`.
- PipeRoundTrip.PipeRoundTrip: these values are excluded because they do not survive a PIPE round trip:
  - `None`, which reads back as the string `None`;
  - empty strings;
  - scalars starting with `- `, with surrounding whitespace, or containing a line break;
  - strings that coerce to something else;
  - dict keys containing `|` or a line break, starting with `- `, or with surrounding whitespace (`PipeKey`);
  - dicts whose entry sequence repeats a key, which a Python dict cannot do (`UniqueKeys`);
  - empty lists, which read back as empty dicts (see PipeFacts);
  - containers nested inside lists.
- Schemas.NoErrorsIffConforms: a dict schema is a sequence of fields, so the model admits duplicate keys that a Python dict cannot hold. A predicate schema is a total function returning a truth value or `Raised`, not an arbitrary callable.
- Schemas.ValidateSchema: "at most one message per violation site" is stated for each kind of site (NotObject, PredicateOneError, the type tags in `Errors`), not as a single count over the whole value.
- MaxFlow.Graph.constructor: requires a square matrix. `bfs` indexes `visited` by column, so a row longer than the number of rows would raise in Python, and the model excludes such matrices.
- MaxFlow.Graph.PathFlow: starts from the capacity of the path's last edge rather than `float("inf")`. After the first `min` the two agree.
- MaxFlow.Graph.FordFulkerson: the result 23 for the sample matrix is not proved. Showing that it is the maximum needs the max-flow/min-cut theorem. What is proved is that the result is the value of a flow, sent out of the source and received by the sink with every other node conserved; no capacity falls below its floor; no augmenting path remains at the end; and the bound holds.
- MaxFlow.Graph.Bfs: the `deque` is a sequence value taken from its front, not a double-ended queue object.
- AllPaths.Graph.FindAllPaths: requires a ghost ranking proving that no cycle avoiding `end` is reachable from `start`. With such a cycle, the source recurses until `RecursionError`, and that case is not modelled.
- **Recursion and memory limits.** Python's `RecursionError` and running out of memory are not modelled.
- **Tree nodes.** The `TreeNode` objects of both tree files are a `Tree` datatype, so node identity and aliasing are not modelled. The k-th-smallest tree is then read-only by construction.
- **Mutable lists as values.** `nums`, `path` and `result` are sequence values passed in and handed back. The shared `path` list of `dfs` is therefore restored by a postcondition rather than by an in-place pop.
