# Parser Agent: the `parse_code` classifier

The repository's web service receives Python source text, parses it with
Python's own parser and answers with a flat list of flowchart entries.
`parse_code` walks every node of the syntax tree and keeps three kinds:

- a function definition becomes `{"line": "def <name>(...)", "symbol": "Subroutine"}`;
- an `if` statement becomes `{"line": "if ...", "symbol": "Decision"}`;
- a `return` statement becomes `{"line": "return ...", "symbol": "Terminator"}`;
- every other node is skipped.

The model has four modules:

- `Wrappers` (wrappers.dfy) holds `Option`.
- `PyAst` (py_ast.dfy) holds the walked node: `FunctionDef(name, args)`,
  `If(test)`, `Return(value)` and `Other(kind)` for every other node class.
  `Other` includes `AsyncFunctionDef`, because Python's
  `isinstance(node, ast.FunctionDef)` is false for it.
- `ParserAgent` (parser_agent.dfy) holds the symbols, the records, their
  dictionary form, the per-node classification `Classify`, and the
  specification function `ParsedLines`. It also holds the method
  `ParseCode`, which runs the source's loop. That loop starts from an
  empty list and appends inside an `if`/`elif` chain. The method is proved
  to compute `ParsedLines`.
- `ParserAgentProperties` (parser_agent_properties.dfy) proves what the
  list promises. It compares `ParsedLines` with reference definitions
  written independently of it: counts from the front, and the positions of
  recognised nodes.

Python's parser and its tree walk are not modelled. `ParseCode` takes the
sequence of nodes that `ast.walk` visits, in the order it visits them.

parser_agent.py builds no control-flow graph, escapes no labels and emits
no diagram text: it only builds the flat list above, and so does this model.

## Model

| member | source | states |
|---|---|---|
| `ParserAgent.ParseCode` | parser_agent.py:17-27 | The loop that starts from an empty list and appends one record per function definition, `if` and `return` (tested in that order) returns exactly the specified list `ParsedLines` of the walked nodes |
| `ParserAgent.ParsedLines` | parser_agent.py:19-27 | The result list never has more entries than the walk has nodes |
| `ParserAgent.Classify` | parser_agent.py:21-26 | A node yields a record exactly when it is a function definition, `if` or `return`. The record's symbol is Subroutine, Decision or Terminator exactly when the node is of the matching kind, so the `if`/`elif` branches never overlap |
| `ParserAgent.Contribution` | parser_agent.py:21-26 | Each visited node adds at most one record. It adds one exactly when its kind is recognised, and that record is the node's classification |
| `ParserAgent.ToJson` | parser_agent.py:22-26 | Each appended dictionary has exactly the keys `line` and `symbol`. Its `line` is the record's line. Its `symbol` is "Subroutine", "Decision" or "Terminator" exactly when the record's symbol is Subroutine, Decision or Terminator respectively |
| `ParserAgentProperties.ParsedLinesConcat` | parser_agent.py:20-26 | Appending only adds at the end: the list for a walk split in two is the two lists joined, in order |
| `ParserAgentProperties.ParsedLinesCons` | parser_agent.py:20-26 | The first visited node's record, if any, comes before all later records |
| `ParserAgentProperties.ParsedLinesLength` | parser_agent.py:20-26 | The list's length equals the number of function definition, `if` and `return` nodes in the walk (counted independently), which is at most the walk's length |
| `ParserAgentProperties.ParsedLinesProvenance` | parser_agent.py:20-26 | The k-th record is the classification of the node at the k-th recorded position. Those positions grow strictly with k, so the walk's order is kept. Every recognised node's position is among them, so no recognised node is dropped |
| `ParserAgentProperties.ParsedLinesEmpty` | parser_agent.py:19-27 | The result is the empty list exactly when the walk contains no function definition, `if` or `return` node (both directions) |
| `ParserAgentProperties.SymbolCounts` | parser_agent.py:21-26 | For each symbol, the number of records carrying it equals the number of walked nodes of the matching kind |
| `ParserAgentProperties.DefLineInjective` | parser_agent.py:22 | Two function names give the same line text `def <name>(...)` exactly when they are the same name |
| `ParserAgentProperties.DefRecord` | parser_agent.py:21-22 | A function definition named n yields `{"line": "def " + n + "(...)", "symbol": "Subroutine"}`, whatever its parameters |
| `ParserAgentProperties.IfRecord` | parser_agent.py:23-24 | An `if` yields `{"line": "if ...", "symbol": "Decision"}`, whatever its test |
| `ParserAgentProperties.ReturnRecord` | parser_agent.py:25-26 | A `return` yields `{"line": "return ...", "symbol": "Terminator"}`, whatever it returns |
| `ParserAgentProperties.ClassifyIgnoresContents` | parser_agent.py:21-26 | Two nodes of the same kind get the same record, ignoring an `if`'s test and a `return`'s value; function definitions also need the same name. An `if` always yields ("if ...", Decision) and a `return` ("return ...", Terminator) |
| `ParserAgentProperties.SymbolNameInjective` | parser_agent.py:22-26 | The three symbols are written as three distinct strings |

## Left out

- The Flask application and its routes `home` and `parse` (parser_agent.py:5-15): HTTP and JSON request/response handling is I/O.
- Server start-up (parser_agent.py:29-32): it reads the `PORT` environment variable and listens on the network.
- `ast.parse` (parser_agent.py:18): this is Python's own parser. Its `SyntaxError` on bad input is library behaviour. Only a successful parse is modelled.
- The traversal order of `ast.walk` (parser_agent.py:20): this is library code. The model takes the visited nodes as its input and does not re-implement the walk.
- Node fields that `parse_code` never reads (function bodies, decorators, branch bodies): each node carries only what some lemma needs to show that it is ignored.
- Control-flow-graph construction, branch-join and loop back-edge resolution, label escaping and diagram text output: parser_agent.py does none of these, so there is nothing of them to model.
