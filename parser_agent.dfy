/**
 * parse_code: walks the nodes of a parsed program and turns every function
 * definition, `if` statement and `return` statement into a record holding a
 * short line of text and the flowchart symbol to draw it with.
 */
module ParserAgent {
  import opened Wrappers
  import opened PyAst

  /** The three flowchart symbols a record can carry. */
  datatype Symbol = Subroutine | Decision | Terminator

  /** The string a symbol is written as in a record's "symbol" entry. */
  function SymbolName(s: Symbol): string
  {
    match s
    case Subroutine => "Subroutine"
    case Decision => "Decision"
    case Terminator => "Terminator"
  }

  /** One `{"line": ..., "symbol": ...}` entry of the result list. */
  datatype Record = Record(line: string, symbol: Symbol)

  /** The dictionary a record stands for. */
  function ToJson(r: Record): (m: map<string, string>)
    ensures m.Keys == {"line", "symbol"}
    ensures m["line"] == r.line
    ensures m["symbol"] in {"Subroutine", "Decision", "Terminator"}
    ensures m["symbol"] == "Subroutine" <==> r.symbol == Subroutine
    ensures m["symbol"] == "Decision" <==> r.symbol == Decision
    ensures m["symbol"] == "Terminator" <==> r.symbol == Terminator
  {
    map["line" := r.line, "symbol" := SymbolName(r.symbol)]
  }

  /** The node kind that is drawn with symbol `s`. */
  predicate HasKind(n: Node, s: Symbol)
  {
    match s
    case Subroutine => n.FunctionDef?
    case Decision => n.If?
    case Terminator => n.Return?
  }

  /** The node kinds that produce a record; every other kind is skipped. */
  predicate IsRecorded(n: Node)
  {
    n.FunctionDef? || n.If? || n.Return?
  }

  /** The line text of a function definition: its name, parameters elided. */
  function DefLine(name: string): string
  {
    "def " + name + "(...)"
  }

  /**
   * The `if`/`elif` chain applied to one node: the record it appends, or
   * None when the node is of no recognised kind.
   */
  function Classify(n: Node): (r: Option<Record>)
    ensures r.Some? <==> IsRecorded(n)
    ensures forall s :: r.Some? && r.value.symbol == s <==> HasKind(n, s)
  {
    match n
    case FunctionDef(name, _) => Some(Record(DefLine(name), Subroutine))
    case If(_) => Some(Record("if ...", Decision))
    case Return(_) => Some(Record("return ...", Terminator))
    case Other(_) => None
  }

  /** What one visited node adds to the list: at most one record. */
  function Contribution(n: Node): (rs: seq<Record>)
    ensures |rs| <= 1
    ensures |rs| == 1 <==> IsRecorded(n)
    ensures forall r :: r in rs ==> Classify(n) == Some(r)
  {
    match Classify(n)
    case Some(r) => [r]
    case None => []
  }

  /**
   * The list parse_code returns for a walk: the records of the recognised
   * nodes, in the order the walk visits them. Defined the way the list grows,
   * one visited node at a time at its end.
   */
  function ParsedLines(walked: seq<Node>): (out: seq<Record>)
    ensures |out| <= |walked|
    decreases |walked|
  {
    if walked == [] then []
    else ParsedLines(walked[..|walked| - 1]) + Contribution(walked[|walked| - 1])
  }

  /**
   * The loop of parse_code over the nodes of a walk: starts from an empty
   * list and appends one record for each function definition, `if` and
   * `return`, testing the three kinds in that order.
   */
  method ParseCode(walked: seq<Node>) returns (parsedLines: seq<Record>)
    ensures parsedLines == ParsedLines(walked)
  {
    parsedLines := [];
    for i := 0 to |walked|
      invariant parsedLines == ParsedLines(walked[..i])
    {
      var node := walked[i];
      assert walked[..i + 1][..i] == walked[..i];
      if node.FunctionDef? {
        parsedLines := parsedLines + [Record(DefLine(node.name), Subroutine)];
      } else if node.If? {
        parsedLines := parsedLines + [Record("if ...", Decision)];
      } else if node.Return? {
        parsedLines := parsedLines + [Record("return ...", Terminator)];
      }
    }
    assert walked[..|walked|] == walked;
  }
}
