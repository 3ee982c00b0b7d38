/**
 * Properties of the list parse_code builds, stated about the specification
 * function ParsedLines (which ParseCode is proved to compute) and compared
 * with reference definitions written independently of it.
 */
module ParserAgentProperties {
  import opened Wrappers
  import opened PyAst
  import opened ParserAgent

  /** Number of nodes of a recognised kind, counted from the front. */
  function CountRecorded(walked: seq<Node>): nat
  {
    if walked == [] then 0
    else (if IsRecorded(walked[0]) then 1 else 0) + CountRecorded(walked[1..])
  }

  /** Number of nodes of the kind drawn with symbol `s`. */
  function CountKind(walked: seq<Node>, s: Symbol): nat
  {
    if walked == [] then 0
    else (if HasKind(walked[0], s) then 1 else 0) + CountKind(walked[1..], s)
  }

  /** Number of records carrying symbol `s`. */
  function CountSymbol(rs: seq<Record>, s: Symbol): nat
  {
    if rs == [] then 0
    else (if rs[0].symbol == s then 1 else 0) + CountSymbol(rs[1..], s)
  }

  /** Positions, in increasing order, of the nodes of a recognised kind. */
  function RecordedIndices(walked: seq<Node>): seq<nat>
    decreases |walked|
  {
    if walked == [] then []
    else RecordedIndices(walked[..|walked| - 1])
         + (if IsRecorded(walked[|walked| - 1]) then [|walked| - 1] else [])
  }

  /** Appending only adds at the end: a walk split in two yields the two lists joined. */
  lemma {:induction false} ParsedLinesConcat(a: seq<Node>, b: seq<Node>)
    ensures ParsedLines(a + b) == ParsedLines(a) + ParsedLines(b)
    decreases |b|
  {
    if b == [] {
      assert a + b == a;
    } else {
      var b' := b[..|b| - 1];
      assert (a + b)[..|a + b| - 1] == a + b';
      assert (a + b)[|a + b| - 1] == b[|b| - 1];
      ParsedLinesConcat(a, b');
    }
  }

  /** The first visited node's record, if any, comes first. */
  lemma ParsedLinesCons(n: Node, rest: seq<Node>)
    ensures ParsedLines([n] + rest) == Contribution(n) + ParsedLines(rest)
  {
    ParsedLinesConcat([n], rest);
    assert [n][..0] == [];
  }

  /** One record per recognised node, and so never more records than nodes. */
  lemma {:induction false} ParsedLinesLength(walked: seq<Node>)
    ensures |ParsedLines(walked)| == CountRecorded(walked)
    ensures CountRecorded(walked) <= |walked|
  {
    if walked != [] {
      assert [walked[0]] + walked[1..] == walked;
      ParsedLinesCons(walked[0], walked[1..]);
      ParsedLinesLength(walked[1..]);
    }
  }

  /**
   * Every record comes from exactly the recognised node at a position of
   * RecordedIndices, positions increase with the records (the walk's order is
   * kept), and every recognised node has its position there (none is lost).
   */
  lemma {:induction false} ParsedLinesProvenance(walked: seq<Node>)
    ensures |RecordedIndices(walked)| == |ParsedLines(walked)|
    ensures forall k :: 0 <= k < |RecordedIndices(walked)| ==>
              RecordedIndices(walked)[k] < |walked| &&
              Classify(walked[RecordedIndices(walked)[k]]) == Some(ParsedLines(walked)[k])
    ensures forall k, l :: 0 <= k < l < |RecordedIndices(walked)| ==>
              RecordedIndices(walked)[k] < RecordedIndices(walked)[l]
    ensures forall i :: 0 <= i < |walked| && IsRecorded(walked[i]) ==>
              i in RecordedIndices(walked)
    decreases |walked|
  {
    if walked != [] {
      var n := |walked| - 1;
      var prefix := walked[..n];
      ParsedLinesProvenance(prefix);
      assert forall j :: 0 <= j < n ==> prefix[j] == walked[j];
      var idx := RecordedIndices(prefix);
      assert forall k :: 0 <= k < |idx| ==> idx[k] < n;
    }
  }

  /** The list is empty exactly when the walk holds no recognised node. */
  lemma {:induction false} ParsedLinesEmpty(walked: seq<Node>)
    ensures ParsedLines(walked) == [] <==>
            forall i :: 0 <= i < |walked| ==> !IsRecorded(walked[i])
  {
    ParsedLinesProvenance(walked);
    var idx := RecordedIndices(walked);
    if ParsedLines(walked) != [] {
      assert IsRecorded(walked[idx[0]]);
    }
  }

  lemma {:induction false} CountSymbolConcat(a: seq<Record>, b: seq<Record>, s: Symbol)
    ensures CountSymbol(a + b, s) == CountSymbol(a, s) + CountSymbol(b, s)
    decreases |a|
  {
    if a == [] {
      assert a + b == b;
    } else {
      assert (a + b)[0] == a[0];
      assert (a + b)[1..] == a[1..] + b;
      CountSymbolConcat(a[1..], b, s);
    }
  }

  /**
   * Records of each symbol are as many as nodes of the matching kind:
   * Subroutine for function definitions, Decision for `if`, Terminator for
   * `return`.
   */
  lemma {:induction false} SymbolCounts(walked: seq<Node>, s: Symbol)
    ensures CountSymbol(ParsedLines(walked), s) == CountKind(walked, s)
  {
    if walked != [] {
      assert [walked[0]] + walked[1..] == walked;
      ParsedLinesCons(walked[0], walked[1..]);
      CountSymbolConcat(Contribution(walked[0]), ParsedLines(walked[1..]), s);
      SymbolCounts(walked[1..], s);
    }
  }

  /** Distinct function names give distinct line texts. */
  lemma DefLineInjective(a: string, b: string)
    ensures DefLine(a) == DefLine(b) <==> a == b
  {
    if DefLine(a) == DefLine(b) {
      assert a == DefLine(a)[4..|DefLine(a)| - 5];
      assert b == DefLine(b)[4..|DefLine(b)| - 5];
    }
  }

  /** A function definition's record depends on its name only, not on its parameters. */
  lemma DefRecord(name: string, args: seq<string>)
    ensures Classify(FunctionDef(name, args)) == Some(Record("def " + name + "(...)", Subroutine))
    ensures ToJson(Classify(FunctionDef(name, args)).value)
            == map["line" := "def " + name + "(...)", "symbol" := "Subroutine"]
  {
  }

  /** An `if` statement's dictionary, whatever its test. */
  lemma IfRecord(test: string)
    ensures Classify(If(test)) == Some(Record("if ...", Decision))
    ensures ToJson(Classify(If(test)).value)
            == map["line" := "if ...", "symbol" := "Decision"]
  {
  }

  /** A `return` statement's dictionary, whatever it returns. */
  lemma ReturnRecord(value: Option<string>)
    ensures Classify(Return(value)) == Some(Record("return ...", Terminator))
    ensures ToJson(Classify(Return(value)).value)
            == map["line" := "return ...", "symbol" := "Terminator"]
  {
  }

  /**
   * Records are determined by node kind and, for a function definition, its
   * name: the test of an `if` and the value of a `return` do not matter.
   */
  lemma ClassifyIgnoresContents(n: Node, m: Node)
    requires (n.FunctionDef? && m.FunctionDef? && n.name == m.name)
             || (n.If? && m.If?) || (n.Return? && m.Return?)
    ensures Classify(n) == Classify(m)
    ensures n.If? ==> Classify(n) == Some(Record("if ...", Decision))
    ensures n.Return? ==> Classify(n) == Some(Record("return ...", Terminator))
  {
  }

  /** Distinct symbols are written as distinct strings. */
  lemma SymbolNameInjective(a: Symbol, b: Symbol)
    ensures SymbolName(a) == SymbolName(b) <==> a == b
  {
    if a != b {
      assert SymbolName(a)[0] != SymbolName(b)[0];
    }
  }
}
