/**
 * The nodes of a Python syntax tree, as far as the parser agent tells them
 * apart. A walk of the tree (Python's ast.walk) is given to the model as the
 * sequence of the nodes it visits; the parser and the traversal themselves
 * are not part of this model.
 */
module PyAst {
  import opened Wrappers

  datatype Node =
    | /** ast.FunctionDef: the function's name and its parameter names. */
      FunctionDef(name: string, args: seq<string>)
    | /** ast.If: the source text of its test expression. */
      If(test: string)
    | /** ast.Return: the source text of the returned expression, if any. */
      Return(value: Option<string>)
    | /** Any other node class (Module, Assign, While, AsyncFunctionDef, ...). */
      Other(kind: string)
}
