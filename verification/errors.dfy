/** The errors the semantic actions throw. Each one aborts the compilation. */
module Errors {

  datatype Error =
    | SymbolNotFound                     // lookup missed every active scope
    | InvalidType(declared: string)      // declaration type other than int / char
    | InvalidArrayDeclaration            // array size is not a positive literal
    | SymbolExists(name: string)         // redeclaration in the innermost scope
    | OperandType                        // binary operand that is not int / char
    | AssignmentTypes                    // assignment whose types differ after coercion

  /** The exact text the source throws for each error. */
  function Message(e: Error): string
  {
    match e
    case SymbolNotFound => "symbol not found"
    case InvalidType(t) => "invalid type in variable declaration: " + t
    case InvalidArrayDeclaration => "invalid array declaration"
    case SymbolExists(n) => "symbol already exists: " + n
    case OperandType => "arithmetic operand type must be int or char"
    case AssignmentTypes => "assignment types do not match"
  }
}
