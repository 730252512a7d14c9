/** Values shared by every part of the cross-reference resolver. */
module Common {

  datatype Option<+T> = None | Some(value: T)

  /**
   * The exceptions that escape a resolution pass. None of them is caught on
   * the way out of the link-building pass, so each one ends the pass; the
   * links appended before it stay in the table.
   */
  datatype Fault =
    | LineOutOfRange            // getOffsets indexes lineSizes past its end
    | DuplicateCandidate        // Collectors.toMap meets the same class twice
    | MultiVariableDeclaration  // the local search meets `T a, b;`
    | SeveralLocals             // the local search finds more than one declaration
    | NonClassType             // a local or cast type that is not a class type
    | DottedReceiver            // a receiver name that contains '.'
    | MissingOwnClass           // super.m() when the current archive lacks this class
    | ShortClassName            // the resolved class name is shorter than ".class"
    | EndlessHierarchy          // the superclass walk comes back to a class it left

  /** The result of a step that may stop the pass. */
  datatype Outcome<+T> = Ok(value: T) | Abort(fault: Fault)
}
