/** Outcome types shared by every module: an operation of the source that can
    throw becomes a function or method returning a `Result`. */
module Results {

  datatype Option<T> = None | Some(value: T)

  /** The exceptions the modelled code can raise, one constructor per
      exception class that matters to the model. */
  datatype Error =
    | UnsupportedCharacterEncoding   // a symbol above 0x7F reached the automaton
    | TooManyMachineStates           // more than 256 automaton states
    | EmptyGrammar                   // a parser built from no rules
    | TooManyRuleReferences          // 255 or more parser lookup entries
    | LabelsExhausted                // the code generator's label counter wrapped
    | UnsupportedTokenType           // a statement head the type checker does not know

  datatype Result<T> = Ok(value: T) | Err(error: Error)
  {
    predicate IsFailure() { Err? }

    function PropagateFailure<U>(): Result<U>
      requires Err?
    {
      Err(error)
    }

    function Extract(): T
      requires Ok?
    {
      value
    }
  }
}
