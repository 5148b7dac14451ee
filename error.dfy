/** The domain errors of the checked arithmetic and their fixed texts. */
module EvalError {

  /** Exactly two errors; fractional powers are not supported. */
  datatype Error = DivideByZero | NegativePowerNotImplemented

  /** `Display for Error`: one fixed, non-empty text per error. */
  function Display(e: Error): (text: string)
    ensures |text| > 0
    ensures text == "divide by zero" <==> e == DivideByZero
    ensures text == "negative powers are not implemented" <==> e == NegativePowerNotImplemented
  {
    match e
    case DivideByZero => "divide by zero"
    case NegativePowerNotImplemented => "negative powers are not implemented"
  }

  /** The text identifies the error: different errors never read the same. */
  lemma DisplayIdentifies(a: Error, b: Error)
    ensures Display(a) == Display(b) <==> a == b
  {
  }
}
