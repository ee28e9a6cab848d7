/** Option and a fatal-or-value outcome, shared by the AST and the tester modules. */
module Wrappers {

  /** Rust's `Option<T>`. */
  datatype Option<+T> = None | Some(value: T)

  /** Why the directive scanner aborts; the panic message text is not modelled. */
  datatype FatalKind =
    | MalformedCondition   // `//[foo` without a closing `]`
    | ExpectedWordValue    // a value-bearing directive found no complete word
    | UnexpectedNegative   // a `no-` prefix on a value-bearing directive

  /** Either a value or the panic that aborts the scan. */
  datatype Outcome<+T> = Ok(value: T) | Fatal(kind: FatalKind)
}
