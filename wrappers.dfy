/** Outcomes of the remote calls (language model, embedding model, vector
    index, document store, HTTP) that the pipeline treats as inputs. */
module Wrappers {

  datatype Option<+T> = None | Some(value: T)

  /** The result of one remote call: a value, or a failure whose message the
      source puts into its error strings. */
  datatype Outcome<+T> = Ok(value: T) | Fail(message: string)
}
