/** The outcome of checking a component option: its value, or the ValueError the component raises. */
module Validation {
  datatype Result<T> = Ok(value: T) | Err(message: string)
}
