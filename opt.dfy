/** An optional value: JavaScript's `null`/`undefined` (and `NaN` for numbers) on one side, a value on the other. */
module Opt {
  datatype Option<+T> = None | Some(value: T)
}
