/** Option and a panic-aware Result, used for the Rust code's `Option`s and for the
    panics (`unwrap` on nothing, an out-of-range `Vec::insert` or index, an integer
    underflow) that the modelled code can hit. */
module Wrappers {

  datatype Option<+T> = None | Some(value: T)

  /** `Panic` stands for a Rust panic: the computation stops and produces nothing. */
  datatype Result<+T> = Ok(value: T) | Panic
}
