/** The outcome of parsing a grid. The Rust parsers panic with "Grid cannot
    be empty"; here that panic is the `Err(EmptyGrid)` value. */
module Results {

  datatype ParseError = EmptyGrid

  datatype Result<+T> = Ok(value: T) | Err(error: ParseError)
}
