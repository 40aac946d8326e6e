/** Failure-carrying values standing in for the C++ `std::optional` and for the
    exceptions the orbifold symbol code throws. */
module Results {

  datatype Option<+T> = None | Some(value: T)

  /** The three `std::runtime_error`s of the source, by cause (message text is not modelled). */
  datatype Error =
    | UnexpectedDigitState            // `parseNumber` found no digit where `parse` saw one
    | UnsupportedCharacter(ch: char)  // a character outside the accepted alphabet
    | UnrecognizedSymbol              // the exact symbol is not a wallpaper-table key

  datatype Result<+T> = Success(value: T) | Failure(error: Error)
}
