/** Optional values, and the errors the double-stranded sequence operations raise. */
module Results {

  datatype Option<T> = None | Some(value: T)

  datatype Error =
    | OvhgWithoutCrick    // ValueError: ovhg defined without crick strand
    | CannotAnneal        // ValueError: no unique annealing of the two strands
    | TooFewLines         // ValueError: a representation needs two non-empty lines
    | CircularLigation    // TypeError: circular DNA cannot be ligated
    | IncompatibleEnds    // TypeError: sticky ends not compatible
    | CannotCircularize   // TypeError: 5' and 3' sticky ends not compatible
    | NotCircular         // TypeError: DNA is not circular
    | ZeroLength          // ZeroDivisionError: shift modulo an empty molecule

  datatype Result<T> = Ok(value: T) | Err(error: Error)
}
