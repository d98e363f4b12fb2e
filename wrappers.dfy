/** Optional values and the failures the analysis can end in. */
module Wrappers {

  datatype Option<+T> = None | Some(value: T)

  /** Each failure is named after the point of the script that raises it. */
  datatype Failure =
    | UnknownCity(city: string)      // KeyError from the city-to-file lookup
    | MonthNotListed(month: string)  // ValueError from list.index on the month list
    | NoMode                         // KeyError from mode()[0] on a column with no values
    | NoMean                         // ValueError from int() of the NaN mean of no durations

  datatype Result<+T> = Ok(value: T) | Err(error: Failure) {
    predicate IsFailure() {
      Err?
    }

    function PropagateFailure<U>(): Result<U>
      requires Err?
    {
      Err(error)
    }

    function Extract(): T
      requires Ok?
    {
      value
    }
  }
}
