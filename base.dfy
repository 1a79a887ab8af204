/** Nullable cells and fallible results. A pandas NaN / SQL NULL cell is `None`. */
module Base {

  datatype Option<+T> = None | Some(value: T) {

    /** The cell's value, or `default` for a null cell (pandas `fillna`). */
    function GetOr(default: T): T {
      match this
      case Some(v) => v
      case None => default
    }

    /** This cell if it is present, otherwise `other`. */
    function Or(other: Option<T>): Option<T> {
      match this
      case Some(_) => this
      case None => other
    }
  }

  /** A run either produces a value or stops with the exception the script would raise. */
  datatype Result<+T, +E> = Success(value: T) | Failure(error: E) {

    predicate IsFailure() {
      Failure?
    }

    function PropagateFailure<U>(): Result<U, E>
      requires Failure?
    {
      Failure(error)
    }

    function Extract(): T
      requires Success?
    {
      value
    }
  }

  /**
   * The exceptions that stop a run of the script partway.
   * EmptyReduction: `np.max` over a zero-size array (ValueError).
   * MissingNutsName: a NUTS code that has no entry in the description map (KeyError).
   * NullNutsName: a NUTS entry whose description is null (`.lower()` on a null raises).
   * NoStringColumn: a labelled NUTS column with no string in it, which the
   * `.str` accessor refuses (AttributeError); `level` is 0, 1 or 2.
   */
  datatype EtlError =
    | EmptyReduction
    | MissingNutsName(code: string)
    | NullNutsName(code: string)
    | NoStringColumn(level: nat)
}
