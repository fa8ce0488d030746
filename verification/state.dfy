/** Cell states, and the two exceptions a solve can end in. */
module States {

  /** A cell of the grid: rows place RED runs, columns place BLUE runs. */
  datatype State = Unknown | Red | Blue

  /** The colour the line solver marks as "not part of a run" (`x_color`):
      RED when the fill colour is BLUE, BLUE otherwise. */
  function Opposite(fill: State): (x: State)
    ensures x != Unknown
    ensures fill != Unknown ==> x != fill
  {
    if fill == Blue then Red else Blue
  }

  /** The exceptions that leave `solveRow` and `solve`: `ContradictionException`,
      and the StopIteration that `next(...)` raises on a line with no cell
      other than the opposite colour. */
  datatype Exception = ContradictionException | StopIteration

  /** A returned value or a raised exception. */
  datatype Outcome<T> = Ok(value: T) | Raised(exc: Exception)
}
