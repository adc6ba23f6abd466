/**
 * One line of the movement's detail table, as the records
 * `DataFrame.to_dict(orient="records")` produces and the save function reads.
 */
module Records {

  /** A dictionary entry: the key is absent, holds `None`, or holds a value. */
  datatype Cell<T> = Absent | Null | Value(v: T)

  /** An amount cell of a float column: a number of cents, or the NaN of a cleared cell. */
  datatype Number = Cents(cents: int) | NaN

  datatype Linea = Linea(
    cuenta: Cell<string>,
    descripcion: Cell<string>,
    debito: Cell<Number>,
    credito: Cell<Number>,
    notas: Cell<string>,
    archivo: Cell<string>)
}
