/** The nullable values of the catalogue (`Movie | null`, a parse that may
    yield NaN) as an explicit Some/None datatype. */
module Optional {

  datatype Option<+T> = None | Some(value: T)
}
