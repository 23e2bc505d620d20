/** The optional value used for every field the classifier may leave absent
    (process number, publication date, sector keyword). */
module Options {

  datatype Option<+T> = None | Some(value: T)
}
