/** The TypeScript `T | null` shape, written as an explicit tagged value. */
module Optional {

  datatype Option<+T> = None | Some(value: T)
}
