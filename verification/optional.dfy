/** The optional value used for "maybe absent" results: a search that may
    find nothing, or an interval handle that may be null. */
module Optional {

  datatype Option<+T> = None | Some(value: T)

}
