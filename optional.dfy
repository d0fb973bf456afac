/** A value that may be missing: a Java reference that may be null, or a
    java.util.Optional that may be empty. */
module Optional {

  datatype Option<+T> = None | Some(value: T)

}
