/** The optional value used wherever the modelled Go code returns a nil-able
    result or can stop with a runtime panic. */
module Results {

  datatype Option<T> = None | Some(value: T)
}
