/** The optional value shared by the models: None stands for the end
    iterator, an illegal move or an invalid range. */
module Options {
  datatype Option<T> = None | Some(value: T)
}
