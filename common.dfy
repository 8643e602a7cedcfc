/** Result types shared by the model: the Python exceptions the modelled code can raise become values. */
module Common {

  datatype Option<T> = None | Some(value: T)

  /** The exceptions the modelled code raises, one constructor per cause. */
  datatype Error =
    | ZeroDivision                 // ZeroDivisionError: an image dimension is 0
    | MissingHistory(track: nat)   // AttributeError on `mrk.mute` when the backward search found no marker
    | KeyError(key: string)        // KeyError from `del lost[k]` on a key already deleted (it was appended twice)

  datatype Result<T> = Ok(value: T) | Err(error: Error)
}
