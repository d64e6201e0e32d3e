/** Optional values and fallible results shared by the whole model.
    `None` stands for JavaScript's `undefined`/`null`; `Err` stands for a
    thrown exception. */
module Results {

  datatype Option<T> = None | Some(value: T)

  datatype Result<T> = Ok(value: T) | Err(error: string)
}
