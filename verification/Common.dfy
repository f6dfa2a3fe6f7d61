/** What several modules share. */
module Common {

  datatype Option<+T> = None | Some(value: T)

  datatype Result<+T, +E> = Ok(value: T) | Err(error: E)

  function Min(a: int, b: int): int {
    if a < b then a else b
  }

  function Max(a: int, b: int): int {
    if a < b then b else a
  }
}

/** The state of a queue job, which is all the queue is asked for. */
module Queue {

  datatype JobState = Waiting | Delayed | Active | Completed | Failed
}
