/** Outcomes of the operations that touch the file system. */
module Results {

  /** The two failures the picker reports: an unreadable roster and a state file it cannot create. */
  datatype Error = SourceUnreadable | WriteFailed

  datatype Result<T> = Ok(value: T) | Err(error: Error)

  /** A file as the program sees it: its text, or `None` when opening it fails. */
  datatype Option<T> = None | Some(value: T)
}
