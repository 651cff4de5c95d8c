/** What several components share. */
module Wrappers {

  datatype Option<T> = None | Some(value: T)

  /** A job instance; a retry registers a new instance under the same ID. */
  datatype Job = Job(id: string, instance: nat)
}
