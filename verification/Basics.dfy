/** Types and constants used throughout. */
module Basics {
  datatype Option<T> = None | Some(value: T)

  type Pos = n: nat | n >= 1 witness 1

  // src/memory/ts_linked_list.h:11-12: a node cache of this size deletes so many of its nodes.
  const CACHE_COUNT: nat := 128
  const BATCH_RELEASE_COUNT: nat := 64
}
