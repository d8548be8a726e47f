/** What cores and samplers look at in an entry, and the levels there are. */
module Entries {
  import opened Utf8

  const MIN_LEVEL: int := -1
  const MAX_LEVEL: int := 5

  datatype Entry = Entry(level: int, message: Bytes, time: int)
}
