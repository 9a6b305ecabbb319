/** Units of time. */
module Units {
  const MS_TO_NS: int := 1_000_000
}
