/** Lengths of time, in seconds. */
module Times {
  const DAY: nat := 86400
}
