/** The error values that system calls return. */
module ErrorCodes {
  const ERR_INVALID_PROCESS := -2
  const ERR_NO_CAPACITY := -3
  const ERR_INVALID_POINTER := -4
  const ERR_OUT_OF_MEMORY := -5
}
