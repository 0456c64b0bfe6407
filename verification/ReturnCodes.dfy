/** The results by which the layers of the library tell each other how a call ended. */
module ReturnCodes {
  const IO_CONTINUE: int := 0
  const IO_ERROR: int := -1
  const INVALID_FD: int := -2
  const LINK_OUTSIDE: int := -3
}
