/** Error numbers, returned negated. */
module Errors {
  const ENOENT := 2
  const EBADF := 9
  const EAGAIN := 11
  const ENOMEM := 12
  const EMFILE := 24
}
