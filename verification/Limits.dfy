/** Table sizes shared by several parts of the kernel. */
module Limits {
  const MAX_PROCS := 16
}
