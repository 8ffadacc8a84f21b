/** errno values, as the kernel returns them (negated) to user space. */
module Errno {
  const EPERM := 1
  const ENOENT := 2
  const ESRCH := 3
  const EBADF := 9
  const ECHILD := 10
  const EAGAIN := 11
  const ENOMEM := 12
  const EFAULT := 14
  const EEXIST := 17
  const ENODEV := 19
  const ENOTDIR := 20
  const EISDIR := 21
  const EINVAL := 22
  const EMFILE := 24
  const EROFS := 30
  const EPIPE := 32
  const ENAMETOOLONG := 36
  const ENOSYS := 38
  const ENOTEMPTY := 39
  const EMSGSIZE := 90
  const EAFNOSUPPORT := 97
  const EADDRINUSE := 98
}
