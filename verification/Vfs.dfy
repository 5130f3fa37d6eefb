/** What the file systems share with the VFS (kernel/include/fs/vfs.h): the longest name and the error numbers. */
module Vfs {

  const NAME_MAX := 63     // a name buffer also holds the NUL

  const ENOENT := -2
  const EBADF := -9
  const ENOMEM := -12
  const ENOTDIR := -20
  const EINVAL := -22
  const EMFILE := -24
  const ERANGE := -34
  const ENOTEMPTY := -39

  /** The last component of a path, as path resolution gives it to a file system. */
  type Leaf = s: string | |s| <= NAME_MAX

  /** A name cut to the longest a name buffer holds. */
  function Cut(name: string): string {
    if |name| > NAME_MAX then name[..NAME_MAX] else name
  }
}
