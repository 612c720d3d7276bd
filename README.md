# OS/161 MIPS system-call layer: descriptor table, handlers and dispatcher

This project models `kern/arch/mips/syscall/syscall.c` of an OS/161 kernel:

- the process-wide file-descriptor table, a singly linked list of `(fd, vnode)`
  nodes rooted at `first_fdnode`, with `fd_is_being_used`, `fd_allocate` and
  `fd_deallocate`;
- the handlers `sys___getcwd`, `sys_open` and `sys_close`;
- the dispatcher `syscall`, which routes the call number in `v0` and writes the
  outcome back into the trapframe.

Modules, one per concern:

- `Machine` (machine.dfy): 32-bit registers (`Word`), C `int` (`Int32`), and the
  conversions the dispatcher performs (`(int)tf->tf_a0`, `tf->tf_v0 = err`).
- `Errno` (errno.dfy): error codes (any nonzero `int`), `Result` for
  collaborators and `Outcome` for handlers: exactly one of a return value and an
  error code.
- `FileDescriptors` (fdtable.dfy): the class `FdTable`, whose field `nodes` is
  the list (index 0 is the head). Its methods update it in place. Each is proved
  against a ghost specification function (`AllocateSpec`, `DeallocateSpec`).
  The lemmas about those functions carry the table's properties.
- `MipsSyscall` (syscall.dfy): the `Trapframe` class, the `Kernel` class
  (descriptor table plus a ghost record `released` of every vnode given to
  `vfs_close`), `SysGetcwd`, `SysOpen`, `SysClose` and `Syscall`. Each is proved
  against a ghost specification (`GetcwdOutcome`, `OpenSpec`, `CloseSpec`), and
  lemmas state the no-leak and round-trip properties of those specifications.

Collaborators outside this file become inputs, bundled in `Collaborators`:

- `vfs_open` and `copyout` are pure functions of their arguments;
- `copyinstr` is a function of the user address;
- `vfs_getcwd` is a fixed result;
- `sys_reboot` and `sys___time` are functions from their register arguments to
  a C error number;
- `kmalloc` failing is a boolean.

`vfs_close(v)` appends `v` to `released`. `strlen` is the function `StrLen`.

Constants: `FD_MIN = 3` and `FD_MAX = 127` come from the source. The headers
`kern/errno.h`, `kern/syscall.h` and `limits.h` are not part of this model. The
values used are OS/161's: `ENOSYS = 1`, `ENOMEM = 3`, `ENFILE = 29`,
`EBADF = 30`; `SYS_open = 45`, `SYS_close = 49`, `SYS___getcwd = 69`,
`SYS___time = 113`, `SYS_reboot = 119`; `PATH_MAX = 1024`, `NAME_MAX = 255`.
No property depends on them beyond their being nonzero and distinct, and on `PATH_MAX` fitting in an `int` (the byte count `sys___getcwd` returns is at most `PATH_MAX`).

## Model

| member | source | states |
|---|---|---|
| `Machine.ToWord` | kern/arch/mips/syscall/syscall.c:300-305 | storing a C `int` into a 32-bit register reduces it modulo 2^32 and keeps values already in range |
| `Machine.ToInt32` | kern/arch/mips/syscall/syscall.c:278-284 | the `(int)` cast of a register is its two's-complement reading: storing it back gives the register, small values are kept, large ones become negative |
| `Machine.Int32RoundTrip` | kern/arch/mips/syscall/syscall.c:300-305 | a 32-bit `int` written to a register and read back with a signed cast is unchanged |
| `Errno.FromErrorReturn` | kern/arch/mips/syscall/syscall.c:264-274 | a handler returning only an error number succeeds with `retval` 0 exactly when it returns 0, and otherwise fails with that number |
| `FileDescriptors.FirstFree` | kern/arch/mips/syscall/syscall.c:122-132 | the ascending scan finds a descriptor in `[from, 127]` that is not live while every smaller one is; it finds none exactly when all of them are live |
| `FileDescriptors.IndexOf` | kern/arch/mips/syscall/syscall.c:167-186 | the list walk finds the first node carrying `fd`, or -1 when no node does |
| `FileDescriptors.Interval` | kern/arch/mips/syscall/syscall.c:46-52 | the descriptor range `[lo, hi]` holds exactly those integers and has `hi - lo + 1` of them |
| `FileDescriptors.FdTable.constructor` | kern/arch/mips/syscall/syscall.c:67 | the table starts empty and well formed |
| `FileDescriptors.FdTable.IsBeingUsed` | kern/arch/mips/syscall/syscall.c:90-101 | returns true exactly when some node of the list carries the descriptor |
| `FileDescriptors.FdTable.Allocate` | kern/arch/mips/syscall/syscall.c:105-149 | ENOMEM when `kmalloc` fails, ENFILE when the range is full (list unchanged), otherwise the lowest free descriptor pushed at the head with its vnode; the table stays well formed |
| `FileDescriptors.FdTable.Deallocate` | kern/arch/mips/syscall/syscall.c:151-198 | EBADF (list unchanged) for a descriptor out of range or absent, otherwise the node's vnode with exactly that node unlinked; the table stays well formed |
| `FileDescriptors.FdsSize` | kern/arch/mips/syscall/syscall.c:61-65 | with pairwise distinct descriptors, the list has as many nodes as live descriptors |
| `FileDescriptors.ExhaustedIffFull` | kern/arch/mips/syscall/syscall.c:126-138 | allocation fails with ENFILE exactly when all 125 descriptors of `[3, 127]` are live |
| `FileDescriptors.AllocateKeepsWellFormed` | kern/arch/mips/syscall/syscall.c:122-147 | a successful allocation returns a descriptor in range that was not live, adds exactly one head node and keeps descriptors distinct; a failed one is ENOMEM or ENFILE with the list unchanged |
| `FileDescriptors.DeallocateRemovesExactly` | kern/arch/mips/syscall/syscall.c:158-195 | deallocation succeeds exactly for a live descriptor in range; it then returns the vnode paired with it and removes only that node, every other node staying in the list; otherwise it is EBADF with the list unchanged |
| `FileDescriptors.DeallocateAfterAllocate` | kern/arch/mips/syscall/syscall.c:140-195 | deallocating the descriptor just allocated for `v` returns `v` and restores the list; a second deallocation is EBADF |
| `FileDescriptors.FreeOneThenAllocate` | kern/arch/mips/syscall/syscall.c:122-195 | with the range full, freeing one descriptor lets exactly one more allocation succeed, with that descriptor, and the next is ENFILE |
| `FileDescriptors.RunKeepsWellFormed` | kern/arch/mips/syscall/syscall.c:105-198 | any sequence of allocations and deallocations keeps live descriptors pairwise distinct and within `[3, 127]` |
| `MipsSyscall.StrLen` | kern/arch/mips/syscall/syscall.c:365 | the length of a NUL-terminated buffer is the position of its first NUL |
| `MipsSyscall.CString` | kern/arch/mips/syscall/syscall.c:351-363 | the path in the kernel buffer is the NUL-free prefix of what `vfs_getcwd` wrote, at most `PATH_MAX` bytes |
| `MipsSyscall.KernelFileName` | kern/arch/mips/syscall/syscall.c:400-413 | the name given to `vfs_open` is the copied-in name, cut to exactly `NAME_MAX` bytes when longer |
| `MipsSyscall.GetcwdOutcome` | kern/arch/mips/syscall/syscall.c:354-381 | `sys___getcwd` fails with the error of `vfs_getcwd` or `copyout`, otherwise returns `min(path length, userbuflen)`, having copied out exactly that prefix of the path |
| `MipsSyscall.ReturnRegisters` | kern/arch/mips/syscall/syscall.c:294-307 | on failure `a3 = 1` and `v0` holds the error code, on success `a3 = 0` and `v0` holds the return value, both read back by a signed cast |
| `MipsSyscall.SysGetcwd` | kern/arch/mips/syscall/syscall.c:339-382 | the handler, working on a NUL-terminated kernel buffer with `strlen`, has exactly the outcome `GetcwdOutcome` gives |
| `MipsSyscall.KernelBufferHoldsPath` | kern/arch/mips/syscall/syscall.c:359-365 | `strlen` of the terminated kernel buffer is the length of the path, and the buffer's prefix of that length is the path |
| `MipsSyscall.OpenLeaksNothing` | kern/arch/mips/syscall/syscall.c:403-433 | a failed `copyinstr` or `vfs_open` returns its error with no table entry; after a successful open, the vnode either gets the lowest free descriptor in range and stays open, or the allocation error (ENOMEM iff `kmalloc` failed, ENFILE iff the table is full) returns with no entry and one `vfs_close` of the vnode |
| `MipsSyscall.CloseReleasesOnlyOnSuccess` | kern/arch/mips/syscall/syscall.c:440-460 | `sys_close` succeeds exactly for a live descriptor in range; it then frees it and calls `vfs_close` once, on the vnode the descriptor held; otherwise it is EBADF with nothing changed |
| `MipsSyscall.CloseAfterOpen` | kern/arch/mips/syscall/syscall.c:416-460 | closing the descriptor a successful open returned closes the opened vnode and restores the descriptor list; closing it again is EBADF |
| `MipsSyscall.Kernel.constructor` | kern/arch/mips/syscall/syscall.c:67 | the kernel starts with an empty table and nothing closed |
| `MipsSyscall.Kernel.SysOpen` | kern/arch/mips/syscall/syscall.c:389-434 | the handler's outcome and new state are those of `OpenSpec`, and the table stays well formed |
| `MipsSyscall.Kernel.SysClose` | kern/arch/mips/syscall/syscall.c:438-460 | an out-of-range descriptor gives EBADF without touching the table; otherwise the outcome and new state are those of `CloseSpec` |
| `MipsSyscall.Kernel.Syscall` | kern/arch/mips/syscall/syscall.c:242-320 | each known call number runs its handler, an unknown one fails with ENOSYS and changes nothing, the outcome is written to `v0`/`a3` as `ReturnRegisters` says, only `v0`, `a3` and `epc` of the trapframe change, and `epc` advances by 4 modulo 2^32 |

## Left out

- Locking (`fdnode_lock`, `lock_acquire`/`lock_release`, `lock_do_i_hold`, the lazy creation in `fdnode_ensure_lock_not_null`): the table is modelled as accessed by one thread at a time, so concurrent allocation is not modelled.
- `KASSERT`, `kprintf` and `panic`: the range assertions after `fd_allocate` in `sys_open` are proved as postconditions instead.
- `kmalloc`/`kfree`: a failed allocation is the boolean `kmallocFails`; freeing a node has no observable effect in the model.
- `vfs_open`, `vfs_close`, `vfs_getcwd`, `copyinstr`, `copyout` and `uio_kinit` are outside this file. They are inputs (see above), and `vfs_close` is recorded in the ghost sequence `released`. The bytes `copyout` writes into user memory are the argument it receives. User memory is not modelled.
- `sys_reboot` and `sys___time` are defined in other files: their error results are inputs.
- `enter_forked_process` is an empty stub.
- Arguments fetched from the user stack beyond `a3` are only described in a comment and are not implemented in the source.
- The `mode` and `flags` of `sys_open` are only passed through to `vfs_open`.
