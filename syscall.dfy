/** The MIPS system-call dispatcher of kern/arch/mips/syscall/syscall.c and
    its three handlers `sys___getcwd`, `sys_open` and `sys_close`. */
module MipsSyscall {
  import opened Machine
  import opened Errno
  import opened FileDescriptors

  // Call numbers of OS/161's kern/syscall.h for the calls the switch routes.
  const SYS_open: int := 45
  const SYS_close: int := 49
  const SYS___getcwd: int := 69
  const SYS___time: int := 113
  const SYS_reboot: int := 119

  // Buffer bounds of OS/161's limits.h.
  const PATH_MAX: int := 1024
  const NAME_MAX: int := 255

  newtype Byte = b: int | 0 <= b < 256

  /** The fields of `struct trapframe` that the dispatcher reads or writes. */
  class Trapframe {
    var v0: Word
    var a0: Word
    var a1: Word
    var a2: Word
    var a3: Word
    var epc: Word
  }

  /** What the collaborators outside this file do on this trap: the VFS
      (`vfs_open`, `vfs_getcwd`), the user/kernel copy primitives
      (`copyinstr`, `copyout`), the handlers defined elsewhere (`sys_reboot`,
      `sys___time`) and whether `kmalloc` fails. */
  datatype Collaborators = Collaborators(
    sysReboot: Int32 -> Int32,
    sysTime: (Word, Word) -> Int32,
    vfsGetcwd: Result<seq<Byte>>,
    copyout: (seq<Byte>, Word) -> Result<()>,
    copyinstr: Word -> Result<seq<Byte>>,
    vfsOpen: (seq<Byte>, Int32, Word) -> Result<Vnode>,
    kmallocFails: bool)

  /** The part of the kernel the handlers change: the descriptor list, and
      every vnode handed to `vfs_close`, in order. */
  datatype KernelState = KernelState(nodes: seq<FdNode>, released: seq<Vnode>)

  /** A handler's outcome together with the state it leaves. */
  datatype Effect = Effect(outcome: Outcome, state: KernelState)

  /** C `strlen` on a NUL-terminated buffer. */
  function StrLen(buf: seq<Byte>): (n: nat)
    requires 0 in buf
    ensures n < |buf| && buf[n] == 0
    ensures forall k | 0 <= k < n :: buf[k] != 0
  {
    if buf[0] == 0 then 0
    else
      assert 0 in buf[1..] by {
        var k :| 0 <= k < |buf| && buf[k] == 0;
        assert buf[1..][k - 1] == 0;
      }
      1 + StrLen(buf[1..])
  }

  /** The C string held by a buffer of capacity `cap` into which `w` was
      written: the bytes of `w` before its first NUL, at most `cap` of them. */
  ghost function CString(w: seq<Byte>, cap: nat): (s: seq<Byte>)
    ensures |s| <= cap && |s| <= |w| && s == w[..|s|] && 0 !in s
    ensures |s| < cap && |s| < |w| ==> w[|s|] == 0
  {
    if cap == 0 || |w| == 0 || w[0] == 0 then []
    else [w[0]] + CString(w[1..], cap - 1)
  }

  function Min(a: int, b: int): int {
    if a < b then a else b
  }

  /** `sys___getcwd`: the error of `vfs_getcwd` or of `copyout`, or the number
      of bytes of the current directory's path copied out, which is the
      smaller of the path length and the user buffer's length. */
  ghost function GetcwdOutcome(userbuf: Word, userbuflen: Word, vfsGetcwd: Result<seq<Byte>>,
                               copyout: (seq<Byte>, Word) -> Result<()>): (o: Outcome)
    ensures vfsGetcwd.Err? ==> o == Failure(vfsGetcwd.code)
    ensures vfsGetcwd.Ok? ==>
      var path := CString(vfsGetcwd.value, PATH_MAX);
      var n := if |path| < userbuflen then |path| else userbuflen as int;
      && n <= userbuflen && n <= |path| && (n == userbuflen || n == |path|)
      && (copyout(path[..n], userbuf).Err? ==> o == Failure(copyout(path[..n], userbuf).code))
      && (copyout(path[..n], userbuf).Ok? ==> o == Success(n))
  {
    match vfsGetcwd
    case Err(e) => Failure(e)
    case Ok(w) =>
      var path := CString(w, PATH_MAX);
      var n := Min(|path|, userbuflen);
      match copyout(path[..n], userbuf)
      case Err(e) => Failure(e)
      case Ok(_) => Success(n)
  }

  /** The file name `sys_open` hands to `vfs_open`: what `copyinstr` brought
      in, cut at the NUL the kernel forces into the last byte of its
      NAME_MAX + 1 byte buffer. */
  function KernelFileName(name: seq<Byte>): (k: seq<Byte>)
    ensures |k| <= NAME_MAX && |k| <= |name| && k == name[..|k|]
    ensures |name| <= NAME_MAX ==> k == name
    ensures |name| > NAME_MAX ==> |k| == NAME_MAX
  {
    if |name| <= NAME_MAX then name else name[..NAME_MAX]
  }

  /** `sys_open`: the error of `copyinstr` or `vfs_open` with nothing changed;
      or, once the file is open, the descriptor `fd_allocate` gives it; or, if
      that fails, its error after the vnode has been handed to `vfs_close`. */
  ghost function OpenSpec(s: KernelState, usrfilename: Word, flags: Int32, mode: Word,
                          env: Collaborators): Effect
  {
    match env.copyinstr(usrfilename)
    case Err(e) => Effect(Failure(e), s)
    case Ok(name) =>
      match env.vfsOpen(KernelFileName(name), flags, mode)
      case Err(e) => Effect(Failure(e), s)
      case Ok(v) =>
        var a := AllocateSpec(s.nodes, v, env.kmallocFails);
        match a.result
        case Err(e) => Effect(Failure(e), KernelState(s.nodes, s.released + [v]))
        case Ok(fd) => Effect(Success(fd), KernelState(a.nodes, s.released))
  }

  /** `sys_close`: EBADF for a descriptor out of range, the error of
      `fd_deallocate`, or success after the vnode it gives back has been
      handed to `vfs_close`. */
  ghost function CloseSpec(s: KernelState, fd: Int32): Effect {
    if !InRange(fd) then Effect(Failure(EBADF), s)
    else
      var d := DeallocateSpec(s.nodes, fd);
      match d.result
      case Err(e) => Effect(Failure(e), s)
      case Ok(v) => Effect(Success(0), KernelState(d.nodes, s.released + [v]))
  }

  /** The values the dispatcher leaves in `v0` and `a3`: the error code and 1
      on failure, the return value and 0 on success. Read back with a signed
      cast, `v0` gives the code or the value. */
  function ReturnRegisters(o: Outcome): (r: (Word, Word))
    ensures r.1 == 1 <==> o.Failure?
    ensures r.1 == 0 <==> o.Success?
    ensures o.Failure? ==> ToInt32(r.0) == o.err
    ensures o.Success? ==> ToInt32(r.0) == o.retval
  {
    match o
    case Failure(err) => Int32RoundTrip(err); (ToWord(err), 1)
    case Success(retval) => Int32RoundTrip(retval); (ToWord(retval), 0)
  }

  /** `sys___getcwd`: reads the current directory into a PATH_MAX + 1 byte
      kernel buffer, NUL-terminates it, and copies out as many bytes of the
      path as the user buffer holds. */
  method SysGetcwd(userbuf: Word, userbuflen: Word, vfsGetcwd: Result<seq<Byte>>,
                   copyout: (seq<Byte>, Word) -> Result<()>) returns (o: Outcome)
    ensures o == GetcwdOutcome(userbuf, userbuflen, vfsGetcwd, copyout)
  {
    if vfsGetcwd.Err? {
      return Failure(vfsGetcwd.code);
    }
    // The uio given to vfs_getcwd accepts at most PATH_MAX bytes.
    var written := vfsGetcwd.value;
    if |written| > PATH_MAX {
      written := written[..PATH_MAX];
    }
    var kernbuf := written + [0];
    var kernbuflen := StrLen(kernbuf);
    ghost var path := CString(vfsGetcwd.value, PATH_MAX);
    assert kernbuflen == |path| && kernbuf[..kernbuflen] == path by {
      KernelBufferHoldsPath(vfsGetcwd.value, written, kernbuflen);
    }
    var numbytescopied: int;
    if kernbuflen < userbuflen {
      numbytescopied := kernbuflen;
    } else {
      numbytescopied := userbuflen;
    }
    assert kernbuf[..numbytescopied] == path[..numbytescopied];
    var result := copyout(kernbuf[..numbytescopied], userbuf);
    if result.Err? {
      return Failure(result.code);
    }
    return Success(numbytescopied);
  }

  /** `strlen` of the terminated kernel buffer finds the C string the
      directory path forms. */
  lemma KernelBufferHoldsPath(w: seq<Byte>, written: seq<Byte>, n: nat)
    requires written == if |w| > PATH_MAX then w[..PATH_MAX] else w
    requires n < |written + [0]| && (written + [0])[n] == 0
    requires forall k | 0 <= k < n :: (written + [0])[k] != 0
    ensures n == |CString(w, PATH_MAX)| && (written + [0])[..n] == CString(w, PATH_MAX)
  {
    var path := CString(w, PATH_MAX);
    var buf := written + [0];
    assert forall k | 0 <= k < |written| :: buf[k] == w[k];
  }

  /** `sys_open` leaks nothing: when `copyinstr` or `vfs_open` fails its
      error comes back and nothing changes; once a vnode is open it either
      gets the lowest free descriptor and is not closed, or the allocation
      error (ENOMEM when `kmalloc` fails, ENFILE exactly when all descriptors
      are live) comes back, no entry is made and the vnode is closed once. */
  lemma OpenLeaksNothing(s: KernelState, usrfilename: Word, flags: Int32, mode: Word,
                         env: Collaborators)
    requires WellFormed(s.nodes)
    ensures var e := OpenSpec(s, usrfilename, flags, mode, env);
      var name := env.copyinstr(usrfilename);
      && WellFormed(e.state.nodes)
      && (name.Err? ==> e == Effect(Failure(name.code), s))
      && (name.Ok? && env.vfsOpen(KernelFileName(name.value), flags, mode).Err? ==>
            e == Effect(Failure(env.vfsOpen(KernelFileName(name.value), flags, mode).code), s))
      && (name.Ok? && env.vfsOpen(KernelFileName(name.value), flags, mode).Ok? ==>
            var v := env.vfsOpen(KernelFileName(name.value), flags, mode).value;
            && (e.outcome.Success? ==>
                  && InRange(e.outcome.retval) && e.outcome.retval !in Fds(s.nodes)
                  && (forall k | FD_MIN <= k < e.outcome.retval :: k in Fds(s.nodes))
                  && e.state == KernelState([FdNode(e.outcome.retval, v)] + s.nodes, s.released))
            && (e.outcome.Failure? ==>
                  && e.state == KernelState(s.nodes, s.released + [v])
                  && (e.outcome.err == ENOMEM <==> env.kmallocFails)
                  && (e.outcome.err == ENFILE <==> !env.kmallocFails && |s.nodes| == FD_COUNT)))
  {
    var name := env.copyinstr(usrfilename);
    if name.Ok? {
      var vnode := env.vfsOpen(KernelFileName(name.value), flags, mode);
      if vnode.Ok? {
        AllocateKeepsWellFormed(s.nodes, vnode.value, env.kmallocFails);
        ExhaustedIffFull(s.nodes);
      }
    }
  }

  /** `sys_close` closes a vnode only when it deallocates a descriptor: it
      succeeds exactly for a live descriptor in range, then frees that
      descriptor and closes the vnode the descriptor held; otherwise it
      fails with EBADF and changes nothing. */
  lemma CloseReleasesOnlyOnSuccess(s: KernelState, fd: Int32)
    requires WellFormed(s.nodes)
    ensures var e := CloseSpec(s, fd);
      && WellFormed(e.state.nodes)
      && (e.outcome.Success? <==> InRange(fd) && fd in Fds(s.nodes))
      && (e.outcome.Success? ==>
            && e.outcome.retval == 0
            && |e.state.released| == |s.released| + 1
            && e.state.released[..|s.released|] == s.released
            && FdNode(fd, e.state.released[|s.released|]) in s.nodes
            && Fds(e.state.nodes) == Fds(s.nodes) - {fd})
      && (e.outcome.Failure? ==> e == Effect(Failure(EBADF), s))
  {
  }

  /** Closing the descriptor a successful `open` returned closes the vnode it
      opened and restores the descriptor list; closing it again is EBADF. */
  lemma CloseAfterOpen(s: KernelState, usrfilename: Word, flags: Int32, mode: Word,
                       env: Collaborators)
    requires WellFormed(s.nodes)
    requires OpenSpec(s, usrfilename, flags, mode, env).outcome.Success?
    ensures var afterOpen := OpenSpec(s, usrfilename, flags, mode, env);
      var fd := afterOpen.outcome.retval;
      var v := env.vfsOpen(KernelFileName(env.copyinstr(usrfilename).value), flags, mode).value;
      var closed := CloseSpec(afterOpen.state, fd);
      && closed == Effect(Success(0), KernelState(s.nodes, s.released + [v]))
      && CloseSpec(closed.state, fd) == Effect(Failure(EBADF), closed.state)
  {
  }

  /** The kernel's system-call state: the descriptor table and the record of
      `vfs_close` calls. */
  class Kernel {
    const fds: FdTable
    ghost var released: seq<Vnode>

    ghost predicate Valid()
      reads this, fds
    {
      fds.Valid()
    }

    ghost function State(): KernelState
      reads this, fds
    {
      KernelState(fds.nodes, released)
    }

    constructor ()
      ensures Valid() && fresh(fds) && State() == KernelState([], [])
    {
      fds := new FdTable();
      released := [];
    }

    /** `sys_open`: copies the path in, opens it, and allocates a descriptor
        for the vnode, closing the vnode again if allocation fails. */
    method SysOpen(usrfilename: Word, flags: Int32, mode: Word, env: Collaborators)
      returns (o: Outcome)
      requires Valid()
      modifies this, fds
      ensures Valid()
      ensures Effect(o, State()) == OpenSpec(old(State()), usrfilename, flags, mode, env)
    {
      var copied := env.copyinstr(usrfilename);
      if copied.Err? {
        return Failure(copied.code);
      }
      var kernfilename := copied.value;
      if |kernfilename| > NAME_MAX {
        kernfilename := kernfilename[..NAME_MAX];
      }
      var openResult := env.vfsOpen(kernfilename, flags, mode);
      if openResult.Err? {
        return Failure(openResult.code);
      }
      var v := openResult.value;
      var r := fds.Allocate(v, env.kmallocFails);
      if r.Err? {
        released := released + [v];  // vfs_close(v)
        return Failure(r.code);
      }
      return Success(r.value);
    }

    /** `sys_close`: range-checks the descriptor, deallocates it and closes
        the vnode the table gives back. */
    method SysClose(fd: Int32) returns (o: Outcome)
      requires Valid()
      modifies this, fds
      ensures Valid()
      ensures !InRange(fd) ==> o == Failure(EBADF) && unchanged(this, fds)
      ensures Effect(o, State()) == CloseSpec(old(State()), fd)
    {
      if fd < FD_MIN || fd > FD_MAX {
        return Failure(EBADF);
      }
      var r := fds.Deallocate(fd);
      if r.Err? {
        return Failure(r.code);
      }
      released := released + [r.value];  // vfs_close(v)
      return Success(0);
    }

    /** `syscall`: routes the call number in `v0` to its handler, writes the
        outcome into `v0` and `a3`, and moves `epc` past the trapping
        instruction. */
    method Syscall(tf: Trapframe, env: Collaborators) returns (ghost o: Outcome)
      requires Valid()
      modifies this, fds, tf`v0, tf`a3, tf`epc
      ensures Valid()
      ensures (tf.v0, tf.a3) == ReturnRegisters(o)
      ensures tf.epc == ToWord(old(tf.epc) + 4)
      ensures var callno := ToInt32(old(tf.v0));
        && (callno == SYS_reboot ==>
              o == FromErrorReturn(env.sysReboot(ToInt32(tf.a0))) && State() == old(State()))
        && (callno == SYS___time ==>
              o == FromErrorReturn(env.sysTime(tf.a0, tf.a1)) && State() == old(State()))
        && (callno == SYS___getcwd ==>
              o == GetcwdOutcome(tf.a0, tf.a1, env.vfsGetcwd, env.copyout) && State() == old(State()))
        && (callno == SYS_open ==>
              Effect(o, State()) == OpenSpec(old(State()), tf.a0, ToInt32(tf.a1), tf.a2, env))
        && (callno == SYS_close ==>
              Effect(o, State()) == CloseSpec(old(State()), ToInt32(tf.a0)))
        && (callno !in {SYS_reboot, SYS___time, SYS___getcwd, SYS_open, SYS_close} ==>
              o == Failure(ENOSYS) && State() == old(State()))
    {
      var callno := ToInt32(tf.v0);
      var outcome: Outcome;
      if callno == SYS_reboot {
        outcome := FromErrorReturn(env.sysReboot(ToInt32(tf.a0)));
      } else if callno == SYS___time {
        outcome := FromErrorReturn(env.sysTime(tf.a0, tf.a1));
      } else if callno == SYS___getcwd {
        outcome := SysGetcwd(tf.a0, tf.a1, env.vfsGetcwd, env.copyout);
      } else if callno == SYS_open {
        outcome := SysOpen(tf.a0, ToInt32(tf.a1), tf.a2, env);
      } else if callno == SYS_close {
        outcome := SysClose(ToInt32(tf.a0));
      } else {
        outcome := Failure(ENOSYS);
      }
      match outcome {
        case Failure(err) =>
          tf.v0 := ToWord(err);
          tf.a3 := 1;
        case Success(retval) =>
          tf.v0 := ToWord(retval);
          tf.a3 := 0;
      }
      tf.epc := ToWord(tf.epc + 4);
      o := outcome;
    }
  }
}
