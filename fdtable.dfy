/** The process-wide file-descriptor table of kern/arch/mips/syscall/syscall.c:
    a singly linked list of (fd, vnode) nodes rooted at `first_fdnode`, here a
    sequence whose index 0 is the head of the list. */
module FileDescriptors {
  import opened Errno

  /** The VFS's open-file object; the table only stores and hands back
      references to it. */
  type Vnode

  /** One opened descriptor, `struct fdnode` without its `next` link. */
  datatype FdNode = FdNode(fd: int, v: Vnode)

  /** The first descriptor after the three standard streams. */
  const FD_MIN: int := 3
  /** The largest descriptor, chosen so that it fits in a `char`. */
  const FD_MAX: int := 127
  /** How many descriptors the range [FD_MIN, FD_MAX] holds. */
  const FD_COUNT: int := FD_MAX - FD_MIN + 1

  predicate InRange(fd: int) {
    FD_MIN <= fd <= FD_MAX
  }

  /** The descriptors currently present in the list. */
  ghost function Fds(nodes: seq<FdNode>): set<int> {
    set n | n in nodes :: n.fd
  }

  /** The integers in [lo, hi]. */
  ghost function Interval(lo: int, hi: int): (r: set<int>)
    ensures forall k :: k in r <==> lo <= k <= hi
    ensures |r| == if lo <= hi then hi - lo + 1 else 0
    decreases hi - lo
  {
    if lo > hi then {} else {lo} + Interval(lo + 1, hi)
  }

  /** No descriptor appears twice in the list. */
  ghost predicate Distinct(nodes: seq<FdNode>) {
    forall i, j | 0 <= i < j < |nodes| :: nodes[i].fd != nodes[j].fd
  }

  /** The invariant the table keeps: live descriptors are pairwise distinct and
      lie in [FD_MIN, FD_MAX]. */
  ghost predicate WellFormed(nodes: seq<FdNode>) {
    Distinct(nodes) && forall n | n in nodes :: InRange(n.fd)
  }

  /** The smallest descriptor in [from, FD_MAX] that is not in the list. */
  ghost function FirstFree(nodes: seq<FdNode>, from: int): (r: Option<int>)
    requires FD_MIN <= from <= FD_MAX + 1
    ensures r.Some? ==> from <= r.value <= FD_MAX && r.value !in Fds(nodes)
    ensures r.Some? ==> forall k | from <= k < r.value :: k in Fds(nodes)
    ensures r.None? <==> forall k | from <= k <= FD_MAX :: k in Fds(nodes)
    decreases FD_MAX + 1 - from
  {
    if from > FD_MAX then None
    else if from !in Fds(nodes) then Some(from)
    else FirstFree(nodes, from + 1)
  }

  /** The position of the first node carrying `fd`, or -1 when none does. */
  ghost function IndexOf(nodes: seq<FdNode>, fd: int): (i: int)
    ensures -1 <= i < |nodes|
    ensures i >= 0 ==> nodes[i].fd == fd
    ensures forall k | 0 <= k < |nodes| && (i < 0 || k < i) :: nodes[k].fd != fd
  {
    if |nodes| == 0 then -1
    else if nodes[0].fd == fd then 0
    else
      var j := IndexOf(nodes[1..], fd);
      if j < 0 then -1 else j + 1
  }

  /** The result of a table operation together with the list it leaves. */
  datatype Step<+T> = Step(result: Result<T>, nodes: seq<FdNode>)

  /** `fd_allocate`: ENOMEM when the node cannot be allocated, ENFILE when
      every descriptor in range is taken, otherwise the lowest free descriptor,
      pushed at the head with its vnode. */
  ghost function AllocateSpec(nodes: seq<FdNode>, v: Vnode, outOfMemory: bool): Step<int> {
    if outOfMemory then Step(Err(ENOMEM), nodes)
    else match FirstFree(nodes, FD_MIN)
      case None => Step(Err(ENFILE), nodes)
      case Some(fd) => Step(Ok(fd), [FdNode(fd, v)] + nodes)
  }

  /** `fd_deallocate`: EBADF when `fd` is out of range or absent, otherwise the
      vnode of the node carrying `fd`, with that node unlinked. */
  ghost function DeallocateSpec(nodes: seq<FdNode>, fd: int): Step<Vnode> {
    if !InRange(fd) then Step(Err(EBADF), nodes)
    else
      var i := IndexOf(nodes, fd);
      if i < 0 then Step(Err(EBADF), nodes)
      else Step(Ok(nodes[i].v), nodes[..i] + nodes[i + 1..])
  }

  /** The list of descriptor nodes, updated in place by `fd_allocate` and
      `fd_deallocate`. */
  class FdTable {
    var nodes: seq<FdNode>

    ghost predicate Valid()
      reads this
    {
      WellFormed(nodes)
    }

    constructor ()
      ensures Valid() && nodes == []
    {
      nodes := [];
    }

    /** `fd_is_being_used`: walks the list looking for `fd`. */
    method IsBeingUsed(fd: int) returns (used: bool)
      ensures used <==> fd in Fds(nodes)
    {
      var i := 0;
      while i < |nodes|
        invariant 0 <= i <= |nodes|
        invariant forall k | 0 <= k < i :: nodes[k].fd != fd
      {
        if nodes[i].fd == fd {
          return true;
        }
        i := i + 1;
      }
      return false;
    }

    /** `fd_allocate`: scans [FD_MIN, FD_MAX] upwards for the first descriptor
        not in use and links a new node for it at the head of the list. */
    method Allocate(v: Vnode, outOfMemory: bool) returns (r: Result<int>)
      requires Valid()
      modifies this
      ensures Valid()
      ensures Step(r, nodes) == AllocateSpec(old(nodes), v, outOfMemory)
    {
      if outOfMemory {
        return Err(ENOMEM);
      }
      var availableFd := FD_MIN;
      var fdIsAvailable := false;
      for i := FD_MIN to FD_MAX + 1
        invariant nodes == old(nodes) && !fdIsAvailable
        invariant forall k | FD_MIN <= k < i :: k in Fds(nodes)
      {
        var used := IsBeingUsed(i);
        if !used {
          availableFd := i;
          fdIsAvailable := true;
          break;
        }
      }
      if !fdIsAvailable {
        return Err(ENFILE);
      }
      nodes := [FdNode(availableFd, v)] + nodes;
      r := Ok(availableFd);
    }

    /** `fd_deallocate`: range-checks `fd`, then unlinks the node carrying it,
        checking the head first and then each node's successor. */
    method Deallocate(fd: int) returns (r: Result<Vnode>)
      requires Valid()
      modifies this
      ensures Valid()
      ensures Step(r, nodes) == DeallocateSpec(old(nodes), fd)
    {
      if fd < FD_MIN || fd > FD_MAX {
        return Err(EBADF);
      }
      var fdFound := false;
      if |nodes| == 0 {
        // No open files.
      } else if nodes[0].fd == fd {
        r := Ok(nodes[0].v);
        nodes := nodes[1..];
        fdFound := true;
      } else {
        var i := 0;
        while i + 1 < |nodes|
          invariant 0 <= i < |nodes| && nodes == old(nodes)
          invariant forall k | 0 <= k <= i :: nodes[k].fd != fd
        {
          if nodes[i + 1].fd == fd {
            r := Ok(nodes[i + 1].v);
            nodes := nodes[..i + 1] + nodes[i + 2..];
            fdFound := true;
            break;
          }
          i := i + 1;
        }
      }
      if !fdFound {
        return Err(EBADF);
      }
    }
  }

  /** Distinct descriptors: the list has as many nodes as live descriptors. */
  lemma {:induction false} FdsSize(nodes: seq<FdNode>)
    requires Distinct(nodes)
    ensures |Fds(nodes)| == |nodes|
  {
    if nodes != [] {
      var tail := nodes[1..];
      assert Distinct(tail) by {
        forall i, j | 0 <= i < j < |tail| ensures tail[i].fd != tail[j].fd {
          assert tail[i] == nodes[i + 1] && tail[j] == nodes[j + 1];
        }
      }
      FdsSize(tail);
      assert Fds(nodes) == {nodes[0].fd} + Fds(tail) by {
        assert nodes == [nodes[0]] + tail;
      }
      assert nodes[0].fd !in Fds(tail) by {
        forall n | n in tail ensures n.fd != nodes[0].fd {
          var k :| 0 <= k < |tail| && tail[k] == n;
          assert nodes[k + 1] == n;
        }
      }
    }
  }

  /** `fd_allocate` reports ENFILE exactly when all FD_COUNT descriptors of
      [FD_MIN, FD_MAX] are live. */
  lemma ExhaustedIffFull(nodes: seq<FdNode>)
    requires WellFormed(nodes)
    ensures FirstFree(nodes, FD_MIN).None? <==> |nodes| == FD_COUNT
  {
    var live, range := Fds(nodes), Interval(FD_MIN, FD_MAX);
    FdsSize(nodes);
    if FirstFree(nodes, FD_MIN).None? {
      assert range - live == {};
    } else {
      assert FirstFree(nodes, FD_MIN).value in range - live;
    }
  }

  /** A successful allocation hands out a descriptor in range that was not
      live, pushes exactly one node at the head, and keeps the table
      well formed; a failed one leaves the list as it was. */
  lemma AllocateKeepsWellFormed(nodes: seq<FdNode>, v: Vnode, outOfMemory: bool)
    requires WellFormed(nodes)
    ensures var s := AllocateSpec(nodes, v, outOfMemory);
      && WellFormed(s.nodes)
      && (s.result.Ok? ==> InRange(s.result.value) && s.result.value !in Fds(nodes)
                           && s.nodes == [FdNode(s.result.value, v)] + nodes
                           && Fds(s.nodes) == Fds(nodes) + {s.result.value})
      && (s.result.Err? ==> s.nodes == nodes && s.result.code in {ENOMEM, ENFILE})
  {
  }

  /** Deallocating a live descriptor returns its vnode and removes exactly its
      node, every other node staying in the list (`DeallocateSpec` keeps their
      order); deallocating anything else is EBADF and changes nothing. */
  lemma DeallocateRemovesExactly(nodes: seq<FdNode>, fd: int)
    requires WellFormed(nodes)
    ensures var s := DeallocateSpec(nodes, fd);
      && WellFormed(s.nodes)
      && (s.result.Ok? <==> InRange(fd) && fd in Fds(nodes))
      && (s.result.Ok? ==> FdNode(fd, s.result.value) in nodes
                           && Fds(s.nodes) == Fds(nodes) - {fd}
                           && |s.nodes| == |nodes| - 1
                           && (forall n | n in nodes && n.fd != fd :: n in s.nodes)
                           && (forall n | n in s.nodes :: n in nodes && n.fd != fd))
      && (s.result.Err? ==> s.result.code == EBADF && s.nodes == nodes)
  {
  }

  /** Allocating for `v` and then deallocating the descriptor handed out gives
      `v` back and restores the list; a second deallocation is EBADF. */
  lemma DeallocateAfterAllocate(nodes: seq<FdNode>, v: Vnode)
    requires WellFormed(nodes)
    requires AllocateSpec(nodes, v, false).result.Ok?
    ensures var a := AllocateSpec(nodes, v, false);
      var d := DeallocateSpec(a.nodes, a.result.value);
      && d == Step(Ok(v), nodes)
      && DeallocateSpec(d.nodes, a.result.value) == Step(Err(EBADF), nodes)
  {
  }

  /** With every descriptor live, closing one makes exactly one more
      allocation succeed: it returns the freed descriptor, and the allocation
      after it is ENFILE again. */
  lemma FreeOneThenAllocate(nodes: seq<FdNode>, fd: int, v: Vnode, w: Vnode)
    requires WellFormed(nodes) && |nodes| == FD_COUNT
    requires DeallocateSpec(nodes, fd).result.Ok?
    ensures var d := DeallocateSpec(nodes, fd);
      var a := AllocateSpec(d.nodes, v, false);
      && a.result == Ok(fd)
      && AllocateSpec(a.nodes, w, false) == Step(Err(ENFILE), a.nodes)
  {
    var d := DeallocateSpec(nodes, fd);
    DeallocateRemovesExactly(nodes, fd);
    ExhaustedIffFull(nodes);
    ExhaustedIffFull(d.nodes);
    var f := FirstFree(d.nodes, FD_MIN);
    assert f.value == fd by {
      assert f.value in Fds(nodes) && f.value !in Fds(d.nodes);
    }
    AllocateKeepsWellFormed(d.nodes, v, false);
    ExhaustedIffFull(AllocateSpec(d.nodes, v, false).nodes);
  }

  /** A sequence of `open`/`close` table operations. */
  datatype TableOp = Alloc(v: Vnode, outOfMemory: bool) | Dealloc(fd: int)

  ghost function Run(nodes: seq<FdNode>, ops: seq<TableOp>): seq<FdNode>
    decreases |ops|
  {
    if ops == [] then nodes
    else
      var next := match ops[0]
        case Alloc(v, oom) => AllocateSpec(nodes, v, oom).nodes
        case Dealloc(fd) => DeallocateSpec(nodes, fd).nodes;
      Run(next, ops[1..])
  }

  /** Whatever sequence of allocations and deallocations runs, live
      descriptors stay pairwise distinct and within [FD_MIN, FD_MAX]. */
  lemma {:induction false} RunKeepsWellFormed(nodes: seq<FdNode>, ops: seq<TableOp>)
    requires WellFormed(nodes)
    ensures WellFormed(Run(nodes, ops))
    decreases |ops|
  {
    if ops != [] {
      match ops[0]
      case Alloc(v, oom) =>
        AllocateKeepsWellFormed(nodes, v, oom);
        RunKeepsWellFormed(AllocateSpec(nodes, v, oom).nodes, ops[1..]);
      case Dealloc(fd) =>
        DeallocateRemovesExactly(nodes, fd);
        RunKeepsWellFormed(DeallocateSpec(nodes, fd).nodes, ops[1..]);
    }
  }
}
