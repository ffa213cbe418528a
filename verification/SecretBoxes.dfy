/** Secret boxes, call by call: every branch that fails gives back what it took. */
module SecretBoxes {
  import opened Common
  import opened SecretMemory

  /** A process with its secret boxes, its memory and what the kernel keeps. */
  class Process {
    const size: PageSize
    var boxes: Boxes
    var kernel: Kernel
    var mem: map<nat, byte>

    constructor (size: PageSize)
      ensures this.size == size && View() == State(size, map[], Kernel({}, {}, {}, {}, {}, {}), map[]) && Inv(View())
    {
      this.size, this.boxes, this.kernel, this.mem := size, map[], Kernel({}, {}, {}, {}, {}, {}), map[];
    }

    function View(): State
      reads this
    {
      State(size, boxes, kernel, mem)
    }

    // ----- system calls -------------------------------------------------------

    method Close(fd: nat, fails: bool)
      modifies this`kernel
      ensures kernel == Closed(old(kernel), fd, fails)
    {
      if fails {
        kernel := kernel.(lostFds := kernel.lostFds + {fd});
      } else {
        kernel := kernel.(fds := kernel.fds - {fd});
      }
    }

    /** `munlock` is page-granular and not reference-counted. */
    method Munlock(page: nat, fails: bool)
      modifies this`kernel
      ensures kernel == Unlocked(old(kernel), page, fails)
    {
      if !fails {
        kernel := kernel.(locked := kernel.locked - {page});
      }
    }

    method Munmap(page: nat, fails: bool)
      modifies this`kernel
      ensures kernel == Unmapped(old(kernel), page, fails)
    {
      if fails {
        kernel := kernel.(lost := kernel.lost + {page});
      } else {
        kernel := kernel.(mapped := kernel.mapped - {page}, locked := kernel.locked - {page});
      }
    }

    // ----- allocation ---------------------------------------------------------

    /** `try_memfd_secret`: a descriptor is either the new box's or closed again,
        as far as that works. */
    method TryMemfdSecret(g: Grant) returns (b: Option<Backing>)
      requires g.memfd.Some? ==> g.memfd.value !in kernel.fds
      modifies this`kernel, this`mem
      ensures b == if Choice(g).MemfdSecret? then Some(Choice(g)) else None
      ensures kernel == if b.Some? then Claim(size, old(kernel), g) else Tried(old(kernel), g)
      ensures mem == if b.Some? then Put(old(mem), At(size, Choice(g)), BLANK) else old(mem)
    {
      if g.memfd.None? {
        return None;
      }
      var fd := g.memfd.value;
      kernel := kernel.(fds := kernel.fds + {fd});
      if !g.sized {
        Close(fd, !g.closes);
        return None;
      }
      if !g.truncates {
        Close(fd, !g.closes);
        return None;
      }
      if g.shared.None? {
        Close(fd, !g.closes);
        return None;
      }
      var page := g.shared.value;
      kernel := kernel.(mapped := kernel.mapped + {page}, locked := kernel.locked + {page});
      mem := Put(mem, page * size, BLANK);
      b := Some(MemfdSecret(page, fd));
    }

    /** `try_private_page`: locked, if the kernel allows it, before any secret is
        written. */
    method TryPrivatePage(g: Grant) returns (b: Option<Backing>, pinned: bool)
      modifies this`kernel, this`mem
      ensures b == if g.sized && g.anon.Some? then Some(Page(g.anon.value)) else None
      ensures pinned == (b.Some? && g.locks)
      ensures b.None? ==> kernel == old(kernel) && mem == old(mem)
      ensures b.Some? ==> mem == Put(old(mem), At(size, b.value), BLANK)
      ensures b.Some? ==> kernel == old(kernel).(
        mapped := old(kernel).mapped + {b.value.page},
        locked := if g.locks then old(kernel).locked + {b.value.page} else old(kernel).locked)
    {
      pinned := false;
      if !g.sized {
        return None, false;
      }
      if g.anon.None? {
        return None, false;
      }
      var page := g.anon.value;
      kernel := kernel.(mapped := kernel.mapped + {page});
      mem := Put(mem, page * size, BLANK);
      if g.locks {
        kernel := kernel.(locked := kernel.locked + {page});
        pinned := true;
      }
      b := Some(Page(page));
    }

    /** `zeroed`: the strongest backing the system grants. Memory only the process
        can map if all its calls succeed, else a page of its own if one can be
        mapped, else the heap; a refused memfd stays open only if closing it fails;
        and the box counts as pinned exactly if its pages got locked. */
    method Zeroed(id: nat, g: Grant)
      requires id !in boxes && (g.memfd.Some? ==> g.memfd.value !in kernel.fds)
      modifies this
      ensures View() == Alloc(old(View()), id, g)
      ensures id in boxes && boxes[id].backing ==
        if g.memfd.Some? && g.sized && g.truncates && g.shared.Some? then MemfdSecret(g.shared.value, g.memfd.value)
        else if g.sized && g.anon.Some? then Page(g.anon.value)
        else Heap(g.heapAt)
      ensures boxes[id].pinned <==> (boxes[id].backing.MemfdSecret? || (boxes[id].backing.Page? && g.locks) || (boxes[id].backing.Heap? && Pages(size, Heap(g.heapAt)) <= g.heapLocks))
      ensures kernel.fds == old(kernel.fds) + if g.memfd.Some? && (boxes[id].backing.MemfdSecret? || !g.closes) then {g.memfd.value} else {}
      ensures kernel.mapped == old(kernel.mapped) + if boxes[id].backing.Heap? then {} else {boxes[id].backing.page}
      ensures boxes[id].pinned ==> Pages(size, boxes[id].backing) <= kernel.locked
      ensures Content(size, mem, boxes[id].backing) == BLANK
    {
      PutGet(size, mem, Choice(g), BLANK);
      var b := TryMemfdSecret(g);
      if b.Some? {
        boxes := boxes[id := Box(b.value, true)];
        return;
      }
      var pinned;
      b, pinned := TryPrivatePage(g);
      if b.Some? {
        boxes := boxes[id := Box(b.value, pinned)];
        return;
      }
      var pages := Pages(size, Heap(g.heapAt));
      mem := Put(mem, g.heapAt, BLANK);
      kernel := kernel.(locked := kernel.locked + pages * g.heapLocks, stray := kernel.stray + pages * g.heapLocks);
      boxes := boxes[id := Box(Heap(g.heapAt), pages <= g.heapLocks)];
    }

    /** `clone`: a new backing first, then the bytes from buffer to buffer. */
    method CloneBox(from: nat, id: nat, g: Grant)
      requires Inv(View()) && Legal(View(), Clone(from, id, g))
      modifies this
      ensures View() == Step(old(View()), Clone(from, id, g)) && Inv(View())
      ensures id in boxes && Content(size, mem, boxes[id].backing) == old(Content(size, mem, boxes[from].backing))
    {
      ghost var s := View();
      Zeroed(id, g);
      mem := Put(mem, At(size, boxes[id].backing), Content(size, mem, boxes[from].backing));
      StepKeeps(s, Clone(from, id, g));
      FreshAndCloned(s, Clone(from, id, g));
    }

    /** `drop`: wipe, then undo exactly what the backing took, going on whichever
        call fails. */
    method DropBox(id: nat, f: Faults)
      requires Inv(View()) && id in boxes
      modifies this
      ensures View() == Step(old(View()), Release(id, f)) && Inv(View())
      ensures var b := old(boxes[id]).backing;
        && (!b.Heap? && !f.munmap ==> b.page !in kernel.mapped && b.page !in kernel.locked)
        && (b.MemfdSecret? && !f.close ==> b.fd !in kernel.fds)
        && (b.Heap? ==> kernel == old(kernel))
    {
      ghost var s := View();
      var b := boxes[id].backing;
      mem := Put(mem, At(size, b), BLANK);
      match b {
        case MemfdSecret(page, fd) =>
          Munmap(page, f.munmap);
          Close(fd, f.close);
        case Page(page) =>
          Munlock(page, f.munlock);
          Munmap(page, f.munmap);
        case Heap(_) =>
      }
      boxes := boxes - {id};
      StepKeeps(s, Release(id, f));
    }
  }
}
