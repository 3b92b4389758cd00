/**
 The small-object allocator and the page tables draw their frames from one bitmap.  Every frame is
 free, or held by the allocator, or owned by the tables, or used by neither; calls of the two layers
 may alternate in any order, and each keeps the other consistent.  Each layer's memory is the words
 of its own frames.
 */
module SharedFrames {
  import opened Basics
  import opened Word64
  import opened Entries
  import opened Paging
  import opened PageFrames
  import opened VirtualMemories
  import opened Teardown
  import opened Remapping
  import opened KmemSlabs
  import opened KmemHeap
  import opened KmemHeaders
  import opened KmemAllocator

  /** The allocator minds the free frames only as far as it holds none of them and they lie in memory. */
  lemma HeapKept(s: Heap, free: set<nat>, free': set<nat>)
    requires HeapOk(s, free) && FreeOk(s, free')
    ensures HeapOk(s, free')
  {}

  /** Likewise the page tables. */
  lemma TablesKept(c: Sharing, w: World, w': World)
    requires Sound(c, w) && w'.mem == w.mem && w'.owner == w.owner && w.owner.Keys !! w'.free
    requires forall f | f in w'.free :: HasFrame(w.mem, f)
    ensures Sound(c, w')
  {}

  lemma StillApart(held: set<nat>, free: set<nat>, held': set<nat>, free': set<nat>, owned: set<nat>)
    requires held' + free' == held + free && owned !! held && owned !! free
    ensures owned !! held' && owned !! free'
  {}

  lemma FreeInMemory(s: Heap, free: set<nat>, mem: Memory)
    requires FreeOk(s, free) && 512 * s.total <= |mem|
    ensures forall f | f in free :: HasFrame(mem, f)
  {}

  class Machine {
    const kmem: Kmem
    const vm: VirtualMemory

    constructor (kmem: Kmem, vm: VirtualMemory)
      requires kmem.Valid() && vm.Valid() && kmem.frames == vm.frames && kmem.holder == map[]
      requires 0 !in vm.ram.owner && 512 * vm.frames.pageCount <= |kmem.mem|
      requires 512 * vm.frames.pageCount <= |vm.ram.mem|
      ensures Valid()
    {
      this.kmem, this.vm := kmem, vm;
    }

    ghost predicate Valid()
      reads this, kmem, vm, vm.ram, vm.frames, vm.frames.bitmap, kmem.frames, kmem.frames.bitmap
    {
      && kmem.frames == vm.frames && kmem.Valid() && vm.Valid()
      && kmem.holder.Keys !! vm.ram.owner.Keys && 0 !in vm.ram.owner
      && 512 * vm.frames.pageCount <= |kmem.mem| && 512 * vm.frames.pageCount <= |vm.ram.mem|
    }

    /** `kmalloc` beside the page tables. */
    method Malloc(size: Word, flags: Flags) returns (r: Result)
      requires Valid()
      modifies kmem, vm.frames`free, vm.frames`freePageCount, vm.frames.bitmap
      ensures Valid() && Served(old(kmem.State()), kmem.State(), r, size, flags.zero)
      ensures forall v: nat :: Look(vm.Snap(), v) == old(Look(vm.Snap(), v))
    {
      ghost var w, held := vm.State(), kmem.holder.Keys;
      r := kmem.Kmalloc(size, flags);
      StillApart(held, w.free, kmem.holder.Keys, vm.frames.free, w.owner.Keys);
      FreeInMemory(kmem.State(), vm.frames.free, w.mem);
      TablesKept(vm.ram.sharing, w, vm.State());
    }

    /** `kfree` beside the page tables; both layers stay consistent if the page has a header or no magic. */
    method Free(ptr: nat) returns (r: Verdict)
      requires Valid()
      modifies kmem, vm.frames`free, vm.frames`freePageCount, vm.frames.bitmap
      ensures forall v: nat :: Look(vm.Snap(), v) == old(Look(vm.Snap(), v))
      ensures !Foreign(old(kmem.mem), old(kmem.pages), ptr) ==> (r == Freed <==> ptr == 0 || ptr in old(kmem.live))
      ensures r == Freed && !Foreign(old(kmem.mem), old(kmem.pages), ptr) ==> Valid()
    {
      ghost var w, held := vm.State(), kmem.holder.Keys;
      ghost var known := !Foreign(kmem.mem, kmem.pages, ptr);
      r := kmem.FreeObject(ptr, None);
      if r == Freed && known {
        StillApart(held, w.free, kmem.holder.Keys, vm.frames.free, w.owner.Keys);
        FreeInMemory(kmem.State(), vm.frames.free, w.mem);
        TablesKept(vm.ram.sharing, w, vm.State());
      }
    }

    /** `allocate_and_map` beside the allocator: every live payload stays as it is. */
    method Map(va: Word, n: nat, flags: Word) returns (ok: bool, ghost done: nat)
      requires Valid() && IsPageFlags(flags) && Vpn(va) + n <= VPN_LIMIT
      requires forall u: nat | Vpn(va) <= u < Vpn(va) + n :: !Look(vm.Snap(), u).Large?
      modifies vm`root, vm`initialized, vm.frames`free, vm.frames`freePageCount, vm.frames.bitmap, vm.ram
      ensures Valid() && FreshRun(vm.ram.sharing, old(vm.Snap()), vm.Snap(), Vpn(va), done, flags)
      ensures ok <==> n != 0 && va % 4096 == 0 && done == n
    {
      ghost var s, w := kmem.State(), vm.State();
      ok, done := vm.AllocateAndMap(va, n, flags);
      HeapKept(s, w.free, vm.frames.free);
      OwnedApart(s, w, vm.State());
    }

    /** `free` of mapped pages beside the allocator. */
    method Unmap(va: Word, n: nat) returns (ok: bool, done: nat)
      requires Valid() && vm.initialized && Vpn(va) + n <= VPN_LIMIT
      requires forall u: nat | Vpn(va) <= u < Vpn(va) + n :: OwnOrNone(vm.ram.sharing, vm.Snap(), u)
      modifies vm`root, vm`initialized, vm.frames`free, vm.frames`freePageCount, vm.frames.bitmap, vm.ram
      ensures Valid() && Removed(vm.ram.sharing, old(vm.Snap()), vm.Snap(), Vpn(va), done, vm.frames.pageCount)
    {
      ghost var s, w0 := kmem.State(), vm.Snap();
      ok, done := FreeRange(vm, va, n);
      DataFrames(vm.ram.sharing, w0, Vpn(va), done);
      ReturnedFree(s, w0.w, vm.frames.free, FramesOf(w0, Vpn(va), done));
      HeapKept(s, w0.w.free, vm.frames.free);
    }
  }

  /** Frames the tables took were free, so the allocator holds none of them. */
  lemma OwnedApart(s: Heap, w: World, w': World)
    requires FreeOk(s, w.free) && s.holder.Keys !! w.owner.Keys && Grew(w, w')
    ensures s.holder.Keys !! w'.owner.Keys
  {}

  /** Frames the tables gave back were theirs, so the allocator holds none of them. */
  lemma ReturnedFree(s: Heap, w: World, free: set<nat>, given: set<nat>)
    requires FreeOk(s, w.free) && s.holder.Keys !! w.owner.Keys && free == w.free + Tracked(given, s.total)
    requires 512 * s.total <= |s.mem| && 0 !in w.owner && forall f | f in given :: f in w.owner
    ensures FreeOk(s, free)
  {}
}
