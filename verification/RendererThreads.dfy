/** The renderer's buffer functions, section by section, against the steps of BufferOwnership. */
module RendererThreads {

  import opened BufferOwnership

  /** xorg_list_del: the list without this buffer. */
  function Unlinked(list: seq<Handle>, h: Handle): (r: seq<Handle>) {
    if list == [] then [] else (if list[0] == h then [] else [list[0]]) + Unlinked(list[1..], h)
  }

  lemma {:induction false} UnlinkedAbsent(list: seq<Handle>, h: Handle)
    requires h !in list
    ensures Unlinked(list, h) == list
  {
    if list != [] {
      UnlinkedAbsent(list[1..], h);
      assert list == [list[0]] + list[1..];
    }
  }

  lemma {:induction false} UnlinkedAt(list: seq<Handle>, i: nat)
    requires i < |list| && multiset(list)[list[i]] == 1
    ensures Unlinked(list, list[i]) == Without(list, i)
    decreases |list|
  {
    var h := list[i];
    assert list == [list[0]] + list[1..];
    if i == 0 {
      UnlinkedAbsent(list[1..], h);
      assert Without(list, 0) == list[1..];
    } else {
      assert list[1..][i - 1] == h;
      assert h in list[1..];
      UnlinkedAt(list[1..], i - 1);
      assert Without(list, i) == [list[0]] + Without(list[1..], i - 1);
    }
  }

  /** What releasing a whole list comes to. */
  function AddedDrained(st: State): State {
    st.(added := [], heap := Drained(st.heap, st.added), freed := st.freed + Frees(st.added, Gui))
  }

  function RemovedDrained(st: State): State {
    st.(removed := [], heap := Drained(st.heap, st.removed), freed := st.freed + Frees(st.removed, RendererThread))
  }

  /** LorieBuffer_release, wherever the buffer is listed. */
  function Released(st: State, h: Handle, t: Thread): State
    requires h in st.heap
  {
    var b := st.heap[h];
    var s := st.(heap := st.heap[h := b.(refcount := b.refcount - 1)]);
    if b.refcount == 1 then
      s.(added := Unlinked(st.added, h), attached := Unlinked(st.attached, h), removed := Unlinked(st.removed, h),
         freed := st.freed + [Free(h, t)])
    else s
  }

  lemma ReleasedIsAdded(st: State, i: nat)
    requires Owned(st) && i < |st.added|
    ensures st.added[i] in st.heap && Released(st, st.added[i], Gui) == ReleaseAdded(st, i)
  {
    Listed(st);
    Disjoint(st);
    var h := st.added[i];
    assert h in st.added;
    UnlinkedAt(st.added, i);
    UnlinkedAbsent(st.attached, h);
    UnlinkedAbsent(st.removed, h);
  }

  lemma RemovedOnce(st: State)
    requires Owned(st)
    ensures forall h :: h in st.removed ==>
      h in st.heap && h !in st.added && h !in st.attached && multiset(st.removed)[h] == 1
  {
    Listed(st);
    Disjoint(st);
    var all := multiset(st.added) + multiset(st.attached) + multiset(st.removed) + multiset(Handles(st.freed));
    forall h | h in st.removed
      ensures multiset(st.removed)[h] == 1
    {
      assert all[h] <= 1;
    }
  }

  /** Releasing the first of a list changes nothing about where releasing all of it ends. */
  lemma DrainStep(heap: map<Handle, Buffer>, list: seq<Handle>, freed: seq<Free>, t: Thread)
    requires list != [] && list[0] in heap && multiset(list)[list[0]] == 1
    ensures var h := list[0];
            var less := heap[h := heap[h].(refcount := heap[h].refcount - 1)];
            && less.Keys == heap.Keys
            && Drained(less, list) == Drained(heap, list)
            && (heap[h].refcount == 1 ==> Drained(less, list[1..]) == Drained(heap, list))
            && freed + [Free(h, t)] + Frees(list[1..], t) == freed + Frees(list, t)
  {
    var h := list[0];
    var less := heap[h := heap[h].(refcount := heap[h].refcount - 1)];
    assert less.Keys == heap.Keys;
    assert list == [h] + list[1..];
    assert multiset(list) == multiset{h} + multiset(list[1..]);
    assert h !in list[1..];
    assert Frees(list, t) == [Free(h, t)] + Frees(list[1..], t);
  }

  lemma DrainAddedStep(st: State)
    requires Owned(st) && st.added != [] && st.added[0] in st.heap && st.heap[st.added[0]].refcount >= 1
    ensures AddedDrained(ReleaseAdded(st, 0)) == AddedDrained(st)
  {
    hide Drained, Frees, Owned;
    AddedOnce(st);
    WithoutFirst(st.added);
    DrainStep(st.heap, st.added, st.freed, Gui);
  }

  lemma AddedOnce(st: State)
    requires Owned(st) && st.added != []
    ensures multiset(st.added)[st.added[0]] == 1
  {
    Disjoint(st);
    assert st.added[0] in st.added;
  }

  /** Releasing the first of the removed buffers. */
  lemma ReleasedIsRemoved(st: State)
    requires Owned(st) && st.removed != []
    ensures var h := st.removed[0];
            && h in st.heap && multiset(st.removed)[h] == 1
            && Released(st, h, RendererThread)
               == (var b := st.heap[h];
                   var s := st.(heap := st.heap[h := b.(refcount := b.refcount - 1)]);
                   if b.refcount == 1 then s.(removed := st.removed[1..], freed := st.freed + [Free(h, RendererThread)])
                     else s)
  {
    hide Unlinked;
    var h := st.removed[0];
    assert h in st.removed;
    RemovedOnce(st);
    UnlinkedAt(st.removed, 0);
    WithoutFirst(st.removed);
    UnlinkedAbsent(st.added, h);
    UnlinkedAbsent(st.attached, h);
  }

  lemma DrainRemovedStep(st: State)
    requires Owned(st) && st.removed != [] && st.removed[0] in st.heap && st.heap[st.removed[0]].refcount >= 1
    ensures var s := Released(st, st.removed[0], RendererThread);
            && RemovedDrained(s) == RemovedDrained(st) && Owned(s)
            && (if st.heap[st.removed[0]].refcount == 1 then s.removed == st.removed[1..] else s.removed == st.removed)
            && s.added == st.added && s.attached == st.attached
  {
    hide Drained, Frees, Released;
    var h := st.removed[0];
    ReleasedIsRemoved(st);
    DrainStep(st.heap, st.removed, st.freed, RendererThread);
    if st.heap[h].refcount == 1 {
      HandlesOne(st.freed, h, RendererThread);
      WithoutFirst(st.removed);
      assert multiset(st.removed) == multiset{h} + multiset(st.removed[1..]);
    }
  }

  lemma ReversedMore(list: seq<Handle>, rest: seq<Handle>)
    requires list != []
    ensures Reversed(list) + rest == Reversed(list[1..]) + ([list[0]] + rest)
    ensures Reversed([]) + rest == rest
  {
  }

  class Renderer {
    var added: seq<Handle>
    var attached: seq<Handle>
    var removed: seq<Handle>
    var heap: map<Handle, Buffer>
    var pc: Pc
    ghost var freed: seq<Free>
    ghost var gl: set<Handle>

    ghost function Abs(): State
      reads this
    {
      State(added, attached, removed, heap, freed, pc)
    }

    ghost predicate Valid()
      reads this
    {
      Invariant(Abs(), gl) && gl <= heap.Keys
    }

    constructor ()
      ensures Valid() && Abs() == Start() && gl == {}
    {
      added, attached, removed, heap, pc, freed, gl := [], [], [], map[], BeforeAttach, [], {};
      new;
      StartOwned();
    }

    /** LorieBufferList_findById */
    method FindById(list: seq<Handle>, id: nat) returns (i: nat)
      requires forall h :: h in list ==> h in heap
      ensures i == Find(list, heap, id)
    {
      i := 0;
      ghost var all := Find(list, heap, id);
      assert list[0..] == list;
      while i < |list|
        invariant i <= |list| && all == i + Find(list[i..], heap, id)
      {
        assert list[i..][1..] == list[i + 1..];
        if heap[list[i]].id == id {
          return;
        }
        i := i + 1;
      }
    }

    /** LorieBuffer_release and __LorieBuffer_free */
    method Release(h: Handle, ghost t: Thread)
      requires h in heap
      modifies this`added, this`attached, this`removed, this`heap, this`freed
      ensures Abs() == Released(old(Abs()), h, t)
    {
      hide Unlinked;
      var b := heap[h];
      heap := heap[h := b.(refcount := b.refcount - 1)];
      if b.refcount == 1 {
        added, attached, removed := Unlinked(added, h), Unlinked(attached, h), Unlinked(removed, h);
        freed := freed + [Free(h, t)];
      }
    }

    /** rendererAddBuffer, with a buffer just received. */
    method AddBuffer(h: Handle, id: nat, refcount: int)
      requires Valid() && h !in heap && refcount >= 1
      modifies this
      ensures Valid() && Abs() == Next(old(Abs()), Add(h, id, refcount))
    {
      StepKeeps(Abs(), gl, Add(h, id, refcount));
      heap := heap[h := Buffer(refcount, id)];
      added := [h] + added;
    }

    /** rendererRemoveBuffer */
    method RemoveBuffer(id: nat)
      requires Valid()
      modifies this
      ensures Valid() && (forall h :: h in old(added) || h in old(attached) || h in old(removed) ==> h in old(heap))
      ensures Abs() == Next(old(Abs()), Remove(id))
    {
      hide Find, Unlinked, Without, Invariant;
      StepKeeps(Abs(), gl, Remove(id));
      InvariantOwned(Abs(), gl);
      var i := FindById(added, id);
      if i < |added| {
        ReleasedIsAdded(Abs(), i);
        Release(added[i], Gui);
      } else {
        var j := FindById(attached, id);
        if j < |attached| {
          var buf := attached[j];
          attached := Without(attached, j);
          removed := [buf] + removed;
        }
      }
    }

    /** The first loop of rendererRemoveAllBuffers. */
    method DrainAdded()
      requires Valid()
      modifies this
      ensures Abs() == AddedDrained(old(Abs())) && gl == old(gl)
    {
      hide Unlinked, Without, Frees, Drained, Invariant, Owned;
      while added != []
        invariant Valid() && AddedDrained(Abs()) == AddedDrained(old(Abs())) && gl == old(gl)
        decreases |added|, if added != [] && added[0] in heap then heap[added[0]].refcount else 0
      {
        ghost var st := Abs();
        Alive1(st, gl);
        var buf := added[0];
        ReleasedIsAdded(st, 0);
        DrainAddedStep(st);
        ReleaseKeeps(st, gl, 0);
        WithoutFirst(added);
        Release(buf, Gui);
      }
      DrainedNothing(Abs());
    }

    /** rendererRemoveAllBuffers */
    method RemoveAllBuffers()
      requires Valid()
      modifies this
      ensures Valid() && (forall h :: h in old(added) || h in old(attached) || h in old(removed) ==> h in old(heap))
      ensures Abs() == Next(old(Abs()), RemoveAll)
    {
      hide Invariant, Drained, Frees, Reversed;
      StepKeeps(Abs(), gl, RemoveAll);
      DrainAdded();
      ghost var was, back := attached, removed;
      while attached != []
        invariant added == [] && heap == Drained(old(heap), old(added)) && freed == old(freed) + Frees(old(added), Gui)
        invariant gl == old(gl) && pc == old(pc) && Reversed(attached) + removed == Reversed(was) + back
        decreases |attached|
      {
        ReversedMore(attached, removed);
        var buf := attached[0];
        attached := attached[1..];
        removed := [buf] + removed;
      }
      ReversedNone(removed);
    }

    /** The renderer thread attaches all pending buffers to GL. */
    method AttachPending()
      requires Valid() && pc.BeforeAttach?
      modifies this
      ensures Valid() && (forall h :: h in old(added) || h in old(attached) || h in old(removed) ==> h in old(heap))
      ensures Abs() == Next(old(Abs()), Attach) && gl == NextGl(old(Abs()), old(gl), Attach)
    {
      hide Invariant, Reversed;
      StepKeeps(Abs(), gl, Attach);
      gl := NextGl(Abs(), gl, Attach);
      ghost var was, back := added, attached;
      while added != []
        invariant removed == old(removed) && heap == old(heap) && freed == old(freed) && pc == old(pc)
        invariant gl == NextGl(old(Abs()), old(gl), Attach) && Reversed(added) + attached == Reversed(was) + back
        decreases |added|
      {
        ReversedMore(added, attached);
        var buf := added[0];
        added := added[1..];
        attached := [buf] + attached;
      }
      ReversedNone(attached);
      pc := BeforeLookup;
    }

    /** The locked part of rendererRedrawLocked. */
    method LookupBuffer(id: nat)
      requires Valid() && pc.BeforeLookup?
      modifies this
      ensures Valid() && (forall h :: h in old(added) || h in old(attached) || h in old(removed) ==> h in old(heap))
      ensures Abs() == Next(old(Abs()), Lookup(id))
    {
      hide Invariant, Find;
      StepKeeps(Abs(), gl, Lookup(id));
      var i := FindById(attached, id);
      if i < |attached| {
        pc := Drawing(attached[i]);
      } else {
        var j := FindById(removed, id);
        pc := if j < |removed| then Drawing(removed[j]) else BeforeReap;
      }
    }

    /** The renderer thread releases what was removed. */
    method ReapRemoved()
      requires Valid() && pc.BeforeReap?
      modifies this
      ensures Valid() && (forall h :: h in old(added) || h in old(attached) || h in old(removed) ==> h in old(heap))
      ensures Abs() == Next(old(Abs()), Reap)
    {
      hide Unlinked, Without, Frees, Drained, Invariant;
      StepKeeps(Abs(), gl, Reap);
      InvariantOwned(Abs(), gl);
      InvariantAlive(Abs(), gl);
      while removed != []
        invariant Owned(Abs()) && Alive(removed, heap) && RemovedDrained(Abs()) == RemovedDrained(old(Abs()))
          && gl == old(gl)
        decreases |removed|, if removed != [] && removed[0] in heap then heap[removed[0]].refcount else 0
      {
        ghost var st := Abs();
        assert removed[0] in removed;
        DrainRemovedStep(st);
        StillAlive(st);
        Release(removed[0], RendererThread);
      }
      DrainedNothing(Abs());
      pc := BeforeAttach;
    }
  }

  lemma Alive1(st: State, gl: set<Handle>)
    requires Invariant(st, gl) && st.added != []
    ensures Owned(st) && st.added[0] in st.heap && st.heap[st.added[0]].refcount >= 1
  {
    assert st.added[0] in st.added;
  }

  lemma InvariantAlive(st: State, gl: set<Handle>)
    requires Invariant(st, gl)
    ensures Alive(st.removed, st.heap)
  {
  }

  lemma StillAlive(st: State)
    requires Owned(st) && Alive(st.removed, st.heap) && st.removed != []
    ensures st.removed[0] in st.heap
    ensures Alive(Released(st, st.removed[0], RendererThread).removed, Released(st, st.removed[0], RendererThread).heap)
  {
    var h := st.removed[0];
    assert h in st.removed;
    RemovedOnce(st);
    DrainRemovedStep(st);
    WithoutFirst(st.removed);
    assert multiset(st.removed) == multiset(st.removed[1..]) + multiset{h};
  }

  lemma WithoutFirst(list: seq<Handle>)
    requires list != []
    ensures Without(list, 0) == list[1..] && list == [list[0]] + list[1..]
  {
  }

  lemma DrainedNothing(st: State)
    ensures st.added == [] ==> AddedDrained(st) == st
    ensures st.removed == [] ==> RemovedDrained(st) == st
  {
    assert Drained(st.heap, []) == st.heap;
  }

  lemma ReversedNone(rest: seq<Handle>)
    ensures Reversed([]) + rest == rest
  {
  }
}
