/**
  Who owns a buffer in the renderer: three lists under a spin lock, changed by the GUI
  thread and by the renderer thread.  Every section between taking and releasing the
  lock is one step; drawing happens outside the lock and therefore spans steps.
 */
module BufferOwnership {

  /** The address of a LorieBuffer. */
  type Handle = nat

  datatype Thread = Gui | RendererThread

  datatype Buffer = Buffer(refcount: int, id: nat)

  /** A call of __LorieBuffer_free. */
  datatype Free = Free(buffer: Handle, thread: Thread)

  /** Where the renderer thread is between its sections. */
  datatype Pc = BeforeAttach | BeforeLookup | Drawing(buffer: Handle) | BeforeReap

  datatype State = State(
    added: seq<Handle>,
    attached: seq<Handle>,
    removed: seq<Handle>,
    heap: map<Handle, Buffer>,
    freed: seq<Free>,
    pc: Pc)

  // ----- Lists -----

  /** LorieBufferList_findById: the position of the first buffer with this id. */
  function Find(list: seq<Handle>, heap: map<Handle, Buffer>, id: nat): (i: nat)
    requires forall h :: h in list ==> h in heap
    ensures i <= |list|
    ensures i < |list| ==> heap[list[i]].id == id
    ensures forall k :: 0 <= k < i ==> heap[list[k]].id != id
  {
    if list == [] then 0
    else if heap[list[0]].id == id then 0
    else 1 + Find(list[1..], heap, id)
  }

  function Without(list: seq<Handle>, i: nat): (r: seq<Handle>)
    requires i < |list|
  {
    list[..i] + list[i + 1..]
  }

  function Reversed(list: seq<Handle>): (r: seq<Handle>)
    ensures |r| == |list|
  {
    if list == [] then [] else Reversed(list[1..]) + [list[0]]
  }

  function Handles(freed: seq<Free>): (r: seq<Handle>)
    ensures |r| == |freed|
  {
    seq(|freed|, i requires 0 <= i < |freed| => freed[i].buffer)
  }

  /** The frees of a whole list by one thread, first to last. */
  function Frees(list: seq<Handle>, thread: Thread): (r: seq<Free>)
    ensures |r| == |list|
  {
    seq(|list|, i requires 0 <= i < |list| => Free(list[i], thread))
  }

  // ----- Invariant -----

  /** Every buffer ever received is in exactly one place. */
  ghost predicate Owned(st: State) {
    multiset(st.added) + multiset(st.attached) + multiset(st.removed) + multiset(Handles(st.freed))
      == multiset(st.heap.Keys)
  }

  /** Buffers in a list are alive. */
  ghost predicate Alive(list: seq<Handle>, heap: map<Handle, Buffer>) {
    forall h :: h in list ==> h in heap && heap[h].refcount >= 1
  }

  /**
    Buffers in attached and removed, and those freed by the renderer thread, went through
    attachToGL; this is what gl says.
   */
  ghost predicate Invariant(st: State, gl: set<Handle>) {
    && Owned(st) && Alive(st.added, st.heap) && Alive(st.attached, st.heap) && Alive(st.removed, st.heap)
    && (forall h :: h in st.added ==> h !in gl) && (forall h :: h in st.attached ==> h in gl)
       && (forall h :: h in st.removed ==> h in gl)
    && (forall f :: f in st.freed ==> (f.thread == RendererThread <==> f.buffer in gl))
    && (st.pc.Drawing? ==> st.pc.buffer in st.attached || st.pc.buffer in st.removed)
  }

  /** What the invariant means: one place each, freed at most once, and never while being drawn. */
  lemma InvariantMeans(st: State, gl: set<Handle>)
    requires Invariant(st, gl)
    ensures forall h :: h in st.heap ==>
      multiset(st.added)[h] + multiset(st.attached)[h] + multiset(st.removed)[h] + multiset(Handles(st.freed))[h] == 1
    ensures forall i, j :: 0 <= i < j < |st.freed| ==> st.freed[i].buffer != st.freed[j].buffer
    ensures st.pc.Drawing? ==> forall f :: f in st.freed ==> f.buffer != st.pc.buffer
    ensures forall f :: f in st.freed && f.buffer in gl ==> f.thread == RendererThread
  {
    var all := multiset(st.added) + multiset(st.attached) + multiset(st.removed) + multiset(Handles(st.freed));
    forall h | h in st.heap
      ensures multiset(st.added)[h] + multiset(st.attached)[h] + multiset(st.removed)[h]
        + multiset(Handles(st.freed))[h] == 1
    {
      assert all[h] == multiset(st.heap.Keys)[h] == 1;
    }
    forall i, j | 0 <= i < j < |st.freed|
      ensures st.freed[i].buffer != st.freed[j].buffer
    {
      assert all[st.freed[i].buffer] <= 1;
      FreedTwice(st.freed, i, j);
    }
    if st.pc.Drawing? {
      var h := st.pc.buffer;
      assert multiset(st.attached)[h] + multiset(st.removed)[h] >= 1;
      forall f | f in st.freed
        ensures f.buffer != h
      {
        var i :| 0 <= i < |st.freed| && st.freed[i] == f;
        assert Handles(st.freed)[i] == f.buffer;
        assert all[h] <= 1;
      }
    }
  }

  lemma FreedTwice(freed: seq<Free>, i: nat, j: nat)
    requires i < j < |freed|
    ensures freed[i].buffer == freed[j].buffer ==> multiset(Handles(freed))[freed[i].buffer] >= 2
  {
    var s := Handles(freed);
    assert s == s[..j] + [s[j]] + s[j + 1..];
    assert s[..j][i] == s[i];
    assert multiset(s[..j])[s[i]] >= 1;
  }

  // ----- Steps -----

  datatype Action =
    | Add(buffer: Handle, id: nat, refcount: int)
    | Remove(id: nat)
    | RemoveAll
    | Attach
    | Lookup(id: nat)
    | Skip
    | EndDraw
    | Reap

  predicate Enabled(st: State, a: Action) {
    match a
    case Add(h, _, refcount) => h !in st.heap && refcount >= 1
    case Remove(_) => true
    case RemoveAll => true
    case Attach => st.pc.BeforeAttach?
    case Lookup(_) => st.pc.BeforeLookup?
    case Skip => st.pc.BeforeLookup?
    case EndDraw => st.pc.Drawing?
    case Reap => st.pc.BeforeReap?
  }

  /** LorieBuffer_release of a buffer in the added list, by the GUI thread. */
  function ReleaseAdded(st: State, i: nat): State
    requires i < |st.added| && st.added[i] in st.heap
  {
    var h := st.added[i];
    var b := st.heap[h];
    var s := st.(heap := st.heap[h := b.(refcount := b.refcount - 1)]);
    if b.refcount == 1 then s.(added := Without(st.added, i), freed := st.freed + [Free(h, Gui)]) else s
  }

  /** Every reference to the buffers of the list is released. */
  function Drained(heap: map<Handle, Buffer>, list: seq<Handle>): (r: map<Handle, Buffer>)
    ensures r.Keys == heap.Keys && forall h :: h in heap && h !in list ==> r[h] == heap[h]
  {
    map h | h in heap :: if h in list then heap[h].(refcount := 0) else heap[h]
  }

  function Next(st: State, a: Action): State
    requires Enabled(st, a) && forall h :: h in st.added || h in st.attached || h in st.removed ==> h in st.heap
  {
    match a
    case Add(h, id, refcount) => st.(added := [h] + st.added, heap := st.heap[h := Buffer(refcount, id)])
    case Remove(id) =>
      var i := Find(st.added, st.heap, id);
      if i < |st.added| then ReleaseAdded(st, i)
      else
        var j := Find(st.attached, st.heap, id);
        if j < |st.attached| then st.(attached := Without(st.attached, j), removed := [st.attached[j]] + st.removed)
          else st
    case RemoveAll =>
      st.(added := [], attached := [], removed := Reversed(st.attached) + st.removed,
          heap := Drained(st.heap, st.added), freed := st.freed + Frees(st.added, Gui))
    case Attach => st.(added := [], attached := Reversed(st.added) + st.attached, pc := BeforeLookup)
    case Lookup(id) =>
      var i := Find(st.attached, st.heap, id);
      var j := Find(st.removed, st.heap, id);
      if i < |st.attached| then st.(pc := Drawing(st.attached[i]))
      else if j < |st.removed| then st.(pc := Drawing(st.removed[j]))
      else st.(pc := BeforeReap)
    case Skip => st.(pc := BeforeReap)
    case EndDraw => st.(pc := BeforeReap)
    case Reap =>
      st.(removed := [], heap := Drained(st.heap, st.removed), freed := st.freed + Frees(st.removed, RendererThread),
          pc := BeforeAttach)
  }

  /** The buffers attached to GL after a step. */
  ghost function NextGl(st: State, gl: set<Handle>, a: Action): set<Handle> {
    if a.Attach? then gl + (set h | h in st.added) else gl
  }

  function Start(): State {
    State([], [], [], map[], [], BeforeAttach)
  }

  // ----- Every step keeps the invariant -----

  lemma {:induction false} ReversedSame(list: seq<Handle>)
    ensures multiset(Reversed(list)) == multiset(list)
    ensures forall h :: h in Reversed(list) <==> h in list
  {
    if list != [] {
      ReversedSame(list[1..]);
      assert list == [list[0]] + list[1..];
    }
  }

  lemma WithoutOne(list: seq<Handle>, i: nat)
    requires i < |list|
    ensures multiset(list) == multiset(Without(list, i)) + multiset{list[i]}
    ensures forall h :: h in Without(list, i) ==> h in list
    ensures forall h :: h in list ==> h == list[i] || h in Without(list, i)
  {
    assert list == list[..i] + [list[i]] + list[i + 1..];
  }

  lemma HandlesAppend(a: seq<Free>, list: seq<Handle>, t: Thread)
    ensures multiset(Handles(a + Frees(list, t))) == multiset(Handles(a)) + multiset(list)
    ensures forall f :: f in a + Frees(list, t) ==> f in a || (f.thread == t && f.buffer in list)
  {
    assert Handles(a + Frees(list, t)) == Handles(a) + list;
  }

  lemma HandlesOne(a: seq<Free>, h: Handle, t: Thread)
    ensures multiset(Handles(a + [Free(h, t)])) == multiset(Handles(a)) + multiset{h}
  {
    assert Handles(a + [Free(h, t)]) == Handles(a) + [h];
  }

  /** The lists hold no buffer twice, and no two hold the same. */
  lemma Disjoint(st: State)
    requires Owned(st)
    ensures forall h :: h in st.added ==> h !in st.attached && h !in st.removed && multiset(st.added)[h] == 1
    ensures forall h :: h in st.attached ==> h !in st.removed && multiset(st.attached)[h] == 1
  {
    var all := multiset(st.added) + multiset(st.attached) + multiset(st.removed) + multiset(Handles(st.freed));
    forall h
      ensures all[h] <= 1
    {
    }
    forall h | h in st.added
      ensures h !in st.attached && h !in st.removed && multiset(st.added)[h] == 1
    {
      assert all[h] <= 1;
    }
    forall h | h in st.attached
      ensures h !in st.removed && multiset(st.attached)[h] == 1
    {
      assert all[h] <= 1;
    }
  }

  lemma AddKeeps(st: State, gl: set<Handle>, h: Handle, id: nat, refcount: int)
    requires Invariant(st, gl) && h !in st.heap && refcount >= 1 && gl <= st.heap.Keys
    ensures Invariant(Next(st, Add(h, id, refcount)), gl)
  {
    var st' := Next(st, Add(h, id, refcount));
    assert st'.heap.Keys == st.heap.Keys + {h};
    assert multiset(st'.heap.Keys) == multiset(st.heap.Keys) + multiset{h};
    assert multiset([h] + st.added) == multiset(st.added) + multiset{h};
  }

  lemma ReleaseKeeps(st: State, gl: set<Handle>, i: nat)
    requires Invariant(st, gl) && i < |st.added|
    ensures Invariant(ReleaseAdded(st, i), gl)
  {
    var h := st.added[i];
    assert h in st.added;
    var st' := ReleaseAdded(st, i);
    Disjoint(st);
    assert st'.heap.Keys == st.heap.Keys;
    if st.heap[h].refcount == 1 {
      WithoutOne(st.added, i);
      HandlesOne(st.freed, h, Gui);
      assert multiset(Without(st.added, i))[h] == 0;
    }
  }

  lemma MoveKeeps(st: State, gl: set<Handle>, j: nat)
    requires Invariant(st, gl) && j < |st.attached|
    ensures Invariant(st.(attached := Without(st.attached, j), removed := [st.attached[j]] + st.removed), gl)
  {
    var h := st.attached[j];
    assert h in st.attached;
    WithoutOne(st.attached, j);
    assert multiset([h] + st.removed) == multiset(st.removed) + multiset{h};
  }

  lemma RemoveAllKeeps(st: State, gl: set<Handle>)
    requires Invariant(st, gl)
    ensures Invariant(Next(st, RemoveAll), gl)
  {
    ReversedSame(st.attached);
    HandlesAppend(st.freed, st.added, Gui);
    Disjoint(st);
  }

  lemma FreedElsewhere(st: State)
    requires Owned(st)
    ensures forall f :: f in st.freed ==> f.buffer !in st.added
  {
    var all := multiset(st.added) + multiset(st.attached) + multiset(st.removed) + multiset(Handles(st.freed));
    forall f | f in st.freed
      ensures f.buffer !in st.added
    {
      var i :| 0 <= i < |st.freed| && st.freed[i] == f;
      assert Handles(st.freed)[i] == f.buffer;
      assert all[f.buffer] <= 1;
    }
  }

  lemma AttachKeeps(st: State, gl: set<Handle>)
    requires Invariant(st, gl) && st.pc.BeforeAttach?
    ensures Invariant(Next(st, Attach), NextGl(st, gl, Attach))
  {
    hide Handles, Reversed;
    ReversedSame(st.added);
    Disjoint(st);
    FreedElsewhere(st);
    assert multiset(Reversed(st.added) + st.attached) == multiset(st.added) + multiset(st.attached);
  }

  lemma ReapKeeps(st: State, gl: set<Handle>)
    requires Invariant(st, gl) && st.pc.BeforeReap?
    ensures Invariant(Next(st, Reap), gl)
  {
    HandlesAppend(st.freed, st.removed, RendererThread);
    Disjoint(st);
  }

  lemma Listed(st: State)
    requires Owned(st)
    ensures forall h :: h in st.added || h in st.attached || h in st.removed ==> h in st.heap
    ensures forall f :: f in st.freed ==> f.buffer in st.heap
  {
    var all := multiset(st.added) + multiset(st.attached) + multiset(st.removed) + multiset(Handles(st.freed));
    forall h | h in st.added || h in st.attached || h in st.removed
      ensures h in st.heap
    {
      assert h in all;
    }
    forall f | f in st.freed
      ensures f.buffer in st.heap
    {
      var i :| 0 <= i < |st.freed| && st.freed[i] == f;
      assert Handles(st.freed)[i] == f.buffer;
      assert f.buffer in all;
    }
  }

  /** Every step, whoever takes it, keeps the invariant. */
  lemma StepKeeps(st: State, gl: set<Handle>, a: Action)
    requires Invariant(st, gl) && gl <= st.heap.Keys && Enabled(st, a)
    ensures forall h :: h in st.added || h in st.attached || h in st.removed ==> h in st.heap
    ensures Invariant(Next(st, a), NextGl(st, gl, a)) && NextGl(st, gl, a) <= Next(st, a).heap.Keys
  {
    hide Invariant, Find, Without, Reversed, Drained, Frees;
    assert Owned(st) by { InvariantOwned(st, gl); }
    Listed(st);
    match a
    case Add(h, id, refcount) => AddKeeps(st, gl, h, id, refcount);
    case Remove(id) =>
      var i := Find(st.added, st.heap, id);
      if i < |st.added| {
        ReleaseKeeps(st, gl, i);
      } else {
        var j := Find(st.attached, st.heap, id);
        if j < |st.attached| {
          MoveKeeps(st, gl, j);
        }
      }
    case RemoveAll => RemoveAllKeeps(st, gl);
    case Attach => AttachKeeps(st, gl);
    case Lookup(id) => LookupKeeps(st, gl, id);
    case Skip => PcKeeps(st, gl, BeforeReap);
    case EndDraw => PcKeeps(st, gl, BeforeReap);
    case Reap => ReapKeeps(st, gl);
  }

  lemma InvariantOwned(st: State, gl: set<Handle>)
    requires Invariant(st, gl)
    ensures Owned(st)
  {
  }

  lemma PcKeeps(st: State, gl: set<Handle>, pc: Pc)
    requires Invariant(st, gl) && (pc.Drawing? ==> pc.buffer in st.attached || pc.buffer in st.removed)
    ensures Invariant(st.(pc := pc), gl)
  {
  }

  lemma LookupKeeps(st: State, gl: set<Handle>, id: nat)
    requires Invariant(st, gl) && st.pc.BeforeLookup?
    requires forall h :: h in st.added || h in st.attached || h in st.removed ==> h in st.heap
    ensures Invariant(Next(st, Lookup(id)), gl)
  {
    hide Invariant;
    var i := Find(st.attached, st.heap, id);
    var j := Find(st.removed, st.heap, id);
    if i < |st.attached| {
      PcKeeps(st, gl, Drawing(st.attached[i]));
    } else if j < |st.removed| {
      PcKeeps(st, gl, Drawing(st.removed[j]));
    } else {
      PcKeeps(st, gl, BeforeReap);
    }
  }

  // ----- Runs -----

  /** A run: any interleaving of the two threads' sections. */
  ghost predicate Reaches(s: State, t: State, gl: set<Handle>, actions: seq<Action>)
    decreases |actions|
  {
    if actions == [] then s == t && gl == {}
    else
      var m := |actions| - 1;
      exists u, gl' ::
        && Reaches(s, u, gl', actions[..m]) && Enabled(u, actions[m])
        && (forall h :: h in u.added || h in u.attached || h in u.removed ==> h in u.heap)
        && t == Next(u, actions[m]) && gl == NextGl(u, gl', actions[m])
  }

  /** After every run the invariant holds, and so all that `InvariantMeans` says. */
  lemma {:induction false} AlwaysOwned(t: State, gl: set<Handle>, actions: seq<Action>)
    requires Reaches(Start(), t, gl, actions)
    ensures Invariant(t, gl) && gl <= t.heap.Keys
    decreases |actions|
  {
    hide Invariant, Next, Enabled;
    if actions == [] {
      StartOwned();
    } else {
      var m := |actions| - 1;
      var u, gl' :|
        && Reaches(Start(), u, gl', actions[..m]) && Enabled(u, actions[m])
        && (forall h :: h in u.added || h in u.attached || h in u.removed ==> h in u.heap)
        && t == Next(u, actions[m]) && gl == NextGl(u, gl', actions[m]);
      AlwaysOwned(u, gl', actions[..m]);
      StepKeeps(u, gl', actions[m]);
    }
  }

  lemma StartOwned()
    ensures Invariant(Start(), {})
  {
    assert Handles([]) == [];
  }

  // ----- Removing a buffer that is still pending -----

  ghost predicate IsFreed(st: State, h: Handle) {
    exists f :: f in st.freed && f.buffer == h
  }

  /**
    rendererRemoveBuffer frees a buffer that is not attached yet if and only if it holds
    the last reference; otherwise the buffer stays where it is, to be attached later.
   */
  lemma RemoveFreesIff(st: State, gl: set<Handle>, id: nat)
    requires Invariant(st, gl)
    ensures forall h :: h in st.added || h in st.attached || h in st.removed ==> h in st.heap
    ensures var i := Find(st.added, st.heap, id);
            i < |st.added| ==>
              var h, st' := st.added[i], Next(st, Remove(id));
              && (IsFreed(st', h) <==> st.heap[h].refcount == 1)
              && (h in st'.added <==> st.heap[h].refcount != 1)
              && (h in st'.added ==> st'.added == st.added && st'.heap[h].refcount == st.heap[h].refcount - 1)
  {
    Listed(st);
    var i := Find(st.added, st.heap, id);
    if i < |st.added| {
      var h, st' := st.added[i], Next(st, Remove(id));
      assert h in st.added;
      FreedElsewhere(st);
      if st.heap[h].refcount == 1 {
        Disjoint(st);
        WithoutOne(st.added, i);
        assert multiset(Without(st.added, i))[h] == 0;
        assert Free(h, Gui) in st'.freed;
      }
    }
  }

  /** rendererRemoveAllBuffers frees every buffer that is not attached yet, whatever its count. */
  lemma RemoveAllFrees(st: State, gl: set<Handle>, h: Handle)
    requires Invariant(st, gl) && h in st.added
    ensures forall k :: k in st.added || k in st.attached || k in st.removed ==> k in st.heap
    ensures IsFreed(Next(st, RemoveAll), h) && h !in Next(st, RemoveAll).added
  {
    Listed(st);
    var i :| 0 <= i < |st.added| && st.added[i] == h;
    assert Frees(st.added, Gui)[i] == Free(h, Gui);
    assert Free(h, Gui) in Next(st, RemoveAll).freed;
  }

  /** A reachable state in which the two differ: one pending buffer with two references. */
  lemma PendingSurvives() returns (st: State)
    ensures Reaches(Start(), st, {}, [Add(0, 7, 2)]) && st.added == [0] && 0 in st.heap
    ensures Next(st, Remove(7)).added == [0] && Next(st, Remove(7)).freed == []
    ensures Next(st, RemoveAll).added == [] && Next(st, RemoveAll).freed == [Free(0, Gui)]
  {
    st := Next(Start(), Add(0, 7, 2));
    assert st.added == [0];
    var actions := [Add(0, 7, 2)];
    assert actions[..0] == [] && Reaches(Start(), Start(), {}, actions[..0]);
    assert Frees([0], Gui) == [Free(0, Gui)];
  }

  // ----- What each section does -----

  /** h is the first buffer of the list with this id. */
  ghost predicate FirstMatch(list: seq<Handle>, heap: map<Handle, Buffer>, id: nat, h: Handle) {
    exists i :: 0 <= i < |list| && list[i] == h && h in heap && heap[h].id == id
                && forall k :: 0 <= k < i ==> list[k] in heap && heap[list[k]].id != id
  }

  ghost predicate NoMatch(list: seq<Handle>, heap: map<Handle, Buffer>, id: nat) {
    forall h :: h in list ==> h in heap && heap[h].id != id
  }

  lemma FindMatches(list: seq<Handle>, heap: map<Handle, Buffer>, id: nat)
    requires forall h :: h in list ==> h in heap
    ensures var i := Find(list, heap, id);
            if i < |list| then FirstMatch(list, heap, id, list[i]) else NoMatch(list, heap, id)
  {
  }

  lemma MatchIsFound(list: seq<Handle>, heap: map<Handle, Buffer>, id: nat, h: Handle)
    requires (forall k :: k in list ==> k in heap) && FirstMatch(list, heap, id, h)
    ensures Find(list, heap, id) < |list| && list[Find(list, heap, id)] == h
  {
    var i :| 0 <= i < |list| && list[i] == h && heap[h].id == id && forall k :: 0 <= k < i ==> heap[list[k]].id != id;
    var j := Find(list, heap, id);
    assert list[i] == h;
  }

  lemma NoMatchNotFound(list: seq<Handle>, heap: map<Handle, Buffer>, id: nat)
    requires NoMatch(list, heap, id)
    ensures forall k :: k in list ==> k in heap
    ensures Find(list, heap, id) == |list|
  {
    var j := Find(list, heap, id);
    assert forall k :: 0 <= k < |list| ==> list[k] in list;
  }

  /**
    rendererRemoveBuffer, for a buffer that is attached: it is queued for the renderer
    thread and leaves its list; no other buffer, count or list is touched.
   */
  lemma RemoveQueues(st: State, gl: set<Handle>, id: nat, h: Handle)
    requires Invariant(st, gl) && NoMatch(st.added, st.heap, id) && FirstMatch(st.attached, st.heap, id, h)
    ensures forall k :: k in st.added || k in st.attached || k in st.removed ==> k in st.heap
    ensures var st' := Next(st, Remove(id));
            && h in st'.removed && h !in st'.attached
            && (forall k :: k != h ==>
               (k in st'.attached <==> k in st.attached) && (k in st'.removed <==> k in st.removed))
            && st'.added == st.added && st'.heap == st.heap && st'.freed == st.freed && st'.pc == st.pc
  {
    Listed(st);
    NoMatchNotFound(st.added, st.heap, id);
    MatchIsFound(st.attached, st.heap, id, h);
    var j := Find(st.attached, st.heap, id);
    Disjoint(st);
    WithoutOne(st.attached, j);
    assert multiset(Without(st.attached, j))[h] == 0;
  }

  /** A buffer nobody knows is not removed. */
  lemma RemoveUnknown(st: State, gl: set<Handle>, id: nat)
    requires Invariant(st, gl) && NoMatch(st.added, st.heap, id) && NoMatch(st.attached, st.heap, id)
    ensures forall k :: k in st.added || k in st.attached || k in st.removed ==> k in st.heap
    ensures Next(st, Remove(id)) == st
  {
    Listed(st);
    NoMatchNotFound(st.added, st.heap, id);
    NoMatchNotFound(st.attached, st.heap, id);
  }

  /** rendererRemoveAllBuffers queues every attached buffer. */
  lemma RemoveAllQueues(st: State, gl: set<Handle>)
    requires Invariant(st, gl)
    ensures forall k :: k in st.added || k in st.attached || k in st.removed ==> k in st.heap
    ensures var st' := Next(st, RemoveAll);
            && st'.added == [] && st'.attached == [] && st'.pc == st.pc
            && (forall k :: k in st'.removed <==> k in st.attached || k in st.removed)
            && (forall k :: k in st.heap && k !in st.added ==>
               st'.heap[k] == st.heap[k] && (IsFreed(st', k) <==> IsFreed(st, k)))
  {
    Listed(st);
    ReversedSame(st.attached);
    var st' := Next(st, RemoveAll);
    HandlesAppend(st.freed, st.added, Gui);
    forall k | k in st.heap && k !in st.added && IsFreed(st, k)
      ensures IsFreed(st', k)
    {
      var f :| f in st.freed && f.buffer == k;
      assert f in st'.freed;
    }
  }

  /** The renderer thread attaches every pending buffer, and nothing else happens. */
  lemma AttachTakesAll(st: State, gl: set<Handle>)
    requires Invariant(st, gl) && st.pc.BeforeAttach?
    ensures forall k :: k in st.added || k in st.attached || k in st.removed ==> k in st.heap
    ensures var st' := Next(st, Attach);
            && st'.added == [] && (forall k :: k in st'.attached <==> k in st.added || k in st.attached)
            && st'.removed == st.removed && st'.heap == st.heap && st'.freed == st.freed && st'.pc == BeforeLookup
  {
    Listed(st);
    ReversedSame(st.added);
  }

  /** What is drawn: the first attached buffer with the id, else the first removed one, else nothing. */
  lemma LookupDraws(st: State, gl: set<Handle>, id: nat)
    requires Invariant(st, gl) && st.pc.BeforeLookup?
    ensures forall k :: k in st.added || k in st.attached || k in st.removed ==> k in st.heap
    ensures var st' := Next(st, Lookup(id));
            && (forall h :: FirstMatch(st.attached, st.heap, id, h) ==> st'.pc == Drawing(h))
            && (forall h :: NoMatch(st.attached, st.heap, id) && FirstMatch(st.removed, st.heap, id, h) ==>
               st'.pc == Drawing(h))
            && (NoMatch(st.attached, st.heap, id) && NoMatch(st.removed, st.heap, id) ==> st'.pc == BeforeReap)
            && st' == st.(pc := st'.pc)
  {
    Listed(st);
    forall h | FirstMatch(st.attached, st.heap, id, h)
      ensures Next(st, Lookup(id)).pc == Drawing(h)
    {
      MatchIsFound(st.attached, st.heap, id, h);
    }
    forall h | NoMatch(st.attached, st.heap, id) && FirstMatch(st.removed, st.heap, id, h)
      ensures Next(st, Lookup(id)).pc == Drawing(h)
    {
      NoMatchNotFound(st.attached, st.heap, id);
      MatchIsFound(st.removed, st.heap, id, h);
    }
    if NoMatch(st.attached, st.heap, id) && NoMatch(st.removed, st.heap, id) {
      NoMatchNotFound(st.attached, st.heap, id);
      NoMatchNotFound(st.removed, st.heap, id);
    }
  }

  /** The renderer thread frees every removed buffer, once, and no other. */
  lemma ReapFrees(st: State, gl: set<Handle>)
    requires Invariant(st, gl) && st.pc.BeforeReap?
    ensures forall k :: k in st.added || k in st.attached || k in st.removed ==> k in st.heap
    ensures var st' := Next(st, Reap);
            && st'.removed == [] && st'.added == st.added && st'.attached == st.attached && st'.pc == BeforeAttach
            && (forall h :: h in st.removed ==>
               Free(h, RendererThread) in st'.freed && multiset(Handles(st'.freed))[h] == 1)
            && (forall f :: f in st'.freed ==> f in st.freed || (f.buffer in st.removed && f.thread == RendererThread))
            && (forall h :: h in st.heap && h !in st.removed ==> st'.heap[h] == st.heap[h])
  {
    Listed(st);
    HandlesAppend(st.freed, st.removed, RendererThread);
    var st' := Next(st, Reap);
    var all := multiset(st.added) + multiset(st.attached) + multiset(st.removed) + multiset(Handles(st.freed));
    forall h | h in st.removed
      ensures Free(h, RendererThread) in st'.freed && multiset(Handles(st'.freed))[h] == 1
    {
      var i :| 0 <= i < |st.removed| && st.removed[i] == h;
      assert Frees(st.removed, RendererThread)[i] == Free(h, RendererThread);
      assert all[h] == 1;
    }
  }

  // ----- From removal to the renderer thread -----

  /** t comes from s by these sections. */
  ghost predicate Runs(s: State, t: State, actions: seq<Action>)
    decreases |actions|
  {
    if actions == [] then s == t
    else
      && Enabled(s, actions[0]) && (forall h :: h in s.added || h in s.attached || h in s.removed ==> h in s.heap)
      && Runs(Next(s, actions[0]), t, actions[1..])
  }

  lemma StaysRemoved(st: State, a: Action, h: Handle)
    requires Enabled(st, a) && a != Reap && h in st.removed
    requires forall k :: k in st.added || k in st.attached || k in st.removed ==> k in st.heap
    ensures h in Next(st, a).removed
  {
    hide Find, Without, Reversed, Drained, Frees;
  }

  /** A removed buffer stays in its list until the renderer thread reaps it. */
  lemma {:induction false} RemovedUntilReap(s: State, t: State, actions: seq<Action>, h: Handle)
    requires Runs(s, t, actions) && Reap !in actions && h in s.removed
    ensures h in t.removed
    decreases |actions|
  {
    hide Next, Enabled;
    if actions != [] {
      StaysRemoved(s, actions[0], h);
      RemovedUntilReap(Next(s, actions[0]), t, actions[1..], h);
    }
  }

  /** Every step keeps the invariant, so a run does, with the buffers attached so far. */
  lemma {:induction false} RunKeeps(s: State, t: State, actions: seq<Action>, gl: set<Handle>)
    returns (gl': set<Handle>)
    requires Runs(s, t, actions) && Invariant(s, gl) && gl <= s.heap.Keys
    ensures Invariant(t, gl') && gl' <= t.heap.Keys
    decreases |actions|
  {
    hide Next, Enabled, Invariant, NextGl;
    gl' := gl;
    if actions != [] {
      StepKeeps(s, gl, actions[0]);
      gl' := RunKeeps(Next(s, actions[0]), t, actions[1..], NextGl(s, gl, actions[0]));
    }
  }

  /**
    A buffer that was attached when the GUI thread removed it is freed by the next Reap of
    the renderer thread: once, by that thread, whatever happens in between.
   */
  lemma RemovedIsFreed(s: State, gl: set<Handle>, id: nat, h: Handle, t: State, actions: seq<Action>)
    requires Invariant(s, gl) && gl <= s.heap.Keys
    requires NoMatch(s.added, s.heap, id) && FirstMatch(s.attached, s.heap, id, h)
    requires Runs(s, t, [Remove(id)] + actions) && Reap !in actions && t.pc.BeforeReap?
    ensures forall k :: k in t.added || k in t.attached || k in t.removed ==> k in t.heap
    ensures Free(h, RendererThread) in Next(t, Reap).freed && multiset(Handles(Next(t, Reap).freed))[h] == 1
  {
    hide Next, Invariant, FirstMatch, NoMatch;
    var all := [Remove(id)] + actions;
    assert all[0] == Remove(id) && all[1..] == actions;
    RemoveQueues(s, gl, id, h);
    RemovedUntilReap(Next(s, Remove(id)), t, actions, h);
    var gl' := RunKeeps(s, t, all, gl);
    ReapFrees(t, gl');
  }
}
