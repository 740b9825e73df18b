/** The reference-counted descriptors shared by IPComm objects (IPComm.cc,
    Descriptor.cc). Objects and descriptors are addresses in a memory; using
    a deleted descriptor, or closing a file descriptor that is not open, is
    a Fault. */
module Descriptors {
  const DESCRIPTOR_NULL: int := -1

  type Address = int

  datatype Descriptor = Descriptor(fd: int, cnt: nat)

  // objects: each live IPComm's descriptor_. heap: the descriptors that were
  // allocated and not deleted. open: the kernel's open file descriptors.
  // leaked: those of them that a second Socket() overwrote, be it with
  // the -1 of a socket(2) that failed.
  datatype Memory = Memory(objects: map<Address, Address>, heap: map<Address, Descriptor>,
                           open: set<int>, leaked: set<int>)

  datatype Outcome = Ok(mem: Memory) | Fault {
    predicate IsFailure() { Fault? }
    function PropagateFailure(): Outcome requires Fault? { Fault }
    function Extract(): Memory requires Ok? { mem }
  }

  datatype Op =
    | Construct(o: Address, d: Address)
    | Copy(o: Address, src: Address)
    | Assign(o: Address, src: Address)
    | Clear(o: Address, d: Address)
    | Destroy(o: Address)
    | Close(o: Address)
    | Socket(o: Address, f: int)

  const EMPTY: Memory := Memory(map[], map[], {}, {})

  // An address that new can return after o let go of its descriptor: the one
  // that was just deleted is unused again.
  predicate Unused(m: Memory, o: Address, d: Address)
    requires o in m.objects
  {
    d !in m.heap || (d == m.objects[o] && m.heap[d].cnt == 1)
  }

  // What a program and the operating system can do next: objects exist when
  // they are used, and new addresses and file descriptors are unused ones.
  predicate Enabled(m: Memory, op: Op) {
    match op
    case Construct(o, d) => o !in m.objects && d !in m.heap
    case Copy(o, src) => o !in m.objects && src in m.objects
    case Assign(o, src) => o in m.objects && src in m.objects
    case Clear(o, d) => o in m.objects && Unused(m, o, d)
    case Destroy(o) => o in m.objects
    case Close(o) => o in m.objects
    case Socket(o, f) => o in m.objects && (f == DESCRIPTOR_NULL || (f >= 0 && f !in m.open))
  }

  // ---- The operations, statement by statement.

  function CloseFd(m: Memory, o: Address): Outcome
    requires o in m.objects
  {
    var d := m.objects[o];
    if d !in m.heap then Fault
    else if m.heap[d].fd > DESCRIPTOR_NULL then
      if m.heap[d].fd !in m.open then Fault
      else Ok(m.(heap := m.heap[d := m.heap[d].(fd := DESCRIPTOR_NULL)], open := m.open - {m.heap[d].fd}))
    else Ok(m)
  }

  // if (!--descriptor_->cnt_) { if (fd_ != NULL) Close(); delete descriptor_; }
  function Release(m: Memory, o: Address): Outcome
    requires o in m.objects
  {
    var d := m.objects[o];
    if d !in m.heap || m.heap[d].cnt == 0 then Fault
    else
      var m1 := m.(heap := m.heap[d := m.heap[d].(cnt := m.heap[d].cnt - 1)]);
      if m1.heap[d].cnt != 0 then Ok(m1)
      else
        var m2 :- if m1.heap[d].fd != DESCRIPTOR_NULL then CloseFd(m1, o) else Ok(m1);
        Ok(m2.(heap := m2.heap - {d}))
  }

  // descriptor_ = src.descriptor_; descriptor_->cnt_++;
  function Acquire(m: Memory, o: Address, src: Address): Outcome
    requires src in m.objects
  {
    var d := m.objects[src];
    if d !in m.heap then Fault
    else Ok(m.(objects := m.objects[o := d], heap := m.heap[d := m.heap[d].(cnt := m.heap[d].cnt + 1)]))
  }

  function New(m: Memory, o: Address, d: Address): Memory {
    m.(objects := m.objects[o := d], heap := m.heap[d := Descriptor(DESCRIPTOR_NULL, 1)])
  }

  function Step(m: Memory, op: Op): Outcome
    requires Enabled(m, op)
  {
    match op
    case Construct(o, d) => Ok(New(m, o, d))
    case Copy(o, src) => Acquire(m, o, src)
    case Assign(o, src) => var m1 :- Release(m, o); Acquire(m1, o, src)
    case Clear(o, d) => var m1 :- Release(m, o); Ok(New(m1, o, d))
    case Destroy(o) => var m1 :- Release(m, o); Ok(m1.(objects := m1.objects - {o}))
    case Close(o) => CloseFd(m, o)
    case Socket(o, f) =>
      var d := m.objects[o];
      if d !in m.heap then Fault
      else Ok(m.(heap := m.heap[d := m.heap[d].(fd := f)], open := m.open + (if f == DESCRIPTOR_NULL then {} else {f}),
                 leaked := m.leaked + (if m.heap[d].fd == DESCRIPTOR_NULL then {} else {m.heap[d].fd})))
  }

  // ---- The invariant.

  function Users(objects: map<Address, Address>, d: Address): set<Address> {
    set o | o in objects && objects[o] == d
  }

  ghost predicate Counted(objects: map<Address, Address>, heap: map<Address, Descriptor>) {
    && (forall o :: o in objects ==> objects[o] in heap)
    && (forall d :: d in heap ==> heap[d].cnt == |Users(objects, d)| && heap[d].cnt > 0)
  }

  function Fds(heap: map<Address, Descriptor>): set<int> {
    set d | d in heap && heap[d].fd != DESCRIPTOR_NULL :: heap[d].fd
  }

  ghost predicate Owned(heap: map<Address, Descriptor>, open: set<int>, leaked: set<int>) {
    && (forall d, e :: d in heap && e in heap && heap[d].fd == heap[e].fd ==> d == e || heap[d].fd == DESCRIPTOR_NULL)
    && leaked <= open && open - leaked == Fds(heap)
    && (forall f :: f in open ==> f > DESCRIPTOR_NULL)
  }

  // Counts are exact, no descriptor is without an object, and the open file
  // descriptors are those in the heap, each in one place, and the leaked ones.
  ghost predicate Valid(m: Memory) {
    Counted(m.objects, m.heap) && Owned(m.heap, m.open, m.leaked)
  }

  // ---- Each building block.

  lemma {:induction false} FdsUpdate(heap: map<Address, Descriptor>, d: Address, x: Descriptor)
    requires d in heap
    requires forall a, b :: a in heap && b in heap && heap[a].fd == heap[b].fd ==> a == b || heap[a].fd == DESCRIPTOR_NULL
    ensures Fds(heap[d := x]) == Fds(heap) - {heap[d].fd} + (if x.fd == DESCRIPTOR_NULL then {} else {x.fd})
  {
    var h' := heap[d := x];
    forall f | f in Fds(heap) - {heap[d].fd} ensures f in Fds(h') {
      var e :| e in heap && heap[e].fd != DESCRIPTOR_NULL && heap[e].fd == f;
      assert h'[e].fd == f;
    }
    assert h'[d].fd == x.fd;
  }

  lemma FdIsOpen(m: Memory, d: Address)
    requires Owned(m.heap, m.open, m.leaked) && d in m.heap
    ensures m.heap[d].fd == DESCRIPTOR_NULL || (m.heap[d].fd > DESCRIPTOR_NULL && m.heap[d].fd in m.open)
  {
    if m.heap[d].fd != DESCRIPTOR_NULL { assert m.heap[d].fd in Fds(m.heap); }
  }

  lemma CloseKeepsOwned(m: Memory, o: Address)
    requires Owned(m.heap, m.open, m.leaked) && o in m.objects && m.objects[o] in m.heap
    ensures var r, d := CloseFd(m, o), m.objects[o];
      && r.Ok? && Owned(r.mem.heap, r.mem.open, r.mem.leaked)
      && r.mem == m.(heap := m.heap[d := m.heap[d].(fd := DESCRIPTOR_NULL)], open := m.open - {m.heap[d].fd})
  {
    var d := m.objects[o];
    var x := m.heap[d].(fd := DESCRIPTOR_NULL);
    FdsUpdate(m.heap, d, x);
    if m.heap[d].fd != DESCRIPTOR_NULL {
      assert m.heap[d].fd in Fds(m.heap);
    } else {
      assert m.heap[d := x] == m.heap && m.open - {DESCRIPTOR_NULL} == m.open;
    }
  }

  lemma UsersWithout(objects: map<Address, Address>, o: Address, d: Address)
    requires o in objects
    ensures |Users(objects - {o}, d)| == |Users(objects, d)| - (if objects[o] == d then 1 else 0)
  {
    assert Users(objects - {o}, d) == Users(objects, d) - {o};
  }

  lemma UsersWith(objects: map<Address, Address>, o: Address, d: Address, e: Address)
    ensures |Users(objects[o := d], e)| == |Users(objects - {o}, e)| + (if d == e then 1 else 0)
  {
    assert Users(objects[o := d], e) == Users(objects - {o}, e) + (if d == e then {o} else {});
  }

  lemma DeleteKeepsOwned(m: Memory, d: Address)
    requires Owned(m.heap, m.open, m.leaked) && d in m.heap && m.heap[d].fd == DESCRIPTOR_NULL
    ensures Owned(m.heap - {d}, m.open, m.leaked)
  {
    forall f | f in Fds(m.heap) ensures f in Fds(m.heap - {d}) {
      var e :| e in m.heap && m.heap[e].fd != DESCRIPTOR_NULL && m.heap[e].fd == f;
      assert (m.heap - {d})[e].fd == f;
    }
    assert Fds(m.heap - {d}) == Fds(m.heap);
  }

  lemma {:induction false} DecrementIsExact(m: Memory, o: Address)
    requires Valid(m) && o in m.objects
    ensures var d := m.objects[o];
            var heap := m.heap[d := m.heap[d].(cnt := m.heap[d].cnt - 1)];
      && Owned(heap, m.open, m.leaked)
      && (forall e :: e in heap ==> heap[e].cnt == |Users(m.objects - {o}, e)|)
      && (heap[d].cnt == 0 ==> forall p :: p in m.objects - {o} ==> m.objects[p] != d)
  {
    var d := m.objects[o];
    var heap := m.heap[d := m.heap[d].(cnt := m.heap[d].cnt - 1)];
    forall e | e in heap ensures heap[e].cnt == |Users(m.objects - {o}, e)| {
      UsersWithout(m.objects, o, e);
    }
    FdsUpdate(m.heap, d, heap[d]);
    if m.heap[d].fd != DESCRIPTOR_NULL { assert m.heap[d].fd in Fds(m.heap); }
    if heap[d].cnt == 0 {
      assert Users(m.objects - {o}, d) == {};
      forall p | p in m.objects - {o} ensures m.objects[p] != d {
        assert p !in Users(m.objects - {o}, d);
      }
    }
  }

  // One reference fewer; the last one takes the file descriptor with it.
  lemma ReleaseIsExact(m: Memory, o: Address)
    requires Valid(m) && o in m.objects
    ensures var r, d := Release(m, o), m.objects[o];
      && r.Ok? && r.mem.objects == m.objects && r.mem.leaked == m.leaked
      && Counted(m.objects - {o}, r.mem.heap) && Owned(r.mem.heap, r.mem.open, r.mem.leaked)
      && (m.heap[d].cnt > 1 ==> r.mem.open == m.open && r.mem.heap.Keys == m.heap.Keys)
      && (m.heap[d].cnt == 1 ==> r.mem.open == m.open - {m.heap[d].fd} && r.mem.heap.Keys == m.heap.Keys - {d})
  {
    var d := m.objects[o];
    var m1 := m.(heap := m.heap[d := m.heap[d].(cnt := m.heap[d].cnt - 1)]);
    DecrementIsExact(m, o);
    if m1.heap[d].cnt == 0 {
      CloseKeepsOwned(m1, o);
      var m2 := CloseFd(m1, o).mem;
      if m1.heap[d].fd == DESCRIPTOR_NULL {
        DeleteKeepsOwned(m1, d);
        assert m1.open - {m1.heap[d].fd} == m1.open;
      } else {
        DeleteKeepsOwned(m2, d);
      }
    }
  }

  // One reference more, for an object that holds none.
  lemma AcquireIsExact(m: Memory, o: Address, src: Address)
    requires Counted(m.objects - {o}, m.heap) && Owned(m.heap, m.open, m.leaked)
    requires src in m.objects && m.objects[src] in m.heap
    ensures var r, d := Acquire(m, o, src), m.objects[src];
      && r.Ok? && Valid(r.mem) && r.mem.open == m.open && r.mem.leaked == m.leaked
      && r.mem.objects == m.objects[o := d]
  {
    var d := m.objects[src];
    var x := m.heap[d].(cnt := m.heap[d].cnt + 1);
    assert forall p :: p in m.objects && p != o ==> p in m.objects - {o};
    forall e | e in m.heap ensures |Users(m.objects[o := d], e)| == m.heap[d := x][e].cnt {
      UsersWith(m.objects, o, d, e);
    }
    FdsUpdate(m.heap, d, x);
    if x.fd != DESCRIPTOR_NULL { assert x.fd in Fds(m.heap); }
  }

  lemma Element<T>(s: set<T>) returns (x: T)
    requires |s| > 0
    ensures x in s
  {
    x :| x in s;
  }

  lemma NoUsers(objects: map<Address, Address>, heap: map<Address, Descriptor>, d: Address)
    requires Counted(objects, heap) && d !in heap
    ensures |Users(objects, d)| == 0
  {
    forall o | o in objects ensures objects[o] != d { assert objects[o] in heap; }
    assert Users(objects, d) == {};
  }

  lemma NewIsExact(m: Memory, o: Address, d: Address)
    requires Counted(m.objects - {o}, m.heap) && Owned(m.heap, m.open, m.leaked) && d !in m.heap
    ensures Valid(New(m, o, d))
  {
    var r := New(m, o, d);
    assert forall p :: p in m.objects && p != o ==> p in m.objects - {o};
    forall e | e in r.heap ensures |Users(r.objects, e)| == r.heap[e].cnt {
      UsersWith(m.objects, o, d, e);
      NoUsers(m.objects - {o}, m.heap, d);
    }
    forall f | f in Fds(m.heap) ensures f in Fds(r.heap) {
      var e :| e in m.heap && m.heap[e].fd != DESCRIPTOR_NULL && m.heap[e].fd == f;
      assert r.heap[e].fd == f;
    }
    assert Fds(r.heap) == Fds(m.heap);
  }

  // ---- Every step, and every interleaving.

  // The one program error the classes do not survive: the only owner of a
  // descriptor assigned to itself.
  predicate SoleSelfAssign(m: Memory, op: Op) {
    op.Assign? && op.o == op.src && op.o in m.objects && m.objects[op.o] in m.heap
    && m.heap[m.objects[op.o]].cnt == 1
  }

  predicate Leaks(m: Memory, op: Op) {
    op.Socket? && op.o in m.objects && m.objects[op.o] in m.heap
    && m.heap[m.objects[op.o]].fd != DESCRIPTOR_NULL
  }

  lemma AssignStep(m: Memory, o: Address, src: Address)
    requires Valid(m) && o in m.objects && src in m.objects
    ensures var r := Step(m, Assign(o, src));
      && (r.Fault? <==> SoleSelfAssign(m, Assign(o, src)))
      && (r.Ok? ==> Valid(r.mem) && r.mem.leaked == m.leaked && r.mem.objects == m.objects[o := m.objects[src]])
  {
    ReleaseIsExact(m, o);
    var m1 := Release(m, o).mem;
    if src != o { assert src in m.objects - {o}; }
    if m.objects[src] in m1.heap {
      AcquireIsExact(m1, o, src);
    }
  }

  lemma SocketStep(m: Memory, o: Address, f: int)
    requires Valid(m) && Enabled(m, Socket(o, f))
    ensures var r := Step(m, Socket(o, f)); r.Ok? && Valid(r.mem)
  {
    var d := m.objects[o];
    FdsUpdate(m.heap, d, m.heap[d].(fd := f));
    if m.heap[d].fd != DESCRIPTOR_NULL { assert m.heap[d].fd in Fds(m.heap); }
    forall e | e in m.heap ensures m.heap[e].fd != f || f == DESCRIPTOR_NULL {
      if m.heap[e].fd != DESCRIPTOR_NULL { assert m.heap[e].fd in Fds(m.heap); }
    }
  }

  lemma StepIsSafe(m: Memory, op: Op)
    requires Valid(m) && Enabled(m, op)
    ensures Step(m, op).Fault? <==> SoleSelfAssign(m, op)
    ensures Step(m, op).Ok? ==> Valid(Step(m, op).mem)
    ensures Step(m, op).Ok? && !Leaks(m, op) ==> Step(m, op).mem.leaked == m.leaked
  {
    match op
    case Construct(o, d) => assert m.objects - {o} == m.objects; NewIsExact(m, o, d);
    case Copy(o, src) => assert m.objects - {o} == m.objects; AcquireIsExact(m, o, src);
    case Assign(o, src) => AssignStep(m, o, src);
    case Clear(o, d) => ReleaseIsExact(m, o); NewIsExact(Release(m, o).mem, o, d);
    case Destroy(o) => ReleaseIsExact(m, o);
    case Close(o) => CloseKeepsOwned(m, o);
    case Socket(o, f) => SocketStep(m, o, f);
  }

  function Run(m: Memory, ops: seq<Op>): Outcome
    decreases ops
  {
    if ops == [] then Ok(m)
    else if !Enabled(m, ops[0]) then Run(m, ops[1..])
    else var m1 :- Step(m, ops[0]); Run(m1, ops[1..])
  }

  // An object is made and assigned to itself.
  lemma SelfAssigned()
    ensures Run(EMPTY, [Construct(0, 0), Assign(0, 0)]).Fault?
  {
    var m := New(EMPTY, 0, 0);
    assert Step(EMPTY, Construct(0, 0)) == Ok(m);
    assert [Construct(0, 0), Assign(0, 0)][1..] == [Assign(0, 0)];
    assert Step(m, Assign(0, 0)).Fault?;
  }

  ghost predicate Avoids(m: Memory, ops: seq<Op>, bad: (Memory, Op) -> bool)
    decreases ops
  {
    ops != [] ==>
      if !Enabled(m, ops[0]) then Avoids(m, ops[1..], bad)
      else !bad(m, ops[0]) && (Step(m, ops[0]).Ok? ==> Avoids(Step(m, ops[0]).mem, ops[1..], bad))
  }

  lemma {:induction false} RunIsSafe(m: Memory, ops: seq<Op>)
    requires Valid(m)
    ensures Run(m, ops).Ok? <==> Avoids(m, ops, SoleSelfAssign)
    ensures Run(m, ops).Ok? ==> Valid(Run(m, ops).mem)
    ensures Run(m, ops).Ok? && Avoids(m, ops, Leaks) ==> Run(m, ops).mem.leaked == m.leaked
    decreases ops
  {
    if ops != [] {
      if Enabled(m, ops[0]) {
        StepIsSafe(m, ops[0]);
        if Step(m, ops[0]).Ok? { RunIsSafe(Step(m, ops[0]).mem, ops[1..]); }
      } else {
        RunIsSafe(m, ops[1..]);
      }
    }
  }

  // From an empty memory: no fault without a sole self-assignment; counts are
  // exact; and the descriptors open at the end are those still referenced, so
  // that none is open when no object is left.
  lemma {:induction false} EveryInterleaving(ops: seq<Op>)
    ensures Run(EMPTY, ops).Ok? <==> Avoids(EMPTY, ops, SoleSelfAssign)
    ensures Run(EMPTY, ops).Ok? ==> Valid(Run(EMPTY, ops).mem)
    ensures Run(EMPTY, ops).Ok? && Avoids(EMPTY, ops, Leaks) ==>
      var m := Run(EMPTY, ops).mem;
      && m.open == Fds(m.heap)
      && (forall f :: f in m.open ==> exists o :: o in m.objects && m.objects[o] in m.heap && m.heap[m.objects[o]].fd == f)
  {
    RunIsSafe(EMPTY, ops);
    if Run(EMPTY, ops).Ok? && Avoids(EMPTY, ops, Leaks) {
      var m := Run(EMPTY, ops).mem;
      forall f | f in m.open
        ensures exists o :: o in m.objects && m.objects[o] in m.heap && m.heap[m.objects[o]].fd == f
      {
        assert f in Fds(m.heap);
        var d :| d in m.heap && m.heap[d].fd != DESCRIPTOR_NULL && m.heap[d].fd == f;
        var o := Element(Users(m.objects, d));
      }
    }
  }
}
