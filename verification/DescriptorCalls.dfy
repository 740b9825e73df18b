/** What one operation on IPComm objects leaves behind, in terms of who shares
    a descriptor (IPComm.cc, Descriptor.cc). */
module DescriptorCalls {
  import opened Descriptors

  // No other object has o's descriptor.
  predicate Sole(m: Memory, o: Address)
    requires o in m.objects
  {
    forall p :: p in m.objects && p != o ==> m.objects[p] != m.objects[o]
  }

  lemma SoleIsOne(m: Memory, o: Address)
    requires Valid(m) && o in m.objects
    ensures m.objects[o] in m.heap && m.heap[m.objects[o]].cnt > 0
    ensures Sole(m, o) <==> m.heap[m.objects[o]].cnt == 1
  {
    var users := Users(m.objects, m.objects[o]);
    assert |users - {o}| == |users| - 1;
    if Sole(m, o) {
      forall p | p in users ensures p == o { assert m.objects[p] == m.objects[o]; }
      assert users - {o} == {};
    }
    if users - {o} == {} {
      forall p | p in m.objects && p != o ensures m.objects[p] != m.objects[o] { assert p !in users - {o}; }
    }
  }

  // What is left when o lets go of its descriptor: nothing of it if no other
  // object shares it, not even its open file descriptor, else one count less.
  ghost function LetGo(m: Memory, o: Address): Memory
    requires Valid(m) && o in m.objects
  {
    var d := m.objects[o];
    if Sole(m, o) then m.(heap := m.heap - {d}, open := m.open - {m.heap[d].fd})
    else m.(heap := m.heap[d := Descriptor(m.heap[d].fd, m.heap[d].cnt - 1)])
  }

  lemma ReleaseIs(m: Memory, o: Address)
    requires Valid(m) && o in m.objects
    ensures Release(m, o) == Ok(LetGo(m, o))
  {
    SoleIsOne(m, o);
    FdIsOpen(m, m.objects[o]);
    var d := m.objects[o];
    if Sole(m, o) {
      var m1 := m.(heap := m.heap[d := m.heap[d].(cnt := 0)]);
      assert m.heap[d := Descriptor(DESCRIPTOR_NULL, 0)] - {d} == m.heap - {d};
      assert m1.heap - {d} == m.heap - {d};
      assert m1.heap[d := m1.heap[d].(fd := DESCRIPTOR_NULL)] - {d} == m.heap - {d};
      if m.heap[d].fd == DESCRIPTOR_NULL { assert m.open - {DESCRIPTOR_NULL} == m.open; }
    }
  }

  // A new object has a descriptor of its own, without a file descriptor; a copy
  // shares one.
  lemma ConstructAndCopy(m: Memory, o: Address, d: Address, src: Address)
    requires Valid(m) && o !in m.objects
    ensures d !in m.heap ==>
      Step(m, Construct(o, d)) == Ok(Memory(m.objects[o := d], m.heap[d := Descriptor(-1, 1)], m.open, m.leaked))
    ensures src in m.objects ==>
      var s := m.objects[src];
      && s in m.heap
      && Step(m, Copy(o, src)) ==
        Ok(Memory(m.objects[o := s], m.heap[s := Descriptor(m.heap[s].fd, m.heap[s].cnt + 1)], m.open, m.leaked))
  {
  }

  // Assignment between objects that share a descriptor changes nothing, if
  // there are two; otherwise the old descriptor is let go of and the new one
  // has one count more.
  lemma AssignIs(m: Memory, o: Address, src: Address)
    requires Valid(m) && o in m.objects && src in m.objects
    ensures var s := m.objects[src];
      && (s == m.objects[o] && !Sole(m, o) ==> Step(m, Assign(o, src)) == Ok(m))
      && (s == m.objects[o] && Sole(m, o) ==> Step(m, Assign(o, src)) == Fault)
      && (s != m.objects[o] ==>
            var m1 := LetGo(m, o);
            && s in m1.heap && m1.heap[s] == m.heap[s]
            && Step(m, Assign(o, src)) ==
              Ok(m1.(objects := m.objects[o := s], heap := m1.heap[s := Descriptor(m.heap[s].fd, m.heap[s].cnt + 1)])))
  {
    ReleaseIs(m, o);
    var s := m.objects[src];
    if s == m.objects[o] && !Sole(m, o) {
      var m1 := LetGo(m, o);
      assert m.objects[o := s] == m.objects;
      assert m1.heap[s := Descriptor(m.heap[s].fd, m.heap[s].cnt)] == m.heap;
    }
  }

  lemma ClearAndDestroy(m: Memory, o: Address, d: Address)
    requires Valid(m) && o in m.objects
    ensures Unused(m, o, d) ==>
      && d !in LetGo(m, o).heap
      && Step(m, Clear(o, d)) ==
        Ok(LetGo(m, o).(objects := m.objects[o := d], heap := LetGo(m, o).heap[d := Descriptor(-1, 1)]))
    ensures Step(m, Destroy(o)) == Ok(LetGo(m, o).(objects := m.objects - {o}))
  {
    ReleaseIs(m, o);
    SoleIsOne(m, o);
  }

  // Closing and opening are seen by all who share the descriptor.
  lemma CloseAndSocket(m: Memory, o: Address, f: int)
    requires Valid(m) && o in m.objects
    ensures var d := m.objects[o]; var x := m.heap[d];
      && Step(m, Close(o)) == Ok(m.(heap := m.heap[d := Descriptor(-1, x.cnt)], open := m.open - {x.fd}))
      && (f >= 0 && f !in m.open ==>
            Step(m, Socket(o, f)) == Ok(Memory(m.objects, m.heap[d := Descriptor(f, x.cnt)], m.open + {f},
                                               m.leaked + if x.fd == -1 then {} else {x.fd})))
      && Step(m, Socket(o, -1)) == Ok(Memory(m.objects, m.heap[d := Descriptor(-1, x.cnt)], m.open,
                                             m.leaked + if x.fd == -1 then {} else {x.fd}))
  {
    CloseKeepsOwned(m, o);
    assert m.open + {} == m.open;
  }
}
