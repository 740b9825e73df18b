/** IPComm objects that share descriptors by reference (IPComm.cc,
    Descriptor.cc): the constructors, assignment, clear, Close and destructor
    change the shared counts, and the memory of Descriptors follows them. */
module IPComm {
  import D = Descriptors

  class Descriptor {
    var fd: int
    var cnt: nat
    // Its address.
    ghost const at: D.Address

    // Descriptor::Descriptor
    constructor (ghost at: D.Address)
      ensures fd == D.DESCRIPTOR_NULL && cnt == 1 && this.at == at
    {
      fd, cnt := D.DESCRIPTOR_NULL, 1;
      this.at := at;
    }
  }

  // What a program holds: its live objects, at each address the descriptor
  // that was last allocated there, and the memory they make up. fault says
  // that a deleted descriptor was used.
  class Program {
    ghost var mem: D.Memory
    ghost var objects: map<D.Address, IPComm>
    ghost var descriptors: map<D.Address, Descriptor>
    ghost var fault: bool

    constructor ()
      ensures Valid() && mem == D.EMPTY && !fault
    {
      mem, objects, descriptors, fault := D.EMPTY, map[], map[], false;
    }

    ghost predicate Objects()
      reads this, objects.Values
    {
      && objects.Keys == mem.objects.Keys
      && forall o :: o in objects ==>
           && objects[o].self == o && mem.objects[o] in descriptors
           && objects[o].descriptor == descriptors[mem.objects[o]]
    }

    ghost predicate Holds()
      reads this, descriptors.Values
    {
      && (forall d :: d in descriptors ==> descriptors[d].at == d)
      && (forall d :: d in mem.heap ==>
            d in descriptors && descriptors[d].fd == mem.heap[d].fd && descriptors[d].cnt == mem.heap[d].cnt)
    }

    ghost predicate Valid()
      reads this, objects.Values, descriptors.Values
    {
      Objects() && Holds() && D.Valid(mem)
    }
  }

  class IPComm {
    var descriptor: Descriptor
    // The this pointer.
    ghost const self: D.Address

    ghost predicate In(p: Program)
      reads p
    {
      self in p.objects && p.objects[self] == this
    }

    // One of the descriptors that are not deleted.
    ghost predicate Live(p: Program)
      reads this, p
    {
      descriptor.at in p.mem.heap && descriptor.at in p.descriptors && p.descriptors[descriptor.at] == descriptor
    }

    // IPComm::IPComm
    constructor (ghost p: Program, ghost self: D.Address, ghost d: D.Address)
      requires p.Valid() && D.Enabled(p.mem, D.Construct(self, d))
      modifies p
      ensures p.Valid() && In(p) && this.self == self && fresh(descriptor) && p.fault == old(p.fault)
      ensures p.mem == D.New(old(p.mem), self, d)
    {
      this.self := self;
      descriptor := new Descriptor(d);
      new;
      D.StepIsSafe(p.mem, D.Construct(self, d));
      p.mem := D.New(p.mem, self, d);
      p.objects := p.objects[self := this];
      p.descriptors := p.descriptors[d := descriptor];
    }

    // IPComm::IPComm(const IPComm&)
    constructor Copy(src: IPComm, ghost p: Program, ghost self: D.Address)
      requires p.Valid() && src.In(p) && D.Enabled(p.mem, D.Copy(self, src.self))
      modifies p, src.descriptor
      ensures p.Valid() && In(p) && this.self == self && p.fault == old(p.fault)
      ensures descriptor == src.descriptor == old(src.descriptor)
      ensures D.Step(old(p.mem), D.Copy(self, src.self)) == D.Ok(p.mem)
    {
      this.self := self;
      descriptor := src.descriptor;
      new;
      D.StepIsSafe(p.mem, D.Copy(self, src.self));
      descriptor.cnt := descriptor.cnt + 1;
      p.mem := D.Acquire(p.mem, self, src.self).mem;
      p.objects := p.objects[self := this];
    }

    // The file descriptor is closed for everyone who shares the descriptor.
    method CloseFd(ghost p: Program)
      requires p.Holds() && Live(p) && descriptor.fd >= D.DESCRIPTOR_NULL
      modifies descriptor, p`mem
      ensures p.Holds() && descriptor.fd == D.DESCRIPTOR_NULL && descriptor.cnt == old(descriptor.cnt)
      ensures var h, d := old(p.mem.heap), descriptor.at;
        p.mem == old(p.mem).(heap := h[d := h[d].(fd := D.DESCRIPTOR_NULL)], open := old(p.mem).open - {old(descriptor.fd)})
    {
      ghost var h, d := p.mem.heap, descriptor.at;
      p.mem := p.mem.(heap := h[d := h[d].(fd := D.DESCRIPTOR_NULL)], open := p.mem.open - {descriptor.fd});
      if descriptor.fd > D.DESCRIPTOR_NULL {
        descriptor.fd := D.DESCRIPTOR_NULL;
      }
    }

    // IPComm::Close: every object that shares the descriptor sees it closed,
    // its file descriptor is no longer open, and nothing else changes.
    method Close(ghost p: Program)
      requires p.Valid() && In(p)
      modifies descriptor, p`mem
      ensures p.Valid() && p.mem.objects == old(p.mem).objects
      ensures forall o :: o in p.objects && p.objects[o].descriptor == descriptor ==> p.objects[o].descriptor.fd == D.DESCRIPTOR_NULL
      ensures p.mem.open == old(p.mem).open - {old(descriptor.fd)} && p.mem.leaked == old(p.mem).leaked
      ensures p.mem.heap == old(p.mem).heap[descriptor.at := D.Descriptor(D.DESCRIPTOR_NULL, descriptor.cnt)]
      ensures descriptor.cnt == old(descriptor.cnt)
    {
      D.StepIsSafe(p.mem, D.Close(self));
      D.CloseKeepsOwned(p.mem, self);
      D.FdIsOpen(p.mem, descriptor.at);
      CloseFd(p);
    }

    // if (!--descriptor_->cnt_) { if (fd_ != NULL) Close(); delete descriptor_; }
    method Drop(ghost p: Program)
      requires p.Valid() && In(p)
      modifies descriptor, p`mem
      ensures p.Holds() && D.Release(old(p.mem), self) == D.Ok(p.mem)
    {
      D.ReleaseIsExact(p.mem, self);
      D.FdIsOpen(p.mem, descriptor.at);
      ghost var m, d := p.mem, descriptor.at;
      descriptor.cnt := descriptor.cnt - 1;
      p.mem := m.(heap := m.heap[d := m.heap[d].(cnt := m.heap[d].cnt - 1)]);
      if descriptor.cnt == 0 {
        if descriptor.fd != D.DESCRIPTOR_NULL { CloseFd(p); }
        p.mem := p.mem.(heap := p.mem.heap - {d});
      }
    }

    // descriptor_ = src.descriptor_; descriptor_->cnt_++;
    method Share(src: IPComm, ghost p: Program)
      requires p.Holds() && p.Objects() && In(p) && src.In(p)
      modifies this, src.descriptor, p`mem, p`fault
      ensures descriptor == old(src.descriptor)
      ensures p.fault == (old(p.fault) || D.Acquire(old(p.mem), self, src.self).Fault?)
      ensures D.Acquire(old(p.mem), self, src.self).Ok? ==>
        p.Holds() && p.Objects() && D.Acquire(old(p.mem), self, src.self) == D.Ok(p.mem)
    {
      ghost var r := D.Acquire(p.mem, self, src.self);
      descriptor := src.descriptor;
      p.fault := p.fault || descriptor.at !in p.mem.heap;
      descriptor.cnt := descriptor.cnt + 1;
      if r.Ok? { p.mem := r.mem; }
    }

    // IPComm::operator=: uses a deleted descriptor exactly when the only owner
    // of one is assigned to itself.
    method Assign(src: IPComm, ghost p: Program)
      requires p.Valid() && In(p) && src.In(p)
      modifies this, descriptor, src.descriptor, p`mem, p`fault
      ensures p.fault == (old(p.fault) || D.SoleSelfAssign(old(p.mem), D.Assign(self, src.self)))
      ensures !D.SoleSelfAssign(old(p.mem), D.Assign(self, src.self)) ==>
        p.Valid() && D.Step(old(p.mem), D.Assign(self, src.self)) == D.Ok(p.mem)
    {
      D.StepIsSafe(p.mem, D.Assign(self, src.self));
      Drop(p);
      Share(src, p);
    }

    // descriptor_ = new Descriptor(), after the old one was let go. Its address
    // may be that of a deleted one.
    method Renew(ghost p: Program, ghost d: D.Address)
      requires p.Holds() && p.Objects() && In(p) && d !in p.mem.heap
      requires forall o :: o in p.objects && o != self ==> p.mem.objects[o] in p.mem.heap
      modifies this, p`mem, p`descriptors
      ensures p.Holds() && p.Objects() && fresh(descriptor) && p.mem == D.New(old(p.mem), self, d)
    {
      descriptor := new Descriptor(d);
      p.mem := D.New(p.mem, self, d);
      p.descriptors := p.descriptors[d := descriptor];
    }

    // IPComm::clear
    method Clear(ghost p: Program, ghost d: D.Address)
      requires p.Valid() && In(p) && D.Enabled(p.mem, D.Clear(self, d))
      modifies this, descriptor, p`mem, p`descriptors
      ensures p.Valid() && p.fault == old(p.fault) && fresh(descriptor)
      ensures D.Step(old(p.mem), D.Clear(self, d)) == D.Ok(p.mem)
    {
      ghost var m := p.mem;
      D.StepIsSafe(m, D.Clear(self, d));
      D.ReleaseIsExact(m, self);
      Drop(p);
      OthersLive(m, p.mem, self);
      Renew(p, d);
    }

    static lemma OthersLive(m: D.Memory, r: D.Memory, o: D.Address)
      requires D.Counted(m.objects - {o}, r.heap)
      ensures forall a :: a in m.objects && a != o ==> m.objects[a] in r.heap
    {
      forall a | a in m.objects && a != o ensures m.objects[a] in r.heap {
        assert a in m.objects - {o};
      }
    }

    // IPComm::~IPComm
    method Destroy(ghost p: Program)
      requires p.Valid() && In(p)
      modifies descriptor, p
      ensures p.Valid() && p.fault == old(p.fault) && self !in p.objects
      ensures D.Step(old(p.mem), D.Destroy(self)) == D.Ok(p.mem)
    {
      D.StepIsSafe(p.mem, D.Destroy(self));
      Drop(p);
      p.mem := p.mem.(objects := p.mem.objects - {self});
      p.objects := p.objects - {self};
    }

    // IPComm::Socket, where f is the answer of socket(2).
    method Socket(f: int, ghost p: Program)
      requires p.Valid() && In(p) && D.Enabled(p.mem, D.Socket(self, f))
      modifies descriptor, p`mem
      ensures p.Valid() && descriptor.fd == f
      ensures D.Step(old(p.mem), D.Socket(self, f)) == D.Ok(p.mem)
    {
      D.StepIsSafe(p.mem, D.Socket(self, f));
      ghost var r := D.Step(p.mem, D.Socket(self, f));
      descriptor.fd := f;
      p.mem := r.mem;
    }
  }
}
