/**
  The class of core/storage/lib/io_uring.cpp as it is written: fields updated in
  place and polling loops, each method proved against its function in IoUring.
  A failed CHECK sets `aborted`; no method may be called after that.
 */
module IoUringPool {
  import opened IoUring

  class IoUringThreadUnsafe {
    const max: nat
    var free: seq<nat>
    var pending: int
    var info: map<nat, IoInfo>
    var entries: map<nat, Entry>
    var sq: seq<nat>
    var inflight: seq<nat>
    var cq: seq<Cqe>
    var requests: seq<Request>
    var fired: seq<nat>
    var aborted: bool

    function State(): Ring
      reads this
    {
      Ring(max, free, pending, info, entries, sq, inflight, cq, requests, fired, aborted)
    }

    ghost predicate Valid()
      reads this
    {
      Inv(State())
    }

    constructor (max: nat)
      ensures State() == Init(max) && Valid()
    {
      this.max := max;
      free, pending, info, entries, sq, inflight, cq := [], 0, map[], map[], [], [], [];
      requests, fired, aborted := [], [], false;
      new;
      var i := 0;
      while i < max
        invariant 0 <= i <= max
        invariant State() == Init(max).(free := seq(i, k => k))
      {
        free := free + [i];
        i := i + 1;
      }
      InitInv(max);
    }

    /** The environment: the kernel posts completions. */
    method KernelCompletes(cqes: seq<Cqe>)
      requires Valid()
      modifies this`inflight, this`cq
      ensures Valid() && State() == Arrive(old(State()), cqes)
    {
      var s := Arrive(State(), cqes);
      ArriveInv(State(), cqes);
      ArriveKeeps(State(), cqes);
      inflight, cq := s.inflight, s.cq;
    }

    /** Pops a free descriptor, fills it and prepares a submission entry, for which there is always a slot. */
    method PrepareEntry(r: Request)
      requires Valid() && free != []
      modifies this`free, this`info, this`entries, this`sq, this`pending, this`requests
      ensures Valid() && State() == Prepare(old(State()), r)
      ensures requests == old(requests) + [r] && pending == old(pending) + 1
      ensures sq == old(sq) + [old(free[0])] && Serves(State(), old(free[0]), r)
      ensures info[old(free[0])].callback == old(|requests|)
    {
      PrepareInv(State(), r);
      var d := free[0];
      free := free[1..];
      var iov := if d in info then info[d].iov else Iovec(0, 0);
      if r.Read? {
        iov := Iovec(r.buf, r.size);
      }
      info := info[d := IoInfo(|requests|, iov)];
      // io_uring_get_sqe: the ring has at least max entries, and not all are taken
      assert |sq| < max;
      entries := entries[d := if r.Read? then Entry(r.fd, OfDescriptor, r.start) else Entry(r.fd, Callers(r.iov), r.start)];
      sq := sq + [d];
      pending := pending + 1;
      requests := requests + [r];
    }

    method Submit(submitted: int)
      requires Valid() && !aborted
      modifies this`pending, this`sq, this`inflight, this`aborted
      ensures Valid() && State() == IoUring.Submit(old(State()), submitted)
      ensures aborted <==> submitted != old(pending)
      ensures !aborted ==> sq == [] && pending == 0 && inflight == old(inflight) + old(sq)
      ensures aborted ==> sq == old(sq) && pending == old(pending) && inflight == old(inflight)
    {
      SubmitInv(State(), submitted);
      if submitted != pending {
        aborted := true;
        return;
      }
      inflight, sq := inflight + sq, [];
      pending := 0;
    }

    /** Runs the callback of the first completion and frees its descriptor. */
    method Reap()
      requires Valid() && !aborted && cq != []
      modifies this`free, this`cq, this`fired, this`aborted
      ensures Valid() && State() == ReapOne(old(State()))
    {
      ReapOneInv(State());
      var c := cq[0];
      assert c.desc in info by {
        DescsCons(cq);
        assert IsBusy(State(), c.desc);
      }
      if !c.ok {
        aborted := true;
        return;
      }
      fired := fired + [info[c.desc].callback];
      free := free + [c.desc];
      cq := cq[1..];
    }

    method Poll(turn: Turn)
      requires Valid() && !aborted
      modifies this`free, this`inflight, this`cq, this`fired, this`aborted
      ensures Valid() && State() == IoUring.Poll(old(State()), turn)
    {
      hide Inv, Arrive, ReapOne;
      ghost var s := State();
      KernelCompletes(turn.before);
      ArriveKeeps(s, turn.before);
      if cq == [] {
        return;
      }
      Reap();
      if aborted {
        return;
      }
      KernelCompletes(turn.during);
      ghost var drained := State();
      while cq != []
        invariant Valid() && !aborted
        invariant ReapAll(State()) == ReapAll(drained)
        decreases |cq|
      {
        ghost var before := State();
        Reap();
        ReapShrinks(before);
        if aborted {
          return;
        }
      }
      KernelCompletes(turn.after);
    }

    method PollUntilRequestsCanBeMade(turns: seq<Turn>)
      requires Valid() && !aborted
      modifies this
      ensures Valid() && State() == WaitForFree(old(State()), turns)
    {
      hide Inv, IoUring.Submit, IoUring.Poll;
      var k := 0;
      while free == [] && !aborted && k < |turns|
        invariant 0 <= k <= |turns| && Valid()
        invariant WaitForFree(old(State()), turns) == WaitForFree(State(), turns[k..])
        decreases |turns| - k
      {
        Submit(turns[k].submitted);
        if !aborted {
          Poll(turns[k]);
        } else {
          AbortedPoll(State(), turns[k]);
        }
        assert turns[k..][0] == turns[k] && turns[k..][1..] == turns[k + 1..];
        k := k + 1;
      }
    }

    /** read: sizes, offsets and buffers must suit O_DIRECT.  The entry reads through the descriptor's own iovec. */
    method Read(fd: nat, buf: nat, size: nat, start: nat, turns: seq<Turn>) returns (accepted: bool)
      requires Valid() && !aborted
      requires buf % 512 == 0 && size % 512 == 0 && start % 512 == 0
      modifies this
      ensures Valid() && State() == Call(old(State()), IoUring.Read(fd, buf, size, start), turns)
      ensures accepted ==> !aborted && requests == old(requests) + [IoUring.Read(fd, buf, size, start)]
      ensures accepted ==>
                && sq != [] && var d := sq[|sq| - 1];
                && d in info && info[d] == IoInfo(old(|requests|), Iovec(buf, size))
                && d in entries && entries[d] == Entry(fd, OfDescriptor, start)
      ensures !accepted ==> requests == old(requests)
    {
      hide Inv, WaitForFree;
      accepted := Accept(IoUring.Read(fd, buf, size, start), turns);
    }

    /** readv: the entry reads through the caller's iovecs. */
    method Readv(fd: nat, iov: seq<Iovec>, start: nat, turns: seq<Turn>) returns (accepted: bool)
      requires Valid() && !aborted
      modifies this
      ensures Valid() && State() == Call(old(State()), IoUring.Readv(fd, iov, start), turns)
      ensures accepted ==> !aborted && requests == old(requests) + [IoUring.Readv(fd, iov, start)]
      ensures accepted ==>
                && sq != [] && var d := sq[|sq| - 1];
                && d in info && info[d].callback == old(|requests|)
                && d in entries && entries[d] == Entry(fd, Callers(iov), start)
      ensures !accepted ==> requests == old(requests)
    {
      hide Inv, WaitForFree;
      accepted := Accept(IoUring.Readv(fd, iov, start), turns);
    }

    /** The common part of read and readv: wait for a descriptor, then prepare the entry. */
    method Accept(r: Request, turns: seq<Turn>) returns (accepted: bool)
      requires Valid() && !aborted
      modifies this
      ensures Valid() && State() == Call(old(State()), r, turns)
      ensures accepted ==> !aborted && requests == old(requests) + [r]
      ensures accepted ==>
                && sq != [] && var d := sq[|sq| - 1];
                && Serves(State(), d, r) && info[d].callback == old(|requests|)
                && (r.Read? ==> info[d].iov == Iovec(r.buf, r.size) && entries[d].vectors == OfDescriptor)
                && (r.Readv? ==> entries[d].vectors == Callers(r.iov))
      ensures !accepted ==> requests == old(requests)
    {
      hide Inv, WaitForFree;
      WaitKeeps(State(), turns);
      PollUntilRequestsCanBeMade(turns);
      accepted := !aborted && free != [];
      if accepted {
        PrepareEntry(r);
      }
    }

    method Flush(submitted: int, turns: seq<Turn>) returns (complete: bool)
      requires Valid() && !aborted
      modifies this
      ensures Valid() && State() == IoUring.Flush(old(State()), submitted, turns)
      ensures complete ==> !aborted && |free| >= max
    {
      hide Inv, IoUring.Submit, IoUring.Poll;
      Submit(submitted);
      ghost var s := State();
      var k := 0;
      while |free| < max && !aborted && k < |turns|
        invariant 0 <= k <= |turns| && Valid()
        invariant Drain(s, turns) == Drain(State(), turns[k..])
        decreases |turns| - k
      {
        Poll(turns[k]);
        assert turns[k..][0] == turns[k] && turns[k..][1..] == turns[k + 1..];
        k := k + 1;
      }
      complete := !aborted && |free| >= max;
    }
  }

  lemma AbortedPoll(s: Ring, turn: Turn)
    requires s.aborted
    ensures IoUring.Poll(s, turn) == s
  {
  }

  lemma ReapShrinks(s: Ring)
    requires s.cq != []
    ensures ReapOne(s).aborted || |ReapOne(s).cq| == |s.cq| - 1
  {
  }
}
