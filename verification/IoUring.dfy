/**
  The io_uring request pool (core/storage/lib/io_uring.cpp): a bounded set of
  descriptors that move from free to prepared, to in flight in the kernel, to
  completed, and back.  The kernel is the environment: what it submits, completes
  and fails, and when, is an argument of every operation that enters it.
 */
module IoUring {

  datatype Iovec = Iovec(base: nat, len: nat)

  /** A request as the caller makes it.  `readv` passes its own iovec array and sets none in the descriptor. */
  datatype Request = Read(fd: nat, buf: nat, size: nat, start: nat) | Readv(fd: nat, iov: seq<Iovec>, start: nat)

  /** Where a request wants its data. */
  function Buffers(r: Request): seq<Iovec> {
    if r.Read? then [Iovec(r.buf, r.size)] else r.iov
  }

  /** The iovecs a submission entry points to: the one in its descriptor, or an array of the caller's. */
  datatype Vectors = OfDescriptor | Callers(iov: seq<Iovec>)

  /** A submission entry: file, iovecs and offset.  Its user data is the descriptor. */
  datatype Entry = Entry(fd: nat, vectors: Vectors, start: nat)

  /** IoInfo: the success callback, named by the request it belongs to, and the iovec the kernel reads into. */
  datatype IoInfo = IoInfo(callback: nat, iov: Iovec)

  datatype Cqe = Cqe(desc: nat, ok: bool)

  /** One visit to the kernel: how many entries it says it took, and what completes before, during and after reaping. */
  datatype Turn = Turn(submitted: int, before: seq<Cqe>, during: seq<Cqe>, after: seq<Cqe>)

  datatype Ring = Ring(
    max: nat,
    free: seq<nat>,          // m_IoInfo_free_set
    pending: int,            // m_count_pending_submissions
    info: map<nat, IoInfo>,  // the descriptors' contents
    entries: map<nat, Entry>,// the submission entry last prepared for each descriptor
    sq: seq<nat>,            // prepared, not yet submitted
    inflight: seq<nat>,      // with the kernel
    cq: seq<Cqe>,            // completed, not yet reaped
    requests: seq<Request>,  // accepted so far; a request is named by its index
    fired: seq<nat>,         // success callbacks run so far
    aborted: bool)           // a failed CHECK ended the process

  // ----- the operations, as functions of the state

  function Init(max: nat): Ring {
    Ring(max, seq(max, i => i), 0, map[], map[], [], [], [], [], [], false)
  }

  function Without(ds: seq<nat>, d: nat): seq<nat>
    decreases ds
  {
    if ds == [] then []
    else if ds[|ds| - 1] == d then ds[..|ds| - 1]
    else Without(ds[..|ds| - 1], d) + [ds[|ds| - 1]]
  }

  /** The kernel completes a request it holds; anything else is not for it to complete. */
  function Arrive(s: Ring, cqes: seq<Cqe>): Ring
    decreases cqes
  {
    if cqes == [] then s
    else
      var s' := Arrive(s, cqes[..|cqes| - 1]);
      var c := cqes[|cqes| - 1];
      if c.desc in s'.inflight
      then s'.(inflight := Without(s'.inflight, c.desc), cq := s'.cq + [c])
      else s'
  }

  /** Pops a free descriptor and prepares a submission entry for it. */
  function Prepare(s: Ring, r: Request): Ring
    requires s.free != []
  {
    var d := s.free[0];
    var iov := if r.Read? then Iovec(r.buf, r.size) else if d in s.info then s.info[d].iov else Iovec(0, 0);
    s.(free := s.free[1..],
       info := s.info[d := IoInfo(|s.requests|, iov)],
       entries := s.entries[d := Entry(r.fd, if r.Read? then OfDescriptor else Callers(r.iov), r.start)],
       sq := s.sq + [d],
       pending := s.pending + 1,
       requests := s.requests + [r])
  }

  function Submit(s: Ring, submitted: int): Ring {
    if s.aborted then s
    else if submitted != s.pending then s.(aborted := true)
    else s.(pending := 0, inflight := s.inflight + s.sq, sq := [])
  }

  /**
    Reaps the first completion: its callback runs and its descriptor is free again; a failure ends the process.
    (A completed descriptor always has contents, as `BusyHold` below says.)
   */
  function ReapOne(s: Ring): Ring
    requires s.cq != []
  {
    var c := s.cq[0];
    if !c.ok || c.desc !in s.info then s.(aborted := true)
    else s.(fired := s.fired + [s.info[c.desc].callback], free := s.free + [c.desc], cq := s.cq[1..])
  }

  function ReapAll(s: Ring): Ring
    decreases |s.cq|
  {
    if s.aborted || s.cq == [] then s
    else if ReapOne(s).aborted then ReapOne(s)
    else ReapAll(ReapOne(s))
  }

  function Poll(s: Ring, turn: Turn): Ring {
    if s.aborted then s
    else
      var s1 := Arrive(s, turn.before);
      if s1.cq == [] then s1    // timed out
      else
        var s2 := ReapOne(s1);
        if s2.aborted then s2
        else
          var s3 := ReapAll(Arrive(s2, turn.during));
          if s3.aborted then s3 else Arrive(s3, turn.after)
  }

  /** Submits and polls until a descriptor is free, for as long as the kernel is visited. */
  function WaitForFree(s: Ring, turns: seq<Turn>): Ring
    decreases turns
  {
    if s.free != [] || s.aborted || turns == [] then s
    else WaitForFree(Poll(Submit(s, turns[0].submitted), turns[0]), turns[1..])
  }

  /** A read or readv call; when the wait does not end, neither does the call. */
  function Call(s: Ring, r: Request, turns: seq<Turn>): Ring {
    var s' := WaitForFree(s, turns);
    if s'.aborted || s'.free == [] then s' else Prepare(s', r)
  }

  function Drain(s: Ring, turns: seq<Turn>): Ring
    decreases turns
  {
    if |s.free| >= s.max || s.aborted || turns == [] then s
    else Drain(Poll(s, turns[0]), turns[1..])
  }

  function Flush(s: Ring, submitted: int, turns: seq<Turn>): Ring {
    Drain(Submit(s, submitted), turns)
  }

  // ----- runs

  datatype Op =
    | DoCall(r: Request, turns: seq<Turn>)
    | DoSubmit(submitted: int)
    | DoPoll(turn: Turn)
    | DoFlush(n: int, visits: seq<Turn>)
    | Kernel(cqes: seq<Cqe>)

  function Step(s: Ring, op: Op): Ring {
    match op
    case DoCall(r, turns) => if s.aborted then s else Call(s, r, turns)
    case DoSubmit(n) => Submit(s, n)
    case DoPoll(turn) => Poll(s, turn)
    case DoFlush(n, turns) => Flush(s, n, turns)
    case Kernel(cqes) => Arrive(s, cqes)
  }

  function Run(s: Ring, ops: seq<Op>): Ring
    decreases ops
  {
    if ops == [] then s else Step(Run(s, ops[..|ops| - 1]), ops[|ops| - 1])
  }

  // ----- what every state keeps

  function Descs(cqes: seq<Cqe>): seq<nat> {
    seq(|cqes|, i requires 0 <= i < |cqes| => cqes[i].desc)
  }

  /** How often `x` occurs in `xs`. */
  function Count(xs: seq<nat>, x: nat): nat
    decreases xs
  {
    if xs == [] then 0
    else Count(xs[..|xs| - 1], x) + (if xs[|xs| - 1] == x then 1 else 0)
  }

  /** How many of the descriptors `ds` hold request `k`. */
  function HeldCount(ds: seq<nat>, info: map<nat, IoInfo>, k: nat): nat
    decreases ds
  {
    if ds == [] then 0
    else
      var d := ds[|ds| - 1];
      HeldCount(ds[..|ds| - 1], info, k) + (if d in info && info[d].callback == k then 1 else 0)
  }

  /** The descriptors that are not free: prepared, in flight or completed. */
  predicate IsBusy(s: Ring, d: nat) {
    d in s.sq || d in s.inflight || d in Descs(s.cq)
  }

  /** Where the kernel puts the data of a descriptor's entry. */
  function Target(s: Ring, d: nat): seq<Iovec>
    requires d in s.info && d in s.entries
  {
    match s.entries[d].vectors
    case OfDescriptor => [s.info[d].iov]
    case Callers(iov) => iov
  }

  /** The descriptor's entry reads what a request asks for: its file, at its offset, into its buffers. */
  predicate Serves(s: Ring, d: nat, r: Request) {
    && d in s.info && d in s.entries
    && s.entries[d].fd == r.fd && s.entries[d].start == r.start && Target(s, d) == Buffers(r)
  }

  /** The descriptor holds the callback of the request that took it, and its entry serves that request. */
  predicate Holds(s: Ring, d: nat) {
    && d in s.info && s.info[d].callback < |s.requests|
    && Serves(s, d, s.requests[s.info[d].callback])
  }

  /** In how many places a descriptor is. */
  function Places(s: Ring, d: nat): nat {
    Count(s.free, d) + Count(s.sq, d) + Count(s.inflight, d) + Count(Descs(s.cq), d)
  }

  /** How many busy descriptors hold a request. */
  function Holders(s: Ring, k: nat): nat {
    HeldCount(s.sq, s.info, k) + HeldCount(s.inflight, s.info, k) + HeldCount(Descs(s.cq), s.info, k)
  }

  /** Every descriptor is in exactly one place. */
  ghost predicate EachInOnePlace(s: Ring) {
    && |s.free| + |s.sq| + |s.inflight| + |s.cq| == s.max
    && forall d: nat :: Places(s, d) == if d < s.max then 1 else 0
  }

  /** The callbacks that ran together with those still held are exactly the accepted requests, each once. */
  ghost predicate EachRequestOnce(s: Ring) {
    forall k: nat :: Count(s.fired, k) + Holders(s, k) == if k < |s.requests| then 1 else 0
  }

  ghost predicate BusyHold(s: Ring) {
    forall d :: IsBusy(s, d) ==> Holds(s, d)
  }

  ghost predicate Inv(s: Ring) {
    EachInOnePlace(s) && EachRequestOnce(s) && BusyHold(s) && s.pending == |s.sq|
  }

  // ----- counting

  lemma {:induction false} CountConcat(a: seq<nat>, b: seq<nat>, x: nat)
    ensures Count(a + b, x) == Count(a, x) + Count(b, x)
    decreases b
  {
    if b == [] {
      assert a + b == a;
    } else {
      CountConcat(a, b[..|b| - 1], x);
      assert (a + b)[..|a + b| - 1] == a + b[..|b| - 1];
    }
  }

  lemma CountOne(d: nat, x: nat)
    ensures Count([d], x) == if d == x then 1 else 0
  {
    assert [d][..0] == [];
  }

  lemma {:induction false} CountIn(xs: seq<nat>, x: nat)
    ensures x in xs <==> Count(xs, x) > 0
    decreases xs
  {
    if xs != [] {
      CountIn(xs[..|xs| - 1], x);
      assert xs == xs[..|xs| - 1] + [xs[|xs| - 1]];
    }
  }

  lemma {:induction false} HeldConcat(a: seq<nat>, b: seq<nat>, info: map<nat, IoInfo>, k: nat)
    ensures HeldCount(a + b, info, k) == HeldCount(a, info, k) + HeldCount(b, info, k)
    decreases b
  {
    if b == [] {
      assert a + b == a;
    } else {
      HeldConcat(a, b[..|b| - 1], info, k);
      assert (a + b)[..|a + b| - 1] == a + b[..|b| - 1];
    }
  }

  lemma HeldOne(d: nat, info: map<nat, IoInfo>, k: nat)
    ensures HeldCount([d], info, k) == if d in info && info[d].callback == k then 1 else 0
  {
    assert [d][..0] == [];
  }

  lemma {:induction false} HeldFrame(ds: seq<nat>, info: map<nat, IoInfo>, d: nat, i: IoInfo, k: nat)
    requires d !in ds
    ensures HeldCount(ds, info[d := i], k) == HeldCount(ds, info, k)
    decreases ds
  {
    if ds != [] {
      assert ds[|ds| - 1] in ds;
      HeldFrame(ds[..|ds| - 1], info, d, i, k);
    }
  }

  lemma {:induction false} WithoutCount(ds: seq<nat>, d: nat, x: nat)
    requires d in ds
    ensures Count(Without(ds, d), x) == Count(ds, x) - (if x == d then 1 else 0)
    ensures |Without(ds, d)| == |ds| - 1
    decreases ds
  {
    var init, last := ds[..|ds| - 1], ds[|ds| - 1];
    if last != d {
      assert d in init;
      WithoutCount(init, d, x);
      CountConcat(Without(init, d), [last], x);
      CountOne(last, x);
    }
  }

  lemma {:induction false} WithoutHeld(ds: seq<nat>, d: nat, info: map<nat, IoInfo>, k: nat)
    requires d in ds && d in info
    ensures HeldCount(Without(ds, d), info, k) == HeldCount(ds, info, k) - (if info[d].callback == k then 1 else 0)
    decreases ds
  {
    var init, last := ds[..|ds| - 1], ds[|ds| - 1];
    if last != d {
      assert d in init;
      WithoutHeld(init, d, info, k);
      HeldConcat(Without(init, d), [last], info, k);
      HeldOne(last, info, k);
    }
  }

  lemma {:induction false} WithoutIn(ds: seq<nat>, d: nat)
    ensures forall x :: x in Without(ds, d) ==> x in ds
    decreases ds
  {
    if ds != [] { WithoutIn(ds[..|ds| - 1], d); }
  }

  lemma DescsSnoc(cqes: seq<Cqe>, c: Cqe)
    ensures Descs(cqes + [c]) == Descs(cqes) + [c.desc]
  {
  }

  lemma DescsCons(cqes: seq<Cqe>)
    requires cqes != []
    ensures Descs(cqes) == [cqes[0].desc] + Descs(cqes[1..])
  {
  }

  // ----- every step keeps the invariant

  lemma {:induction false} UpToCount(n: nat, x: nat)
    ensures Count(seq(n, i => i), x) == if x < n then 1 else 0
    decreases n
  {
    if n > 0 {
      var all: seq<nat> := seq(n, i => i);
      var init: seq<nat> := seq(n - 1, i => i);
      assert all[..n - 1] == init;
      UpToCount(n - 1, x);
    }
  }

  lemma InitInv(max: nat)
    ensures Inv(Init(max))
  {
    var s := Init(max);
    forall d: nat ensures Places(s, d) == if d < max then 1 else 0 {
      UpToCount(max, d);
    }
  }

  lemma {:induction false} ArriveOneInv(s: Ring, c: Cqe)
    requires Inv(s) && c.desc in s.inflight
    ensures Inv(s.(inflight := Without(s.inflight, c.desc), cq := s.cq + [c]))
  {
    hide Count, HeldCount, Without, Descs, Holds;
    var d, s' := c.desc, s.(inflight := Without(s.inflight, c.desc), cq := s.cq + [c]);
    assert IsBusy(s, d);
    assert d in s.info by { HoldsInfo(s, d); }
    DescsSnoc(s.cq, c);
    WithoutIn(s.inflight, d);
    forall x: nat ensures Places(s', x) == if x < s.max then 1 else 0 {
      assert Places(s, x) == if x < s.max then 1 else 0;
      WithoutCount(s.inflight, d, x);
      CountConcat(Descs(s.cq), [d], x);
      CountOne(d, x);
    }
    forall k: nat ensures Count(s'.fired, k) + Holders(s', k) == if k < |s'.requests| then 1 else 0 {
      assert Count(s.fired, k) + Holders(s, k) == if k < |s.requests| then 1 else 0;
      WithoutHeld(s.inflight, d, s.info, k);
      HeldConcat(Descs(s.cq), [d], s.info, k);
      HeldOne(d, s.info, k);
    }
    forall x | IsBusy(s', x) ensures Holds(s', x) {
      assert IsBusy(s, x);
      HoldsSame(s, s', x);
    }
    WithoutCount(s.inflight, d, 0);
  }

  lemma HoldsInfo(s: Ring, d: nat)
    requires Holds(s, d)
    ensures d in s.info && s.info[d].callback < |s.requests|
  {
  }

  lemma HoldsSame(s: Ring, s': Ring, d: nat)
    requires Holds(s, d) && s'.info == s.info && s'.entries == s.entries && s'.requests == s.requests
    ensures Holds(s', d)
  {
  }

  lemma {:induction false} ArriveInv(s: Ring, cqes: seq<Cqe>)
    requires Inv(s)
    ensures Inv(Arrive(s, cqes))
    decreases cqes
  {
    hide Inv;
    if cqes != [] {
      ArriveInv(s, cqes[..|cqes| - 1]);
      var s', c := Arrive(s, cqes[..|cqes| - 1]), cqes[|cqes| - 1];
      if c.desc in s'.inflight { ArriveOneInv(s', c); }
    }
  }

  /** A free descriptor is nowhere else. */
  lemma FreeIsNotBusy(s: Ring, d: nat)
    requires Inv(s) && d in s.free
    ensures !IsBusy(s, d) && d < s.max
  {
    hide Count, Descs;
    assert Places(s, d) <= 1;
    CountIn(s.free, d);
    CountIn(s.sq, d);
    CountIn(s.inflight, d);
    CountIn(Descs(s.cq), d);
  }

  lemma {:induction false} PrepareInv(s: Ring, r: Request)
    requires Inv(s) && s.free != []
    ensures Inv(Prepare(s, r))
  {
    hide Count, HeldCount, Descs;
    var d, s' := s.free[0], Prepare(s, r);
    FreeIsNotBusy(s, d);
    assert s.free == [d] + s'.free;
    forall x: nat ensures Places(s', x) == if x < s'.max then 1 else 0 {
      assert Places(s, x) == if x < s.max then 1 else 0;
      CountConcat([d], s'.free, x);
      CountConcat(s.sq, [d], x);
      CountOne(d, x);
    }
    forall k: nat ensures Count(s'.fired, k) + Holders(s', k) == if k < |s'.requests| then 1 else 0 {
      assert Count(s.fired, k) + Holders(s, k) == if k < |s.requests| then 1 else 0;
      HeldFrame(s.sq, s.info, d, s'.info[d], k);
      HeldFrame(s.inflight, s.info, d, s'.info[d], k);
      HeldFrame(Descs(s.cq), s.info, d, s'.info[d], k);
      HeldConcat(s.sq, [d], s'.info, k);
      HeldOne(d, s'.info, k);
    }
    forall x | IsBusy(s', x) ensures Holds(s', x) {
      if x != d { assert IsBusy(s, x) && Holds(s, x); }
    }
  }

  lemma {:induction false} SubmitInv(s: Ring, submitted: int)
    requires Inv(s)
    ensures Inv(Submit(s, submitted))
  {
    hide Count, HeldCount, Descs, Holds;
    var s' := Submit(s, submitted);
    if s'.sq != s.sq || s'.inflight != s.inflight || s'.pending != s.pending {
      forall x: nat ensures Places(s', x) == if x < s'.max then 1 else 0 {
        assert Places(s, x) == if x < s.max then 1 else 0;
        CountConcat(s.inflight, s.sq, x);
        CountIn([], x);
      }
      forall k: nat ensures Count(s'.fired, k) + Holders(s', k) == if k < |s'.requests| then 1 else 0 {
        assert Count(s.fired, k) + Holders(s, k) == if k < |s.requests| then 1 else 0;
        HeldConcat(s.inflight, s.sq, s.info, k);
        HeldNone(s.info, k);
      }
    } else {
      SameInv(s, s');
    }
    forall d | IsBusy(s', d) ensures Holds(s', d) {
      assert IsBusy(s, d);
      HoldsSame(s, s', d);
    }
  }

  lemma HeldNone(info: map<nat, IoInfo>, k: nat)
    ensures HeldCount([], info, k) == 0
  {
  }

  lemma SameInv(s: Ring, s': Ring)
    requires Inv(s) && s' == s.(aborted := s'.aborted)
    ensures Inv(s')
  {
    forall x: nat ensures Places(s', x) == if x < s'.max then 1 else 0 {
      assert Places(s, x) == if x < s.max then 1 else 0;
    }
    forall k: nat ensures Count(s'.fired, k) + Holders(s', k) == if k < |s'.requests| then 1 else 0 {
      assert Count(s.fired, k) + Holders(s, k) == if k < |s.requests| then 1 else 0;
    }
    forall d | IsBusy(s', d) ensures Holds(s', d) {
      assert IsBusy(s, d) && Holds(s, d);
    }
  }

  lemma {:induction false} ReapOneInv(s: Ring)
    requires Inv(s) && s.cq != []
    ensures Inv(ReapOne(s))
  {
    hide Count, HeldCount, Descs, Holds;
    var s', d := ReapOne(s), s.cq[0].desc;
    if s'.aborted != s.aborted || s'.cq == s.cq {
      SameInv(s, s');
    } else {
      DescsCons(s.cq);
      forall x: nat ensures Places(s', x) == if x < s'.max then 1 else 0 {
        assert Places(s, x) == if x < s.max then 1 else 0;
        CountConcat([d], Descs(s.cq[1..]), x);
        CountConcat(s.free, [d], x);
      }
      forall k: nat ensures Count(s'.fired, k) + Holders(s', k) == if k < |s'.requests| then 1 else 0 {
        assert Count(s.fired, k) + Holders(s, k) == if k < |s.requests| then 1 else 0;
        HeldConcat([d], Descs(s.cq[1..]), s.info, k);
        HeldOne(d, s.info, k);
        CountConcat(s.fired, [s.info[d].callback], k);
        CountOne(s.info[d].callback, k);
      }
      forall x | IsBusy(s', x) ensures Holds(s', x) {
        assert IsBusy(s, x) && Holds(s, x);
        HoldsSame(s, s', x);
      }
    }
  }

  lemma {:induction false} ReapAllInv(s: Ring)
    requires Inv(s)
    ensures Inv(ReapAll(s))
    decreases |s.cq|
  {
    hide Inv;
    if !s.aborted && s.cq != [] {
      ReapOneInv(s);
      if !ReapOne(s).aborted { ReapAllInv(ReapOne(s)); }
    }
  }

  lemma {:induction false} PollInv(s: Ring, turn: Turn)
    requires Inv(s)
    ensures Inv(Poll(s, turn))
  {
    hide Inv, ReapOne, ReapAll, Arrive;
    var s1 := Arrive(s, turn.before);
    ArriveInv(s, turn.before);
    if s1.cq != [] {
      var s2 := ReapOne(s1);
      ReapOneInv(s1);
      ArriveInv(s2, turn.during);
      var s3 := ReapAll(Arrive(s2, turn.during));
      ReapAllInv(Arrive(s2, turn.during));
      ArriveInv(s3, turn.after);
    }
  }

  lemma {:induction false} WaitInv(s: Ring, turns: seq<Turn>)
    requires Inv(s)
    ensures Inv(WaitForFree(s, turns))
    decreases turns
  {
    hide Inv, Submit, Poll;
    if s.free == [] && !s.aborted && turns != [] {
      var s' := Submit(s, turns[0].submitted);
      SubmitInv(s, turns[0].submitted);
      PollInv(s', turns[0]);
      WaitInv(Poll(s', turns[0]), turns[1..]);
    }
  }

  lemma {:induction false} DrainInv(s: Ring, turns: seq<Turn>)
    requires Inv(s)
    ensures Inv(Drain(s, turns))
    decreases turns
  {
    hide Inv, Poll;
    if |s.free| < s.max && !s.aborted && turns != [] {
      PollInv(s, turns[0]);
      DrainInv(Poll(s, turns[0]), turns[1..]);
    }
  }

  lemma {:induction false} StepInv(s: Ring, op: Op)
    requires Inv(s)
    ensures Inv(Step(s, op))
  {
    hide Inv, Prepare, Submit, Poll, WaitForFree, Drain, Arrive;
    match op {
      case DoCall(r, turns) =>
        WaitInv(s, turns);
        if WaitForFree(s, turns).free != [] { PrepareInv(WaitForFree(s, turns), r); }
      case DoSubmit(n) => SubmitInv(s, n);
      case DoPoll(turn) => PollInv(s, turn);
      case DoFlush(n, turns) =>
        SubmitInv(s, n);
        DrainInv(Submit(s, n), turns);
      case Kernel(cqes) => ArriveInv(s, cqes);
    }
  }

  lemma {:induction false} RunInv(max: nat, ops: seq<Op>)
    ensures Inv(Run(Init(max), ops))
    decreases ops
  {
    hide Inv, Step, Init;
    InitInv(max);
    if ops != [] {
      RunInv(max, ops[..|ops| - 1]);
      StepInv(Run(Init(max), ops[..|ops| - 1]), ops[|ops| - 1]);
    }
  }

  // ----- what a step cannot undo

  /** Capacity is fixed; accepted requests and run callbacks are only ever added to; an abort is final. */
  predicate Extends(s: Ring, s': Ring) {
    && s'.max == s.max && s.requests <= s'.requests && s.fired <= s'.fired
    && (s.aborted ==> s'.aborted)
  }

  lemma {:induction false} ArriveKeeps(s: Ring, cqes: seq<Cqe>)
    ensures var s' := Arrive(s, cqes);
            s' == s.(inflight := s'.inflight, cq := s'.cq)
    ensures s.cq <= Arrive(s, cqes).cq
    decreases cqes
  {
    if cqes != [] { ArriveKeeps(s, cqes[..|cqes| - 1]); }
  }

  lemma {:induction false} ReapAllKeeps(s: Ring)
    ensures var s' := ReapAll(s);
            Extends(s, s') && s'.requests == s.requests && s'.sq == s.sq && s'.pending == s.pending && |s.free| <= |s'.free|
    decreases |s.cq|
  {
    if !s.aborted && s.cq != [] && !ReapOne(s).aborted { ReapAllKeeps(ReapOne(s)); }
  }

  /** A poll never takes descriptors away, and one that sees a completion frees at least one. */
  lemma {:induction false} PollKeeps(s: Ring, turn: Turn)
    ensures var s' := Poll(s, turn);
            && Extends(s, s') && s'.requests == s.requests && s'.sq == s.sq && s'.pending == s.pending
            && |s.free| <= |s'.free|
            && (!s'.aborted && Delivers(s, turn) ==> |s.free| < |s'.free|)
  {
    hide Arrive, ReapAll;
    var s1 := Arrive(s, turn.before);
    ArriveKeeps(s, turn.before);
    if !s.aborted && s1.cq != [] {
      var s2 := ReapOne(s1);
      ArriveKeeps(s2, turn.during);
      ReapAllKeeps(Arrive(s2, turn.during));
      ArriveKeeps(ReapAll(Arrive(s2, turn.during)), turn.after);
    }
  }

  lemma {:induction false} WaitKeeps(s: Ring, turns: seq<Turn>)
    ensures var s' := WaitForFree(s, turns); Extends(s, s') && s'.requests == s.requests
    decreases turns
  {
    hide Poll;
    if s.free == [] && !s.aborted && turns != [] {
      PollKeeps(Submit(s, turns[0].submitted), turns[0]);
      WaitKeeps(Poll(Submit(s, turns[0].submitted), turns[0]), turns[1..]);
    }
  }

  lemma {:induction false} DrainKeeps(s: Ring, turns: seq<Turn>)
    ensures var s' := Drain(s, turns); Extends(s, s') && s'.requests == s.requests
    decreases turns
  {
    hide Poll;
    if |s.free| < s.max && !s.aborted && turns != [] {
      PollKeeps(s, turns[0]);
      DrainKeeps(Poll(s, turns[0]), turns[1..]);
    }
  }

  lemma {:induction false} StepExtends(s: Ring, op: Op)
    ensures Extends(s, Step(s, op))
  {
    hide Poll, WaitForFree, Drain, Arrive;
    match op {
      case DoCall(r, turns) => WaitKeeps(s, turns);
      case DoSubmit(n) =>
      case DoPoll(turn) => PollKeeps(s, turn);
      case DoFlush(n, turns) => DrainKeeps(Submit(s, n), turns);
      case Kernel(cqes) => ArriveKeeps(s, cqes);
    }
  }

  lemma {:induction false} RunExtends(max: nat, ops: seq<Op>)
    ensures Extends(Init(max), Run(Init(max), ops))
    decreases ops
  {
    hide Step, Init;
    if ops != [] {
      RunExtends(max, ops[..|ops| - 1]);
      StepExtends(Run(Init(max), ops[..|ops| - 1]), ops[|ops| - 1]);
    }
  }

  // ----- a busy descriptor keeps its request until the callback has run

  ghost predicate HeldUntilRun(s: Ring, s': Ring) {
    forall d :: IsBusy(s, d) && d in s.info ==>
      || s.info[d].callback in s'.fired
      || (IsBusy(s', d) && d in s'.info && s'.info[d] == s.info[d] && SameEntry(s, s', d))
  }

  predicate SameEntry(s: Ring, s': Ring, d: nat) {
    d in s.entries ==> d in s'.entries && s'.entries[d] == s.entries[d]
  }

  lemma HeldThrough(s: Ring, s': Ring, s'': Ring)
    requires HeldUntilRun(s, s') && HeldUntilRun(s', s'') && s'.fired <= s''.fired
    ensures HeldUntilRun(s, s'')
  {
    forall d | IsBusy(s, d) && d in s.info && s.info[d].callback !in s''.fired
      ensures IsBusy(s'', d) && d in s''.info && s''.info[d] == s.info[d] && SameEntry(s, s'', d)
    {
      if s.info[d].callback in s'.fired {
        PrefixIn(s'.fired, s''.fired, s.info[d].callback);
      }
    }
  }

  lemma PrefixIn(a: seq<nat>, b: seq<nat>, x: nat)
    requires a <= b && x in a
    ensures x in b
  {
    var i :| 0 <= i < |a| && a[i] == x;
    assert b[i] == x;
  }

  lemma HeldSame(s: Ring)
    ensures HeldUntilRun(s, s)
  {
  }

  lemma {:induction false} WithoutOthers(ds: seq<nat>, d: nat, x: nat)
    requires x in ds && x != d
    ensures x in Without(ds, d)
    decreases ds
  {
    var init, last := ds[..|ds| - 1], ds[|ds| - 1];
    assert ds == init + [last];
    if last != d && x != last { WithoutOthers(init, d, x); }
  }

  lemma {:induction false} ArriveHolds(s: Ring, cqes: seq<Cqe>)
    ensures HeldUntilRun(s, Arrive(s, cqes))
    decreases cqes
  {
    hide Descs, Without;
    if cqes != [] {
      var init, c := cqes[..|cqes| - 1], cqes[|cqes| - 1];
      var s' := Arrive(s, init);
      ArriveHolds(s, init);
      ArriveKeeps(s, init);
      if c.desc in s'.inflight {
        DescsSnoc(s'.cq, c);
        forall d | IsBusy(s', d) ensures IsBusy(Arrive(s, cqes), d) {
          if d in s'.inflight && d != c.desc { WithoutOthers(s'.inflight, c.desc, d); }
        }
      }
    }
  }

  lemma SubmitHolds(s: Ring, n: int)
    ensures HeldUntilRun(s, Submit(s, n))
  {
  }

  lemma ReapOneHolds(s: Ring)
    requires s.cq != []
    ensures HeldUntilRun(s, ReapOne(s))
  {
    hide Descs;
    DescsCons(s.cq);
  }

  lemma {:induction false} ReapAllHolds(s: Ring)
    ensures HeldUntilRun(s, ReapAll(s))
    decreases |s.cq|
  {
    hide HeldUntilRun;
    HeldSame(s);
    if !s.aborted && s.cq != [] {
      ReapOneHolds(s);
      if !ReapOne(s).aborted {
        ReapAllHolds(ReapOne(s));
        ReapAllKeeps(ReapOne(s));
        HeldThrough(s, ReapOne(s), ReapAll(s));
      }
    }
  }

  lemma {:induction false} PollHolds(s: Ring, turn: Turn)
    ensures HeldUntilRun(s, Poll(s, turn))
  {
    hide HeldUntilRun, Arrive, ReapAll;
    HeldSame(s);
    var s1 := Arrive(s, turn.before);
    ArriveHolds(s, turn.before);
    ArriveKeeps(s, turn.before);
    if !s.aborted && s1.cq != [] {
      var s2 := ReapOne(s1);
      ReapOneHolds(s1);
      HeldThrough(s, s1, s2);
      if !s2.aborted {
        var s3 := Arrive(s2, turn.during);
        ArriveHolds(s2, turn.during);
        ArriveKeeps(s2, turn.during);
        HeldThrough(s, s2, s3);
        ReapAllHolds(s3);
        ReapAllKeeps(s3);
        HeldThrough(s, s3, ReapAll(s3));
        ArriveHolds(ReapAll(s3), turn.after);
        ArriveKeeps(ReapAll(s3), turn.after);
        HeldThrough(s, ReapAll(s3), Arrive(ReapAll(s3), turn.after));
      }
    }
  }

  lemma {:induction false} WaitHolds(s: Ring, turns: seq<Turn>)
    ensures HeldUntilRun(s, WaitForFree(s, turns))
    decreases turns
  {
    hide HeldUntilRun, Poll;
    HeldSame(s);
    if s.free == [] && !s.aborted && turns != [] {
      var s1 := Submit(s, turns[0].submitted);
      var s2 := Poll(s1, turns[0]);
      SubmitHolds(s, turns[0].submitted);
      PollHolds(s1, turns[0]);
      PollKeeps(s1, turns[0]);
      HeldThrough(s, s1, s2);
      WaitHolds(s2, turns[1..]);
      WaitKeeps(s2, turns[1..]);
      HeldThrough(s, s2, WaitForFree(s2, turns[1..]));
    }
  }

  lemma {:induction false} DrainHolds(s: Ring, turns: seq<Turn>)
    ensures HeldUntilRun(s, Drain(s, turns))
    decreases turns
  {
    hide HeldUntilRun, Poll;
    HeldSame(s);
    if |s.free| < s.max && !s.aborted && turns != [] {
      var s1 := Poll(s, turns[0]);
      PollHolds(s, turns[0]);
      PollKeeps(s, turns[0]);
      DrainHolds(s1, turns[1..]);
      DrainKeeps(s1, turns[1..]);
      HeldThrough(s, s1, Drain(s1, turns[1..]));
    }
  }

  lemma PrepareHolds(s: Ring, r: Request)
    requires Inv(s) && s.free != []
    ensures HeldUntilRun(s, Prepare(s, r))
  {
    hide Inv, Descs;
    FreeIsNotBusy(s, s.free[0]);
  }

  lemma {:induction false} StepHolds(s: Ring, op: Op)
    requires Inv(s)
    ensures HeldUntilRun(s, Step(s, op))
  {
    hide Inv, HeldUntilRun, Poll, WaitForFree, Drain, Arrive;
    HeldSame(s);
    match op {
      case DoCall(r, turns) =>
        var s1 := WaitForFree(s, turns);
        WaitHolds(s, turns);
        WaitInv(s, turns);
        if s1.free != [] {
          PrepareHolds(s1, r);
          HeldThrough(s, s1, Prepare(s1, r));
        }
      case DoSubmit(n) => SubmitHolds(s, n);
      case DoPoll(turn) => PollHolds(s, turn);
      case DoFlush(n, turns) =>
        SubmitHolds(s, n);
        DrainHolds(Submit(s, n), turns);
        DrainKeeps(Submit(s, n), turns);
        HeldThrough(s, Submit(s, n), Flush(s, n, turns));
      case Kernel(cqes) => ArriveHolds(s, cqes);
    }
  }

  /**
    Between any two points of any run, a descriptor that was busy still holds the same request, or that
    request's callback has run.
   */
  lemma {:induction false} RunHolds(max: nat, ops: seq<Op>, k: nat)
    requires k <= |ops|
    ensures HeldUntilRun(Run(Init(max), ops[..k]), Run(Init(max), ops))
    decreases |ops|
  {
    hide HeldUntilRun, Step, Init, Inv, Extends;
    if k == |ops| {
      assert ops[..k] == ops;
      HeldSame(Run(Init(max), ops));
    } else {
      var init := ops[..|ops| - 1];
      RunHolds(max, init, k);
      assert init[..k] == ops[..k];
      RunInv(max, init);
      StepHolds(Run(Init(max), init), ops[|ops| - 1]);
      StepExtends(Run(Init(max), init), ops[|ops| - 1]);
      ExtendsFired(Run(Init(max), init), Run(Init(max), ops));
      HeldThrough(Run(Init(max), ops[..k]), Run(Init(max), init), Run(Init(max), ops));
    }
  }

  lemma ExtendsFired(s: Ring, s': Ring)
    requires Extends(s, s')
    ensures s.fired <= s'.fired
  {
  }

  // ----- what that means

  /**
    In every run: each descriptor is in exactly one of the four places; each accepted request's
    callback has run at most once, and has not run exactly when one busy descriptor still holds it;
    busy descriptors keep what their request put there; prepared entries are counted and leave a
    submission slot whenever a descriptor is free.
   */
  lemma {:induction false} ExactlyOnce(max: nat, ops: seq<Op>)
    ensures var s := Run(Init(max), ops);
            && s.max == max
            && (forall d: nat :: Places(s, d) == if d < max then 1 else 0)
            && (forall k: nat :: Count(s.fired, k) + Holders(s, k) == if k < |s.requests| then 1 else 0)
            && (forall d :: IsBusy(s, d) ==> Holds(s, d))
            && s.pending == |s.sq| <= max
            && (s.free != [] ==> |s.sq| < max)
  {
    hide Step, Places, Holders, Count, IsBusy, Holds;
    RunInv(max, ops);
    RunExtends(max, ops);
  }

  // ----- draining

  /** The poll finds a completion, old or new. */
  predicate Delivers(s: Ring, turn: Turn) {
    Arrive(s, turn.before).cq != []
  }

  /** Every visit made while work is outstanding finds one. */
  predicate AllDeliver(s: Ring, turns: seq<Turn>)
    decreases turns
  {
    turns == [] || |s.free| >= s.max || s.aborted ||
    (Delivers(s, turns[0]) && AllDeliver(Poll(s, turns[0]), turns[1..]))
  }

  /**
    Once everything is submitted, whatever is outstanding is with the kernel or already completed: no visit
    is in vain for good.
   */
  lemma {:induction false} NotStuck(s: Ring)
    requires Inv(s) && s.sq == [] && |s.free| < s.max
    ensures exists turn :: Delivers(s, turn)
  {
    var d := if s.inflight == [] then 0 else s.inflight[0];
    var turn := Turn(0, [Cqe(d, true)], [], []);
    ArriveKeeps(s, turn.before);
    assert turn.before[..0] == [];
    assert s.cq != [] || s.inflight != [];
    assert Delivers(s, turn);
  }

  /** Outstanding work is a measure of the loop: as many delivering visits as there is work empty it. */
  lemma {:induction false} DrainEnds(s: Ring, turns: seq<Turn>)
    requires AllDeliver(s, turns) && |turns| + |s.free| >= s.max
    ensures var s' := Drain(s, turns); s'.aborted || |s'.free| >= s'.max
    decreases turns
  {
    hide Poll, Delivers;
    if |s.free| < s.max && !s.aborted {
      PollKeeps(s, turns[0]);
      if !Poll(s, turns[0]).aborted { DrainEnds(Poll(s, turns[0]), turns[1..]); }
    }
  }

  /** As above for the wait before a new request, which submits before every poll. */
  predicate AllDeliverWaiting(s: Ring, turns: seq<Turn>)
    decreases turns
  {
    turns == [] || s.free != [] || s.aborted ||
    (Delivers(Submit(s, turns[0].submitted), turns[0]) &&
     AllDeliverWaiting(Poll(Submit(s, turns[0].submitted), turns[0]), turns[1..]))
  }

  /** One delivering visit is enough to accept the next request. */
  lemma WaitEnds(s: Ring, turns: seq<Turn>)
    requires AllDeliverWaiting(s, turns) && turns != []
    ensures var s' := WaitForFree(s, turns); s'.aborted || s'.free != []
  {
    hide Poll, Delivers;
    PollKeeps(Submit(s, turns[0].submitted), turns[0]);
  }

  /**
    A flush that returns without a failure has run every accepted request's callback exactly once,
    and left every descriptor free; it accepts no request of its own.
   */
  lemma {:induction false} FlushCompletes(max: nat, ops: seq<Op>, n: int, turns: seq<Turn>)
    ensures var s := Run(Init(max), ops);
            var s' := Flush(s, n, turns);
            && s'.requests == s.requests
            && (!s'.aborted && |s'.free| >= s'.max ==>
                  && s'.sq == [] && s'.inflight == [] && s'.cq == []
                  && forall k: nat :: Count(s'.fired, k) == if k < |s.requests| then 1 else 0)
  {
    var s := Run(Init(max), ops);
    var s' := Flush(s, n, turns);
    assert Inv(s') by {
      hide *;
      RunInv(max, ops);
      FlushInv(s, n, turns);
    }
    assert s'.requests == s.requests by { DrainKeeps(Submit(s, n), turns); }
    if !s'.aborted && |s'.free| >= s'.max {
      forall k: nat ensures Count(s'.fired, k) == if k < |s.requests| then 1 else 0 {
        assert Count(s'.fired, k) + Holders(s', k) == if k < |s'.requests| then 1 else 0;
        assert Descs(s'.cq) == [];
      }
    }
  }

  lemma FlushInv(s: Ring, n: int, turns: seq<Turn>)
    requires Inv(s)
    ensures Inv(Flush(s, n, turns))
  {
    hide Inv, Drain, Submit;
    SubmitInv(s, n);
    DrainInv(Submit(s, n), turns);
  }

  // ----- what the calls ask for is what is done

  predicate Accepts(s: Ring, turns: seq<Turn>) {
    !s.aborted && var s' := WaitForFree(s, turns); !s'.aborted && s'.free != []
  }

  /** An accepted call is recorded as made, and prepares an entry that serves it under its own callback. */
  lemma {:induction false} CallRecords(s: Ring, r: Request, turns: seq<Turn>)
    requires !s.aborted
    ensures var s' := Call(s, r, turns);
            if Accepts(s, turns)
            then
              && s'.requests == s.requests + [r] && s'.sq != []
              && var d := s'.sq[|s'.sq| - 1];
              && Serves(s', d, r) && s'.info[d].callback == |s.requests|
            else s'.requests == s.requests
  {
    hide WaitForFree;
    WaitKeeps(s, turns);
  }

  /** The requests of the calls of a run that were accepted, in order. */
  function Accepted(max: nat, ops: seq<Op>): seq<Request>
    decreases ops
  {
    if ops == [] then []
    else
      var init, last := ops[..|ops| - 1], ops[|ops| - 1];
      Accepted(max, init) + if last.DoCall? && Accepts(Run(Init(max), init), last.turns) then [last.r] else []
  }

  /** In every run, the requests recorded are those of the accepted calls, in order. */
  lemma {:induction false} RunRequests(max: nat, ops: seq<Op>)
    ensures Run(Init(max), ops).requests == Accepted(max, ops)
    decreases ops
  {
    hide Accepts, Call, Flush, Poll, Submit, Arrive;
    if ops != [] {
      var init, last := ops[..|ops| - 1], ops[|ops| - 1];
      var s := Run(Init(max), init);
      RunRequests(max, init);
      match last {
        case DoCall(r, turns) =>
          if s.aborted { AbortedAccepts(s, turns); } else { CallRecords(s, r, turns); }
        case DoSubmit(n) => SubmitLaws(s, n);
        case DoPoll(turn) => PollKeeps(s, turn);
        case DoFlush(n, turns) => FlushKeeps(s, n, turns);
        case Kernel(cqes) => ArriveKeeps(s, cqes);
      }
    }
  }

  lemma AbortedAccepts(s: Ring, turns: seq<Turn>)
    requires s.aborted
    ensures !Accepts(s, turns)
  {
  }

  lemma FlushKeeps(s: Ring, n: int, turns: seq<Turn>)
    ensures Flush(s, n, turns).requests == s.requests
  {
    DrainKeeps(Submit(s, n), turns);
  }

  /** A submission ends the process exactly when the kernel did not take what was prepared; otherwise it takes all of it. */
  lemma SubmitLaws(s: Ring, n: int)
    ensures Submit(s, n).requests == s.requests
    ensures !s.aborted ==>
              var s' := Submit(s, n);
              && (s'.aborted <==> n != s.pending)
              && s' == if s'.aborted then s.(aborted := true)
                       else s.(pending := 0, sq := [], inflight := s.inflight + s.sq)
  {
  }

  ghost predicate AllOk(cqes: seq<Cqe>) {
    forall i :: 0 <= i < |cqes| ==> cqes[i].ok
  }

  /** The callbacks of some completions, in order. */
  function Callbacks(cqes: seq<Cqe>, info: map<nat, IoInfo>): seq<nat>
    decreases |cqes|
  {
    if cqes == [] then []
    else [if cqes[0].desc in info then info[cqes[0].desc].callback else 0] + Callbacks(cqes[1..], info)
  }

  ghost predicate Known(cqes: seq<Cqe>, info: map<nat, IoInfo>) {
    forall i :: 0 <= i < |cqes| ==> cqes[i].desc in info
  }

  lemma CompletedKnown(s: Ring)
    requires Inv(s)
    ensures Known(s.cq, s.info)
  {
    forall i | 0 <= i < |s.cq| ensures s.cq[i].desc in s.info {
      assert Descs(s.cq)[i] == s.cq[i].desc;
      assert IsBusy(s, s.cq[i].desc);
    }
  }

  /** Reaping runs the callbacks of all completions, in order, and ends the process exactly when one has failed. */
  lemma {:induction false} ReapAllLaws(s: Ring)
    requires !s.aborted && Known(s.cq, s.info)
    ensures var s' := ReapAll(s);
            && (s'.aborted <==> !AllOk(s.cq))
            && (!s'.aborted ==> s'.fired == s.fired + Callbacks(s.cq, s.info) && s'.cq == [])
    decreases |s.cq|
  {
    if s.cq != [] && s.cq[0].ok {
      var s1 := ReapOne(s);
      assert forall i :: 0 <= i < |s1.cq| ==> s1.cq[i] == s.cq[i + 1];
      assert forall i :: 0 < i < |s.cq| ==> s.cq[i] == s1.cq[i - 1];
      ReapAllLaws(s1);
      assert s.fired + [s.info[s.cq[0].desc].callback] + Callbacks(s1.cq, s.info) == s.fired + Callbacks(s.cq, s.info);
    }
  }

  /**
    A poll that finds nothing only lets completions arrive.  One that finds something runs the callbacks of
    the first completion and of all there are after it, in order, and ends the process exactly when one of
    them has failed.
   */
  lemma {:induction false} PollLaws(s: Ring, turn: Turn)
    requires Inv(s) && !s.aborted
    ensures var s1, s' := Arrive(s, turn.before), Poll(s, turn);
            if s1.cq == [] then s' == s1 && !s'.aborted
            else
              var rest := Arrive(ReapOne(s1), turn.during).cq;
              && (s'.aborted <==> !s1.cq[0].ok || !AllOk(rest))
              && (!s'.aborted ==> s'.fired == s.fired + Callbacks([s1.cq[0]] + rest, s.info))
  {
    hide Inv, Arrive, ReapAll, AllOk, Known;
    var s1 := Arrive(s, turn.before);
    ArriveKeeps(s, turn.before);
    ArriveInv(s, turn.before);
    if s1.cq != [] {
      var s2 := ReapOne(s1);
      CompletedKnown(s1);
      FirstKnown(s1);
      ReapOneInv(s1);
      ArriveInv(s2, turn.during);
      var s3 := Arrive(s2, turn.during);
      ArriveKeeps(s2, turn.during);
      CompletedKnown(s3);
      if !s2.aborted {
        ReapAllLaws(s3);
        ArriveKeeps(ReapAll(s3), turn.after);
        assert ([s1.cq[0]] + s3.cq)[1..] == s3.cq;
        assert s.fired + [s.info[s1.cq[0].desc].callback] + Callbacks(s3.cq, s.info)
            == s.fired + Callbacks([s1.cq[0]] + s3.cq, s.info);
      }
    }
  }

  lemma FirstKnown(s: Ring)
    requires s.cq != [] && Known(s.cq, s.info)
    ensures s.cq[0].desc in s.info
  {
  }

  // ----- a kernel that does its part is never waited for in vain

  lemma {:induction false} ArriveOk(s: Ring, cqes: seq<Cqe>)
    requires AllOk(s.cq) && AllOk(cqes)
    ensures AllOk(Arrive(s, cqes).cq)
    decreases cqes
  {
    if cqes != [] { ArriveOk(s, cqes[..|cqes| - 1]); }
  }

  /** The visit of a kernel that takes everything and completes one request, if it holds any. */
  function GoodTurn(s: Ring): Turn {
    Turn(s.pending, if s.inflight + s.sq == [] then [] else [Cqe((s.inflight + s.sq)[0], true)], [], [])
  }

  lemma {:induction false} GoodPoll(s: Ring, turn: Turn)
    requires Inv(s) && !s.aborted && AllOk(s.cq) && s.sq == [] && |s.free| < s.max
    requires turn.before == GoodTurn(s).before && turn.during == [] && turn.after == []
    ensures Delivers(s, turn)
    ensures var s' := Poll(s, turn); !s'.aborted && AllOk(s'.cq) && s'.sq == [] && |s.free| < |s'.free|
  {
    hide AllOk, Known;
    assert s.inflight + s.sq == s.inflight;
    GoodDelivers(s, turn);
    hide Inv, Arrive, Poll, Delivers;
    var s1 := Arrive(s, turn.before);
    NoneOk(turn.before);
    ArriveOk(s, turn.before);
    PollKeeps(s, turn);
    PollLaws(s, turn);
    GoodRest(s, turn);
  }

  lemma GoodDelivers(s: Ring, turn: Turn)
    requires Inv(s) && s.sq == [] && |s.free| < s.max
    requires turn.before == if s.inflight == [] then [] else [Cqe(s.inflight[0], true)]
    ensures Delivers(s, turn) && Arrive(s, turn.before).cq != []
  {
    ArriveKeeps(s, turn.before);
    assert s.cq != [] || s.inflight != [];
    if s.inflight != [] {
      assert turn.before[..0] == [];
    }
  }

  lemma NoneOk(cqes: seq<Cqe>)
    requires cqes == [] || (|cqes| == 1 && cqes[0].ok)
    ensures AllOk(cqes)
  {
  }

  /** With nothing arriving later, what is left to reap was there, and nothing is left afterwards. */
  lemma GoodRest(s: Ring, turn: Turn)
    requires Inv(s) && !s.aborted && turn.during == [] && turn.after == []
    requires Arrive(s, turn.before).cq != [] && AllOk(Arrive(s, turn.before).cq)
    ensures var s1 := Arrive(s, turn.before);
            && s1.cq[0].ok && AllOk(Arrive(ReapOne(s1), turn.during).cq)
            && AllOk(Poll(s, turn).cq)
  {
    hide Inv, Known;
    var s1 := Arrive(s, turn.before);
    var s2 := ReapOne(s1);
    ArriveInv(s, turn.before);
    ArriveKeeps(s, turn.before);
    CompletedKnown(s1);
    FirstKnown(s1);
    assert Arrive(s2, []) == s2;
    ReapOneInv(s1);
    CompletedKnown(s2);
    assert forall i :: 0 <= i < |s2.cq| ==> s2.cq[i] == s1.cq[i + 1];
    ReapAllLaws(s2);
    assert Arrive(ReapAll(s2), []) == ReapAll(s2);
  }

  /** Once all is submitted and nothing has failed, the kernel can always let a drain finish. */
  lemma {:induction false} CanDrain(s: Ring) returns (turns: seq<Turn>)
    requires Inv(s) && !s.aborted && AllOk(s.cq) && s.sq == []
    ensures var s' := Drain(s, turns); !s'.aborted && |s'.free| >= s'.max
    decreases s.max - |s.free|
  {
    hide Inv, AllOk, Poll;
    turns := [];
    if |s.free| < s.max {
      var turn := GoodTurn(s);
      GoodPoll(s, turn);
      PollInv(s, turn);
      PollKeeps(s, turn);
      FreeBound(Poll(s, turn));
      var rest := CanDrain(Poll(s, turn));
      turns := [turn] + rest;
      assert turns[1..] == rest;
    }
  }

  lemma FreeBound(s: Ring)
    requires Inv(s)
    ensures |s.free| <= s.max
  {
  }

  /** After every run without a failure, the kernel can let a flush finish. */
  lemma {:induction false} FlushCanFinish(max: nat, ops: seq<Op>)
    requires var s := Run(Init(max), ops); !s.aborted && AllOk(s.cq)
    ensures var s := Run(Init(max), ops);
            exists turns: seq<Turn> :: Finished(Flush(s, s.pending, turns))
  {
    hide Inv, AllOk, Run, Init, Drain;
    var s := Run(Init(max), ops);
    RunInv(max, ops);
    SubmitInv(s, s.pending);
    SubmitLaws(s, s.pending);
    var turns := CanDrain(Submit(s, s.pending));
    assert Finished(Flush(s, s.pending, turns));
  }

  predicate Finished(s: Ring) { !s.aborted && |s.free| >= s.max }

  /** And let the next request be accepted, if there is any descriptor at all. */
  lemma {:induction false} CallCanBeAccepted(max: nat, ops: seq<Op>)
    requires max > 0 && var s := Run(Init(max), ops); !s.aborted && AllOk(s.cq)
    ensures exists turns: seq<Turn> :: Accepts(Run(Init(max), ops), turns)
  {
    hide Inv, AllOk, Run, Init, Poll;
    var s := Run(Init(max), ops);
    RunInv(max, ops);
    RunMax(max, ops);
    if s.free != [] {
      assert Accepts(s, []);
    } else {
      var turn := GoodTurn(s);
      var s1 := Submit(s, turn.submitted);
      SubmitInv(s, s.pending);
      SubmitLaws(s, s.pending);
      assert s1.inflight + s1.sq == s.inflight + s.sq;
      GoodPoll(s1, turn);
      assert [turn][1..] == [];
      assert WaitForFree(s, [turn]) == Poll(s1, turn);
      assert Accepts(s, [turn]);
    }
  }

  lemma RunMax(max: nat, ops: seq<Op>)
    ensures Run(Init(max), ops).max == max
  {
    RunExtends(max, ops);
  }
}
