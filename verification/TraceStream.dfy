/**
  The trace writer's packet stream (tools/tracing/TimelineParser/trace_generator.py):
  what the track calls encode to, and what a reader that only sees the packets decodes.
 */
module TraceStream {
  import opened Basics

  /** A call on the generator or on one of its tracks. */
  datatype Call =
    | Create(uuid: nat, parent: nat, name: string)
    | Open(uuid: nat, ts: nat, name: string, flow: seq<nat>)
    | Close(uuid: nat, ts: nat, flow: seq<nat>)
    | Instant(uuid: nat, ts: nat, name: string, flow: seq<nat>)
    | Sample(uuid: nat, ts: nat, value: int)

  /** An entry of a packet's interned_data.event_names. */
  datatype Definition = Definition(iid: nat, name: string)

  datatype Packet =
    | Clocks
    | TraceConfig
    | Defaults                // starts the sequence: the reader forgets all interned names
    | Descriptor(uuid: nat, parent: nat, name: string)
    | SliceBegin(uuid: nat, ts: nat, nameIid: nat, defs: seq<Definition>, flow: seq<nat>)
    | SliceEnd(uuid: nat, ts: nat, flow: seq<nat>)
    | InstantEvent(uuid: nat, ts: nat, name: string, flow: seq<nat>)
    | CounterEvent(uuid: nat, ts: nat, value: int)

  // ----- writing

  /** The generator's state as far as it decides packets: the next uuid and the interned names. */
  datatype Writer = Writer(uuid: nat, interned: map<string, nat>)

  const FIRST_UUID: nat := 1234567

  const Preamble: seq<Packet> := [Clocks, TraceConfig, Defaults]

  /** _get_iid_for: the id of a name and the definition to add to the packet, if it is new. */
  function Intern(interned: map<string, nat>, name: string): (nat, seq<Definition>) {
    if name in interned then (interned[name], [])
    else (|interned| + 1, [Definition(|interned| + 1, name)])
  }

  function After(w: Writer, c: Call): Writer {
    match c
    case Create(_, _, _) => w.(uuid := w.uuid + 1)
    case Open(_, _, name, _) => w.(interned := w.interned[name := Intern(w.interned, name).0])
    case _ => w
  }

  function Emit(w: Writer, c: Call): Packet {
    match c
    case Create(uuid, parent, name) => Descriptor(uuid, parent, name)
    case Open(uuid, ts, name, flow) =>
      SliceBegin(uuid, ts, Intern(w.interned, name).0, Intern(w.interned, name).1, flow)
    case Close(uuid, ts, flow) => SliceEnd(uuid, ts, flow)
    case Instant(uuid, ts, name, flow) => InstantEvent(uuid, ts, name, flow)
    case Sample(uuid, ts, value) => CounterEvent(uuid, ts, value)
  }

  function WriterAfter(calls: seq<Call>): Writer
    decreases calls
  {
    if calls == [] then Writer(FIRST_UUID, map[])
    else After(WriterAfter(calls[..|calls| - 1]), calls[|calls| - 1])
  }

  /** All packets written for some calls, whatever was flushed when. */
  function Stream(calls: seq<Call>): seq<Packet>
    decreases calls
  {
    if calls == [] then Preamble
    else Stream(calls[..|calls| - 1]) + [Emit(WriterAfter(calls[..|calls| - 1]), calls[|calls| - 1])]
  }

  /** Tracks get the uuids in the order they are created. */
  predicate Numbered(calls: seq<Call>)
    decreases calls
  {
    calls == [] ||
    (Numbered(calls[..|calls| - 1]) &&
     (calls[|calls| - 1].Create? ==> calls[|calls| - 1].uuid == WriterAfter(calls[..|calls| - 1]).uuid))
  }

  // ----- reading

  function Define(names: map<nat, string>, defs: seq<Definition>): map<nat, string>
    decreases defs
  {
    if defs == [] then names
    else Define(names, defs[..|defs| - 1])[defs[|defs| - 1].iid := defs[|defs| - 1].name]
  }

  /** The names a reader knows after some packets. */
  function Known(ps: seq<Packet>): map<nat, string>
    decreases ps
  {
    if ps == [] then map[]
    else
      match ps[|ps| - 1]
      case Defaults => map[]
      case SliceBegin(_, _, _, defs, _) => Define(Known(ps[..|ps| - 1]), defs)
      case _ => Known(ps[..|ps| - 1])
  }

  /** What a reader that knows some names makes of a packet; None when it uses an id that is not known. */
  function Read(known: map<nat, string>, p: Packet): Option<seq<Call>> {
    match p
    case Descriptor(uuid, parent, name) => Some([Create(uuid, parent, name)])
    case SliceBegin(uuid, ts, iid, defs, flow) =>
      if iid in known then Some([Open(uuid, ts, known[iid], flow)]) else None
    case SliceEnd(uuid, ts, flow) => Some([Close(uuid, ts, flow)])
    case InstantEvent(uuid, ts, name, flow) => Some([Instant(uuid, ts, name, flow)])
    case CounterEvent(uuid, ts, value) => Some([Sample(uuid, ts, value)])
    case _ => Some([])
  }

  /** The calls a reader recovers. */
  function Decode(ps: seq<Packet>): Option<seq<Call>>
    decreases ps
  {
    if ps == [] then Some([])
    else
      match (Decode(ps[..|ps| - 1]), Read(Known(ps), ps[|ps| - 1]))
      case (Some(calls), Some(more)) => Some(calls + more)
      case _ => None
  }

  /** All definitions of a stream, in order. */
  function Definitions(ps: seq<Packet>): seq<Definition>
    decreases ps
  {
    if ps == [] then []
    else Definitions(ps[..|ps| - 1]) + if ps[|ps| - 1].SliceBegin? then ps[|ps| - 1].defs else []
  }

  // ----- the table and the reader agree

  /** The writer's table and the reader's are inverse to each other, over the ids 1 to their number. */
  ghost predicate Agree(interned: map<string, nat>, known: map<nat, string>) {
    && |known| == |interned|
    && (forall i :: i in known <==> 1 <= i <= |interned|)
    && (forall n :: n in interned ==> interned[n] in known && known[interned[n]] == n)
    && (forall i :: i in known ==> known[i] in interned && interned[known[i]] == i)
  }

  lemma {:induction false} StreamAgrees(calls: seq<Call>)
    ensures Agree(WriterAfter(calls).interned, Known(Stream(calls)))
    decreases calls
  {
    hide Decode, Known, Define, Agree;
    if calls == [] {
      PreambleRead();
      NothingAgrees();
    } else {
      var init, last := calls[..|calls| - 1], calls[|calls| - 1];
      StreamAgrees(init);
      var w, p := WriterAfter(init), Emit(WriterAfter(init), last);
      assert Stream(calls) == Stream(init) + [p];
      DecodeSnoc(Stream(init), p);
      if last.Open? {
        InternAgrees(w.interned, Known(Stream(init)), last.name);
      }
    }
  }

  lemma NothingAgrees()
    ensures Agree(map[], map[])
  {
  }

  /** What one more packet does to a reader. */
  lemma DecodeSnoc(ps: seq<Packet>, p: Packet)
    ensures Known(ps + [p]) == if p.Defaults? then map[]
                               else if p.SliceBegin? then Define(Known(ps), p.defs)
                               else Known(ps)
    ensures Decode(ps).Some? && Read(Known(ps + [p]), p).Some? ==>
              Decode(ps + [p]) == Some(Decode(ps).value + Read(Known(ps + [p]), p).value)
    ensures Definitions(ps + [p]) == Definitions(ps) + if p.SliceBegin? then p.defs else []
  {
    assert (ps + [p])[..|ps|] == ps;
  }

  lemma PreambleRead()
    ensures Known(Preamble) == map[] && Decode(Preamble) == Some([]) && Definitions(Preamble) == []
  {
    var one: seq<Packet> := [Clocks];
    var two: seq<Packet> := [Clocks, TraceConfig];
    DecodeSnoc([], Clocks);
    assert [] + [Clocks] == one;
    DecodeSnoc(one, TraceConfig);
    assert one + [TraceConfig] == two;
    DecodeSnoc(two, Defaults);
    assert two + [Defaults] == Preamble;
  }

  lemma {:induction false} InternAgrees(interned: map<string, nat>, known: map<nat, string>, name: string)
    requires Agree(interned, known)
    ensures var (iid, defs) := Intern(interned, name);
            && Agree(interned[name := iid], Define(known, defs))
            && iid in Define(known, defs) && Define(known, defs)[iid] == name
            && (forall i :: i in known ==> i in Define(known, defs) && Define(known, defs)[i] == known[i])
  {
    var (iid, defs) := Intern(interned, name);
    if name in interned {
      assert interned[name := iid] == interned;
    } else {
      assert defs[..0] == [];
      assert Define(known, defs) == known[iid := name];
      assert iid !in known;
    }
  }

  /** A reader of the whole stream recovers exactly the calls that were made, in order and by name. */
  lemma {:induction false} DecodesToCalls(calls: seq<Call>)
    ensures Decode(Stream(calls)) == Some(calls)
    decreases calls
  {
    hide Decode, Known, Define, Agree, Intern;
    if calls == [] {
      PreambleRead();
    } else {
      var init, last := calls[..|calls| - 1], calls[|calls| - 1];
      DecodesToCalls(init);
      StreamAgrees(init);
      assert calls == init + [last];
      var p := Emit(WriterAfter(init), last);
      assert Stream(calls) == Stream(init) + [p];
      DecodeSnoc(Stream(init), p);
      if last.Open? {
        InternAgrees(WriterAfter(init).interned, Known(Stream(init)), last.name);
      }
    }
  }

  lemma {:induction false} StreamLength(calls: seq<Call>)
    ensures |Stream(calls)| == |calls| + 3
    decreases calls
  {
    if calls != [] { StreamLength(calls[..|calls| - 1]); }
  }

  /** Cutting the stream after a packet is cutting the calls: what has been flushed decodes to the calls flushed. */
  lemma {:induction false} PrefixOfStream(calls: seq<Call>, k: nat)
    requires k <= |calls|
    ensures |Stream(calls)| == |calls| + 3 && Stream(calls)[..k + 3] == Stream(calls[..k])
    decreases |calls| - k
  {
    StreamLength(calls);
    if k == |calls| {
      assert calls[..k] == calls;
    } else {
      PrefixOfStream(calls, k + 1);
      StreamLength(calls[..k]);
      assert calls[..k + 1][..k] == calls[..k];
      assert Stream(calls)[..k + 3] == Stream(calls[..k + 1])[..k + 3] == Stream(calls[..k]);
    }
  }

  lemma {:induction false} FlushedDecodes(calls: seq<Call>, k: nat)
    requires k <= |calls|
    ensures |Stream(calls)| == |calls| + 3 && Decode(Stream(calls)[..k + 3]) == Some(calls[..k])
  {
    PrefixOfStream(calls, k);
    DecodesToCalls(calls[..k]);
  }

  /** The definitions of a stream carry the ids 1, 2, 3, ... in that order: each id is defined exactly once. */
  lemma {:induction false} DefinedOnce(calls: seq<Call>)
    ensures var defs := Definitions(Stream(calls));
            |defs| == |WriterAfter(calls).interned| && forall i :: 0 <= i < |defs| ==> defs[i].iid == i + 1
    decreases calls
  {
    hide Decode, Known, Define, Definitions;
    if calls == [] {
      PreambleRead();
    } else {
      var init, last := calls[..|calls| - 1], calls[|calls| - 1];
      DefinedOnce(init);
      var p := Emit(WriterAfter(init), last);
      assert Stream(calls) == Stream(init) + [p];
      DecodeSnoc(Stream(init), p);
      if last.Open? && last.name in WriterAfter(init).interned {
        var interned := WriterAfter(init).interned;
        assert interned[last.name := interned[last.name]] == interned;
      }
    }
  }

  /** Uuids only grow, so no two tracks share one. */
  lemma {:induction false} UuidsDistinct(calls: seq<Call>, i: nat, j: nat)
    requires Numbered(calls) && i < j < |calls| && calls[i].Create? && calls[j].Create?
    ensures calls[i].uuid < calls[j].uuid
    decreases calls
  {
    var init := calls[..|calls| - 1];
    if j < |init| {
      UuidsDistinct(init, i, j);
    } else {
      UuidBelow(init, i);
    }
  }

  lemma {:induction false} UuidBelow(calls: seq<Call>, i: nat)
    requires Numbered(calls) && i < |calls| && calls[i].Create?
    ensures calls[i].uuid < WriterAfter(calls).uuid
    decreases calls
  {
    if i < |calls| - 1 { UuidBelow(calls[..|calls| - 1], i); }
  }
}
