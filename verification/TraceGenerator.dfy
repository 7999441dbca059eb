/**
  The TraceGenerator class of tools/tracing/TimelineParser/trace_generator.py: packets
  collect in a buffer that is written out when it grows past a threshold.
 */
module TraceGenerator {
  import opened TraceStream
  import opened Basics

  class Generator {
    const flushThreshold: nat
    var uuid: nat
    var interned: map<string, nat>
    /** Packets not yet written. */
    var buffer: seq<Packet>
    /** Packets in the file. */
    var file: seq<Packet>
    /** The calls made so far. */
    ghost var calls: seq<Call>

    /** The state is that of the writer after the calls made, and file and buffer together are its stream. */
    ghost predicate Valid()
      reads this
    {
      && Writer(uuid, interned) == WriterAfter(calls)
      && file + buffer == Stream(calls)
      && Numbered(calls)
      && (file == [] || |file| >= 3)
    }

    constructor (flushThreshold: nat)
      ensures Valid() && calls == [] && file == [] && this.flushThreshold == flushThreshold
    {
      this.flushThreshold := flushThreshold;
      uuid, interned := FIRST_UUID, map[];
      buffer, file := [Clocks, TraceConfig, Defaults], [];
      calls := [];
    }

    /** Writes the buffer out: nothing is lost or reordered. */
    method Flush()
      requires Valid()
      modifies this`buffer, this`file
      ensures Valid() && buffer == [] && file == old(file) + old(buffer)
    {
      StreamLength(calls);
      file := file + buffer;
      buffer := [];
      assert file + buffer == file;
    }

    method FlushIfNecessary()
      requires Valid()
      modifies this`buffer, this`file
      ensures Valid() && |buffer| <= flushThreshold
      ensures old(file) <= file && file + buffer == old(file) + old(buffer)
      ensures if old(|buffer|) > flushThreshold then buffer == [] else file == old(file)
    {
      if |buffer| > flushThreshold {
        Flush();
        assert file + buffer == file;
      }
    }

    /** The common end of every call: its packet is buffered, and the buffer flushed if it is full. */
    method Add(ghost c: Call, p: Packet)
      requires Writer(uuid, interned) == After(WriterAfter(calls), c) && p == Emit(WriterAfter(calls), c)
      requires file + buffer == Stream(calls) && Numbered(calls + [c]) && (file == [] || |file| >= 3)
      modifies this`buffer, this`file, this`calls
      ensures Valid() && calls == old(calls) + [c] && |buffer| <= flushThreshold && old(file) <= file
    {
      hide Stream, WriterAfter, Numbered, After, Emit;
      Append(c, p);
      FlushIfNecessary();
    }

    /** Buffers the packet of a call. */
    method Append(ghost c: Call, p: Packet)
      requires Writer(uuid, interned) == After(WriterAfter(calls), c) && p == Emit(WriterAfter(calls), c)
      requires file + buffer == Stream(calls) && Numbered(calls + [c]) && (file == [] || |file| >= 3)
      modifies this`buffer, this`calls
      ensures Valid() && calls == old(calls) + [c] && buffer == old(buffer) + [p]
    {
      assert (calls + [c])[..|calls|] == calls;
      assert file + (buffer + [p]) == (file + buffer) + [p];
      buffer := buffer + [p];
      calls := calls + [c];
    }

    /** create_group and create_track: a new track under a new uuid. */
    method CreateTrack(parent: nat, name: string) returns (track: nat)
      requires Valid()
      modifies this
      ensures Valid() && calls == old(calls) + [Create(track, parent, name)]
      ensures |buffer| <= flushThreshold && old(file) <= file
      ensures track == old(uuid)
    {
      track := uuid;
      uuid := uuid + 1;
      assert (calls + [Create(track, parent, name)])[..|calls|] == calls;
      Add(Create(track, parent, name), Descriptor(track, parent, name));
    }

    /** _track_open. */
    method TrackOpen(track: nat, ts: nat, name: string, flow: seq<nat>)
      requires Valid()
      modifies this
      ensures Valid() && calls == old(calls) + [Open(track, ts, name, flow)]
      ensures |buffer| <= flushThreshold && old(file) <= file
    {
      var iid, defs := GetIidFor(name);
      assert (calls + [Open(track, ts, name, flow)])[..|calls|] == calls;
      Add(Open(track, ts, name, flow), SliceBegin(track, ts, iid, defs, flow));
    }

    /**
      _get_iid_for: looks a name up, or defines it under the next id.  A reader of the stream so far who
      adds the definitions resolves the id to the name and every earlier id as before, and its table is
      again the inverse of the writer's.
     */
    method GetIidFor(name: string) returns (iid: nat, defs: seq<Definition>)
      requires Valid()
      modifies this`interned
      ensures (iid, defs) == Intern(old(interned), name) && interned == old(interned)[name := iid]
      ensures var known := Known(Stream(calls));
              var after := Define(known, defs);
              && Agree(interned, after) && iid in after && after[iid] == name
              && (forall i :: i in known ==> i in after && after[i] == known[i])
              && (defs == [] <==> name in old(interned))
    {
      hide Known, Stream, Agree, Define;
      StreamAgrees(calls);
      InternAgrees(interned, Known(Stream(calls)), name);
      if name in interned {
        iid, defs := interned[name], [];
        assert interned == interned[name := iid];
      } else {
        iid := |interned| + 1;
        defs := [Definition(iid, name)];
        interned := interned[name := iid];
      }
    }

    /** _track_close. */
    method TrackClose(track: nat, ts: nat, flow: seq<nat>)
      requires Valid()
      modifies this`buffer, this`file, this`calls
      ensures Valid() && calls == old(calls) + [Close(track, ts, flow)]
      ensures |buffer| <= flushThreshold && old(file) <= file
    {
      assert (calls + [Close(track, ts, flow)])[..|calls|] == calls;
      Add(Close(track, ts, flow), SliceEnd(track, ts, flow));
    }

    /**
      _track_instant.  It iterates over the flow without a test, so a call without one, which is what
      Group.instant makes by default, raises after its packet was added: the packet stays, without a
      flow, and the buffer is not flushed however long it is.
     */
    method TrackInstant(track: nat, ts: nat, name: string, flow: Option<seq<nat>>) returns (raised: bool)
      requires Valid()
      modifies this`buffer, this`file, this`calls
      ensures Valid() && calls == old(calls) + [Instant(track, ts, name, if flow.Some? then flow.value else [])]
      ensures raised <==> flow.None?
      ensures !raised ==> |buffer| <= flushThreshold && old(file) <= file
      ensures raised ==> |buffer| == old(|buffer|) + 1 && file == old(file)
    {
      ghost var c := Instant(track, ts, name, if flow.Some? then flow.value else []);
      assert (calls + [c])[..|calls|] == calls;
      if flow.None? {
        Append(c, InstantEvent(track, ts, name, []));
        return true;
      }
      Add(c, InstantEvent(track, ts, name, flow.value));
      return false;
    }

    /** _track_count. */
    method TrackCount(track: nat, ts: nat, value: int)
      requires Valid()
      modifies this`buffer, this`file, this`calls
      ensures Valid() && calls == old(calls) + [Sample(track, ts, value)]
      ensures |buffer| <= flushThreshold && old(file) <= file
    {
      assert (calls + [Sample(track, ts, value)])[..|calls|] == calls;
      Add(Sample(track, ts, value), CounterEvent(track, ts, value));
    }

    /** What a reader of the file has at any moment: nothing, or exactly the calls flushed so far. */
    lemma FileDecodes()
      requires Valid()
      ensures file != [] ==> 3 <= |file| <= |calls| + 3 && Decode(file) == Some(calls[..|file| - 3])
      ensures file != [] && buffer == [] ==> Decode(file) == Some(calls)
    {
      hide Decode;
      StreamLength(calls);
      if file != [] {
        FlushedDecodes(calls, |file| - 3);
        assert file == Stream(calls)[..|file|];
        if buffer == [] { assert calls[..|file| - 3] == calls; }
      }
    }
  }
}
