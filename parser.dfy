/**
 * epg_parse_event, epg_parse_channel and epg_parse_desc: the three record
 * readers of the epg.dat dump.  Each is specified by a function from the
 * file contents and a start offset to the record's state and the offset
 * just past it (or the error that stops the program), and implemented by a
 * method that reads from a Stream the way the program reads from its file.
 *
 * Layouts, with n-byte integers in the file's byte order:
 *   event      type u8, len u8, EIT block 10 bytes, num_crc checksums u32
 *   channel    sid i32, nid i32, tsid i32, num_evt i32, num_evt events
 *   descriptor id u32, ref_cnt i32, tag u8, length u8, length bytes
 */
module Parser {
  import opened Base
  import opened Reader
  import opened EitTime
  import opened Records

  /** EIT_SIZE: the bytes of an event's EIT block. */
  const EitSize: nat := 10

  /** The conversion of an event's EIT block into the EIT object
      (eit_event_id, eit_event_start, eit_event_duration).  The readers take
      it as a parameter; the decoder passes EitTime.DecodeEit. */
  type EitDecoder = seq<byte> -> Result<Eit>

  /** A block that read_str cut short at the end of the file is refused. */
  ghost predicate RefusesShortBlocks(decode: EitDecoder)
  {
    forall block: seq<byte> :: |block| < EitSize ==> decode(block).Err?
  }

  /** The program's own conversion refuses a short block: struct.unpack
      fails on one of its fields. */
  lemma DecodeEitRefusesShortBlocks()
    ensures RefusesShortBlocks(DecodeEit)
  {
    forall block: seq<byte> | |block| < EitSize
      ensures DecodeEit(block).Err?
    {
      ShortBlockFails(block);
    }
  }

  /** How often `while i < k: ...; i += 1` runs when i starts at 0. */
  function Count(k: int): nat
  {
    if k < 0 then 0 else k
  }

  /** The number of checksums epg_parse_event reads: num_crc is
      (len - EIT_SIZE) / 4 under Python 2's flooring division, which agrees
      with Dafny's for a positive divisor; a negative num_crc reads none. */
  function CrcCount(len: byte): nat
  {
    Count((len as int - EitSize) / 4)
  }

  /** The checksums fill the part of `len` after the EIT block, up to three
      left-over bytes; a length below 14 announces none. */
  lemma CrcCountBounds(len: byte)
    ensures len < 14 ==> CrcCount(len) == 0
    ensures len >= 10 ==> 10 + 4 * CrcCount(len) <= len < 14 + 4 * CrcCount(len)
  {
  }

  /** The four bytes at p read as an unsigned integer in the given order. */
  function Word(data: seq<byte>, p: nat, bigEndian: bool): nat
  {
    Unsigned(Take(data, p, 4), bigEndian)
  }

  /** A run of n checksums starting at pos: the loop of epg_parse_event. */
  function CrcsAt(data: seq<byte>, pos: nat, n: nat, bigEndian: bool): Result<seq<nat>>
  {
    if pos + 4 * n <= |data| then Ok(seq(n, k requires 0 <= k < n => Word(data, pos + 4 * k, bigEndian)))
    else Err(UnexpectedEof)
  }

  /** read_u8 at pos. */
  function ByteAt(data: seq<byte>, pos: nat): Result<byte>
  {
    if pos < |data| then Ok(data[pos]) else Err(UnexpectedEof)
  }

  /** The fixed part of an event at pos: type, len and the decoded EIT
      block.  The block is read with read_str, so a short block is only
      noticed when its fields are unpacked. */
  function EventHeadAt(data: seq<byte>, pos: nat, decode: EitDecoder): Result<(byte, byte, Eit)>
  {
    var typ :- ByteAt(data, pos);
    var len :- ByteAt(data, pos + 1);
    var eit :- decode(Take(data, pos + 2, EitSize));
    Ok((typ, len, eit))
  }

  /** epg_parse_event at pos: the new Event's state and the offset after it. */
  function EventAt(data: seq<byte>, pos: nat, bigEndian: bool, decode: EitDecoder): Result<(EventRec, nat)>
  {
    var head :- EventHeadAt(data, pos, decode);
    var n := CrcCount(head.1);
    var crcs :- CrcsAt(data, pos + 12, n, bigEndian);
    Ok((EventRec(head.0, head.1, head.2, crcs, Unset, Unset), pos + 12 + 4 * n))
  }

  /** The fixed part is read exactly when its 12 bytes are present and the
      EIT block decodes. */
  lemma EventHeadSpec(data: seq<byte>, pos: nat, decode: EitDecoder)
    requires RefusesShortBlocks(decode)
    ensures var r := EventHeadAt(data, pos, decode);
      && (r.Ok? <==> pos + 12 <= |data| && decode(data[pos + 2..pos + 12]).Ok?)
      && (r.Ok? ==> r.value == (data[pos], data[pos + 1], decode(data[pos + 2..pos + 12]).value))
  {
    var block := Take(data, pos + 2, EitSize);
    if pos + 12 <= |data| {
      assert block == data[pos + 2..pos + 12];
    } else {
      assert decode(block).Err?;
    }
  }

  /** n events one after the other. */
  function EventsAt(data: seq<byte>, pos: nat, n: nat, bigEndian: bool, decode: EitDecoder): Result<(seq<EventRec>, nat)>
    decreases n
  {
    if n == 0 then Ok(([], pos))
    else
      var first :- EventAt(data, pos, bigEndian, decode);
      var rest :- EventsAt(data, first.1, n - 1, bigEndian, decode);
      Ok(([first.0] + rest.0, rest.1))
  }

  /** The four integers that open a channel: sid, nid, tsid, num_evt. */
  function ChannelHeadAt(data: seq<byte>, pos: nat, bigEndian: bool): Result<(int, int, int, int)>
  {
    var sid :- SignedAt(data, pos, 4, bigEndian);
    var nid :- SignedAt(data, pos + 4, 4, bigEndian);
    var tsid :- SignedAt(data, pos + 8, 4, bigEndian);
    var numEvt :- SignedAt(data, pos + 12, 4, bigEndian);
    Ok((sid, nid, tsid, numEvt))
  }

  /** epg_parse_channel at pos. */
  function ChannelAt(data: seq<byte>, pos: nat, bigEndian: bool, decode: EitDecoder): Result<(ChannelRec, nat)>
  {
    var head :- ChannelHeadAt(data, pos, bigEndian);
    var events :- EventsAt(data, pos + 16, Count(head.3), bigEndian, decode);
    Ok((ChannelRec(head.0, head.1, head.2, events.0), events.1))
  }

  /** Reads one record at an offset: the record and the offset after it. */
  type RecordReader<T> = nat -> Result<(T, nat)>

  /** n records one after the other; the first failure stops the run. */
  function Repeat<T>(read: RecordReader<T>, pos: nat, n: nat): Result<(seq<T>, nat)>
    decreases n
  {
    if n == 0 then Ok(([], pos))
    else
      var first :- read(pos);
      Prepend([first.0], Repeat(read, first.1, n - 1))
  }

  /** One pass of a loop that reads the next record: what is still to be
      read after `done` is that record followed by `left'` more. */
  lemma RepeatStep<T>(read: RecordReader<T>, total: Result<(seq<T>, nat)>, done: seq<T>, pos: nat, left: nat, left': nat, x: T, next: nat)
    requires left == left' + 1
    requires total == Prepend(done, Repeat(read, pos, left))
    requires read(pos) == Ok((x, next))
    ensures total == Prepend(done + [x], Repeat(read, next, left'))
  {
    PrependStep(done, x, Repeat(read, next, left'));
  }

  /** One pass of a loop whose next record fails: the loop fails with it. */
  lemma RepeatFail<T>(read: RecordReader<T>, total: Result<(seq<T>, nat)>, done: seq<T>, pos: nat, left: nat)
    requires left > 0
    requires total == Prepend(done, Repeat(read, pos, left))
    requires read(pos).Err?
    ensures total == Err(read(pos).error)
  {
  }

  /** The end of a loop: nothing is left to read. */
  lemma RepeatEnd<T>(read: RecordReader<T>, total: Result<(seq<T>, nat)>, done: seq<T>, pos: nat)
    requires total == Prepend(done, Repeat(read, pos, 0))
    ensures total == Ok((done, pos))
  {
    assert done + [] == done;
  }

  function ChannelReader(data: seq<byte>, bigEndian: bool, decode: EitDecoder): RecordReader<ChannelRec>
  {
    p => ChannelAt(data, p, bigEndian, decode)
  }

  /** n channels one after the other. */
  function ChannelsAt(data: seq<byte>, pos: nat, n: nat, bigEndian: bool, decode: EitDecoder): Result<(seq<ChannelRec>, nat)>
  {
    Repeat(ChannelReader(data, bigEndian, decode), pos, n)
  }

  /** epg_parse_desc at pos: the data list is the tag, the length byte and
      as many bytes as the length byte says. */
  function DescriptorAt(data: seq<byte>, pos: nat, bigEndian: bool): Result<(Descriptor, nat)>
  {
    var id :- UnsignedAt(data, pos, 4, bigEndian);
    var refs :- SignedAt(data, pos + 4, 4, bigEndian);
    var tag :- ByteAt(data, pos + 8);
    var len :- ByteAt(data, pos + 9);
    if pos + 10 + len <= |data| then Ok((Descriptor(id, refs, data[pos + 8..pos + 10 + len]), pos + 10 + len))
    else Err(UnexpectedEof)
  }

  /** n descriptors one after the other. */
  function DescriptorsAt(data: seq<byte>, pos: nat, n: nat, bigEndian: bool): Result<(seq<Descriptor>, nat)>
    decreases n
  {
    if n == 0 then Ok(([], pos))
    else
      var first :- DescriptorAt(data, pos, bigEndian);
      var rest :- DescriptorsAt(data, first.1, n - 1, bigEndian);
      Ok(([first.0] + rest.0, rest.1))
  }

  /** Records already read, followed by what a later read yields. */
  function Prepend<T>(done: seq<T>, later: Result<(seq<T>, nat)>): Result<(seq<T>, nat)>
  {
    if later.Ok? then Ok((done + later.value.0, later.value.1)) else later
  }

  lemma PrependNothing<T>(later: Result<(seq<T>, nat)>)
    ensures Prepend([], later) == later
  {
    if later.Ok? {
      assert [] + later.value.0 == later.value.0;
    }
  }

  lemma PrependStep<T>(done: seq<T>, x: T, later: Result<(seq<T>, nat)>)
    ensures Prepend(done, Prepend([x], later)) == Prepend(done + [x], later)
  {
    if later.Ok? {
      assert done + ([x] + later.value.0) == done + [x] + later.value.0;
    }
  }

  /** One pass of an event loop that reads the next event: what is still to
      be read after `done` is that event followed by `left'` more. */
  lemma EventsLoopStep(total: Result<(seq<EventRec>, nat)>, done: seq<EventRec>, data: seq<byte>, pos: nat, left: nat, left': nat, bigEndian: bool, decode: EitDecoder, event: EventRec, next: nat)
    requires left == left' + 1
    requires total == Prepend(done, EventsAt(data, pos, left, bigEndian, decode))
    requires EventAt(data, pos, bigEndian, decode) == Ok((event, next))
    ensures total == Prepend(done + [event], EventsAt(data, next, left', bigEndian, decode))
  {
    PrependStep(done, event, EventsAt(data, next, left', bigEndian, decode));
  }

  /** One pass of an event loop whose next event fails: the loop fails with it. */
  lemma EventsLoopFail(total: Result<(seq<EventRec>, nat)>, done: seq<EventRec>, data: seq<byte>, pos: nat, left: nat, bigEndian: bool, decode: EitDecoder)
    requires left > 0
    requires total == Prepend(done, EventsAt(data, pos, left, bigEndian, decode))
    requires EventAt(data, pos, bigEndian, decode).Err?
    ensures total == Err(EventAt(data, pos, bigEndian, decode).error)
  {
  }

  /** The end of an event loop: nothing is left to read. */
  lemma EventsLoopEnd(total: Result<(seq<EventRec>, nat)>, done: seq<EventRec>, data: seq<byte>, pos: nat, bigEndian: bool, decode: EitDecoder)
    requires total == Prepend(done, EventsAt(data, pos, 0, bigEndian, decode))
    ensures total == Ok((done, pos))
  {
    assert done + [] == done;
  }

  // ---------------------------------------------------------------------
  // Properties of the record layouts

  /** An event is read exactly when its 12 fixed bytes and its checksums are
      present and its EIT block decodes; it then occupies 12 + 4 * num_crc
      bytes, keeps type and len as read, holds the checksums in file order
      and has neither description yet. */
  lemma EventAtSpec(data: seq<byte>, pos: nat, bigEndian: bool, decode: EitDecoder)
    requires RefusesShortBlocks(decode)
    ensures var r := EventAt(data, pos, bigEndian, decode);
      && (r.Ok? <==>
          && pos + 12 <= |data|
          && decode(data[pos + 2..pos + 12]).Ok?
          && pos + 12 + 4 * CrcCount(data[pos + 1]) <= |data|)
      && (r.Ok? ==>
          var e := r.value.0;
          var n := CrcCount(data[pos + 1]);
          && r.value.1 == pos + 12 + 4 * n
          && e.typ == data[pos] && e.len == data[pos + 1]
          && e.eit == decode(data[pos + 2..pos + 12]).value
          && |e.crcs| == n
          && (forall k :: 0 <= k < n ==> e.crcs[k] == Unsigned(data[pos + 12 + 4 * k..pos + 16 + 4 * k], bigEndian))
          && e.shortDesc == Unset && e.longDesc == Unset)
  {
    EventHeadSpec(data, pos, decode);
    var r := EventAt(data, pos, bigEndian, decode);
    if r.Ok? {
      var n := CrcCount(data[pos + 1]);
      forall k | 0 <= k < n
        ensures r.value.0.crcs[k] == Unsigned(data[pos + 12 + 4 * k..pos + 16 + 4 * k], bigEndian)
      {
        assert Take(data, pos + 12 + 4 * k, 4) == data[pos + 12 + 4 * k..pos + 16 + 4 * k];
      }
    }
  }

  /** The byte order affects only the checksums: type, len, EIT block,
      success and length of an event are the same read either way. */
  lemma EventByteOrder(data: seq<byte>, pos: nat, decode: EitDecoder)
    ensures var b, l := EventAt(data, pos, true, decode), EventAt(data, pos, false, decode);
      && b.Ok? == l.Ok?
      && (b.Err? ==> b.error == l.error)
      && (b.Ok? ==> b.value.1 == l.value.1 && b.value.0.(crcs := []) == l.value.0.(crcs := []))
  {
  }

  /** A channel announcing a negative number of events has none; otherwise
      it has exactly as many as announced. */
  lemma EventsAtCount(data: seq<byte>, pos: nat, n: nat, bigEndian: bool, decode: EitDecoder)
    ensures var r := EventsAt(data, pos, n, bigEndian, decode);
      r.Ok? ==> |r.value.0| == n && r.value.1 >= pos + 12 * n
    decreases n
  {
    if n > 0 {
      var first := EventAt(data, pos, bigEndian, decode);
      if first.Ok? {
        EventsAtCount(data, first.value.1, n - 1, bigEndian, decode);
      }
    }
  }

  lemma ChannelAtSpec(data: seq<byte>, pos: nat, bigEndian: bool, decode: EitDecoder)
    ensures var r := ChannelAt(data, pos, bigEndian, decode);
      r.Ok? ==>
        && pos + 16 <= |data|
        && r.value.0.sid == Signed(data[pos..pos + 4], bigEndian)
        && r.value.0.nid == Signed(data[pos + 4..pos + 8], bigEndian)
        && r.value.0.tsid == Signed(data[pos + 8..pos + 12], bigEndian)
        && |r.value.0.events| == Count(Signed(data[pos + 12..pos + 16], bigEndian))
        && r.value.1 >= pos + 16 + 12 * |r.value.0.events|
  {
    var r := ChannelAt(data, pos, bigEndian, decode);
    if r.Ok? {
      var numEvt := SignedAt(data, pos + 12, 4, bigEndian).value;
      EventsAtCount(data, pos + 16, Count(numEvt), bigEndian, decode);
    }
  }

  /** A descriptor is read exactly when its 10 fixed bytes and the body its
      length byte announces are present; its data then starts with the tag,
      has length byte + 2 entries, and the record occupies 10 + length bytes. */
  lemma DescriptorAtSpec(data: seq<byte>, pos: nat, bigEndian: bool)
    ensures var r := DescriptorAt(data, pos, bigEndian);
      && (r.Ok? <==> pos + 10 <= |data| && pos + 10 + data[pos + 9] <= |data|)
      && (r.Err? ==> r.error == UnexpectedEof)
      && (r.Ok? ==>
          var d := r.value.0;
          && d.id == Unsigned(data[pos..pos + 4], bigEndian)
          && d.refs == Signed(data[pos + 4..pos + 8], bigEndian)
          && |d.data| == 2 + data[pos + 9] as int
          && d.data[0] == data[pos + 8] && d.data[1] == data[pos + 9]
          && (forall k :: 2 <= k < |d.data| ==> d.data[k] == data[pos + 8 + k])
          && r.value.1 == pos + 10 + data[pos + 9])
  {
  }

  // ---------------------------------------------------------------------
  // The readers

  /** The checksum loop of epg_parse_event: n u32 reads appended to the event. */
  method ReadCrcs(s: Stream, event: Event, n: int) returns (r: Outcome)
    requires s.Valid()
    modifies s`pos, event`crcs
    ensures s.Valid()
    ensures var spec := CrcsAt(s.data, old(s.pos), Count(n), s.bigEndian);
      && (r.Pass? <==> spec.Ok?)
      && (r.Fail? ==> r.error == spec.error)
      && (r.Pass? ==> event.crcs == old(event.crcs) + spec.value && s.pos == old(s.pos) + 4 * Count(n))
  {
    ghost var start := s.pos;
    ghost var before := event.crcs;
    var crc := 0;
    while crc < n
      invariant s.Valid()
      invariant 0 <= crc <= Count(n)
      invariant s.pos == start + 4 * crc
      invariant |event.crcs| == |before| + crc
      invariant event.crcs[..|before|] == before
      invariant forall k :: 0 <= k < crc ==> event.crcs[|before| + k] == Word(s.data, start + 4 * k, s.bigEndian)
    {
      var c := s.ReadU32();
      if c.Err? {
        return Fail(c.error);
      }
      event.AddCrc(c.value);
      crc := crc + 1;
    }
    r := Pass;
    assert event.crcs == before + CrcsAt(s.data, start, Count(n), s.bigEndian).value;
  }

  /** The reads of epg_parse_event before its checksum loop: type, len,
      the EIT block, and the EIT(...) built from the block. */
  method ReadEventHead(s: Stream, decode: EitDecoder) returns (r: Result<(byte, byte, Eit)>)
    requires s.Valid() && RefusesShortBlocks(decode)
    modifies s`pos
    ensures s.Valid()
    ensures r == EventHeadAt(s.data, old(s.pos), decode)
    ensures r.Ok? ==> s.pos == old(s.pos) + 12
  {
    var typ :- s.ReadU8();
    var len :- s.ReadU8();
    var block := s.ReadStr(EitSize);
    var eit :- decode(block);
    r := Ok((typ as byte, len as byte, eit));
  }

  /** epg_parse_event. */
  method ParseEvent(s: Stream, decode: EitDecoder) returns (r: Result<Event>)
    requires s.Valid() && RefusesShortBlocks(decode)
    modifies s`pos
    ensures s.Valid()
    ensures var spec := EventAt(s.data, old(s.pos), s.bigEndian, decode);
      && (r.Ok? <==> spec.Ok?)
      && (r.Err? ==> r.error == spec.error)
      && (r.Ok? ==> fresh(r.value) && r.value.Value() == spec.value.0 && s.pos == spec.value.1)
  {
    var head := ReadEventHead(s, decode);
    if head.Err? {
      return Err(head.error);
    }
    var (typ, len, eit) := head.value;
    var numCrc := (len - EitSize) / 4;
    var event := new Event(typ, len, eit);
    var crcs := ReadCrcs(s, event, numCrc);
    if crcs.Fail? {
      return Err(crcs.error);
    }
    r := Ok(event);
  }

  /** The four i32 reads that open epg_parse_channel. */
  method ReadChannelHead(s: Stream) returns (r: Result<(int, int, int, int)>)
    requires s.Valid()
    modifies s`pos
    ensures s.Valid()
    ensures r == ChannelHeadAt(s.data, old(s.pos), s.bigEndian)
    ensures r.Ok? ==> s.pos == old(s.pos) + 16
  {
    var sid :- s.ReadI32();
    var nid :- s.ReadI32();
    var tsid :- s.ReadI32();
    var numEvt :- s.ReadI32();
    r := Ok((sid, nid, tsid, numEvt));
  }

  /** The state of the event loop of epg_parse_channel: the events added so
      far are distinct objects, and what they hold followed by what the
      `left` events still to read yield is `total`, the loop's outcome. */
  ghost predicate EventLoopState(s: Stream, channel: Channel, total: Result<(seq<EventRec>, nat)>, left: nat, decode: EitDecoder)
    reads s, channel, channel.events
  {
    && Distinct(channel.events)
    && total == Prepend(EventValues(channel.events), EventsAt(s.data, s.pos, left, s.bigEndian, decode))
  }

  /** The read half of one pass of the event loop of epg_parse_channel,
      epg_parse_event(epg), stated as the step it makes through EventsAt:
      `total` is what the whole loop yields, `done` what the events read so
      far hold and `left` the number of events still to read. */
  method NextEvent(s: Stream, ghost total: Result<(seq<EventRec>, nat)>, ghost done: seq<EventRec>, ghost left: nat, decode: EitDecoder) returns (r: Result<Event>, ghost left': nat)
    requires s.Valid() && RefusesShortBlocks(decode) && left > 0
    requires total == Prepend(done, EventsAt(s.data, s.pos, left, s.bigEndian, decode))
    modifies s`pos
    ensures s.Valid()
    ensures r.Err? ==> total == Err(r.error)
    ensures r.Ok? ==>
      && fresh(r.value)
      && left' == left - 1
      && total == Prepend(done + [r.value.Value()], EventsAt(s.data, s.pos, left', s.bigEndian, decode))
  {
    left' := left - 1;
    ghost var at := s.pos;
    r := ParseEvent(s, decode);
    if r.Err? {
      EventsLoopFail(total, done, s.data, at, left, s.bigEndian, decode);
    } else {
      EventsLoopStep(total, done, s.data, at, left, left', s.bigEndian, decode, r.value.Value(), s.pos);
    }
  }

  /** One pass of the event loop of epg_parse_channel,
      channel.add_event(epg_parse_event(epg)): the loop state moves on by one
      event, or the loop's outcome is the error met. */
  method AddNextEvent(s: Stream, channel: Channel, ghost total: Result<(seq<EventRec>, nat)>, ghost left: nat, decode: EitDecoder) returns (r: Result<Event>, ghost left': nat)
    requires s.Valid() && RefusesShortBlocks(decode) && left > 0
    requires EventLoopState(s, channel, total, left, decode)
    modifies s`pos, channel`events
    ensures s.Valid()
    ensures r.Err? ==> total == Err(r.error)
    ensures r.Ok? ==>
      && fresh(r.value)
      && channel.events == old(channel.events) + [r.value]
      && left' == left - 1
      && EventLoopState(s, channel, total, left', decode)
  {
    ghost var current := channel.events;
    ghost var done := EventValues(current);
    r, left' := NextEvent(s, total, done, left, decode);
    if r.Ok? {
      var e := r.value;
      DistinctSnoc(current, e);
      channel.AddEvent(e);
      assert EventValues(current) == done;
      EventValuesSnoc(current, e);
    }
  }

  /** The event loop of epg_parse_channel: n events added to a new channel. */
  method ReadEvents(s: Stream, channel: Channel, n: int, decode: EitDecoder) returns (r: Outcome)
    requires s.Valid() && RefusesShortBlocks(decode)
    requires channel.events == []
    modifies s`pos, channel`events
    ensures s.Valid()
    ensures var spec := EventsAt(s.data, old(s.pos), Count(n), s.bigEndian, decode);
      && (r.Pass? <==> spec.Ok?)
      && (r.Fail? ==> r.error == spec.error)
      && (r.Pass? ==>
          && (forall e :: e in channel.events ==> fresh(e))
          && Distinct(channel.events)
          && EventValues(channel.events) == spec.value.0
          && s.pos == spec.value.1)
  {
    ghost var total := EventsAt(s.data, s.pos, Count(n), s.bigEndian, decode);
    ghost var left := Count(n);
    PrependNothing(total);
    var evt := 0;
    while evt < n
      invariant s.Valid()
      invariant 0 <= evt <= Count(n) && left == Count(n) - evt
      invariant forall e :: e in channel.events ==> fresh(e)
      invariant EventLoopState(s, channel, total, left, decode)
    {
      var event, left' := AddNextEvent(s, channel, total, left, decode);
      if event.Err? {
        return Fail(event.error);
      }
      evt := evt + 1;
      left := left';
    }
    EventsLoopEnd(total, EventValues(channel.events), s.data, s.pos, s.bigEndian, decode);
    r := Pass;
  }

  /** Once the four integers are read, a channel is its event list. */
  lemma ChannelAfterHead(data: seq<byte>, pos: nat, bigEndian: bool, decode: EitDecoder, head: (int, int, int, int), eventsPos: nat)
    requires ChannelHeadAt(data, pos, bigEndian) == Ok(head) && eventsPos == pos + 16
    ensures ChannelAt(data, pos, bigEndian, decode) ==
      var events :- EventsAt(data, eventsPos, Count(head.3), bigEndian, decode);
      Ok((ChannelRec(head.0, head.1, head.2, events.0), events.1))
  {
  }

  /** epg_parse_channel: four integers, then the announced number of events. */
  method ParseChannel(s: Stream, decode: EitDecoder) returns (r: Result<Channel>)
    requires s.Valid() && RefusesShortBlocks(decode)
    modifies s`pos
    ensures s.Valid()
    ensures var spec := ChannelAt(s.data, old(s.pos), s.bigEndian, decode);
      && (r.Ok? <==> spec.Ok?)
      && (r.Err? ==> r.error == spec.error)
      && (r.Ok? ==>
          && fresh(r.value)
          && (forall e :: e in r.value.events ==> fresh(e))
          && Distinct(r.value.events)
          && r.value.Value() == spec.value.0
          && s.pos == spec.value.1)
  {
    ghost var at := s.pos;
    var head := ReadChannelHead(s);
    if head.Err? {
      return Err(head.error);
    }
    var (sid, nid, tsid, numEvt) := head.value;
    ChannelAfterHead(s.data, at, s.bigEndian, decode, head.value, s.pos);
    var channel := new Channel(sid, nid, tsid);
    var events := ReadEvents(s, channel, numEvt, decode);
    if events.Fail? {
      return Err(events.error);
    }
    r := Ok(channel);
  }

  /** epg_parse_desc: id, reference count, tag, length, then `length` bytes. */
  method ParseDescriptor(s: Stream) returns (r: Result<Descriptor>)
    requires s.Valid()
    modifies s`pos
    ensures s.Valid()
    ensures var spec := DescriptorAt(s.data, old(s.pos), s.bigEndian);
      && (r.Ok? <==> spec.Ok?)
      && (r.Err? ==> r.error == spec.error)
      && (r.Ok? ==> r.value == spec.value.0 && s.pos == spec.value.1)
  {
    ghost var start := s.pos;
    var id :- s.ReadU32();
    var refCnt :- s.ReadI32();
    var tag :- s.ReadU8();
    var len :- s.ReadU8();
    var data: seq<byte> := [tag, len];
    var idx := 0;
    while idx < data[1]
      invariant s.Valid()
      invariant 0 <= idx <= len
      invariant s.pos == start + 10 + idx
      invariant data == s.data[start + 8..start + 10 + idx]
    {
      var b :- s.ReadU8();
      data := data + [b];
      idx := idx + 1;
    }
    r := Ok(Descriptor(id, refCnt, data));
  }

  /** No event object occurs twice in the sequence. */
  predicate Distinct(es: seq<Event>)
  {
    forall a, b :: 0 <= a < b < |es| ==> es[a] != es[b]
  }

  lemma DistinctSnoc(es: seq<Event>, e: Event)
    requires Distinct(es) && e !in es
    ensures Distinct(es + [e])
  {
  }
}
