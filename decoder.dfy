/**
 * epg_dat_parse up to the XMLTV output: the magic number and header
 * checks, the channel list, the descriptor table, and the resolution pass
 * that hands every event the descriptors its checksums name.
 *
 * File layout: magic u32 (read in the byte order given on the command
 * line), header 13 bytes, num_chn i32, the channels, num_desc i32, the
 * descriptors.  A magic of 0x32547698 switches the rest of the file to
 * big-endian; any magic other than that and 0x98765432 stops the program
 * (exit status 3, the BadMagic error here) before the header is looked at;
 * a header other than "ENIGMA_EPG_V7" stops it with status 4 (BadHeader).
 *
 * The program keys the descriptor dictionary by str(id) and looks it up
 * with str(crc); str is injective on integers, so the table here is keyed
 * by the number itself.
 */
module Decoder {
  import opened Base
  import opened Reader
  import opened EitTime
  import opened Records
  import opened Parser

  const NativeMagic: nat := 0x98765432
  const SwappedMagic: nat := 0x32547698

  /** "ENIGMA_EPG_V7" as bytes. */
  const HeaderText: seq<byte> := [0x45, 0x4E, 0x49, 0x47, 0x4D, 0x41, 0x5F, 0x45, 0x50, 0x47, 0x5F, 0x56, 0x37]

  /** Offset of num_chn: after the magic and the 13 header bytes. */
  const HeaderEnd: nat := 17

  /** The first four bytes of a dump written least significant byte first,
      and of one written most significant byte first. */
  const LittleEndianMagicBytes: seq<byte> := [0x32, 0x54, 0x76, 0x98]
  const BigEndianMagicBytes: seq<byte> := [0x98, 0x76, 0x54, 0x32]

  // ---------------------------------------------------------------------
  // The descriptor table

  /** descriptors[str(d.id)] = d for each descriptor in file order. */
  function Table(ds: seq<Descriptor>): map<nat, Descriptor>
  {
    if ds == [] then map[] else Table(ds[..|ds| - 1])[ds[|ds| - 1].id := ds[|ds| - 1]]
  }

  /** Every descriptor's id is in the table, nothing else is, and an id maps
      to the last descriptor in the file that carries it. */
  lemma TableLastWins(ds: seq<Descriptor>)
    ensures forall i :: 0 <= i < |ds| ==> ds[i].id in Table(ds)
    ensures forall k :: k in Table(ds) ==>
      exists i :: 0 <= i < |ds| && ds[i] == Table(ds)[k] && ds[i].id == k &&
        (forall j :: i < j < |ds| ==> ds[j].id != k)
  {
    TableHasAll(ds);
    TableHoldsLast(ds);
  }

  lemma {:induction false} TableHasAll(ds: seq<Descriptor>)
    ensures forall i :: 0 <= i < |ds| ==> ds[i].id in Table(ds)
  {
    if ds != [] {
      var init := ds[..|ds| - 1];
      TableHasAll(init);
      forall i | 0 <= i < |init|
        ensures ds[i].id in Table(ds)
      {
        assert init[i] == ds[i];
      }
    }
  }

  lemma {:induction false} TableHoldsLast(ds: seq<Descriptor>)
    ensures forall k :: k in Table(ds) ==>
      exists i :: 0 <= i < |ds| && ds[i] == Table(ds)[k] && ds[i].id == k &&
        (forall j :: i < j < |ds| ==> ds[j].id != k)
  {
    if ds != [] {
      var init := ds[..|ds| - 1];
      var last := ds[|ds| - 1];
      TableHoldsLast(init);
      forall k | k in Table(ds)
        ensures exists i ::
          0 <= i < |ds| && ds[i] == Table(ds)[k] && ds[i].id == k && (forall j :: i < j < |ds| ==> ds[j].id != k)
      {
        if k == last.id {
          assert ds[|ds| - 1] == Table(ds)[k];
        } else {
          assert Table(ds) == Table(init)[last.id := last];
          assert k in Table(init);
          var i :| 0 <= i < |init| && init[i] == Table(init)[k] && init[i].id == k &&
            (forall j :: i < j < |init| ==> init[j].id != k);
          assert ds[i] == Table(ds)[k];
        }
      }
    }
  }

  lemma TableExample(a: Descriptor, b: Descriptor)
    requires a.id == b.id
    ensures Table([a, b]) == map[a.id := b]
  {
    assert [a, b][..1] == [a];
    assert [a][..0] == [];
    assert Table([a]) == map[a.id := a];
  }

  // ---------------------------------------------------------------------
  // Resolution on values

  /** The inner loop of the resolution pass: for each checksum in turn that
      names a descriptor, add_desc with that descriptor. */
  function ResolveCrcs(e: EventRec, crcs: seq<nat>, table: map<nat, Descriptor>): Result<EventRec>
  {
    if crcs == [] then Ok(e)
    else
      var before :- ResolveCrcs(e, crcs[..|crcs| - 1], table);
      var crc := crcs[|crcs| - 1];
      if crc in table then AddDescSpec(before, table[crc].data) else Ok(before)
  }

  /** One event after the resolution pass, driven by its own checksums. */
  function ResolvedEvent(e: EventRec, table: map<nat, Descriptor>): Result<EventRec>
  {
    ResolveCrcs(e, e.crcs, table)
  }

  /** The loop over a channel's events. */
  function ResolveEvents(es: seq<EventRec>, table: map<nat, Descriptor>): Result<seq<EventRec>>
  {
    if es == [] then Ok([])
    else
      var init :- ResolveEvents(es[..|es| - 1], table);
      var last :- ResolvedEvent(es[|es| - 1], table);
      Ok(init + [last])
  }

  function ResolvedChannel(c: ChannelRec, table: map<nat, Descriptor>): Result<ChannelRec>
  {
    var es :- ResolveEvents(c.events, table);
    Ok(c.(events := es))
  }

  /** The loop over the channel list. */
  function ResolveChannels(cs: seq<ChannelRec>, table: map<nat, Descriptor>): Result<seq<ChannelRec>>
  {
    if cs == [] then Ok([])
    else
      var init :- ResolveChannels(cs[..|cs| - 1], table);
      var last :- ResolvedChannel(cs[|cs| - 1], table);
      Ok(init + [last])
  }

  /** An event whose checksums name a START fragment and then an ADD
      fragment ends the pass without a long description text; naming the ADD
      fragment once more stops the pass with NoAppend. */
  lemma ResolveStartAddLosesText(e: EventRec, s: nat, a: nat, table: map<nat, Descriptor>)
    requires s in table && a in table && IsStart(table[s].data) && IsAdd(table[a].data)
    ensures ResolveCrcs(e, [s, a], table).Ok?
    ensures SlotText(ResolveCrcs(e, [s, a], table).value.longDesc) == None
    ensures ResolveCrcs(e, [s, a, a], table) == Err(NoAppend)
  {
    StartAddLosesText(e, table[s].data, table[a].data);
    var first := AddDescSpec(e, table[s].data).value;
    var second := AddDescSpec(first, table[a].data).value;
    assert [s][..0] == [];
    assert ResolveCrcs(e, [s], table) == Ok(first);
    assert [s, a][..1] == [s];
    assert ResolveCrcs(e, [s, a], table) == Ok(second);
    assert [s, a, a][..2] == [s, a];
  }

  /** Resolution changes nothing but the two description attributes. */
  lemma {:induction false} ResolveCrcsKeeps(e: EventRec, crcs: seq<nat>, table: map<nat, Descriptor>)
    ensures var r := ResolveCrcs(e, crcs, table);
      r.Ok? ==> r.value.(shortDesc := e.shortDesc, longDesc := e.longDesc) == e
  {
    if crcs != [] {
      ResolveCrcsKeeps(e, crcs[..|crcs| - 1], table);
    }
  }

  /** Checksums that name no descriptor are skipped without a trace. */
  lemma {:induction false} ResolveSkipsUnknown(e: EventRec, crcs: seq<nat>, table: map<nat, Descriptor>)
    requires forall k :: 0 <= k < |crcs| ==> crcs[k] !in table
    ensures ResolveCrcs(e, crcs, table) == Ok(e)
  {
    if crcs != [] {
      ResolveSkipsUnknown(e, crcs[..|crcs| - 1], table);
    }
  }

  /** The checksums are applied in order: resolving a + b is resolving a,
      then resolving b on the result. */
  lemma {:induction false} ResolveCrcsAppend(e: EventRec, a: seq<nat>, b: seq<nat>, table: map<nat, Descriptor>)
    ensures ResolveCrcs(e, a + b, table) ==
      (var m :- ResolveCrcs(e, a, table); ResolveCrcs(m, b, table))
  {
    if b == [] {
      assert a + b == a;
    } else {
      var b' := b[..|b| - 1];
      assert (a + b)[..|a + b| - 1] == a + b';
      ResolveCrcsAppend(e, a, b', table);
    }
  }

  /** The first failing checksum ends the resolution of an event with its error. */
  lemma {:induction false} ResolveCrcsStops(e: EventRec, crcs: seq<nat>, k: nat, table: map<nat, Descriptor>)
    requires k <= |crcs| && ResolveCrcs(e, crcs[..k], table).Err?
    ensures ResolveCrcs(e, crcs, table) == ResolveCrcs(e, crcs[..k], table)
  {
    if k < |crcs| {
      assert crcs[..|crcs| - 1][..k] == crcs[..k];
      ResolveCrcsStops(e, crcs[..|crcs| - 1], k, table);
    } else {
      assert crcs[..k] == crcs;
    }
  }

  /** The first failing event ends the loop over a channel's events. */
  lemma {:induction false} ResolveEventsStops(es: seq<EventRec>, k: nat, table: map<nat, Descriptor>)
    requires k <= |es| && ResolveEvents(es[..k], table).Err?
    ensures ResolveEvents(es, table) == ResolveEvents(es[..k], table)
  {
    if k < |es| {
      assert es[..|es| - 1][..k] == es[..k];
      ResolveEventsStops(es[..|es| - 1], k, table);
    } else {
      assert es[..k] == es;
    }
  }

  /** The first failing channel ends the loop over the channel list. */
  lemma {:induction false} ResolveChannelsStops(cs: seq<ChannelRec>, k: nat, table: map<nat, Descriptor>)
    requires k <= |cs| && ResolveChannels(cs[..k], table).Err?
    ensures ResolveChannels(cs, table) == ResolveChannels(cs[..k], table)
  {
    if k < |cs| {
      assert cs[..|cs| - 1][..k] == cs[..k];
      ResolveChannelsStops(cs[..|cs| - 1], k, table);
    } else {
      assert cs[..k] == cs;
    }
  }

  /** The loop over a channel's events resolves each event on its own: it
      succeeds exactly when every event does, and then yields them in order. */
  lemma {:induction false} ResolveEventsEach(es: seq<EventRec>, table: map<nat, Descriptor>)
    ensures ResolveEvents(es, table).Ok? <==> forall j :: 0 <= j < |es| ==> ResolvedEvent(es[j], table).Ok?
    ensures ResolveEvents(es, table).Ok? ==>
      && |ResolveEvents(es, table).value| == |es|
      && forall j :: 0 <= j < |es| ==> ResolveEvents(es, table).value[j] == ResolvedEvent(es[j], table).value
  {
    if es != [] {
      var init := es[..|es| - 1];
      ResolveEventsEach(init, table);
      assert forall j :: 0 <= j < |init| ==> init[j] == es[j];
    }
  }

  /** The loop over the channel list keeps every channel's identifiers and
      its number of events. */
  lemma {:induction false} ResolveChannelsShape(cs: seq<ChannelRec>, table: map<nat, Descriptor>)
    ensures var r := ResolveChannels(cs, table);
      r.Ok? ==>
        && |r.value| == |cs|
        && forall j :: 0 <= j < |cs| ==>
          && r.value[j].sid == cs[j].sid && r.value[j].nid == cs[j].nid && r.value[j].tsid == cs[j].tsid
          && |r.value[j].events| == |cs[j].events|
  {
    if cs != [] {
      var init := cs[..|cs| - 1];
      ResolveChannelsShape(init, table);
      ResolveEventsEach(cs[|cs| - 1].events, table);
    }
  }

  // ---------------------------------------------------------------------
  // The whole decode on values

  /** num_chn at `pos`, then that many channels (none when it is negative). */
  function ChannelSection(data: seq<byte>, pos: nat, bigEndian: bool, decode: EitDecoder): Result<(seq<ChannelRec>, nat)>
  {
    var numChn :- SignedAt(data, pos, 4, bigEndian);
    ChannelsAt(data, pos + 4, Count(numChn), bigEndian, decode)
  }

  /** num_desc at `pos`, then that many descriptors, stored by id. */
  function DescriptorSection(data: seq<byte>, pos: nat, bigEndian: bool): Result<map<nat, Descriptor>>
  {
    var numDesc :- SignedAt(data, pos, 4, bigEndian);
    var descs :- DescriptorsAt(data, pos + 4, Count(numDesc), bigEndian);
    Ok(Table(descs.0))
  }

  /** Everything after the header: the channels, then the descriptor table. */
  function Body(data: seq<byte>, bigEndian: bool, decode: EitDecoder): Result<(seq<ChannelRec>, map<nat, Descriptor>)>
  {
    var channels :- ChannelSection(data, HeaderEnd, bigEndian, decode);
    var table :- DescriptorSection(data, channels.1, bigEndian);
    Ok((channels.0, table))
  }

  /** The body in the byte order chosen, followed by the resolution pass. */
  function DecodeBody(data: seq<byte>, bigEndian: bool): Result<seq<ChannelRec>>
  {
    var parsed :- Body(data, bigEndian, DecodeEit);
    ResolveChannels(parsed.0, parsed.1)
  }

  /** epg_dat_parse up to channels_to_xmltv: the channels with their
      resolved events, or the error that stops the program.  `bigEndian` is
      the byte order the command line selects. */
  function Decode(data: seq<byte>, bigEndian: bool): Result<seq<ChannelRec>>
  {
    var magic :- UnsignedAt(data, 0, 4, bigEndian);
    if magic != SwappedMagic && magic != NativeMagic then Err(BadMagic)
    else if Take(data, 4, 13) != HeaderText then Err(BadHeader)
    else DecodeBody(data, bigEndian || magic == SwappedMagic)
  }

  /** The magic bytes in either order read as the two accepted magic numbers. */
  lemma MagicValues(data: seq<byte>)
    requires |data| >= 4
    ensures data[..4] == LittleEndianMagicBytes ==>
      UnsignedAt(data, 0, 4, false) == Ok(NativeMagic) && UnsignedAt(data, 0, 4, true) == Ok(SwappedMagic)
    ensures data[..4] == BigEndianMagicBytes ==>
      UnsignedAt(data, 0, 4, false) == Ok(SwappedMagic) && UnsignedAt(data, 0, 4, true) == Ok(NativeMagic)
  {
    FourBytes(data[..4]);
    assert Take(data, 0, 4) == data[..4];
  }

  /** The value of four bytes in each order. */
  lemma FourBytes(m: seq<byte>)
    requires |m| == 4
    ensures BigEndianValue(m) == ((m[0] as int * 256 + m[1] as int) * 256 + m[2] as int) * 256 + m[3] as int
    ensures LittleEndianValue(m) == m[0] as int + 256 * (m[1] as int + 256 * (m[2] as int + 256 * m[3] as int))
  {
    assert m[..1][..0] == [] && m[..2][..1] == m[..1] && m[..3][..2] == m[..2] && m[..4] == m;
    assert BigEndianValue(m[..1]) == m[0] as int;
    assert BigEndianValue(m[..2]) == m[0] as int * 256 + m[1] as int;
    assert BigEndianValue(m[..3]) == (m[0] as int * 256 + m[1] as int) * 256 + m[2] as int;
    assert m[3..][1..] == [] && m[2..][1..] == m[3..] && m[1..][1..] == m[2..];
    assert LittleEndianValue(m[3..]) == m[3] as int;
    assert LittleEndianValue(m[2..]) == m[2] as int + 256 * m[3] as int;
    assert LittleEndianValue(m[1..]) == m[1] as int + 256 * (m[2] as int + 256 * m[3] as int);
  }

  /** Which four opening bytes pass the magic check: exactly the two magic
      byte patterns, whichever byte order the command line selects. */
  lemma MagicAccepted(data: seq<byte>, bigEndian: bool)
    requires |data| >= 4
    ensures var magic := UnsignedAt(data, 0, 4, bigEndian).value;
      (magic == NativeMagic || magic == SwappedMagic) <==>
      (data[..4] == LittleEndianMagicBytes || data[..4] == BigEndianMagicBytes)
  {
    MagicValues(data);
    var magic := UnsignedAt(data, 0, 4, bigEndian).value;
    if magic == NativeMagic || magic == SwappedMagic {
      if bigEndian {
        BigEndianMagicOnly(data[..4], magic);
      } else {
        LittleEndianMagicOnly(data[..4], magic);
      }
    }
  }

  /** Four bytes read most significant first are fixed by their value. */
  lemma BigEndianMagicOnly(m: seq<byte>, magic: nat)
    requires |m| == 4 && BigEndianValue(m) == magic
    requires magic == NativeMagic || magic == SwappedMagic
    ensures m == LittleEndianMagicBytes || m == BigEndianMagicBytes
  {
    BigEndianEncodeDecode(m);
    assert m == BigEndianBytes(magic, 4);
  }

  /** Four bytes read least significant first are fixed by their value. */
  lemma LittleEndianMagicOnly(m: seq<byte>, magic: nat)
    requires |m| == 4 && LittleEndianValue(m) == magic
    requires magic == NativeMagic || magic == SwappedMagic
    ensures m == LittleEndianMagicBytes || m == BigEndianMagicBytes
  {
    var r := Reverse(m);
    LittleIsReversedBig(m);
    BigEndianMagicOnly(r, magic);
    assert m == [r[3], r[2], r[1], r[0]];
  }

  /** A file shorter than the magic number fails on the first read. */
  lemma DecodeTooShort(data: seq<byte>, bigEndian: bool)
    requires |data| < 4
    ensures Decode(data, bigEndian) == Err(UnexpectedEof)
  {
  }

  /** A wrong magic number stops the program before the header is examined,
      so the header's contents do not matter. */
  lemma DecodeBadMagic(data: seq<byte>, bigEndian: bool)
    requires |data| >= 4
    requires !(data[..4] == LittleEndianMagicBytes || data[..4] == BigEndianMagicBytes)
    ensures Decode(data, bigEndian) == Err(BadMagic)
  {
    MagicAccepted(data, bigEndian);
  }

  /** An accepted magic with a header other than ENIGMA_EPG_V7 stops the
      program with BadHeader; a header cut short by the end of the file
      counts as different. */
  lemma DecodeBadHeader(data: seq<byte>, bigEndian: bool)
    requires |data| >= 4
    requires data[..4] == LittleEndianMagicBytes || data[..4] == BigEndianMagicBytes
    requires |data| < HeaderEnd || data[4..HeaderEnd] != HeaderText
    ensures Decode(data, bigEndian) == Err(BadHeader)
  {
    MagicAccepted(data, bigEndian);
    if |data| >= HeaderEnd {
      assert Take(data, 4, 13) == data[4..HeaderEnd];
    } else {
      assert |Take(data, 4, 13)| < 13;
    }
  }

  /** Byte order detection: with a good magic and header, the body is read
      big-endian exactly when the command line asks for it or the file
      starts with the big-endian magic bytes. */
  lemma DecodeByteOrder(data: seq<byte>, bigEndian: bool)
    requires |data| >= HeaderEnd && data[4..HeaderEnd] == HeaderText
    requires data[..4] == LittleEndianMagicBytes || data[..4] == BigEndianMagicBytes
    ensures Decode(data, bigEndian) == DecodeBody(data, bigEndian || data[..4] == BigEndianMagicBytes)
  {
    MagicValues(data);
    assert Take(data, 4, 13) == data[4..HeaderEnd];
  }

  /** A dump written big-endian decodes the same with or without the
      command line's big-endian flag. */
  lemma BigEndianFileIgnoresFlag(data: seq<byte>)
    requires |data| >= 4 && data[..4] == BigEndianMagicBytes
    ensures Decode(data, false) == Decode(data, true)
  {
    MagicValues(data);
  }

  // ---------------------------------------------------------------------
  // The object graph

  function Members(es: seq<Event>): set<Event>
  {
    set e | e in es
  }

  /** The events the channels of a list hold. */
  function AllEvents(cs: seq<Channel>): (r: set<Event>)
    reads cs
  {
    if cs == [] then {} else AllEvents(cs[..|cs| - 1]) + Members(cs[|cs| - 1].events)
  }

  /** The states of a list of channels, in order. */
  function ChannelValues(cs: seq<Channel>): (r: seq<ChannelRec>)
    reads cs, AllEvents(cs)
    ensures |r| == |cs|
  {
    if cs == [] then [] else ChannelValues(cs[..|cs| - 1]) + [cs[|cs| - 1].Value()]
  }

  lemma ChannelValuesSnoc(cs: seq<Channel>, c: Channel)
    ensures ChannelValues(cs + [c]) == ChannelValues(cs) + [c.Value()]
  {
    assert (cs + [c])[..|cs|] == cs;
  }

  predicate Disjoint(a: seq<Event>, b: seq<Event>)
  {
    forall e :: e in a ==> e !in b
  }

  /** No event object is listed twice, in one channel or in two. */
  ghost predicate Separate(cs: seq<Channel>)
    reads cs
  {
    && (forall i :: 0 <= i < |cs| ==> Distinct(cs[i].events))
    && (forall i, j :: 0 <= i < j < |cs| ==> Disjoint(cs[i].events, cs[j].events))
  }

  /** A channel's events are among the events of the list that holds it. */
  lemma {:induction false} AllEventsHas(cs: seq<Channel>, i: nat)
    requires i < |cs|
    ensures forall e :: e in cs[i].events ==> e in AllEvents(cs)
  {
    if i < |cs| - 1 {
      AllEventsHas(cs[..|cs| - 1], i);
    }
  }

  /** A channel whose events are new keeps the list separate. */
  lemma SeparateSnoc(cs: seq<Channel>, c: Channel)
    requires Separate(cs) && Distinct(c.events)
    requires forall e :: e in c.events ==> e !in AllEvents(cs)
    ensures Separate(cs + [c])
    ensures AllEvents(cs + [c]) == AllEvents(cs) + Members(c.events)
  {
    var cs' := cs + [c];
    assert cs'[..|cs|] == cs;
    forall i | 0 <= i < |cs|
      ensures Disjoint(cs'[i].events, c.events)
    {
      AllEventsHas(cs, i);
    }
  }

  /** The states of a list of channels are kept when the channels and
      their events are. */
  twostate lemma {:induction false} ChannelValuesKept(cs: seq<Channel>)
    requires forall j :: 0 <= j < |cs| ==> unchanged(cs[j])
    requires forall j, k :: 0 <= j < |cs| && 0 <= k < |cs[j].events| ==> unchanged(cs[j].events[k])
    ensures ChannelValues(cs) == old(ChannelValues(cs))
  {
    if cs != [] {
      var init := cs[..|cs| - 1];
      var last := cs[|cs| - 1];
      ChannelValuesKept(init);
      assert last.Value() == old(last.Value());
    }
  }

  /** Each channel paired with its event list, in order. */
  function Listings(cs: seq<Channel>): (r: seq<(Channel, seq<Event>)>)
    reads cs
    ensures |r| == |cs| && forall j :: 0 <= j < |cs| ==> r[j] == (cs[j], cs[j].events)
  {
    if cs == [] then [] else Listings(cs[..|cs| - 1]) + [(cs[|cs| - 1], cs[|cs| - 1].events)]
  }

  /** Every event of the listed event lists. */
  function ListEvents(ps: seq<(Channel, seq<Event>)>): set<Event>
  {
    if ps == [] then {} else ListEvents(ps[..|ps| - 1]) + Members(ps[|ps| - 1].1)
  }

  lemma {:induction false} ListEventsHas(ps: seq<(Channel, seq<Event>)>, i: nat)
    requires i < |ps|
    ensures forall e :: e in ps[i].1 ==> e in ListEvents(ps)
  {
    if i < |ps| - 1 {
      ListEventsHas(ps[..|ps| - 1], i);
    }
  }

  /** The events of the channels' listings are the events of the channels. */
  lemma {:induction false} ListEventsOf(cs: seq<Channel>)
    ensures ListEvents(Listings(cs)) == AllEvents(cs)
  {
    if cs != [] {
      ListEventsOf(cs[..|cs| - 1]);
      assert Listings(cs)[..|cs| - 1] == Listings(cs[..|cs| - 1]);
    }
  }

  /** No event object is listed twice, in one list or in two. */
  ghost predicate SeparateLists(ps: seq<(Channel, seq<Event>)>)
  {
    ps == [] ||
      (var last := ps[|ps| - 1];
       && SeparateLists(ps[..|ps| - 1]) && Distinct(last.1)
       && forall j :: 0 <= j < |ps| - 1 ==> Disjoint(ps[j].1, last.1))
  }

  lemma {:induction false} SeparateListsDistinct(ps: seq<(Channel, seq<Event>)>, k: nat)
    requires SeparateLists(ps) && k < |ps|
    ensures Distinct(ps[k].1)
  {
    if k < |ps| - 1 {
      SeparateListsDistinct(ps[..|ps| - 1], k);
    }
  }

  lemma {:induction false} SeparateListsDisjoint(ps: seq<(Channel, seq<Event>)>, j: nat, k: nat)
    requires SeparateLists(ps) && j < k < |ps|
    ensures Disjoint(ps[j].1, ps[k].1)
  {
    if k < |ps| - 1 {
      SeparateListsDisjoint(ps[..|ps| - 1], j, k);
    }
  }

  /** The listings of separate channels are separate. */
  lemma {:induction false} SeparateListings(cs: seq<Channel>)
    requires Separate(cs)
    ensures SeparateLists(Listings(cs))
  {
    if cs != [] {
      var init := cs[..|cs| - 1];
      SeparateListings(init);
      assert Listings(cs)[..|cs| - 1] == Listings(init);
    }
  }

  /** The state of a channel read through a listing: the identifiers of a
      channel never change, so only the events are read. */
  function Record(p: (Channel, seq<Event>)): ChannelRec
    reads Members(p.1)
  {
    ChannelRec(p.0.sid, p.0.nid, p.0.tsid, EventValues(p.1))
  }

  /** The states of listed channels, in order. */
  function ChannelsOf(ps: seq<(Channel, seq<Event>)>): (r: seq<ChannelRec>)
    reads ListEvents(ps)
    ensures |r| == |ps|
  {
    if ps == [] then [] else ChannelsOf(ps[..|ps| - 1]) + [Record(ps[|ps| - 1])]
  }

  /** Read through the channels' own listings, ChannelsOf is ChannelValues. */
  lemma {:induction false} ChannelValuesAsLists(cs: seq<Channel>)
    ensures ChannelValues(cs) == ChannelsOf(Listings(cs))
  {
    if cs != [] {
      ChannelValuesAsLists(cs[..|cs| - 1]);
      assert Listings(cs)[..|cs| - 1] == Listings(cs[..|cs| - 1]);
    }
  }

  lemma {:induction false} ChannelsOfCons(ps: seq<(Channel, seq<Event>)>)
    requires |ps| > 0
    ensures ChannelsOf(ps) == [Record(ps[0])] + ChannelsOf(ps[1..])
  {
    if |ps| > 1 {
      ChannelsOfCons(ps[..|ps| - 1]);
      assert ps[..|ps| - 1][1..] == ps[1..][..|ps| - 2];
    } else {
      assert ps[1..] == [];
    }
  }

  lemma ChannelsOfSnoc(ps: seq<(Channel, seq<Event>)>, p: (Channel, seq<Event>))
    ensures ChannelsOf(ps + [p]) == ChannelsOf(ps) + [Record(p)]
  {
    assert (ps + [p])[..|ps|] == ps;
  }

  /** ChannelsOf is kept when the listed events are. */
  twostate lemma {:induction false} ChannelsOfKept(ps: seq<(Channel, seq<Event>)>)
    requires forall j, k :: 0 <= j < |ps| && 0 <= k < |ps[j].1| ==> unchanged(ps[j].1[k])
    ensures ChannelsOf(ps) == old(ChannelsOf(ps))
  {
    if ps != [] {
      ChannelsOfKept(ps[..|ps| - 1]);
      var last := ps[|ps| - 1];
      assert Record(last) == old(Record(last));
    }
  }

  // ---------------------------------------------------------------------
  // The readers of epg_dat_parse

  /** One more descriptor read: the table gains it, last write wins. */
  lemma DescriptorsLoopStep(total: Result<(seq<Descriptor>, nat)>, done: seq<Descriptor>, data: seq<byte>, pos: nat, left: nat, left': nat, bigEndian: bool, d: Descriptor, next: nat)
    requires left == left' + 1
    requires total == Prepend(done, DescriptorsAt(data, pos, left, bigEndian))
    requires DescriptorAt(data, pos, bigEndian) == Ok((d, next))
    ensures total == Prepend(done + [d], DescriptorsAt(data, next, left', bigEndian))
    ensures Table(done + [d]) == Table(done)[d.id := d]
  {
    PrependStep(done, d, DescriptorsAt(data, next, left', bigEndian));
    assert (done + [d])[..|done|] == done;
  }

  /** The descriptor loop of epg_dat_parse: n descriptors stored by id. */
  method ReadDescriptors(s: Stream, n: int) returns (r: Result<map<nat, Descriptor>>)
    requires s.Valid()
    modifies s`pos
    ensures s.Valid()
    ensures var spec := DescriptorsAt(s.data, old(s.pos), Count(n), s.bigEndian);
      && (r.Ok? <==> spec.Ok?)
      && (r.Err? ==> r.error == spec.error)
      && (r.Ok? ==> r.value == Table(spec.value.0) && s.pos == spec.value.1)
  {
    ghost var total := DescriptorsAt(s.data, s.pos, Count(n), s.bigEndian);
    ghost var left := Count(n);
    ghost var done: seq<Descriptor> := [];
    PrependNothing(total);
    var descriptors: map<nat, Descriptor> := map[];
    var desc := 0;
    while desc < n
      invariant s.Valid()
      invariant 0 <= desc <= Count(n) && left == Count(n) - desc
      invariant descriptors == Table(done)
      invariant total == Prepend(done, DescriptorsAt(s.data, s.pos, left, s.bigEndian))
    {
      ghost var left' := left - 1;
      ghost var at := s.pos;
      var d := ParseDescriptor(s);
      if d.Err? {
        return Err(d.error);
      }
      var newDesc := d.value;
      DescriptorsLoopStep(total, done, s.data, at, left, left', s.bigEndian, newDesc, s.pos);
      descriptors := descriptors[newDesc.id := newDesc];
      done := done + [newDesc];
      desc := desc + 1;
      left := left';
    }
    assert done + [] == done;
    r := Ok(descriptors);
  }

  /** The state of the channel loop of epg_dat_parse: the channels read so
      far share no event, and what they hold followed by what the `left`
      channels still to read yield is `total`, the loop's outcome. */
  ghost predicate ChannelLoopState(s: Stream, channels: seq<Channel>, total: Result<(seq<ChannelRec>, nat)>, left: nat, decode: EitDecoder)
    reads s, channels, AllEvents(channels)
  {
    && Separate(channels)
    && total == Prepend(ChannelValues(channels), ChannelsAt(s.data, s.pos, left, s.bigEndian, decode))
  }

  /** The read half of one pass of the channel loop, epg_parse_channel(epg). */
  method NextChannel(s: Stream, ghost total: Result<(seq<ChannelRec>, nat)>, ghost done: seq<ChannelRec>, ghost left: nat, decode: EitDecoder) returns (r: Result<Channel>, ghost left': nat)
    requires s.Valid() && RefusesShortBlocks(decode) && left > 0
    requires total == Prepend(done, ChannelsAt(s.data, s.pos, left, s.bigEndian, decode))
    modifies s`pos
    ensures s.Valid()
    ensures r.Err? ==> total == Err(r.error)
    ensures r.Ok? ==>
      && fresh(r.value)
      && (forall e :: e in r.value.events ==> fresh(e))
      && Distinct(r.value.events)
      && left' == left - 1
      && total == Prepend(done + [r.value.Value()], ChannelsAt(s.data, s.pos, left', s.bigEndian, decode))
  {
    left' := left - 1;
    ghost var at := s.pos;
    r := ParseChannel(s, decode);
    if r.Ok? {
      RepeatStep(ChannelReader(s.data, s.bigEndian, decode), total, done, at, left, left', r.value.Value(), s.pos);
    } else {
      RepeatFail(ChannelReader(s.data, s.bigEndian, decode), total, done, at, left);
    }
  }

  /** One pass of the channel loop of epg_dat_parse,
      channels.append(epg_parse_channel(epg)): the loop state moves on by one
      channel, whose events are new, or the loop's outcome is the error met. */
  method AddNextChannel(s: Stream, channels: seq<Channel>, ghost seen: set<Event>, ghost total: Result<(seq<ChannelRec>, nat)>, ghost left: nat, decode: EitDecoder) returns (r: Result<seq<Channel>>, ghost left': nat, ghost added: set<Event>)
    requires s.Valid() && RefusesShortBlocks(decode) && left > 0
    requires ChannelLoopState(s, channels, total, left, decode)
    requires seen == AllEvents(channels)
    modifies s`pos
    ensures s.Valid()
    ensures r.Err? ==> total == Err(r.error)
    ensures r.Ok? ==>
      && AllEvents(r.value) == seen + added
      && (forall e :: e in added ==> fresh(e))
      && left' == left - 1
      && ChannelLoopState(s, r.value, total, left', decode)
  {
    ghost var done := ChannelValues(channels);
    var c;
    c, left' := NextChannel(s, total, done, left, decode);
    if c.Err? {
      return Err(c.error), left', {};
    }
    added := Members(c.value.events);
    assert ChannelValues(channels) == done && Separate(channels) && AllEvents(channels) == seen;
    SeparateSnoc(channels, c.value);
    ChannelValuesSnoc(channels, c.value);
    r := Ok(channels + [c.value]);
  }

  /** The channel loop of epg_dat_parse: n channels appended to a new list. */
  method ReadChannels(s: Stream, n: int, decode: EitDecoder) returns (r: Result<seq<Channel>>)
    requires s.Valid() && RefusesShortBlocks(decode)
    modifies s`pos
    ensures s.Valid()
    ensures var spec := ChannelsAt(s.data, old(s.pos), Count(n), s.bigEndian, decode);
      && (r.Ok? <==> spec.Ok?)
      && (r.Err? ==> r.error == spec.error)
      && (r.Ok? ==>
          && (forall e :: e in AllEvents(r.value) ==> fresh(e))
          && Separate(r.value)
          && ChannelValues(r.value) == spec.value.0
          && s.pos == spec.value.1)
  {
    ghost var total := ChannelsAt(s.data, s.pos, Count(n), s.bigEndian, decode);
    ghost var left := Count(n);
    PrependNothing(total);
    var channels: seq<Channel> := [];
    var chn := 0;
    while chn < n
      invariant s.Valid()
      invariant 0 <= chn <= Count(n) && left == Count(n) - chn
      invariant forall e :: e in AllEvents(channels) ==> fresh(e)
      invariant ChannelLoopState(s, channels, total, left, decode)
    {
      var next, left', added := AddNextChannel(s, channels, AllEvents(channels), total, left, decode);
      if next.Err? {
        return Err(next.error);
      }
      channels := next.value;
      chn := chn + 1;
      left := left';
    }
    RepeatEnd(ChannelReader(s.data, s.bigEndian, decode), total, ChannelValues(channels), s.pos);
    r := Ok(channels);
  }

  // ---------------------------------------------------------------------
  // The resolution pass on the objects

  /** The innermost loop: every checksum of the event that names a
      descriptor hands that descriptor to add_desc, in order; the first
      exception ends the pass. */
  method ResolveEvent(event: Event, table: map<nat, Descriptor>) returns (r: Outcome)
    modifies event`shortDesc, event`longDesc
    ensures var spec := ResolvedEvent(old(event.Value()), table);
      && (r.Pass? <==> spec.Ok?)
      && (r.Pass? ==> event.Value() == spec.value)
      && (r.Fail? ==> r.error == spec.error)
  {
    ghost var start := event.Value();
    var crcs := event.crcs;
    var k := 0;
    while k < |crcs|
      invariant 0 <= k <= |crcs| && event.crcs == crcs == start.crcs
      invariant ResolveCrcs(start, crcs[..k], table) == Ok(event.Value())
    {
      var crc := crcs[k];
      assert crcs[..k + 1][..k] == crcs[..k];
      if crc in table {
        var o := event.AddDesc(table[crc]);
        if o.Fail? {
          ResolveCrcsStops(start, crcs, k + 1, table);
          return o;
        }
      }
      k := k + 1;
    }
    assert crcs[..k] == crcs;
    r := Pass;
  }

  /** One step of the loop over a channel's events, on values: the i-th
      event either stops the loop with its error or joins the resolved
      prefix. */
  lemma ResolveEventsStep(before: seq<EventRec>, i: nat, table: map<nat, Descriptor>, prior: seq<EventRec>)
    requires i < |before| && ResolveEvents(before[..i], table) == Ok(prior)
    ensures var step := ResolvedEvent(before[i], table);
      && (step.Err? ==> ResolveEvents(before, table) == Err(step.error))
      && (step.Ok? ==> ResolveEvents(before[..i + 1], table) == Ok(prior + [step.value]))
  {
    assert before[..i + 1][..i] == before[..i];
    if ResolvedEvent(before[i], table).Err? {
      ResolveEventsStops(before, i + 1, table);
    }
  }

  /** One round of the loop over a channel's events: the i-th event is
      resolved and the events before it stay resolved. */
  method ResolveNextEvent(events: seq<Event>, ghost before: seq<EventRec>, i: nat, table: map<nat, Descriptor>) returns (r: Outcome)
    requires Distinct(events) && i < |events| == |before|
    requires ResolveEvents(before[..i], table) == Ok(EventValues(events[..i]))
    requires events[i].Value() == before[i]
    modifies events[i]
    ensures r.Fail? ==> ResolveEvents(before, table) == Err(r.error)
    ensures r.Pass? ==> ResolveEvents(before[..i + 1], table) == Ok(EventValues(events[..i + 1]))
  {
    var event := events[i];
    ghost var done := EventValues(events[..i]);
    ResolveEventsStep(before, i, table, done);
    assert event !in events[..i];
    r := ResolveEvent(event, table);
    if r.Pass? {
      assert EventValues(events[..i]) == done;
      assert events[..i + 1] == events[..i] + [event];
      EventValuesSnoc(events[..i], event);
    }
  }


  /** The loop over one channel's events. */
  method ResolveChannel(events: seq<Event>, table: map<nat, Descriptor>) returns (r: Outcome)
    requires Distinct(events)
    modifies events
    ensures var spec := ResolveEvents(old(EventValues(events)), table);
      && (r.Pass? <==> spec.Ok?)
      && (r.Pass? ==> EventValues(events) == spec.value)
      && (r.Fail? ==> r.error == spec.error)
  {
    ghost var before := EventValues(events);
    forall j | 0 <= j < |events|
      ensures before[j] == events[j].Value()
    {
      EventValuesAt(events, j);
    }
    var i := 0;
    while i < |events|
      invariant 0 <= i <= |events|
      invariant ResolveEvents(before[..i], table) == Ok(EventValues(events[..i]))
      invariant forall j :: i <= j < |events| ==> events[j].Value() == before[j]
    {
      r := ResolveNextEvent(events, before, i, table);
      if r.Fail? {
        return;
      }
      i := i + 1;
    }
    assert events[..i] == events && before[..i] == before;
    r := Pass;
  }

  /** Resolving the i-th of separately listed channels leaves the
      channels after it as they were. */
  method ResolveListKeepingLater(ps: seq<(Channel, seq<Event>)>, i: nat, table: map<nat, Descriptor>) returns (r: Outcome)
    requires SeparateLists(ps) && i < |ps|
    modifies ps[i].1
    ensures var spec := ResolveEvents(old(EventValues(ps[i].1)), table);
      && (r.Pass? <==> spec.Ok?)
      && (r.Pass? ==> EventValues(ps[i].1) == spec.value)
      && (r.Fail? ==> r.error == spec.error)
    ensures ChannelsOf(ps[i + 1..]) == old(ChannelsOf(ps[i + 1..]))
  {
    SeparateListsDistinct(ps, i);
    r := ResolveChannel(ps[i].1, table);
    var later := ps[i + 1..];
    forall j, k | 0 <= j < |later| && 0 <= k < |later[j].1|
      ensures unchanged(later[j].1[k])
    {
      SeparateListsDisjoint(ps, i, i + 1 + j);
      assert later[j].1[k] in ps[i + 1 + j].1;
    }
    ChannelsOfKept(later);
  }

  /** Resolving the i-th of separately listed channels leaves the
      channels before and after it as they were. */
  method ResolveListAt(ps: seq<(Channel, seq<Event>)>, i: nat, table: map<nat, Descriptor>) returns (r: Outcome)
    requires SeparateLists(ps) && i < |ps|
    modifies ps[i].1
    ensures var spec := ResolveEvents(old(EventValues(ps[i].1)), table);
      && (r.Pass? <==> spec.Ok?)
      && (r.Pass? ==> EventValues(ps[i].1) == spec.value)
      && (r.Fail? ==> r.error == spec.error)
    ensures ChannelsOf(ps[..i]) == old(ChannelsOf(ps[..i]))
    ensures ChannelsOf(ps[i + 1..]) == old(ChannelsOf(ps[i + 1..]))
  {
    r := ResolveListKeepingLater(ps, i, table);
    var prior := ps[..i];
    forall j, k | 0 <= j < |prior| && 0 <= k < |prior[j].1|
      ensures unchanged(prior[j].1[k])
    {
      SeparateListsDisjoint(ps, j, i);
      assert prior[j].1[k] in ps[j].1;
    }
    ChannelsOfKept(prior);
  }

  /** Where the i-th listing sits in the prefix and in the suffix at i. */
  lemma ChannelsOfSplit(ps: seq<(Channel, seq<Event>)>, i: nat)
    requires i < |ps|
    ensures ChannelsOf(ps[i..]) == [Record(ps[i])] + ChannelsOf(ps[i + 1..])
    ensures ChannelsOf(ps[..i + 1]) == ChannelsOf(ps[..i]) + [Record(ps[i])]
  {
    ChannelsOfCons(ps[i..]);
    assert ps[i..][1..] == ps[i + 1..];
    assert ps[..i + 1] == ps[..i] + [ps[i]];
    ChannelsOfSnoc(ps[..i], ps[i]);
  }

  /** One step of the loop over the channel list, on values: the i-th
      channel either stops the pass with its error or joins the resolved
      prefix. */
  lemma ResolveChannelsStep(before: seq<ChannelRec>, i: nat, table: map<nat, Descriptor>, prior: seq<ChannelRec>, later: seq<ChannelRec>)
    requires i < |before| && ResolveChannels(before[..i], table) == Ok(prior)
    requires before[i..] == [before[i]] + later
    ensures var step := ResolvedChannel(before[i], table);
      && (step.Err? ==> ResolveChannels(before, table) == Err(step.error))
      && (step.Ok? ==> ResolveChannels(before[..i + 1], table) == Ok(prior + [step.value]))
      && before[i + 1..] == later
  {
    assert before[..i + 1][..i] == before[..i];
    assert before[i + 1..] == before[i..][1..];
    if ResolvedChannel(before[i], table).Err? {
      ResolveChannelsStops(before, i + 1, table);
    }
  }

  /** One round of the loop over the channel list: the i-th channel is
      resolved, the channels before it stay resolved and those after it
      stay untouched. */
  method ResolveNextChannel(ps: seq<(Channel, seq<Event>)>, ghost before: seq<ChannelRec>, i: nat, table: map<nat, Descriptor>) returns (r: Outcome)
    requires |ps| == |before| && SeparateLists(ps) && i < |ps|
    requires ResolveChannels(before[..i], table) == Ok(ChannelsOf(ps[..i]))
    requires ChannelsOf(ps[i..]) == before[i..]
    modifies ps[i].1
    ensures r.Fail? ==> ResolveChannels(before, table) == Err(r.error)
    ensures r.Pass? ==> ResolveChannels(before[..i + 1], table) == Ok(ChannelsOf(ps[..i + 1]))
    ensures r.Pass? ==> ChannelsOf(ps[i + 1..]) == before[i + 1..]
  {
    ghost var prior, rec, later := ChannelsOf(ps[..i]), Record(ps[i]), ChannelsOf(ps[i + 1..]);
    ChannelsOfSplit(ps, i);
    ResolveChannelsStep(before, i, table, prior, later);
    r := ResolveListAt(ps, i, table);
    if r.Pass? {
      ChannelsOfSplit(ps, i);
      assert Record(ps[i]) == ResolvedChannel(rec, table).value;
    }
  }

  /** The loop over the channel list from the i-th channel on, written as
      a recursion over the index: the channels before i are resolved, those
      from i on are as they were. */
  method ResolveFrom(ps: seq<(Channel, seq<Event>)>, ghost before: seq<ChannelRec>, i: nat, table: map<nat, Descriptor>) returns (r: Outcome)
    requires |ps| == |before| && SeparateLists(ps) && i <= |ps|
    requires ResolveChannels(before[..i], table) == Ok(ChannelsOf(ps[..i]))
    requires ChannelsOf(ps[i..]) == before[i..]
    modifies ListEvents(ps)
    ensures var spec := ResolveChannels(before, table);
      && (r.Pass? <==> spec.Ok?)
      && (r.Pass? ==> ChannelsOf(ps) == spec.value)
      && (r.Fail? ==> r.error == spec.error)
    decreases |ps| - i
  {
    if i == |ps| {
      assert ps[..i] == ps && before[..i] == before;
      return Pass;
    }
    ListEventsHas(ps, i);
    r := ResolveNextChannel(ps, before, i, table);
    if r.Fail? {
      return;
    }
    r := ResolveFrom(ps, before, i + 1, table);
  }

  /** The resolution pass of epg_dat_parse over every channel, event and
      checksum, in file order. */
  method ResolveAll(channels: seq<Channel>, table: map<nat, Descriptor>) returns (r: Outcome)
    requires Separate(channels)
    modifies AllEvents(channels)
    ensures var spec := ResolveChannels(old(ChannelValues(channels)), table);
      && (r.Pass? <==> spec.Ok?)
      && (r.Pass? ==> ChannelValues(channels) == spec.value)
      && (r.Fail? ==> r.error == spec.error)
  {
    var listings := Listings(channels);
    ChannelValuesAsLists(channels);
    ListEventsOf(channels);
    SeparateListings(channels);
    assert listings[0..] == listings;
    r := ResolveFrom(listings, ChannelValues(channels), 0, table);
    if r.Pass? {
      assert Listings(channels) == listings;
      ChannelValuesAsLists(channels);
    }
  }

  // ---------------------------------------------------------------------
  // epg_dat_parse

  /** epg_dat_parse up to channels_to_xmltv: the channels the file holds,
      with every event's descriptions resolved, or the error that stops
      the program.  `bigEndian` is the byte order the command line selects. */
  method EpgDatParse(data: seq<byte>, bigEndian: bool) returns (r: Result<seq<Channel>>)
    ensures var spec := Decode(data, bigEndian);
      && (r.Ok? <==> spec.Ok?)
      && (r.Err? ==> r.error == spec.error)
      && (r.Ok? ==> ChannelValues(r.value) == spec.value)
  {
    var s := new Stream(data, bigEndian);
    var magic := s.ReadU32();
    if magic.Err? {
      return Err(magic.error);
    }
    var header := s.ReadStr(13);
    if magic.value == SwappedMagic {
      s.bigEndian := true;
    } else if magic.value != NativeMagic {
      return Err(BadMagic);
    }
    if header != HeaderText {
      return Err(BadHeader);
    }
    assert s.pos == HeaderEnd && s.bigEndian == (bigEndian || magic.value == SwappedMagic);
    r := ParseBody(s);
  }

  /** The channel section past its count: the channels themselves. */
  lemma ChannelSectionAfterCount(data: seq<byte>, pos: nat, bigEndian: bool, decode: EitDecoder, numChn: int, next: nat)
    requires SignedAt(data, pos, 4, bigEndian) == Ok(numChn) && next == pos + 4
    ensures ChannelSection(data, pos, bigEndian, decode) == ChannelsAt(data, next, Count(numChn), bigEndian, decode)
  {
  }

  /** The descriptor section past its count: the descriptors themselves. */
  lemma DescriptorSectionAfterCount(data: seq<byte>, pos: nat, bigEndian: bool, numDesc: int, next: nat)
    requires SignedAt(data, pos, 4, bigEndian) == Ok(numDesc) && next == pos + 4
    ensures DescriptorSection(data, pos, bigEndian) ==
      var descs :- DescriptorsAt(data, next, Count(numDesc), bigEndian);
      Ok(Table(descs.0))
  {
  }

  /** The body past the channel section: the descriptor section that follows it. */
  lemma BodyAfterChannels(data: seq<byte>, bigEndian: bool, decode: EitDecoder, channels: seq<ChannelRec>, next: nat)
    requires ChannelSection(data, HeaderEnd, bigEndian, decode) == Ok((channels, next))
    ensures Body(data, bigEndian, decode) ==
      var table :- DescriptorSection(data, next, bigEndian);
      Ok((channels, table))
  {
  }

  /** num_chn and the channel loop of epg_dat_parse. */
  method ReadChannelSection(s: Stream, decode: EitDecoder) returns (r: Result<seq<Channel>>)
    requires s.Valid() && RefusesShortBlocks(decode)
    modifies s`pos
    ensures s.Valid()
    ensures var spec := ChannelSection(s.data, old(s.pos), s.bigEndian, decode);
      && (r.Ok? <==> spec.Ok?)
      && (r.Err? ==> r.error == spec.error)
      && (r.Ok? ==>
        && (forall e :: e in AllEvents(r.value) ==> fresh(e)) && Separate(r.value)
        && ChannelValues(r.value) == spec.value.0 && s.pos == spec.value.1)
  {
    ghost var at := s.pos;
    var numChn := s.ReadI32();
    if numChn.Err? {
      return Err(numChn.error);
    }
    ChannelSectionAfterCount(s.data, at, s.bigEndian, decode, numChn.value, s.pos);
    r := ReadChannels(s, numChn.value, decode);
  }

  /** num_desc and the descriptor loop of epg_dat_parse. */
  method ReadDescriptorSection(s: Stream) returns (r: Result<map<nat, Descriptor>>)
    requires s.Valid()
    modifies s`pos
    ensures s.Valid()
    ensures r == DescriptorSection(s.data, old(s.pos), s.bigEndian)
  {
    ghost var at := s.pos;
    var numDesc := s.ReadI32();
    if numDesc.Err? {
      return Err(numDesc.error);
    }
    DescriptorSectionAfterCount(s.data, at, s.bigEndian, numDesc.value, s.pos);
    r := ReadDescriptors(s, numDesc.value);
  }

  /** Everything after the header as read: the channel section and the
      descriptor section. */
  method ReadBody(s: Stream, decode: EitDecoder) returns (r: Result<(seq<Channel>, map<nat, Descriptor>)>)
    requires s.Valid() && s.pos == HeaderEnd && RefusesShortBlocks(decode)
    modifies s`pos
    ensures var spec := Body(s.data, s.bigEndian, decode);
      && (r.Ok? <==> spec.Ok?)
      && (r.Err? ==> r.error == spec.error)
      && (r.Ok? ==>
        && (forall e :: e in AllEvents(r.value.0) ==> fresh(e)) && Separate(r.value.0)
        && ChannelValues(r.value.0) == spec.value.0 && r.value.1 == spec.value.1)
  {
    var channels := ReadChannelSection(s, decode);
    if channels.Err? {
      return Err(channels.error);
    }
    var chans := channels.value;
    BodyAfterChannels(s.data, s.bigEndian, decode, ChannelValues(chans), s.pos);
    label Channels:
    var table := ReadDescriptorSection(s);
    if table.Err? {
      return Err(table.error);
    }
    ChannelValuesKept@Channels(chans);
    r := Ok((chans, table.value));
  }

  /** Everything after the header: the body as read, then the resolution
      pass. */
  method ParseBody(s: Stream) returns (r: Result<seq<Channel>>)
    requires s.Valid() && s.pos == HeaderEnd
    modifies s`pos
    ensures var spec := DecodeBody(s.data, s.bigEndian);
      && (r.Ok? <==> spec.Ok?)
      && (r.Err? ==> r.error == spec.error)
      && (r.Ok? ==> ChannelValues(r.value) == spec.value)
  {
    DecodeEitRefusesShortBlocks();
    var body := ReadBody(s, DecodeEit);
    if body.Err? {
      return Err(body.error);
    }
    var channels := body.value.0;
    assert DecodeBody(s.data, s.bigEndian) == ResolveChannels(ChannelValues(channels), body.value.1);
    var o := ResolveAll(channels, body.value.1);
    if o.Fail? {
      return Err(o.error);
    }
    r := Ok(channels);
  }
}
