/**
 * The Event and Channel classes, the descriptor record, and add_desc:
 * the dispatch of a raw descriptor on its tag byte (0x4D short event
 * descriptor, ETSI EN 300 468 section 6.2.37; 0x4E extended event
 * descriptor, section 6.2.15) and, for 0x4E, on the byte the program calls
 * the long description type (ONCE 0x00, START 0x01, ADD 0x11; in the
 * standard this byte holds descriptor_number and last_descriptor_number).
 *
 * A descriptor's data is [tag, length, body...], so the program's offsets
 * count from the tag: language data[2:5] and text data[7:] for 0x4D;
 * type data[2], language data[3:6] and text data[8:] (ONCE, ADD) or
 * data[9:] (START) for 0x4E.
 */
module Records {
  import opened Base
  import opened EitTime
  import opened Descriptions

  const ShortEventTag: byte := 0x4D
  const ExtendedEventTag: byte := 0x4E
  const LongOnce: byte := 0x00
  const LongStart: byte := 0x01
  const LongAdd: byte := 0x11

  /** A descriptor as epg_parse_desc returns it: id, reference count, and
      data = [tag, length, length more bytes]. */
  datatype Descriptor = Descriptor(id: nat, refs: int, data: seq<byte>)

  /** What an event's short_desc or long_desc attribute holds: the empty
      string it starts with, None, or a Description. */
  datatype Slot = Unset | Null | Holds(desc: Description)

  /** The state of one Event object. */
  datatype EventRec = EventRec(typ: byte, len: byte, eit: Eit, crcs: seq<nat>, shortDesc: Slot, longDesc: Slot)

  /** The state of one Channel object, with its events' states in order. */
  datatype ChannelRec = ChannelRec(sid: int, nid: int, tsid: int, events: seq<EventRec>)

  /** add_desc on an event's state: the new (short_desc, long_desc), or the
      exception it raises.  An ADD fragment is appended to the Description
      in long_desc, but long_desc is then assigned what append returns,
      which is None; with no Description there, the call raises.  An
      unknown tag or long description type is only reported, and leaves
      both attributes as they were. */
  function AddDescSpec(e: EventRec, data: seq<byte>): Result<EventRec>
  {
    if |data| == 0 then Err(IndexOutOfRange)
    else if data[0] == ShortEventTag then
      Ok(e.(shortDesc := Holds(MakeDescription(Slice(data, 2, 5), true, From(data, 7)))))
    else if data[0] == ExtendedEventTag then
      if |data| < 3 then Err(IndexOutOfRange)
      else if data[2] == LongOnce then
        Ok(e.(longDesc := Holds(MakeDescription(Slice(data, 3, 6), false, From(data, 8)))))
      else if data[2] == LongStart then
        Ok(e.(longDesc := Holds(MakeDescription(Slice(data, 3, 6), false, From(data, 9)))))
      else if data[2] == LongAdd then
        if e.longDesc.Holds? then Ok(e.(longDesc := Null)) else Err(NoAppend)
      else Ok(e)
    else Ok(e)
  }

  /** The Description an ADD fragment's bytes extend d to. */
  function Extended(d: Description, bytes: seq<byte>): Description
  {
    d.(text := d.text + TakeUntilZero(bytes))
  }

  /** add_desc with an ADD fragment keeping the Description it extends, as
      the fragmentation of an extended event descriptor intends. */
  function AddDescIntended(e: EventRec, data: seq<byte>): Result<EventRec>
  {
    if |data| >= 3 && data[0] == ExtendedEventTag && data[2] == LongAdd then
      if e.longDesc.Holds? then Ok(e.(longDesc := Holds(Extended(e.longDesc.desc, From(data, 8)))))
      else Err(NoAppend)
    else AddDescSpec(e, data)
  }

  /** Fragments of an extended event descriptor, as add_desc sees them. */
  predicate IsStart(data: seq<byte>)
  {
    |data| >= 3 && data[0] == ExtendedEventTag && data[2] == LongStart
  }

  predicate IsAdd(data: seq<byte>)
  {
    |data| >= 3 && data[0] == ExtendedEventTag && data[2] == LongAdd
  }

  /** A START fragment followed by an ADD fragment leaves the event without
      a long description text, and a second ADD fragment raises. */
  lemma StartAddLosesText(e: EventRec, start: seq<byte>, add: seq<byte>)
    requires IsStart(start) && IsAdd(add)
    ensures var first := AddDescSpec(e, start);
      && first.Ok?
      && AddDescSpec(first.value, add).Ok?
      && SlotText(AddDescSpec(first.value, add).value.longDesc) == None
      && AddDescSpec(AddDescSpec(first.value, add).value, add) == Err(NoAppend)
  {
  }

  /** With the ADD fragment extending the long description, a START
      fragment followed by ADD fragments yields the START text followed by
      each ADD text, in order. */
  lemma StartAddConcatenates(e: EventRec, start: seq<byte>, add: seq<byte>, add': seq<byte>)
    requires IsStart(start) && IsAdd(add) && IsAdd(add')
    ensures var first := AddDescIntended(e, start);
      && first.Ok?
      && AddDescIntended(first.value, add).Ok?
      && var second := AddDescIntended(first.value, add).value;
      && SlotText(second.longDesc) == Some(InitialText(false, From(start, 9)) + TakeUntilZero(From(add, 8)))
      && AddDescIntended(second, add').Ok?
      && SlotText(AddDescIntended(second, add').value.longDesc)
         == Some(InitialText(false, From(start, 9)) + TakeUntilZero(From(add, 8)) + TakeUntilZero(From(add', 8)))
  {
  }

  /** Event.title() / Event.desc(): the text when the attribute holds a
      Description (an object is always true), nothing for "" or None. */
  function SlotText(s: Slot): Option<seq<byte>>
  {
    if s.Holds? then Some(s.desc.text) else None
  }

  class Event {
    const typ: byte
    const len: byte
    var eit: Eit
    var crcs: seq<nat>
    var shortDesc: Slot
    var longDesc: Slot

    function Value(): EventRec
      reads this
    {
      EventRec(typ, len, eit, crcs, shortDesc, longDesc)
    }

    /** Event(type, len) followed by the assignment of its EIT block. */
    constructor (typ: byte, len: byte, eit: Eit)
      ensures Value() == EventRec(typ, len, eit, [], Unset, Unset)
    {
      this.typ := typ;
      this.len := len;
      this.eit := eit;
      crcs := [];
      shortDesc := Unset;
      longDesc := Unset;
    }

    method AddCrc(crc: nat)
      modifies this`crcs
      ensures Value() == old(Value()).(crcs := old(crcs) + [crc])
    {
      crcs := crcs + [crc];
    }

    method AddDesc(desc: Descriptor) returns (r: Outcome)
      modifies this`shortDesc, this`longDesc
      ensures AddDescSpec(old(Value()), desc.data).Ok? <==> r.Pass?
      ensures r.Pass? ==> Value() == AddDescSpec(old(Value()), desc.data).value
      ensures r.Fail? ==> r.error == AddDescSpec(old(Value()), desc.data).error && Value() == old(Value())
    {
      var data := desc.data;
      if |data| == 0 {
        return Fail(IndexOutOfRange);
      }
      if data[0] == ShortEventTag {
        var d := NewDescription(Slice(data, 2, 5), true, From(data, 7));
        shortDesc := Holds(d);
      } else if data[0] == ExtendedEventTag {
        if |data| < 3 {
          return Fail(IndexOutOfRange);
        }
        if data[2] == LongOnce {
          var d := NewDescription(Slice(data, 3, 6), false, From(data, 8));
          longDesc := Holds(d);
        } else if data[2] == LongStart {
          var d := NewDescription(Slice(data, 3, 6), false, From(data, 9));
          longDesc := Holds(d);
        } else if data[2] == LongAdd {
          if !longDesc.Holds? {
            return Fail(NoAppend);
          }
          // append extends the Description in place and returns None,
          // which becomes the new long_desc; the extended text is lost.
          var extended := Append(longDesc.desc, From(data, 8));
          longDesc := Null;
        }
      }
      r := Pass;
    }

    function Title(): (t: Option<seq<byte>>)
      reads this
      ensures t.Some? <==> shortDesc.Holds?
      ensures t.Some? ==> t.value == shortDesc.desc.text
    {
      SlotText(shortDesc)
    }

    function Desc(): (t: Option<seq<byte>>)
      reads this
      ensures t.Some? <==> longDesc.Holds?
      ensures t.Some? ==> t.value == longDesc.desc.text
    {
      SlotText(longDesc)
    }
  }

  /** The states of a sequence of events, in order. */
  function EventValues(es: seq<Event>): (r: seq<EventRec>)
    reads es
    ensures |r| == |es|
  {
    if es == [] then [] else EventValues(es[..|es| - 1]) + [es[|es| - 1].Value()]
  }

  lemma {:induction false} EventValuesAt(es: seq<Event>, j: nat)
    requires j < |es|
    ensures EventValues(es)[j] == es[j].Value()
  {
    if j < |es| - 1 {
      EventValuesAt(es[..|es| - 1], j);
    }
  }

  lemma EventValuesSnoc(es: seq<Event>, e: Event)
    ensures EventValues(es + [e]) == EventValues(es) + [e.Value()]
  {
    assert (es + [e])[..|es|] == es;
  }

  class Channel {
    const sid: int
    const nid: int
    const tsid: int
    var events: seq<Event>

    function Value(): ChannelRec
      reads this, events
    {
      ChannelRec(sid, nid, tsid, EventValues(events))
    }

    constructor (sid: int, nid: int, tsid: int)
      ensures this.sid == sid && this.nid == nid && this.tsid == tsid && events == []
    {
      this.sid := sid;
      this.nid := nid;
      this.tsid := tsid;
      events := [];
    }

    method AddEvent(e: Event)
      modifies this`events
      ensures events == old(events) + [e]
    {
      events := events + [e];
    }

    /** Channel.id(): "%X:%X:%X" of the three identifiers. */
    function Id(): string
    {
      ChannelId(sid, nid, tsid)
    }
  }

  function HexDigit(d: nat): (c: char)
    requires d < 16
    ensures c != ':' && c != '-'
  {
    "0123456789ABCDEF"[d]
  }

  /** "%X" of a natural number: upper-case hexadecimal, no leading zeros. */
  function Hex(n: nat): (s: string)
    ensures |s| >= 1 && s[0] != '-'
    ensures forall i :: 0 <= i < |s| ==> s[i] != ':'
  {
    if n < 16 then [HexDigit(n)] else Hex(n / 16) + [HexDigit(n % 16)]
  }

  /** "%X" of an integer: a minus sign before the magnitude when negative. */
  function HexInt(n: int): (s: string)
    ensures forall i :: 0 <= i < |s| ==> s[i] != ':'
  {
    if n < 0 then "-" + Hex(-n) else Hex(n)
  }

  function ChannelId(sid: int, nid: int, tsid: int): string
  {
    HexInt(sid) + ":" + HexInt(nid) + ":" + HexInt(tsid)
  }

  function HexDigitValue(c: char): nat
  {
    if '0' <= c <= '9' then c as int - '0' as int
    else if 'A' <= c <= 'F' then c as int - 'A' as int + 10
    else 0
  }

  /** Reads back a string of upper-case hexadecimal digits. */
  function HexValue(s: string): nat
  {
    if s == [] then 0 else HexValue(s[..|s| - 1]) * 16 + HexDigitValue(s[|s| - 1])
  }

  function HexIntValue(s: string): int
  {
    if s != [] && s[0] == '-' then -(HexValue(s[1..]) as int) else HexValue(s)
  }

  lemma {:induction false} HexRoundTrip(n: nat)
    ensures HexValue(Hex(n)) == n
  {
    if n >= 16 {
      HexRoundTrip(n / 16);
      var s := Hex(n);
      assert s[..|s| - 1] == Hex(n / 16);
    }
    var d := n % 16;
    assert HexDigitValue(HexDigit(d)) == d;
  }

  /** Reading the "%X" spelling back gives the number, negative or not. */
  lemma HexIntRoundTrip(n: int)
    ensures HexIntValue(HexInt(n)) == n
  {
    if n < 0 {
      HexRoundTrip(-n);
      assert ("-" + Hex(-n))[1..] == Hex(-n);
    } else {
      HexRoundTrip(n);
    }
  }

  /** A colon-free head followed by a colon puts the first colon right after it. */
  lemma FirstColon(x: string, y: string)
    requires forall i :: 0 <= i < |x| ==> x[i] != ':'
    ensures forall i :: 0 <= i < |x| ==> (x + ":" + y)[i] != ':'
    ensures (x + ":" + y)[|x|] == ':'
  {
  }

  /** Splitting at the first colon: two colon-free heads that are followed
      by a colon in equal strings are equal, and so are the tails. */
  lemma SplitAtColon(x: string, y: string, x': string, y': string)
    requires forall i :: 0 <= i < |x| ==> x[i] != ':'
    requires forall i :: 0 <= i < |x'| ==> x'[i] != ':'
    requires x + ":" + y == x' + ":" + y'
    ensures x == x' && y == y'
  {
    var l, r := x + ":" + y, x' + ":" + y';
    FirstColon(x, y);
    FirstColon(x', y');
    assert |x| == |x'|;
    assert x == l[..|x|] && x' == r[..|x'|];
    assert y == l[|x| + 1..] && y' == r[|x'| + 1..];
  }

  /** The id string as the first identifier, a colon, and the rest. */
  lemma ChannelIdParts(sid: int, nid: int, tsid: int)
    ensures ChannelId(sid, nid, tsid) == HexInt(sid) + ":" + (HexInt(nid) + ":" + HexInt(tsid))
  {
  }

  /** Channel.id() determines the three identifiers: distinct identifier
      triples never share an id string. */
  lemma ChannelIdInjective(sid: int, nid: int, tsid: int, sid': int, nid': int, tsid': int)
    requires ChannelId(sid, nid, tsid) == ChannelId(sid', nid', tsid')
    ensures sid == sid' && nid == nid' && tsid == tsid'
  {
    var a, b, c := HexInt(sid), HexInt(nid), HexInt(tsid);
    var a', b', c' := HexInt(sid'), HexInt(nid'), HexInt(tsid');
    ChannelIdParts(sid, nid, tsid);
    ChannelIdParts(sid', nid', tsid');
    SplitAtColon(a, b + ":" + c, a', b' + ":" + c');
    SplitAtColon(b, c, b', c');
    HexIntRoundTrip(sid);
    HexIntRoundTrip(sid');
    HexIntRoundTrip(nid);
    HexIntRoundTrip(nid');
    HexIntRoundTrip(tsid);
    HexIntRoundTrip(tsid');
  }

  lemma ChannelIdExample()
    ensures ChannelId(-31, 0, 0x3F2) == "-1F:0:3F2"
  {
    assert Hex(0x3F) == Hex(3) + [HexDigit(15)] == "3F";
    assert Hex(0x3F2) == "3F2";
    assert Hex(31) == "1F";
  }
}
