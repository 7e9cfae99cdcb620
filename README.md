# enigma2-epg in Dafny

A model of the decoding core of `enigma2-epg.py`. The script reads an Enigma2
`epg.dat` dump, which is the electronic programme guide cache of a satellite
receiver, and turns it into XMLTV. This model covers the decode and resolve
part, up to the point where the script hands its channel list to the XMLTV
writer:

- **Primitive reader** (`reader.dfy`). This is the `read_*` family. A `Stream`
  class holds the file contents, a cursor and the byte order; the global
  `BIG_ENDIAN` flag becomes the stream's `bigEndian` field. Fixed-width reads
  fail with `UnexpectedEof` (the `struct.error` of a short read). `read_str`
  returns whatever bytes are left.
- **BCD and EIT time** (`bcd.dfy`, `eit_time.dfy`).
  - `bcd_to_int` is a nibble loop that builds a decimal string.
  - `eit_event_id`, `eit_event_start` and `eit_event_duration` decode the
    10-byte EIT block (event_id, start_time and duration of ETSI EN 300 468
    section 5.2.4).
  - The start time uses the Modified Julian Date conversion of EN 300 468
    Annex C. The script writes it with float literals and `int()`; here it
    is exact rational arithmetic with truncation toward zero.
- **Descriptions** (`description.dfy`). The `Description` constructor and
  `append` copy zero-terminated language and text bytes. Short mode skips
  leading 0x15 control bytes.
- **Records** (`records.dfy`).
  - `Event` and `Channel` are classes whose fields the methods update.
  - `add_desc` dispatches on the descriptor tag: 0x4D is the short event
    descriptor (EN 300 468 section 6.2.37), 0x4E the extended event
    descriptor (section 6.2.15). For 0x4E it also dispatches on the
    ONCE/START/ADD byte.
  - `Channel.id` formats the three identifiers as hex.
- **Record parsers** (`parser.dfy`). These are `epg_parse_event`,
  `epg_parse_channel` and `epg_parse_desc`. Each is a method on the stream,
  proved against a function from (contents, offset) to (record, next offset)
  or an error.
- **Top level** (`decoder.dfy`). This is `epg_dat_parse`:
  - the magic and header checks, where exits 3 and 4 become the `BadMagic`
    and `BadHeader` errors;
  - the channel list;
  - the descriptor table, in which the last descriptor with a given id wins;
  - the resolution pass, which hands each event the descriptors its
    checksums name, in checksum order.

  `Decoder.Decode` is the whole computation on values. `Decoder.EpgDatParse`
  is the imperative version over `Stream`, `Event` and `Channel` objects,
  proved to agree with it.

Errors that stop the script become `Err` values of `Base.Error`:

| Error | Cause in the script |
|---|---|
| `UnexpectedEof` | `struct.error` |
| `BadMagic` | exit 3 |
| `BadHeader` | exit 4 |
| `InvalidDate` | `datetime` `ValueError` |
| `InvalidArgument` | `bcd_to_int` on a negative number |
| `IndexOutOfRange` | a descriptor too short for `add_desc`'s indexing |
| `NoAppend` | an ADD fragment with no `Description` to append to |

Three behaviours of the script that are easy to misread:

- **The MJD conversion.** MJD 58849 converts to 2020-01-01 (`EitTime.MjdExamples`).
- **`bcd_to_int` on nibbles A–F.** Each such nibble spells two decimal digits,
  so 0xAB gives 1011 (`Bcd.BcdExamples`).
- **An ADD fragment of an extended description.** Its text is appended, but
  `long_desc` then becomes `None`, so the text is lost and a further ADD
  fragment stops the script. The model, `Decoder.Decode` included, does
  exactly this; see Findings.

## Model

| member | source | states |
|---|---|---|
| Reader.Stream.constructor | enigma2-epg.py:335-337 | the stream starts at offset 0 over the file's bytes, in the byte order the command line chose |
| Reader.Stream.ReadStr | enigma2-epg.py:183-184 | returns the next min(n, remaining) bytes and advances past exactly those; never fails |
| Reader.Stream.ReadU8 | enigma2-epg.py:205-206 | the byte at the cursor, or UnexpectedEof at the end of the data; the cursor moves by one byte, clamped to the end |
| Reader.Stream.ReadI8 | enigma2-epg.py:186-187 | the byte at the cursor as a two's-complement signed value, or UnexpectedEof |
| Reader.Stream.ReadU16 | enigma2-epg.py:208-214 | the 2-byte unsigned value in the stream's byte order, or UnexpectedEof when fewer than 2 bytes remain |
| Reader.Stream.ReadI16 | enigma2-epg.py:189-195 | the 2-byte two's-complement value in the stream's byte order, or UnexpectedEof |
| Reader.Stream.ReadU32 | enigma2-epg.py:216-222 | the 4-byte unsigned value in the stream's byte order, or UnexpectedEof when fewer than 4 bytes remain |
| Reader.Stream.ReadI32 | enigma2-epg.py:197-203 | the 4-byte two's-complement value in the stream's byte order, or UnexpectedEof |
| Reader.UnsignedAt | enigma2-epg.py:208-222 | succeeds exactly when the width fits in the data; the value is below 256^width |
| Reader.SignedAt | enigma2-epg.py:189-203 | succeeds exactly when the width fits; the value is the unsigned one reinterpreted as two's complement |
| Reader.BigEndianRoundTrip | enigma2-epg.py:208-222 | decoding the k-byte big-endian encoding of any v < 256^k gives v back |
| Reader.BigEndianEncodeDecode | enigma2-epg.py:208-222 | re-encoding a decoded byte string gives the same bytes |
| Reader.LittleIsReversedBig | enigma2-epg.py:208-222 | a little-endian read is the big-endian read of the reversed bytes |
| Reader.SignedRange | enigma2-epg.py:189-203 | a signed read lies in [-256^k/2, 256^k/2) and equals the unsigned read or that minus 256^k |
| Reader.OneByteIgnoresOrder | enigma2-epg.py:186-187 | a one-byte read gives the byte itself in either byte order |
| Bcd.BcdToInt | enigma2-epg.py:168-181 | a negative input fails with InvalidArgument; any other input yields BcdValue, the number its nibble spellings read as decimal |
| Bcd.BcdString | enigma2-epg.py:175-179 | the string built is all decimal digits, and empty exactly for 0 |
| Bcd.BcdSpelling | enigma2-epg.py:175-181 | the decimal value of the concatenated nibble spellings is BcdValue |
| Bcd.BcdByte | enigma2-epg.py:175-181 | for one byte: the high nibble shifted by one or two decimal places, depending on the low nibble, plus the low nibble |
| Bcd.BcdDigitsByte | enigma2-epg.py:175-181 | a byte whose nibbles are both 0-9 decodes as ordinary BCD, 10·high + low |
| Bcd.BcdExamples | enigma2-epg.py:168-181 | 0x00 → 0, 0x45 → 45, 0x99 → 99, 0xAB → 1011 |
| Bcd.BcdRoundTrip | enigma2-epg.py:168-181 | every natural number is the decoding of its BCD encoding |
| EitTime.EventId | enigma2-epg.py:225-226 | bytes 0-1 read big-endian; fails exactly when the block has fewer than 2 bytes |
| EitTime.StartTimeSpec | enigma2-epg.py:228-245 | the start is the Annex C date of bytes 2-3 big-endian with BCD hour (byte 4) and minute (byte 5), or InvalidDate when datetime would refuse it |
| EitTime.DurationSpec | enigma2-epg.py:247-252 | duration = 3600·bcd(byte 7) + 60·bcd(byte 8) + bcd(byte 9) |
| EitTime.ShortBlockFails | enigma2-epg.py:225-252 | a block too short for a field's unpack fails with UnexpectedEof |
| EitTime.DecodeEitIgnoresByte6 | enigma2-epg.py:225-252 | changing byte 6 of the block changes nothing in the decoded EIT |
| EitTime.StartTimeIgnoresByte6 | enigma2-epg.py:228-245 | the start time does not depend on byte 6 |
| EitTime.DurationIgnoresByte6 | enigma2-epg.py:247-252 | the duration does not depend on byte 6 |
| EitTime.DurationExample | enigma2-epg.py:247-252 | duration bytes 01 30 00 give 5400 seconds |
| EitTime.PartsBounds | enigma2-epg.py:231-233 | for MJD ≥ 15079 the month counter is 4..15 and the day is within that month |
| EitTime.MjdRoundTrip | enigma2-epg.py:229-240 | for MJD ≥ 15079 the reverse Annex C formula maps the computed date back to the same MJD |
| EitTime.MjdDateValid | enigma2-epg.py:229-240 | every 16-bit MJD from 15079 converts to a real calendar date between 1900 and 2038 |
| EitTime.StartTimeOkIff | enigma2-epg.py:242-245 | for MJD ≥ 15079 the start decodes exactly when the BCD hour is ≤ 23 and the BCD minute ≤ 59 |
| EitTime.MjdExamples | enigma2-epg.py:229-240 | 58849 → 2020-01-01, 45218 → 1982-09-06 |
| EitTime.MjdRangeEnds | enigma2-epg.py:229-240 | 15079 → 1900-03-01 and 65535 → 2038-04-22, the ends of the range the formula is proved on |
| EitTime.EarlyMjdRejected | enigma2-epg.py:231-245 | MJD 0 gives month -1 and MJD 15078 gives 31 February 1900; datetime refuses both, so the start fails with InvalidDate |
| Descriptions.NewDescription | enigma2-epg.py:25-44 | builds MakeDescription: lang up to its first zero, the short flag, and the initial text |
| Descriptions.CopyLang | enigma2-epg.py:30-34 | the language loop keeps exactly the bytes before the first zero |
| Descriptions.CopyText | enigma2-epg.py:36-44 | the text loop keeps the bytes before the first zero, after dropping every leading 0x15 in short mode |
| Descriptions.Append | enigma2-epg.py:46-51 | the text grows by the argument's bytes before its first zero; language and flag are unchanged |
| Descriptions.LeadingControlShape | enigma2-epg.py:36-39 | the skipped prefix is all 0x15 and is followed by a byte that is not 0x15 (or the end) |
| Descriptions.InitialTextShape | enigma2-epg.py:36-44 | the text is a contiguous zero-free run of the input right after the skipped prefix, ends at a zero byte or the end, and in short mode does not start with 0x15 |
| Descriptions.ShortTextExample | enigma2-epg.py:36-44 | 15 15 41 15 00 in short mode gives 41 15 (a later 0x15 is kept); 15 41 00 outside short mode keeps the 0x15 |
| Records.StartAddLosesText | enigma2-epg.py:92-95 | under add_desc as written (AddDescSpec), START then ADD leaves no long description text, and a second ADD raises |
| Records.StartAddConcatenates | enigma2-epg.py:92-95 | under the corrected add_desc (AddDescIntended), START then ADD then ADD gives the START text followed by both ADD texts |
| Records.Event.constructor | enigma2-epg.py:75-81 | a new event has its type and length, no checksums and both descriptions unset |
| Records.Event.AddCrc | enigma2-epg.py:83-84 | appends the checksum and changes nothing else |
| Records.Event.AddDesc | enigma2-epg.py:86-99 | the new short_desc/long_desc are those of AddDescSpec: 0x4D sets the short description; 0x4E ONCE and START replace the long one; ADD sets long_desc to None when it holds a Description and otherwise fails with NoAppend; a descriptor too short to index fails with IndexOutOfRange; other tags and types change nothing; on failure the event is unchanged |
| Records.Event.Title | enigma2-epg.py:116-120 | a title exactly when short_desc holds a Description, and then its text |
| Records.Event.Desc | enigma2-epg.py:101-105 | a description exactly when long_desc holds a Description, and then its text |
| Records.Channel.constructor | enigma2-epg.py:126-130 | a new channel has its three identifiers and no events |
| Records.Channel.AddEvent | enigma2-epg.py:132-133 | appends the event to the channel's list |
| Records.Hex | enigma2-epg.py:136 | "%X" of a natural number: nonempty, no sign, no colon |
| Records.HexRoundTrip | enigma2-epg.py:136 | reading back the hex spelling gives the number |
| Records.HexIntRoundTrip | enigma2-epg.py:136 | reading back the signed hex spelling gives the integer |
| Records.ChannelIdInjective | enigma2-epg.py:135-136 | two channels with the same id string have the same sid, nid and tsid |
| Records.ChannelIdExample | enigma2-epg.py:135-136 | sid -31, nid 0, tsid 0x3F2 give "-1F:0:3F2" |
| Parser.DecodeEitRefusesShortBlocks | enigma2-epg.py:257-261 | an EIT block cut short by read_str fails to decode |
| Parser.CrcCountBounds | enigma2-epg.py:258 | a length below 14 announces no checksums; otherwise the checksums fill the length after the EIT block, leaving up to 3 bytes over |
| Parser.EventHeadSpec | enigma2-epg.py:255-261 | type, length and EIT are read exactly when 12 bytes remain and the EIT block decodes |
| Parser.EventAtSpec | enigma2-epg.py:254-268 | an event is read exactly when its 12 + 4n bytes are there and the EIT decodes; it consumes exactly 12 + 4n bytes and holds the n checksums in stream order, with n = max(0, (len-10) div 4) |
| Parser.EventByteOrder | enigma2-epg.py:254-268 | the byte order changes only the checksum values, never success, length or the other fields |
| Parser.EventsAtCount | enigma2-epg.py:278-281 | a successful run of n events holds n events and consumes at least 12n bytes |
| Parser.ChannelAtSpec | enigma2-epg.py:270-283 | a channel read takes sid, nid and tsid from the first three i32, holds max(0, count) events and consumes at least 16 + 12·events bytes |
| Parser.DescriptorAtSpec | enigma2-epg.py:285-300 | a descriptor is read exactly when 10 + len bytes are there; data = [tag, len, len bytes], 2 + len long; consumes 10 + len bytes; any short read is UnexpectedEof |
| Parser.ReadCrcs | enigma2-epg.py:263-266 | the checksum loop appends exactly the spec's checksums and advances 4 bytes each, or fails as the spec does |
| Parser.ReadEventHead | enigma2-epg.py:255-261 | reads type, length and the EIT block as EventHeadAt says and advances 12 bytes |
| Parser.ParseEvent | enigma2-epg.py:254-268 | a fresh Event whose state is EventAt's record, with the cursor after it, or EventAt's error |
| Parser.ReadChannelHead | enigma2-epg.py:271-274 | reads the four i32 fields and advances 16 bytes |
| Parser.ReadEvents | enigma2-epg.py:278-281 | the event loop fills the channel with distinct fresh events whose states are EventsAt's records, or fails with its error |
| Parser.ParseChannel | enigma2-epg.py:270-283 | a fresh Channel with distinct fresh events whose state is ChannelAt's record, with the cursor after it, or ChannelAt's error |
| Parser.ParseDescriptor | enigma2-epg.py:285-300 | returns DescriptorAt's descriptor with the cursor after it, or its error |
| Decoder.TableLastWins | enigma2-epg.py:361-366 | every descriptor's id is a key, and each key maps to the last descriptor in file order with that id |
| Decoder.TableHasAll | enigma2-epg.py:361-366 | every descriptor read is findable by its id |
| Decoder.TableHoldsLast | enigma2-epg.py:361-366 | a key maps to a descriptor with that id that no later descriptor overrides |
| Decoder.TableExample | enigma2-epg.py:365 | of two descriptors with one id, the second wins |
| Decoder.ResolveCrcsKeeps | enigma2-epg.py:370-372 | resolution changes nothing but the two description attributes |
| Decoder.ResolveSkipsUnknown | enigma2-epg.py:371 | checksums that name no descriptor leave the event as it is |
| Decoder.ResolveStartAddLosesText | enigma2-epg.py:370-372 | through add_desc's line 95, checksums naming a START then an ADD fragment leave the event with no long description text; a second ADD stops the pass with NoAppend |
| Decoder.ResolveCrcsAppend | enigma2-epg.py:370-372 | resolving a + b is resolving a, then b from the result: descriptors apply in checksum order |
| Decoder.ResolveCrcsStops | enigma2-epg.py:370-372 | the first failing add_desc stops the event's resolution with its error |
| Decoder.ResolveEventsStops | enigma2-epg.py:369-372 | a failure in an event stops the channel's resolution with that error |
| Decoder.ResolveChannelsStops | enigma2-epg.py:368-372 | a failure in a channel stops the whole pass with that error |
| Decoder.ResolveEventsEach | enigma2-epg.py:369-372 | a channel resolves exactly when each of its events does, and each event's result depends on that event alone |
| Decoder.ResolveChannelsShape | enigma2-epg.py:368-372 | resolution keeps the channel count, every channel's identifiers and its event count |
| Decoder.MagicValues | enigma2-epg.py:337-346 | the two magic byte patterns read as 0x98765432 and 0x32547698, swapped by the byte order |
| Decoder.MagicAccepted | enigma2-epg.py:343-347 | the magic is accepted exactly when the first four bytes are one of the two patterns, in either byte order |
| Decoder.DecodeTooShort | enigma2-epg.py:337 | fewer than 4 bytes fail with UnexpectedEof |
| Decoder.DecodeBadMagic | enigma2-epg.py:343-347 | any other first four bytes give BadMagic, before the header is looked at |
| Decoder.DecodeBadHeader | enigma2-epg.py:349-350 | an accepted magic followed by anything but "ENIGMA_EPG_V7" gives BadHeader |
| Decoder.DecodeByteOrder | enigma2-epg.py:343-344 | after the checks the body is read big-endian when the flag is set or the file's magic is big-endian |
| Decoder.BigEndianFileIgnoresFlag | enigma2-epg.py:343-344 | a big-endian file decodes the same whatever the command line says |
| Decoder.ReadDescriptors | enigma2-epg.py:361-366 | the descriptor loop builds Table of DescriptorsAt's descriptors, or fails with its error |
| Decoder.ReadChannels | enigma2-epg.py:356-359 | the channel loop builds channels whose states are ChannelsAt's records, with pairwise disjoint fresh event lists, or fails with its error |
| Decoder.ReadChannelSection | enigma2-epg.py:352-359 | num_chn and the channels, as ChannelSection says |
| Decoder.ReadDescriptorSection | enigma2-epg.py:361-366 | num_desc and the descriptor table, as DescriptorSection says |
| Decoder.ReadBody | enigma2-epg.py:352-366 | channels then table, as Body says |
| Decoder.ResolveEvent | enigma2-epg.py:370-372 | one event's checksum loop leaves the event in ResolvedEvent's state, or fails with its error |
| Decoder.ResolveChannel | enigma2-epg.py:369-372 | the event loop leaves the events in ResolveEvents' states, or fails with its error |
| Decoder.ResolveAll | enigma2-epg.py:368-372 | the channel loop leaves every channel in ResolveChannels' state, or fails with its error |
| Decoder.ParseBody | enigma2-epg.py:352-372 | body and resolution on the stream agree with DecodeBody |
| Decoder.EpgDatParse | enigma2-epg.py:330-372 | the whole decode on objects fails exactly when Decode does, with the same error, and otherwise yields channels whose states are Decode's |

## Left out

- Command line, file handling and process control. This covers `main`, `getopt`, `open` and `close`. The file is the byte sequence a `Stream` holds. `sys.exit(3)` and `sys.exit(4)` become the `BadMagic` and `BadHeader` errors.
- XMLTV output: `channels_to_xmltv`, `indent`, and `Event.date`, `start` and `stop`. These are `strftime`/`timedelta` formatting with a fixed " +0100" suffix and ElementTree serialisation, library code outside the decoder.
- UTF-8 decoding in `Event.title` and `Event.desc`. The model returns the text bytes that are decoded there.
- Debug output: every `print`, the `__str__` methods, `array_to_str` and `VERBOSE`. An unsupported tag or long description type is therefore only "changes nothing".
- `datetime.datetime` as a type: a start is the five integers passed to its constructor. Its range checks are kept, as the InvalidDate error.
- Floating point in `eit_event_start`: each literal is an exact fraction and `int()` truncates toward zero. Where double rounding could move a quotient across an integer, the model gives the exact result.
- The EIT conversion is a parameter of the record readers (`Parser.EitDecoder`); the decoder passes `EitTime.DecodeEit`.
- A `Description` is a value, because the script never shares one between events. `append`'s in-place update is `Descriptions.Append` returning the extended value. In `add_desc` that value is dropped, as the script drops the object when it sets `long_desc` to None.
- The descriptor dictionary is keyed by the id itself rather than by `str(id)`, because `str` is injective on integers.
- The corrected add_desc (`Records.AddDescIntended`) is stated and proved on its own; the decode (`Decoder.Decode`, `Decoder.EpgDatParse`) follows the script as written.
- The outer loop of the resolution pass (`for chn in channels`) is written as recursion over the channel index (`Decoder.ResolveFrom`), with the same order and effects.
- Parser.ChannelAtSpec: states what a successful channel read yields, not when it succeeds. That is stated for events (`Parser.EventAtSpec`) and checked by `Parser.ReadEvents`.
- EitTime.MjdRoundTrip: proved only for MJD ≥ 15079, where every intermediate of the formula is non-negative. Smaller MJDs are covered by `EitTime.EarlyMjdRejected` only at 0 and 15078.
- EitTime.StartTimeOkIff: likewise only for MJD ≥ 15079.

## Findings

| source | as written | input that shows it | evidently intended | confidence | as-written member | corrected member |
|---|---|---|---|---|---|---|
| enigma2-epg.py:95 | an ADD fragment (tag 0x4E, type 0x11) appends its text, then assigns `long_desc` the `None` that `append` returns, so the description is lost and a further ADD raises | an event whose checksums name a START fragment and then an ADD fragment (Records.StartAddLosesText; the corrected behaviour is proved in Records.StartAddConcatenates) | the ADD text is appended to the running long description, as the extended event descriptor's fragmentation means | high, not executed | Records.AddDescSpec | Records.AddDescIntended |
