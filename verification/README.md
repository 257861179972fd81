# Verified model of the handheld protocol and its tools

This project models the parts of the Ratspeak handheld repository in which a small mistake would be hard to notice:
the RRC v1 packet codec and what sits on it, the transactions that keep announce keys and announce order durable, two
driver protocols in which two contexts of execution share state, and the layout and framing algorithms of the tools.
`dafny verify dfyconfig.toml` checks the whole project.

## What is modelled

**RRC v1 codec** (`protocol/src/rrc.rs`). `Bytes`, `Utf8` and `Cbor` give the octet-level vocabulary and the class
`Reader`, whose methods advance a position exactly as the Rust reader does and are proved against functions of the
packet and the position (`HeadAt`, `SpanAt`, `SkipAt` ...). `CborFacts` proves that every typed read stops where
`skip` stops. `CborGrammar` tells data items as section 3 of RFC 8949 does, with every number written out, and proves
of each read exactly which octets it accepts, what it reads and with which error it refuses. `Envelope` is `decode`;
`EnvelopeContents` says what decoding means independently of the loop (a packet is accepted exactly when its top-level
map names each required key and repeats no known key), from which independence of entry order, head widths and
extension entries follows; `EnvelopeSpans` shows what the returned spans point at; `EnvelopeOctets` says which octets
stand for which content under each key, and so which packets are accepted and what they say. `Replies` holds the
readers that go back into an accepted packet, `WelcomeContents` says what a WELCOME body means, by skipping alone, and
`ReplyOctets` which replies are accepted and what rosters and announce names say, in octets. `Writer` and `Encoder`
are the counting and writing passes over one encoder, `WireLayout` gives its packets octet by octet, `RoundTrip`
proves that decoding gives back what was encoded, and `Deterministic`, with `Floats` for the values of floating-point
items, compares the output with the deterministic form of section 4.2.1 of RFC 8949.

**Unicode, rooms, mentions, sealed keys.** `UnicodeIndex` is the compressed table search of `rrc_unicode.rs`, proved
equal to plain membership for every well-formed table. `Casing` is the streamed lowercasing and compares its sigma
rule with the Final_Sigma condition of section 3.13 of the Unicode Standard. `Normalize` and `Mentions` are room and
nickname normalization and mention search. `SealedKey` is the RSCHKEY v1 frame of `rrc_secret.rs`.

**Announce transactions** (`protocol/src/announce.rs`, reset in `identity.rs`). `Announce` holds the class `Context`
with the live ring, live order and the two pending digests; each call is proved against a function from the state
before to the state after and the reply. `AnnounceCalls` says what each call does in terms of the crates' operations
and the octets passed, and what receivers read from an announce; `AnnounceTransactions` proves facts about every
sequence of calls, `AnnounceRuns` about every run of a host with flash, power failures, failed writes and identity
switches, and `AnnounceRestarts` carries transactions through and shows what moving a state file aside costs.
Signature, digest, key derivation, ring blobs, the rotation decision and the announce format belong to crates outside
the repository and are parameters, collected in `Library`; `Laws` lists all that is assumed of them, and
`AnnounceExample` shows a library that meets it. The order rule follows
`protocol/include/ratspeak_protocol.h:1268-1271`.

**Driver protocols.** `WifiScan` is a state machine over the atomic steps of the owner task, the event task and the
radio driver (`tools/patch_wifi_runtime.py`); `WifiVerdict` follows what the steps told of the latest scan and proves
that scanComplete hands out exactly that. Assumed of the environment: the event queue is first-in first-out, a started
scan is reported at most once and before the STA_STOP that ends it, every STA_STOP comes from a counted stop, and a
failed stop queues nothing. `HwCdc` is the USB transmit interrupt with its pending item (`tools/patch_hwcdc.py`); the
hardware may take any part of what it is offered, including nothing.

**Assumptions.** `Assumptions` gives concrete character properties, tables, ciphers and digests that meet what the
other modules assume of code outside the repository.

**Tools.** `LineFramer` (`tools/handheld-control.py`), `NoticeBundle` (`tools/collect_licenses.py`), `FlashLayout` and
`PartitionTable` (`tools/release_catalog.py`, `tools/release_images.py`).

## Where a wished-for property holds only under a condition

The model follows the code in each case and states the exact condition.

- The sigma choice of `protocol/src/rrc.rs:447-476` follows the desktop's `str::to_lowercase`, as its comment says. It skips a
  case-ignorable character before asking whether it is cased, while Final_Sigma lets a character be both.
  `Casing.SigmaAgreement` states at which positions the two agree, `Casing.SigmaAgreesEverywhere` that they agree on all
  texts exactly when no character is both, and `Casing.SigmaAfterAmbiguous` gives the text on which they differ;
  U+02B0 is such a character under both tables (`Casing.IgnorableHasModifierLetter`, `Casing.CasedHasModifierLetter`).
- Mention search is described as case-insensitive nickname matching. A nickname that ends in a capital sigma is missed when a
  full stop and a letter follow it, because the sigma is lowered differently there (`Mentions.SigmaBeforeDotIsMissed`);
  `Mentions.LiteralMention` states exactly when a name written out is found.
- `src/core/protocol/RustRatchetStore.cpp:65-89` moves a state file aside when it cannot be read back. After that a
  ratcheted announce can go out with no durable key behind it (`AnnounceRestarts.QuarantineLosesKey`), and after a
  restart with an earlier order (`AnnounceRestarts.QuarantineForgetsOrder`). The exact conditions hold for every run:
  key and order of a ratcheted announce are in flash exactly when the ring file, respectively the order file, is there
  (`AnnounceRuns.AdvertisedIsDurable`); and advertised orders can go down exactly when the host restores without an order
  file an identity that has advertised more than the lowest order (`AnnounceRestarts.ForgettingExactly`).
- The deterministic form of section 4.2.1 of RFC 8949 holds for every packet whose body the encoder composes itself. A
  body of kind 2 is copied as the caller supplied it, so such a packet has the form exactly when the body does
  (`Deterministic.PacketIsDeterministic`).

## Model

| member | source | states |
|---|---|---|
| Cbor.HeadAt | protocol/src/rrc.rs:114-128 | a head read moves forward and stays inside the packet; section 3 of RFC 8949 without the reserved and indefinite forms |
| Cbor.SkipAt | protocol/src/rrc.rs:175-201 | whatever is skipped has at least one octet and ends inside the packet, at every nesting level |
| Cbor.Reader.Take | protocol/src/rrc.rs:108-113 | either the next octets are returned and the position moves past them, or nothing changes |
| Cbor.Reader.Head | protocol/src/rrc.rs:114-128 | the loop over argument octets computes their big-endian value; one head is counted |
| Cbor.Reader.Uint | protocol/src/rrc.rs:129-135 | follows the unsigned-integer read of the packet at the old position |
| Cbor.Reader.Container | protocol/src/rrc.rs:136-142 | follows the container read: wanted major type, at most 64 entries |
| Cbor.Reader.TakeSpan | protocol/src/rrc.rs:143-157 | follows the string read: wanted major type, bounded length, UTF-8 for text |
| Cbor.Reader.Fixed | protocol/src/rrc.rs:158-166 | follows the read of exactly so many octets |
| Cbor.Reader.OptionalText | protocol/src/rrc.rs:167-174 | follows the read of a text or null |
| Cbor.Reader.Skip | protocol/src/rrc.rs:175-201 | follows `SkipAt`, and reads at most one head more than it consumes octets |
| Cbor.Reader.SkipSome | protocol/src/rrc.rs:193-195 | the loop over a container's items follows `SkipItems` within the same bound on heads |
| CborFacts.SkipShallower | protocol/src/rrc.rs:175-201 | an item skipped at one level is skipped to the same end at every shallower level |
| CborFacts.SkipItemsShallower | protocol/src/rrc.rs:189-196 | the same for a run of items |
| CborFacts.UintSkips | protocol/src/rrc.rs:129-135 | an integer read ends where skipping ends |
| CborFacts.SpanSkips | protocol/src/rrc.rs:143-157 | a string read ends where skipping ends |
| CborFacts.OptionalTextSkips | protocol/src/rrc.rs:167-174 | a text-or-null read ends where skipping ends |
| CborFacts.SimpleSkips | protocol/src/rrc.rs:417-422 | a one-octet false, true or null ends where skipping ends |
| CborFacts.ContainerSkips | protocol/src/rrc.rs:136-142 | a container head plus its items ends where skipping the container ends |
| CborFacts.SpanIsExact | protocol/src/rrc.rs:148-155 | no span is truncated by its sixteen-bit fields, and text spans are UTF-8 |
| CborFacts.SkipRelocates | protocol/src/rrc.rs:175-201 | an item skips the same wherever its octets are copied |
| CborFacts.SkipItemsRelocate | protocol/src/rrc.rs:189-196 | the same for a run of items |
| CborFacts.SkipItemsJoin | protocol/src/rrc.rs:193-195 | skipping a run is skipping its first part and then its second |
| CborGrammar.HeadMeans | protocol/src/rrc.rs:114-128 | a head is read exactly where one stands in one of its five widths, with its major type and big-endian argument |
| CborGrammar.HeadRefuses | protocol/src/rrc.rs:114-128 | every other place is refused: too few octets as invalid, reserved and indefinite forms as unsupported |
| CborGrammar.SkipMeans | protocol/src/rrc.rs:175-201 | an item is skipped exactly where the grammar has one with at most 64 entries a container and no level beyond the fourth |
| CborGrammar.SkipItemsMean | protocol/src/rrc.rs:193-195 | the same for a run of items |
| CborGrammar.SkipRefuses | protocol/src/rrc.rs:175-201 | nesting, head, size and content that are refused, each with its error |
| CborGrammar.FirstRefusalDecides | protocol/src/rrc.rs:193-195 | of a run of items the first that is refused decides the error |
| CborGrammar.UintMeans | protocol/src/rrc.rs:129-135 | exactly the heads of major type 0 are integers |
| CborGrammar.ContainerMeans | protocol/src/rrc.rs:136-142 | exactly the heads of the wanted type with a count of at most 64 are container heads |
| CborGrammar.SpanMeans | protocol/src/rrc.rs:143-157 | a string is read exactly where one of the wanted type and bounded length stands, UTF-8 for text, and the span is its content |
| CborGrammar.TypedReadsRefuse | protocol/src/rrc.rs:129-166 | a typed read fails with the error of the head, or as invalid |
| Envelope.ReadValue | protocol/src/rrc.rs:220-251 | the value of each key is read as the packet alone determines, with errors in the code's order |
| Envelope.ReadEntries | protocol/src/rrc.rs:212-252 | the entry loop, with duplicate known keys refused, follows the recursive reading of the map |
| Envelope.Decode | protocol/src/rrc.rs:204-257 | decoding is the packet's reading, terminates, and reads at most one head more than there are octets |
| Envelope.DecodeFrom | protocol/src/rrc.rs:208-256 | the same from a fresh reader |
| Envelope.DecodePacket | protocol/src/rrc.rs:610-628 | the entry point: over 431 octets is a bad argument, every codec error has its status, and nothing is stored on failure |
| EnvelopeContents.EntriesMean | protocol/src/rrc.rs:212-252 | from any point of the loop: the rest is accepted exactly when it parses and repeats no known key, and the view then says what all fields say |
| EnvelopeContents.DecodeMeans | protocol/src/rrc.rs:204-257 | accepted exactly when the packet is one map of at most 64 entries naming keys 0 to 4 and repeating no known key; the contents are what the fields say |
| EnvelopeContents.OrderAndExtensionsDoNotMatter | protocol/src/rrc.rs:204-257 | packets with the same known fields, in any order, with any head widths and any extension entries, are accepted alike and decode to the same contents |
| EnvelopeContents.ByKeyAlike | protocol/src/rrc.rs:213-251 | the map from key to content does not depend on entry order |
| EnvelopeContents.RequiredAlike | protocol/src/rrc.rs:253-255 | nor does the test for the required keys |
| EnvelopeSpans.ValueSkips | protocol/src/rrc.rs:220-251 | every value of the envelope ends where skipping it ends |
| EnvelopeSpans.EntriesAreSound | protocol/src/rrc.rs:212-252 | the loop keeps all spans in bounds and its entries end where skipping them ends |
| EnvelopeSpans.DecodeIsSound | protocol/src/rrc.rs:204-257 | an accepted packet is exactly one item; every span is inside it and fits sixteen bits, texts are UTF-8 within their limits, the body span is one complete item |
| EnvelopeOctets.ValueMeans | protocol/src/rrc.rs:220-251 | under each key exactly the octets that stand for a content are read, as it: version 1, integers, 8 and 16 octets, texts of at most 64 and 32 octets or the one octet 0xF6, a text or any other item as body, any item under other keys |
| EnvelopeOctets.FieldMeans | protocol/src/rrc.rs:212-251 | an entry is read exactly where a key and a value that stands for the content follow each other |
| EnvelopeOctets.EntriesFormMeans | protocol/src/rrc.rs:212-252 | the same for a run of entries |
| EnvelopeOctets.FieldsMean | protocol/src/rrc.rs:204-252 | the fields of a packet are exactly those of the one map that its at most 431 octets are |
| EnvelopeOctets.DecodeAccepts | protocol/src/rrc.rs:204-257 | a packet is accepted exactly when its octets are a map of at most 64 entries with keys 0 to 4 in which no key up to 8 stands twice |
| EnvelopeOctets.DecodeSays | protocol/src/rrc.rs:204-257 | the view says what each field says, and of absent ones that there is nothing |
| EnvelopeOctets.DecodeRefuses | protocol/src/rrc.rs:213-255 | a well-formed map with a repeated or missing key is invalid |
| EnvelopeOctets.FirstEntryDecides | protocol/src/rrc.rs:212-252 | the first entry that cannot be taken decides the error: its key, a repetition, or its value |
| EnvelopeOctets.ValueRefuses | protocol/src/rrc.rs:220-251 | another version is unsupported; any other value fails with the error of its head, as invalid, or as skipping it does |
| Replies.ReadWelcome | protocol/src/rrc.rs:382-435 | the WELCOME loops follow the recursive reading of the packet, including saturated limits and refused duplicates |
| Replies.ReadWelcomeFields | protocol/src/rrc.rs:406-429 | the inner loop over capabilities and limits |
| Replies.ReadWelcomeValue | protocol/src/rrc.rs:402-432 | the value of one WELCOME key |
| Replies.WelcomeEntriesEnd | protocol/src/rrc.rs:391-433 | the WELCOME entries end where skipping them ends, with texts between the start and the end |
| Replies.WelcomeStaysInBody | protocol/src/rrc.rs:382-435 | the WELCOME reader stops exactly at the end of the body span and returns only text inside it |
| WelcomeContents.FieldsMean | protocol/src/rrc.rs:406-429 | a run of capability or limit fields leaves exactly what its entries, found by skipping, say |
| WelcomeContents.ValueMeans | protocol/src/rrc.rs:402-432 | so does the value under each key of the body |
| WelcomeContents.WelcomeMeans | protocol/src/rrc.rs:382-435 | a capability is set exactly when the map under key 2 holds true for it; a limit is present exactly when the map under key 3 names it, with that number saturated; texts are those under keys 0 and 1 |
| Replies.WelcomePacket | protocol/src/rrc.rs:710-727 | the entry point: every refusal has its status and stores nothing |
| ReplyOctets.WelcomeAccepts | protocol/src/rrc.rs:382-435 | a WELCOME is accepted exactly when its packet is, its kind is 2 and its body is a map of labels, once-only capability flags and limits, and other items |
| ReplyOctets.WelcomeRefuses | protocol/src/rrc.rs:383-386 | an unaccepted packet keeps its error; another kind or no body is invalid |
| ReplyOctets.FieldsAccept | protocol/src/rrc.rs:406-429 | a run of capability or limit fields is read exactly where it stands |
| ReplyOctets.ValueAccepts | protocol/src/rrc.rs:402-432 | so is the value under each key |
| Replies.ReadMember | protocol/src/rrc.rs:746-767 | the whole roster is validated before the count and the member asked for are returned |
| Replies.ReadMembers | protocol/src/rrc.rs:760-765 | the loop returns the member at the index, zeros when there is none |
| Replies.Member | protocol/src/rrc.rs:734-783 | count and member as reported to the caller, for every status |
| Replies.RosterStaysInBody | protocol/src/rrc.rs:746-767 | the roster reader stops exactly at the end of the body span and every member is read inside it |
| ReplyOctets.RosterMeans | protocol/src/rrc.rs:746-767 | a roster is read exactly from a packet of kind 11 or 13 with no body, a null, or an array of at most 64 strings of 16 octets, member by member in order |
| ReplyOctets.RosterRefuses | protocol/src/rrc.rs:747-750 | an unaccepted packet keeps its error; another kind is invalid |
| Replies.ReadAnnounceName | protocol/src/rrc.rs:800-822 | the loop over announce data follows its recursive reading, with a repeated name refused |
| Replies.AnnounceNameIsSound | protocol/src/rrc.rs:800-822 | accepted announce data is exactly one item and its name is UTF-8 text of at most 64 octets in it |
| ReplyOctets.NameAccepts | protocol/src/rrc.rs:800-822 | announce data is accepted exactly when it is one map of at most 64 text keys with at most one "hub" |
| ReplyOctets.NameSays | protocol/src/rrc.rs:800-822 | the name is the text under "hub", empty when there is none; a second one is invalid |
| Writer.HeadBytes | protocol/src/rrc.rs:279-290 | a written head has one, two, three, five or nine octets |
| Writer.Writer.Raw | protocol/src/rrc.rs:266-278 | either the chunk is appended within packet and buffer limits, or the failure says so; the rest of the buffer is untouched |
| Writer.Writer.Head | protocol/src/rrc.rs:279-290 | the two raw writes emit the head |
| Writer.Writer.String | protocol/src/rrc.rs:291-294 | head and content are emitted |
| Writer.Writer.Uint | protocol/src/rrc.rs:295-297 | an unsigned integer is emitted |
| Encoder.EncodeTo | protocol/src/rrc.rs:300-380 | in either pass the encoder emits the packet `EncodeSpec` describes, or fails with its error |
| Encoder.EmitAll | protocol/src/rrc.rs:324-379 | the writes in order emit the map with its head |
| Encoder.CheckAll | protocol/src/rrc.rs:308-323 | the argument checks and their order |
| Encoder.WriteBody | protocol/src/rrc.rs:345-370 | the body entry for each kind, the HELLO map only for kind 1 packets |
| Encoder.WriteHello | protocol/src/rrc.rs:354-366 | the literal HELLO map |
| Encoder.Encode | protocol/src/rrc.rs:638-704 | if counting succeeds with n, a buffer of n octets or more gets exactly the packet in its first n octets and is otherwise untouched; else it is untouched |
| Encoder.WritePass | protocol/src/rrc.rs:695-702 | the second pass never fails once the first has succeeded |
| WireLayout.HeadOctets | protocol/src/rrc.rs:279-290 | the octets of every written head: the shortest form, high octet first |
| WireLayout.HelloOctets | protocol/src/rrc.rs:354-366 | the HELLO map octet by octet, for every version |
| WireLayout.PacketOctets | protocol/src/rrc.rs:324-379 | every packet octet by octet: the count in the map head, keys in order, absent room, body, nickname and destination left out |
| WireLayout.EncodeAnswers | protocol/src/rrc.rs:300-380 | which arguments are encoded and which refused with which error, in the code's order, with the packet that results |
| WireLayout.HelloIsReceived | protocol/src/rrc.rs:354-366 | the body a receiver decodes from a HELLO packet names the client and version and offers capabilities 1 and 2 but not 0 |
| RoundTrip.HeadReads | protocol/src/rrc.rs:279-290 | the reader's head inverts the writer's head for every 64-bit value |
| RoundTrip.StringReads | protocol/src/rrc.rs:291-294 | a written string is read back whole |
| RoundTrip.PartsRead | protocol/src/rrc.rs:331-378 | written entries are read back as the fields they carry |
| RoundTrip.OptionalReads | protocol/src/rrc.rs:167-174 | a written text, and a null from another client, is read back as the text it stands for |
| RoundTrip.PacketReads | protocol/src/rrc.rs:300-380 | a written map is read back as exactly its fields |
| RoundTrip.MapIsComplete | protocol/src/rrc.rs:354-366 | a written map is one complete item |
| RoundTrip.HelloIsComplete | protocol/src/rrc.rs:350-367 | the HELLO map is one complete item at body level |
| RoundTrip.DecodeInvertsEncode | protocol/src/rrc.rs:204-380 | decoding what the encoder produced gives back kind, time, id, source, destination or zeros, room, nickname and body; a body of kind 2 that is itself text comes back as text |
| RoundTrip.BodySpanIsBodyItem | protocol/src/rrc.rs:231-244 | the body span of an encoded packet cuts out exactly the octets written as its body |
| Deterministic.CanonicalRelocates | protocol/src/rrc.rs:345-370 | deterministic form does not depend on where an item stands |
| Deterministic.MapIsCanonical | protocol/src/rrc.rs:324-379 | a map with small ascending keys is deterministic exactly when its values are |
| Deterministic.FloatIsCanonical | protocol/src/rrc.rs:317-323 | a float in a caller-supplied body is deterministic exactly when no shorter format has its value |
| Deterministic.FloatExamples | protocol/src/rrc.rs:317-323 | 0.0 as a half and 100000.0 as a single are deterministic, 1.0 as a double is not |
| Deterministic.PacketIsDeterministic | protocol/src/rrc.rs:300-380 | an encoded packet is in the deterministic form of section 4.2.1 of RFC 8949, shortest floats included, exactly when a caller-supplied body is |
| Utf8.DecodeEncode | protocol/src/rrc.rs:571-580 | every string of scalar values survives encoding and checking |
| Utf8.EncodeDecode | protocol/src/rrc.rs:153-155 | a well-formed string of octets has exactly one reading |
| Utf8.StandardExample | protocol/src/rrc.rs:153-155 | the example of table 3-4 of the Unicode Standard |
| UnicodeIndex.NewHeader | protocol/src/rrc_unicode.rs:12-27 | both packed fields are read back |
| UnicodeIndex.SortKeyIsPrefix | protocol/src/rrc_unicode.rs:42-43 | the shifted search key orders headers by their prefix sum alone |
| UnicodeIndex.FindChunk | protocol/src/rrc_unicode.rs:42-58 | the chunk found is the one whose range holds the character; the index assertion never fires |
| UnicodeIndex.Walk | protocol/src/rrc_unicode.rs:60-89 | the walk along one chunk decides membership; no subtraction underflows and no index leaves the table |
| UnicodeIndex.SkipSearch | protocol/src/rrc_unicode.rs:35-90 | for every well-formed table and character: membership in the odd-numbered runs of the expanded table |
| UnicodeIndex.RunIsUnique | protocol/src/rrc_unicode.rs:72-89 | a character falls into at most one run, so membership is well defined |
| UnicodeIndex.Lookup | protocol/src/rrc_unicode.rs:35-90 | the lookup with its lower cut-off is membership too |
| Casing.ContextMeans | protocol/src/rrc.rs:447-463 | the streamed test holds exactly when the first character that is not ignorable is cased |
| Casing.BeforeMeans | protocol/src/rrc.rs:469 | how the backward test relates to the standard's condition |
| Casing.AfterMeans | protocol/src/rrc.rs:470 | how the forward test relates to the standard's condition |
| Casing.ClassesMean | protocol/src/rrc.rs:447-463 | apostrophe, full stop, colon, circumflex and grave accent are ignored and letters are cased among ASCII; the tables decide beyond |
| Casing.MappedMeans | protocol/src/rrc.rs:465-476 | a capital sigma becomes the final one exactly behind a cased letter with none following, looking past ignorable characters |
| Casing.LowerMeans | protocol/src/rrc.rs:465-476 | lowering joins the mappings of all characters in order |
| Casing.SigmaAgreement | protocol/src/rrc.rs:465-476 | at each position, exactly when the sigma chosen is the standard's |
| Casing.SigmaAgreesEverywhere | protocol/src/rrc.rs:465-476 | the choice is the standard's on all texts exactly when no character is cased and ignorable at once |
| Casing.SigmaAfterAmbiguous | protocol/src/rrc.rs:447-476 | a concrete text on which the two differ |
| Casing.IgnorableHasModifierLetter | protocol/src/rrc_unicode.rs:96-98 | any table with the ignorable table's first headers has U+02B0 inside |
| Casing.CasedHasModifierLetter | protocol/src/rrc_unicode.rs:191-192 | any table that starts as the cased table does has U+02B0 inside too |
| Normalize.Normalize | protocol/src/rrc.rs:546-603 | every outcome: which inputs are refused how, when the length is reported, what the output buffer holds |
| Normalize.EmitAll | protocol/src/rrc.rs:571-585 | the streaming loop succeeds exactly when the whole text fits and then holds exactly its encoding |
| Normalize.IsCanonical | protocol/src/rrc_secret.rs:74-88 | the canonical test is true exactly when normalization returns its input |
| Normalize.TrimMeans | protocol/src/rrc.rs:562 | trimming finds the one stretch with white space around it and none at its ends |
| Normalize.CanonicalMeans | protocol/src/rrc_secret.rs:74-88 | canonical rooms: UTF-8, 1 to 64 octets, no white space at the ends, only characters lowercasing keeps |
| Assumptions.CharactersExist | protocol/src/rrc.rs:465-497 | concrete character properties meet what normalization and mention search assume |
| Assumptions.TwoChunksExist | protocol/src/rrc_unicode.rs:30-34 | a concrete table is well formed and meets the hypotheses about the ignorable table |
| Assumptions.OneChunkExists | protocol/src/rrc_unicode.rs:30-34 | the same for the cased table |
| Assumptions.EciesExists | protocol/src/rrc_secret.rs:143-150 | a concrete cipher meets what sealing and unsealing assume |
| Assumptions.DigestExists | tools/collect_licenses.py:505-512 | a concrete digest meets what the notice bundle assumes |
| Assumptions.SealingExists | protocol/src/rrc_secret.rs:94-160 | under a concrete cipher, sealing succeeds for every valid key |
| Normalize.RoomIsProjection | protocol/src/rrc.rs:546-603 | every successful room normalization gives a canonical room, so normalizing twice is normalizing once |
| Normalize.CanonicalIsImage | protocol/src/rrc_secret.rs:74-88 | the canonical rooms are exactly the results of normalization |
| Normalize.CanonicalFitsEnvelope | protocol/src/rrc.rs:308-313 | a canonical room meets the encoder's limits |
| Normalize.NicknameKept | protocol/src/rrc.rs:562-571 | which nicknames are kept as they are |
| Normalize.NicknameIsProjection | protocol/src/rrc.rs:562-571 | a normalized nickname is a stretch of the input's own octets and is kept when normalized again |
| Normalize.NormalizeMeans | protocol/src/rrc.rs:560-602 | for every text: the stretch between its white space is returned, lowered for a room, or refused for being empty, holding a line break or NUL, or too long |
| Normalize.MalformedIsRefused | protocol/src/rrc.rs:564-567 | octets that are not UTF-8 are refused |
| Mentions.ContainsExactMention | protocol/src/rrc.rs:478-497 | true exactly when the lowered text has an at sign at a word boundary, the lowered target, and a word boundary |
| Mentions.Follows | protocol/src/rrc.rs:487-489 | the inner comparison, with the look past the end |
| Mentions.Mentions | protocol/src/rrc.rs:504-539 | the entry point: the flag is raised exactly for a mention of the nickname or of the spelling of the identity; else the refusals |
| Mentions.HexOf | protocol/src/rrc.rs:531-536 | the loop spells the identity in lower-case hexadecimal, two digits an octet, high digit first |
| Mentions.HexSpells | protocol/src/rrc.rs:531-536 | there is exactly one spelling of an identity in two lower-case digits an octet, high digit first, and it is the one searched for |
| Mentions.MentionedMeans | protocol/src/rrc.rs:478-498 | a mention is the lowered name behind an at sign with no letter, digit, underscore or hyphen on either side |
| Mentions.EmbeddedLowers | protocol/src/rrc.rs:465-476 | a name inside a text lowers to itself lowered unless one of its sigmas loses its final form |
| Mentions.LiteralMention | protocol/src/rrc.rs:478-497 | a name written out is found exactly when no word character touches it and none of its final sigmas is unsettled by what follows |
| Mentions.AloneIsMentioned | protocol/src/rrc.rs:478-497 | a message that is nothing but the mention is always found |
| Mentions.SigmaBeforeDotIsMissed | protocol/src/rrc.rs:447-497 | the concrete miss: the search finds no mention at all |
| SealedKey.FillFrame | protocol/src/rrc_secret.rs:133-141 | the slices copied into the buffer make up the frame |
| SealedKey.SealKey | protocol/src/rrc_secret.rs:94-160 | every outcome of sealing and what the output holds |
| SealedKey.CheckFrame | protocol/src/rrc_secret.rs:210-230 | the checks over the fixed buffer look only at the decrypted part |
| SealedKey.UnsealKey | protocol/src/rrc_secret.rs:166-240 | every outcome of unsealing and what the output holds |
| SealedKey.AcceptsExactlyTheFrame | protocol/src/rrc_secret.rs:210-230 | a plaintext is accepted with a key exactly when it is the frame of this identity, hub and room around a UTF-8 key of 1 to 160 octets |
| SealedKey.UnsealAccepts | protocol/src/rrc_secret.rs:166-240 | unsealing succeeds exactly on such a plaintext, for a canonical room and a buffer that holds the key |
| SealedKey.FrameIsInjective | protocol/src/rrc_secret.rs:133-141 | frames of different contexts or keys differ |
| SealedKey.OneContext | protocol/src/rrc_secret.rs:210-226 | a sealed text never opens under two hubs or two rooms |
| SealedKey.UnsealInvertsSeal | protocol/src/rrc_secret.rs:94-240 | what sealing returned opens under the same context to the same key |
| SealedKey.OtherContextRefuses | protocol/src/rrc_secret.rs:210-226 | under any other hub or canonical room it is refused |
| SealedKey.SealAnswers | protocol/src/rrc_secret.rs:94-160 | every refusal in order; otherwise the plaintext, octet by octet, goes to the first half of the public key with the caller's 32 and 16 random octets |
| SealedKey.UnsealAnswers | protocol/src/rrc_secret.rs:166-240 | every refusal in order; what the first half of the private key opens gives its key when it is the plaintext of this context around 1 to 160 octets of UTF-8 |
| Announce.Context.constructor | protocol/src/lib.rs:161-203 | a new context has no identity and nothing pending |
| Announce.Context.LoadIdentity | protocol/src/identity.rs:63-96 | loading any identity clears ring, order and both pending digests |
| Announce.Context.RatchetPrepare | protocol/src/announce.rs:253-338 | the whole new state, reply and buffer for every decision of the ring and every failure |
| Announce.Context.RatchetCommit | protocol/src/announce.rs:346-384 | the whole new state and reply; checks in the code's order |
| Announce.Context.RatchetSeed | protocol/src/announce.rs:464-490 | the whole new state and reply |
| Announce.Context.RatchetExport | protocol/src/announce.rs:419-455 | the signed ring blob, state unchanged |
| Announce.Context.OrderPrepare | protocol/src/announce.rs:568-626 | the whole new state, reply and buffer, including the refusals that keep an older pending digest |
| Announce.Context.OrderCommit | protocol/src/announce.rs:633-672 | the whole new state and reply |
| Announce.Context.OrderSeed | protocol/src/announce.rs:532-559 | the whole new state and reply |
| Announce.Context.OrderExport | protocol/src/announce.rs:497-525 | the signed order blob, state unchanged |
| Announce.Context.MakeAnnounce | protocol/src/announce.rs:63-137 | a ratcheted announce is built only for the live order and the live key; payload and destination are returned together |
| AnnounceTransactions.PrepareOffers | protocol/src/announce.rs:279-336 | a ring prepare changes nothing live; what it returns is signed, pending, has a key, and keeps the live key |
| AnnounceTransactions.PrepareOrderOffers | protocol/src/announce.rs:594-624 | an order prepare changes nothing live; what it returns is signed, pending and above the live order |
| AnnounceTransactions.SignedByMeans | protocol/src/announce.rs:366-369 | the signature check passes only on a blob followed by its own signature |
| AnnounceTransactions.LiveStaysFit | protocol/src/announce.rs:253-672 | no call leaves a ring or an order the crates cannot hold |
| AnnounceTransactions.PendingMeansUntouched | protocol/src/announce.rs:279-326 | after any calls, a digest is pending exactly while the latest offer of its kind stands, and then live state is what it was at that prepare |
| AnnounceTransactions.CommitTakesOnlyTheOffer | protocol/src/announce.rs:360-383 | a ring commit succeeds exactly on the octets of the one standing offer that the ring takes |
| AnnounceTransactions.CommitOrderTakesOnlyTheOffer | protocol/src/announce.rs:647-671 | the same for the order |
| AnnounceTransactions.RefusedChangesNothing | protocol/src/announce.rs:253-672 | every refused call, and every prepare, leaves ring, order and identity as they were |
| AnnounceTransactions.ForeignBlobIsRefused | protocol/src/announce.rs:480-483 | what one identity signed, no other identity's seed or commit accepts, given that different 64-octet private keys sign differently |
| AnnounceTransactions.CommittedPairIsAdvertisable | protocol/src/announce.rs:106-113 | after both transactions, the reported order and key are the only pair a ratcheted announce may claim |
| AnnounceTransactions.ExportedStateRestores | protocol/src/announce.rs:410-559 | seeding what export wrote after a reload brings back ring and order |
| AnnounceTransactions.OrderIsCarried | protocol/src/announce.rs:44-46 | the random hash carries every forty-bit order whole behind its five random octets |
| AnnounceCalls.AnnounceCarries | protocol/src/announce.rs:103-130 | from every announce that goes out receivers read the identity's destination, the caller's random octets and the order in forty bits, exactly the ratchet claimed, and the application data |
| AnnounceCalls.AnnounceAnswers | protocol/src/announce.rs:88-135 | which announces go out and with which status the others are refused |
| AnnounceCalls.PrepareRingMeans | protocol/src/announce.rs:270-337 | for each decision on whole seconds of uptime: candidate, action code, octets, pending digest and key |
| AnnounceCalls.CommitRingMeans | protocol/src/announce.rs:352-383 | the checks on blob and signature in order, and what a commit makes live |
| AnnounceCalls.SeedRingMeans | protocol/src/announce.rs:469-489 | the same for a seed |
| AnnounceCalls.PrepareOrderMeans | protocol/src/announce.rs:585-625 | wall time verbatim when it is later, one more without a clock, nothing when it is not later, and no order beyond forty bits |
| AnnounceCalls.CommitOrderMeans | protocol/src/announce.rs:639-671 | the checks on seven octets and a signature in order, and what a commit makes live |
| AnnounceCalls.SeedOrderMeans | protocol/src/announce.rs:536-558 | the same for a seed |
| AnnounceCalls.ShortDataIsRefused | protocol/src/announce.rs:353-359 | octets too few for a signature are bad arguments before anything else |
| AnnounceCalls.ExportMeans | protocol/src/announce.rs:425-525 | exports are the whole live ring or order with the signature behind it |
| AnnounceCalls.LoadMeans | protocol/src/identity.rs:63-96 | after loading an identity nothing can be claimed or committed |
| AnnounceRuns.RingStaysSafe | protocol/src/announce.rs:253-384 | every host step keeps the live key in the file, while there is one, and in whatever may be written over it |
| AnnounceRuns.OrderStaysSafe | protocol/src/announce.rs:568-672 | every host step keeps the live order at or below the file, while there is one, and whatever may be written over it |
| AnnounceRuns.SentStaysSafe | protocol/src/announce.rs:106-113 | every host step that forgets no order keeps file and restored context at or above all orders advertised |
| AnnounceRuns.SendMeans | protocol/src/announce.rs:103-130 | what receivers read from a ratcheted announce is the live order and the live key, so the record of adverts is theirs |
| AnnounceRuns.AdvertisedIsDurable | protocol/src/announce.rs:106-113 | in every run and for every announce call: when what goes out is read as ratcheted, the private key behind the key read is in flash exactly when the ring file is there, and the order read exactly when the order file is |
| AnnounceRuns.KeptFilesAreDurable | protocol/include/ratspeak_protocol.h:1215-1219 | a host that never moves files aside has key and order of every announce read as ratcheted in flash first |
| AnnounceRuns.OrdersNeverDecrease | protocol/include/ratspeak_protocol.h:1268-1271 | the orders an identity advertises never go down, across any number of crashes, unless an order was forgotten |
| AnnounceRuns.KeptFilesNeverForget | src/core/protocol/RustRatchetStore.cpp:161-185 | a host that never moves files aside never forgets an order |
| AnnounceRuns.RestoringSucceeds | protocol/src/announce.rs:464-559 | restoring what the flash holds never fails and, without forgetting, brings back at least every order advertised |
| AnnounceRestarts.OrderRound | src/core/protocol/RustRatchetStore.cpp:187-226 | an order transaction carried through moves file and context together |
| AnnounceRestarts.RingRound | src/core/protocol/RustRatchetStore.cpp:187-226 | so does the first rotation |
| AnnounceRestarts.Restart | src/core/protocol/RustRatchetStore.cpp:161-185 | a power failure, load and restore bring back exactly the file's ring and order, or fresh ones where there is no file |
| AnnounceRestarts.FirstAnnounce | src/core/protocol/RustRatchetStore.cpp:228-307 | a fresh device reaches its first ratcheted announce |
| AnnounceRestarts.QuarantineLosesKey | src/core/protocol/RustRatchetStore.cpp:65-89 | a run in which a key is advertisable with no ring file behind it |
| AnnounceRestarts.QuarantineForgetsOrder | src/core/protocol/RustRatchetStore.cpp:65-89 | a run that advertises order 100 and later order 50 |
| AnnounceRestarts.ForgettingUnorders | src/core/protocol/RustRatchetStore.cpp:65-89 | after any forgetting step the host can go on to advertise a lower order |
| AnnounceRestarts.ForgettingExactly | src/core/protocol/RustRatchetStore.cpp:115-132 | a step forgets exactly when orders can go down after it without another restore |
| AnnounceExample.AssumptionsHold | protocol/include/ratspeak_protocol.h:1204-1219 | one concrete library meets everything assumed of the announce crates, all assumptions together |
| WifiScan.StepKeeps | tools/patch_wifi_runtime.py:16-103 | every atomic step of owner, event task and driver keeps the whole invariant |
| WifiScan.OwnerKeeps | tools/patch_wifi_runtime.py:121-192 | the same for every step of the owner |
| WifiScan.StartKeeps | tools/patch_wifi_runtime.py:154-160 | the same for the owner's stores before it publishes a scan |
| WifiScan.PublishKeeps | tools/patch_wifi_runtime.py:161-171 | the same for starting the published scan and for taking it back |
| WifiScan.FinishKeeps | tools/patch_wifi_runtime.py:65-103 | the same for the steps that retire a finished scan |
| WifiScan.StoppedKeeps | tools/patch_wifi_runtime.py:52-62 | the same for the steps of the recovery barrier |
| WifiScan.DriverCallKeeps | tools/patch_wifi_runtime.py:121-133 | the same for stops and cancels, reported or silent |
| WifiScan.CounterIsExact | tools/patch_wifi_runtime.py:46-62 | under every interleaving the stop counter equals the outstanding stops and never goes below zero |
| WifiScan.StorageIsExclusive | tools/patch_wifi_runtime.py:30-33 | owner and event task never touch the results at once; the event task only in flight, the owner only when not busy |
| WifiScan.DoneIsCreditedToItsScan | tools/patch_wifi_runtime.py:65-67 | a SCAN_DONE is always that of the scan in flight, at most one exists, and none stands behind a STA_STOP |
| WifiScan.BusyMeansOutstanding | tools/patch_wifi_runtime.py:30-33 | between owner operations, busy means exactly that an event, a handler or a running scan is outstanding |
| WifiScan.CompletedRowsAreLatest | tools/patch_wifi_runtime.py:181-189 | the result handed out is the latest scan's |
| WifiScan.BarrierReleases | tools/patch_wifi_runtime.py:52-62 | once the radio runs no scan, the event task alone ends busy within nine steps an event, even if no SCAN_DONE came |
| WifiVerdict.RunIsFaithful | tools/patch_wifi_runtime.py:52-103 | in every interleaving the shared fields agree with what the steps told of the latest scan |
| WifiVerdict.CompletedScanSucceeded | tools/patch_wifi_runtime.py:71-75 | rows are handed out only of a scan the driver ended well, whose results the SDK gave, and that nobody cancelled before they were asked for |
| WifiVerdict.CompleteFindsVerdict | tools/patch_wifi_runtime.py:181-189 | past its busy test scanComplete finds rows exactly of a succeeded scan, the error of a failed, refused or barred one, and no scan bit |
| WifiVerdict.FailureIsKept | tools/patch_wifi_runtime.py:90-98 | once a bad or cancelled report is dealt with, its error stands and there are no rows until the owner starts again |
| WifiVerdict.ScanningBitMeans | tools/patch_wifi_runtime.py:160-170 | the scanning bit is up while the driver scans and down when nothing is busy |
| WifiVerdict.BusyRefuses | tools/patch_wifi_runtime.py:30-41 | while busy, starting, completing and deleting change nothing, nor does a cancel with nothing in flight |
| WifiVerdict.UseMeans | tools/patch_wifi_runtime.py:187-190 | rows are handed out exactly when no error stands; deleting takes rows and mark away |
| WifiVerdict.WholeScan | tools/patch_wifi_runtime.py:154-189 | from any quiet state a scan that ends well is handed out with its rows, and one that ends badly is not |
| HwCdc.Cdc.constructor | tools/patch_hwcdc.py:18-23 | the initial driver variables |
| HwCdc.Cdc.Send | tools/patch_hwcdc.py:18-24 | an accepted send appends to the ring and to what was accepted |
| HwCdc.Cdc.ReceiveItem | tools/patch_hwcdc.py:58-62 | an item is taken only when none is in hand |
| HwCdc.Cdc.PushItem | tools/patch_hwcdc.py:63-77 | the offset moves by what the hardware took; only a finished item is given back |
| HwCdc.Cdc.Isr | tools/patch_hwcdc.py:54-85 | the whole new state, the octets sent and the event reported |
| HwCdc.Cdc.SetTxBufferSize | tools/patch_hwcdc.py:102-121 | the whole new state; a failed creation or lock changes nothing |
| HwCdc.InterruptConserves | tools/patch_hwcdc.py:54-85 | an interrupt sends a prefix of what is left and keeps the rest in order; with room it makes progress |
| HwCdc.Run | tools/patch_hwcdc.py:54-121 | every run conserves the stream, ring by ring |
| HwCdc.StreamIsConserved | tools/patch_hwcdc.py:54-85 | sent, then the unsent rest of the item, then the ring, is exactly what was accepted; reported lengths sum to it; a pending item belongs to the current ring |
| HwCdc.WireIsPrefixes | tools/patch_hwcdc.py:102-121 | over all rings, the wire carries a prefix of what each ring took and nothing else |
| HwCdc.PushesDrain | tools/patch_hwcdc.py:69-75 | as many interrupts that find any room as there are octets left send them all |
| HwCdc.InterruptStaysArmed | tools/patch_hwcdc.py:57-76 | the interrupt leaves itself armed exactly when it found something to send and the host is connected |
| HwCdc.SendMeans | tools/patch_hwcdc.py:18-24 | a send adds its octets behind all others or changes nothing |
| HwCdc.InterruptMeans | tools/patch_hwcdc.py:54-85 | what goes out, at most 64 octets of one item, and that an unfinished item keeps its place |
| HwCdc.ReplaceMeans | tools/patch_hwcdc.py:102-121 | a refused replacement changes no ring; any other starts one with nothing in it |
| LineFramer.SplitIsExact | tools/handheld-control.py:95-108 | segments and tail are the stream cut at its newlines |
| LineFramer.SplitIsUnique | tools/handheld-control.py:95-108 | no other cut into unbroken pieces gives the same stream |
| LineFramer.StripMeans | tools/handheld-control.py:98 | exactly the trailing carriage returns go |
| LineFramer.LineMeans | tools/handheld-control.py:96-108 | each piece gives one line without its trailing returns, unless it is over 4096 octets |
| LineFramer.Framer.Take | tools/handheld-control.py:96-108 | one octet keeps pending and discarding in step with the stream |
| LineFramer.Framer.Lines | tools/handheld-control.py:95-129 | lines of one read; a caller that stops early loses what follows that line in the same read |
| LineFramer.Framer.AllLines | tools/handheld-control.py:95-108 | fully consumed reads give the lines of the whole stream, whatever the chunks, with at most 4096 octets pending |
| LineFramer.IdsReturn | tools/handheld-control.py:112-113 | request numbers repeat only after 2147483647 requests |
| NoticeBundle.WriteBundle | tools/collect_licenses.py:492-514 | the nested loops write the bundle and the entries |
| NoticeBundle.BundleIsSound | tools/collect_licenses.py:492-514 | every digest seen points at its text, every entry at its own, and stored texts do not overlap |
| NoticeBundle.SlicesAreTexts | tools/collect_licenses.py:505-512 | every entry slices out exactly its text and carries its digest |
| NoticeBundle.TextsAreStoredOnce | tools/collect_licenses.py:507-514 | equal texts share one place, different texts never overlap |
| NoticeBundle.WrittenPassesCheck | tools/collect_licenses.py:585-588 | a bundle just written passes the notice check exactly when no notice is empty |
| NoticeBundle.RefreshIsFixedPoint | tools/collect_licenses.py:615-619 | writing again from the texts cut out gives the same bundle and entries |
| NoticeBundle.BundleIsKnown | tools/collect_licenses.py:505-513 | every text seen is remembered under the first notice that had it |
| NoticeBundle.HeadingsMean | tools/collect_licenses.py:493-500 | the bundle starts with the preamble and each component with its heading |
| NoticeBundle.NoticeMeans | tools/collect_licenses.py:501-514 | each notice adds its heading and its text, or a reference to the first notice with the same text |
| FlashLayout.AdjacentMeansPairwise | tools/release_catalog.py:117-122 | in sorted order, comparing neighbours decides whether any two stretches overlap |
| FlashLayout.PairsPermute | tools/release_catalog.py:117 | sorting does not change whether any two overlap |
| FlashLayout.CheckPartitions | tools/release_catalog.py:112-122 | the two loops accept exactly nonempty tables of aligned rows within flash, no two of which overlap |
| FlashLayout.Sweep | tools/release_images.py:130-136 | the sweep accepts exactly when components are apart, every octet is in exactly one or erased and in none, and they end with the image |
| FlashLayout.AccountedPermutes | tools/release_images.py:131 | that accounting does not depend on the order of the components |
| FlashLayout.SweptMeans | tools/release_images.py:130-136 | the declarative accounting is what the gaps and the end test establish |
| FlashLayout.LauncherFollowsRules | tools/release_images.py:146-155 | for every application size the Launcher table has no overlap, and it meets the row rules exactly when there is an application and room |
| FlashLayout.LauncherRows | tools/release_images.py:146-155 | the four rows of the Launcher table, the application in whole blocks of 64 KiB |
| FlashLayout.LauncherImage | tools/release_images.py:158-168 | the slice assignments build the image |
| FlashLayout.LauncherCarries | tools/release_images.py:158-168 | bootloader, boot metadata and application are carried over unchanged and everything else but the table is erased |
| FlashLayout.LauncherIsAccounted | tools/release_images.py:158-168 | its components do not overlap and what none of them holds is erased |
| PartitionTable.PartitionBinary | tools/release_images.py:78-100 | which rows are refused, first refusal first, and the table otherwise |
| PartitionTable.TableReadsBack | tools/release_images.py:92-100 | a reader of the table format finds exactly the rows |
| PartitionTable.TableIsInjective | tools/release_images.py:116-117 | no two row lists share a table, so comparing tables compares layouts |
| PartitionTable.EncodableMeans | tools/release_images.py:78-91 | which rows a record can hold, and why another is refused |
| PartitionTable.RecordOctets | tools/release_images.py:88-93 | the thirty-two octets of a row: magic, type and subtype codes, little-endian words, padded label |
| PartitionTable.TableOctets | tools/release_images.py:94-100 | the 3072 octets of a table: records, checksum record, erased rest; at most 95 rows fit |

## Left out

- Null-pointer, aliasing and alignment checks and the panic guard around every entry point; lengths and capacities are those of the sequences and arrays passed.
- Bit masks of keys already seen are sets, and `u64`, `u32` and `u16` are integers with their bounds; sixteen-bit truncation of spans is written out and shown not to happen.
- Whether a small integer may stand as a bignum in a deterministic body: section 4.2.2 of RFC 8949 leaves that to each protocol.
- The literal Unicode tables: the search is proved for every well-formed table. `Casing.CasedHasModifierLetter` and `Casing.IgnorableHasModifierLetter` take the first entries of the two tables as hypotheses.
- The language library's per-character lowercase mapping, white space and alphanumeric properties are parameters; `Normalize.LowerLaws` and `Mentions.SigmasStay` list what is used of them.
- Encryption, signatures, hashing, announce construction and announce reading are parameters. An ECIES or announce failure is taken to leave the output buffer untouched.
- `rs_handheld_rrc_storage_key` and the hub and delivery address derivations: hashes of their inputs and nothing more.
- The peer-ratchet table (`protocol/src/announce.rs:674` on) and inbound announce validation: wrappers over crates that are not part of this model.
- The ring crate's rotation cadence and eviction policy: any decision it may take is covered, with a retention of at least two keys. What rings it can hold is the parameter `ringFits`; orders are forty-bit numbers.
- Contents left in an output buffer by a prepare call that fails.
- Torn writes of state files: the host's writes are atomic.
- The memory orders of the WiFi atomics: each load or store is one sequentially consistent step. The installed functions are therefore a state machine over their steps and not methods of a class, because two tasks interleave inside them.
- The scan timeout and clock, the allocation of result rows and the cap of 32 retained rows.
- `esp_wifi_stop` calls that take no station down: they are neither counted nor queue a STA_STOP.
- HwCdc.Cdc.Send: whether a ring has space is a parameter, since the sending code of the driver is not part of this model.
- Reading CSV rows, JSON catalogues and images from files; ESP image parsing, checksums, component identities and flash settings.
- LineFramer.Framer.Lines: matching a reply to its request, JSON and timeouts are represented by an arbitrary predicate that ends the loop.
- `command_body` of the control tool: a table of literal strings.
- The inventory rules of `check_bundle` other than the per-notice test.
