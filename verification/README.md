# Verified models of the name-server and firewall cores

Dafny models of the stateful cores of this repository, and proofs of what they promise. The repository holds
an authoritative and a recursive name server in the style of djbdns, the tools that build their databases,
and a few netfilter extensions. Each core is modelled branch by branch, in the form the source has: objects
whose fields change are classes, loops are loops over the same variables, and each operation is tied by its
contract to a specification that is defined on plain values. The theorems are about those specifications,
for all inputs and all runs. `dafny verify dfyconfig.toml` checks the whole project.

## What is modelled

- **The constant database** (`CdbSpec`, `CdbFile`, `CdbMake`, `Cdb`). The writer lays out records, sorts
  their pointers into 256 tables and writes open-addressed tables; the reader probes those bytes. The two
  are connected by one specification of the file's bytes. For any hash function, `FindNext` on a finished
  file gives exactly the data added under a key, in order, duplicates included.
- **Addresses to locations** (`Cidr`, `CidrSplit`, `Geo`, `GeoBuild`). The recursive splitter in Perl and
  the greedy one in C both give the one shortest list of aligned blocks. The blocks become keys of the
  database, and `ExportAndLookup` goes all the way from configured ranges to the answer for an address. The
  masks are not tried longest first; that this does no harm rests on the ranges being disjoint. A range that
  is the whole address space is never found, which `LocationInsideIff` turns into an exact condition.
- **Stored records** (`RecordStore`). The encoder of the configuration tool, and that the name server, which
  shares no code with it, sees and writes each record as it was given, to the clients it is meant for. A
  location query is stored as the configuration spells the name but looked up in lower case; `LoqFoundIff`
  says exactly when it is found.
- **Names and messages** (`DnsName`, `DnsPacket`, `DnsCompress`, `Response`, `RecordData`, `Message`,
  `HeaderBits`). The compressing writer and the reader share no code. A ghost map tracks the bytes written
  as parts of names; from it follows that every name written can be read back at its place, now and after
  anything is written later, and that the reader's step limit is never reached. Messages are framed: the
  header counts what is there, also after records have been cut off.
- **The authoritative server** (`TdRecords`, `TdFind`, `TdMessage`, `TdSpec`, `Tdlookup`, `TdReply`,
  `TdDoit`, `TdRespond`, `TdTheorems`, `TdSections`). A reply is specified over the list of visible records:
  zone, answering name, sampled addresses, authority, glue, size cuts. `Doit` produces the bytes of exactly
  such a reply from the bytes of the database, while it reads its own half-finished response back.
  `TdTheorems` says what replies mean without mentioning the algorithm, and `TdSections` which records each
  section holds, by the records that the names involved show.
- **The recursive server** (`RecordOrder`, `Heapsort`, `Grouping`, `QueryAnswers`, `QueryLoop`, `Transmit`).
  The bottom-up heapsort of record positions and the grouping loop, so that every set of records is handled
  as a whole; the jumps of the query machine, which a potential bounds, the exact records of its responses,
  and that it gives up only for a reason; and the retry machine over UDP and TCP: which tries it makes, what
  it sends, what it takes for an answer, and its resources. The cache, clocks, sockets and arriving packets
  are arbitrary.
- **Netfilter extensions** (`PsdChains`, `Psd`, `Dnetmap`, `Account`, `Pknock`). The hash chains of the
  port-scan detector over a ring of slots, the address allocator with its lists in order of use, the
  counters in pages allocated when needed, which hold exactly the traffic since the last flush, and the
  knock sequences with their times.
- **Smaller tools** (`RandomIp`, `Dotted`, `Buffer`). The address generator never repeats itself; dotted
  text and wire names convert back and forth; and the buffered streams neither lose nor double a byte.

`Basics` and `Bytes` hold what several modules share: options, lists without repetitions, bytes, 32-bit
words and the packings of the C sources.

## Where code and description differ

The model follows the code in these places.

- A comment in `src/response.c:12` says that recorded positions are below 16384. Nothing enforces it; the
  model carries it as a condition and stops, with the status `Beyond`, where a message outgrows it.
- `scripts/veridns/db.pm` treats every range alike, but one that is the whole address space can never be
  found again (`LocationWhole`).
- `src/dns_transmit.c` describes `pos` as undefined when a TCP connection is begun, but a connection that is
  up at once starts sending from whatever `pos` holds. The whole question goes out exactly if the connection
  was still coming up or `pos` was 0 (`TryTcp`, `WholeQuestion`); `SkippedRun` and `BeyondRun` are runs in
  which it does not.
- `xt_ACCOUNT.c` says that address 0 is special for the empty mask only, but tables of more than one level
  pass it down for the address that is not counted. `CountedOnceIff` is the exact condition under which that
  does no harm. Nor does anything clear the bits of a network number beyond its mask (`HandedRightIff`).
- `ip4_deaggregate` is meant for any range, but its loop cannot end if the range ends at the last address
  (`EndsIff`).
- `src/vdnsdb.c` stores location queries in the spelling of the line (`LoqFoundIff`).
- The pre-routing rule of `xt_DNETMAP.c` compares its prefix with the memory of a pointer; the outcome of
  that comparison is a parameter.

## Model

| member | source | states |
|---|---|---|
| CdbSpec.BucketMembers | src/cdb_make.c:84-91 | A table gets pairs of its own residue class only, all of them from the list. |
| CdbSpec.ProbeStops | src/cdb_make.c:134-137 | A table with a free slot stops every probe before it has gone all the way round. |
| CdbSpec.InsertKeepsReachable | src/cdb_make.c:132-139 | Linear-probing insertion keeps the table invariant: no free slot lies between the home slot of an entry and the entry. |
| CdbSpec.FillReachable | src/cdb_make.c:129-139 | A filled table has exactly as many free slots as its size exceeds its entries, and every entry is reachable from its home slot. |
| CdbSpec.InsertView | src/cdb_make.c:132-139 | An insertion appends the new pair to what a probe for its hash meets, and changes no other hash's view. |
| CdbSpec.ProbeFindsInOrder | src/cdb_make.c:129-139 | For every list of pairs and every hash, a probe of the filled table meets exactly the pairs of that hash, in insertion order. |
| CdbFile.BucketTotalAll | src/cdb_make.c:110-114 | Every pair falls into exactly one of the 256 tables, so the prefix sums end at the number of records. |
| CdbFile.FileLength | src/cdb_make.c:122-151 | The finished file is the records plus sixteen bytes a record long. |
| CdbFile.FileHeader | src/cdb_make.c:126-127 | The b-th header entry holds the position and the number of slots of table b. |
| CdbFile.FileSlot | src/cdb_make.c:141-146 | Slot i of table b stands at the table's position plus 8 i. |
| CdbFile.FileRecord | src/cdb_make.c:51-70 | Every record stands, lengths first, at the position its pointer holds. |
| CdbFile.LookupCorrect | src/cdb.c:90-133 | For any hash function and any key, what a reader accepts while probing the key's table is exactly the places of the data added under the key, oldest first. |
| CdbFile.SlicesHoldValues | src/cdb.c:125-127 | Reading the i-th of these places gives the i-th data added under the key; there are as many places as data. |
| Bytes.ByteOrder | src/uint32_pack.c:3-15 | The two packings by their bytes: least significant first, and most significant first. |
| CdbSpec.HomeMeaning | src/cdb_make.c:132-132 | The low byte of the hash picks the table, and the rest, modulo its size, the home slot. |
| CdbWriter.PlacedStep | src/cdb_make.c:116-120 | One step of the counting sort keeps every table's pointers in a final stretch of the table's own region, in insertion order. |
| CdbWriter.PlacedIsSorted | src/cdb_make.c:116-132 | After the counting sort each table's pointers are contiguous and in insertion order, although the list was walked backwards. |
| CdbWriter.MemoryFits | src/cdb_make.c:93-103 | When the file stays within 32-bit positions, the memory test of cdb_make_finish cannot fail. |
| CdbWriter.CdbMake.constructor | src/cdb_make.c:9-19 | An empty writer positioned behind the 2048-byte header. |
| CdbWriter.CdbMake.PosPlus | src/cdb_make.c:21-27 | The wrap test is exact: it fails if and only if the true sum does not fit 32 bits, and then leaves the position alone. |
| CdbWriter.CdbMake.AddEnd | src/cdb_make.c:29-49 | Appends the pointer (hash, record position) to the chunk list and moves the position over the record, failing exactly on overflow. |
| CdbWriter.CdbMake.Add | src/cdb_make.c:64-70 | Keeps the writer in step with the list of records added; fails exactly when the record would end beyond 32-bit positions. |
| CdbWriter.CdbMake.CountPairs | src/cdb_make.c:84-91 | count[b] is the number of pointers of table b. |
| CdbWriter.CdbMake.SumCounts | src/cdb_make.c:110-114 | start[b] is where the region of table b ends. |
| CdbWriter.CdbMake.Scatter | src/cdb_make.c:116-120 | The counting sort puts every pointer into its table's region, stably. |
| CdbWriter.CdbMake.FillTable | src/cdb_make.c:129-139 | In-place linear probing builds the table that the specification Fill describes, and leaves the sorted pointers alone. |
| CdbWriter.CdbMake.WriteTable | src/cdb_make.c:141-146 | Writes the slots of one table; fails exactly when the position would pass 32 bits. |
| CdbWriter.CdbMake.FinishTable | src/cdb_make.c:122-147 | One round of the last loop: table b and its header entry. |
| CdbWriter.CdbMake.Finish | src/cdb_make.c:72-152 | Succeeds exactly when the finished file fits 32-bit positions, and then the file is byte for byte the specified file of the records added. |
| CdbReader.StartReads | src/cdb.c:96-101 | In a finished file the first read of a search gives the place and size of the key's table. |
| CdbReader.TableReads | src/cdb.c:109-117 | In a finished file every slot read of a search stays inside the file and gives the specified slot. |
| CdbReader.Cdb.Read | src/cdb.c:48-53 | Fails exactly when the bytes are not all inside the file. |
| CdbReader.Cdb.Match | src/cdb.c:74-88 | Compares in steps of 32 bytes: 1 for the key, 0 for other bytes, -1 only when the file ends first. |
| CdbReader.Cdb.Probe | src/cdb.c:109-133 | Continues a search: the next match among the slots not yet examined, or the end. |
| CdbReader.Cdb.FindNext | src/cdb.c:90-133 | In the finished file of any records, each call yields the next data added under the key, oldest first, and 0 when none is left; in any other file a success still points behind a record with this key. |
| CdbReader.Cdb.Find | src/cdb.c:135-139 | In the finished file of any records, the data first stored under the key, or 0 when there is none. |
| Cidr.Laminar | src/ip4_deaggregate.c:45-48 | Aligned blocks that share an address are nested. |
| Cidr.TilesUnique | scripts/veridns/ip4.pm:37-66 | A range has only one split into back-to-back maximal aligned blocks. |
| Cidr.TilesCover | scripts/veridns/ip4.pm:37-66 | The blocks of a split are disjoint and ascending, and cover the range and nothing else. |
| Cidr.SplitIsFewest | scripts/veridns/ip4.pm:37-37 | No list of aligned blocks covering exactly the range is shorter than the split. |
| CidrSplit.GreedyBlock | src/ip4_deaggregate.c:44-49 | Raising the step while the next bit is clear and the larger block still fits stops at the block that is maximal in the range. |
| CidrSplit.Deaggregate | src/ip4_deaggregate.c:37-64 | Appends the split of the range, and nothing when the ends are the wrong way round, for every range for which the loop can end. |
| CidrSplit.EndsIff | src/ip4_deaggregate.c:43-43 | The loop over the blocks can end exactly if the range does not end at the last address; otherwise its condition holds of every 32-bit number. |
| CidrSplit.DigitsNum | scripts/veridns/ip4.pm:4-18 | Turning a number into bits and back gives the number. |
| CidrSplit.MaximalAcross | scripts/veridns/ip4.pm:54-60 | Splitting at the first differing bit loses nothing: blocks maximal in a half are maximal in the whole range. |
| CidrSplit.DoChunk | scripts/veridns/ip4.pm:38-66 | The recursive splitter appends the split of the range; it ends because the common prefix of the ends grows. |
| CidrSplit.ToCidr | scripts/veridns/ip4.pm:68-85 | A fresh list holding the split of the range. |
| CidrSplit.SplittersAgree | src/ip4_deaggregate.c:37-64 | The greedy and the recursive splitter give the same list for every range below the last address. |
| Geo.GeoKeyInjective | src/ipdb.c:26-46 | Keys of different blocks, maps or users differ. |
| Geo.KeysApart | src/vdnsdb.c:192-194 | IP-map keys, location-query keys and domain-name keys never coincide. |
| Geo.Key4Build | src/ipdb.c:26-46 | Fills the 15-byte key of a block. |
| Geo.Key4Lookup | src/ipdb.c:48-69 | The mask built bit by bit clears exactly the host bits: the key is that of the block of this mask around the address. |
| Geo.MasksComplete | src/ipdb.c:153-184 | Every mask length but 0 is tried. |
| Geo.TryLookup | src/ipdb.c:126-138 | One mask: the location stored under the block's key, or none. |
| Geo.IpdbGet | src/ipdb.c:140-189 | In the finished file of any records the answer is the location under the first mask that matches, in the order tried, and the default otherwise. |
| Geo.MatchIsOwnRange | src/ipdb.c:140-189 | Whatever a lookup key matches is a line of the range that holds the address. |
| Geo.LocationInside | src/ipdb.c:140-189 | With disjoint ranges an address inside a range gets that range's location, although the masks are not tried longest first. |
| Geo.LocationOutside | src/ipdb.c:186-188 | An address in no range keeps the default. |
| Geo.LocationWhole | src/ipdb.c:153-184 | A range that is the whole address space is never found: its only block has mask 0, which is not tried. |
| Geo.LocationInsideIff | src/ipdb.c:140-189 | Exactly when a lookup inside a range gives the range's location: if and only if the range is not the whole address space. |
| GeoBuild.Export | scripts/veridns/db.pm:96-105 | The export loop leaves the database holding exactly the lines of the splits of all ranges besides what was there before, or stops because the file is full. |
| GeoBuild.ExportAndLookup | scripts/veridns/db.pm:96-105 | End to end: split the ranges, store the lines, finish the file and look an address up; the answer is the location of the range that holds it, or the default. |
| RecordStore.Builder.RrStart | src/vdnsdb.c:202-218 | Type, mark, location if there is one, time to live and cut-off, in that order. |
| RecordStore.Builder.RrFinish | src/vdnsdb.c:219-229 | Adds the record under the lower-cased owner, as a wildcard of the rest when the first label is an asterisk; fails exactly when the database is full. |
| RecordStore.Builder.Store | src/vdnsdb.c:382-390 | What a line does: start, the data piece by piece, finish; the database gains the one specified record, or is full. |
| RecordStore.Builder.RrAddLoq | src/vdnsdb.c:178-200 | Adds the location query only for records of clients without a location. |
| RecordStore.StoredSeen | src/tdlookup.c:69-117 | find sees a stored record exactly if it is for this client, of the kind looked for and timely, and reads back the type, time to live and data that were stored. |
| RecordStore.StoredRendered | src/tdlookup.c:202-217 | The names and bytes doit writes of a stored record are those the encoder was given, names up to case. |
| RecordStore.StoredShown | src/vdnsdb.c:219-229 | Storing a record shows it behind the records its owner had, to the clients it is for, and changes nothing for other names, kinds and clients. |
| RecordStore.LoqFoundIff | src/vdnsdb.c:192-194 | A location query is stored as the line spells the name but looked up in lower case: the lookup gains the stored data if the spelling has no capital letters, and otherwise finds only what it found before. |
| DnsName.LowerIsName | src/dns_domain.c:47-47 | Lowering a name keeps its structure, since lengths are below the letter A. |
| DnsName.DomainLength | src/dns_domain.c:7-16 | The length of the name at the front of a buffer, whatever follows it. |
| DnsName.DomainEqual | src/dns_domain.c:40-49 | True exactly for names equal up to ASCII case. |
| DnsName.SuffixPos | src/dns_domain.c:51-74 | The first suffix of a name that is another name up to case, or that there is none. |
| DnsPacket.PacketGetName | src/dns_packet.c:35-77 | The loop over buffers computes the name reader used in all statements about messages, with its 255-byte and 1000-step limits. |
| DnsPacket.FollowPointers | src/dns_packet.c:54-61 | The inner loop follows pointers as the specification does, within the step limit. |
| DnsPacket.PacketSkipName | src/dns_packet.c:18-33 | The position behind a name, or failure. |
| DnsPacket.PacketCopy | src/dns_packet.c:8-16 | The bytes asked for, or failure exactly when the message ends first. |
| DnsPacket.GetNameIsName | src/dns_packet.c:35-77 | Whatever the bytes, what is read is a proper name of at most 255 bytes. |
| DnsPacket.SkipAgrees | src/dns_packet.c:18-33 | Wherever a name can be read, skipping it leads to the same position. |
| DnsCompress.LiteralStays | src/response.c:23-50 | A name spelled out in the message stays readable while more is written. |
| DnsCompress.GetAt | src/dns_packet.c:45-67 | Reading a name at its place follows at most one pointer a label and never reaches the step limit, because every pointer lands on an earlier spelled-out label. |
| DnsCompress.RoundTrip | src/dns_packet.c:35-77 | Wherever a name stands in a message, getname reads it back up to ASCII case with the exact end position, and skipname agrees. |
| ResponseWriter.Response.AddBytes | src/response.c:15-21 | Appends the bytes exactly when they fit 65535. |
| ResponseWriter.Response.Lookup | src/response.c:32-36 | Finds a recorded suffix exactly if there is one among those of earlier names. |
| ResponseWriter.Response.RecordSuffix | src/response.c:37-42 | Records the suffix with its position if it is at most 128 bytes and there is room for it. |
| ResponseWriter.Response.AddName | src/response.c:23-50 | Writes the labels in front of the first known suffix and a pointer, fails exactly when that does not fit, and leaves the name readable at its place and the table as specified. |
| ResponseWriter.SizeBound | src/response.c:23-50 | Compression never makes a name longer. |
| ResponseWriter.PointerAt | src/response.c:33-36 | A pointer to a place where the name stands spelled out makes the name readable at the pointer. |
| ResponseWriter.PointerBytes | src/response.c:12-34 | The two bytes of a pointer lead back to the recorded position exactly if that is below 16384. |
| RecordData.PiecesStay | src/response.c:15-50 | Record data made of bytes and compressed names stays readable while more is written and when bytes elsewhere change. |
| RecordData.ReadName | src/tdlookup.c:275-281 | The name inside record data is read back up to case. |
| MessageWriter.FramedParses | src/response.c:52-91 | A framed message parses completely: one question, as many records as the header counts, up to the last byte. |
| MessageWriter.RecordsStay | src/response.c:87-91 | Finished records survive changes of the header and everything written behind them. |
| MessageWriter.Message.Query | src/response.c:52-62 | A message with the question, its type and class, and no records; its flags are those of an answer without errors. |
| MessageWriter.Message.RStart | src/response.c:73-85 | Begins a record with this owner, type and time to live; with hidden times to live it is 0. |
| MessageWriter.Message.Data | src/response.c:15-21 | Plain record data. |
| MessageWriter.Message.DataName | src/response.c:23-50 | A name in record data. |
| MessageWriter.Message.RFinish | src/response.c:87-91 | Completes the record: its data length is right and the counter of its section, and no other, goes up by one, carry included. |
| MessageWriter.Message.SetHeader | src/response.c:101-115 | Changing flag or identifier bytes leaves the question and the records as they are. |
| MessageWriter.Message.Cut | src/tdlookup.c:298-305 | Cutting an over-long reply drops the additional records, and the authority records too if that is not enough; what is left still parses completely. |
| MessageWriter.Message.CompleteParses | src/response.c:52-91 | Between two records the message so far parses completely. |
| HeaderBits.NxDomain | src/response.c:101-105 | Sets AA and response code 3; every other bit and byte of the message keeps its value. |
| HeaderBits.ServFail | src/response.c:107-110 | Sets the server-failure bit; every other bit and byte of the message keeps its value. |
| HeaderBits.ClearAuthority | src/tdlookup.c:171-172 | Clears AA; every other bit and byte of the message keeps its value. |
| TdRecords.Handover | src/tdlookup.c:102-114 | Of a record that ends at a cut-off and one that starts there, exactly one is visible at any time; the ending one is told the time left, but at least 2 and at most 3600 seconds, the starting one its own time to live. |
| TdRecords.Everlasting | src/tdlookup.c:100-102 | Without a cut-off a record is always visible, with its own time to live. |
| TdRecords.FirstOfAll | src/tdlookup.c:80-117 | One call of find moves one visible record ahead in the list of all. |
| TdFind.Test | src/tdlookup.c:86-115 | The location, wildcard and time tests on one stored record decide as specified, malformed records included. |
| TdFind.Find | src/tdlookup.c:69-117 | On the bytes of a finished database, find gives the next visible record of the name, the end, or an error exactly at a malformed record. |
| TdMessage.DoName | src/tdlookup.c:128-133 | Copies a name of the stored record into the response, failing exactly when it cannot be read. |
| TdMessage.DoBytes | src/tdlookup.c:119-127 | Copies bytes of the stored record, failing exactly beyond its end or for more than twenty. |
| TdMessage.AddRecord | src/tdlookup.c:202-217 | Adds one record, with owner, type, time to live and data of the stored one, to the right section. |
| TdMessage.HeadRead | src/tdlookup.c:40-46 | The owner, type and length of a record in the response are read back from its bytes. |
| TdMessage.Want | src/tdlookup.c:29-49 | True exactly if the response has no record of this owner and type. |
| TdSpec.ZoneNearest | src/tdlookup.c:155-169 | The zone is the longest suffix of the query owning visible name server records; authority is whether it has an SOA record. |
| TdSpec.NodeNearest | src/tdlookup.c:180-231 | The answering name is the first from the query up to the zone that has visible records, exact ones at the query and wildcards above; there is none exactly if none of them has any. |
| TdSpec.GlueGrows | src/tdlookup.c:271-296 | Glue is only ever added behind the records there are. |
| TdSpec.SampleFree | src/tdlookup.c:191-225 | Whether there is a reply does not depend on which of the allowed samples is drawn. |
| TdSpec.SampleExists | src/tdlookup.c:191-200 | Inside a zone some sample is allowed. |
| Tdlookup.ScanTypes | src/tdlookup.c:159-164 | One pass over a name tells whether it has NS and SOA records. |
| Tdlookup.FindZone | src/tdlookup.c:155-169 | The first loop of doit finds the specified zone, and fails exactly if there is none or a record is malformed. |
| Tdlookup.Keep | src/tdlookup.c:191-200 | Whatever the random numbers, the sampler holds at most eight of the addresses met, none more often than it was met. |
| Tdlookup.AnswerRecord | src/tdlookup.c:188-217 | One visible record: skipped, sampled or written as specified, SOA records once. |
| Tdlookup.AnswerAddresses | src/tdlookup.c:219-225 | All sampled addresses are written, with one time to live. |
| Tdlookup.FindAnswer | src/tdlookup.c:178-236 | The second loop of doit writes the specified answer section and reports whether the name exists. |
| TdReply.AddAll | src/tdlookup.c:257-267 | Adds all records of one type that a name shows. |
| TdReply.AddSoa | src/tdlookup.c:242-255 | Adds the first SOA record the zone shows. |
| TdReply.AddAuthority | src/tdlookup.c:239-267 | Adds the authority section of the specified reply, whose meaning is `AuthorityMeaning`. |
| TdReply.ReadTarget | src/tdlookup.c:273-281 | From the bytes of the response: the host a name server or mail exchanger record names, in lower case, and the next record. |
| TdReply.GlueOne | src/tdlookup.c:272-296 | One round of the glue loop adds the addresses of the host named, unless the response has one. |
| TdReply.AddGlue | src/tdlookup.c:271-296 | The glue loop, which re-reads the response while it grows, adds exactly the specified additional records. |
| TdDoit.DoAnswer | src/tdlookup.c:171-236 | Answer section and flags of the specified reply: AA cleared exactly below a zone cut, NXDOMAIN exactly when nothing was found. |
| TdDoit.Finish | src/tdlookup.c:298-305 | An authoritative reply longer than 512 bytes loses its additional records, and its authority records too exactly if it is still longer than 512 bytes. |
| TdDoit.SendsLog | src/tdlookup.c:298-305 | What is sent after the cuts are the answers, then the whole authority section or nothing of it, then the whole additional section or nothing of it. |
| TdDoit.FlagsMeaning | src/tdlookup.c:171-172 | Bit by bit: AA is cleared below a zone cut and set for a denied name, the response code of a denied name is 3, and every other bit is as in the request. |
| TdDoit.Doit | src/tdlookup.c:134-308 | From database bytes to response bytes: a finished response is, record for record, the specified reply for some allowed sample, cut to size, and parses completely; failure means that there is no reply for any allowed sample. |
| TdRespond.FindLocation | src/tdlookup.c:461-503 | The client's location: by address in the map that the location query names, or the default. |
| TdRespond.LocationAsked | src/tdlookup.c:470-482 | A location query stored as map and user number is read as that map and that user. |
| TdRespond.Respond | src/tdlookup.c:438-506 | As Doit, failure included, for the location of the client's address and the current time. |
| TdTheorems.ReplyMeaning | src/tdlookup.c:155-236 | A reply speaks for the nearest enclosing zone, is authoritative exactly if that has an SOA record, and denies the name exactly if nothing is visible between it and the zone. |
| TdSections.AuthorityMeaning | src/tdlookup.c:239-267 | An authoritative reply without answers has the first visible SOA record of the nearest zone as its one authority record. Any other has all visible name servers of the zone, in stored order and nothing else, unless an answer is a name server record of the zone; then, and only then, it has none. |
| TdSections.AnswerMeaning | src/tdlookup.c:178-231 | The answers of a name that exists are the visible records asked for of the nearest populated name, in stored order, only the first SOA record and no address of four bytes among them; then eight of the addresses, or all if there are fewer, none more often than stored, with the time to live of the last. |
| TdSections.GlueMeaning | src/tdlookup.c:271-296 | The additional records of a host are its visible addresses, in stored order, in one place, if an answer or authority record names it and has no address for it; for any other host there are none. |
| TdTheorems.AnswersWanted | src/tdlookup.c:190-190 | Every answer is for the query name and of a type asked for, or an alias. |
| TdTheorems.AnswersComplete | src/tdlookup.c:186-225 | Every wanted record of the answering name is among the answers, the first SOA record included; only later SOA records, and addresses when there are more than eight, can be missing. |
| TdTheorems.AddressesChosen | src/tdlookup.c:191-225 | However many addresses the answering name has, the answers end with eight of them, or all if there are fewer, none more often than stored, with one time to live. |
| TdTheorems.ReplyHasGlue | src/tdlookup.c:271-296 | Every host that an answer or authority record names has an address in the complete reply if the database shows one. |
| TdTheorems.AnsweredIff | src/tdlookup.c:155-169 | With a database in which nothing stored under a name is malformed, exactly the names inside some zone are answered, whatever is sampled; IP-map lines and location queries do not matter. |
| TdTheorems.EmptyWellFormed | src/tdlookup.c:155-169 | In an empty database nothing stored under a name is malformed. |
| TdTheorems.OtherKeys | src/vdnsdb.c:192-194 | Records whose keys are no names leave a database well-formed, or not, as it was. |
| TdTheorems.LineKeeps | src/ipdb.c:26-46 | Adding an IP-map line, whatever its data, keeps a database well-formed. |
| TdTheorems.QueryKeeps | src/vdnsdb.c:178-200 | Adding a location query keeps a database well-formed. |
| TdTheorems.StoredKeeps | src/vdnsdb.c:202-229 | Adding what the encoder makes of a line keeps a database well-formed for every client at every time. |
| RecordOrder.Smaller | src/query.c:130-158 | Compares as specified: type and class, length, name up to case, place. |
| RecordOrder.StrictTotalOrder | src/query.c:130-158 | On the records of one packet smaller is a strict total order. |
| Heapsort.Sink | src/query.c:547-554 | First half of the sift: the hole sinks along the larger children to a leaf. |
| Heapsort.Rise | src/query.c:555-558 | Second half: the hole rises past smaller parents and is filled; the heap and the multiset of positions are kept. |
| Heapsort.Sort | src/query.c:542-559 | The bottom-up heapsort leaves a sorted permutation of the positions. |
| Grouping.SetsContiguous | src/query.c:561-578 | In sorted order the records of one name, type and class are contiguous. |
| Grouping.Collect | src/query.c:533-540 | Collects the positions of all records, or fails exactly if one of them cannot be read. |
| Grouping.GroupRecords | src/query.c:561-669 | Every set of class IN is exactly one group with all its records; records of other classes are in none. |
| Grouping.GroupPacket | src/query.c:533-669 | Collect, sort and group: from any packet whose records can be read, every class-IN set comes out as one whole group. |
| QueryLoop.Query.Rqa | src/query.c:94-111 | The response begins with the question first asked and one alias record for each step from it to the current name. |
| QueryLoop.Query.StepNewName | src/query.c:201-411 | Costs one loop count and gives up at the hundredth. Otherwise what the cache holds decides the jump in every case: records answer at level 0 and lead one level down above it, a denial is a name error, an alias answers a question for aliases and else is followed, servers replace those of this level, and only nothing known ends the query. |
| QueryLoop.Query.StepHaveNs | src/query.c:414-440 | Takes the first name server of this level that is left and goes one level up to resolve its name, with those before it given up; with none left it starts a transmission to the known addresses, or fails for want of them. |
| QueryLoop.Query.StepLower | src/query.c:443-448 | One level down, leaving neither name nor servers behind. |
| QueryLoop.Query.StepPacket | src/query.c:451-812 | Costs one loop count and gives up at the hundredth. Otherwise what the packet holds decides the jump in every case: answers, an alias, a name error, a referral, a lame server, or garbage, which alone ends the query. |
| QueryLoop.Query.StepCname | src/query.c:674-689 | At level 0 the alias list grows by the current name; the query dies exactly if the list is full. |
| QueryAnswers.AddEntries | src/query.c:738-776 | Appends exactly the records for this name and type, in their order; fails only at one whose data cannot be read or do not fit. |
| QueryAnswers.AnswersMatch | src/query.c:744-746 | Every record appended belongs to the name asked for and is of the type asked for. |
| QueryAnswers.AnswersAll | src/query.c:739-746 | No readable record for the name and type is left out. |
| QueryAnswers.AnswersExact | src/query.c:738-776 | What is appended are copies, owner and names in lower case, of exactly the records whose owner is the name up to case, of class IN and of the type asked for, in their order. |
| QueryLoop.Query.Run | src/query.c:205-819 | The jumps come to an end and are, from the first to the last, those of the machine spelled out in `Follows`: each label, loop count, level and number of aliases leads to the next by what the cache, a packet or a transmission says. Each transmission started has been paid for by the potential. |
| QueryLoop.Query.Doit | src/query.c:160-819 | Every call runs the machine to its end and returns what that says: a response whose records are exactly one chain of aliases from the question to the current name and, behind it, the records of that name and type that the cache or a packet holds, or a name error, or a server failure. It gives up only for a reason: the hundredth loop, nothing known, garbage, no socket, one alias too many, or a record that cannot be used. |
| QueryLoop.Query.QueryStart | src/query.c:821-835 | Starts the machine at level 0 with the question, with the same promises; usable records that the cache holds for the question are given at once; zone transfers are refused; at most 200 transmissions. |
| QueryLoop.Query.QueryGet | src/query.c:837-846 | Continues the machine with a packet or with a failure, with the same promises; usable records in the packet are given; over all calls it starts at most 200 transmissions. |
| QueryLoop.ResponseChain | src/query.c:94-111 | The records of a response: alias i of the chain as a CNAME record to alias i + 1, with its time to live, and then the records of the last name. |
| QueryLoop.FlagsMeaning | src/response.c:101-110 | Bit by bit: a response, not truncated, recursion available, AA exactly for a name error, and code 0, 3 or 2. |
| Transmit.NothingTwice | src/dns_transmit.c:97-194 | No server is tried twice in a round or twice over TCP, and nothing is tried over UDP after TCP. |
| Transmit.FewTries | src/dns_transmit.c:97-194 | At most 64 UDP tries, 48 for recursive queries, and 16 over TCP. |
| Transmit.RanInOrder | src/dns_transmit.c:97-194 | Every run keeps this order: rounds, servers in a round, and then TCP. |
| Transmit.DueCounts | src/dns_transmit.c:97-182 | With n addresses, n tries are due in each round and n over TCP. |
| Transmit.EverythingCounts | src/dns_transmit.c:97-182 | A run that gives up though sockets could be had has made every try that was due: n in each round, or some of these and n over TCP. |
| Transmit.WholeQuestion | src/dns_transmit.c:297-313 | A server has been sent the whole question exactly if sending began at its first byte. |
| Transmit.Irrelevant | src/dns_transmit.c:32-53 | True exactly for packets that do not answer the current identifier and question. |
| Transmit.HeaderMeaning | src/dns_transmit.c:17-30 | Truncation is the TC bit of the header, and a failure any response code but 0 and 3. |
| Transmit.Connection.ThisUdp | src/dns_transmit.c:97-133 | The next server, in this round or a later one, to which the question can be sent; otherwise everything due has been tried and is released. |
| Transmit.Connection.ThisTcp | src/dns_transmit.c:147-182 | The next server to which a connection can be started. If it is still coming up, sending will begin at the first byte of the question; if it is up at once, at the position left by earlier use. |
| Transmit.Connection.TryTcp | src/dns_transmit.c:157-177 | One server: exactly the connections that are up at once skip the first `pos` bytes of the question. |
| Transmit.Connection.Start | src/dns_transmit.c:196-222 | Waits for an answer to this question, or has given up for want of sockets or servers. |
| Transmit.Connection.HandleUdp | src/dns_transmit.c:268-283 | A datagram is taken exactly if it is an untruncated answer with response code 0 or 3; truncation leads to TCP at the first server, failure to the next server but for the third round; what is ignored leaves the question as it is. |
| Transmit.Connection.Get | src/dns_transmit.c:241-366 | What every event leads to in every state: nothing while waiting; the question again, at the next server, when time runs out; over UDP ignoring, taking, going on or changing to TCP; over TCP sending from the first byte once a connection is up and the next server when it failed, then sending and receiving. 1 only with a good packet and socket and query released, -1 only with everything released and nothing left to try or no socket to be had; never back from TCP to UDP. |
| Transmit.Connection.Write | src/dns_transmit.c:297-313 | Sends as much of the rest of the question as is taken and goes on to the answer exactly at its end; from a position behind the end that never comes, and when nothing is taken the next server is tried. |
| Transmit.Connection.Receive | src/dns_transmit.c:315-363 | Two length bytes and then the packet: complete it is judged, and every failure leads to the next server. |
| Transmit.Connection.ReadPacket | src/dns_transmit.c:344-363 | Collects the packet in order, up to its announced length. |
| Transmit.Connection.FinishPacket | src/dns_transmit.c:356-363 | A TCP packet is taken exactly if it is good; otherwise the next server is tried. |
| Transmit.SkippedRun | src/dns_transmit.c:157-182 | A run in which the second server is sent the question from its sixth byte on. |
| Transmit.BeyondRun | src/dns_transmit.c:297-313 | A run in which the position is behind the end of the question, so that sending never ends. |
| Psd.EachSourceOnce | xtables/xtables-addons-1.47.1/extensions/xt_psd.c:298-370 | Over all chains, different places hold different slots and different non-zero sources, and every chain ends within 16 slots. |
| PsdChains.UnlinkMiddle | xtables/xtables-addons-1.47.1/extensions/xt_psd.c:240-246 | Unlinking behind a predecessor takes out one slot and keeps the rest in order. |
| PsdChains.CutTail | xtables/xtables-addons-1.47.1/extensions/xt_psd.c:341-342 | Cutting behind the last but one slot drops the last. |
| Psd.State.Search | xtables/xtables-addons-1.47.1/extensions/xt_psd.c:310-318 | Finds the entry of the source if the chain has one, with the pointer that stays behind by one. |
| Psd.State.HtUnlink | xtables/xtables-addons-1.47.1/extensions/xt_psd.c:240-246 | The pointer changes, and nothing else. |
| Psd.State.Expire | xtables/xtables-addons-1.47.1/extensions/xt_psd.c:328-331 | An outdated entry is marked unused and leaves its chain; all chains stay sound. |
| Psd.State.Truncate | xtables/xtables-addons-1.47.1/extensions/xt_psd.c:338-342 | A full chain loses its last entry, which stays behind as an orphan slot. |
| Psd.State.RemoveOldest | xtables/xtables-addons-1.47.1/extensions/xt_psd.c:256-275 | Takes the slot out of the chain if it is there; an orphan slot is not. |
| Psd.State.Release | xtables/xtables-addons-1.47.1/extensions/xt_psd.c:344-352 | The ring slot to be reused leaves whichever chain it was in. |
| Psd.State.IsPortscan | xtables/xtables-addons-1.47.1/extensions/xt_psd.c:198-231 | A port not yet remembered stamps the entry, adds its weight, which differs below port 1024, modulo 256, and is remembered while there is room; a scan is a weight at the threshold. |
| Psd.State.Admit | xtables/xtables-addons-1.47.1/extensions/xt_psd.c:334-369 | A new source takes the next ring slot at the head of its chain, which loses its last entry first when it is full; no other slot changes but for its pointer. |
| Psd.State.HandlePacket4 | xtables/xtables-addons-1.47.1/extensions/xt_psd.c:298-370 | Keeps all chains sound, and does exactly one of: score a source whose entry is not from the future and not older than the limit, drop an outdated entry, admit the source; every other slot keeps all but its pointer. |
| Dnetmap.IndexAdd | xtables/xtables-addons-1.47.1/extensions/xt_DNETMAP.c:471-480 | Linking a newly bound entry keeps a hash table exact. |
| Dnetmap.IndexRemove | xtables/xtables-addons-1.47.1/extensions/xt_DNETMAP.c:467-468 | Unlinking an entry keeps a hash table exact. |
| Dnetmap.Touched | xtables/xtables-addons-1.47.1/extensions/xt_DNETMAP.c:472-473 | Restamping an entry and moving it to the end keeps the list of its prefix sorted by stamp. |
| Dnetmap.HeadOldest | xtables/xtables-addons-1.47.1/extensions/xt_DNETMAP.c:446-447 | The head of a prefix's list has the least stamp of the prefix. |
| Dnetmap.BusyHead | xtables/xtables-addons-1.47.1/extensions/xt_DNETMAP.c:448-456 | The head is bound and unexpired exactly if all addresses of the prefix are. |
| Dnetmap.Net.AddPrefix | xtables/xtables-addons-1.47.1/extensions/xt_DNETMAP.c:323-335 | One free entry for each address of the range, in order. |
| Dnetmap.Net.ReverseLookup | xtables/xtables-addons-1.47.1/extensions/xt_DNETMAP.c:153-166 | A bound entry with this address, or that there is none. |
| Dnetmap.Net.Reverse | xtables/xtables-addons-1.47.1/extensions/xt_DNETMAP.c:398-431 | The source behind an address, whose binding is renewed and goes to the end of its list; a rule whose prefix compares as different gets none and changes nothing. |
| Dnetmap.Net.Lookup | xtables/xtables-addons-1.47.1/extensions/xt_DNETMAP.c:139-151 | The entry bound to this source, if any. |
| Dnetmap.Net.BindNew | xtables/xtables-addons-1.47.1/extensions/xt_DNETMAP.c:445-484 | The oldest entry of the prefix changes hands; refused exactly if every address of the prefix is bound and unexpired. |
| Dnetmap.Net.Source | xtables/xtables-addons-1.47.1/extensions/xt_DNETMAP.c:433-508 | A source keeps its binding if the rule reuses, it is not outdated, or it is in the rule's prefix; otherwise it moves there; a new one gets the oldest entry. Both tables, the lists and the stamps stay sound, and no two entries share a source. |
| Account.SlotsApart | xtables/xtables-addons-1.47.1/extensions/ACCOUNT/xt_ACCOUNT.c:410-441 | Two addresses of the network never share a slot. |
| Account.TallyMeaning | xtables/xtables-addons-1.47.1/extensions/ACCOUNT/xt_ACCOUNT.c:367-389 | The tally of a run is, for every address, the number of packets with it as source and the sum of their sizes, and the same for those with it as destination. |
| Account.Depth0Insert | xtables/xtables-addons-1.47.1/extensions/ACCOUNT/xt_ACCOUNT.c:329-403 | Exactly the slots of source and destination are counted, and the item counter grows by the addresses seen for the first time. |
| Account.Depth1Insert | xtables/xtables-addons-1.47.1/extensions/ACCOUNT/xt_ACCOUNT.c:405-441 | The same through two levels, with pages made when first needed: every slot, also those counted astray when the network holds address 0. |
| Account.Depth2Insert | xtables/xtables-addons-1.47.1/extensions/ACCOUNT/xt_ACCOUNT.c:443-479 | The same through three levels. |
| Account.CountedOnceIff | xtables/xtables-addons-1.47.1/extensions/ACCOUNT/xt_ACCOUNT.c:405-479 | A packet is counted right in a table of more than one level exactly if the network does not hold address 0 or neither of its addresses is in the network. |
| Account.Table.constructor | xtables/xtables-addons-1.47.1/extensions/ACCOUNT/xt_ACCOUNT.c:213-258 | An empty table as deep as the mask needs, whatever bits the network number has beyond the mask. |
| Account.Table.Target | xtables/xtables-addons-1.47.1/extensions/ACCOUNT/xt_ACCOUNT.c:481-540 | For every address of the network the table holds the number and bytes of the packets since the last flush that have it as source, and of those that have it as destination; together with the tables flushed before, those of the whole run. The item counter is the number of addresses seen. |
| Account.Table.ReadFlush | xtables/xtables-addons-1.47.1/extensions/ACCOUNT/xt_ACCOUNT.c:697-733 | Hands out the table, which holds exactly the traffic since the flush before, and starts an empty one; nothing is counted twice or lost. |
| Account.TablesMeaning | xtables/xtables-addons-1.47.1/extensions/ACCOUNT/xt_ACCOUNT.c:697-733 | All tables flushed and the one in use together hold the traffic of all packets, for every address of the network. |
| Account.ListingExact | xtables/xtables-addons-1.47.1/extensions/ACCOUNT/xt_ACCOUNT.c:776-866 | The listing has exactly the slots seen, once each, ascending. |
| Account.OrIsAddress | xtables/xtables-addons-1.47.1/extensions/ACCOUNT/xt_ACCOUNT.c:749-749 | Or-ing the slot number into the network number gives the address. |
| Account.OrRestoresIff | xtables/xtables-addons-1.47.1/extensions/ACCOUNT/xt_ACCOUNT.c:224-225 | Or-ing gives the addresses exactly if the network number has no bits beyond the mask, which nothing clears. |
| Account.CopyData | xtables/xtables-addons-1.47.1/extensions/ACCOUNT/xt_ACCOUNT.c:738-770 | One page goes out through the bounded buffer: the slots seen, in order, or-ed with the network number. |
| Account.GetData | xtables/xtables-addons-1.47.1/extensions/ACCOUNT/xt_ACCOUNT.c:776-866 | At every depth the data handed out are the slots seen, ascending, each under the network number or-ed with the slot number. |
| Account.HandedRight | xtables/xtables-addons-1.47.1/extensions/ACCOUNT/xt_ACCOUNT.c:749-749 | If the network number has no bits beyond the mask, what is handed out is the listing of addresses. |
| Account.HandedWrong | xtables/xtables-addons-1.47.1/extensions/ACCOUNT/xt_ACCOUNT.c:749-749 | If it has some, a table that has seen the first address of the network is handed out wrong. |
| Account.HandedRightIff | xtables/xtables-addons-1.47.1/extensions/ACCOUNT/xt_ACCOUNT.c:749-749 | Exactly the networks whose number has no bits beyond the mask are handed out right whatever has been seen. |
| Account.SnapshotExact | xtables/xtables-addons-1.47.1/extensions/ACCOUNT/xt_ACCOUNT.c:776-866 | The listing of a snapshot has every address of the network seen since the last flush, once, with its counters, and nothing else, and as many as the item counter says. |
| Account.ReadoutMeaning | xtables/xtables-addons-1.47.1/extensions/ACCOUNT/xt_ACCOUNT.c:738-866 | What is read out of a flushed table, for a clean network number, are the addresses of the network that are source or destination of a packet since the flush before, ascending, each with the number and bytes of its packets in both directions. |
| Pknock.MatchedIsLongest | xtables/xtables-addons-1.47.1/extensions/pknock/xt_pknock.c:866-926 | The knock count is the length of the longest prefix of the port list that is a subsequence of the ports sent. |
| Pknock.KnocksMeaning | xtables/xtables-addons-1.47.1/extensions/pknock/xt_pknock.c:866-926 | A peer is allowed exactly when the whole list has been matched; in strict mode nothing else came between. |
| Pknock.TimedMeaning | xtables/xtables-addons-1.47.1/extensions/pknock/xt_pknock.c:909-920 | Of a timed rule, none of the packets that matched, before the last port of the list, was sent more than the limit after the one before; the time stamp of a peer still matching is the time of its latest. |
| Pknock.Rule.UpdatePeer | xtables/xtables-addons-1.47.1/extensions/pknock/xt_pknock.c:866-926 | One more port, in all cases: a wrong one ends a strict sequence and is else passed over, the last one opens and sets the login time, one before the last that comes later than the limit ends a timed sequence, and any other raises the count and stamps a timed entry. |
| Pknock.Rule.Knock | xtables/xtables-addons-1.47.1/extensions/pknock/xt_pknock.c:955-1065 | A packet passes exactly if its peer was allowed before and its autoclose time is not over; otherwise it is one more port of its peer, or the first of a new one; only the peer of the packet changes. The law of `TimedMeaning` holds after every run. |
| Pknock.Rule.Gc | xtables/xtables-addons-1.47.1/extensions/pknock/xt_pknock.c:371-397 | Removes exactly the allowed peers whose autoclose time is over and the others whose time stamp is older than the limit. |
| RandomIp.Shuffle | src/random-ip.c:25-31 | Whatever is drawn, the table stays one-to-one. |
| RandomIp.RoundInjective | src/random-ip.c:56-60 | A round that starts from a known byte is injective. |
| RandomIp.RoundChain | src/random-ip.c:56-60 | Each byte becomes the table's entry for its exclusive or with the byte before, as that has come out. |
| RandomIp.LaterRoundInjective | src/random-ip.c:55-61 | A round that carries in its own last byte is injective on two bytes or more. |
| RandomIp.OneByteForgotten | src/random-ip.c:49-52 | Why one free byte is substituted only once: two rounds of the mixing would forget it. |
| RandomIp.MixInjective | src/random-ip.c:54-61 | The mixing of two bytes or more is injective, for any number of rounds. |
| RandomIp.MixRound | src/random-ip.c:56-60 | One round over the free bytes in place. |
| RandomIp.AddressInjective | src/random-ip.c:47-62 | Different counter values print different addresses. |
| RandomIp.Next | src/random-ip.c:47-62 | One address in place, the fixed bytes untouched. |
| RandomIp.Generate | src/random-ip.c:40-76 | All addresses printed are different and begin with the fixed bytes; as many as asked for, up to the cap. |
| Dotted.ToDotCat | src/dns_dtda.c:4-35 | Appends the dotted form of the name. |
| Dotted.DomainFromDot | src/dns_dfd.c:6-69 | Computes the specified parse over its two buffers, and fails exactly when that does. |
| Dotted.DottedRoundTrip | src/dns_dfd.c:6-69 | For every valid name, parsing its printed form gives the name with ASCII letters lowered, the root and octal escapes included. |
| Dotted.FromDotIsName | src/dns_dfd.c:51-60 | Whatever the text, a parsed name is a proper one of at most 255 bytes. |
| Buffer.Output.AllWrite | src/buffer_put.c:6-21 | Under partial writes and interrupts everything is written in order, or a prefix before an error. |
| Buffer.Output.Flush | src/buffer_put.c:23-31 | Afterwards everything put has been written. |
| Buffer.Output.PutAlign | src/buffer_put.c:33-45 | Bytes written plus bytes held are the bytes put, and writes are whole buffers. |
| Buffer.Output.Put | src/buffer_put.c:47-67 | Bytes written plus bytes held are the bytes put. |
| Buffer.Output.PutFlush | src/buffer_put.c:69-73 | Everything put so far and these bytes are written. |
| Buffer.Input.Feed | src/buffer_get.c:25-36 | Fills an empty buffer right-aligned from a partial read and loses nothing. |
| Buffer.Input.Get | src/buffer_get.c:48-56 | The next bytes ahead, from the buffer or straight from the source. |
| Buffer.Input.Getln2 | src/getln2.c:4-24 | The line up to and with the separator, in two parts, or the rest of the input. |
| Buffer.Input.Getln | src/getln.c:4-14 | The first line of what is ahead; matched exactly if it has the separator, which is then its last byte and no other. |
| Buffer.Input.AllLines | src/getln.c:4-14 | Under arbitrary partial reads the lines put together are the input. |

## Left out

Outside all modules:

- Sockets, files, polling, environment, installation, logging, option parsing, text parsing of configuration
  lines, and the listings under /proc.
- Failing memory allocation, clocks that wrap around, and locks: each call is one atomic step.
- The inside of the key hash (`src/cdb_hash.c`): statements hold for any function of the key.
- `src/cache.c` is not part of this model; the cache answers arbitrarily.

Contracts that say less than the code does, or hold on part of its domain:

- CdbReader.Cdb.Read: the file is mapped; the branch that seeks and reads from a descriptor is not modelled.
- CidrSplit.Deaggregate: ranges that end at the last address are excluded, since the loop then never ends (`EndsIff`); `ip4_deaggregate2`, which is called from nowhere, is not modelled.
- CidrSplit.DoChunk: ends the wrong way round are excluded; the Perl code is only called with a range.
- GeoBuild.Export: the map's exception ranges are taken as already disjoint; the interval arithmetic of `scripts/veridns/db.pm` and the names hashed to map, user and location numbers are parameters. It stops when the database is full, where the tool does not look at the result.
- ResponseWriter.Response.AddName: recorded positions must be below 16384 at the start; when it fails, what it leaves behind is not described.
- MessageWriter.Message.Cut: `response_tc`, which shortens a message without touching its counters, is not modelled.
- Tdlookup.Keep: the counter of addresses stops at a million as in the code, and no distribution of samples is claimed.
- TdDoit.Doit: says nothing once a message passes 16384 bytes (status `Beyond`).
- TdRespond.Respond: database values for location queries and blocks have the eight and four bytes the encoder writes; the wildcard rewriting of location queries, a compile-time option, and reloading the database are not modelled.
- QueryLoop.Query.Doit: cache and packet contents are arbitrary lists of records, so the layout of cached values, what is saved to the cache and which servers are chosen are not described; nothing is said once a response passes 16384 bytes (result 2).
- Transmit.Connection.Get: deadlines are events, datagrams longer than the buffer are ignored as in the code, and binding a socket either works or does not.
- Transmit.Connection.Write: what is sent from a position behind the end of the question is memory outside it and not described.
- Psd.State.HandlePacket4: IPv4 only; the source address is not 0 and fits its header, as the caller has checked.
- Dnetmap.Net.Source: one lifetime for all rules, no static entries and prefixes that are not empty; with several lifetimes a list need not stay sorted by stamp. Sources are not 0.
- Account.Table.Target: masks of 8 to 32 bits, networks that do not hold address 0 where the mask has less than 24 bits, and counters that do not wrap; pages are values, so that two tables never share one is not stated.
- Account.Depth1Insert: the item counter is described for networks that do not hold address 0.
- Account.Depth2Insert: the item counter is described for networks that do not hold address 0.
- Account.Table.ReadFlush: the copying snapshot (`ipt_acc_handle_prepare_read`) is not modelled.
- Pknock.Rule.Knock: no secrets and no messages to user space; peers are a map by address instead of hash chains, and the packet's other options are not modelled. What is looked at in an entry that was removed in the same call is not modelled.
- RandomIp.Generate: the fixed bytes are given as bytes, and printing in decimal is left out.
- Buffer.Output.Put: a write takes at least one byte; a write of nothing, which would make the code spin, is excluded.
- Buffer.Input.Getln: running out of memory for the line is not modelled.
