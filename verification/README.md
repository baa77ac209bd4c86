# Verification of the GB28181 server's core

The repository is a pair of SIP services (a lower domain that registers with upper
domains, and an upper domain that answers) together with the RTP and XML libraries it is
built on. This project models the parts where state, arithmetic or interleaving decide
whether the services are right, and proves what those parts promise. `dafny verify
dfyconfig.toml` checks everything.

| file | models |
|---|---|
| `Common.dfy` | the option type and a set relation that several files use |
| `OrderedEntries.dfy`, `KeyHashTable.dfy`, `KeyHashRuns.dfy` | the insertion-ordered hash table: heap nodes on two doubly linked lists, a cursor that survives deletion; the map with insertion order that it refines, operation by operation and over whole runs |
| `SdesWire.dfy` | SDES packets as bytes (section 6.5 of RFC 3550): a serializer and a reader by offsets |
| `SdesPacket.dfy` | the SDES packet class with its chunk and item cursors |
| `CompoundBuilder.dfy` | the compound packet builder's size predictions (sections 6.1, 6.4 and 6.5 of RFC 3550) |
| `DynArray.dfy`, `MemPool.dfy` | the growable array with its copying cost; the pool allocator with its threaded free list |
| `IniText.dfy`, `IniReader.dfy` | what a configuration text says, line by line; the single-index scanner and the typed reads |
| `IniWriting.dfy`, `IniSpelling.dfy`, `Numbers.dfy` | rendering a configuration and what a lookup finds in it; letter case; std::to_string and atoi |
| `SipLocalConfig.dfy`, `ConfLayouts.dfy` | ReadConf over any file; which layouts of a file give a configuration back |
| `ThreadPool.dfy` | workers and posters of the thread pool as interleaved steps |
| `SipIdentity.dfy` | the From header and the fixed-offset id taken out of it |
| `DomainLists.dfy` | both services' lists of neighbouring domains, the REGISTER handler and the timer function |
| `Registration.dfy` | the whole registration protocol as interleaved steps over an unreliable network (section 10.3 of RFC 3261), and what every step keeps |
| `RegistrationRuns.dfy` | runs of that protocol, and with them the exact conditions under which registration means what it says |

Code that changes things in place is modelled by classes and loops, and each method is
proved against a specification function; the lemmas are about those functions.

## Where the code does not do what one would expect

Seven promises hold only under a condition. Each condition is proved exact, and each
failure has an input.

- The size with one more SDES source (`NeededBytesWithExtraSource`) is right if and only if
  there already is a source; on an empty table the code returns 0.
- The configuration scanner looks one place past the ending zero byte if and only if a
  section that fits the request runs out of text and no line up to there answers. A file that
  fills the buffer up to its last byte (10239 characters) can be scanned if and only if that is
  not so; `[]` followed by 10237 letters is one that cannot, whatever is asked for.
- Numbered node keys are read back from the files that load if and only if no line whose
  number is a proper beginning of another node's number comes before that node's own line.
  Up to nine nodes that is every order of lines; with nodes in ascending order a tenth node
  is too many, since a request for node 10 is answered by node 1's line.
- The upper domain reads the sender's id if and only if the id has 20 characters.
- A registered node's sender is always in the peer's list under its own id if and only if
  every peer that accepts a node also lists its sender. Ids of 20 characters make that so; a
  longer id of which only the first 20 characters are listed does not.
- A registered node's expiry is always the one in an entry of the peer's list, for ids of any
  length and whichever entry is looked at, if and only if everyone whose requests write that
  entry is configured with the same expiry, and a node that can be read as another id as well
  finds its expiry there from the start. With ids of 20 characters that is: nodes that share
  an entry share their expiry. Two nodes of one sender at one address fail it, and so do two
  senders whose ids differ only after 20 characters.
- No handler follows a null pointer if and only if every node that its peer knows has an
  expiry other than -1, for which the SIP stack sends no Expires header. A missing expires key
  is read as -1.

The name `SIP_FORBIDDEN` suggests 403; the constant is 404
(SipSupService/include/SipDef.h:12), and the model uses 404.

## Model

| member | source | states |
|---|---|---|
| KeyHashTable.RTPKeyHashTable.constructor | 3rd/include/jrtplib3/rtpkeyhashtable.h:106-118 | the new table is well formed and holds no entry; the cursor is not set |
| KeyHashTable.RTPKeyHashTable.FindInBucket | 3rd/include/jrtplib3/rtpkeyhashtable.h:185-195 | searching one bucket's chain finds the key exactly if any entry of the whole table has it |
| KeyHashTable.RTPKeyHashTable.HasElement | 3rd/include/jrtplib3/rtpkeyhashtable.h:200-221 | true exactly if some entry has the key, also where the index is out of range |
| KeyHashTable.RTPKeyHashTable.GotoElement | 3rd/include/jrtplib3/rtpkeyhashtable.h:176-198 | the cursor goes to the entry's place in insertion order, or past the end with KEYNOTFOUND; an invalid index leaves it alone |
| KeyHashTable.RTPKeyHashTable.GotoFirstElement | 3rd/include/jrtplib3/rtpkeyhashtable.h:60 | the cursor is at place 0 |
| KeyHashTable.RTPKeyHashTable.GotoLastElement | 3rd/include/jrtplib3/rtpkeyhashtable.h:61 | the cursor is at the last place |
| KeyHashTable.RTPKeyHashTable.GotoNextElement | 3rd/include/jrtplib3/rtpkeyhashtable.h:223-228 | the cursor moves one place on, and stays past the end |
| KeyHashTable.RTPKeyHashTable.GotoPreviousElement | 3rd/include/jrtplib3/rtpkeyhashtable.h:230-235 | the cursor moves one place back, and leaves the list from the first place |
| KeyHashTable.RTPKeyHashTable.AddElement | 3rd/include/jrtplib3/rtpkeyhashtable.h:256-305 | a new key's entry is appended; a present key, an invalid index or missing memory changes nothing; both linkings stay well formed with distinct keys, and no node but a new one is added |
| KeyHashTable.RTPKeyHashTable.DeleteCurrentElement | 3rd/include/jrtplib3/rtpkeyhashtable.h:120-174 | exactly the current entry goes, the rest keep their order, and the cursor stands on the entry that followed |
| KeyHashTable.RTPKeyHashTable.DeleteElement | 3rd/include/jrtplib3/rtpkeyhashtable.h:307-316 | removes exactly the key's entry, keeps the order of the rest and moves the cursor to the entry that followed; an unknown key changes no entry and clears the cursor; no node is added |
| KeyHashTable.RTPKeyHashTable.Clear | 3rd/include/jrtplib3/rtpkeyhashtable.h:237-254 | no entry is left, the table stays well formed, the cursor keeps its stale value |
| KeyHashTable.Sweep | 3rd/include/jrtplib3/rtpkeyhashtable.h:60-228 | deleting or stepping on at every visit terminates, visits every entry once in insertion order and leaves exactly the kept entries in order |
| KeyHashRuns.Run | 3rd/include/jrtplib3/rtpkeyhashtable.h:60-316 | after any sequence of operations the table is well linked, and its entries, its cursor and every status are those of the ordered map |
| KeyHashRuns.RunFromNew | 3rd/include/jrtplib3/rtpkeyhashtable.h:106-316 | the same from a new table on, as long as no operation follows a cursor that is not set |
| KeyHashRuns.RunStaysSound | 3rd/include/jrtplib3/rtpkeyhashtable.h:120-316 | in every run of the ordered map the keys stay distinct and a set cursor stays inside |
| OrderedEntries.WithoutRemovesKey | 3rd/include/jrtplib3/rtpkeyhashtable.h:307-316 | in the ordered map, deletion takes away its key and no other, and keys stay distinct |
| SdesWire.ReadWrittenItems | 3rd/include/jrtplib3/rtcpsdespacket.h:212-301 | any legal item list written into any packet is read back, and its end is found at the zero byte |
| SdesWire.PaddingAgrees | 3rd/include/jrtplib3/rtcpsdespacket.h:184-198 | rounding up after the SSRC and rounding up before it give the same chunk size, a multiple of 4 |
| SdesWire.ReadWrittenChunk | 3rd/include/jrtplib3/rtcpsdespacket.h:175-210 | a written chunk's SSRC and items are read back and the next chunk starts right after its bytes |
| SdesWire.ReadWrittenChunks | 3rd/include/jrtplib3/rtcpsdespacket.h:154-200 | the same for any number of chunks behind any prefix, all inside the packet |
| SdesWire.RoundTrip | 3rd/include/jrtplib3/rtcpsdespacket.h:154-301 | a packet of up to 31 chunks is whole words, announces its chunks and reads back as exactly them |
| SdesWire.PacketFields | 3rd/include/jrtplib3/rtcpsdespacket.h:154-160 | a packet says version 2, its number of chunks, the type 202, and its length in words minus one, which the field holds exactly up to 65536 words |
| SdesWire.OnePacket | 3rd/include/jrtplib3/rtcpsdespacket.h:154-301 | one packet byte by byte: SSRC in network byte order, ids, lengths and padding in their places |
| SdesPacket.RTCPSDESPacket.GetChunkCount | 3rd/include/jrtplib3/rtcpsdespacket.h:154-160 | the number of chunks that can be read |
| SdesPacket.RTCPSDESPacket.GotoFirstChunk | 3rd/include/jrtplib3/rtcpsdespacket.h:162-173 | all chunks are ahead, and the item cursor is on the first chunk's items |
| SdesPacket.RTCPSDESPacket.GotoNextChunk | 3rd/include/jrtplib3/rtcpsdespacket.h:175-200 | one chunk less is ahead, starting at a 32-bit boundary; on the last chunk nothing moves |
| SdesPacket.RTCPSDESPacket.GetChunkSSRC | 3rd/include/jrtplib3/rtcpsdespacket.h:202-210 | the current chunk's SSRC, 0 without one |
| SdesPacket.RTCPSDESPacket.GotoFirstItem | 3rd/include/jrtplib3/rtcpsdespacket.h:212-223 | all items of the current chunk are ahead; true exactly if there is one |
| SdesPacket.RTCPSDESPacket.GotoNextItem | 3rd/include/jrtplib3/rtcpsdespacket.h:225-244 | one item less is ahead; on the last item the cursor stays |
| SdesPacket.RTCPSDESPacket.GetItemType | 3rd/include/jrtplib3/rtcpsdespacket.h:246-277 | CNAME, NAME, EMAIL, PHONE, LOC, TOOL, NOTE and PRIV exactly for the ids 1 to 8, Unknown exactly above 8, none exactly without an item |
| SdesPacket.RTCPSDESPacket.GetItemLength | 3rd/include/jrtplib3/rtcpsdespacket.h:279-289 | the length of the current item's data |
| SdesPacket.RTCPSDESPacket.GetItemData | 3rd/include/jrtplib3/rtcpsdespacket.h:291-301 | points at the current item's data inside the packet |
| SdesPacket.RTCPSDESPacket.GetPRIVPrefixLength | 3rd/include/jrtplib3/rtcpsdespacket.h:304-320 | length of the prefix of an item with id 8, 0 for an impossible length byte or another id |
| SdesPacket.RTCPSDESPacket.GetPRIVPrefixData | 3rd/include/jrtplib3/rtcpsdespacket.h:322-340 | points at the prefix inside the packet, null without one |
| SdesPacket.RTCPSDESPacket.GetPRIVValueLength | 3rd/include/jrtplib3/rtcpsdespacket.h:342-358 | length of the value of a PRIV item |
| SdesPacket.RTCPSDESPacket.GetPRIVValueData | 3rd/include/jrtplib3/rtcpsdespacket.h:360-380 | points at the value inside the packet, null without one |
| SdesPacket.PrivatePartsRoundTrip | 3rd/include/jrtplib3/rtcpsdespacket.h:304-380 | prefix and value written into a PRIV item are the ones taken apart again; data without or with an impossible prefix length gives neither |
| SdesPacket.Walk | 3rd/include/jrtplib3/rtcpsdespacket.h:154-301 | iterating with the Goto calls and asking for everything shows exactly the packet's chunks and items in order, PRIV parts included, reading no byte outside it |
| SdesPacket.WriteThenWalk | 3rd/include/jrtplib3/rtcpsdespacket.h:154-301 | walking a written packet shows the SSRCs, lengths, data and PRIV parts that were written, and each type exactly for its id from 1 to 8 |
| SdesPacket.WriteTypedThenWalk | 3rd/include/jrtplib3/rtcpsdespacket.h:246-380 | items written by their types are shown with those types, texts, prefixes and values |
| SdesPacket.SeenItemsDetermineItems | 3rd/include/jrtplib3/rtcpsdespacket.h:246-301 | what a walk shows determines the items, ids included, when the ids are the defined ones |
| CompoundBuilder.Report.NeededBytes | 3rd/include/jrtplib3/rtcpcompoundpacketbuilder.h:174-196 | the byte length of the report packets, split at 31 blocks |
| CompoundBuilder.Report.NeededBytesWithExtraReportBlock | 3rd/include/jrtplib3/rtcpcompoundpacketbuilder.h:198-211 | the byte length of the packets after any one more block |
| CompoundBuilder.ReportsAligned | 3rd/include/jrtplib3/rtcpcompoundpacketbuilder.h:174-211 | report packets are a multiple of 4 bytes |
| CompoundBuilder.ReportsOfFields | 3rd/include/jrtplib3/rtcpcompoundpacketbuilder.h:174-211 | report packets made of RFC 3550's fields take 24 bytes a block, 8 for every 31 blocks begun and 20 for the sender information, and the first one says 200 or 201 and its number of blocks |
| CompoundBuilder.InfoSize | 3rd/include/jrtplib3/rtpstructs.h:99-106 | the five words of a sender information are the 20 bytes that the builder counts |
| CompoundBuilder.BlockSize | 3rd/include/jrtplib3/rtpstructs.h:108-117 | the fields of a report block are the 24 bytes that the builder counts |
| CompoundBuilder.SDESSource.NeededBytes | 3rd/include/jrtplib3/rtcpcompoundpacketbuilder.h:236-245 | the byte length of the source's chunk |
| CompoundBuilder.SDESSource.NeededBytesWithExtraItem | 3rd/include/jrtplib3/rtcpcompoundpacketbuilder.h:247-256 | the chunk's size after any item of that length |
| CompoundBuilder.SDESSource.AddItem | 3rd/include/jrtplib3/rtcpcompoundpacketbuilder.h:258-263 | the item is appended and the running total stays the length of all items |
| CompoundBuilder.SDES.AddSSRC | 3rd/include/jrtplib3/rtcpcompoundpacketbuilder.h:286-295 | a new empty source is appended and becomes the current one, the others stay; out of memory changes nothing |
| CompoundBuilder.SDES.AddItem | 3rd/include/jrtplib3/rtcpcompoundpacketbuilder.h:297-303 | the item comes after the last source's other items and the other sources stay; without a source -40 and no change |
| CompoundBuilder.SDES.NeededBytes | 3rd/include/jrtplib3/rtcpcompoundpacketbuilder.h:305-323 | the byte length of the SDES packets, split at 31 chunks |
| CompoundBuilder.SDES.NeededBytesWithExtraItem | 3rd/include/jrtplib3/rtcpcompoundpacketbuilder.h:325-344 | the byte length of the packets after the item is added, 0 without a source |
| CompoundBuilder.SDES.NeededBytesWithExtraSource | 3rd/include/jrtplib3/rtcpcompoundpacketbuilder.h:346-368 | the byte length of the packets after one more source, if and only if there already is a source |
| CompoundBuilder.RunAdds | 3rd/include/jrtplib3/rtcpcompoundpacketbuilder.h:286-368 | in every run of the add operations, whether memory is found or not, every size is that of the packets, and every prediction is the size after the addition, except that for a first source |
| CompoundBuilder.SdesPacketsAligned | 3rd/include/jrtplib3/rtcpcompoundpacketbuilder.h:305-368 | SDES packets are a multiple of 4 bytes |
| CompoundBuilder.SdesPacketsReadable | 3rd/include/jrtplib3/rtcpcompoundpacketbuilder.h:305-323 | the packets that are sized are the ones the packet reader reads: each holds the next 31 chunks |
| CompoundBuilder.ReaderAdvancesByNeededBytes | 3rd/include/jrtplib3/rtcpsdespacket.h:184-198 | the distance GotoNextChunk advances over a chunk equals the size the builder predicts for it |
| DynArrays.DynArray.Push | 3rd/include/tinyxml2/tinyxml2.h:226-231 | the element is appended, whatever growth that needs, and the cost account stays true |
| DynArrays.DynArray.PushArr | 3rd/include/tinyxml2/tinyxml2.h:233-240 | room is made behind the old contents, which are kept |
| DynArrays.DynArray.EnsureCapacity | 3rd/include/tinyxml2/tinyxml2.h:303-317 | capacity becomes twice the need only when the need exceeds it; then every element in use is copied exactly once, and otherwise nothing is copied |
| DynArrays.DynArray.Put | 3rd/include/tinyxml2/tinyxml2.h:257-260 | assignment through the index operator changes that element only |
| DynArrays.DynArray.Pop | 3rd/include/tinyxml2/tinyxml2.h:242-246 | takes off the last element |
| DynArrays.DynArray.PopArr | 3rd/include/tinyxml2/tinyxml2.h:248-251 | takes off the last elements |
| DynArrays.DynArray.SwapRemove | 3rd/include/tinyxml2/tinyxml2.h:282-287 | the last element takes the removed one's place |
| DynArrays.SwapRemoveLosesOne | 3rd/include/tinyxml2/tinyxml2.h:282-287 | exactly the one element is lost and no other place changes |
| DynArrays.CopiedAtMostTwicePushed | 3rd/include/tinyxml2/tinyxml2.h:222-317 | over any run of the size account at most two elements are copied for every element pushed |
| DynArrays.Perform | 3rd/include/tinyxml2/tinyxml2.h:222-317 | in any run of Push, PushArr, Pop, PopArr, SwapRemove, Clear and assignments the contents and what is handed back are those of a sequence, and the copies counted in the copying loop are at most twice the elements pushed |
| MemPools.MemPoolT.Alloc | 3rd/include/tinyxml2/tinyxml2.h:375-399 | returns an item that was not live: the head of the free list, or the first item of one new block when nothing is free; keeps the pool's invariant |
| MemPools.MemPoolT.Free | 3rd/include/tinyxml2/tinyxml2.h:401-412 | the item is no longer live and heads the free list; null changes nothing |
| MemPools.MemPoolT.Clear | 3rd/include/tinyxml2/tinyxml2.h:355-366 | no block, no live item and a new history |
| MemPools.MemPoolT.FreeAndLivePartition | 3rd/include/tinyxml2/tinyxml2.h:355-412 | free and live items partition all items of all blocks, nothing is free twice, and the counter is the number of live items |
| MemPools.MemPoolT.BlocksMatchPeak | 3rd/include/tinyxml2/tinyxml2.h:355-399 | the number of blocks is the peak number of live items divided by the items of a block, rounded up, and maxAllocs is that peak since Clear |
| IniReader.ParseFile | SipSubService/src/ConfReader.cpp:141-232 | finds exactly the line that the text's own reading looks up, returns its spans, terminates, and stays inside the buffer; without a result it stops at the ending zero byte, or one place after it exactly if StepsPast says so |
| IniReader.ScannableIff | SipSubService/src/ConfReader.cpp:44-71 | which files can be scanned: those with room for two zero bytes, and those with room for one if the scan does not go past it, as it never does when the key is found |
| IniWriting.FullBufferIsScannedPast | SipSubService/src/ConfReader.cpp:153-223 | a file of 10239 characters, `[]` and then one line without a sign, is scanned past its ending zero byte by every request, and cannot be scanned |
| IniReader.PastFindsNothing | SipSubService/src/ConfReader.cpp:153-231 | a scan that goes past the ending zero byte finds nothing |
| IniText.PastInIff | SipSubService/src/ConfReader.cpp:160-223 | a scan goes that far exactly if a fitting section runs out of text and no line up to its end answers |
| IniText.FoundIsFirst | SipSubService/src/ConfReader.cpp:153-231 | a lookup gives the first answering line in file order over all fitting sections, and nothing exactly if no line answers |
| IniReader.ScanKey | SipSubService/src/ConfReader.cpp:184-220 | a line is found exactly if it is no comment and its trimmed name before the first `=` is a non-empty prefix of the key, letter case aside |
| IniReader.StrNCaseEqualIsPrefix | SipSubService/src/ConfReader.cpp:167-205 | the bounded comparison holds exactly if every character is the other's, or the same of the 26 letters in the other case |
| IniText.LowerAlike | SipSubService/src/ConfReader.cpp:167-205 | two characters compare alike exactly if they are equal or letters 32 apart |
| IniSpelling.SpellingAside | SipSubService/src/ConfReader.cpp:141-232 | respelling a file's section names and keys, or the names asked for, in any letter case changes no value |
| IniSpelling.CapitalsAreFound | SipSubService/src/ConfReader.cpp:167-205 | a file written in capitals is found by names in small letters |
| IniReader.SpansValue | SipSubService/src/ConfReader.cpp:96-104 | the spans give a non-negative count inside the text, and the bytes between them are the value |
| IniReader.SpansPlaces | SipSubService/src/ConfReader.cpp:184-218 | the key's span reaches up to the first `=` of its line, the value's from the first character after the blanks to the end of the line |
| IniReader.ReadProfileString | SipSubService/src/ConfReader.cpp:73-109 | copies the value looked up in the text before the first zero byte, cut to the destination and zero-terminated; without the key the destination is unchanged |
| IniReader.ConfReader.ReadStr | SipSubService/src/ConfReader.cpp:24-37 | the longest beginning of the value without a blank, of at most 1023 characters |
| IniReader.ConfReader.ReadInt | SipSubService/src/ConfReader.cpp:39-123 | the number at the start of the value, -1 without the key |
| Numbers.AtoiIs | SipSubService/src/ConfReader.cpp:111-123 | after white space, with a sign or none and any zeros ahead, the number whose digits come next, whatever follows them |
| Numbers.AtoiNone | SipSubService/src/ConfReader.cpp:111-123 | 0 where no digit comes next |
| IniText.FoundLineMatches | SipSubService/src/ConfReader.cpp:182-223 | within a section a lookup gives the first line that matches, and nothing exactly if none does |
| IniWriting.WrittenValue | SipSubService/src/ConfReader.cpp:141-232 | in a rendered file of sections, entries and blank and comment lines, a lookup gives all that was written after the sign's blanks in the first entry whose key begins the request, over all sections whose name does |
| SipLocalConfig.KeysFit | SipSubService/src/SipLocalConfig.cpp:8-21 | of the configuration's key names only node keys of one field with beginning numbers answer for each other |
| SipLocalConfig.KeyNames | SipSubService/src/SipLocalConfig.cpp:4-15 | sections and single keys are called what the program calls them |
| SipLocalConfig.NodeKeyNames | SipSubService/src/SipLocalConfig.cpp:16-20 | each field's node keys are its own name followed by the decimal number |
| SipLocalConfig.SipLocalConfig.ReadConf | SipSubService/src/SipLocalConfig.cpp:43-112 | reads key after key, each field from its own name in its own section, stops with -1 at the first empty or non-positive one leaving the later fields alone, and appends as many nodes as the file announces |
| SipLocalConfig.SipLocalConfig.ReadNodes | SipSubService/src/SipLocalConfig.cpp:88-107 | appends the nodes under the numbers 1 to num, in order, each field from its own name |
| SipLocalConfig.ReadAnyFile | SipSubService/src/SipLocalConfig.cpp:43-112 | over any rendered file: every field of the configuration and of every node is what the first line that answers its name, in a section that answers its section's name, was written with |
| SipLocalConfig.RenderedReadable | SipSubService/src/ConfReader.cpp:44-71 | every rendered file of at most 10238 characters can be read for all keys, and none of more than 10239 |
| SipLocalConfig.FileValue | SipSubService/src/SipLocalConfig.cpp:46-103 | in a written file a key's lookup gives what was written on the first line that answers it, with whatever follows there, in any layout: either section first, lines in any order, repeated or not, any blanks around each sign, anything after a blank behind a value, blank and comment lines anywhere, and either kind of line end |
| SipLocalConfig.WrittenReadable | SipSubService/src/ConfReader.cpp:57-66 | a written file can be read for all its keys if and only if it fits the loader's buffer |
| ConfLayouts.WriteThenReadConf | SipSubService/src/SipLocalConfig.cpp:43-112 | reading a written file that loads succeeds and gives every field back; up to nine nodes come back in order, from any such layout |
| ConfLayouts.NodesSurviveIffOwnLinesFirst | SipSubService/src/SipLocalConfig.cpp:88-107 | a layout gives the nodes of every file that loads back if and only if every node key's own line comes before any shorter number's line, or no file of so many nodes loads |
| ConfLayouts.SomeLoadsIffSmall | SipSubService/src/ConfReader.cpp:57-66 | a file of so many nodes loads in a layout if and only if the one with the shortest values does |
| ConfLayouts.AtMostNineOwnLines | SipSubService/src/SipLocalConfig.cpp:88-107 | up to nine nodes every layout meets that condition |
| ConfLayouts.UsualFileLoads | SipSubService/src/ConfReader.cpp:57-66 | with nodes in order and short values up to 97 nodes fit the buffer |
| ConfLayouts.UsualFileSurvivesIffAtMostNine | SipSubService/src/SipLocalConfig.cpp:88-107 | files with nodes in order give them back if and only if there are at most nine, or too many for any file to load, which takes more than 97 |
| ConfLayouts.TenNodesReadBack | SipSubService/src/SipLocalConfig.cpp:88-107 | a file of ten nodes that loads, whose tenth node comes back as the first and not as written |
| ThreadPool.StepKeepsInv | SipSubService/src/ThreadPool.cpp:37-84 | every step of every worker and poster keeps mutual exclusion, the permit balance, queue order and the account of tasks |
| ThreadPool.PassedWorkerFindsTask | SipSubService/src/ThreadPool.cpp:42-53 | a worker that passed sem_wait finds the queue non-empty |
| ThreadPool.FifoAndAtMostOnce | SipSubService/src/ThreadPool.cpp:37-84 | in every interleaving: popped then queued tasks are the pushed ones in order, none is run or deleted more often than pushed or pushed more often than postTask was called with it, and queue length = permits + workers owing a pop + posters owing a permit |
| ThreadPool.CalledIsPushedOrPending | SipSubService/src/ThreadPool.cpp:71-84 | in every run the tasks that postTask was called with are those pushed and those that a call still has to push |
| ThreadPool.PushesOwnTask | SipSubService/src/ThreadPool.cpp:71-84 | in every run, what a step of a call pushes is the task that this call was given, at the end of the queue |
| ThreadPool.RunLength | SipSubService/src/ThreadPool.cpp:37-84 | without new calls every step uses up exactly one unit of a fixed amount of work |
| ThreadPool.QuietIffNoWork | SipSubService/src/ThreadPool.cpp:37-84 | a pool with a worker is at rest if and only if no work is left, and then the queue is empty and every pushed task has been run and deleted |
| ThreadPool.AllTasksComplete | SipSubService/src/ThreadPool.cpp:37-84 | every complete run without new calls ends after a number of steps known beforehand, and then the tasks run and deleted are exactly the ones that postTask was called with |
| ThreadPool.NoWorkersNoProgress | SipSubService/src/ThreadPool.cpp:17-35 | without a worker the pool comes to rest with a task still queued |
| ThreadPool.NoWorkersKeepEveryTask | SipSubService/src/ThreadPool.cpp:17-35 | without a worker, in every run every pushed task stays queued and none is run |
| SipIdentity.SipMessage.SetFrom | SipSubService/src/SipMessage.cpp:14-17 | the header is `<sip:`, the user, `@`, the address, `>`; it is read as the user's id, whatever tag is added, if and only if the id has 20 characters |
| SipIdentity.HeaderTellsUserAndAddress | SipSubService/src/SipMessage.cpp:14-17 | user and address can both be told from a header, for users without an `@` |
| SipIdentity.ParsedIsTheMiddle | SipSupService/src/SipTaskBase.cpp:5-18 | at most 20 characters from place 11 on, an exception for a shorter line, nothing without a header |
| SipIdentity.ParsedIdIffTwentyCharacters | SipSupService/src/SipTaskBase.cpp:3-19 | the id taken out of a printed From header is the sender's if and only if it has 20 characters |
| SipIdentity.LongIdIsCut | SipSupService/src/SipTaskBase.cpp:15-18 | a longer id is cut to 20 characters |
| SipIdentity.ReadAsIff | SipSupService/src/SipTaskBase.cpp:12-17 | all the ids that the handler can read out of a sender's header, whatever the tag |
| DomainLists.UpperGlobalCtl.Init | SipSupService/src/GlobalCtl.cpp:24-41 | the list follows the configured nodes in order, not registered and with expiry 0 |
| DomainLists.UpperGlobalCtl.CheckIsExist | SipSupService/src/GlobalCtl.cpp:60-70 | true exactly if the id is among the list's ids |
| DomainLists.UpperGlobalCtl.SetExpires | SipSupService/src/GlobalCtl.cpp:73-82 | the first entry with the id gets the expiry |
| DomainLists.WithExpiresSeen | SipSupService/src/GlobalCtl.cpp:73-82 | the new expiry is seen under that id and under no other, and nothing else changes |
| DomainLists.UpperGlobalCtl.DealWithRegister | SipSupService/src/SipRegister.cpp:248-300 | 200 with the expiry recorded for a listed id, 404 and no change for any other id; a null pointer for a listed id without an Expires header, an exception where the From header is too short, and no change in either case |
| DomainLists.LowerGlobalCtl.Init | SipSubService/src/GlobalCtl.cpp:24-41 | the list follows the configured nodes in order with their expiries, not registered |
| DomainLists.LowerGlobalCtl.RegisterProc | SipSubService/src/SipRegister.cpp:51-68 | sends, in order, for the nodes that are not registered |
| DomainLists.SentIffUnregistered | SipSubService/src/SipRegister.cpp:57-66 | a tick sends a request exactly for each node that is not registered and whose send succeeds |
| DomainLists.RequestNames | SipSubService/src/SipRegister.cpp:71-121 | a request goes to the node's address and port with the sender's From header and the node's expiry, without an Expires header exactly for -1 |
| DomainLists.LowerGlobalCtl.ClientCb | SipSubService/src/SipRegister.cpp:6-15 | the code 200 sets the node's registered flag and changes nothing else of it or of any other node; any other code changes nothing |
| Registration.StepKeepsInv | SipSupService/src/SipRegister.cpp:248-300 | every step of ticks, handlers, network and callbacks keeps requests genuine, everything recorded, answered or registered backed by the upper lists, and every domain that is down explained by a node without a header |
| Registration.RegisteredIsAccepted | SipSupService/src/SipRegister.cpp:255-266 | in every reachable state, for ids of any length, a registered node's requests carry an Expires header and its peer lists an id that the sender's header can be read as; the ids and the setup never change and no handler throws |
| Registration.RegistrationNeverReverts | SipSubService/src/SipRegister.cpp:6-15 | once registered, a node stays registered in every run |
| RegistrationRuns.RegisteredIsListed | SipSupService/src/SipRegister.cpp:255-266 | with ids of 20 characters a registered node's peer lists the sender's own id |
| RegistrationRuns.AlwaysListedIffOwnIdsListed | SipSupService/src/SipRegister.cpp:255-266 | registered nodes' senders are listed under their own id in all reachable states if and only if every peer that accepts a node lists its sender |
| RegistrationRuns.TwentyCharacterIdsAreOwn | SipSupService/src/SipTaskBase.cpp:12-17 | with ids of 20 characters every peer that accepts a node lists its sender |
| RegistrationRuns.LongIdRegistersUnlisted | SipSupService/src/SipTaskBase.cpp:15-18 | a sender with 21 characters becomes registered at a peer that lists the first 20 only |
| RegistrationRuns.AlwaysRecordedIffKeeps | SipSupService/src/GlobalCtl.cpp:60-82 | for ids of any length and any choice of the entry looked at: it holds the expiry of every registered node in all reachable states if and only if all who write it are configured alike, and a node that can be read as something else finds its expiry there from the start |
| RegistrationRuns.RegisteredIsRecorded | SipSupService/src/GlobalCtl.cpp:60-82 | with ids of 20 characters and consistent expiries, the peer's first entry for the sender holds the configured expiry of every registered node |
| RegistrationRuns.AlwaysRecordedIffConsistent | SipSupService/src/SipRegister.cpp:248-300 | with ids of 20 characters that holds in all reachable states if and only if nodes sharing an entry share their expiry |
| RegistrationRuns.AlwaysRecordedAsReadIffConsistent | SipSupService/src/SipRegister.cpp:248-300 | for ids of any length, where id and address have 13 characters or more: the entry under the id that is read always holds the expiry if and only if nodes read as the same id at one address share their expiry |
| RegistrationRuns.DistinctIsConsistent | SipSupService/src/GlobalCtl.cpp:60-82 | distinct ids and at most one node of a sender per address make the senders' own entries consistent |
| RegistrationRuns.TwoExpiriesAreLost | SipSubService/src/SipRegister.cpp:109 | one sender with two nodes at one address and different expiries loses one |
| RegistrationRuns.SharedStartIsLost | SipSupService/src/SipTaskBase.cpp:15-18 | two senders whose ids differ only after 20 characters write over each other's expiry |
| RegistrationRuns.NeverDownIffHeadersSent | SipSupService/src/SipRegister.cpp:261-266 | no upper domain is ever brought down by a handler if and only if every node that its peer knows has an expiry other than -1 |
| RegistrationRuns.NoExpiryBringsDown | SipSubService/src/SipRegister.cpp:109 | a known sender whose node has no expiry configured brings its peer down |
| RegistrationRuns.CanRegisterIffAccepted | SipSubService/src/SipRegister.cpp:51-68 | from a reachable state a node can still become registered if and only if it is registered, an answer for it is on its way, or its peer is up, lists an id that the sender's header can be read as and finds an Expires header |
| RegistrationRuns.CanRegisterIffListed | SipSubService/src/SipRegister.cpp:51-68 | the same with ids of 20 characters, where the id is the sender's own |
| RegistrationRuns.VisitsAreRegisterProc | SipSubService/src/SipRegister.cpp:57-66 | the run of a tick's visits, one right after the other, sends what the timer function sends |
| RegistrationRuns.HandlerIsDealWithRegister | SipSupService/src/SipRegister.cpp:255-294 | the run of a handler's steps, one right after the other, does to the list what the handler method does, and answers 404, or 200, or goes down, as it does |

## Left out

- Hash table elements: GetCurrentElement hands out a reference through which a value can be changed; the model's elements are fixed once added.
- Memory manager of the libraries: whether an allocation succeeds is a parameter; freeing is not modelled beyond removal from all lists.
- Hash index: GetIndex is taken as not negative where the code tests only the upper bound (its user is `ssrc % 8317`, 3rd/include/jrtplib3/rtpsources.h:52-56).
- SDES packet constructor: its body is not in the headers; a recognised packet is taken to contain its announced chunks.
- Packet builder: StartSenderReport, AddReportBlock, AddSDESNormalItem and EndBuild have no body in the headers; the packets are those of RFC 3550, in the builder's split of 31.
- Packet builder's APP and BYE parts and the maximum packet size: their size checks are in bodies that are not in the headers.
- Integer widths: size_t in the builder, int in DynArray beyond its asserted limits, the pool's int counters and atoi are modelled without overflow.
- MemPools.MemPoolT.Alloc: the block pointers are a sequence; the growable array behind them is proved separately in DynArray.dfy.
- MemPools.MemPoolT.Free: freeing an item twice, or one of another pool, is excluded as the code cannot detect it; user bytes in live items are not modelled, and Trace and SetTracked are left out.
- DynArrays.DynArray.PushArr: the values of the new elements are left open, as in the code.
- IniReader.ParseFile: the positions of the section are not returned, no caller uses them; what the scan does with a byte that is not zero, one place past the ending zero byte, is left open.
- IniWriting.WrittenValue: a rendered file has no line without a sign but blank and comment lines, and no line on the line of a section's bracket; the scanner is proved for those texts too.
- A file of 10240 characters or more: the loader's own assertion fails on it.
- IniReader.ConfReader.ReadStr: without the key the code returns an unset buffer's contents, so the result is not specified.
- File reading in ConfReader: opening the file and the end-of-file byte are not modelled; the text is given. A missing file acts like a missing key.
- SipLocalConfig.SipLocalConfig.ReadConf: the log lines and the name of the unused `auth` key are left out.
- Upper domain's ReadConf: the same loop with `auth` in place of `expires`.
- Thread pool: createThreadPool's return value, destruction while running, and failing mutex calls; tasks are numbers and running one always ends.
- Registration: retries and refreshes inside the SIP stack appear only as repeated packets; To, Contact and Request-Line texts, transports, the Date header and failing sends of a response are left out.
- Registration's fairness: a lost packet may stay lost for ever, so a node need not become registered; when it still can is proved instead.
- Expires header: that the stack's "not specified" is the unsigned reading of -1 is taken from pjsip-ua/sip_regc.h, which is not part of this model; other negative expiries are taken to arrive as they were sent.
- An upper domain that a handler brought down: it is not started again.
- Digest authentication, expiry checking and last registration time: commented out in the source.
- The 128-byte header buffers of SipMessage: texts are taken to fit.
- rtphashtable.h: the same lists with the element as key, proved once in KeyHashTable.dfy.
- RTPTime and NTP conversion, RTP packets, sessions and transmitters, tinyxml2 parsing, jsoncpp: not part of this model.
- TaskTimer, ECThread and the plain getters and setters are not modelled.
