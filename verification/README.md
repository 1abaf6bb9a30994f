# A verified model of FlashIt's decompressor, helper protocol, WIM splitter and disk writing

The project models four parts of FlashIt and proves what each is for. A part that changes state
step by step is modelled by methods, on classes where the source has objects, and is proved
against specification functions; a protocol is a step relation whose invariants hold at every
point of every run; a walk is a recursive method over an arbitrary graph.

**The LZX decompressor** (`Canonical`, `Huffman`, `BitString`, `BitReader`, `LzxSpec`, `LzxFormat`,
`Lzx`, `Lz77`, `E8`). A canonical prefix code is defined from its lengths alone and shown to be that of
section 3.2.2 of RFC 1951; the two-level lookup table decodes exactly it. The word-based bit
reader refines a bit string. Each decoding method returns what a parser written over that bit
string says, up to whole blocks and the whole chunk. `LzxFormat` says of that parser, in the numbers of
the format and without its tables, what given codes and bits stand for. A compressed block is the
LZ77 expansion of its tokens, and the call translation at the end is a bijection that makes
absolute operands relative.

**The helper protocol** (`LineReader`, `Session`, `Codes`, `Settling`, `Product`, `Returns`, `Ops`). `Session` is one connection
of the privileged helper: reader loop, op goroutine, both mutexes and the idle timer as atomic
steps, with any client at the other end; `Codes` says which answer a request gets in every run,
and `Settling` that a session left alone comes to rest with everything answered. `Product` joins it
with the client over two FIFO wires; `Returns` says why a call of the client returns, and exactly
when it no longer can.
`LineReader` is the reader that receives descriptors along with bytes. `Ops` records what
`write_image` and `format_disk` do to a disk and an authorizer that answer as they please, and
says by an automaton which records are allowed.

**The WIM splitter** (`WimFormat`, `Packing`, `Swm`, `Split`). The on-disk records round trip;
the greedy packing is characterised; each part's file is described byte for byte, and the parts
read back as the source's streams.

**Disk writing** (`FatLayout`, `SectorIO`, `RawDisk`, `IsoWalk`). The FAT32 sizing, sector access
as a byte store, the buffered writer under the streaming loop, and the walk of an untrusted image.

`Arith` holds shifts and powers as linear recursions. `Outside` is what can go wrong outside the
modelled code, such as a failing read or a cancelled context: a plan fixed beforehand says which
occasions fail, and a method that gives up must point at one of them, so that under a plan without
faults it has to succeed.

Where the source's comments and its code differ, the model follows the code:

- `internal/wim/split.go:283-285`: the comment speaks of an empty part, the code compares with the
  number of metadata blobs on every part, so a later part can exceed the limit
  (`Packing.SecondPartOverflows`). With M metadata blobs and blobs up to a size, the limit holds
  for every assignment if and only if M + 1 blobs of that size fit it (`Packing.LimitHoldsIff`).
- `internal/wim/lzx/lzx.go:117-119`: `feed` is said to return false only when no bytes are left. As
  `ensureAtLeast` asks for n more bytes instead of the missing ones, that holds exactly unless one
  byte is buffered and one unread: `BitReader.Reader.Feed` states both directions, and
  `BitReader.LastWordLost` shows four bytes of which the last two are lost. What that means for a
  chunk depends on where the reader's buffer ends. From the section reader of a resource, which
  fills its 4096 bytes, a chunk of compressed blocks alone loses nothing (`Lzx.Unpack`); it can
  lose bytes only at a stored header with at most ten bytes after it, or behind an odd stored block
  that ends one byte and one buffer before the end (`LzxSpec.SomeAtBufferEnd`), and it does when a
  header's repeat cache straddles the first buffer's end with fewer than twelve bytes to come
  (`LzxSpec.Cut`). `Lzx.RefusedChunkParses` is a chunk of 4100 bytes that parses and is refused.
- `internal/isofs/isofs.go:111` and `:183`: the length a directory claims is unsigned and is added
  in signed 64 bits, so that a sum of 2^63 or more is negative and passes the test
  (`IsoWalk.DirectoryTest`). An accepted image fits the metadata budget if and only if no directory
  in it claims 2^63 - 64 MiB or more (`IsoWalk.Open`); `IsoWalk.HugeRootPasses` is one that does.
- `internal/priv/client.go:104-106`: the caller never returns while the helper still writes, unless
  the client is broken (`Product.ReturnsAfterRun`); `Product.GraceReturnsEarly` is a run in which
  a broken client's caller does.
- `internal/priv/client.go:177-181`: closing the connection is said to end the read loop, for which
  the caller then waits. It does not while the loop wants to send on the caller's own channel and
  that is full, as nobody reads it any more: then the call never returns
  (`Returns.HungForever`), and this is the only way in which it cannot (`Returns.ReturnsIff`).
  `Returns.HangHappens` is a run that gets there.
- `internal/fatfmt/fatfmt.go:188-189`: the range check is right exactly when the end of the access
  fits 64 bits (`SectorIO.SpanAcceptsOverflow`).
- `internal/wim/split.go:318-329`: part 1 keeps the source's boot metadata resource with its old
  offset; only the streams are relocated. `Split.BootMetadataKept` says when that is still right,
  and `Split.BootMetadataMisplaced` has a WIM where it is not, whatever the part size.

## Model

| member | source | states |
|---|---|---|
| Canonical.StartIsCodeword | internal/wim/lzx/lzx.go:170-177 | The strings below a symbol's in code order are exactly its left-justified codeword. |
| Canonical.CoversIffPrefix | internal/wim/lzx/lzx.go:183-185 | A symbol covers a 16-bit string if and only if its codeword is a prefix of it. |
| Canonical.CoversUnique | internal/wim/lzx/lzx.go:151-153 | No string has two symbols: the code is prefix-free. |
| Canonical.CoversBelowKraft | internal/wim/lzx/lzx.go:179-181 | Every codeword's strings lie below the Kraft sum. |
| Canonical.CoversExists | internal/wim/lzx/lzx.go:179-181 | Every string below the Kraft sum has a symbol. |
| Canonical.CompleteDecodes | internal/wim/lzx/lzx.go:151-153 | With a full Kraft sum every 16-bit string starts with exactly one codeword. |
| Canonical.FirstCodeIsSum | internal/wim/lzx/lzx.go:170-177 | The recurrence for the first code of a length counts the codes before it. |
| Canonical.CodewordIsRfc1951 | internal/wim/lzx/lzx.go:170-201 | The codewords, defined from lengths and order, are those of RFC 1951 section 3.2.2. |
| Huffman.LongRange | internal/wim/lzx/lzx.go:208-214 | A string has a long codeword as prefix if and only if its first 9 bits and second-level index fall in that codeword's slots. |
| Huffman.CountedIsComplete | internal/wim/lzx/lzx.go:170-181 | The final code equals 1 << max if and only if the Kraft sum is full. |
| Huffman.CoreIsHalf | internal/wim/lzx/lzx.go:189 | Half the first 10-bit code separates the prefixes of short codes from those of long ones. |
| Huffman.FillShort | internal/wim/lzx/lzx.go:203-207 | Filling a short code's slots keeps every earlier symbol findable and adds this one. |
| Huffman.FillLong | internal/wim/lzx/lzx.go:208-215 | The same for a long code in its second-level row. |
| Huffman.FilledDecodes | internal/wim/lzx/lzx.go:198-219 | Once all symbols are in, looking up any string yields its one symbol and length. |
| Huffman.CountLengths | internal/wim/lzx/lzx.go:157-164 | The counts and the maximum length; it is zero exactly when all lengths are. |
| Huffman.FirstCodes | internal/wim/lzx/lzx.go:171-177 | The first code of every length and the code after the last. |
| Huffman.NewTables | internal/wim/lzx/lzx.go:187-196 | Every slot from the core on leads to a second-level row of its own. |
| Huffman.FillSymbol | internal/wim/lzx/lzx.go:198-216 | One symbol is entered with all indexing in bounds and nothing else lost. |
| Huffman.BuildTable | internal/wim/lzx/lzx.go:154-220 | A table comes back if and only if all lengths are zero or the Kraft sum is full, and then it decodes the canonical code. |
| Huffman.BufferIndex | internal/wim/lzx/lzx.go:234-237 | The shifts of the 32-bit buffer select the first 9 bits and the following maxbits - 9. |
| Huffman.LookUp | internal/wim/lzx/lzx.go:230-240 | The two-level lookup finds the entry of the symbol whose codeword the string starts with. |
| Huffman.DirectSlotOnce | internal/wim/lzx/lzx.go:203-207 | Every direct slot below the core is filled by exactly one symbol. |
| Huffman.ExtraSlotOnce | internal/wim/lzx/lzx.go:208-215 | Every second-level slot is filled by exactly one symbol. |
| BitString.PeekSplit | internal/wim/lzx/lzx.go:139-141 | Reading bits in two steps reads them in one. |
| BitString.PeekWord | internal/wim/lzx/lzx.go:125 | The bits of the stream at a word boundary are that little-endian word, most significant bit first. |
| BitReader.Source.ReadAtLeast | internal/wim/lzx/lzx.go:103-111 | At least the asked-for bytes of the input in order; the end of the input or a planned failure otherwise. |
| BitReader.Reader.Fail | internal/wim/lzx/lzx.go:83-89 | The first error stays. |
| BitReader.Reader.EnsureAtLeast | internal/wim/lzx/lzx.go:91-115 | Unless the source breaks it succeeds if and only if the buffer, or the unread rest, alone has n bytes; then none is skipped or repeated. err is set exactly if something was unread, and bytes are lost exactly if buffer and rest together had n. A filling reader then ends its buffer 4096 bytes further on, or at the end. |
| BitReader.Reader.Feed | internal/wim/lzx/lzx.go:120-129 | Unless the source breaks it is false if and only if fewer than two bytes are buffered and fewer than two unread; that is when fewer than two bytes are left, exactly unless one is buffered and one unread. |
| BitReader.LastWordLost | internal/wim/lzx/lzx.go:91-129 | Of four bytes that arrive as three and one the last two are never delivered; however else they arrive, and always from a reader that fills, they are. |
| BitReader.Reader.GetBits | internal/wim/lzx/lzx.go:133-143 | While no error is set, exactly the next n bits of the stream; it runs out exactly if too few are cached and no word is to be had, and then a word was lost or fewer than n bits are left. |
| BitReader.Reader.Entry16 | internal/wim/lzx/lzx.go:230-240 | The lookup of the cached bits is the entry of the symbol they start with. |
| BitReader.Reader.GetCode | internal/wim/lzx/lzx.go:224-256 | The one symbol whose codeword comes next, consuming exactly its length. It runs out exactly if fewer than 16 bits are cached, no word is to be had, and a byte is unread or no codeword stands in the cached bits; it loses a word exactly if one byte is buffered and one unread. |
| BitReader.Reader.SkipByte | internal/wim/lzx/lzx.go:330-337 | Realigning drops exactly one byte and loses none. |
| BitReader.Reader.ReadCache | internal/wim/lzx/lzx.go:373-381 | The three repeat offsets are the low halves of the next three words of the input. It fails if fewer than twelve bytes are left, or loses them, which takes at most ten bytes after them; a reader that fills does so where they straddle the end of its buffer with fewer than twelve to come. |
| BitReader.Reader.CopyStored | internal/wim/lzx/lzx.go:518-529 | A stored block is the next bytes of the input, whether buffered or not. |
| BitReader.CacheFeed | internal/wim/lzx/lzx.go:125-126 | Or-ing in a shifted word extends the cached prefix by 16 bits. |
| BitReader.CacheTake | internal/wim/lzx/lzx.go:139-141 | Shifting the cache takes the next n bits off the cached prefix. |
| BitReader.LongerThanCached | internal/wim/lzx/lzx.go:230-249 | If the table finds a symbol longer than the cached bits, no codeword stands in them. |
| LzxSpec.IsCodeUnique | internal/wim/lzx/lzx.go:222-247 | At most one symbol's codeword is at a position. |
| LzxSpec.CodeIs | internal/wim/lzx/lzx.go:222-247 | A symbol whose codeword is at a position is what parsing there yields. |
| LzxSpec.TreeFrom | internal/wim/lzx/lzx.go:275-319 | The delta-coded lengths over the bit string; the parse keeps their number and only moves forward. |
| LzxSpec.NextToken | internal/wim/lzx/lzx.go:438-492 | A literal or a match of at least two bytes with a well-formed distance. |
| LzxSpec.BlockFrom | internal/wim/lzx/lzx.go:436-504 | The parse of a compressed block keeps the sizes of window and cache and only moves forward inside the input; Lz77.BlockIsExpansion says what it decodes. |
| LzxSpec.BlockHeader | internal/wim/lzx/lzx.go:327-388 | A header takes at least four bits; a stored one ends on a word. |
| LzxSpec.Block | internal/wim/lzx/lzx.go:507-538 | Every block consumes at least four bits and stays inside the input. |
| LzxSpec.Blocks | internal/wim/lzx/lzx.go:564-574 | The loop over blocks ends even when blocks are empty. |
| LzxSpec.BlocksEndInBits | internal/wim/lzx/lzx.go:564-574 | With an odd byte left over at the end of the input and fewer than sixteen bits before it, whatever blocks still follow end before that byte. |
| LzxSpec.CompressedIsClear | internal/wim/lzx/lzx.go:532-574 | In a chunk of compressed blocks no block is where a filling reader can lose bytes. |
| LzxSpec.SmallIsClear | internal/wim/lzx/lzx.go:91-115 | Nor in any chunk of at most one buffer. |
| LzxSpec.CompressedIsNotFull | internal/wim/lzx/lzx.go:339-361 | In a chunk of compressed blocks that parses no full-size stored header comes after empty blocks. |
| LzxFormat.SlotTable | internal/wim/lzx/lzx.go:36-51 | Slot s from 3 on has s / 2 - 1 footer bits and starts at 2 or 3 times that power of two. |
| LzxFormat.VerbatimDistance | internal/wim/lzx/lzx.go:469-487 | In a verbatim block the slot and footer that spell d + 2, its top bit, the next one and the rest, parse to the distance d, for every d in 1..32765. |
| LzxFormat.AlignedDistance | internal/wim/lzx/lzx.go:469-487 | In an aligned block they do with the footer's low three bits coded by the aligned tree. |
| LzxFormat.SlotsTile | internal/wim/lzx/lzx.go:36-51 | Every slot with every footer spells one distance: each distance has one code and no code is left over. |
| LzxFormat.SlotsInOrder | internal/wim/lzx/lzx.go:36-51 | Larger distances have a later slot, or the same with a larger footer. |
| LzxFormat.RepeatedDistance | internal/wim/lzx/lzx.go:462-467 | Slots 0 to 2 name the repeat cache and take no further bits. |
| LzxFormat.LiteralToken | internal/wim/lzx/lzx.go:438-446 | The code of a main-tree symbol below 256 is that byte. |
| LzxFormat.ShortMatch | internal/wim/lzx/lzx.go:448-492 | Symbol 256 + 8 * slot + (n - 2) is a match of n bytes, up to eight, at the slot's distance. |
| LzxFormat.LongMatch | internal/wim/lzx/lzx.go:452-460 | With 7 for the length, the length tree's code adds n - 9 before the distance. |
| LzxFormat.DeltaIs | internal/wim/lzx/lzx.go:281-283 | A length v after l is coded as the c with (v + c) modulo 17 equal to l. |
| LzxFormat.OneLength | internal/wim/lzx/lzx.go:281-283 | One such code sets one length. |
| LzxFormat.ShortZeroRun | internal/wim/lzx/lzx.go:284-292 | Code 17 and four bits clear 4 to 19 lengths. |
| LzxFormat.LongZeroRun | internal/wim/lzx/lzx.go:293-301 | Code 18 and five bits clear 20 to 51 lengths. |
| LzxFormat.EqualRun | internal/wim/lzx/lzx.go:302-315 | Code 19, one bit and a delta set 4 or 5 lengths to one value. |
| LzxFormat.TreeIs | internal/wim/lzx/lzx.go:262-274 | A tree starts with twenty pre-tree lengths of four bits. |
| LzxFormat.VerbatimTrees | internal/wim/lzx/lzx.go:405-429 | A verbatim block's trees are the first 256 main lengths, the other 240, and the length tree. |
| LzxFormat.AlignedTrees | internal/wim/lzx/lzx.go:392-403 | An aligned block has eight lengths of three bits before them. |
| LzxFormat.CompressedHeader | internal/wim/lzx/lzx.go:339-357 | A header is three bits of type and a set bit for 32768 bytes, or a clear one and sixteen bits of size. |
| LzxFormat.UncompressedHeader | internal/wim/lzx/lzx.go:358-381 | Type 3 is padded to the next word and followed by the three repeat offsets in four little-endian bytes each. |
| LzxFormat.PaddedHeader | internal/wim/lzx/lzx.go:327-338 | After a stored block of odd size a byte is skipped first. |
| LzxFormat.RepeatExchanges | internal/wim/lzx/lzx.go:462-467 | A repeat exchanges its slot with slot 0, and the third slot stays. |
| LzxFormat.ExplicitPushes | internal/wim/lzx/lzx.go:488-491 | An explicit offset is pushed before the other two. |
| LzxFormat.MatchGoesOn | internal/wim/lzx/lzx.go:494-502 | After a match the window has, byte by byte, what stood the offset before. |
| LzxFormat.MatchRefused | internal/wim/lzx/lzx.go:494-497 | A match is corrupt that reaches before the window's start or past the block's end. |
| LzxFormat.BlockWritesItsOwn | internal/wim/lzx/lzx.go:507-538 | A block changes the window from where it starts to its size and nowhere else. |
| LzxFormat.CompressedBytes | internal/wim/lzx/lzx.go:532-537 | A compressed block goes on from the lengths and repeat cache left before it, and leaves its own. |
| LzxFormat.StoredBytes | internal/wim/lzx/lzx.go:513-530 | A stored block is the next bytes of the input, keeps the lengths and remembers an odd size. |
| Lzx.StartOfChunk | internal/wim/lzx/lzx.go:589-600 | 496 and 249 zero lengths, 32768 zero bytes and a repeat cache of ones. |
| Lzx.Decompressor.constructor | internal/wim/lzx/lzx.go:589-600 | Zero lengths, a zero window and a repeat cache of ones. |
| Lzx.Decompressor.ReadFields | internal/wim/lzx/lzx.go:264-270 | A row of fixed-width fields. |
| Lzx.Decompressor.DeltaStep | internal/wim/lzx/lzx.go:281-283 | One length becomes its delta, no other changes. |
| Lzx.Decompressor.ZeroRunStep | internal/wim/lzx/lzx.go:284-301 | A run of zero lengths, or corruption when it does not fit. |
| Lzx.Decompressor.SameRunStep | internal/wim/lzx/lzx.go:302-315 | A run of one delta-coded length: its width, then the delta, or corruption when it does not fit. |
| Lzx.Decompressor.TreeStep | internal/wim/lzx/lzx.go:275-318 | One code of the pre-tree advances the lengths as the parser says. |
| Lzx.Decompressor.ReadTree | internal/wim/lzx/lzx.go:262-325 | The lengths in place become those the bit string describes, no others change; an incomplete pre-tree is the nil dereference. |
| Lzx.Decompressor.ReadMainTree | internal/wim/lzx/lzx.go:405-418 | The main tree in its two halves. |
| Lzx.Decompressor.ReadLengthTree | internal/wim/lzx/lzx.go:420-429 | The length tree. |
| Lzx.Decompressor.ReadAlignedTree | internal/wim/lzx/lzx.go:394-403 | The aligned offset tree, or corruption. |
| Lzx.Decompressor.ReadTrees | internal/wim/lzx/lzx.go:392-432 | All trees of a block decode what the parser reads. |
| Lzx.Decompressor.ReadMatchLength | internal/wim/lzx/lzx.go:452-460 | Three bits of the main code, or the length tree. |
| Lzx.Decompressor.ReadOffset | internal/wim/lzx/lzx.go:469-487 | Base position, verbatim bits and aligned code make the offset. |
| Lzx.Decompressor.MatchOffset | internal/wim/lzx/lzx.go:462-492 | Repeats swap with the first slot, explicit offsets push. |
| Lzx.Decompressor.CopyMatch | internal/wim/lzx/lzx.go:498-501 | The byte-by-byte copy is the periodic extension of the window. |
| Lzx.Decompressor.Step | internal/wim/lzx/lzx.go:438-502 | One token leaves the rest of the block's meaning unchanged. |
| Lzx.Decompressor.ReadCompressedBlock | internal/wim/lzx/lzx.go:436-504 | Success means exactly end - start bytes and the specified window and cache; corruption is what the parser finds; a parse that succeeds runs out only if a word was lost or an odd byte is left over behind fewer than sixteen bits. |
| Lzx.Decompressor.ReadTypeAndSize | internal/wim/lzx/lzx.go:339-353 | Three bits of type, then the full size or 16 bits of it; more than 16 bits stay cached exactly for the full size with more than 20 at the start. |
| Lzx.Decompressor.ReadStoredHeader | internal/wim/lzx/lzx.go:358-381 | A stored header is refused as corrupt exactly when more than 16 bits are cached; otherwise the reader stands at a byte, or it does not parse, the source broke or bytes were lost. A filling reader loses them only late in the data, and does where the repeat cache straddles its buffer's end. |
| Lzx.Decompressor.ReadHeaderHere | internal/wim/lzx/lzx.go:339-387 | The header at the position reached, the repeat cache updated for stored blocks; a full-size stored header met with more than 20 bits cached is always refused, any other that parses only if the source breaks or bytes are lost. |
| Lzx.Decompressor.ReadBlockHeader | internal/wim/lzx/lzx.go:327-388 | The header the bit string describes, a padding byte skipped first; it is refused if it does not parse, the source breaks, bytes are lost, or it is a full-size stored one met with more than 20 bits cached. |
| Lzx.Decompressor.ReadStored | internal/wim/lzx/lzx.go:513-530 | A stored block copies input bytes into the window and remembers an odd size. |
| Lzx.Decompressor.ReadCompressed | internal/wim/lzx/lzx.go:532-537 | Trees, then tokens, as specified. |
| Lzx.Decompressor.ReadBlock | internal/wim/lzx/lzx.go:507-538 | Success is exactly the specified block; a panic is the nil tree or a block past the window; an error means that the block does not parse, the source broke, bytes were lost or an odd one is left over, or a full-size stored header was met with more than 20 bits cached. A filling reader loses bytes only at the end of its buffer, and never decodes a block whose header straddles it. |
| Lzx.Decompressor.Decompress | internal/wim/lzx/lzx.go:564-577 | The blocks' bytes with calls translated, or an error for one of the reasons of a block, the last of them only after nothing but empty blocks. The loop terminates on any input. |
| Lzx.Unpack | internal/wim/lzx/lzx.go:564-600 | From a reader that fills and does not break, a chunk of compressed blocks without an odd byte is decoded if and only if it parses; any chunk that parses is refused only for an odd byte, a full-size stored block after empty ones, or a block at a buffer's end; one that is cut there is refused. |
| Lzx.RefusedChunkParses | internal/wim/lzx/lzx.go:91-115 | Two stored blocks in 4100 bytes parse, and are cut at the second header. |
| Lzx.StoredHeaderParses | internal/wim/lzx/lzx.go:339-381 | Four bytes that say stored and a size, and twelve more, are a stored header at any even byte. |
| Lzx.Padding | internal/wim/lzx/lzx.go:363-370 | Dropping the cached bits, or a word if there are none, moves to the next word boundary. |
| Lz77.BlockIsExpansion | internal/wim/lzx/lzx.go:436-504 | Decoding a block is tokenising the bit string and then expanding the tokens, with the same outcome. |
| Lz77.ExtendIsSelfCopy | internal/wim/lzx/lzx.go:498-501 | Each copied byte equals the one offset places before it, overlap included, and nothing else changes. |
| Lz77.ExtendReadsDecoded | internal/wim/lzx/lzx.go:494-501 | A copy depends only on bytes already decoded. |
| Lz77.ExpandReadsDecoded | internal/wim/lzx/lzx.go:436-504 | With repeat offsets of at least one, what a block decodes does not depend on the window past its start. |
| E8.MapPermutes | internal/wim/lzx/lzx.go:548-556 | Each operand map permutes the range from -position to the file size and leaves the rest alone. |
| E8.ScanInverse | internal/wim/lzx/lzx.go:546-561 | Scanning back undoes scanning forth: both visit the same opcodes. |
| E8.TranslateBijection | internal/wim/lzx/lzx.go:540-562 | Translation and its encoder undo each other on all buffers of a length, if and only if no call in one can have an address of 2^31 or more. |
| E8.CallTooFar | internal/wim/lzx/lzx.go:548-557 | A buffer with one call, at address 2^31, that does not come back. |
| E8.LoadStore | internal/wim/lzx/lzx.go:549-557 | Operands are stored as they are loaded. |
| E8.TranslateUndoesCalls | internal/wim/lzx/lzx.go:542-562 | Behind each opcode that the skipping rule reaches, at address p, an operand v in 0..12000000 becomes v - p, one with -p <= v < 0 becomes v + 12000000 and any other stays, as do all bytes outside operands. |
| E8.DecodeE8 | internal/wim/lzx/lzx.go:542-562 | The buffer becomes its translation, each reached call's operand made relative and no other byte changed; past the largest offset nothing changes, nor do bytes past the buffer. |
| E8.ScanStep | internal/wim/lzx/lzx.go:546-561 | One round of the loop keeps what is done and left to do together. |
| LineReader.TrimTakesLineEnds | internal/helper/reader.go:42-49 | Trimming takes off all the trailing line ends and nothing else. |
| LineReader.SplitOfWritten | internal/helper/server.go:354-361 | Lines written one after another are split as they were. |
| LineReader.UnixReader.ParseRights | internal/helper/reader_unix.go:119-140 | On failure every descriptor parsed before is closed; on success exactly those of all messages are returned, in order. |
| LineReader.UnixReader.TakeRights | internal/helper/reader_unix.go:70-78 | Descriptors join the pending ones, or all pending are closed. |
| LineReader.UnixReader.Fill | internal/helper/reader_unix.go:69-95 | One read moves bytes and descriptors from what is to come to what is buffered; it fails exactly on control messages that do not parse, a cut or a broken connection, and then nothing is pending. |
| LineReader.UnixReader.BufferedLine | internal/helper/reader_unix.go:47-52 | The line before the first newline, with all pending descriptors. |
| LineReader.UnixReader.LastOfInput | internal/helper/reader_unix.go:58-67 | What is left at the end of the connection is the last line. |
| LineReader.UnixReader.Next | internal/helper/reader_unix.go:43-97 | The next line of the concatenated input whatever its chunks, with exactly the descriptors that came with the answers it took, in order; otherwise they are closed. No answer is asked for once more than 65536 bytes are there. |
| LineReader.Drain | internal/helper/server.go:190-211 | For input whose lines fit, the lines are the newline split of the bytes. |
| Session.ControlKept | internal/helper/server.go:233-340 | Every step keeps who is in flight and who holds the write lock consistent. |
| Session.StepLogs | internal/helper/server.go:233-340 | Which event each step records, and that it records no other. |
| Session.IdleKept | internal/helper/server.go:221-227 | Every step keeps the timer unarmed in flight, and armed or fired when the reader waits with nothing in flight. |
| Session.ConservedKept | internal/helper/server.go:236-314 | Every step keeps each delivered descriptor closed or held, never both. |
| Session.UnansweredStep | internal/helper/server.go:329-337 | A request becomes answered by exactly the step that writes its terminal response. |
| Session.OneAnswerKept | internal/helper/server.go:233-340 | Every step keeps the count of terminal responses at one per answered request. |
| Session.OpsInOrderKept | internal/helper/server.go:329-337 | Every step keeps the ops' writes in the order the ops were read. |
| Session.MayStillWriteKept | internal/helper/server.go:329-337 | Every step keeps an unfinished op's writes last. |
| Session.RunsTrackedKept | internal/helper/server.go:293-316 | A run that was started is still running or has returned. |
| Session.RunsApartKept | internal/helper/server.go:273-304 | Every step keeps runs apart and after a matching ping. |
| Session.InvKept | internal/helper/server.go:175-340 | Every step of reader, op goroutine, timer and connection keeps the whole invariant. |
| Session.RunsNeverOverlap | internal/helper/server.go:293-316 | In every run of the session two executions of run never overlap and none comes before a matching ping. |
| Session.AnsweredOnce | internal/helper/server.go:233-340 | In every run each request read gets exactly one terminal response once it is no longer handled or run, and none before. |
| Session.ReturnedIsClean | internal/helper/server.go:205-217 | When serve has returned no op is running, every request was answered once and every descriptor closed as often as delivered. |
| Session.TerminalIsLast | internal/helper/server.go:329-337 | All of an op's progress precedes its terminal response, which precedes everything a later op writes. |
| Session.IdleBothWays | internal/helper/server.go:221-337 | The two-sided idle rule at every point of every run. |
| Codes.OpAnswersItsOwn | internal/helper/server.go:306-338 | In every run of the session the terminal response an op goroutine writes has the code that op's own run returned before, the only one it returned. |
| Codes.InlineAnswers | internal/helper/server.go:227-304 | In every run the reader loop's own answer follows from the message: malformed input and anything before a matching ping are invalid, a ping gets success, a version mismatch or invalid, a cancel success, an op busy. |
| Codes.WireAnswers | internal/helper/server.go:363-373 | What goes out was recorded so, carries the ID of the request it answers, and for an op the code its run returned. |
| Codes.ReadingEnds | internal/helper/server.go:190-304 | Reading ends only on a failing read or after an answer of invalid or version mismatch, and after such an answer nothing more is read. |
| Codes.ImageIsItsOwn | internal/helper/server.go:236-314 | An op that takes an image works on the first descriptor that came with its own message; any other has none. |
| Codes.CancelReaches | internal/helper/server.go:284-292 | When a cancel has been answered with success, the op whose run had started and not returned has been cancelled. |
| Settling.StepDecreases | internal/helper/server.go:169-340 | Every step that does not come from outside brings the session closer to rest. |
| Settling.GoesOnItself | internal/helper/server.go:169-340 | A session not at rest can take such a step: no two goroutines wait for one another. |
| Settling.ComesToRest | internal/helper/server.go:169-340 | From every point of every run the session, once its runs return, comes to rest by itself, and then every message it has read has been answered exactly once. |
| Product.NoBusyHere | internal/helper/server.go:281-297 | A request that finds an operation in flight is that operation's own cancel. |
| Product.LinkedKept | internal/helper/server.go:190-340 | The session holds what the client sent, in order, and its responses carry the right IDs. |
| Product.OneAtATimeStays | internal/helper/server.go:329-337 | Operations settled before a later message was sent stay settled. |
| Product.LogCleanKept | internal/helper/server.go:281-297 | Every session step keeps cancels on target and busy unused. |
| Product.TakenSettles | internal/priv/client.go:146-161 | A terminal response taken by its own call settles that call's operation. |
| Product.ReturnedIsSettled | internal/priv/client.go:107-185 | An operation whose call has returned is settled unless the client is broken. |
| Product.ClientKept | internal/priv/client.go:107-250 | Every step keeps the facts about calls, channels, pending IDs and the read loop. |
| Product.AloneAfterDo | internal/priv/client.go:107-185 | Every step of do keeps at most one operation active and all others settled. |
| Product.OrderAfterDo | internal/priv/client.go:128-191 | Whatever do sends, every earlier operation of another call was settled. |
| Product.InvKept | internal/priv/client.go:107-250 | Every step of the product keeps the whole invariant. |
| Product.CancelHitsItsOwn | internal/priv/client.go:165-191 | In every run the cancel that do sends for an operation cancels that operation and no other. |
| Product.NeverBusy | internal/helper/server.go:293-298 | With one operation at a time no request is ever refused as busy. |
| Product.ReturnsAfterRun | internal/priv/client.go:104-185 | Once do has returned for a sent operation, its run has returned or never started, or the client is broken. |
| Product.GraceReturnsEarly | internal/priv/client.go:177-182 | A run in which the grace period ends, do returns on the broken client, and the operation still runs and then writes. |
| Product.SettledIsQuiet | internal/helper/server.go:306-338 | A settled operation is neither started, ended nor written for again. |
| Product.NothingAfterReturn | internal/priv/client.go:104-106 | After that return the helper does nothing more for the operation in the rest of the run. |
| Product.OnlyItsOwnResponses | internal/priv/client.go:204-250 | Responses reach only the call whose request they answer; a channel is closed at most once and open whenever sent on. |
| Product.HelperRun | internal/helper/server.go:169-217 | The helper's side of every run of the product is a run of a session that reads what the client sent. |
| Product.AnswerIsItsOwn | internal/priv/client.go:145-164 | What do returns as the answer is the terminal code of its own request: what the op's run returned unless it came before a matching ping, what the ping deserves, success for a cancel. |
| Returns.WhyReturned | internal/priv/client.go:107-185 | In every run a call that returned without an answer was never sent, or is a ping whose context ended, or the client is broken; if it gave up, its context and grace period ended and the connection is closed. |
| Returns.CancelSentOnce | internal/priv/client.go:165-191 | For each operation at most one cancel is sent, only after its context ended, and then unless sending fails. |
| Returns.NobodyForgotten | internal/priv/client.go:239-250 | Once the client is broken every waiting call's channel has been closed once, and the call can leave. |
| Returns.LoopEndsFor | internal/priv/client.go:204-237 | The loop ends on a failing read or a refusal without an ID, and such a refusal ends it. |
| Returns.NoAnswerLost | internal/priv/client.go:229-235 | The terminal response to a call that still listens, once looked up, is in its channel or about to be. |
| Returns.HungForever | internal/priv/client.go:177-182 | A caller that waits for the loop to end, while the loop has a response for its full channel, never returns whatever happens. |
| Returns.EndLoop | internal/priv/client.go:204-237 | Otherwise the loop comes to its end by its own steps. |
| Returns.CanReturn | internal/priv/client.go:107-185 | From every point of every run an active call that does not hang returns by the client's own steps, whatever the helper does not do. |
| Returns.ReturnsIff | internal/priv/client.go:107-237 | A call can still return if and only if it is not at the end of its grace period with a full channel and another response for it in the loop. |
| Returns.HangHappens | internal/priv/client.go:177-182 | A run with 65 progress responses in which a call hangs. |
| Ops.TouchedOnlyWhenApproved | internal/helper/ops.go:235-365 | Before any unmount, open, write, sync or format there is an approval on record, and before that a resolved device that is a whole removable block device and none of the system's named disks, and an image of positive size that fits it or a checked label; unmounted are the device that was checked and the partitions listed for it, and it is opened or formatted only with all of these unmounted. |
| Ops.GrantsAndDevicesReturned | internal/helper/ops.go:111-128 | When an op is over its grant was released exactly as often as given and its device closed as often as opened, each at most once. |
| Ops.ReleasedBeforeWriting | internal/helper/ops.go:108-128 | At the first byte written the grant is released and the device open. |
| Ops.CancelTouchesNothing | internal/helper/ops.go:80-106 | An authorization during which a cancel arrived touches nothing. |
| Ops.Host.ResolveTarget | internal/helper/ops.go:53-73 | A target is accepted exactly when both paths are good, it is a whole removable block device and no disk of a non-empty list of named system disks, unless the OS fails; any other is refused with the code for the first check it fails, without effect. |
| Ops.Host.CheckImage | internal/helper/ops.go:255-264 | The image is accepted exactly when it is a regular file of the claimed positive size that fits, unless the OS fails; any other is refused with the code for what is wrong with it. |
| Ops.Host.Authorize | internal/helper/ops.go:80-106 | Approval yields a held grant; otherwise none is held, and one given was overtaken by a cancel; without a cancel the authorizer decides. |
| Ops.Host.UnmountAll | internal/helper/ops.go:130-157 | On success exactly the listed partitions and then the device were unmounted, in that order; otherwise something failed. |
| Ops.Host.OpenTarget | internal/helper/ops.go:111-128 | On success the device was unmounted and opened and the grant released; on failure the grant is released too. |
| Ops.Host.StreamSyncClose | internal/helper/ops.go:274-286 | The device is closed on every path; success means streamed, synced and closed. |
| Ops.Host.RunWriteImage | internal/helper/ops.go:235-290 | Against any disk and authorizer the effects are allowed and the op ends settled; success means exactly the effects of a complete write, an approved request that fits fails only by a planned fault, any other with its own code, and a grant is on record only if the authorizer approves. |
| Ops.Host.RunFormatDisk | internal/helper/ops.go:331-365 | The same for formatting. |
| Outside.FaultWasPlanned | internal/helper/ops.go:274-329 | When more faults count than before, the plan has one in between; so under a plan without faults nothing fails. |
| WimFormat.NumberOfLittleEndian | internal/wim/reader.go:380 | Little-endian numbers read back. |
| WimFormat.NumberIs | internal/wim/reader.go:380 | Fixed bytes of two, four and eight are numbers with the low byte first. |
| WimFormat.ResourceLayout | internal/wim/reader.go:88-115 | A descriptor's bytes are flags and size, offset and original size, eight each. |
| WimFormat.StreamLayout | internal/wim/reader.go:129-134 | A stream's 50 bytes are its resource, part number, reference count and hash at 0, 24, 26 and 30. |
| WimFormat.HeaderLayout | internal/wim/reader.go:158-175 | Which of the header's 212 bytes hold which field. |
| WimFormat.FlagBits | internal/wim/reader.go:88-115 | The top byte of a descriptor holds the flags, metadata its second bit; only the second and third are supported. |
| WimFormat.TableIs | internal/wim/reader.go:501-513 | A table decodes exactly if it is whole descriptors of 50 bytes, and then to these in order. |
| WimFormat.ResourceRoundTrip | internal/wim/reader.go:88-115 | A resource descriptor decodes to what was encoded, signed fields included. |
| WimFormat.StreamRoundTrip | internal/wim/reader.go:129-134 | A 50-byte stream descriptor decodes to what was encoded. |
| WimFormat.HeaderRoundTrip | internal/wim/reader.go:158-175 | The 212-byte header decodes to what was encoded. |
| WimFormat.TableRoundTrip | internal/wim/reader.go:501-513 | An offset table decodes to the descriptors it was made of. |
| WimFormat.ReadOffsetTable | internal/wim/reader.go:492-550 | Accepted exactly when the table decodes, no flag is unsupported and the images match the count; the map holds for each hash the last stream with it. |
| Packing.PassesPartition | internal/wim/split.go:256-266 | The two passes split the blobs into metadata and the rest, losing none. |
| Packing.AddKeepsPacked | internal/wim/split.go:291-293 | Adding a blob that fits, or that the part must take, keeps the packing greedy. |
| Packing.NewPartKeepsPacked | internal/wim/split.go:285-289 | A new part is opened only for a blob that would exceed the limit. |
| Packing.PassesInOrder | internal/wim/split.go:256-266 | Each pass over one list after another is the pass over each, in this order. |
| Packing.AssignedMeans | internal/wim/split.go:268-296 | Every blob is in one part and has its number, metadata leads part 1, no part takes more than M + 1 blobs past the limit, and the next part opens with a blob that would have exceeded it. |
| Packing.AssignBlobsToParts | internal/wim/split.go:255-297 | All metadata is in part 1, the rest follows in order, numbered by part, greedily packed. |
| Packing.PartSizeBound | internal/wim/split.go:283-293 | A part exceeds the limit only with at most M + 1 blobs, so its data is at most the limit or M + 1 times the largest blob. |
| Packing.SecondPartOverflows | internal/wim/split.go:283-285 | With one metadata blob and three of the limit's size, every such packing puts twice the limit into part 2. |
| Packing.HeaviestStaysTogether | internal/wim/split.go:268-293 | M metadata blobs and one more of the largest size always end up in one part. |
| Packing.LimitHoldsIff | internal/wim/split.go:283-293 | For blobs up to a size and M metadata blobs, every assignment keeps every part within the limit if and only if M + 1 blobs of that size fit it. |
| Packing.SizesAddUp | internal/wim/split.go:276-293 | The parts' sizes add up to the data. |
| Packing.FewParts | internal/wim/split.go:280-294 | For more than one part, (parts - 1) times the limit is less than twice the data. |
| Swm.Within | internal/wim/split.go:190-194 | A resource is accepted if and only if it lies inside the file. |
| Swm.CopyBlobData | internal/wim/split.go:432-466 | Exactly the source's bytes at the offset, as many as there are, are appended, unless something fails. |
| Swm.CopyBlobs | internal/wim/split.go:342-383 | All blobs back to back, with their new offsets and part number. |
| Swm.Rewrite | internal/wim/split.go:418-424 | The header is replaced and nothing after it changes. |
| Swm.WriteSWMPart | internal/wim/split.go:300-427 | The file is header, blobs, table and XML, byte for byte, unless something fails. |
| Split.ResourcesApart | internal/wim/split.go:335-367 | Resources of a part lie after the header, apart, and before the table. |
| Split.PayloadMoves | internal/wim/split.go:349-378 | In its part each stream has the source's bytes, hash, flags, sizes and count; only place and part number differ. |
| Split.PartReadsBack | internal/wim/split.go:300-427 | A part's header and table decode from its own file, and its streams have the source's bytes. |
| Split.PartHeaderReads | internal/wim/split.go:300-427 | From a part's own bytes: its number, the set's size and GUID, the spanned flag beside the source's flags, no integrity table; a table behind the header, and behind that inside the file the XML data with the source's bytes and sizes. Images are described in part 1 only. |
| Split.XmlInFile | internal/wim/split.go:389-407 | The file ends with the source's XML data, right behind the table. |
| Split.SoundIs | internal/wim/split.go:83-109 | A file can be split exactly if its first 212 bytes have the tag and one part, table and XML data lie inside, the table is whole descriptors, inflated if bit 58 says so, and each lies inside. |
| Split.PartLimit | internal/wim/split.go:71-74 | Mebibytes, 3800 of them unless a positive number is given. |
| Split.BootMetadataKept | internal/wim/split.go:318-329 | Part 1's boot metadata resource is its own blob's there if and only if the blob has not moved, and then has the source's bytes; past the part's end it has none. |
| Split.BootMetadataMisplaced | internal/wim/split.go:318-329 | A sound WIM with boot metadata behind a regular blob: however it is split, part 1's header points at the regular blob's byte instead. |
| Split.SortSorts | internal/wim/split.go:245-248 | Sorting by offset orders the descriptors and keeps them all. |
| Split.ParseStreams | internal/wim/split.go:226-243 | The loop reads what the table decodes to. |
| Split.ReadAllStreams | internal/wim/split.go:197-251 | The source's descriptors, sorted by offset; none exactly when the table does not decode, unless a read fails. |
| Split.WriteParts | internal/wim/split.go:142-177 | Every part is written as planned, unless something fails. |
| Split.SplitWim | internal/wim/split.go:63-180 | It succeeds exactly on a sound source, unless the plan has a fault meanwhile; then the parts are packed by the limit's rules and all written. |
| Split.SplitPreserves | internal/wim/split.go:63-180 | The streams that the parts' own tables describe are, as a multiset with their bytes, the source's. |
| Split.OpenTable | internal/wim/reader.go:492-550 | Reading the table that a file's header points at, inflated if it is compressed, accepts exactly what decodes, is supported and matches the header's image count. |
| Split.PartAccepted | internal/wim/reader.go:534-547 | From the bytes of its file, part 1 is accepted if and only if its flags are supported and the source's image count matched; a later part if and only if its flags are, and it shows no images. |
| Split.AllPartsAccepted | internal/wim/reader.go:492-550 | A reader accepts the bytes of every part if and only if it accepts the source's table. |
| FatLayout.FatFitsFor512 | internal/fatfmt/fatfmt.go:125-133 | With 512-byte sectors the FAT has an entry for every cluster and two more, and all fits. |
| FatLayout.FatFitsFor4096 | internal/fatfmt/fatfmt.go:125-133 | The same with 4096-byte sectors. |
| FatLayout.AcceptedIsFat32 | internal/fatfmt/fatfmt.go:111-138 | An accepted layout fits its partition and has a cluster count of FAT32. |
| FatLayout.AcceptedExactly | internal/fatfmt/fatfmt.go:44-58 | A disk is taken exactly from 35138048 bytes to 2 TiB with 512-byte sectors, and from 270094336 bytes to 2 TiB with 4096-byte sectors. |
| FatLayout.ClusterSizes | internal/fatfmt/fatfmt.go:111-124 | The sectors of a cluster for each size of partition. |
| FatLayout.FatIsLeast | internal/fatfmt/fatfmt.go:130-131 | The FAT is the smallest that maps what is left beside both copies. |
| FatLayout.ChsRoundTrip | internal/fatfmt/fatfmt.go:153-163 | An encoded address decodes to its sector, or is the conventional maximum exactly out of range. |
| FatLayout.PlanIsExact | internal/fatfmt/fatfmt.go:44-80 | Start, size and last sector are exact in 32 bits up to 2 TiB. |
| FatLayout.WrapsAtTwoTiB | internal/fatfmt/fatfmt.go:140-151 | At 2 TiB the sum of start and size does wrap. |
| SectorIO.SpanIsInside | internal/fatfmt/fatfmt.go:188-198 | Exactly the accesses inside the disk are accepted, and become whole sectors inside it. |
| SectorIO.SpanIsTight | internal/fatfmt/fatfmt.go:192-196 | They are the fewest such sectors. |
| SectorIO.SpanAcceptsOverflow | internal/fatfmt/fatfmt.go:188-189 | The check is right if and only if the end of the access fits 64 bits. |
| SectorIO.OverwriteSectors | internal/fatfmt/fatfmt.go:223-228 | Writing back the sectors with the new bytes among them changes those bytes only. |
| SectorIO.Disk.ReadAt | internal/fatfmt/fatfmt.go:200-213 | Reads at any offset inside the disk see the byte store, unless the device fails. The device is asked for whole sectors inside it only, except exactly when the end of the access wraps at 64 bits; then it refuses. |
| SectorIO.Disk.WriteAt | internal/fatfmt/fatfmt.go:215-232 | Writes at any offset inside the disk act on the byte store, under the same rule; neighbouring bytes, and in a failure other sectors, stay. |
| SectorIO.Disk.CoversOnly | internal/fatfmt/fatfmt.go:215-232 | A byte that a failing write may change is in a sector of the access. |
| SectorIO.WrappedIsOutside | internal/fatfmt/fatfmt.go:188-213 | An access whose end wraps passes the check, and asks the device for something outside it. |
| SectorIO.Disk.Zero | internal/fatfmt/fatfmt.go:234-240 | A stretch becomes zero; a negative offset shortens it. |
| SectorIO.Disk.Prepare | internal/fatfmt/fatfmt.go:66-77 | Both ends are cleared, the signature is at 440, the rest is unchanged. |
| SectorIO.Storage.Seek | internal/fatfmt/fatfmt.go:271-286 | The position moves exactly when the target is not negative and fits 64 bits. |
| SectorIO.Storage.Read | internal/fatfmt/fatfmt.go:265-269 | Sequential reads see the byte store. |
| RawDisk.BufferIsWhole | internal/helper/disk_windows.go:317-323 | The buffer is whole sectors for every sector size that is accepted. |
| RawDisk.RawDisk.Flush | internal/helper/disk_windows.go:354-369 | The buffered bytes reach the disk padded to a whole sector, inside buffer and disk. |
| RawDisk.RawDisk.Write | internal/helper/disk_windows.go:338-352 | All bytes are taken in order; nothing is padded before the end. |
| RawDisk.RawDisk.Sync | internal/helper/disk_windows.go:371-376 | The disk holds everything taken and fewer than one sector of zeros. |
| RawDisk.Stream | internal/helper/ops.go:294-329 | At each chunk the disk has taken exactly the image's prefix; a short source is a mismatch at exactly its length. |
| RawDisk.WriteAll | internal/helper/ops.go:274-286 | Streaming and one sync put the image and fewer than one sector of zeros on the disk, never past its end, unless something fails or the image is short. |
| IsoWalk.IndexIs | internal/isofs/isofs.go:82-209 | An index is a tree at most 32 deep below the root directory, no entry twice, siblings that differ after folding, and every directory with the lines of its listing. |
| IsoWalk.PlainNameIs | internal/isofs/isofs.go:287-314 | Which names are taken, character by character, up to 255 UTF-16 units. |
| IsoWalk.EntryIs | internal/isofs/isofs.go:169-238 | Which entries are: type 4 or a readable one of type 5, as the line says, without chained descriptors. |
| IsoWalk.WithinIs | internal/isofs/isofs.go:211-238 | The budgets, and what counts against each. |
| IsoWalk.NamesArePlain | internal/isofs/isofs.go:287-314 | No accepted name can act as a path. |
| IsoWalk.FoldedPathsDiffer | internal/isofs/isofs.go:149-153 | Two distinct paths of the index still differ after folding every component. |
| IsoWalk.LineFits | internal/isofs/isofs.go:143-191 | A line of an image that has an index passes every check but the budgets. |
| IsoWalk.AddKeepsGood | internal/isofs/isofs.go:143-193 | A line that passes keeps the index a tree of different entries with distinguishable names. |
| IsoWalk.LinesCount | internal/isofs/isofs.go:138-140 | A listing of an image whose index passes the budgets does not exceed the number of entries either. |
| IsoWalk.LineCosts | internal/isofs/isofs.go:185-229 | A line of an image whose index passes the budgets is within them. |
| IsoWalk.DirectoryTest | internal/isofs/isofs.go:183-185 | The test after a directory's length is added is right if and only if the true sum is below 2^63. |
| IsoWalk.WithinPasses | internal/isofs/isofs.go:211-238 | An index whose true sums fit the budgets passes the 64-bit tests in any order. |
| IsoWalk.WithinIsPlausible | internal/isofs/isofs.go:111-113 | In an index that fits no directory claims too much. |
| IsoWalk.SumStep | internal/isofs/isofs.go:183-185 | The 64-bit sum goes on as the true one while no directory claims too much. |
| IsoWalk.HugeRootPasses | internal/isofs/isofs.go:111-113 | A root directory that claims 2^63 bytes or more, with an empty listing, passes although it exceeds the budget. |
| IsoWalk.Walker.CheckEntry | internal/isofs/isofs.go:211-238 | Accepted exactly for files and directories without chained descriptors within both budgets. |
| IsoWalk.Walker.ReadEntry | internal/isofs/isofs.go:169-191 | An entry is accepted exactly when it agrees with its line, can be read, and both budgets, in 64 bits, allow it. |
| IsoWalk.Walker.AddLine | internal/isofs/isofs.go:143-193 | One line adds one node with a new name and a file entry not met before. |
| IsoWalk.Walker.AddLines | internal/isofs/isofs.go:141-194 | The listing's lines become exactly the directory's children. |
| IsoWalk.Walker.Dir | internal/isofs/isofs.go:137-209 | Everything below a directory is in the index with its whole listing, nothing else is added, on any graph. |
| IsoWalk.CompleteFromChildren | internal/isofs/isofs.go:197-207 | A directory is complete once its lines and subdirectories are. |
| IsoWalk.Open | internal/isofs/isofs.go:82-122 | An accepted image has an index: a tree within the depth limit, each node a different file entry, names FAT32 tells apart, every listing whole, entries and extents within their limits; its metadata is if and only if no directory claims 2^63 - 64 MiB or more. Without such a claim an image is accepted if and only if it has an index that fits the budgets; with one it is if the 64-bit sums pass in any order. |
| IsoWalk.EmptyRootHasIndex | internal/isofs/isofs.go:82-122 | An image whose root directory is readable and empty has an index. |
| IsoWalk.IndexUnique | internal/isofs/isofs.go:137-209 | An image has at most one index. |

## Left out

LZX:

- Lzx.Decompressor.ReadBlock: which error a failing block reports is stated for headers, trees and tokens, not for the whole block; a block that does not fit the window is the outcome of a panic right after its header, although trees or tokens may report an error first.
- Lzx.Unpack: between the places where a filling reader can lose bytes and those where it must, the outcome for a chunk depends on how far codes are read ahead; BitReader.Reader.EnsureAtLeast says exactly when, call by call.
- BitReader.Reader.GetBits: once an error is set nothing is said about the value, which the source does not use either; there the model reader delivers nothing where the source shifts stale bits.
- Lz77.ExpandReadsDecoded: stated for repeat offsets of at least one; a stored block's header may set an offset to zero, which copies bytes onto themselves.
- Calling Read again after a failure, and serving bytes from the decoded window.
- The decompressor's fields are split between a bit reader and the rest; a Source's own errors are one error.

Helper protocol:

- Session.InvKept: whole lines are written atomically; a write to a closed connection delivers nothing; partial lines after a failed send are not modelled.
- Returns.CanReturn: a possibility, not a bound on time: nothing makes a scheduler or a timer take a step that it can take.
- Settling.ComesToRest: takes it that the run of an op returns; how it does is in Ops.
- Product.CancelHitsItsOwn: stated for callers that start one operation at a time, as the app does; pings are free.
- LineReader.UnixReader.Next: which line a descriptor belongs to is the kernel's delivery rule; a line over the limit may still be accepted when its newline arrives in the same chunk.
- Cancellation of all ops by the parent context, the accept loop, refusals before a session, JSON, logging, progress throttling and all durations; timers are armed or fired.
- Ops.Host.RunWriteImage: what the OS, the image and the authorizer answer is fixed for one op, and anything may fail at any moment; streaming is one effect here and is modelled in RawDisk; the image obtained from a handle and its closing, unmount and eject as ops of their own, and label syntax are not modelled.

WIM:

- Split.ReadAllStreams: a compressed offset table is whatever an inflating function makes of its bytes; the sort keeps equal offsets in order, the source's need not.
- Packing.AssignBlobsToParts: blobs are values, not shared objects; sums of sizes are unbounded integers where the source has 64 bits.
- Split.SplitPreserves: stated for files shorter than 2^56 bytes, where a table's size cannot run into its flags; part numbers are exact up to 65535 parts.
- XML and integrity contents, progress callbacks, file naming, the GUID's randomness.

Disk writing:

- SectorIO.Disk.ReadAt: requires, as does WriteAt, that one access has at most 2^62 bytes; no slice is longer.
- FatLayout.AcceptedIsFat32: the sizing of the formatting library is not part of this model, only the check that repeats it.
- IsoWalk.Open: name folding and Windows device names are function parameters; sorting of children, file readers and modification times are left out.
- Writing the partition table and file system, volume locking, and every other call into an operating system.
