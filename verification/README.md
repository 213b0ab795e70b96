# A verified model of the VaptVupt codec

This project models the compression core of VaptVupt, and the two older LZ codecs kept beside it, and proves
what they are for: what is compressed comes back, fast forms do what the simple forms do, and decoders behave as
specified on every input, corrupt ones included.

`dafny verify dfyconfig.toml` checks everything.

## How it is built

Each coder has a specification on values (bit strings as `seq<bool>`, texts as `seq<Byte>`) and imperative
methods over arrays, readers and writers that are proved to compute it. Round trips and refinements are lemmas about
the specifications.

| Part | Modules |
|---|---|
| Bytes, bits, arithmetic, fields | Bytes, Arith, Bits, BitIo, Wire |
| Branch filters | BcjRule, Bcj (x86), Arm64 |
| tANS: tables and one general encoder | Normalize, AnsTables, AnsBuild, AnsCoder, AnsEncode, AnsHeader |
| tANS: one state, four lanes, 256 contexts | AnsSingle, AnsLanes, AnsContext, CtxFrame |
| Sequence coder | SeqCodes, SeqParse, SeqCodec, SeqEncode, SeqDecode, SeqFrame, LitCoders |
| Tokens, matches and parsers | Lz, Tokens, HashChains, MatchFinder, ParseLog, LateMatch, GreedyParse, OptimalParse, BlockRoundTrip, LazyLog |
| Block decoding and wide copies | Copies, BlockDecode, LitBlock |
| Huffman | CodeCost, HuffTree, HuffCost, HuffLengths, HuffCode, HuffTable, HuffDecode, HuffCodec |
| Frames and whole codecs | Frame, Codecs, DStream, Blocks, Choices, Emit, CStream, OneShot, WorkedFrames, WorkedValues |
| Inputs that fail | EvenCounts, LateLiterals, Counter, FailingInput, LongMatch, LzhCut |
| Hash | Xxh, XxhLaws, ZuptXxh |
| LZH | LzhBits, LzhHeap, LzhTree, LzhLengths, LzhLut, LzhLens, LzhRle, LzhSyms, LzhMatch, LzhFrame, Lzh |
| LZ | ZuptLz |

The general tANS lemmas come first: a decoder step undoes an encoder step, for any list of operations over any number
of states and any tables (`AnsCoder.DecodeSymbol`, `AnsCoder.DecodeRaw`). One state, four lanes, the context coder and the
three interleaved states of the sequence coder are instances. The streaming decoder and the one-shot decoder are both
compared with one machine that makes a move when it has the input for it (`Frame.NextMove`), so that chunking cannot
matter.

Round trips alone would let a compressor store everything raw. So the compressors also say what they choose: the parsers
return, as ghosts, a log of where they looked and what had been inserted by then, in which nothing is passed over that
was there to take (`ParseLog`, `LazyLog`, `OptimalParse.Explored`), and a block is the winner among the codings the source compares
(`Choices.Wins`). Likewise a filter, a table or a hash is not only undone or agreed upon, but has a description of its own or
values in numbers (`BcjRule`, `Normalize.OneApportionment`, `XxhLaws`, `WorkedFrames`).

What the tables hold before a block, prices, size estimates, the result of filter detection and of the window trials are arbitrary
parameters. Estimates and prices may differ from block to block. What freshly allocated buffers hold is a parameter as well
(`junk`, anew for each block), but it can affect what a corrupt block decodes to; see Findings.

## Findings

**Literal counts of 16 bits.** A block that codes only its literals stores their number and the size of their coding in 16
bits each (src/vv_encoder.c:1948-1949, read back at src/vv_decoder.c:597-598). `emit_block` does not check the number.

- The block decodes to what its tokens decode to if and only if it has at most 65535 literals, as long as their coding has at
  most 65535 bytes (`LitBlock.BlockExact`), or is in four lanes and their number not a multiple of 65536
  (`LitBlock.LanesExact`).
- `emit_block` takes the literal path only where the sequence coder refuses the parse, or makes a block of at least seven
  eighths of the content that loses (`Emit.Open`, part of what `Emit.EmitBlock` promises). It refuses a parse only because of
  a match behind more than 65535 literals, so that the path taken then is never sound (`Emit.RefusedNeverSound`). The comments
  at src/vv_ans.c:1612-1644 expect a plain or raw block there, and call the fallback lossless; it is not.
- `FailingInput.FrameFails` gives a source that fails: in balanced mode and format v1, `vv_compress` turns 67584 bytes that
  repeat nothing and a run of 64 equal bytes into a frame that no decoder decodes, whatever the window, the estimates and the
  tables hold. (Unless the caller asks for format v2, it uses v1 when a window is given, so that no trials are run, or
  the older decoder is asked for.) The same holds for every filtered source that spoils (`Emit.Spoils`, `OneShot.VvCompress`).
- The streaming compressor needs no option for that: it uses format v1 unless it is asked for v2. `FailingInput.StreamFails` is the
  same source as one chunk, and `CStream.CompressAll` covers every chunk that spoils after chunks of at most 65535 bytes.
- In whole frames, the fate of the first block that is not sound decides (`Emit.CompleteMeans`). In fast mode, in format v2,
  and when no block has more than 65535 bytes, every block is sound.
- Left open: more than 65535 literals with a coding of more than 65535 bytes, where that is of one state (which is used only
  where four lanes would not be shorter than the literals) or the number of literals is a multiple of 65536. The size field
  then cuts the coding short, what is left of it is read as tokens, and what comes out depends on the coded bytes.

**Match lengths on the sequence wire.** The sequence coder carries match lengths from the minimum match to 65531 above it (3
to 65534, or 4 to 65535). `SeqEncode.TokensThroughSequences` and `SeqFrame.PayloadDecodes` hold exactly for such lengths
(`CarriableLengths`). The repository's own parsers stay inside (`Emit.LengthsFit`); a caller that hands the coder other
tokens need not: one literal and a match of offset 1 and length 70000, for example, is accepted and comes back shorter
(`LongMatch.LongMatchLost`).

**Offset 0** is written like offset 1 (`SeqCodes.OffsetRoundTrip`); no valid token stream has it.

**Literals announced in an empty section.** `vva_decode_sequences_impl` then decodes from the literal buffer as it was
allocated (src/vv_ans.c:2535-2575): the result is what that memory held (`SeqFrame.JunkRead`), and depends on it in no other
case (`SeqFrame.JunkUnread`). No encoder writes such a block, but the decoders agree on one only as far as their buffers do, so
that the equality of one-shot and streaming decoding is stated for the same `junk`.

**LZH in a small buffer.** `zupt_lzh_compress` drops bits that no longer fit and still returns the filled size when that is
below the source length, so with a buffer smaller than the source the result can be cut off. It cannot when the buffer is
at least as large as the source, or is not filled to its last byte (`Lzh.LzhCompress`). It is for every source without zeros in
which no three bytes occur twice and no byte follows itself, in a buffer with less than a bit for each of its bytes: 4000
bytes of the counter text in 400, for example (`LzhCut.CutOff`).

**Matches of three bytes in the LZ codec.** Its tokens carry them and the match finder asks for them, but its hash takes in four
bytes and its chains never mix hashes, so that none is ever found (`ZuptLz.FindMatch`). `zupt_lz_bound` relies on that: one such
match for every 15 literals would take more room.

**Where comments and code differ**, the model follows the code:

- The repair loop of src/vv_huffman.c:258-275 moves a code from the deepest level below 15, not the shallowest, and may end
  below 2^15. The one of src/zupt_lzh.c:251-268 does end at exactly 2^15.
- The wide token loops return -1 for an overlong literal run where the general loop returns its corrupt or overflow code.
- The frame footer has 12 bytes, the four-lane header has four-byte sizes, and a block's size field starts at bit 3.
- Compaction in the streaming compressor does not re-base the three-byte hash chains, and moves the other chains' links but not
  the places they are looked up at: a position finds its link again exactly when the bytes dropped are a multiple of the
  window (`CStream.LinkKept`). Matches are checked, so this costs ratio only.
- `emit_block` is to write the shortest coding. The winner is the least of all with two exceptions (`Choices.WinnerLeast`): plain
  tokens are compared with the content without their three bytes of size, and a coder's block, even in format v2, with plain
  tokens that cannot be written there.

## Model

| member | source | states |
|---|---|---|
| Bcj.WordInverse | src/vv_bcj.c:67-99 | One operand word: a 25-bit convert and re-add under a history whose examined byte is neither 00 nor FF leaves that byte neither, and the opposite direction gives the word back. |
| Bcj.ConvertInverse | src/vv_bcj.c:67-99 | A convertible operand stays convertible under the same history, and converting it the other way restores its four bytes. |
| Bcj.ExaminedByteStable | src/vv_bcj.c:45-105 | Along the rest of a run, every byte an earlier test looked at (as the history mask records) keeps its answer to "is it 00 or FF?", though later conversions may overwrite it. |
| Bcj.X86Inverse | src/vv_bcj.c:45-105 | For every byte string, position, history and direction, the opposite run from the same start restores every byte. |
| Bcj.SameTrace | src/vv_bcj.c:45-105 | The run over the filtered bytes stops at the same positions with the same history and takes the same branch at each as the run that filtered them. |
| Bcj.X86InPlace | src/vv_bcj.c:45-105 | The in-place scanner with its rolling mask computes that filter on every array and 32-bit start, and leaves the bytes past the reported end as they were. Said without the scanner: it converts the branches that BcjRule converts, each displacement becomes itself plus (minus) the position of the next instruction modulo 2^25 with its sign in the top byte, and no other byte changes. |
| Bcj.RuleIsFilter | src/vv_bcj.c:45-105 | A text is the filter's result if and only if it is what that rule, which does not run the scanner, makes of the bytes. |
| BcjRule.OneResult | src/vv_bcj.c:45-105 | The rule has one result for every text. |
| BcjRule.SameTarget | src/vv_bcj.c:6-15 | What the filter is for: two calls of one target, with no branch opcode in the four bytes before them, hold the same four operand bytes after encoding. |
| Bcj.KnownCall | src/vv_bcj.c:45-105 | 90 E8 10 00 00 00 at position 0 becomes 90 E8 16 00 00 00. |
| Arm64.ConvertInverse | src/vv_bcj.c:141-180 | BL and ADRP words keep their kind when converted, and the opposite direction gives every word back. |
| Arm64.FilterInverse | src/vv_bcj.c:141-180 | For every byte string and start, the opposite run restores it; a partial last word is left alone. |
| Arm64.FilterInPlace | src/vv_bcj.c:141-180 | The in-place loop computes that filter and reports the whole words. Word by word: BL operands move by a quarter of the address modulo 2^26, ADRP operands by the page modulo 2^21 in their split fields, all other words and a partial one stay. |
| Arm64.FilterLaw | src/vv_bcj.c:141-180 | The filter is that word-by-word rule. |
| Arm64.SameTarget | src/vv_bcj.c:141-180 | Two BL instructions of one target are the same word after encoding. |
| Normalize.NormalizeFreq | src/vv_ans.c:113-164 | For every histogram with a total of at most 2^31: the frequencies sum to 4096, are positive exactly where the count is, and are the base shares topped up by largest remainder or, where those are too many, reduced by smallest remainder and then levelled from the largest down; ties go to the lower symbol. No symbol present gives all zeros. The returned number is the number of symbols present. |
| Normalize.OneApportionment | src/vv_ans.c:113-164 | These conditions leave one vector of frequencies for every histogram. |
| Normalize.ShortfallCovered | src/vv_ans.c:128-146 | The unused remainders always cover the slots still missing, which is why the top-up loop never runs out of symbols. |
| EvenCounts.FloorsFit | src/vv_ans.c:113-164 | Where every symbol present makes up at least a 128th of the source, no share is taken back: each keeps at least 32 of the 4096 slots. |
| AnsTables.SlotBijection | src/vv_ans.c:170-178 | Stepping by 2563 visits every one of the 4096 slots exactly once; the inverse step is given. |
| AnsTables.SpreadCount | src/vv_ans.c:170-178 | In the spread each symbol fills exactly as many slots as its frequency. |
| AnsBuild.SpreadSymbols | src/vv_ans.c:170-178 | The spreading loop produces that spread. |
| AnsTables.WindowInside | src/vv_ans.c:180-233 | No occurrence's window reaches past the 4096 states. |
| AnsTables.WindowOrder | src/vv_ans.c:180-233 | A symbol's windows follow one another without overlap. |
| AnsTables.WindowHolds | src/vv_ans.c:345-378 | The occurrence computed by division holds the state in its window, for every frequency and state. |
| AnsTables.WindowUnique | src/vv_ans.c:345-378 | It is the only occurrence whose window holds the state; with the two rows above: the windows tile the state space. |
| AnsBuild.BuildDec | src/vv_ans.c:180-233 | The decode table is filled with, at each state, the spread's symbol and the width and base of that occurrence's window. |
| AnsBuild.BuildDecDirect | src/vv_ans.c:240-289 | Spreading straight into the table and completing it in state order gives the same table as the row above, for every normalized vector. |
| AnsBuild.RunAscends | src/vv_ans.c:310-339 | Filed in slot order, a symbol's windows already ascend, so the insertion sort over them moves nothing. |
| AnsBuild.BuildEnc | src/vv_ans.c:310-339 | The encode table lists, symbol by symbol, every occurrence with its slot, and the cumulative frequencies. |
| AnsBuild.EncSym | src/vv_ans.c:345-378 | The O(1) encode step: -1 for an absent symbol, else the slot of the unique window that holds the state, with the state's bits below it. |
| AnsCoder.DecodeSymbol | src/vv_ans.c:345-378 | Any number of states, any tables: a decode step at the state the backward encoder ends in gives the first symbol back, consumes exactly the bits that step emitted, and leaves the encoder's earlier state. |
| AnsCoder.DecodeRaw | src/vv_ans.c:2268-2375 | Raw extra bits interleaved with the states come back as they were. |
| AnsCoder.DecodeOne | src/vv_ans.c:664-678 | The same step on a longer stream read at a position, other states untouched. |
| AnsCoder.NextStateInRange | src/vv_ans.c:664-678 | Every state a table leads to is a table index, on valid and corrupt streams alike. |
| AnsEncode.BackwardEncode | src/vv_ans.c:592-600 | The backward pass succeeds exactly when every symbol is encodable, and leaves the states and, read forward, the bits of the specification. |
| AnsEncode.WritePairs | src/vv_ans.c:602-606 | The forward write packs exactly those bits, with a zero-padded last byte. |
| BitIo.BitWriter.Add | src/vv_ans.c:43-52 | Appends the low bits of a value to the bits written so far, within the buffer. |
| BitIo.BitReader.Fill | src/vv_ans.c:67-99 | The masked eight-byte load and the byte loop both extend the buffered window without moving the read position. |
| BitIo.BitReader.Read | src/vv_ans.c:100-107 | Returns the next bits; past the end they read as zero. |
| AnsHeader.WriteHeader | src/vv_ans.c:395-439 | Chooses the single, sparse or dense header; nothing when it does not fit. |
| AnsHeader.ReadHeaderInto | src/vv_ans.c:441-493 | Fills the frequencies and returns the size, 0 and all zeros for a header that cannot be read. |
| AnsHeader.HeaderRoundTrip | src/vv_ans.c:395-493 | Every normalized vector is read back from its header, whatever follows it, with the header's size. |
| AnsSingle.VvaEncode | src/vv_ans.c:559-621 | A source is accepted exactly when its encoding, under the frequencies the normalization gives, is shorter than it and fits the buffer; what is accepted is such an encoding. An empty source gives an empty encoding. |
| AnsSingle.RunInverse | src/vv_ans.c:664-678 | One state: the decoder run over an encoder's bits returns the source and stops exactly behind the last bit. |
| AnsSingle.LookAhead | src/vv_ans.c:680-684 | Giving back the whole bytes still buffered yields the rounded-up number of bits used, for every reader state. |
| AnsSingle.SingleRoundTrip | src/vv_ans.c:559-688 | Decoding an encoding, whatever bytes follow it, returns the source and reports exactly the encoding's length, despite the look-ahead. |
| AnsSingle.VvaDecode | src/vv_ans.c:631-688 | On every input the imperative decoder returns the specified status, bytes and consumed size, and writes only the bytes asked for. |
| AnsLanes.LanesInverse | src/vv_ans.c:825-940 | Four states served in turn from four bit streams return the source from any position on. |
| AnsLanes.RunFour | src/vv_ans.c:881-925 | Four steps taken side by side are four steps in turn. |
| AnsLanes.LanesRoundTrip | src/vv_ans.c:699-940 | Four-lane coding round-trips and reports exactly the encoding's length. |
| AnsLanes.LanesCutOff | src/vv_ans.c:825-880 | An encoding that is cut off anywhere is refused, whatever number of literals is asked of it. |
| AnsLanes.VvaEncodeLanes | src/vv_ans.c:699-813 | A source is accepted exactly when header, preamble and the four lanes, under the frequencies the normalization gives, are shorter than it and fit the buffer; what is accepted is a four-lane encoding. |
| EvenCounts.EvenAccepted | src/vv_ans.c:699-813 | A source of more than 4400 bytes in which every byte that occurs makes up at least a 128th is accepted in a buffer of its size, at no more than seven bits a byte and 550 bytes. |
| AnsLanes.VvaDecodeLanes | src/vv_ans.c:825-940 | On every input the unrolled decoder does what the lane-by-lane specification does, writing only the bytes asked for. |
| AnsContext.CtxRunInverse | src/vv_ans.c:1352-1380 | 256 states, each step's table chosen by the byte just decoded: the decoder recovers the source from the backward encoder's interleaved bits. |
| AnsContext.EncodeContexts | src/vv_ans.c:1020-1236 | Histogram, inherited and own tables, backward pass over 256 states: the result is an image of the source, and inherited contexts share the global table. |
| AnsContext.ContextRoundTrip | src/vv_ans.c:1020-1403 | Images of a source decode to it, single-symbol and inherited contexts included, and report the bits' size. |
| AnsContext.DecodeImage | src/vv_ans.c:1346-1387 | The imperative loop behind a readable header is that decoder, on every bit stream. |
| CtxFrame.BytesRoundTrip | src/vv_ans.c:1020-1403 | The same in bytes: header, inherited flags, sized tables, 256 two-byte states, bit stream, whatever follows. |
| CtxFrame.VvaEncodeContexts | src/vv_ans.c:1020-1236 | A source is accepted exactly when its encoding, with the global and own tables the normalization gives and the inheritance choice of the source, is shorter than it and fits the buffer; what is accepted is such an encoding. |
| CtxFrame.VvaDecodeContexts | src/vv_ans.c:1242-1403 | On every input the decoder returns the specified status, bytes and size. |
| SeqCodes.LengthRoundTrip | src/vv_ans.c:1427-1568 | A length survives its code and extra bits exactly when it lies between the table's first base and its end. |
| SeqCodes.EncodeLength | src/vv_ans.c:1474-1500 | Direct look-up for small values and binary search above it find the last code whose base is not above the value. |
| SeqCodes.OffsetRoundTrip | src/vv_ans.c:1509-1525 | An explicit offset survives exactly when it is in 1..2^24 - 1. |
| SeqCodec.OffsetResolves | src/vv_ans.c:2108-2135 | A repeat or explicit offset code resolves, over the same history, to the offset it was chosen for. |
| SeqParse.ParseSequences | src/vv_ans.c:1595-1706 | The parse is exactly the entries of the token stream's grammar, or a refusal where the grammar or a length limit refuses; the number of entries never exceeds the allocated bound. |
| SeqParse.SplitRunDenotes | src/vv_ans.c:1680-1704 | Splitting a long final literal run into representable entries does not change what the sequences denote. |
| SeqParse.EntriesDenote | src/vv_ans.c:1595-1706 | The entries are valid after a history exactly when the sequences are, and denote the same bytes. |
| SeqEncode.EncodeSequences | src/vv_ans.c:1788-2440 | A token stream is encoded exactly when its parse is acceptable, and then into an image of its entries with all table and count fields in range, its three tables those that the normalization gives for the codes used. |
| SeqEncode.OneImage | src/vv_ans.c:1788-2440 | The entries decide everything in such an image: literals, count, tables, states and bits, all but the filling of the last byte. |
| SeqCodec.LoopInverse | src/vv_ans.c:2798-3023 | The decoder loop, from any point of an encoded list, interprets exactly what the wire carries of the rest, with equal repeat histories, and never reaches the iteration bound. |
| SeqCodec.InterpretDenotes | src/vv_ans.c:2489-3028 | Interpreting sequences succeeds exactly when every match is in range and the output fits, and yields what they denote. |
| SeqCodec.SequenceRoundTrip | src/vv_ans.c:1788-3028 | Decoding an encoded list gives what it denotes if and only if every match length is one the wire carries. |
| SeqEncode.TokensThroughSequences | src/vv_ans.c:1595-3028 | For every token stream the parser accepts and the block decoder decodes: the sequence decoder gives the same bytes if and only if every match length is at most 65531 above the minimum (CarriableLengths). Both minimum-match tables. |
| SeqDecode.RunLengthAtMost | src/vv_ans.c:2728-2757 | On every stream, no code yields a literal run above the safe zone's margin. |
| SeqDecode.MatchLengthAtMost | src/vv_ans.c:2728-2757 | Likewise for match lengths, which are at least 3. |
| SeqDecode.Iterate | src/vv_ans.c:2798-3023 | One iteration, with or without the safe zone's skipped checks, is one iteration of the decoder that always checks: same error, or same bytes, states, counts and history. |
| SeqDecode.DecodeLoop | src/vv_ans.c:2752-3023 | On every input the loop with its safe zone, wide stores and hoisted tests ends as the always-checking loop does and changes nothing past the destination. |
| SeqDecode.VvaDecodeSequences | src/vv_ans.c:2565-3028 | The same with table validation and aliased tables. |
| LitCoders.EncodeLits | src/vv_ans.c:1841-2050 | The chosen format and bytes decode to the literals, whatever the estimates are. Below 4096 literals no coder that accepts them makes them shorter (four-stream Huffman may stand in for single-stream Huffman at a loss of up to 32 bytes); from there on none does of those whose estimates call for a try. |
| LitCoders.ReadLits | src/vv_ans.c:2529-2575 | The dispatch on the literal format, an unknown one read as raw, is the specified one. |
| SeqFrame.SeqWidth | src/vv_ans.c:2362-2375 | An entry never costs more than 88 bits, so the bit buffer's bound holds. |
| SeqFrame.ImageRoundTrip | src/vv_ans.c:2385-2440 | Literal section, three sized tables, states and bits are read back from the payload, whatever follows; with an empty literal section the literals are what the buffer held. |
| SeqFrame.JunkUnread | src/vv_ans.c:2535-2575 | Decoding a payload does not depend on what the literal buffer held before, unless literals are announced and their section is empty. |
| SeqFrame.JunkRead | src/vv_ans.c:2535-2575 | In that case it does: the same bytes are read back as two images whose literals are the two buffers' contents. |
| SeqFrame.EncodePayload | src/vv_ans.c:1788-2440 | An empty stream gives an empty payload. Otherwise there is no payload exactly when the parse is refused or one that carries its entries does not fit; a payload carries the entries, under the tables fitted to them, its literal section no longer than four lanes take if those are tried. |
| SeqFrame.PayloadDecodes | src/vv_ans.c:1788-3028 | In bytes: decoding a payload, whatever follows it, is decoding the tokens it was made from, if and only if every match length is carriable. |
| LongMatch.LongMatchLost | src/vv_ans.c:1427-1568 | A stream of one literal and a match of offset 1 and length n, which the parser accepts: any payload that carries it decodes to its n + 1 equal bytes if and only if n is at most 65531 above the minimum match. |
| SeqFrame.DecodePayload | src/vv_ans.c:2489-3028 | On every input the decoder returns the specified result and writes inside the destination only. |
| Lz.CopyPeriod | src/vv_decoder.c:118-125 | Byte-by-byte copying gives each byte the value `offset` places back, for overlapping offsets too. |
| Lz.CopyUnique | src/vv_decoder.c:118-125 | That property determines the copy: any other way of copying that has it is the same. |
| Lz.DecodeTokensDenotes | src/vv_decoder.c:136-427 | The plain token loop succeeds exactly when the stream parses, every match is in range and the output fits, and yields what the sequences denote. |
| Lz.LongerHistory | src/vv_decoder.c:136-427 | A block that decodes after some history decodes to the same bytes after any longer one. |
| Lz.StrictParse | src/vv_ans.c:1595-1706 | Whatever the block decoder's grammar accepts, the sequence parser's looser grammar parses to the same sequences. |
| Tokens.TokenFits | src/vv_encoder.c:911-940 | A token never takes more room than the `needed` bound checked before it. |
| Tokens.EmitSeq | src/vv_encoder.c:911-940 | Under that check, exactly the token's bytes are appended. |
| Tokens.ParseEmitted | src/vv_encoder.c:911-940 | Emitted sequences are parsed back, in either grammar. |
| Tokens.DecodeEmitted | src/vv_encoder.c:911-940 | Emitted sequences that are valid after a history decode, as a block, to what they denote. |
| MatchFinder.ExtendMatch | src/vv_encoder.c:156-209 | The length of the longest common prefix up to the limit: all bytes below agree, the next does not. |
| MatchFinder.MatchCopies | src/vv_encoder.c:564-818 | A match found by comparing bytes is what the decoder's copy reproduces, overlapping or not. |
| WorkedValues.HashesOfText | src/vv_encoder.c:129-250 | The hashes of "abcde", in numbers, for each of the finders' hash functions. |
| HashChains.ChainedInsert | src/vv_encoder.c:466-518 | Insertion keeps the chains: each head is the last position inserted with its hash, each link of the last ring of positions the one inserted before it with the same hash. |
| HashChains.RecentMeans | src/vv_encoder.c:564-818 | The positions a walk should meet: those inserted with the same hash, not below the limit, with fewer than `depth` such behind them. |
| HashChains.RecentVisited | src/vv_encoder.c:564-818 | A walk from the head along the links meets all of them, as long as they are within a ring. |
| MatchFinder.Matcher.TryRepMatch | src/vv_encoder.c:518-558 | The first of the three last offsets that shares four bytes, as far as they agree; else, with the three-byte hash, the first that shares three; else none. What is returned is a match within the window and the block. |
| MatchFinder.Matcher.ChainMatch | src/vv_encoder.c:564-818 | Whatever the chains hold, stale or arbitrary, a match returned is one: bytes equal, offset within the window, end within the block, at least 3 long. No match on the main chain is longer and also at least as good at six bits a byte, unless one of 256 bytes ended the walk; where the match is not from there, none on the chain of short hashes is either. |
| MatchFinder.Matcher.SingleProbeMatch | src/vv_encoder.c:855-897 | Whatever the chain holds, a match returned is one, at least 4 long; no position walked shares more bytes, unless a match of 256 bytes ended the walk. |
| GreedyParse.CompressBlock | src/vv_encoder.c:1446-1693 | Greedy and lazy parsing over any table contents: when it returns nonzero its tokens are those of a run over the whole block, and decoded after the preceding history give exactly the block, with every offset inside the window and every length within the limit. In the run a position is passed over only if neither a repeat offset nor any position inserted within the chain's depth and the window shares four bytes with it (minimum match up to 4); a match goes as far as the bytes agree, and none near is better; the step over unmatched positions is the acceleration's. It returns 0 only for want of room or, accelerated, after 128 KB without a match; without acceleration half as much again as the block is always room enough. A block that repeats nothing before a run at its end is not given up, and its first match is in the run. |
| LateMatch.PrimedHeads | src/vv_encoder.c:564-818 | Inside a run of equal bytes, at most eight positions behind one that was inserted, the head of the hash bucket matches, so that the run is not missed. |
| OptimalParse.LinkedLater | src/vv_encoder.c:1290-1400 | Relaxing an edge never changes the price, predecessor or repeat history of a node already processed. |
| OptimalParse.OptCollect | src/vv_encoder.c:1169-1213 | The candidates at a node: every repeat offset that shares four bytes and every position inserted within the chain's depth and the window that does is among them with its full common length, unless one of 512 bytes was found or there are sixteen. |
| OptimalParse.ProcessNode | src/vv_encoder.c:1290-1400 | Processing a node collects those candidates, tries the literal and, for each candidate, the lengths the source prices, and moves on to the next node or behind a long match; the invariants of the price table and of the hash chains and the progress bound are kept. |
| OptimalParse.FillPrices | src/vv_encoder.c:1215-1400 | The finished table is sound and settled: prices are those of real paths with the true repeat history; at every processed node all that was to be found was tried, among all processed nodes before it; and no tried edge can lower any price. |
| OptimalParse.NoCheaperPath | src/vv_encoder.c:1215-1435 | No path of explored edges from any processed node to the end costs less than the table says. |
| OptimalParse.CompressBlockOptimal | src/vv_encoder.c:1215-1435 | The emitted tokens are those of a parse that decodes to the block and costs exactly the final price of that table. Nothing is returned only if a sequence of the cheapest path does not fit; half as much again as the block is always room enough. |
| BlockRoundTrip.ParsedBlockThroughSequences | src/vv_encoder.c:1803-1985 | A parsed block, taken through the sequence coder, decodes to the block. |
| BlockRoundTrip.PricedHistoryIsWireHistory | src/vv_encoder.c:1160-1166 | The repeat history along the optimal path is the one the sequence coder has on the wire. |
| BlockRoundTrip.HistoryIsLastRuns | src/vv_ans.c:2108-2135 | That history holds the offsets of the last three runs of equal offsets, the latest first. |
| Copies.CopyChunks | src/vv_decoder.c:62-116 | Stores of `w` bytes at offsets of at least `w`, then an exact tail, make the byte-by-byte copy and change nothing behind it. |
| BlockDecode.MatchCopy32Hot | src/vv_decoder.c:81-99 | One 32-byte over-store for a short match, else 32, 16 and exact: the copy, and nothing past the stated bound. |
| BlockDecode.CopyMatch | src/vv_simd.c:26-78 | Every tier of the tiered copy is the byte-by-byte copy. |
| BlockDecode.ReadExtLen | src/vv_decoder.c:31-47 | A length extension; input that ends inside it is an error. |
| BlockDecode.TakeToken | src/vv_decoder.c:136-427 | One token in the warm-up, hot or checked loop: same error or same bytes as the plain loop; over-stores stay below the limit. |
| BlockDecode.DecodeBlockTokens | src/vv_decoder.c:136-427 | On every input the three loops succeed exactly when the plain loop does, with the same length and bytes; nothing before the block or past the destination changes. Errors agree too, except that the wide loops report an overlong literal run by a code of their own. |
| HuffTree.InsertionSort | src/vv_huffman.c:176-185 | Sorts by weight and loses nothing. |
| HuffTree.Merge | src/vv_huffman.c:206-229 | The two-queue merge always joins the two lightest nodes left and ends with one tree over all leaves. |
| CodeCost.JoinLightest | src/vv_huffman.c:206-229 | From any code lengths that satisfy Kraft's inequality come lengths for the weights with the two lightest joined that satisfy it too and cost less by at least their sum. |
| HuffCost.TreeCheapest | src/vv_huffman.c:206-238 | The leaves of the merged tree, at their depths, take no more bits than any lengths that satisfy Kraft's inequality. |
| HuffTree.KraftEquality | src/vv_huffman.c:206-238 | The leaves' depths satisfy Kraft's equality. |
| HuffTree.DeepLeafHeavyTotal | src/vv_huffman.c:156-304 | A leaf at depth d forces a total frequency of at least Fib(d + 2). |
| HuffTree.BlockDepth | src/vv_huffman.c:156-304 | At most 2^20 literals keep every leaf at depth 28 or less, inside the 32 counters. |
| HuffLengths.Repair | src/vv_huffman.c:258-275 | The repair loop ends, keeps the number of codes, and leaves a distribution of lengths 1 to 15 with a Kraft sum of at most 2^15. Codes are taken from the deepest levels above 15 only, at most one of them stops short of 15, and one step less would not have been enough; a distribution that needs no repair is not touched. |
| HuffLengths.LimitDepths | src/vv_huffman.c:242-304 | Tree lengths become lengths of at most 15 on exactly the same symbols; if none was deeper they are kept and the code is complete. Else they are as many of each length as the repair leaves of the capped ones, handed out in the order of the capped lengths and then of the symbols. |
| HuffLengths.BuildCodeLengths | src/vv_huffman.c:156-304 | For every histogram of at most 2^20 literals: lengths 1 to 15 on exactly the present symbols, not over-subscribed. One or two symbols have length 1. With more they are those of a code that no prefix code undercuts, limited as in the row above if one of them is above 15. |
| HuffCode.CodesFit | src/vv_huffman.c:310-335 | Under a Kraft sum of at most 2^15 the canonical first codes do not wrap in 16 bits and each level's codes fit. |
| HuffCode.PrefixFree | src/vv_huffman.c:310-335 | No symbol's code word is a prefix of another's, for an alphabet of any size. |
| HuffCode.AssignCodes | src/vv_huffman.c:310-335 | The counting loops assign exactly those codes. |
| HuffCode.ReverseBits | src/vv_huffman.c:136-143 | The reversed code is the value of the code word in stream order. |
| HuffTable.BuildDecTable | src/vv_huffman.c:361-390 | The twelve-bit table and the list of longer codes, as filled entry by entry. |
| HuffTable.DecodeFinds | src/vv_huffman.c:361-390 | For every usable code, table and list together resolve the unique code word at the front of the stream. |
| HuffDecode.Reader.Refill | src/vv_huffman.c:106-121 | A refill keeps the position and leaves at least 56 bits buffered wherever eight bytes are left. |
| HuffDecode.DecodeBuffered | src/vv_huffman.c:811-830 | With 15 bits buffered, one symbol without a refill is the checked symbol, and at most 15 bits are used. |
| HuffDecode.ThreeRounds | src/vv_huffman.c:843-880 | Three rounds over four lanes after one refill never underflow (56 bits against 45) and equal the checked decode. |
| HuffDecode.DecodeFourStreams | src/vv_huffman.c:719-900 | On every input the four-stream decoder with hoisted refills equals the symbol-by-symbol round robin. |
| HuffCodec.HeaderRoundTrip | src/vv_huffman.c:398-442 | Packed lengths are read back, whatever follows. |
| HuffCodec.SingleStreamRoundTrip | src/vv_huffman.c:448-700 | Header and one stream decode to the text, and exactly the bytes written are used. |
| HuffCodec.FourStreamRoundTrip | src/vv_huffman.c:516-900 | Four-stream decoding inverts four-stream encoding, for every text of at least four bytes and every code that covers it. |
| HuffCodec.EncodeSingle | src/vv_huffman.c:448-490 | A text is accepted exactly when header and stream, under the lengths the table builder gives, are shorter than it and fit the buffer. Whatever is accepted decodes to the input and is used up exactly. |
| HuffCodec.EncodeFour | src/vv_huffman.c:516-596 | A text is accepted exactly when header, sizes and four streams, under the lengths the table builder gives, are shorter than it and fit the buffer. Whatever is accepted decodes to the input. |
| HuffCodec.DecodeSingle | src/vv_huffman.c:619-700 | On every input the decoder succeeds exactly when the specification does, with its bytes and size. |
| HuffCodec.DecodeFour | src/vv_huffman.c:719-900 | Likewise for four streams. |
| LitBlock.ExtractLiterals | src/vv_encoder.c:1705-1765 | The literals and the stripped tokens of a token stream, or a refusal where it is malformed or too long. |
| LitBlock.ExtractParsed | src/vv_encoder.c:1705-1765 | For tokens that parse, what is taken out are the literals of the sequences, in order, and nothing else is lost. |
| LitBlock.StrippedDecodes | src/vv_decoder.c:466-529 | Decoding the stripped tokens with the literals, and any more behind them, is decoding the tokens. |
| LitBlock.StrippedNeeds | src/vv_decoder.c:466-529 | With fewer literals than were taken out, whatever they are, it fails. |
| LitBlock.BlockExact | src/vv_encoder.c:1937-1953 | In every literal coding: a block decodes to what its tokens decode to if and only if it has at most 65535 literals, as long as their coding has at most 65535 bytes. |
| LitBlock.LanesExact | src/vv_encoder.c:1937-1953 | In four lanes, which the compressor uses unless they do not shorten the literals: the same for codings of any size, unless the number of literals is a multiple of 65536. |
| LateLiterals.LateParse | src/vv_ans.c:1646-1660 | The parse of a block that repeats nothing before a run at its end, and is longer than one literal run can be: the sequence coder refuses it, and its literals are more than 65535 bytes of which none is rare. |
| LitBlock.DecodeLitBlock | src/vv_decoder.c:551-688 | On every input each of the four literal-block decoders returns the specified result. |
| Emit.CodedLiterals | src/vv_encoder.c:1937-1953 | A block of coded literals is sound up to 65535 literals, and breaks the decoder above if their coding is no longer than that, or in four lanes and their number not a multiple of 65536. |
| Emit.CodedSequences | src/vv_encoder.c:1923-1936 | A block of coded sequences decodes to the block's bytes after any output that ends in the history. |
| Emit.RefusedNeverSound | src/vv_encoder.c:1890-1920 | Where the sequence coder refuses a parse, the parse has more than 65535 literals: the literal path, which is then taken, is never sound. |
| Emit.EmitBlock | src/vv_encoder.c:1803-1982 | Every mode: the block emitted is the winner's among the codings the source compares (Choices), made from the tokens of the mode's parser, and there is none only where the winner's size is above the room. It decodes to the job's bytes after any output that ends in what came before, or else is a block of coded literals for a parse of this job with more than 65535 of them, shorter than a plain block, where the sequence coder refused the parse or made a block of at least seven eighths of the content that loses. For every block that spoils (Emit.Spoils), in balanced mode and format v1, that is what is emitted, and it breaks the decoder. A block takes at most six bytes more than its content, and fails only for lack of that room. |
| Choices.OneWinner | src/vv_encoder.c:1890-1982 | Of content, tokens, coded sequences and coded literals exactly one wins (Choices.SomeWinner gives it): the shorter of the coders' blocks, the sequences' on a tie, if it is shorter than a plain block; else the tokens if they are fewer than the bytes, in format v1; else the content. Coders are tried only outside fast mode on tokens of less than nine eighths of the block, literals only in format v1 where the sequences save less than an eighth. |
| Choices.WinnerLeast | src/vv_encoder.c:1890-1982 | The winner takes the fewest bytes of all that are possible, except that tokens one or two fewer than the content are written although their block is longer than the content's by up to two bytes, and that in format v2 the content is kept although a coder's block is shorter, where plain tokens would be no longer. |
| Choices.FormSize | src/vv_encoder.c:1803-1982 | The sizes compared are those of the blocks: 4 and the content, 7 and the tokens, 8 and the payload, 12 and coding and stripped tokens. |
| Emit.CompleteMeans | src/vv_decoder.c:712-858 | A complete frame: sound blocks decode, at once and in pieces, to the input unfiltered; if the first unsound block is a broken one, both decoders fail. No block is unsound in fast mode, format v2, or below 65536 bytes a block. |
| Emit.VerdictFirst | src/vv_encoder.c:1803-1982 | The verdict on a frame is the fate of its first block that is not sound. |
| Frame.RunSplit | src/vv_decoder.c:1005-1167 | Running the decoder's machine on a first part and then on the rest is running it on both. |
| Frame.ChunksDoNotMatter | src/vv_decoder.c:1005-1167 | Any way of cutting the input into chunks ends in the same state, output and position. |
| Frame.StreamMatchesOneShot | src/vv_decoder.c:712-1167 | On every input the machine is done, with nothing over but what follows the frame, exactly when the one-shot decoder decodes the frame, with the same bytes; the filter is undone once. |
| Frame.ChunkedFrame | src/vv_decoder.c:712-1167 | The same for input in any chunks. |
| WorkedFrames.ThreeBlocks | include/vaptvupt.h:100-147 | A frame in numbers: a raw block, a block of tokens with a match and a run, and what they decode to. |
| WorkedFrames.Checksummed | include/vaptvupt.h:100-147 | The frame of "abc" with its checksum, byte by byte, is accepted by the decoder with the program's own hash. |
| WorkedValues.HeaderMeans | src/vv_decoder.c:722-745 | A frame header is accepted if and only if it starts with the bytes 00 01 56 56 01, names at most one filter and has a window from 10 to 24; its flag bits are the checksum and the two filters. |
| WorkedValues.BlockMeans | include/vaptvupt.h:85-92 | Every block header is its kind, the bit for the last block times 4 and the size times 8, below eight bits left over. |
| WorkedValues.TagsMean | src/vv_decoder.c:784-820 | The tag the compressor writes for a coding is the one the decoder takes for it, in numbers; the decoder knows six tags of all bytes. |
| WorkedValues.MaxOffsetMeans | src/vv_decoder.c:693-701 | The largest offset accepted is the window or, if that is less, the largest that the offset field holds. |
| WorkedValues.OptionsMean | src/vv_encoder.c:2125-2174 | The header says what was asked for: the checksum, and the filter asked for or, if none is and detection is asked for, the one detected. |
| Codecs.DecodeEntropyInto | src/vv_decoder.c:784-820 | The imperative dispatch is that function on every input, and writes inside the destination only. |
| DStream.Decoder.Append | src/vv_decoder.c:958-991 | Input is appended behind the unused bytes; compaction and growth lose none. |
| DStream.Decoder.Consume | src/vv_decoder.c:994-1003 | Takes bytes off the front. |
| DStream.Decoder.BlockTurn | src/vv_decoder.c:1005-1167 | One block, once all of it has arrived, is one move of the machine, errors included; the checksum takes in what it adds. |
| DStream.Decoder.DecompressChunk | src/vv_decoder.c:1005-1167 | For every chunk the class ends where the machine does: same state, same output, same unused input. |
| Blocks.HeaderParses | src/vv_decoder.c:722-745 | A written header is read back; one that names both filters is refused. |
| Blocks.FooterRun | src/vv_decoder.c:823-852 | A right footer ends the frame, with the filter undone once after the check. |
| Blocks.BrokenFrame | src/vv_decoder.c:712-1167 | What breaks the machine makes the one-shot decoder fail, and breaks the streaming decoder however the frame is cut. |
| CStream.Compressor.MakeRoom | src/vv_encoder.c:2718-2765 | When the chunk does not fit, exactly the last window stays, and the primary and secondary tables and chains are re-based by what is dropped, positions before it marked empty; else nothing changes. There is room for the chunk then. |
| CStream.LinkKept | src/vv_encoder.c:2741-2763 | In a chain without double links, a position that keeps its link finds it after compaction if and only if the bytes dropped are a multiple of the chain's length. |
| CStream.Compressor.CompressChunk | src/vv_encoder.c:2689-2809 | A chunk adds one block, with the whole stream before it or at least the last window as history; an empty chunk adds an empty block at the end and none before. Between calls the frame so far is a header and blocks for exactly the stream so far, which a decoder follows; after the last it is complete. A chunk that spoils after the stream before it adds a block that breaks. It fails only for lack of room. |
| CStream.CompressAll | src/vv_encoder.c:2689-2809 | Every run over chunks of at most 1 MB, in every mode, with estimates and prices of its own for each block, makes a frame of blocks for the concatenated input. If all are sound it decodes to that input, at once or in any pieces; only blocks of more than 65535 coded literals are not, and if the first of those is a broken one decoding fails, as it does if, in balanced mode and format v1, a chunk spoils after chunks of at most 65535 bytes. |
| OneShot.CompressInner | src/vv_encoder.c:2176-2475 | The whole-buffer frame of a filtered source, complete in the sense of Emit.CompleteMeans: blocks of 1 MB, the last one what is left, each with all before it as history and each the winner of its codings. `vv_compress_bound` bytes are always enough. |
| OneShot.FilterUndone | src/vv_encoder.c:2125-2174 | Undoing at the frame's end what was applied before compressing gives the source, for both filters and none. |
| OneShot.VvCompress | src/vv_encoder.c:2125-2174 | For every mode, window, filter, estimates, prices and matcher contents: the frame decompresses to the source, at once or in any pieces, when its blocks are sound (always in fast mode, format v2, or up to 65535 bytes); it fails to decompress when the first unsound block is a broken one, and so it does for every filtered source that spoils, in balanced mode and format v1. Both filters at once are refused, and only they. |
| FailingInput.SourceSpoils | src/vv_encoder.c:1803-1982 | A source that spoils: 67584 bytes of a counter in three alphabets, in which no three bytes occur twice and every byte often, then 64 equal bytes. |
| FailingInput.FrameFails | src/vv_encoder.c:1890-1953 | `vv_compress` makes a frame of that source, in balanced mode and format v1 without a filter, for every window, estimate and table contents, and no decoder decodes it, at once or in pieces. |
| FailingInput.StreamFails | src/vv_encoder.c:2689-2809 | The streaming compressor, given that source as one chunk in balanced mode and format v1, makes a frame that no decoder decodes either. |
| Xxh.VvXxh64 | src/vv_xxh64.c:67-123 | The one-shot loops compute the hash of the specification, in 64-bit wrap-around arithmetic. |
| Xxh.StripesAppend | src/vv_xxh64.c:140-181 | Taking in a text stripe by stripe does not depend on where it is cut. |
| Xxh.State.Update | src/vv_xxh64.c:140-181 | The state stands for everything taken in so far, through the 32-byte buffer. |
| Xxh.State.Finalize | src/vv_xxh64.c:184-228 | The result is the one-shot hash of everything taken in. |
| Xxh.HashPieces | src/vv_xxh64.c:129-228 | Any partition of a text hashes to the hash of the text. |
| XxhLaws.KnownShort | src/vv_xxh64.c:67-123 | With seed 0: the empty text hashes to EF46DB3751D8E999, "a" to D24EC4F1A98C6E5B, "abc" to 44BC2CF5AD770999. |
| XxhLaws.KnownStripe | src/vv_xxh64.c:67-123 | The 47 bytes 0 to 46, which take a stripe, an eight, a four and three ones, hash to 0D9883A03E7BFBB8. |
| XxhLaws.KnownStripes | src/vv_xxh64.c:67-123 | The 79 bytes 0 to 78 with seed 9E3779B1 hash to 42784C1F1F233F8D. |
| XxhLaws.RoundPermutes | src/vv_xxh64.c:44-50 | A round loses neither the lane it works on nor the input it takes in. |
| XxhLaws.MergePermutes | src/vv_xxh64.c:52-58 | Nor does merging a lane. |
| XxhLaws.Mix8Permutes | src/vv_xxh64.c:90-118 | Nor does a step over eight bytes of the tail. |
| XxhLaws.AvalanchePermutes | src/vv_xxh64.c:60-65 | The avalanche permutes the words. |
| XxhLaws.ByteTold | src/vv_xxh64.c:67-123 | Two texts that differ in one byte, behind the last whole stripe, have different hashes, with every seed. |
| XxhLaws.SeedTold | src/vv_xxh64.c:67-123 | A text of less than a stripe has a different hash for every seed. |
| ZuptXxh.TailRound | src/zupt_xxh.c:16-39 | The second implementation's differently written tail step, with constants and rotations of its own, is the same step. |
| ZuptXxh.Xxh64 | src/zupt_xxh.c:23-39 | The second XXH64, written independently down to constants, rotations and avalanche, agrees with the first on every input and seed. |
| LzhHeap.Pop | src/zupt_lzh.c:178-193 | The heap gives up its lightest node and keeps the rest, in heap order. |
| LzhTree.JoinTop | src/zupt_lzh.c:217-224 | Each merge joins the two lightest roots; together the roots still hold every present symbol once, with the weight they carry. |
| LzhTree.Merge | src/zupt_lzh.c:213-225 | The result is one tree with every present symbol exactly once, and no prefix code takes fewer bits than its inner nodes weigh. |
| LzhTree.TreeCheapest | src/zupt_lzh.c:195-225 | Depths that need no clamping are the lengths of a code that no prefix code for the present symbols undercuts. |
| LzhTree.ClampedKraft | src/zupt_lzh.c:195-200 | Clamping depths at 15 never under-subscribes a code, and over-subscribes it exactly when a leaf was deeper. |
| LzhTree.ShortKraft | src/zupt_lzh.c:195-200 | The leaves above depth 15 alone never over-subscribe. |
| LzhTree.TreeDepths | src/zupt_lzh.c:195-200 | The recursion writes each symbol's clamped depth. |
| LzhLengths.CanMove | src/zupt_lzh.c:258-262 | While a distribution is over-subscribed there is a code above level 15 to move and one at level 15 to make room for it, so the loop's early exit is never taken and no count goes negative. |
| LzhLengths.MoveFrees | src/zupt_lzh.c:258-268 | One pass frees exactly one word, keeps the number of codes, and adds nothing above level 15. |
| LzhLengths.Repair | src/zupt_lzh.c:251-268 | The loop ends with a Kraft sum of exactly 2^15. It gets there by passes, each of which splits a code of the deepest occupied level above 15 in two and drops one at 15. |
| LzhLengths.OneRepair | src/zupt_lzh.c:251-268 | A distribution has only one repair. |
| LzhLengths.LimitedLengths | src/zupt_lzh.c:202-296 | With two symbols or more: lengths 1 to 15 on exactly the present symbols and a Kraft sum of exactly 2^15; the tree's depths if no leaf was too deep, and then no prefix code takes fewer bits; else as many of each length as the repair leaves of the clamped depths, in which no symbol gets a longer code than a rarer one. |
| LzhLengths.HuffBuild | src/zupt_lzh.c:202-316 | For every frequency vector, the empty and one-symbol cases included, canonical prefix codes for exactly the present symbols; from two symbols on their lengths come, as in the row above, from a tree that no prefix code undercuts. |
| LzhLut.BuildLut | src/zupt_lzh.c:319-343 | The table of 2^15 entries, as filled symbol by symbol, lengths out of range skipped. |
| LzhLut.SymbolFound | src/zupt_lzh.c:345-351 | For every decodable code, one look-up finds the symbol whose code word is next. |
| LzhLut.HuffDec | src/zupt_lzh.c:345-351 | On every input one decode step is that look-up, with zero bits past the end. |
| LzhBits.Writer.Put | src/zupt_lzh.c:154-157 | Bits are appended; those that no longer fit the buffer are kept pending. |
| LzhBits.Writer.Flush | src/zupt_lzh.c:158-160 | The buffer holds all the bits if they fit, and is full if they do not. |
| LzhBits.Reader.Peek | src/zupt_lzh.c:162-165 | The next bits, without moving on; past the end they read as zero. |
| LzhLens.ClEncode | src/zupt_lzh.c:363-414 | In a buffer of at least as many bytes as lengths it cannot fail, never expands, and is decoded back to the lengths exactly. |
| LzhLens.ClDecode | src/zupt_lzh.c:416-440 | On every input the decoder fails or fills in exactly what the specification expands, never past the count. |
| LzhLens.ExpandSmall | src/zupt_lzh.c:416-440 | Whatever the input, every expanded length is at most 15. |
| LzhRle.RleEncode | src/zupt_lzh.c:112-132 | The size of the coding if it fits and is shorter than the source, else 0; an accepted result decodes to the source in any buffer that can hold it. |
| LzhRle.RleDecode | src/zupt_lzh.c:134-144 | On every input the decoder is the specified one; a run that does not fit gives nothing. |
| LzhSyms.LenFits | src/zupt_lzh.c:43-73 | Every length from 3 to 4322 has a code whose extra bits hold its distance from the base. |
| LzhSyms.DistFits | src/zupt_lzh.c:56-78 | Every distance from 1 to 2^20 likewise. |
| LzhSyms.PairInverse | src/zupt_lzh.c:836-846 | Length and distance codes with their extra bits are read back, and the stream is left behind them. |
| LzhSyms.InflateInverse | src/zupt_lzh.c:824-853 | Pieces whose bits lie ahead, up to the end-of-block symbol, decode to what they denote. |
| LzhMatch.FindMatch | src/zupt_lzh.c:453-493 | Whatever the chains hold, a match returned is one: bytes equal as far as they agree, within the window, of a length the codes carry. No position inserted within the chain's depth and the window shares more bytes, unless a match of 512 bytes ended the walk; nothing is returned only if none shares enough. |
| LzhMatch.Parse | src/zupt_lzh.c:553-622 | The lazy parse at every level denotes exactly its input, and is what a log of looks makes: at each position the search above; a match found is taken unless the next position has one longer by two or more, looked for as often in a row as the level allows; literals stand only where nothing was found or a longer match followed. |
| WorkedValues.LevelsOrdered | src/zupt_lzh.c:81-106 | A higher level searches no less far, long and ahead, for matches no longer at least; levels 1, 6 and 9 in numbers. |
| LzhFrame.HeaderRoundTrip | src/zupt_lzh.c:652-812 | Flags, sizes and both run-length coded tables are read back, and the bit stream is what follows. |
| Lzh.BuildCodes | src/zupt_lzh.c:631-650 | Every symbol the parse uses, and the end of the block, gets a code word; the lengths are those built for how often the symbols occur in the parse. |
| Lzh.LzhCompress | src/zupt_lzh.c:528-732 | For every source that is not empty, level and buffer, the result is exactly: the size of header and bits, rounded up, for the log and the codes above, if it fits; the size of the buffer if it does not; and 0 if that is not below the source's length or there is no room for the header. What fits decompresses to the source with any capacity of at least its size. With and without run-length coding, which is used where more than an eighth of the source is zeros and it saves more than a tenth. |
| Lzh.LzhDecompress | src/zupt_lzh.c:738-863 | On every input, corrupt ones included, the decoder writes exactly what the specification says. |
| LzhCut.BitEach | src/zupt_lzh.c:824-853 | A decompressed text in which no three bytes occur twice and no byte follows itself has at most one byte more than the stream has bits, whatever the tables. |
| LzhCut.CutOff | src/zupt_lzh.c:700-732 | Such a source without zeros, in a buffer of less than a bit for each of its bytes: the buffer is filled to the last byte, its size is returned, and what is in it decompresses to something else with every capacity. `LzhCut.TextUnrepeating` gives such sources. |
| LzhCut.TextUnrepeating | src/zupt_lzh.c:700-732 | Every beginning of the counter text is such a source, of up to 67584 bytes. |
| ZuptLz.DecodeInverse | src/zupt_lz.c:201-241 | Emitted tokens decode to what their sequences denote. |
| ZuptLz.FindMatch | src/zupt_lz.c:52-87 | A match returned is one, within 65535 bytes, as far as the bytes agree, and no position inserted within the chain's depth and that distance shares more, unless a match of 256 bytes ended the walk; nothing is returned only if none shares enough. With tables as the compressor fills them it has at least four bytes, although three would do for a token. |
| ZuptLz.HashTells | src/zupt_lz.c:28-31 | Positions with the same hash that share three bytes share the fourth. |
| ZuptLz.LinkedInsert | src/zupt_lz.c:89-96 | Insertion keeps the chains sound: heads, and the links of the last 65535 positions, lead to inserted positions with the same hash, whatever was overwritten. |
| ZuptLz.Compress | src/zupt_lz.c:98-196 | The result is the tokens of a lazy run over the whole source that passes over a match found only for a longer one at the next position, and is 0 only where those do not fit. A nonzero result decompresses to the source in any buffer that can hold it, at every level, and with `zupt_lz_bound` bytes the result is nonzero for every source that is not empty. |
| ZuptLz.DecompressInto | src/zupt_lz.c:201-241 | On every input the decoder writes exactly what the specification says, nothing if the input is corrupt. |

## Left out

Weaker than the source would like:

- OneShot.VvCompress: says nothing about decoding a frame whose first unsound block has more than 65535 literals in a coding of more than 65535 bytes that is of one state or for a multiple of 65536 literals; see Findings. Which of the competing codings is chosen depends on their sizes; the two conditions given on the source (up to 65535 bytes, spoiling) do not meet.
- CStream.CompressAll: the same, with the two conditions stated on chunks.
- Emit.EmitBlock: the same for one block.
- Lzh.LzhCompress: promises nothing about a result that fills a buffer smaller than the source to its last byte, of which some decode and some do not; see Findings.
- GreedyParse.CompressBlock: does not say which matches of three bytes are taken, nor when a match at the next position is preferred to one at the position; where 16-bit tables cannot hold every position it says nothing about what is near.
- MatchFinder.Matcher.ChainMatch: of the three-byte chain it says only that what is found there is a match.
- HuffLengths.BuildCodeLengths: says which lengths are limited and how, not how far from optimal the code then is.
- LzhLengths.HuffBuild: the same.
- DStream.Decoder.DecompressChunk: a broken stream's code may be another broken stream's code when a literal run is overlong, as in the code.

Not modelled:

- `vv_decompress_flags` as an imperative method: the one-shot decoder is a function (`Frame.Decompress`) that the imperative streaming decoder is proved against. The flag that skips the checksum is left out.
- Allocation failure, secure wiping, watermarks, CPU dispatch, prefetch. Wide stores are slice writes with overshoot; vector comparisons are comparisons of eight bytes.
- 64-bit accumulators are natural numbers below the proved bound; the LZH writer's may grow once its buffer is full, where the C shift is undefined and the result is discarded or cut.
- 32-bit positions and lengths: sources below 2^31 bytes, token blocks of at most 2^30 bytes, blocks of at most 2^20, histograms of at most 2^31.
- What the secondary and the three-byte chains of `MatchFinder` hold after insertion: only that the inserted position heads its bucket.
- `vv_bcj_detect`, window and format trials, the price prepass and the literal-size estimates: parameters.
- The arrays of the optimal parser are one array of records.
- Multi-threaded compression, the fixed-memory fast context, option parsing and reset of the streaming compressor, workspaces of the decoders.
- The headers of the v0.5 format, and the fallback of uncompressed code lengths on LZH's encoder side, which cannot be reached (`LzhLens.ClEncode`); the decoder reads both forms of LZH lengths.
- Encryption, key files, archives, disk images, deduplication, the byte-prediction transform and the SDK wrappers of the repository.
