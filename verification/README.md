# beefkvm, verified

A Dafny model of the protocol and codec machinery of beefkvm, a client for BMC remote consoles, and proofs about it.
`dafny verify dfyconfig.toml` checks the whole project.

The model has four parts.

* **The packet-134 video codec.** A packet body is one infinite bit sequence: its little-endian words, then zeros.
  `BitBuffer` proves the two-word buffer reads that sequence. `Huffman`, `Coefficients`, `CodeBooks` and
  `InverseDct` hold the table construction, the entropy coding and the integer transform for arbitrary histograms and
  quantisers; `Cosines` compares the transform with the cosines it stands for; `StandardTables` checks the four tables of the codec. `TileMachine` is a pure interpreter of the opcodes,
  `AvocentDecoders` the imperative decoder that refines it, `Raster` where blocks land, `PaletteTiles`, `Pictures` and
  `PacketCodec` an encoder and the theorem that decoding undoes it, pixel for pixel. `JpegHuffman` compares the older decoder's tables.
* **IPMI over RMCP+.** `SolReceive` is the serial-over-LAN read loop against a stop-and-wait sender, `SolSession` the
  numbering of what is sent and the retries. `SdrWalk` and `SelWalk` are the repository and log walks against a BMC
  that cancels reservations whenever it likes. `Rmcp` and `LanMessage` are the session envelope and the checksummed
  message.
* **Virtual media.** `Frames` is the framing, `VirtualMedia` the session, `BlockArray` the proof that it is a block array.
* **Stream machines.** `CursorDecoder`, with `CursorStreams` for what a written stream does, `Fragments` and `RunLength`.

What is not in the repository's hands is a parameter. HMAC is a function with 20-byte results, AES-CBC for each key and
vector a length-preserving bijection on whole blocks. Virtual-media sectors have the two sizes the source opens images
with, 512 and 2048 bytes. The dequantisation of a coefficient, a float product truncated to
`int32`, is any function that keeps 0 and stays in `int32`. The network is a schedule: lists of events or outcomes that
the theorems quantify over. `uint32` words of the bit buffer are sequences of 32 bits; `int16`, `int32`, `uint32` and
byte wrap-around is written out where it can occur.

## Where the code falls short

Each of these is proved about the code as it is: an input that shows it, and exactly when it happens.

* `parseRMCPPlus` checks integrity when the packet's own authentication bit is set, not whenever a key is given as its
  comment says (internal/ipmi/rmcp.go:147-149 and 180). A packet with the bit clear is accepted by a keyed session:
  `Rmcp.UnsealedAccepted`, and exactly when in `Rmcp.SealedOnlyIfMarked`.
* `GetSDR` tests the length of a reply before its completion code (internal/ipmi/sdr.go:129-134). A cancellation that
  is answered with its completion code alone is taken for a short reply, and the walk ends instead of reserving again:
  `SdrWalk.BareCancellationEnds`, and exactly when in `SdrWalk.ScanExact`. The log walk recognises such replies.
* The page offset of a sensor record travels in one byte, so pages from offset 256 on bring bytes from 256 earlier:
  `SdrWalk.ShortPagesWrap`, exactly when in `SdrWalk.PageIff` and `SdrWalk.OneRecordExactly`. With full pages it never
  happens: `SdrWalk.SteadyIsEarly`.
* `ReadFrame` reports a clean end of stream also for a stream cut right after a header: `Frames.CleanEndIff`.
* A sector read that reaches past the end of the image sends what the buffer held before: `BlockArray.StaleBlock`,
  exactly when in `BlockArray.ReadsTileIff`, and what is sent in `BlockArray.ChunkCarries`.
* A sector read with blocking factor 0 never ends: `VirtualMedia.LoopEndsIff`.
* Run-length literals do not grow the output buffer: `RunLength.FullRunsOverflow`, and exactly when in
  `RunLength.ExpandRoundTrip`.
* On a link that reorders packets the serial-over-LAN read loop delivers late copies again:
  `SolReceive.ReorderingRepeats`, and exactly which in `SolReceive.LateCopy`.

Some comments in the source describe something else than the code below them; the model follows the code. The comment
of `paintPaletteBlock` says that 16x16 palette tiles paint nothing, while each sample is painted as 2x2 pixels, and the
header comment of `DecodePacket` puts mode and quantisers into bytes 9 and 10, while they are taken from bytes 0 and 11
(internal/video/avocent.go:160-161 and 392-397).

## Model

| member | source | states |
|---|---|---|
| `Bits.LittleEndianWord` | internal/video/avocent.go:472-478 | four bytes shifted into place and or-ed are the word whose bits are the fourth byte first |
| `Bits.PackedWordValue` | internal/video/avocent.go:472-478 | as a number a word of the body has its first byte lowest |
| `Bits.PackedPack` | internal/video/avocent.go:472-492 | packing any bits into body words loses nothing: the stream of the packed body starts with them and is zero afterwards |
| `BitBuffer.BitReader.Open` | internal/video/avocent.go:226-242 | a fresh body: the buffer holds the first bits of the zero-extended stream of its little-endian words |
| `BitBuffer.BitReader.Fill` | internal/video/avocent.go:459-468 | establishes the buffer invariant for bodies of any length, also shorter than two words |
| `BitBuffer.BitReader.ReadWord` | internal/video/avocent.go:472-489 | returns the word at the position and moves on by four bytes |
| `BitBuffer.BitReader.Consume` | internal/video/avocent.go:502-560 | for every n, also n <= 0 and n > 32: afterwards `nb` is the next 32 bits of the stream, the top `ob` bits of `mb` the bits after those and its others zero, and `pos` the matching word boundary clipped to the body |
| `BitBuffer.BitReader.PeekBits` | internal/video/avocent_dct.go:117-122 | the next n bits as a number |
| `BitBuffer.BitReader.GetBits` | internal/video/avocent_dct.go:125-129 | the same, and the stream moves on by n |
| `BitBuffer.BitReader.PeekField` | internal/video/avocent.go:265-268 | a shifted and masked field of `nb` is a range of the next 32 bits |
| `Huffman.KraftIffCodesFit` | internal/video/avocent_dct.go:22-44 | Kraft's inequality holds exactly if every canonical code fits in its own length, for any histogram |
| `Huffman.NewAvoHuff` | internal/video/avocent_dct.go:22-44 | the three arrays hold, for every length, the first and last canonical code and the symbols in code order |
| `Huffman.NoPrefix` | internal/video/avocent_dct.go:135-145 | no canonical code is a prefix of a longer one |
| `Huffman.CodeDecodes` | internal/video/avocent_dct.go:135-145 | a canonical code followed by any bits decodes to its own symbol and its own length |
| `Huffman.MatchIsCode` | internal/video/avocent_dct.go:135-145 | a symbol that is found was coded: the bits read are a code of that length, and the symbol is its own |
| `Huffman.FailsExactlyWithoutCode` | internal/video/avocent_dct.go:135-145 | decoding fails exactly when no code is a prefix of what follows |
| `JpegHuffman.BuildHuffman` | internal/video/jpeg.go:136-158 | the tables of the older decoder hold the same canonical codes |
| `JpegHuffman.BitAccumulator.Fill` | internal/video/jpeg.go:224-230 | the accumulator holds the next bits of the bytes, most significant first, and more than 56 of them unless the data ends |
| `JpegHuffman.BitAccumulator.Get` | internal/video/jpeg.go:232-241 | the next k bits as a number, or 0 and nothing taken when fewer are left |
| `JpegHuffman.BitAccumulator.DecodeSymbol` | internal/video/jpeg.go:244-253 | the symbol of the first length whose largest code is not below the bits read, zeros past the end; takes the bits of the code, or sixteen without one, as far as there are any |
| `JpegHuffman.DecodersAgree` | internal/video/jpeg.go:244-253 | for every histogram and every input the one-sided range test finds the same symbol and length as the two-sided one |
| `ZigZagOrder.ZigZagThenBack` | internal/video/jpeg.go:20-29 | the zigzag table is inverted by the scan order |
| `ZigZagOrder.BackThenZigZag` | internal/video/jpeg.go:20-29 | and the other way round: both are permutations of 0..63 |
| `ZigZagOrder.ZigZagLaw` | internal/video/jpeg.go:20-29 | the table numbers the positions along the antidiagonals: by the sum of row and column, on even sums from the bottom row up, on odd ones from the top row down |
| `ZigZagOrder.BuildInvZigZag` | internal/video/avocent_dct.go:58-62 | the inversion loop yields the scan order along the antidiagonals, and undoes the zigzag table |
| `Coefficients.TableExtends` | internal/video/avocent_dct.go:47-50 | the `int16` lookup computes EXTEND (section F.2.2.1 of ITU-T T.81) for every size and value |
| `Coefficients.AcRoundTrip` | internal/video/avocent_dct.go:176-211 | the AC loop reads a coded tail of a block back, with pending zeros, sixteen-zero runs and the end-of-block mark |
| `Coefficients.BlockRoundTrip` | internal/video/avocent_dct.go:162-211 | for any coders the tables read back: a coded block followed by anything is read as exactly that block in natural order, leaves its DC coefficient as predictor and consumes exactly its bits |
| `CodeBooks.BuiltBook` | internal/video/avocent_dct.go:22-44 | what `newAvoHuff` builds from a Kraft histogram is a code book |
| `CodeBooks.SymbolRoundTrip` | internal/video/avocent_dct.go:135-145 | the code of a symbol reads back as that symbol |
| `CodeBooks.AmplitudeRoundTrip` | internal/video/avocent_dct.go:148-157 | the amplitude bits of any value (section F.1.2.1 of ITU-T T.81) read back as that value |
| `CodeBooks.AcBuiltReadsBack` | internal/video/avocent_dct.go:179-211 | a table built from a complete AC book reads every run, value, zero run and end of block back |
| `CodeBooks.DcBuiltReadsBack` | internal/video/avocent_dct.go:165-169 | a table built from a complete DC book reads every difference back |
| `StandardTables.BuildTables` | internal/video/avocent_dct.go:72-77 | the four tables of the codec are built from its own histograms and symbols, each in its own place; they cover DC categories 0..11 and AC runs 0..15 with sizes 1..10, end of block and sixteen zeros, and hold no symbol that stalls the AC loop |
| `InverseDct.PassExact` | internal/video/avocent_dct.go:243-278 | on inputs bounded by b <= 1116006 every sum, difference and product of a pass lies in int32, the int32 pass equals the pass over the integers, and outputs are bounded by 36 b + 6 |
| `InverseDct.PassKeepsMean` | internal/video/avocent_dct.go:243-278 | the outputs of a pass add up to eight times its first input, whatever the others |
| `InverseDct.PassReflects` | internal/video/avocent_dct.go:243-278 | even inputs make the symmetric and odd inputs the antisymmetric part of the output |
| `InverseDct.IdctExact` | internal/video/avocent_dct.go:229-312 | with dequantised coefficients of magnitude at most 31000 every intermediate of every column and row lies in int32, and the int32 transform equals the transform over the integers |
| `InverseDct.FlatColumn` | internal/video/avocent_dct.go:235-242 | the general butterfly of a column without AC terms is constant, for every int32 value, wrap-around included |
| `InverseDct.FlatBlock` | internal/video/avocent_dct.go:229-312 | a block with only a DC coefficient comes out flat |
| `InverseDct.ColumnPass` | internal/video/avocent_dct.go:232-277 | the DC-only shortcut returns what the general butterfly would |
| `InverseDct.RowPasses` | internal/video/avocent_dct.go:280-312 | the row pass with its >> 3 |
| `InverseDct.AvoIdctInt` | internal/video/avocent_dct.go:229-312 | both passes together, shortcut included, are the plain two-pass transform, which `Cosines.IdctIsCosine` says is the cosine sum |
| `Cosines.HalfAngles` | internal/video/avocent_dct.go:223-278 | the cosines used are 1 and 0 at the ends and fixed in between by 2 cos(a)^2 = 1 + cos(2 a), up to rounding |
| `Cosines.WeightsAreQuotients` | internal/video/avocent_dct.go:223-278 | the weights of each sample are, to the nearest 256th, cos((2 i + 1) k pi / 16) over the scale factor cos(k pi / 16) of the quantisers |
| `Cosines.PassIsCosine` | internal/video/avocent_dct.go:243-277 | each output of a pass is the sum of all eight inputs, each with the cosine of its own frequency there, to within three units for every input |
| `Cosines.IdctIsCosine` | internal/video/avocent_dct.go:229-312 | the code computes, at every row and column, the sum of all 64 dequantised coefficients with the cosines of their row and column frequencies, to within six grey levels, for every block of coefficients up to 31000 |
| `Entropy.DecodeHuffSymbol` | internal/video/avocent_dct.go:135-145 | refines the pure lookup on the stream; consumes the code, or nothing when there is none |
| `Entropy.DecodeSignedValue` | internal/video/avocent_dct.go:148-157 | returns the amplitude of the next n bits and consumes them |
| `Entropy.DecodeDC` | internal/video/avocent_dct.go:165-173 | the DC predictor after the block, wrapping at int16; no match consumes nothing and keeps it |
| `Entropy.DecodeCoefficient` | internal/video/avocent_dct.go:179-211 | one turn of the AC loop is one token of the pure parser |
| `Entropy.DecodeAC` | internal/video/avocent_dct.go:176-211 | the AC loop ends and refines the pure parser, with coefficients in natural order |
| `Entropy.DecodeDCTBlock` | internal/video/avocent_dct.go:162-220 | the transformed values, the predictor and the bit position of the pure block decoder |
| `Colour.NeutralIsGrey` | internal/video/avocent.go:352-384 | neutral chroma is grey, black at luma 16, white from 236 on, never falling |
| `Colour.CbSteers` | internal/video/avocent.go:379-384 | more Cb: more blue, less green, the same red |
| `Colour.CrSteers` | internal/video/avocent.go:379-384 | more Cr: more red, less green, the same blue |
| `Colour.ArgbIsBT601` | internal/video/avocent.go:352-384 | the channels before clamping are those of BT.601 with studio swing, to within two levels, for every Y, Cb and Cr |
| `Colour.PaletteOrder` | internal/video/avocent.go:386-389 | a cached colour holds Y, Cb and Cr in its lower three bytes, from the top |
| `TileMachine.OpcodeBound` | internal/video/avocent.go:244-256 | every opcode takes at least four bits |
| `TileMachine.OpcodesPerByte` | internal/video/avocent.go:244-294 | a body of n bytes holds at most 2 n opcodes |
| `Framebuffers.Framebuffer.Put` | internal/video/avocent_dct.go:400-413 | a pixel write outside the W x H screen is dropped, any other sets exactly that pixel |
| `Framebuffers.PaintMcu` | internal/video/avocent_dct.go:398-443 | the loop paints exactly the clipped square, each pixel with the colour of its luma and shared chroma sample |
| `Framebuffers.PaintSamples` | internal/video/avocent.go:442-453 | the 8x8 palette loop paints exactly the clipped square |
| `Framebuffers.PaintQuads` | internal/video/avocent.go:422-440 | the 16x16 palette loop paints exactly the clipped square, a sample for each 2x2 pixels |
| `AvocentDecoders.AvocentDecoder.constructor` | internal/video/avocent.go:90-95 | mode 0, 8-pixel blocks, empty palette, table 7 for both quantisers |
| `AvocentDecoders.AvocentDecoder.DecodeLuma` | internal/video/avocent_dct.go:419-423 | the luma blocks in order, the predictor carried from one to the next |
| `AvocentDecoders.AvocentDecoder.DispatchDCT` | internal/video/avocent_dct.go:387-444 | decodes and paints one MCU as the interpreter does, in both modes |
| `AvocentDecoders.AvocentDecoder.ReadSamples` | internal/video/avocent.go:402-414 | the 64 selectors of a palette block, for 0, 1 or 2 bits each |
| `AvocentDecoders.AvocentDecoder.PaintPaletteBlock` | internal/video/avocent.go:398-453 | reads and paints one palette block as the interpreter does |
| `AvocentDecoders.AvocentDecoder.RefreshPalette` | internal/video/avocent.go:332-344 | refreshes the slots in order, each with an optional colour |
| `AvocentDecoders.AvocentDecoder.OpPaletteRefresh` | internal/video/avocent.go:324-347 | position or not, refresh, then paint |
| `AvocentDecoders.AvocentDecoder.AdvancePos` | internal/video/avocent.go:301-319 | the next cell of the tile grid, with the fallback to the screen size |
| `AvocentDecoders.AvocentDecoder.DecodeOp` | internal/video/avocent.go:256-290 | each opcode does what the interpreter says |
| `AvocentDecoders.AvocentDecoder.DecodeBody` | internal/video/avocent.go:226-294 | the opcode loop is the pure interpreter run over one infinite bit sequence, carrying palette, predictors, position and pixels; at most two opcodes a byte; it returns the bytes loaded, all whole words when the bits ran out |
| `AvocentDecoders.AvocentDecoder.SetMode` | internal/video/avocent.go:103-132 | block size by mode; quantiser 7 - v for v up to 7, else table 7 |
| `AvocentDecoders.AvocentDecoder.DecodePacket` | internal/video/avocent.go:164-213 | short packets change nothing; a body without a whole word only sets the mode; otherwise the packet is the run of the interpreter over its whole words, from the tile its header names |
| `Raster.OpcodeIsBlockStep` | internal/video/avocent.go:256-292 | every block opcode, DCT or palette, in both modes, paints the cell of its position, or without one the next, and the position moves on from there |
| `Raster.RasterPosition` | internal/video/avocent.go:301-319 | from the first cell on, the t-th such block stands at (t mod C, (t/C) mod R) |
| `Raster.CoversItsCell` | internal/video/avocent_dct.go:398-443 | a block covers exactly the pixels of its own cell |
| `Raster.SweepFromOrigin` | internal/video/avocent.go:301-319 | from the first cell on, block t paints cell t |
| `Raster.SweepPaintsTile` | internal/video/avocent.go:301-319 | C * R consecutive blocks, from any cell on, paint every pixel of the aligned tile exactly once, with the colour its own block gives it, and touch no other pixel |
| `Raster.StrokesDraw` | internal/video/avocent.go:256-319 | blocks in any places leave in each pixel what the last of them over it shows, and elsewhere what was there |
| `Pictures.McuRoundTrip` | internal/video/avocent_dct.go:387-425 | a coded MCU, with a position or without, is read as its opcode, its place and its own planes, and exactly its bits are consumed |
| `Pictures.CellRoundTrip` | internal/video/avocent.go:256-292 | a coded block of either kind, with a position or without, is one step that paints it in its place, moves past exactly its bits, and leaves its predictors and cached colours to the next |
| `Pictures.McuShowsImage` | internal/video/avocent_dct.go:401-443 | an MCU whose luma planes are cut from an image, in quadrants or whole, shows that image, with the chroma sample of its own pixel or 2x2 pixels |
| `Pictures.PaletteShowsPicture` | internal/video/avocent.go:422-453 | a palette block whose samples are a picture, row by row, shows that picture, in the 16x16 mode with 2x2 pixels a sample |
| `PaletteTiles.PatchStep` | internal/video/avocent.go:256-347 | a coded palette block of one, two or four slots, or of the cache as it is, opcodes 4 to 7 and 12 to 15, paints the colours its samples pick, leaves the cache as its slots say and consumes exactly its bits |
| `PaletteTiles.LeadOpcode` | internal/video/avocent.go:256-290 | a header is read as its opcode, eight more with a position, and a position puts the block at that column and row |
| `PaletteTiles.SlotsRoundTrip` | internal/video/avocent.go:333-344 | coded slots are read into the cache: a colour under its own number, or a number whose colour is still there |
| `PaletteTiles.FreshShows` | internal/video/avocent.go:277-288 | a block that brings its one, two or four colours shows exactly those, whatever the cache held, in 31, 122 or 240 bits |
| `Pictures.TileRoundTrip` | internal/video/avocent.go:244-294 | running the interpreter over coded blocks paints each in its place and stops at the end opcode; blocks without positions are a sweep |
| `PacketCodec.BaselineIsCodable` | internal/video/avocent_dct.go:162-211 | every baseline block (AC categories up to 10, DC difference category up to 11) can be coded |
| `PacketCodec.ChannelInverts` | internal/video/avocent_dct.go:162-220 | a channel's decoder inverts its coder on every stream |
| `PacketCodec.BookIsUsable` | internal/video/avocent_dct.go:178-211 | no lookup in the built tables ever returns a DC size above 15 or a stalling AC symbol |
| `PacketCodec.BuildCodec` | internal/video/avocent_dct.go:58-77 | the tables and scan order the codec is built with meet every assumption of the theorems, luma and chroma in their own places, the scan order along the antidiagonals |
| `PacketCodec.PacketRoundTrip` | internal/video/avocent.go:164-294 | any DCT and palette blocks, with positions or without, coded with those tables and packed into a body, leave in every pixel what the last block over it shows; without positions and as many as the tile has cells, every pixel of the tile shows its own cell and every other pixel stays; one opcode a block and the end are looked at |
| `PacketCodec.DecodeTilePacket` | internal/video/avocent.go:164-294 | the same on bytes and the framebuffer, through `DecodePacket`, with the colours that earlier packets have left in the cache |
| `PacketCodec.HeaderRoundTrip` | internal/video/avocent.go:147-189 | a header is read as its layout says: mode, 12-bit origin, size and quantiser nibbles |
| `PacketCodec.PacketBody` | internal/video/avocent.go:196-202 | a header and a packed tile are a packet with that body |
| `CursorDecoder.ReadRunLength` | internal/video/decoder.go:316-330 | the run length is the base-32 number of the opcode and its continuation bytes, least significant digit first, at most five digits |
| `CursorDecoder.RunRoundTrip` | internal/video/decoder.go:316-330 | a run length written in base-32 digits is that run length |
| `CursorDecoder.CopyEqualsAbove` | internal/video/decoder.go:70-86 | every pixel of a COPY run equals the one W before it in the finished picture, also when the run overlaps itself |
| `CursorDecoder.CopyIsPeriodic` | internal/video/decoder.go:70-86 | so the run repeats the W pixels before it with period W |
| `CursorDecoder.PutPixel` | internal/video/decoder.go:59-66 | one pixel, at the start of the screen when the cursor is at its end |
| `CursorDecoder.CopyFromPrev` | internal/video/decoder.go:70-86 | COPY as a whole: cursor, pixels, and nothing at all when the cursor is in the first line |
| `CursorDecoder.RepeatColor` | internal/video/decoder.go:89-102 | the run, clipped at the end of the screen |
| `CursorDecoder.WritePixels` | internal/video/decoder.go:105-115 | the pixels, clipped at the end of the screen |
| `CursorDecoder.FindOther` | internal/video/decoder.go:252-264 | the most recent differing colour within one line, or the last colour |
| `CursorDecoder.DrawPattern` | internal/video/decoder.go:249-295 | the pattern opcode with its continuation bytes |
| `CursorDecoder.Step` | internal/video/decoder.go:223-310 | every opcode byte has a meaning; the cursor stays in [0, length]; a step fails exactly at a colour that is cut short, and panics exactly at a complete colour on a screen without pixels |
| `CursorDecoder.Interpret` | internal/video/decoder.go:221-313 | a stream is consumed to its end unless its last colour is cut short; no other error exists |
| `CursorDecoder.Decode` | internal/video/decoder.go:221-313 | the loop over the real buffer is that interpreter, for every stream |
| `CursorStreams.ItemReads` | internal/video/decoder.go:221-313 | a step on the bytes of a written item, whatever may follow it, takes exactly those bytes and does what the item means: skip, repeat the last pixel, copy the line above, a pattern, or a colour |
| `CursorStreams.PatternReads` | internal/video/decoder.go:249-295 | a pattern of four choices and any groups of seven writes exactly those choices in order, highest bit first, each the last colour or the other one |
| `CursorStreams.OtherIsNearest` | internal/video/decoder.go:252-264 | the other colour of a pattern is the nearest pixel within one line that differs from the last, or the last |
| `CursorStreams.StreamReads` | internal/video/decoder.go:221-313 | a written stream is interpreted item by item, to its end |
| `Fragments.Bridge.HandleVideoFrame` | cmd/beefkvm/main.go:715-736 | one fragment: start, continuation or orphan, as the state machine says |
| `Fragments.Bridge.TeardownSession` | cmd/beefkvm/main.go:444-448 | a teardown drops the pending packet |
| `Fragments.StreamIsGrouped` | cmd/beefkvm/main.go:718-736 | decoded packets plus the pending one are the batch grouping: each start with all continuation bodies that follow it, orphans alone |
| `Fragments.BodiesKept` | cmd/beefkvm/main.go:718-736 | grouping uses every body byte exactly once, in order |
| `Fragments.CutsRejoin` | cmd/beefkvm/main.go:718-736 | packets cut into fragments whose byte 8 is odd in the first and even in the others are joined to those packets |
| `Fragments.TeardownBytes` | cmd/beefkvm/main.go:718-736 | over a teardown every body byte is decoded or dropped with the packet left open, once and in order |
| `Fragments.SessionsAreGrouped` | cmd/beefkvm/main.go:718-736 | over sessions in a row only the packets left open at a teardown are missing from the grouping |
| `Fragments.InputsAreGrouped` | cmd/beefkvm/main.go:715-736 | for every sequence of fragments, short payloads and teardowns: decoded plus pending packets are the grouping of its sessions, less the packets left open at a teardown |
| `RunLength.Expander.RleExpand` | internal/video/avocent2_tile.go:111-211 | the two-index loop with its regrown buffer computes the pure expansion: the text, or the error |
| `RunLength.ExpandRoundTrip` | internal/video/avocent2_tile.go:135-211 | coded literals, escapes, triples and runs expand to their text exactly if every code but a run ends within the buffer, and otherwise overflow; nothing else can happen |
| `RunLength.ShortTextFits` | internal/video/avocent2_tile.go:116-122 | a text no longer than the first buffer always expands |
| `RunLength.WithoutRunsRestored` | internal/video/avocent2_tile.go:111-211 | streams without runs are always restored |
| `RunLength.FullRunsOverflow` | internal/video/avocent2_tile.go:202-204 | thirteen bytes, four full runs and a literal, that overflow the smallest buffer |
| `SolReceive.NextKeeps` | internal/ipmi/sol.go:112-136 | the protocol invariant: at most one chunk ahead, links hold only packets of the current and the previous chunk, in order |
| `SolReceive.DeliveredIsPrefix` | internal/ipmi/sol.go:112-136 | in every reachable state, against a stop-and-wait sender over lossy, duplicating FIFO links, the delivered chunks are a prefix of those sent, at most one ahead of the acknowledged ones |
| `SolReceive.NeverStuck` | internal/ipmi/sol.go:112-136 | from every reachable state with a chunk left, some continuation gets it acknowledged |
| `SolReceive.LateCopy` | internal/ipmi/sol.go:123-129 | in every reachable state a late copy of a delivered chunk is left alone exactly if it is a multiple of 15 chunks older than the last one delivered, and delivered again otherwise |
| `SolReceive.ReorderingRepeats` | internal/ipmi/sol.go:123-129 | a run on a link that reorders, in which a late copy is delivered again |
| `SolSession.SOL.Handle` | internal/ipmi/sol.go:108-136 | one datagram: data delivered once per sequence number, each data packet acknowledged with its length capped at 255, acknowledgements counted and queued up to 16; on the sending side nothing, or an acknowledgement step of the numbering model |
| `SolSession.PacketRoundTrip` | internal/ipmi/sol.go:174-180 | the four header bytes are number, acknowledged number, count and 0, and a packet with four-bit numbers is read as it was sent |
| `SolSession.SOL.SendPacket` | internal/ipmi/sol.go:174-189 | one datagram with the next session number: a send of the numbering model |
| `SolSession.SOL.SendData` | internal/ipmi/sol.go:169-189 | a writer sends the packet whose number it took: a step of the numbering model |
| `SolSession.SOL.Write` | internal/ipmi/sol.go:157-170 | nothing for no data; otherwise one datagram, and in the numbering model a number taken and sent |
| `SolSession.SOL.TakeNumber` | internal/ipmi/sol.go:161-167 | the next number in 1..15, never 0: a step of the numbering model |
| `SolSession.SOL.Keepalive` | internal/ipmi/sol.go:142-152 | an empty datagram with the next session number: a step of the numbering model |
| `SolSession.SessionNumbersCount` | internal/ipmi/sol.go:157-189 | under every interleaving of writers, acknowledgements and keepalives session numbers on the wire go up by one, and data packets are numbered at most 15 |
| `SolSession.DataNumbersCycle` | internal/ipmi/sol.go:157-170 | with one writer the data packets on the wire are numbered 1, 2, ..., 15, 1, ... |
| `SolSession.Session.Roundtrip` | internal/ipmi/session.go:232-262 | at most three attempts, each the same datagram; the first reply that can be read |
| `SolSession.Session.RawCall` | internal/ipmi/session.go:267-285 | a fresh request number modulo 64 and a fresh session number, kept through the retries |
| `SdrWalk.PageIff` | internal/ipmi/sdr.go:154-171 | a page holds the bytes that come next exactly if its offset is below 256 or the bytes 256 earlier happen to be the same |
| `SdrWalk.PageContinues` | internal/ipmi/sdr.go:152-171 | the right page continues the part already read, to the whole record or a longer part |
| `SdrWalk.RequestKeeps` | internal/ipmi/sdr.go:142-212 | every request, served at an offset below 256 or cancelled, keeps the walk reading one record from one version, and only a bare cancellation or a header cut short ends it |
| `SdrWalk.ScanExact` | internal/ipmi/sdr.go:177-212 | under any finite pattern of cancellations, as long as no page is served at an offset above 255, the walk returns sensor records in list order, each whole from one version of the repository; it returns all of them unless it gives up, which happens exactly if during the walk a cancellation reply has fewer than three bytes or a header fewer than five |
| `SdrWalk.SteadyIsEarly` | internal/ipmi/sdr.go:154-171 | with full pages no page is ever served above offset 255, whatever the length of the records, nor with any pages when records have at most 256 bytes |
| `SdrWalk.OneRecordExactly` | internal/ipmi/sdr.go:142-173 | a sensor record served in pages of any sizes comes out right exactly if no page from offset 256 on brings other bytes than the record has there |
| `SdrWalk.BareCancellationEnds` | internal/ipmi/sdr.go:129-134 | a bare 0xC5 reply ends the walk with nothing read |
| `SdrWalk.ShortPagesWrap` | internal/ipmi/sdr.go:154-171 | a 260-byte record read seven bytes at a time ends in a copy of its own bytes 1 to 3 |
| `SdrWalk.GetSDR` | internal/ipmi/sdr.go:119-137 | served, a request brings the bytes at its offset and the next id; a cancellation is recognised exactly if its reply has three bytes; without a live reservation, or for an unknown record, the error names no code |
| `SdrWalk.GetSDRRecord` | internal/ipmi/sdr.go:142-173 | the page loop is the walk up to the end of the record, a cancellation, or an error |
| `SdrWalk.ParseSDR` | internal/ipmi/sdr.go:216-240 | a record is kept by its type and the length of its body |
| `SdrWalk.ScanSensors` | internal/ipmi/sdr.go:177-212 | the loop with its re-reservation is the walk, for every schedule |
| `SelWalk.GetSELEntry` | internal/ipmi/sel.go:76-95 | one request: any cancellation reply, however short, is recognised |
| `SelWalk.ScanSEL` | internal/ipmi/sel.go:99-130 | however often the reservation is cancelled: the first min(limit, n) entries, or all n without a limit |
| `SelWalk.SelPage` | cmd/beefkvm/ipmi_handlers.go:364-376 | the page at an offset is that slice of the log |
| `SelWalk.PagesPartition` | cmd/beefkvm/ipmi_handlers.go:364-376 | consecutive pages hold the log in order, each entry once, and enough pages hold all of it |
| `Rmcp.StripPad` | internal/ipmi/crypto.go:23-35 | padding any plaintext gives whole blocks that strip back to it |
| `Rmcp.PadStrip` | internal/ipmi/crypto.go:58-68 | any accepted buffer is exactly the padding of what is returned |
| `Rmcp.PadLayout` | internal/ipmi/crypto.go:23-35 | the padding is 1, 2, 3 and so on up to whole blocks, its length last |
| `Rmcp.AesEncryptPayload` | internal/ipmi/crypto.go:23-44 | encrypts the padded plaintext |
| `Rmcp.AesDecryptPayload` | internal/ipmi/crypto.go:48-69 | refuses unaligned or empty input and malformed padding, else the stripped plaintext |
| `Rmcp.EqualBytes` | internal/ipmi/rmcp.go:223-232 | the or of exclusive-ors is zero exactly for equal strings |
| `Rmcp.BuildRMCPPlus` | internal/ipmi/rmcp.go:86-143 | the envelope in all four modes, with its trailer |
| `Rmcp.ParseRMCPPlus` | internal/ipmi/rmcp.go:150-218 | the parser, check by check |
| `Rmcp.Signed` | internal/ipmi/rmcp.go:112-140 | the integrity range is a multiple of four bytes |
| `Rmcp.EnvelopeLayout` | internal/ipmi/rmcp.go:86-143 | a built packet byte by byte: header fields least significant byte first, vector and padded ciphertext or the payload, pad bytes 0xFF with their number, the next header 7, and the code over everything after the message class |
| `Rmcp.SealedAtEnd` | internal/ipmi/rmcp.go:180-203 | the trailer read from the packet's end is accepted exactly where the payload ends |
| `Rmcp.EnvelopeRoundTrip` | internal/ipmi/rmcp.go:86-218 | plain, authenticated, encrypted or both: the parser returns what was built exactly if the body fits the 16-bit length |
| `Rmcp.SealedIsExact` | internal/ipmi/rmcp.go:180-203 | a packet built with an integrity code is parsed as what was built or refused, never as anything else |
| `Rmcp.UnsealedAccepted` | internal/ipmi/rmcp.go:147-180 | a packet built without an integrity code is accepted by a session with an integrity key, whatever the key |
| `Rmcp.SealedOnlyIfMarked` | internal/ipmi/rmcp.go:161-203 | the key matters exactly for packets whose own authentication bit is set: with a matching code at the end of the payload those are parsed as the same packet without the bit, and otherwise, or without a key, refused; all others are parsed as if there were no key |
| `LanMessage.IpmiChecksum` | internal/ipmi/rmcp.go:275-281 | the byte with which the bytes add up to a multiple of 256 |
| `LanMessage.BuildLANMessage` | internal/ipmi/rmcp.go:237-248 | two checksummed halves, read by the BMC as in `RequestRead` |
| `LanMessage.RequestRead` | internal/ipmi/rmcp.go:237-248 | the addresses, the function and the request number in the upper six bits of bytes 1 and 4 with unit 0 below, the command and its data, and both halves adding up to a multiple of 256 |
| `LanMessage.ParseLANResponse` | internal/ipmi/rmcp.go:253-271 | accepts exactly messages of at least eight bytes whose halves both sum to zero |
| `LanMessage.LanRoundTrip` | internal/ipmi/rmcp.go:237-271 | a built message is read back exactly if it has a data byte and its function number fits six bits |
| `LanMessage.CorruptionDetected` | internal/ipmi/rmcp.go:258-265 | a message with any one byte changed is refused |
| `Frames.FrameRoundTrip` | internal/apcp/frame.go:219-249 | a frame in a stream is read back, and the stream stands after it, exactly if its length fits 32 bits |
| `Frames.StreamRoundTrip` | internal/apcp/frame.go:219-249 | any sequence of frames is read back whole, then a clean end |
| `Frames.CleanEndIff` | internal/apcp/frame.go:231-249 | a clean end is reported exactly at the end of the stream or right after a header that announces a payload |
| `Frames.FrameLayout` | internal/apcp/frame.go:219-229 | a frame is the letters AVMP, the length of the whole frame and the kind most significant byte first, and the payload |
| `VirtualMedia.Session.RespondVdiskRead` | internal/vm/vm.go:286-324 | chunks of the blocking factor from a reused buffer, then a status; an error without a disk; with factor 0 empty chunks until the connection fails |
| `VirtualMedia.Session.RespondVdiskWrite` | internal/vm/vm.go:327-365 | refused, in error, or written, with the status for each |
| `VirtualMedia.Session.Handle` | internal/vm/vm.go:240-252 | dispatches a sector request to its handler; the session ends exactly at a read without its fixed part, or one that stalls |
| `VirtualMedia.Session.RunFrames` | internal/vm/vm.go:228-238 | the request loop is the run of the drive: its final state, and the replies to each request up to the end, joined |
| `VirtualMedia.RequestRoundTrip` | internal/vm/vm.go:290-297 | a request is read as it was written, whatever data follows |
| `VirtualMedia.DataFrameFields` | internal/vm/vm.go:477-484 | a data frame carries its disk, first block, number of blocks and data |
| `VirtualMedia.StatusFrameFields` | internal/vm/vm.go:486-492 | a status frame carries its disk and its status |
| `VirtualMedia.RequestFields` | internal/vm/vm.go:290-297 | where the fields of a request lie, most significant byte first |
| `BlockArray.ReadsTile` | internal/vm/vm.go:300-323 | inside the file the data replies tile the range in order, whatever the buffer held |
| `BlockArray.ReadsTileIff` | internal/vm/vm.go:300-323 | the data replies of a read tile the requested range exactly if the range lies inside the file |
| `BlockArray.ChunkCarries` | internal/vm/vm.go:302-321 | what every chunk carries: each byte is the byte of the file at its place, and past the end of the file the byte at the same place of the chunk before, or of the fresh buffer |
| `VirtualMedia.LoopEndsIff` | internal/vm/vm.go:303-322 | the chunk loop ends exactly if the range is empty or the blocking factor positive |
| `BlockArray.TilesJoin` | internal/vm/vm.go:305-323 | the chunks of a read, joined, are the requested blocks |
| `BlockArray.WriteReplaces` | internal/vm/vm.go:344-362 | a write replaces exactly its blocks |
| `BlockArray.SessionIsBlockArray` | internal/vm/vm.go:240-365 | over any run of requests inside the image the session, as `RunFrames` runs it, has the blocks and the replies of a block array |
| `BlockArray.LastWriteWins` | internal/vm/vm.go:327-365 | every block holds what was last written to it |
| `BlockArray.ReadOnlyKeeps` | internal/vm/vm.go:334-336 | a read-only image never changes, whatever is requested |
| `BlockArray.CountersAgree` | internal/vm/vm.go:305-363 | the counters are the bytes sent and the bytes accepted, over any run |
| `BlockArray.StaleBlock` | internal/vm/vm.go:302-318 | an input for it: reading two sectors of a one-sector image one at a time sends the first sector twice |
| `Endian.LeRoundTrip` | internal/ipmi/rmcp.go:112-117 | a number written in n bytes is read back modulo their range |
| `Endian.BeRoundTrip` | internal/apcp/frame.go:222-224 | the same, most significant byte first |
| `Endian.LittleFirst` | internal/ipmi/rmcp.go:112-117 | what two and four bytes stand for, least significant byte first |
| `Endian.BigFirst` | internal/apcp/frame.go:222-224 | the same, most significant byte first |

## Left out

- TLS, sockets, deadlines, backoff sleeps and the RAKP exchange: input and output, and a peer outside the repository.
- Web UI, HTTP and WebSocket handlers, token gate, session supervision and reconnect: plumbing, except for the page of the log.
- PC/SC and the smart-card relay, capture logging, input encoders, login and session-setup frames: fixed layouts.
- `SetMode`'s `forceY`/`forceC`, the opcode trail, hooks and `dctStubMode`: debugging switches, off in production.
- Big-endian body words (`BitOrderLE` false): the switch is set to little-endian and never changed.
- Float code: the quantiser tables and their scaling, `idct2D`, `avoIDCT2D`, `renderMCU`, sensor linearisation.
- The coefficient order and renderer of `JPEGDecoder`: superseded; only its Huffman tables and bit reader are modelled.
- `AvocentV2` apart from `rleExpand`: constructed and not called.
- Fields of sensor records and log entries, and the name tables: finite lookups; a record counts as a sensor by its type and length.
- Colours of the cursor decoder's four bit depths: a colour is any function of its opcode byte and the 0, 1 or 2 bytes after it.
- Other virtual-media requests (disk information, alternate table of contents, release, disconnect, smart card): fixed replies that leave the image alone.
- File input and output errors in virtual media, and transport errors of IPMI requests other than those of `Roundtrip`.
- VirtualMedia.Session.RespondVdiskRead: with blocking factor 0 the loop of the code never ends by itself (`VirtualMedia.LoopEndsIff`); how many empty chunks are sent before the connection fails is a parameter.
- JpegHuffman.BitAccumulator.Get: requires at most 32 bits, what the result of the code can hold; its callers ask for one bit or the size of a coefficient.
- RunLength.Expander.RleExpand: requires that the data length is within the source buffer, and does not model a missing source buffer.
- CursorDecoder.Decode: requires a cursor on the screen or just past it, where resizing, the tile handler and every operation leave it.
- SdrWalk.ScanSensors: the BMC keeps its list of record ids while it changes their contents; ids that change during a walk are not modelled.
- SolSession.Session.RawCall: the request message is a function of the request number, and the parsed reply is the payload; the message itself is in `LanMessage`.
