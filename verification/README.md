# HX-421 verification model

HX-421 is an integer-only C library for a SNES cartridge co-processor. It scrolls maps whose tilemap is a
cache in video RAM, streams double-buffered video, keeps sound objects in a block pool and plays them as
voices, resamples audio, admits actors to sprite slots, feeds audio rings from SD, and rasterises triangles
into tiles. This project models those parts in Dafny and proves what each one is for. Everything is stated
for all inputs, all states or all runs. `dafny verify dfyconfig.toml` checks the whole project.

Code that changes state step by step is modelled as classes and methods with loops, each proved against
functions on values; what the system promises is then proved about those functions and about whole runs.
The functions and lemmas of a part live in one module and its methods in the next:

| part | specification and lemmas | methods |
|---|---|---|
| scrolling map | `Vram`, `Window`, `MapSeams`, `MapRuns`, `MapScreen` | `Metatile`, `MapEngine` |
| overlapped double buffer | `Fmv`, `FmvFrames` | `FmvEngine` |
| free map, sound pool, voices | `Popcounts`, `PoolChains`, `Voices` | `Bitsets`, `AudioPool`, `PoolRuns`, `VoiceArbiter` |
| resampler and clock feedback | `Resampler`, `LoopResampler`, `InterpKernels` | `Rings`, `MixerChannels`, `ChannelRuns`, `DriftSync` |
| actor admission | `Counting`, `Admission`, `AdmissionPicture` | `AdmissionModel` |
| stream arbiter and media service | `Streams`, `StreamUrgency`, `StreamPriming`, `MediaSlots` | `StreamArbiter`, `MediaService` |
| rasteriser and frame compiler | `RasterGeometry`, `RasterWidths`, `FrameExactness` | `TileRaster`, `TilePack`, `FrameCompiler` |
| mask derivation and collision | `MaskWords` | `MaskDerive`, `MaskOverlap` |
| audio ring, bitstream packer | `AudioRing` | `AudioRingStream`, `RlePack` |

## How the parts are modelled

- **Video RAM** is a sequence of 16-bit words. An emitted DMA body is a list of transfers: window offset,
  length, target word, step 1 or 32. `Window.Resolved` turns it into the strips the console writes. A map body
  is kept as three such lists, by target: register writes, VRAM transfers, palette transfers.
- **The world** of a map layer is a function from tile coordinates, of either sign, to a tilemap entry.
  A layer is *coherent* when cell (c mod 64, r mod 32) of its tilemap holds tile (c, r) for every (c, r) of
  its 64x32 window.
- **A pool object** is seen by its clients as a `Live` value: generation, references and one flat byte
  sequence, whatever blocks its chain runs through.
- **Interpolation kernels** and the conversion of raw frames are arbitrary functions in the resampler; `InterpKernels`
  has the two kernels in their own 32-bit arithmetic, an overflowing product taken as two's complement.
- **The streaming mixer** is a schedule, any function from ticks to how much each reader would have read;
  the readers may move between any two platform calls. Offloads may be refused at any tick. A start or a seek
  moves the writer to the ring's base wherever the reader stands; what the reader comes by before that is stale.
- **The audio ring** between two threads is a state machine whose steps are the single loads, frame copies
  and stores of either thread, in any interleaving. The two calls themselves are methods, each shown to be a
  run of those steps.
- **64-bit mask rows** are `bv64` values. A shift by d places is d shifts by one place.

## What turned out conditional

Some expectations hold under a condition the code does not check. Each is stated exactly, as an
if-and-only-if over all inputs unless it says otherwise.

- The tap window follows the source exactly when the step is at most 3 frames (cubic) or 2 (linear);
  `Resampler.StepLimitIsExact`. A looping channel, which keeps the frame behind it, follows up to 4 and 2;
  `LoopResampler.LoopStepLimitIsExact`.
- A run of samples and pushes, in any order, loses no frame exactly when no push finds the ring full, and then it
  is the source resampled; `ChannelRuns.RunIsResampling`.
- The priming loop ends exactly when every wanted stream can become ready (`StreamArbiter.StreamArb.Prime`,
  `StreamArbiter.StreamArb.NeverReady`), which is settled before it starts: a stream's head must be no more than
  the fill it ends up with. For a fresh stream nobody holds up that is the whole frames of its target and, for a
  one-shot stream, its data (`StreamPriming.FreshReadyIff`). So a high-water mark that is not a whole number
  of frames is harmless for a small enough head, and otherwise stalls the loop. Such a mark also lets one stream
  hold up others for good: the one whose scores on its way to being full stay highest
  (`StreamPriming.ServedKeepsEnds`), which without overflow is the one of the highest priority
  (`StreamPriming.LowIsTheResidue`). `StreamPriming.OddMarkBlocksOthers` shows one held up,
  `StreamPriming.OverflowStarves` an empty ring held up by its own overflowing score. Under a mark of whole frames
  nobody is, whatever overflows (`StreamPriming.EvenMarkHasNoBar`).
- The comment on seeking calls the restart of the ring exact at starts and loop boundaries and close enough
  elsewhere, but the slot does not always come back: with the muted reader standing still, a sought stream can
  become ready exactly when the reader stands at the ring's base or past the ring's first
  chunk (and, for a one-shot stream, its head fits), because what is stale ahead of the reader counts as full;
  `StreamArbiter.StreamArb.BegunChance`. Otherwise the slot stays mute for good; `MediaService.Media.SeekStalls`.
- With two or more streams in want the scan finds a truly most urgent one, whatever the fills, exactly when no
  target times priority overflows 32 bits; `StreamUrgency.UrgencyIff`.
- The 32-bit fill arithmetic is exact for rings of at most 2^31 bytes and no larger ones; `Streams.FillExactIff`.
- The pool's rounding of a size wraps for sizes above 2^32 - block size, and such an object gets one block;
  `AudioPool.NeedIsCeilIff`, `AudioPool.BytesAreTheSizeIff`.
- After a frame a layer is stale exactly when it needed a reseed and so did a layer in front of it
  (`MapRuns.StaleIff`), and the field is revealed exactly when at most one layer needed one (`MapRuns.RevealedIff`).
  A stale layer starves exactly as long as some layer in front of it needs a reseed in every frame
  (`MapRuns.StarvedIff`); from every boot there are runs of any length in which one does
  (`MapRuns.RacingFrontStarvesBack`).
- Band 3 of a video frame does overwrite the displayed buffer's 13 contested tiles
  (`Fmv.LastBandOverwritesTheFront`); it flips in the same burst, so they are never shown.
- A compiled frame shows the rasterised picture exactly when no more than 750 of its tiles are mixed
  (`FrameExactness.ShownIff`), and on a screen every triangle list is shown as rasterised exactly when the screen
  has no more than 750 tiles (`FrameExactness.ScreenSizeIff`).
- A map layer's tilemap register names its tilemap exactly when that lies on a 1024-word boundary;
  `MapScreen.ScNamesTheMapIff`.
- The rasteriser's 32-bit and 64-bit arithmetic is exact for triangles within 2^22 of the corner, 16384 pixels
  (`RasterWidths.CloseFits`, `RasterWidths.CloseDepthIsExact`); at 2^23 a covered pixel can come out at depth 0
  that should be almost as far as can be (`RasterWidths.DistantWraps`).
- The comment on smoothing has a steady drift end with the correction equal to it. Cut off toward zero, the filter
  stops short: the drift is ever met exactly if and only if the correction started there or the smoothing is full
  and the clamp allows it (`DriftSync.MeetsTheDriftIff`). It does come to rest
  (`DriftSync.ComesToRest`), where error times smoothing is less than one unit or the clamp holds it, and never
  overshoots (`DriftSync.DrawnIs`).
- The cubic kernel computes its spline, for all taps of a level and all fractions, exactly when the level is at most
  5461, a sixth of the range; louder taps overflow a 32-bit product and can come out at full scale on the wrong side
  (`InterpKernels.CubicExactIff`). The linear kernel's product overflows too, but the cast back to 16 bits
  always takes the overflow back (`InterpKernels.LinearIs`).
- Sampling at pixel centres is said to keep shared edges from double-covering or leaving gaps. There are no
  gaps (`RasterGeometry.NoGap`), but of two front-facing triangles that share an edge a point is covered twice exactly when
  it lies on the edge (`RasterGeometry.CoveredTwiceIff`), as the pixels on a tile's diagonal do
  (`RasterGeometry.DiagonalCoveredTwice`).
- A contact point is stored truly exactly when its coordinates fit 16 bits; `MaskOverlap.Int16Exact`.
- The wrap of the source cursor before a run is sized never does anything: every refill has already wrapped it.

## Model

| member | source | states |
|---|---|---|
| Metatile.TransposedAgrees | runtime/hx421_metatile.c:36-57 | the column-major copy of the map and the row-major one give the same tile at every coordinate, negative and wrapped ones included |
| Metatile.TorusPeriod | runtime/hx421_metatile.c:36-57 | a wrapping map repeats with its own width and height in tiles, in both directions |
| Metatile.TileIs | runtime/hx421_metatile.c:36-57 | WHICH TILE IT IS: tile (sx, sy) of the metatile at (mx, my), on every lap of a wrapping map, is defs[rows[my * w + mx] * side^2 + sy * side + sx], and out of bounds for a metatile without a definition |
| Metatile.OffTheMap | runtime/hx421_metatile.c:40-47 | off a map that does not wrap every tile is out of bounds |
| Metatile.TileIsUnique | runtime/hx421_metatile.c:36-57 | each coordinate has exactly one tile by these rules, so they say what Column and Row write |
| Metatile.Transpose | runtime/hx421_metatile.c:89-95 | the copy it builds is the transpose the column fetch relies on |
| Metatile.Column | runtime/hx421_metatile.c:59-66 | entry i is the tile at (tx, ty0 + i) by the rules of the map itself, nothing past the count is written, an invalid layer writes nothing |
| Metatile.Row | runtime/hx421_metatile.c:68-75 | entry i is the tile at (tx0 + i, ty) by the rules of the map itself, nothing past the count is written, an invalid layer writes nothing |
| Vram.BurstLands | runtime/hx421_runtime.c:163-182 | which word of a stepped DMA lands at each VRAM address, and that every other word is untouched |
| Vram.TmWordIsCell | runtime/hx421_runtime.c:230-236 | for a 64x32 map the address helper is a bijective cell address inside the layer's two screens |
| Vram.ColumnBurst | runtime/hx421_runtime.c:499-503 | one stride-32 DMA from the top cell of a column replaces exactly that column of the 64x32 tilemap |
| Vram.ScreenBurst | runtime/hx421_runtime.c:519-522 | one plain DMA into one 32-wide screen replaces exactly the rows it covers in that half |
| Vram.CellInverse | runtime/hx421_runtime.c:230-236 | the cell of an address and the address of a cell are inverse |
| MapSeams.ColumnSlides | runtime/hx421_runtime.c:493-506 | writing the one entering column keeps every cached column but the one leaving on the other side |
| MapSeams.RowExtends | runtime/hx421_runtime.c:510-525 | writing one entering row extends the band of cached rows by it |
| MapSeams.ColumnsSlide | runtime/hx421_runtime.c:493-506 | the whole column loop slides the cached window by any number of columns either way, and touches no other layer |
| MapSeams.RowsExtend | runtime/hx421_runtime.c:508-525 | the whole row loop extends the cached band, each row in two transfers |
| MapSeams.SeedCaches | runtime/hx421_runtime.c:429-450 | a reseed caches the whole window, whatever was in VRAM before |
| MapSeams.SeamMoveKeepsCoherence | runtime/hx421_runtime.c:488-526 | a move within the seam limits leaves the layer coherent for the new window |
| MapSeams.ReseedKeepsCoherence | runtime/hx421_runtime.c:477-486 | a larger move, with budget left, leaves the layer coherent from any VRAM contents |
| MapSeams.GotoKeepsCoherence | runtime/hx421_runtime.c:462-527 | any camera move, deferred ones included, keeps a seeded layer coherent and writes only its own screens |
| MapSeams.CoherentIsUnique | runtime/hx421_runtime.c:426-428 | coherence determines every word of the layer's two screens |
| MapSeams.SeamsEqualReseed | runtime/hx421_runtime.c:462-527 | the incremental strips produce word for word the VRAM that a full reseed produces |
| MapSeams.GotoIs | runtime/hx421_runtime.c:462-527 | which moves are served how, from the camera's tile: seams within 8 columns and 4 rows of the new window, 16 tiles left of the camera and 2 above it; else a reseed while the budget lasts; else the layer waits |
| MapRuns.StepKeepsInv | runtime/hx421_runtime.c:530-584 | one staged frame keeps every layer coherent, the layers apart and the field blank while any is stale |
| MapRuns.RunIsCoherent | runtime/hx421_runtime.c:462-600 | CACHE COHERENCE: after any sequence of camera positions, any jump and any sign, the VRAM word of each seeded layer's cell (c mod 64, r mod 32), in two screens of 1024 words, holds tile (c, r) for all of its window |
| MapRuns.RevealedIsCorrect | runtime/hx421_runtime.c:415-424 | whenever the field is revealed, every pixel of the 256x224 viewport fetches the right map tile through the 10-bit scroll registers and their minus-one |
| MapRuns.RunTileSet | runtime/hx421_runtime.c:547-554 | the tile set in VRAM is, whole and after any run, the last one that came due |
| MapRuns.BudgetGoesToTheFirst | runtime/hx421_runtime.c:477-486 | one reseed a frame: the budget is spent exactly when some layer needs it, and one layer fewer is left stale than needed one |
| MapRuns.StaleIff | runtime/hx421_runtime.c:477-486 | which layer gets it: a layer is left stale exactly when it needs a reseed behind another layer that needs one |
| MapRuns.RevealedIff | runtime/hx421_runtime.c:566-580 | a frame is revealed exactly when at most one layer needed a reseed in it |
| MapRuns.GotoBytes | runtime/hx421_runtime.c:462-527 | seams cost 64 bytes a column and 128 a row, never over 1024; a reseed costs its 4096 from the budget |
| MapRuns.FrameBytes | runtime/hx421_runtime.c:544-563 | a frame stages at most one 4096-byte reseed and 1024 bytes of seams a layer |
| MapRuns.StaleLayersDrain | runtime/hx421_runtime.c:561-571 | while cameras stay within the seam limits one stale layer becomes current each frame |
| MapRuns.SettledWithinLayerCount | runtime/hx421_runtime.c:561-580 | after as many such frames as there are layers, all are current and the field is revealed |
| MapRuns.StarvedIff | runtime/hx421_runtime.c:477-486 | STARVATION, exactly: a stale layer stays stale through a whole run, the field blank, if and only if in every frame a layer in front of it needs a reseed |
| MapRuns.RacingFrontStarvesBack | runtime/hx421_runtime.c:477-486 | from every boot of two layers there is such a run of any length: the front camera racing on, the back one still |
| MapEngine.Engine.constructor | runtime/hx421_runtime.c:386-412 | all layers start unseeded at their tilemap bases |
| MapEngine.Engine.StageSeed | runtime/hx421_runtime.c:436-443 | the staged two screens are the world's tiles in wrap order, nothing else in the window changes |
| MapEngine.Engine.StageColumn | runtime/hx421_runtime.c:497-501 | the staged 64 bytes are the column's tiles rotated to wrap order |
| MapEngine.Engine.StageRow | runtime/hx421_runtime.c:511-518 | the staged 128 bytes are the row's tiles, split over the two screens |
| MapEngine.Engine.SeedLayer | runtime/hx421_runtime.c:429-450 | the emitted body sends exactly the reseed's strips and the layer's window becomes the camera's |
| MapEngine.Engine.SendColumns | runtime/hx421_runtime.c:493-506 | the emitted transfers, read when all are staged, are exactly the entering columns; each has its own staging area |
| MapEngine.Engine.SendRows | runtime/hx421_runtime.c:508-525 | the emitted transfers are exactly the entering rows, two per row, in their own staging area |
| MapEngine.Engine.SendSeams | runtime/hx421_runtime.c:488-526 | columns and rows staged together do not disturb one another |
| MapEngine.Engine.LayerGoto | runtime/hx421_runtime.c:462-527 | state, budget and transfers are those of the specified move; only the layer's own area or the seed area is written |
| MapScreen.ScNamesTheMapIff | runtime/hx421_runtime.c:224-227 | the register value for a 64x32 map decodes to its own address exactly when that is a multiple of 1024 words |
| MapScreen.ShownThroughRegisters | runtime/hx421_runtime.c:415-424 | every pixel of a revealed field is fetched right from the tilemap and at the scroll that the body's own byte writes select |
| MapScreen.PixelThroughRegisters | runtime/hx421_runtime.c:224-227 | in the console's own terms: upper six bits of the tilemap register, ten bits of each scroll in two writes, and the word they lead to holds the map's tile |
| MapScreen.HeadIs | runtime/hx421_runtime.c:533-542 | the values themselves: mode 1, both layers, tile base 0x22, base / 1024 * 4 + 1, camX mod 1024 and camY - 1 mod 1024 |
| MapEngine.Engine.CopyWithin | runtime/hx421_runtime.c:551-552 | the copied words stand at the target, all others are as they were |
| MapEngine.Engine.SendAssets | runtime/hx421_runtime.c:547-554 | the shared tile set and its palette are copied and sent whole |
| MapEngine.Engine.EmitHead | runtime/hx421_runtime.c:533-542 | mode, layers, tile base, and for each layer the tilemap register and both scroll registers, low byte then high |
| MapEngine.Engine.BuildActions | runtime/hx421_runtime.c:573-580 | every byte of the action table; it shows lines 0..223 when no layer is stale and nothing otherwise |
| MapEngine.Engine.StageLayers | runtime/hx421_runtime.c:561-563 | every layer's strips follow the assets in order, and no staging area overwrites another |
| MapEngine.Engine.Stage | runtime/hx421_runtime.c:530-580 | the body sets the registers, sends the assets with their palette and every layer's strips in order, and the action table shows the field exactly when no layer is stale |
| MapEngine.Engine.Produce | runtime/hx421_runtime.c:1877-1882 | one produced frame is one step of the specified system, in layers, VRAM and what is shown |
| MapEngine.Engine.ProduceAll | runtime/hx421_runtime.c:530-600 | END TO END: after any number of frames from boot, with any VRAM, on every line the action table shows each pixel of each layer is the map's tile, through the registers |
| Fmv.RunsAbut | runtime/hx421_runtime.c:681-683 | the four tile runs abut, start after the 13 contested tiles and end with tile 780 |
| Fmv.OverlapIsContested | runtime/hx421_runtime.c:622-639 | a word belongs to both CHR buffers exactly when it is one of B's 13 contested tiles, which are A's tiles 768..780 |
| Fmv.EarlyBandsSpareTheFront | runtime/hx421_runtime.c:1370-1399 | no transfer of bands 0..2 writes a CHR or tilemap word of the displayed buffer |
| Fmv.LastBandOverwritesTheFront | runtime/hx421_runtime.c:1389-1394 | band 3 does write every contested word of the displayed buffer |
| Fmv.BandFills | runtime/hx421_runtime.c:1380-1394 | each band extends what the back buffer holds of the frame by its own tiles and map words |
| Fmv.LastBandCompletes | runtime/hx421_runtime.c:1389-1399 | after band 3 the back buffer holds all 781 tiles and all 1024 map words of the one frame |
| Fmv.EarlyBandKeepsPicture | runtime/hx421_runtime.c:1375-1388 | bands 0..2 leave the shown picture as it was |
| Fmv.StepKeepsInv | runtime/hx421_runtime.c:1807-1821 | every FRAME_DONE step keeps the fill of the back buffer consistent with the band counter |
| Fmv.StepOnScreen | runtime/hx421_runtime.c:1807-1821 | what is on screen after each of the four steps, which buffer is displayed, and that the decoded frame is fixed from band 0 to band 3 |
| Fmv.KickStartsWell | runtime/hx421_runtime.c:1889-1954 | the first produced band starts every run in order, from any VRAM contents |
| Fmv.OneFrameOnScreen | runtime/hx421_runtime.c:1807-1821 | over every run the screen changes only at a band-3 flip, and then shows exactly one decoded frame |
| Fmv.RevealedFrameIsTheDecodedOne | runtime/hx421_runtime.c:1895-1910 | the picture revealed at a flip is the one stored at that cycle's band 0, in the buffer that was hidden; which frame that is, DueFrameIsShown says |
| Fmv.ShownIs | runtime/hx421_runtime.c:622-639 | what the two registers show, word by word: 7C00 and 0000, or 7800 and 3000 |
| FmvFrames.DueFrameIsShown | runtime/hx421_runtime.c:1807-1821 | four steps after a flip the screen shows the frame its band-0 tick brought, if playback ran, one was queued and the preroll was over; otherwise what was there |
| FmvFrames.KickedFrameIsShown | runtime/hx421_runtime.c:1889-1910 | and three steps after the kick the frame the kick brought, under the same conditions |
| FmvFrames.FlipShows | runtime/hx421_runtime.c:1807-1821 | EVERY DUE FRAME, IN ORDER, ONCE: over any run flip m shows exactly the frame that the m-th band 0 was due, none skipped or taken twice, or else the one of flip m - 1 |
| FmvFrames.BetweenFlips | runtime/hx421_runtime.c:1807-1821 | and nothing else is on screen between two flips |
| FmvFrames.StepBrings | runtime/hx421_runtime.c:1370-1412 | which step brings which sprites, sprite tiles and palettes, and what every register holds after it |
| FmvEngine.Engine.constructor | runtime/hx421_runtime.c:685-690 | playback starts at band 0 with buffer A displayed |
| FmvEngine.Engine.StageBand | runtime/hx421_runtime.c:1939-1950 | the window holds the band's tiles, map quarter and, for band 3, contested tiles and palette |
| FmvEngine.Engine.EmitBand | runtime/hx421_runtime.c:1370-1412 | running the emitted body does to the console exactly what the band must do, and it transfers 7424 bytes in bands 0..2 and 6976 in band 3, within the 7452 of the blank |
| FmvEngine.Engine.EmitSetup | runtime/hx421_runtime.c:1375-1379 | mode, sprite sizes, layers and scroll are set and the front buffers held, nothing else |
| FmvEngine.Engine.EmitHead | runtime/hx421_runtime.c:1375-1388 | band 0 sets the console up and holds the front registers; the map quarter and the tile run go to the back buffer |
| FmvEngine.Engine.EmitFlip | runtime/hx421_runtime.c:1389-1399 | contested tiles, palette and both register flips, in that order |
| FmvEngine.Engine.EmitSprites | runtime/hx421_runtime.c:1404-1408 | the sprite tiles and palettes go out and touch neither picture buffer |
| FmvEngine.Engine.EmitOam | runtime/hx421_runtime.c:1409-1412 | sprites 0..63 go out every band, the whole table with its high part on band 3 |
| FmvEngine.Engine.BuildActions | runtime/hx421_runtime.c:1924-1933 | every byte of the action table; only lines 8..215 are shown, and none during the preroll |
| FmvEngine.Engine.ProduceBand | runtime/hx421_runtime.c:1889-1953 | decode at band 0 when due, stage, emit, publish: the player's new state, the console's, and which lines are shown |
| FmvEngine.Engine.FrameDone | runtime/hx421_runtime.c:1807-1821 | one FRAME_DONE is one step of the specified player and console: the next band, and at band 0 the other buffer in front and the queue's next frame in store if playback runs and the preroll is over |
| FmvEngine.Engine.PlayAll | runtime/hx421_runtime.c:1807-1821 | a whole playback on any console: kick, then any FRAME_DONEs; the screen shows the frame of the latest flip, which is the one its band-0 tick brought |
| Bitsets.CtzIsLowest | engine/math/bits.h:74-87 | the halving search returns the lowest set bit |
| Popcounts.PopcountByBytes | engine/math/bits.h:101-110 | the parallel sum by pairs, nibbles, bytes and one multiplication is the number of set bits, byte by byte |
| Bitsets.PopcountCounts | engine/math/bits.h:101-110 | the word's population count is the number of its 32 bits that are set |
| Bitsets.TailMaskBit | engine/containers/bitset.c:13-16 | the tail mask keeps exactly the bits that exist |
| Bitsets.FirstCandidate | engine/containers/bitset.c:85-94 | the first unmasked clear bit of the first word that has one is the lowest clear bit of the set |
| Bitsets.Bitset.constructor | engine/containers/bitset.c:21-33 | all bits clear |
| Bitsets.Bitset.ClearAll | engine/containers/bitset.c:29-33 | all bits clear, the hint exact |
| Bitsets.Bitset.SetAll | engine/containers/bitset.c:35-41 | all real bits set, the hint exact |
| Bitsets.Bitset.Set | engine/containers/bitset.c:43-46 | one bit set, out of range ignored, the hint still exact |
| Bitsets.Bitset.Clear | engine/containers/bitset.c:48-55 | one bit clear, out of range ignored, the hint lowered to stay exact |
| Bitsets.Bitset.Test | engine/containers/bitset.c:57-60 | the bit's value, false out of range |
| Bitsets.Bitset.Popcount | engine/containers/bitset.c:62-67 | the number of set bits of the set, as padding bits past the end are always clear |
| Bitsets.Bitset.FindFirstClear | engine/containers/bitset.c:80-99 | EXACT HINT: all words below the hint are always full, so the answer is the lowest clear bit of the whole set and the wrap pass finds nothing |
| PoolChains.ChainsPartition | engine/audio/audio_pool.c:51-78 | a block is taken exactly when it lies on some chain, and on one only |
| PoolChains.AttachKeeps | engine/audio/audio_pool.c:148-158 | appending a free block keeps all chains acyclic, disjoint and owned by their slots |
| PoolChains.DetachKeeps | engine/audio/audio_pool.c:60-78 | giving back a chain's head keeps the rest in order and yields the next block |
| PoolChains.ByteAtInjective | engine/audio/audio_pool.c:282-295 | two bytes of chained storage coincide only in the same block at the same offset |
| PoolChains.RunIsFlat | engine/audio/audio_pool.c:287-289 | a memcpy inside one block is a slice of the object's flat contents |
| PoolChains.RunStoredOwn | engine/audio/audio_pool.c:315-317 | a memcpy into one block overwrites exactly that slice of the object's flat contents |
| PoolChains.RunStoredOther | engine/audio/audio_pool.c:315-317 | and changes no other object's contents |
| PoolChains.WrittenReadsBack | engine/audio/audio_pool.c:272-326 | reading what was just written gives it back; bytes outside it are as before |
| PoolChains.LatestWriteWins | engine/audio/audio_pool.c:300-326 | after any history of clamped writes each byte is the one the last write over it put there, or the original |
| PoolChains.CountAfter | engine/audio/audio_pool.c:51-68 | the clear-bit count moves by one with each block taken or given back |
| AudioPool.NeedIsCeilIff | engine/audio/audio_pool.c:142-143 | the 32-bit block count is the true ceiling (at least one) exactly when the rounding does not wrap |
| AudioPool.CeilCovers | engine/audio/audio_pool.c:142-143 | the ceiling is the least number of blocks, but at least one, that covers the size |
| AudioPool.BytesAreTheSizeIff | engine/audio/audio_pool.c:142-143 | an object's blocks cover its size under exactly the same condition |
| AudioPool.HandleRoundTrip | engine/audio/audio_pool.c:22-32 | unpacking a packed handle gives slot and generation back |
| AudioPool.HandleIs | engine/audio/audio_pool.c:22-32 | a 32-bit handle is generation * 65536 + slot + 1, both ways, and names nothing exactly when its low half is 0 |
| AudioPool.Pool.constructor | engine/audio/audio_pool.c:82-119 | every block free, no object live |
| AudioPool.Init | engine/audio/audio_pool.c:82-119 | refused exactly when the region has no room for a block; otherwise an empty pool over the region, every block free |
| AudioPool.Pool.FreeIsUnset | engine/audio/audio_pool.c:51-68 | the free count and the map's set bits together are the number of blocks |
| AudioPool.Pool.Resolve | engine/audio/audio_pool.c:36-44 | a handle names a slot exactly while that generation lives in it |
| AudioPool.Pool.AllocOneBlock | engine/audio/audio_pool.c:51-58 | the lowest free block is taken; none when none is free; the free count stays the clear-bit count |
| AudioPool.Pool.FreeOneBlock | engine/audio/audio_pool.c:60-68 | the block is free and unlinked, counted only if it was taken; a block out of range is ignored |
| AudioPool.Pool.FreeChain | engine/audio/audio_pool.c:71-78 | the slot's whole chain is given back, all other chains untouched |
| AudioPool.Pool.BuildChain | engine/audio/audio_pool.c:148-158 | a chain of exactly the needed length, wherever the free blocks lie, no other chain touched |
| AudioPool.Pool.FindFreeSlot | engine/audio/audio_pool.c:129-134 | the lowest free descriptor, or none when all are in use |
| AudioPool.Pool.Alloc | engine/audio/audio_pool.c:136-192 | succeeds exactly when enough blocks and a descriptor are free, whatever the fragmentation; no other object changes; a failure changes nothing |
| AudioPool.Pool.Ref | engine/audio/audio_pool.c:217-223 | one more reference on the named object, nothing else |
| AudioPool.Pool.FreeObject | engine/audio/audio_pool.c:206-215 | the object is gone, its blocks free, its slot's generation moved past 0, every other object as it was |
| AudioPool.Pool.Unref | engine/audio/audio_pool.c:225-237 | one reference less; the object is freed exactly with the last one |
| AudioPool.Pool.SeekBlock | engine/audio/audio_pool.c:261-270 | the block that holds the offset, or none past the chain's end |
| AudioPool.Pool.Read | engine/audio/audio_pool.c:272-298 | as many bytes as the request reaches, in order, from one flat array; the rest of the buffer untouched |
| AudioPool.Pool.CopyOut | engine/audio/audio_pool.c:283-295 | the block-by-block loop reads the flat contents |
| AudioPool.Pool.Write | engine/audio/audio_pool.c:300-326 | exactly the bytes the request reaches change, in this object only |
| AudioPool.Pool.CopyIn | engine/audio/audio_pool.c:311-323 | the block-by-block loop overwrites the flat contents of one slot and of no other |
| PoolRuns.BytesAreTheStory | engine/audio/audio_pool.c:136-326 | over any history of alloc, ref, unref and write, through any handles, a slot's contents are the writes to it since its last allocation, applied to what its blocks held |
| PoolRuns.ByteIsLatest | engine/audio/audio_pool.c:272-326 | so each byte of a live object is the latest write over it since the object was allocated |
| PoolRuns.HandleNamesItsObject | engine/audio/audio_pool.c:22-44 | an object keeps slot and generation while it lives, so the handle given out for it names it and nothing else until its last reference |
| PoolRuns.Serve | engine/audio/audio_pool.c:136-326 | each call of the pool is one step of that history, whatever its result, and an allocation returns the handle of the object it made |
| PoolRuns.ServeAll | engine/audio/audio_pool.c:136-326 | any number of calls of a client that decides each from the handles it was given, on a pool without objects, are a history |
| PoolRuns.SessionHandle | engine/audio/audio_pool.c:176-192 | in such a session each handle given out names its object as long as it lives |
| PoolRuns.CountsFit | engine/audio/audio_pool.c:217-237 | a live object has at least one reference and no more than calls were made, so a signed 32-bit count cannot overflow in under 2^31 calls |
| PoolRuns.ReadAfterAll | engine/audio/audio_pool.c:272-298 | END TO END: after any session on a fresh pool a read through any handle the client picks delivers, byte by byte, the latest writes since that object's allocation, clamped to its size |
| Voices.PlayingObjectIsLive | engine/audio/audio_arbiter.c:89-92 | NO PLAYING OBJECT IS FREED: each active track's object is live under the generation it was started with |
| Voices.StartKeepsBalance | engine/audio/audio_arbiter.c:89-109 | starting a voice keeps every count equal to client references plus playing tracks |
| Voices.StopKeepsBalance | engine/audio/audio_arbiter.c:148-164 | stopping one keeps it so, and frees the object exactly when nobody else holds it |
| Voices.ClientKeepsBalance | engine/audio/audio_pool.c:217-237 | clients taking references, and dropping only ones they took, keep it so |
| Voices.AllocKeepsBalance | engine/audio/audio_pool.c:136-174 | so does allocating an object |
| Voices.WriteKeepsBalance | engine/audio/audio_pool.c:300-326 | so does writing to one |
| Voices.RefThenDrop | engine/audio/audio_arbiter.c:98-102 | when the sink declines, taking and returning the reference leaves every object as it was |
| Voices.FreedWithTheLast | engine/audio/audio_pool.c:225-237 | a count of one is exactly one holder left, client or track |
| Voices.SettlingComposes | engine/audio/audio_arbiter.c:183-211 | stopping several voices one by one settles the counts as stopping them at once would |
| Voices.GenerationsCycle | engine/audio/audio_arbiter.c:157-159 | the generation after n ended plays is 1 + n mod 65535, never 0 |
| Voices.HandleNamesItsPlay | engine/audio/audio_arbiter.c:31-39 | a voice handle resolves exactly while its own play, or one a multiple of 65535 reuses away, is on the track |
| VoiceArbiter.Arbiter.constructor | engine/audio/audio_arbiter.c:43-60 | no track active, the track count clamped to 16; the references existing on the pool are the clients' |
| VoiceArbiter.Init | engine/audio/audio_arbiter.c:43-60 | refused exactly when there are no tracks; otherwise a silent arbiter over the given pool |
| VoiceArbiter.Arbiter.FindFreeTrack | engine/audio/audio_arbiter.c:64-69 | the lowest free track, or none when all are busy |
| VoiceArbiter.Arbiter.Play | engine/audio/audio_arbiter.c:71-112 | which of the results, when; on success the lowest free track plays and the object gains one reference; otherwise nothing changed |
| VoiceArbiter.Arbiter.PlayExternal | engine/audio/audio_arbiter.c:114-144 | the same without an object; no reference is taken |
| VoiceArbiter.Arbiter.StopTrack | engine/audio/audio_arbiter.c:148-164 | the track is free, the count one less, the sink stopped, the object freed exactly with its last holder |
| VoiceArbiter.Arbiter.ResolveVoice | engine/audio/audio_arbiter.c:31-39 | the track a voice handle names, if it is live |
| VoiceArbiter.Arbiter.Stop | engine/audio/audio_arbiter.c:166-181 | a live voice stops; a stale handle changes nothing |
| VoiceArbiter.Arbiter.Reap | engine/audio/audio_arbiter.c:183-197 | exactly the finished one-shots are freed, music never; returns how many |
| VoiceArbiter.Arbiter.SweepVm | engine/audio/audio_arbiter.c:199-211 | exactly the voices of the dying VM are stopped; returns how many |
| VoiceArbiter.Arbiter.ClientAlloc | engine/audio/audio_pool.c:176-192 | a client's allocation between arbiter calls keeps the book balanced |
| VoiceArbiter.Arbiter.ClientRef | engine/audio/audio_pool.c:217-223 | a client's reference keeps it balanced |
| VoiceArbiter.Arbiter.ClientUnref | engine/audio/audio_pool.c:225-237 | a client's drop frees the object exactly when no client and no track holds it any more |
| VoiceArbiter.Arbiter.ClientWrite | engine/audio/audio_pool.c:300-326 | a client's write changes the named object's bytes alone and keeps it balanced |
| Rings.StoreAppends | engine/containers/ring_buffer.c:38-48 | storing at the head of a ring that is not full appends to the queue |
| Rings.StoreOverwrites | engine/containers/ring_buffer.c:42-44 | storing in a full ring drops the oldest element |
| Rings.Ring.Push | engine/containers/ring_buffer.c:38-48 | the queue gains the element and, if full, loses its oldest |
| Rings.Ring.Pop | engine/containers/ring_buffer.c:50-56 | the oldest element, removed; nothing from an empty ring |
| Rings.Ring.PeekAt | engine/containers/ring_buffer.c:64-69 | element `offset` of the queue, if there is one |
| Resampler.PrimeIsWindow | engine/audio/audio_mixer.c:735-749 | priming loads the window at the first source frame, with silence for history |
| Resampler.AdvanceIsWindow | engine/audio/audio_mixer.c:759-790 | advancing by up to the limit gives the window n frames on, and pops n frames |
| Resampler.PhaseSplits | engine/audio/audio_mixer.c:887-901 | without wrap the advance is the whole part of the new phase and only the fraction is kept |
| Resampler.WindowSamplesIdeal | engine/audio/audio_mixer.c:870-884 | sampling a window is interpolating the source around its frame |
| Resampler.ProduceIsIdeal | engine/audio/audio_mixer.c:857-903 | one sample: the output is the source interpolated at the position, the position moves by the step, the frames passed are popped |
| ChannelRuns.RunIsResampling | engine/audio/audio_mixer.c:857-903 | THE WHOLE RUN, pushes and samples in any order, the step changing at will: no frame is lost exactly when no push finds the ring full, and then output k is the source interpolated at the sum of the earlier steps, the ring holding the source from its whole part on |
| ChannelRuns.WellFedIs | engine/audio/audio_mixer.c:735-790 | what a sample needs: frames pushed three past the position after it (cubic) or two (linear), and no larger step than that |
| ChannelRuns.PlayAll | engine/audio/audio_mixer.c:857-903 | the same of the channel and its ring themselves: any events on a fresh channel over an empty ring |
| ChannelRuns.PlayLoop | engine/audio/audio_mixer.c:857-903 | and of a looping channel: any number of samples interpolate the repeating loop and consume nothing |
| LoopResampler.LoopedIs | engine/audio/audio_mixer.c:240-251 | what a loop plays: source frame lap * length + i is its i-th frame, on every lap |
| InterpKernels.LinearIs | engine/audio/audio_mixer.c:802-808 | THE LINEAR KERNEL IS ALWAYS RIGHT, a + (b - a) * f / 2^16 rounded down and between a and b, although its 32-bit product can overflow |
| InterpKernels.LinearOverflows | engine/audio/audio_mixer.c:806-806 | two samples and a fraction at which it does |
| InterpKernels.CubicExactIff | engine/audio/audio_mixer.c:821-846 | THE CUBIC KERNEL, exactly: it is its spline for all taps of a level if and only if the level is at most 5461 |
| InterpKernels.LoudFails | engine/audio/audio_mixer.c:833-843 | the taps of level 5462 that come out at full scale on the wrong side |
| InterpKernels.CubicAtTap | engine/audio/audio_mixer.c:821-846 | at a tap, or on a level stretch, it gives the tap whatever the level |
| InterpKernels.LinearPlays | engine/audio/audio_mixer.c:870-884 | a source interpolated linearly: left from left, right from right, between its two neighbours |
| InterpKernels.CubicPlays | engine/audio/audio_mixer.c:870-884 | and by the cubic: the spline through its four neighbours, for sources up to 5461 |
| InterpKernels.WholePosition | engine/audio/audio_mixer.c:870-884 | at a whole position either kernel gives the source frame itself |
| InterpKernels.SteadyStays | engine/audio/audio_mixer.c:870-884 | where the source stands still so does the output, at any rate |
| InterpKernels.WholeRatePlaysSource | engine/audio/audio_mixer.c:857-903 | a channel at its source's rate, or a whole multiple of it, plays exactly source frames 0, pace, 2 * pace, ... |
| Resampler.StepLimitIsExact | engine/audio/audio_mixer.c:759-790 | the window follows every source at every phase exactly when the step is at most 3 frames (cubic) or 2 (linear) |
| Resampler.FourLosesHistory | engine/audio/audio_mixer.c:720-731 | a cubic advance of four reloads the history tap from a wrapped offset and gets silence |
| LoopResampler.LoopAdvanceIsWindow | engine/audio/audio_mixer.c:759-790 | a loop's window follows up to a whole window at a time, history tap included |
| LoopResampler.LoopProduceIsIdeal | engine/audio/audio_mixer.c:857-903 | one sample of a loop interpolates the repeating source at the position and moves the read position, consuming nothing |
| LoopResampler.LoopRunIsResampling | engine/audio/audio_mixer.c:857-903 | the whole run of a loop, for ever and with changing steps: output k is the repeating source interpolated at the sum of the earlier steps |
| LoopResampler.LoopStepLimitIsExact | engine/audio/audio_mixer.c:759-790 | a loop follows exactly up to 4 frames a sample (cubic) or 2 (linear) |
| Resampler.CorrectedStepIsSafe | engine/audio/audio_mixer.c:1046-1049 | a drift-corrected step is at least 1, equals the base without correction, and stays within the limit when base times (1 + correction) does |
| Resampler.CorrectedStepIs | engine/audio/audio_mixer.c:1046-1050 | the corrected step is the base plus base * correction in units of SYNC_ACC_ONE cut off toward zero, or 1 if that is less |
| Resampler.CorrectionIsCut | engine/audio/audio_mixer.c:1046-1050 | such a share always exists, and a step above 1 differs from the base by it |
| MixerChannels.UpdateChannelSteps | engine/audio/audio_mixer.c:1034-1052 | every resampling channel gets its base step corrected, no other channel changes |
| DriftSync.CorrectedIs | engine/audio/audio_mixer.c:1077-1126 | which observations count, at most a sixteenth off with time passed, and what they draw the correction toward: the drift's share of the expected ticks |
| DriftSync.DrawnIs | engine/audio/audio_mixer.c:1106-1119 | NO OVERSHOOT: an observation moves the correction toward the drift, never past it or the clamp; it stands still exactly when error times smoothing is under one unit or the clamp holds it |
| DriftSync.ComesToRest | engine/audio/audio_mixer.c:1106-1119 | a steady drift comes to rest, after at most as many observations as the first error is large |
| DriftSync.MeetsTheDriftIff | engine/audio/audio_mixer.c:1106-1111 | BUT NOT AT THE DRIFT: it is ever met exactly if and only if the correction started there, or smoothing is full and the clamp allows it |
| DriftSync.EvenReadings | engine/audio/audio_mixer.c:1062-1119 | counter readings at an even pace draw the correction by just those observations |
| DriftSync.WatchedStays | engine/audio/audio_mixer.c:1054-1127 | over any readings the correction stays within the clamp |
| DriftSync.SyncMixer.constructor | engine/audio/audio_mixer.c:403-414 | no correction, no reading yet |
| DriftSync.SyncMixer.ObserveSync | engine/audio/audio_mixer.c:1054-1127 | one pair of readings, every early return included; every channel in step afterwards, and the answer in parts per million |
| DriftSync.SyncMixer.ResetSync | engine/audio/audio_mixer.c:1129-1137 | no correction, no reading, every channel at its base step |
| DriftSync.SyncMixer.SetDriftPpm | engine/audio/audio_mixer.c:1139-1149 | the correction set outright in parts per million, clamped, every channel in step |
| DriftSync.SyncMixer.ObserveAll | engine/audio/audio_mixer.c:1054-1127 | any number of readings: the correction is the run's and every channel plays at its base step under it |
| MixerChannels.FullRingShows | engine/audio/audio_mixer.c:227-235 | a ring that holds enough frames of the source shows them to the window |
| MixerChannels.MixerChannel.constructor | engine/audio/audio_mixer.c:626-635 | a fresh channel is unprimed at phase zero |
| MixerChannels.MixerChannel.ReadLoopFrame | engine/audio/audio_mixer.c:240-251 | the loop's frame at any position, the position wrapping at the loop's length |
| MixerChannels.MixerChannel.LoadTap | engine/audio/audio_mixer.c:720-731 | the tap is the frame at the offset, silence past a ring, the wrapped frame in a loop, a negative offset included |
| MixerChannels.MixerChannel.PrimeTapWindow | engine/audio/audio_mixer.c:735-749 | the taps become the primed window |
| MixerChannels.MixerChannel.AdvanceTapWindow | engine/audio/audio_mixer.c:759-790 | taps, ring and read position after a clamped advance: shifted, popped or read on, refilled |
| MixerChannels.MixerChannel.ProduceSample | engine/audio/audio_mixer.c:857-903 | direct pop, underrun, resampling and loop paths: output, channel state, remaining ring and read position |
| Admission.EntryIsNotUntouched | fpga/cores/actor/tb/gen_vectors.c:41-42 | the word of an on-screen actor never reads as an untouched slot |
| Admission.RanksAreTheOrder | fpga/cores/actor/tb/gen_vectors.c:51-60 | ranks are ordered by band, stable within one, and distinct |
| Admission.RanksAreABijection | fpga/cores/actor/tb/gen_vectors.c:44-60 | ranks are a bijection from the on-screen crowd onto 0 .. cw-1 |
| Admission.TurnByCases | fpga/cores/actor/tb/gen_vectors.c:54-61 | subtracting the reduced phase and adding cw back when negative is (rank - phase) mod cw |
| Admission.AdmittedIsShown | fpga/cores/actor/tb/gen_vectors.c:61-66 | an admitted actor stands in exactly one of the slots after the locked ones |
| Admission.EveryActorGetsItsShare | fpga/cores/actor/tb/gen_vectors.c:54-66 | EXACT FAIRNESS: over any cw consecutive phases of a fixed scene each crowd actor is admitted exactly min(cw, budget) times |
| AdmissionPicture.EntrySays | fpga/cores/actor/tb/gen_vectors.c:41-42 | the word's bytes, from the lowest: x, y, tile, attribute |
| AdmissionPicture.LockedAt | fpga/cores/actor/tb/gen_vectors.c:38-42 | a locked actor's slot is its number among the on-screen ones |
| AdmissionPicture.GoldenIsPictured | fpga/cores/actor/tb/gen_vectors.c:34-67 | THE FRAME, actor by actor and in their own coordinates: locked ones in the lowest slots, each of the crowd at its place by band of eight lines and list order, less the phase, going round, its word saying its x, y, tile and attribute |
| AdmissionModel.HistogramIsRank | fpga/cores/actor/tb/gen_vectors.c:51-60 | the running prefix-summed histogram hands each actor the number of crowd actors before it |
| AdmissionModel.ScatterFills | fpga/cores/actor/tb/gen_vectors.c:61-66 | an admitted actor fills the one slot kept for it |
| AdmissionModel.ScatterSkips | fpga/cores/actor/tb/gen_vectors.c:57-62 | an off-screen or not admitted actor changes nothing |
| AdmissionModel.LockActors | fpga/cores/actor/tb/gen_vectors.c:38-42 | the first on-screen actors below the lock bound take the lowest slots, at most 128 |
| AdmissionModel.CountBands | fpga/cores/actor/tb/gen_vectors.c:44-48 | each band's count and the crowd's |
| AdmissionModel.SumBands | fpga/cores/actor/tb/gen_vectors.c:50-52 | each band's entry becomes the number of crowd actors in the bands before it |
| AdmissionModel.ReducePhase | fpga/cores/actor/tb/gen_vectors.c:54-54 | the phase modulo the crowd, untouched when nobody is in it |
| AdmissionModel.Model | fpga/cores/actor/tb/gen_vectors.c:34-67 | the OAM image is exactly that frame: locked actors, then min(cw, budget) contiguous slots of distinct crowd actors in rotated depth order, each word the actor's own bytes, the rest untouched |
| Streams.FillIsUnread | firmware/audio/hx421_stream.c:13-18 | the pointer arithmetic gives the bytes written and not yet read |
| Streams.FillExactIff | firmware/audio/hx421_stream.c:17-17 | it is exact for all positions exactly when the ring is at most 2^31 bytes |
| Streams.ChunkIs | firmware/audio/hx421_stream.c:40-41 | the refill size: what was asked in whole frames, one frame at least, 4096 when nothing was asked |
| Streams.TargetIs | firmware/audio/hx421_stream.c:28-33 | a started ring is filled to a chunk short of its size, or to the mark if less; the head is what the start asked, if less again |
| Streams.SourceIs | firmware/audio/hx421_stream.c:110-129 | what a stream delivers: the file's bytes from where it started or was sought, a loop's data region again and again |
| Streams.RunIsLargest | firmware/audio/hx421_stream.c:115-119 | a refill is the largest number of whole frames that fits chunk, room, ring end and data end |
| Streams.RefillKeepsPositions | firmware/audio/hx421_stream.c:116-129 | a sized run ends at neither ring end nor source end too late, and leaves both cursors where the totals say |
| Streams.RefillKeepsUnread | firmware/audio/hx421_stream.c:121-129 | NO OFFLOAD TOUCHES AN UNREAD BYTE: unread ring bytes, stale ones aside, stay the next source bytes in order, the new ones following |
| Streams.CopyElsewhere | firmware/audio/hx421_stream.c:121-124 | an offload into another ring leaves a stream's unread bytes alone |
| Streams.ReadingKeeps | firmware/audio/hx421_stream.c:13-18 | the reader moving on keeps everything in order |
| Streams.ReadyIff | firmware/audio/hx421_stream.c:131-138 | started with its reader at the ring's base, once less than a frame of room is left or the source is spent, a stream is ready exactly when its head fits the whole frames of its target and, if one-shot, its data |
| Streams.ShortOneShotNeverReady | firmware/audio/hx421_stream.c:131-138 | a one-shot shorter than its head, its reader at the ring's base when it started, is never ready, however long it is served |
| StreamUrgency.UrgencyIff | firmware/audio/hx421_stream.c:98-102 | with two streams in want the scan always finds a truly most urgent one if and only if no target overflows its score |
| StreamUrgency.ChosenIs | firmware/audio/hx421_stream.c:89-104 | which stream is served: a wanting one of the greatest deficit times (priority + 1) in 32 bits, the first of several; none only when none is wanting |
| StreamUrgency.OverflowMisleads | firmware/audio/hx421_stream.c:98-102 | one overflowing target suffices for fills at which the scan serves a less urgent stream |
| StreamPriming.ServedKeepsEnds | firmware/audio/hx421_stream.c:79-142 | a service changes nobody's chance to become ready |
| StreamPriming.StuckAtTheEnd | firmware/audio/hx421_stream.c:105-120 | when nobody is served, every stream has the fill it was bound to end with |
| StreamPriming.LoadedAlone | firmware/audio/hx421_stream.c:116-129 | a stream nobody holds up fills to the last whole frame under its target, or to the end of its data |
| StreamPriming.LowIsTheResidue | firmware/audio/hx421_stream.c:97-102 | while its scores do not overflow, the lowest score of a stream left with part of a frame is that of the part: bytes times priority |
| StreamPriming.EvenMarkHasNoBar | firmware/audio/hx421_stream.c:97-118 | under a mark of whole frames no stream holds up another, overflow or not |
| StreamPriming.SmallMarkFits | firmware/audio/hx421_stream.c:98-102 | under any high-water mark below 2^30 no score overflows |
| StreamPriming.OverflowStarves | firmware/audio/hx421_stream.c:97-120 | at an odd mark above 2^30 an empty ring that would be ready alone is never served behind one that lacks a single byte |
| StreamPriming.UnhinderedReadyIff | firmware/audio/hx421_stream.c:97-138 | readiness of any unhindered stream: a frame of room and of source is left, and its head fits what it holds and what will be added |
| StreamPriming.BegunReadyIff | firmware/media/hx421_media.c:80-98 | of one just started or sought, without a high-water mark: exactly with the reader at the ring's base or past its first chunk, and a one-shot's head in what is stale and left |
| StreamPriming.FreshReadyIff | firmware/audio/hx421_stream.c:131-138 | readiness from the configuration: a fresh, unhindered stream can become ready exactly when its head fits that |
| StreamPriming.OddMarkBlocksOthers | firmware/audio/hx421_stream.c:98-120 | two streams under an odd mark, one of which would be ready alone and is never served behind the other |
| StreamArbiter.AllRefilled | firmware/audio/hx421_stream.c:107-138 | one refill, the readers playing on meanwhile, keeps every active stream in order |
| StreamArbiter.StreamArb.constructor | firmware/audio/hx421_stream.c:35-45 | no stream active, the chunk defaulted and rounded to frames |
| StreamArbiter.StreamArb.FillOf | firmware/audio/hx421_stream.c:13-18 | the unread bytes at the moment the reader's position is asked for |
| StreamArbiter.StreamArb.Start | firmware/audio/hx421_stream.c:47-68 | which error or none for any arguments; the started stream in full, no other changed; all in order again if the ring is well placed, wherever in it the mixer stands |
| StreamArbiter.StreamArb.Seek | firmware/media/hx421_media.c:88-93 | the cursors and the flag after a seek, nothing else; all streams in order, the sought one's new bytes to be the source's from the offset on |
| StreamArbiter.StreamArb.Stop | firmware/audio/hx421_stream.c:70-72 | the stream is inactive, nothing else changes |
| StreamArbiter.StreamArb.Choose | firmware/audio/hx421_stream.c:89-103 | the first stream of the highest 32-bit score among those that want data, though readers move during the scan |
| StreamArbiter.StreamArb.Refill | firmware/audio/hx421_stream.c:106-141 | at most one offload, of the sized run; a willing platform gets it unless there is less than a frame of room |
| StreamArbiter.StreamArb.CommitRefill | firmware/audio/hx421_stream.c:126-140 | cursors, totals and readiness after the offload |
| StreamArbiter.StreamArb.Service | firmware/audio/hx421_stream.c:79-142 | one refill of the stream of the highest score; with a willing platform none only when all are settled or that stream has less than a frame of room |
| StreamArbiter.StreamArb.ServeOnce | firmware/audio/hx421_mode.c:110-111 | one service: while nobody reads and every offload is taken nobody's chances change, and if nobody was served all that can be ready are |
| StreamArbiter.StreamArb.Prime | firmware/audio/hx421_mode.c:110-111 | the loop until all wanted streams are ready ends when each of them can become ready, whatever the marks, priorities and overflowing scores |
| StreamArbiter.StreamArb.NeverReady | firmware/audio/hx421_mode.c:110-111 | and when one cannot, it is not ready after any number of services |
| StreamArbiter.StreamArb.BegunChance | firmware/media/hx421_media.c:80-98 | WHICH STARTS AND SEEKS COME BACK, among any other streams: exactly those with the reader at the ring's base or past its first chunk and, if one-shot, a head that fits |
| MediaSlots.StepsKeepUnit | firmware/media/hx421_media.c:41-108 | every command's effect on a slot keeps open/close pairing, activity and the mixer in step |
| MediaSlots.AppliedIs | firmware/media/hx421_media.c:41-126 | what each command leaves, field by field: STOP mutes, closes and deactivates its slot, a successful PLAY leaves its asset open and the slot waiting, SEEK mutes and keeps the asset, GAIN changes the levels alone, at the mixer too if the channel plays; no other slot changes |
| MediaSlots.EveryRunKeepsOrder | firmware/media/hx421_media.c:41-152 | over every run, with any answers: opens and closes match one to one, a slot is active exactly while one asset is open on it, a channel plays only while its slot is active and primed |
| MediaSlots.StopAllSilences | firmware/media/hx421_media.c:119-121 | STOP_ALL after any run leaves every slot muted, inactive and closed |
| MediaService.Media.constructor | firmware/media/hx421_media.c:18-33 | all slots idle, the arbiter without a high-water mark |
| MediaService.Media.SlotStop | firmware/media/hx421_media.c:41-50 | stream stopped, muted if enabled, the open asset closed, the slot inactive |
| MediaService.Media.StartStream | firmware/media/hx421_media.c:66-68 | the arbiter's answer, the slot's stream active and not ready on the slot's own ring, no other touched |
| MediaService.Media.OpenAndStart | firmware/media/hx421_media.c:62-77 | on an idle slot: -3 without an asset, -4 and the asset closed again without a stream, else the slot waiting for priming; no other slot touched |
| MediaService.Media.CmdPlay | firmware/media/hx421_media.c:52-78 | each error code and the slot it leaves; success opens exactly one asset and waits for priming |
| MediaService.Media.CmdSeek | firmware/media/hx421_media.c:84-98 | refused on an inactive slot; else the stream restarts from the frame-aligned offset, or from 0 past the end, not ready and muted |
| MediaService.Media.CmdGain | firmware/media/hx421_media.c:100-108 | refused on an inactive slot; else level kept, and sent to the mixer if the channel plays |
| MediaService.Media.StopAll | firmware/media/hx421_media.c:121-123 | every slot stopped |
| MediaService.Media.Apply | firmware/media/hx421_media.c:110-126 | every command's result and effect, unknown and out-of-range ones included, slots, calls and mixer told in the command's own fields |
| MediaService.Media.DrainMail | firmware/media/hx421_media.c:132-137 | at most twelve pending commands, applied in order |
| MediaService.Media.EnableReady | firmware/media/hx421_media.c:139-147 | every slot whose stream the arbiter finds ready plays afterwards, and no other is enabled |
| MediaService.Media.RefillOne | firmware/media/hx421_media.c:149-150 | the arbiter's one refill: the slots change at most by one stream becoming ready |
| MediaService.Media.Service | firmware/media/hx421_media.c:128-152 | commands, enabling and one refill of the arbiter are a run of events, rings and slots in order; afterwards every ready slot plays but for one primed by this very refill |
| MediaService.Media.ServeMany | firmware/media/hx421_media.c:128-152 | THE WHOLE SERVICE, any number of times, with any commands, files and mixer: what plays is a ready stream of the one open asset, and its unread bytes, stale ones aside, are the source's next |
| MediaService.Media.SeekStalls | firmware/media/hx421_media.c:80-98 | a seek with the mixer inside the ring's first chunk, past the base, leaves the slot mute through any number of services while that mixer stands still and no command but a level is for the slot |
| RasterGeometry.EdgesWeighVertices | runtime/hx421_raster.c:75-83 | the three edge values add up to the area and balance the point between the vertices |
| RasterGeometry.CoversIff | runtime/hx421_raster.c:75-96 | COVERED MEANS INSIDE: a front-facing triangle covers exactly the points its corners balance about with some weights, none negative |
| RasterGeometry.FrontIs | runtime/hx421_raster.c:64-69 | which way round faces the viewer |
| RasterGeometry.CentreIs | runtime/hx421_raster.c:50-54 | pixel (px, py) of a tile is sampled 128 past 256 * (8 * tile + pixel) in both coordinates |
| RasterGeometry.NoGap | runtime/hx421_raster.c:50-54 | two triangles that share an edge leave no gap |
| RasterGeometry.CoveredTwiceIff | runtime/hx421_raster.c:50-54 | COVERED TWICE, exactly: the other triangle covers a covered point too if and only if it lies on the shared edge |
| RasterGeometry.DiagonalCoveredTwice | runtime/hx421_raster.c:50-54 | pixel centres do not prevent it: those on the diagonal of a tile cut in two are covered twice |
| RasterGeometry.EdgeSteps | runtime/hx421_raster.c:112-119 | one pixel right or down adds a constant to each edge value |
| RasterGeometry.CoveredInBox | runtime/hx421_raster.c:30-44 | a covered point lies in the triangle's bounding box |
| RasterGeometry.CoveredTouches | runtime/hx421_raster.c:30-44 | THE REJECT IS SAFE: a triangle covering some pixel of a tile touches the tile |
| RasterGeometry.PlaneIsWeighted | runtime/hx421_raster.c:85-90 | the plane's numerator is the edge-weighted sum of the depth differences |
| RasterGeometry.DepthIs | runtime/hx421_raster.c:97-103 | the depth of a point is the first corner's plus the others' differences by their weights, cut off toward zero |
| RasterGeometry.DepthBetweenVertices | runtime/hx421_raster.c:97-103 | in exact arithmetic the interpolated depth lies between the least and greatest vertex depth, so both clamps are no-ops |
| RasterWidths.CloseFits | runtime/hx421_raster.c:75-103 | for vertices within 2^22 every 32-bit difference and every 64-bit product, sum and accumulator of the edges, area, plane and depth fits |
| RasterWidths.CloseDepthIsExact | runtime/hx421_raster.c:97-103 | so the 64-bit depth of every covered pixel is the plane's |
| RasterWidths.DistantWraps | runtime/hx421_raster.c:97-103 | a triangle at 2^23 with a covered pixel whose depth wraps to 0 where 65532 is right |
| RasterGeometry.ShadeIsFirstNearest | runtime/hx421_raster.c:56-121 | a pixel shows the first triangle in the list of the least depth below what was there, or what was there |
| TileRaster.Clear | runtime/hx421_raster.c:26-28 | colour 0 and the farthest depth everywhere |
| TileRaster.SkippedDrawsNothing | runtime/hx421_raster.c:58-69 | an uncoloured, back-facing, degenerate or rejected triangle would have changed no pixel |
| TileRaster.Pixel | runtime/hx421_raster.c:95-111 | one pixel is drawn exactly when the triangle covers it and is nearer |
| TileRaster.Row | runtime/hx421_raster.c:94-115 | the running accumulators are the direct cross products along a row |
| TileRaster.Triangle | runtime/hx421_raster.c:56-120 | one triangle over the tile: every pixel and the count of writes |
| TileRaster.RasterTile | runtime/hx421_raster.c:46-122 | every pixel ends as the whole list says, and the count of writes is right |
| TileRaster.WinsAreCounted | runtime/hx421_raster.c:104-109 | one triangle's count is the number of pixels it covers at less than the depth they show |
| TileRaster.WrittenIff | runtime/hx421_raster.c:46-122 | the whole count is 0 exactly when no pixel changed, and otherwise some pixel is nearer than it was |
| TilePack.LowNibble | runtime/hx421_raster.c:229-236 | a colour's low nibble is the sum of its four plane bits |
| TilePack.PackedBytes | runtime/hx421_raster.c:224-242 | THE BYTES: out[2y], out[2y+1], out[16+2y] and out[16+2y+1] are bits 0 to 3 of row y's colours, column 0 in bit 7 |
| TilePack.Pack4bpp | runtime/hx421_raster.c:224-242 | each of the 32 bytes is its plane's bits, unpacking gives back every colour modulo 16, and no other byte changes |
| TilePack.Classify | runtime/hx421_raster.c:124-132 | empty, solid with its colour, or mixed, exactly |
| TilePack.DominantIndex | runtime/hx421_raster.c:145-151 | the most frequent colour 1..15, the lowest of equals, 0 when there is none |
| FrameCompiler.EntryStays | runtime/hx421_raster.c:184-187 | a later tile taking a slot leaves earlier entries right |
| FrameCompiler.EntryShowsTile | runtime/hx421_raster.c:172-198 | an entry decoded through the resident tiles or its slot shows the tile's colours |
| FrameCompiler.EntryIs | runtime/hx421_raster.c:163-200 | the bits of an entry: the palette above ten bits of tile number, the colour of a tile of one colour, 16 + the mixed tiles before it, or past 750 of them the dominant colour |
| FrameCompiler.FrameShowsPicture | runtime/hx421_raster.c:153-202 | with at most 750 mixed tiles each pixel of the frame is the rasterised one |
| FrameExactness.ShownIff | runtime/hx421_raster.c:153-202 | THE PICTURE, exactly: with colours below 16 the compiled frame is the rasterised picture if and only if at most 750 of its tiles are mixed |
| FrameExactness.ScreenSizeIff | runtime/hx421_raster.c:153-202 | on a screen of w by h tiles every triangle list is shown as it is rasterised if and only if w * h is at most 750 |
| FrameExactness.DotsCompile | runtime/hx421_raster.c:153-202 | the map and the slots the compiler makes of the dotted scene, on any screen |
| FrameExactness.DottedIsMixed | runtime/hx421_raster.c:56-121 | the scene that needs a slot for every tile: one dot in the corner of each |
| FrameCompiler.CensusAddsUp | runtime/hx421_raster.c:172-198 | empty, solid and mixed tiles add up to the tiles scanned |
| FrameCompiler.RenderOut.PlaceTile | runtime/hx421_raster.c:174-197 | a tile's number, its slot if it needs one, and every counter |
| FrameCompiler.RenderOut.RenderFrame | runtime/hx421_raster.c:153-202 | every entry of the clipped screen is right and every other one blank, used = min(mixed, 750) = mixed - degraded, counts are exact; nothing to draw leaves an empty map |
| FrameCompiler.BuildSolidTiles | runtime/hx421_raster.c:134-141 | resident tile c shows colour c everywhere, its plane bytes all FF or 00 by the bits of c |
| MaskWords.ShrPx | runtime/hx421_mask.c:150-152 | a right shift moves pixels right and brings in clear ones |
| MaskWords.ShlPx | runtime/hx421_mask.c:150-152 | a left shift moves pixels left and brings in clear ones |
| MaskWords.FirstPixels | runtime/hx421_mask.c:99-119 | the halving searches find the leftmost and the rightmost set pixel |
| MaskWords.ByteBitsAre | runtime/hx421_mask.h:44-44 | pixel 0 of a byte is its highest bit, pixel 7 its lowest |
| MaskDerive.SetBit | runtime/hx421_mask.c:20-22 | one bit set, no other bit changed |
| MaskDerive.ColouredIs | runtime/hx421_mask.c:29-32 | a pixel of artwork has a colour exactly when one of its row's four plane bytes has its bit |
| MaskDerive.PaintRow | runtime/hx421_mask.c:53-64 | one row of a tile: exactly its opaque pixels inside the actor are set |
| MaskDerive.PaintPart | runtime/hx421_mask.c:46-67 | one sprite: exactly its opaque pixels are set |
| MaskDerive.DeriveMask | runtime/hx421_mask.c:34-69 | DERIVED, NEVER AUTHORED: a mask pixel is set exactly where some sprite of the actor is opaque, pad bits clear, refused sizes and short buffers untouched |
| MaskDerive.HitIsContact | runtime/hx421_mask.c:34-165 | PIXEL-EXACT COLLISION: two derived masks hit at a world pixel exactly where both actors' artwork is opaque there |
| MaskOverlap.ClearPad | runtime/hx421_mask.c:93-93 | after masking the word shows exactly the row's pixels, junk pad bits gone |
| MaskOverlap.RowWord | runtime/hx421_mask.c:84-95 | the word shows exactly the row's pixels |
| MaskOverlap.RowAnd | runtime/hx421_mask.c:148-154 | bit x of the aligned AND is set exactly when world pixel x of the row is set in both masks |
| MaskOverlap.SearchIsFirst | runtime/hx421_mask.c:157-161 | the search gives the row's first hit in the scan's direction |
| MaskOverlap.OrderIs | runtime/hx421_mask.c:134-136 | the four scan orders, said in coordinates: top or bottom row first, left or right pixel first |
| MaskOverlap.TestRow | runtime/hx421_mask.c:138-162 | one row: a first hit, or none exactly when the row has none |
| MaskOverlap.Overlap | runtime/hx421_mask.c:121-165 | a hit exactly when some world pixel is set in both masks, and then the first such pixel, least or greatest y and then x by the scan order, stored in 16 bits |
| MaskOverlap.Int16Exact | runtime/hx421_mask.c:157-161 | the stored coordinate is the true one exactly when it fits 16 bits |
| AudioRing.PushCopyKeeps | engine/audio/audio_ring_stream.c:44-48 | the slot about to be written holds no frame anyone may still read |
| AudioRing.NextKeepsInv | engine/audio/audio_ring_stream.c:30-109 | every single load, copy or store of either thread keeps cursors, data and copies in progress in order |
| AudioRing.LoadsDecide | engine/audio/audio_ring_stream.c:33-43 | what a thread decides when it looks at the other's cursor, in any interleaving: a push accepts what there is room for and counts the rest, a read takes what is published, up to what it wants |
| AudioRing.EveryInterleaving | engine/audio/audio_ring_stream.c:30-109 | under every interleaving, across 2^32 wraps: delivered frames are the accepted ones in order, at most 32768 behind, and offered = accepted + overflows |
| AudioRing.AfterEofNoSilence | engine/audio/audio_ring_stream.c:96-107 | after the end of the stream no read is padded or counted as an underrun, in any interleaving |
| AudioRing.NoSlotIsShared | engine/audio/audio_ring_stream.c:44-92 | a slot being written is never one being read |
| AudioRingStream.RingStream.PushFrames | engine/audio/audio_ring_stream.c:30-51 | the oldest frames that fit are accepted in order, the rest counted as overflow; the call is one run of the machine's push steps |
| AudioRingStream.RingStream.EndOfStream | engine/audio/audio_ring_stream.c:53-55 | the flag is set and nothing else; one step of the machine |
| AudioRingStream.RingStream.ReadFrames | engine/audio/audio_ring_stream.c:77-109 | the oldest unread frames in order, then silence and one underrun before the end of the stream, a short count after it; the call is one run of the machine's read steps |
| RlePack.EncodedIsShort | tools/hx421_rlepack.c:52-77 | the encoding is never longer than twice the input |
| RlePack.TokenReadsBack | tools/hx421_rlepack.c:81-105 | each token decodes to its run whatever follows it |
| RlePack.EncodedRun | tools/hx421_rlepack.c:52-77 | THE FORMAT written: 77 d lo hi for runs of 256 up, 5B d len for 4 to 255, shorter ones byte by byte, 5B, 77 and 9B behind a 9B |
| RlePack.DecodedFormat | tools/hx421_rlepack.c:81-105 | the format read, from any bytes, a length of 0 filling the room |
| RlePack.DecodedCut | tools/hx421_rlepack.c:84-95 | a stream that ends inside an item: a lone 5B stops, any other is completed from the bytes behind |
| RlePack.ThreeBytesSuffice | tools/hx421_rlepack.c:81-105 | with three readable bytes behind it every stream decodes, tokens cut by its end included |
| RlePack.DecodeEncode | tools/hx421_rlepack.c:52-105 | ROUND TRIP: decoding the encoding gives back every byte string, long runs and control bytes included |
| RlePack.Encode | tools/hx421_rlepack.c:52-77 | the loop writes exactly the encoding, within twice the input |
| RlePack.Decode | tools/hx421_rlepack.c:81-105 | the loop writes exactly what the stream stands for, cut off at the capacity, completing a cut token from the bytes behind the stream |

## Left out

- Opcode bytes: emitted bodies are lists of transfers and register writes; nothing bounds a body's length in bytes between its offset and the staging area, at maximum seam counts or elsewhere.
- The `HX421_FRAME_READY` handshake of the map producer; the letterbox and siphon bytes of the buffer headers; frame statistics and logging.
- MapEngine.Engine.Stage: keeps the body's register writes, VRAM and palette transfers as three lists, so their order among each other is not captured; they touch different targets.
- Camera paths: any sequence of cameras is allowed, so the triangle waves, parallax ratios and area jumps of the demo are inputs. Cameras and tile coordinates are unbounded integers; 32-bit overflow far outside any map is not modelled.
- Window offsets are counted in 16-bit words, as every offset and size in the modelled transfers is even.
- Pixel contents of video frames and sprites, the frame FIFO and its flush, audio preroll timing: the next decoded frame is an arbitrary input, or absent on an underrun.
- FmvEngine.Engine.StageBand: states what each staging area holds, not the order of the copies.
- `bitset_find_first_set` and the 64-bit and leading-zero bit helpers: nothing modelled here uses them.
- AudioPool.Pool.constructor: takes a region with room for a block, as `AudioPool.Init` has checked by then; null arguments and failed allocations of `audio_pool_init` are not modelled.
- AudioPool.Pool.Ref: counts without bound; the code's signed 32-bit count overflows after 2^31 references, which `PoolRuns.CountsFit` shows to take as many calls.
- `audio_pool_sweep_vm`: it drops a creation reference even when the creator already dropped it, so it does not fit the reference book.
- AudioPool.Pool.Alloc: does not say what a fresh object's bytes are, because they are whatever the blocks held before.
- VoiceArbiter.Arbiter.Play: voice parameters pass through to the sink and are not modelled; the sink's answers are inputs.
- Volume, pan, the mixing loop and output formats. In C the overflowing signed products of the kernels are undefined; they are modelled as two's complement.
- DriftSync.SyncMixer.ObserveSync: counters and 64-bit products are unbounded; the q15 copy of the correction, which nothing reads, is left out.
- InterpKernels.CubicPlays: is about sources up to 5461, the level up to which the kernel is exact.
- MixerChannels.MixerChannel.ProduceSample: the loop's read position is unbounded, where the code's wraps after 2^64 frames.
- Resampler.CorrectedStepIsSafe: does not model 64-bit overflow of base times correction, because the correction is clamped to a few percent.
- Actor coordinates with a camera other than the origin, which the vector generator fixes; the RTL itself.
- StreamArbiter.StreamArb.Start: promises order only for a ring inside the memory, of at most 2^31 bytes and apart from the other active rings, which the code leaves to its configuration (`MediaService.LaidOut`), and for a mixer that stands at a frame.
- What a stale byte is: the bytes a reader comes by between a start or a seek and the ring's base are whatever the ring held.
- A stream without a `read_ptr` seam; `hx421_stream_fill`.
- RasterGeometry.DepthBetweenVertices: is about exact integer arithmetic, as is every raster method; `RasterWidths` proves that the code's 32-bit and 64-bit values are the exact ones for vertices within 2^22 and shows one at 2^23 that is not. What happens beyond, signed overflow, is not modelled.
- `hx421_frame_subframes` and `hx421_frame_chunk` are plain divisions.
- FrameCompiler.RenderOut.RenderFrame: writes tile + attribute where the code writes tile | attribute; they agree as tile numbers stay below 1024 for colours below 16.
- Null arguments of the mask calls.
- MaskDerive.DeriveMask: asks for artwork that holds every tile of its sprites, which the code reads unchecked.
- MaskOverlap.Overlap: asks for masks at least one pixel wide with all their rows present, as a zero width would shift by 64.
- Weak memory: the ring's acquire and release pairs are taken as sequentially consistent steps. The overflow and underrun counters are unbounded. `reset` and the external clock of the audio ring are not modelled.
- RlePack.Decode: a cut token is completed from the bytes behind the stream; that there are some is asked for, as the code reads them unchecked.
- FFT, oriented boxes, velocity resolution, WAV and file access, the loader, the mailbox decoder and every Windows or firmware binding.
