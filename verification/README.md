# Models of a car head unit

Seven parts of the head unit are modelled here in Dafny, each with the properties it exists for. Methods follow
the program's loops and updates; each is proved to compute a specification function or to reach a stated new state,
and the lemmas prove what those functions and states promise.

* **QR Code encoder** (`Gf256`, `ReedSolomon`, `Interleave`, `Grid`, `Zigzag`, `Drawing`, `MaskPenalty`, `QrTables`,
  `QrSymbol`, `FunctionPatterns`, `BitStream`, `Segments`, `Encoder`; ISO/IEC 18004). The byte multiplication is
  shown to be a field, the error correction bytes to make every block a multiple of the generator, and so blocks of
  different data to differ in more bytes than there are error correction bytes. Interleaving is a bijection, the
  zigzag visits every free cell once, the function patterns of all forty versions leave room for the codewords, the
  automatic mask has the least penalty, and the score computed from a history of seven runs is the declarative one.
  Put together (`Encoder.EncodeText`): reading the finished symbol of any text gives the text.
* **Touch reader** (`TouchMapping`, `TouchRouter`, `TouchStream`, `TouchReader`). For every sequence of slot events,
  reports, gestures, grabs, device losses, mapping and zone changes the phone sees a legal Android pointer stream,
  and the pointers it thinks are down are the reader's.
* **Widget grid** (`GridLayout`, `InstanceIds`, `GridCells`, `GridRemap`, `RemapSearch`, `RemapBound`, `GridPages`,
  `PageCounts`, `GridState`, `WidgetGridModel`, `GridRuns`). `GridRemap` says what a remap to another grid size
  computes and proves that it finds room for a hundred and one placements, which is the most it always does;
  `RemapSearch` is the cell-array program and refines it. The class keeps a live layout, a baseline and a cell cache,
  and `GridRuns.Run` states what holds after any sequence of operations. `Valid` holds always; `Sound` (layouts laid
  out for their sizes, ids to come new) is kept by every operation; `Determined` says the live layout is a function
  of baseline, saved size and current size, and `PageCounts` says exactly when a new page count keeps it so.
* **Dashboards** (`Dashboards`). Several grid models with one persisted coordinate system, the commit that makes
  them agree, and loading.
* **Projected display** (`VideoDecoder`, `ProjectedSession`). The decoder's worker queue and the session's latched
  states, interleaved in any order, with a ghost history of what began, broke and rendered.
* **Message framing** (`Framing`). Writer and incremental reader of length-prefixed messages.
* **Configuration** (`YamlTree`, `YamlConfig`). The deep merge over trees and loading with its two migrations.

Where something holds only under a condition, the exact condition is stated, with an input that fails:
`RemapBound.BoundIsSharp` (a hundred and one placements can be kept apart, a hundred and two not always),
`PageCounts.PageCountKeeps` (a new page count can take the live layout away from its baseline),
`WidgetGridModel.ApplyPendingRemap` (a widget selected on a grid never loaded leaves the cell cache at its old size
after a resize, `WidgetGridModel.cpp` lines 1006-1007; `StaleCache` shows it), `DashboardManager.SavedSoundExactly`
(before the configuration has a saved size, a save can record none), `Framing.FrameBack` (a payload of 65536
bytes or more is framed under a length that wraps, and is then not read back), `WidgetGridModel.SetGridDimensions`
(a baseline that was never saved is adopted at the first size without a remap, so the result is sound exactly when
the baseline is sound at that size), `YamlTree.MergeFailsExactly` and `YamlConfiguration.RenameFailsExactly`.

Callers' duties taken over from the program: spans and grid sizes are at least one cell (both sizes may be unset),
instance ids are distinct and not empty, descriptor minimums are at least one, and a widget is placed, or a saved
size set, only while the cell cache has the size of the grid. What is promised of soundness besides: a widget is
selected on a loaded grid, and a hundred and one placements at most are on a dashboard when a remap takes place. All
dashboards have one saved size once the configuration had one or an edit has committed; every save is sound from
then on.

A YAML subscript by key turns a null or a sequence on its way into a mapping and fails on a scalar, as in yaml-cpp;
`YamlConfiguration.Subscripted` models that.

## Model

| member | source | states |
|---|---|---|
| Gf256.ReedSolomonMultiply | libs/qrcodegen/qrcodegen.cpp:739-748 | the peasant loop over a 16-bit accumulator computes the product of the field, with no bit above the low byte left |
| Gf256.MulAddLeft | libs/qrcodegen/qrcodegen.cpp:739-748 | multiplication distributes over addition on the left |
| Gf256.MulAddRight | libs/qrcodegen/qrcodegen.cpp:739-748 | multiplication distributes over addition on the right |
| Gf256.MulCommutes | libs/qrcodegen/qrcodegen.cpp:739-748 | multiplication is commutative, though the loop treats its arguments differently |
| Gf256.MulAssociates | libs/qrcodegen/qrcodegen.cpp:739-748 | multiplication is associative |
| Gf256.MulUnits | libs/qrcodegen/qrcodegen.cpp:739-748 | one is the unit and zero absorbs |
| Gf256.NoZeroDivisors | libs/qrcodegen/qrcodegen.cpp:739-748 | a product is zero only when a factor is |
| Gf256.MulCancel | libs/qrcodegen/qrcodegen.cpp:739-748 | a non-zero factor can be cancelled |
| Gf256.RootOrder | libs/qrcodegen/qrcodegen.cpp:709-721 | a power of 0x02 is one exactly when 255 divides the exponent |
| Gf256.RootsDistinct | libs/qrcodegen/qrcodegen.cpp:709-721 | the first 255 powers of 0x02 are pairwise different |
| ReedSolomon.ComputeDivisor | libs/qrcodegen/qrcodegen.cpp:701-723 | for every degree 1..255 the in-place product loop returns the generator without its leading term; every other degree is refused |
| ReedSolomon.GeneratorMonic | libs/qrcodegen/qrcodegen.cpp:704-710 | the generator has the degree asked for and leading coefficient one |
| ReedSolomon.GeneratorRoots | libs/qrcodegen/qrcodegen.cpp:709-721 | the generator vanishes exactly at the first powers of 0x02 |
| ReedSolomon.ComputeRemainder | libs/qrcodegen/qrcodegen.cpp:726-736 | the shift-register loop returns the remainder of polynomial division |
| ReedSolomon.DivisionIdentity | libs/qrcodegen/qrcodegen.cpp:726-736 | data shifted by the degree is quotient times divisor plus remainder, as polynomials |
| ReedSolomon.BlockChecks | libs/qrcodegen/qrcodegen.cpp:511-518 | data followed by its remainder evaluates to zero at 2^0 up to 2^(degree-1) |
| ReedSolomon.CheckedWordsAreHeavy | libs/qrcodegen/qrcodegen.cpp:701-736 | a non-zero word of at most 255 bytes that meets n checks has more than n non-zero bytes |
| ReedSolomon.MinimumDistance | libs/qrcodegen/qrcodegen.cpp:701-736 | blocks of different data differ in more than n bytes, n the number of error correction bytes |
| ReedSolomon.UniqueCorrection | libs/qrcodegen/qrcodegen.cpp:512-518 | a block with at most n/2 wrong bytes is close to one data sequence only |
| Interleave.SplitBlocks | libs/qrcodegen/qrcodegen.cpp:509-520 | the blocks are the data parts with the padding byte in short ones, each followed by its error correction bytes |
| Interleave.InterleaveBlocks | libs/qrcodegen/qrcodegen.cpp:522-531 | the column-wise loop emits the interleaving of the blocks |
| Interleave.AddEccAndInterleave | libs/qrcodegen/qrcodegen.cpp:498-533 | for every consistent plan the result is the interleaving of the data's blocks, of the raw length; a wrong data length is refused |
| Interleave.OutputLength | libs/qrcodegen/qrcodegen.cpp:531 | the output has the raw codeword count |
| Interleave.PosInside | libs/qrcodegen/qrcodegen.cpp:524-530 | every emitted byte has a position inside the output |
| Interleave.PosInjective | libs/qrcodegen/qrcodegen.cpp:524-530 | no two block bytes share an output position |
| Interleave.PosSurjective | libs/qrcodegen/qrcodegen.cpp:524-530 | every output position is a byte of some block, never the padding byte |
| Interleave.GatherRecovers | libs/qrcodegen/qrcodegen.cpp:522-533 | gathering the positions of a block gives its data and error correction bytes back |
| Interleave.PartsConcatenate | libs/qrcodegen/qrcodegen.cpp:512-514 | the data parts follow one another and make up the input |
| Interleave.DataRecovered | libs/qrcodegen/qrcodegen.cpp:498-533 | reading the interleaved codewords gives the data |
| Interleave.DamagedSymbolHasOneReading | libs/qrcodegen/qrcodegen.cpp:498-533 | when every block of a scanned symbol has at most half as many errors as error correction bytes, one data sequence only explains it |
| Zigzag.ScanVisitsOnce | libs/qrcodegen/qrcodegen.cpp:541-558 | for every odd size the zigzag visits each cell outside column 6 exactly once |
| Zigzag.FreeKeeps | libs/qrcodegen/qrcodegen.cpp:550 | skipping function modules keeps exactly the free cells, each once |
| Zigzag.FreeOrder | libs/qrcodegen/qrcodegen.cpp:550 | a free cell comes after as many others as there are free cells before it in the scan |
| Zigzag.PlacedStep | libs/qrcodegen/qrcodegen.cpp:545-557 | one turn of the inner loop places the next bit on the next free cell, or leaves the module alone when bits have run out |
| Zigzag.PlacedReads | libs/qrcodegen/qrcodegen.cpp:549-552 | each bit is found where it was put: later bits overwrite none, and other cells are untouched |
| Zigzag.ReadBack | libs/qrcodegen/qrcodegen.cpp:536-560 | reading the free cells in scan order gives the codewords |
| Drawing.MaskTwice | libs/qrcodegen/qrcodegen.cpp:349 | applying a mask twice is the identity, for every grid, function mask and mask number |
| Drawing.MaskDrawn | libs/qrcodegen/qrcodegen.cpp:338-355 | drawing function modules and masking commute |
| Drawing.DrawnOver | libs/qrcodegen/qrcodegen.cpp:353-355 | redrawing the same cells forgets what was drawn there before |
| Drawing.FormatReads | libs/qrcodegen/qrcodegen.cpp:417-423 | level and mask can be read off the fifteen-bit format word |
| Drawing.FormatShows | libs/qrcodegen/qrcodegen.cpp:425-439 | after drawing, both copies show each bit of the word and the last module is dark, whatever was drawn before |
| Drawing.FormatCellsDiffer | libs/qrcodegen/qrcodegen.cpp:425-439 | the thirty-one format cells are different: none is written twice |
| Drawing.FormatDistance | libs/qrcodegen/qrcodegen.cpp:417-422 | format words of different level or mask differ in at least seven bits |
| MaskPenalty.ExpandRuns | libs/qrcodegen/qrcodegen.cpp:592-609 | the run-length encoding of a line expands to that line, colours alternating from light |
| MaskPenalty.ExpandBordered | libs/qrcodegen/qrcodegen.cpp:765-774 | widening the first and last run is the line with `size` light modules at both ends |
| MaskPenalty.CountIsWindow | libs/qrcodegen/qrcodegen.cpp:751-757 | the seven latest run lengths decide the matches a new light run completes |
| MaskPenalty.AddHistory | libs/qrcodegen/qrcodegen.cpp:771-776 | the copy-backward loop keeps the seven latest run lengths, the first widened by the border |
| MaskPenalty.ScoreLine | libs/qrcodegen/qrcodegen.cpp:591-611 | scoring a line module by module gives the declarative score of its runs: long runs plus finder-like patterns with the border |
| MaskPenalty.BalanceLeast | libs/qrcodegen/qrcodegen.cpp:655-657 | for every odd size the balance term is the least k that meets the percentage condition, and lies in 0..9 |
| MaskPenalty.PenaltyBound | libs/qrcodegen/qrcodegen.cpp:659 | for every grid of a version's size the penalty lies in 0..2568888 |
| QrTables.BlocksFit | libs/qrcodegen/qrcodegen.cpp:792-808 | in all forty versions and four levels each block has data, and its length stays within the field's order |
| QrTables.StrongerHoldsLess | libs/qrcodegen/qrcodegen.cpp:694-698 | a stronger level holds strictly fewer data codewords |
| QrSymbol.FormatBits | libs/qrcodegen/qrcodegen.cpp:417-423 | the ten-step remainder loop computes the format word |
| QrSymbol.QrCode.constructor | libs/qrcodegen/qrcodegen.cpp:322-331 | an all-light grid of the version's size |
| QrSymbol.QrCode.SetFunctionModule | libs/qrcodegen/qrcodegen.cpp:485-490 | one module is set and marked, no other |
| QrSymbol.QrCode.DrawFormatBits | libs/qrcodegen/qrcodegen.cpp:416-440 | both copies of the format word and the dark module are written and marked, nothing else |
| QrSymbol.QrCode.DrawCodewords | libs/qrcodegen/qrcodegen.cpp:536-560 | the bits go to the free cells in scan order; a wrong codeword count is refused |
| QrSymbol.QrCode.ApplyMask | libs/qrcodegen/qrcodegen.cpp:563-584 | exactly the non-function modules the mask names are inverted; an unknown mask is refused |
| QrSymbol.QrCode.GetPenaltyScore | libs/qrcodegen/qrcodegen.cpp:587-661 | the four loops compute the penalty of the grid |
| QrSymbol.CandidateReached | libs/qrcodegen/qrcodegen.cpp:342-343 | whatever format bits were drawn before, masking and redrawing reaches the candidate of that mask |
| QrSymbol.QrCode.TryMask | libs/qrcodegen/qrcodegen.cpp:354-355 | the symbol under one mask with matching format bits |
| QrSymbol.QrCode.ChooseMask | libs/qrcodegen/qrcodegen.cpp:339-351 | the chosen mask's penalty is at most that of all eight, and the drawing is restored |
| QrSymbol.QrCode.Build | libs/qrcodegen/qrcodegen.cpp:320-359 | the finished symbol is the unmasked drawing under one mask with matching format bits, least in penalty when the choice was automatic; each bad argument has its error |
| QrSymbol.DataCellsAreAll | libs/qrcodegen/qrcodegen.cpp:541-550 | every cell that is no function module carries data or a remainder bit: column 6 has none |
| FunctionPatterns.PositionInside | libs/qrcodegen/qrcodegen.cpp:664-676 | in every version the alignment coordinates lie inside the grid; all but the first keep clear of the finder patterns before them, all but the last of those behind |
| FunctionPatterns.CoverSize | libs/qrcodegen/qrcodegen.cpp:679-691 | the closed formula for raw data modules is the grid without the timing column, less a cover of the patterns counted one by one |
| FunctionPatterns.MaskCovered | libs/qrcodegen/qrcodegen.cpp:387-482 | every function module outside the timing column is in that cover |
| FunctionPatterns.EncoderPatternsFit | libs/qrcodegen/qrcodegen.cpp:387-413 | in all forty versions the timing, finder, alignment and version modules lie inside the grid and leave room for every codeword |
| QrSymbol.MaskReads | libs/qrcodegen/qrcodegen.cpp:354-355 | the mask of a finished symbol can be read from it |
| QrSymbol.SymbolReads | libs/qrcodegen/qrcodegen.cpp:320-359 | reading mask and modules of a finished symbol gives the codewords |
| BitStream.ValueBack | libs/qrcodegen/qrcodegen.cpp:822-827 | the bits of a value read as that value |
| BitStream.BitBuffer.AppendBits | libs/qrcodegen/qrcodegen.cpp:822-827 | exactly the low bits are appended, most significant first; a value that does not fit is refused and nothing changes |
| Segments.MakeBytes | libs/qrcodegen/qrcodegen.cpp:69-76 | one byte-mode segment of eight bits a byte, refused only beyond the integer range |
| Segments.MakeNumeric | libs/qrcodegen/qrcodegen.cpp:79-99 | groups of three digits in ten bits, the rest in four or seven; refused exactly when some character is no digit |
| Segments.MakeAlphanumeric | libs/qrcodegen/qrcodegen.cpp:102-122 | pairs in eleven bits, a last character in six; refused exactly when some character is outside the charset |
| Segments.MakeSegments | libs/qrcodegen/qrcodegen.cpp:125-140 | nothing for an empty text, else one segment in the densest mode that takes it |
| Segments.IsNumeric | libs/qrcodegen/qrcodegen.cpp:196-203 | true exactly for texts of digits |
| Segments.IsAlphanumeric | libs/qrcodegen/qrcodegen.cpp:206-212 | true exactly for texts of the charset |
| Segments.NumericBack | libs/qrcodegen/qrcodegen.cpp:79-99 | a decoder gets the digits back from a numeric segment's bits |
| Segments.AlnumBack | libs/qrcodegen/qrcodegen.cpp:102-122 | a decoder gets the characters back from an alphanumeric segment's bits |
| Segments.CharsBack | libs/qrcodegen/qrcodegen.cpp:69-122 | in each mode the segment's characters can be read from its bits |
| Encoder.GetTotalBits | libs/qrcodegen/qrcodegen.cpp:179-193 | the length of the segments' bit stream, -1 exactly when a count does not fit its field or the sum an int |
| Encoder.AppendSegments | libs/qrcodegen/qrcodegen.cpp:290-296 | the buffer holds mode, count and data of each segment in order |
| Encoder.PadBuffer | libs/qrcodegen/qrcodegen.cpp:299-308 | terminator, byte padding and alternating pad bytes fill the capacity exactly |
| Encoder.PackCodewords | libs/qrcodegen/qrcodegen.cpp:310-313 | the bits packed into bytes, most significant first |
| Encoder.EncodeSegments | libs/qrcodegen/qrcodegen.cpp:259-317 | the chosen version is the least in range that fits; the level never sinks and with boosting is the strongest that fits; refused exactly when no version fits or an argument is bad |
| Encoder.ParseStream | libs/qrcodegen/qrcodegen.cpp:290-296 | parsing mode, count and data of the stream gives the segments' modes and characters |
| Encoder.ParseStops | libs/qrcodegen/qrcodegen.cpp:299-308 | parsing stops at the terminator, or where the capacity leaves no room for one |
| Encoder.DataReads | libs/qrcodegen/qrcodegen.cpp:290-313 | the data codewords parse to the segments they were made from |
| Encoder.MessageBack | libs/qrcodegen/qrcodegen.cpp:259-359 | a finished symbol reads as the segments it was made from: format, mask, zigzag, interleaving, padding and segments undone |
| Encoder.EncodeText | libs/qrcodegen/qrcodegen.cpp:247-250 | reading the symbol of any text, drawn with the encoder's own function patterns, gives the text, in the least version that holds it; refused exactly when none does |
| TouchMapping.VideoFits | src/core/aa/EvdevTouchReader.cpp:82-97 | the video keeps the content's shape, is centred in the effective display and fills it in one direction |
| TouchMapping.LetterboxValid | src/core/aa/EvdevTouchReader.cpp:64-102 | whatever the navbar takes, the mapping has a positive extent |
| TouchMapping.AxisMaps | src/core/aa/EvdevTouchReader.cpp:182-198 | mapped coordinates stay in range, grow with the raw value, and on a bar stick to the near edge |
| TouchRouter.SortZonesSorts | src/core/aa/TouchRouter.cpp:7-12 | sorting keeps every zone, higher priorities first |
| TouchRouter.TouchRouter.SetZones | src/core/aa/TouchRouter.cpp:7-31 | zones are replaced, and a claim survives exactly when its zone does |
| TouchRouter.TouchRouter.Dispatch | src/core/aa/TouchRouter.cpp:33-68 | a live claim takes the touch, released by Up; otherwise only a Down claims, for a zone of highest priority under it; other slots keep their claims |
| TouchRouter.TouchRouter.ResetClaims | src/core/aa/TouchRouter.cpp:70-75 | no claim is left |
| TouchStream.StreamDetermines | src/core/aa/EvdevTouchReader.cpp:265-283 | a legal message stream leaves one set of pointers down |
| TouchStream.PrefixLegal | src/core/aa/EvdevTouchReader.cpp:265-283 | what the phone saw was legal at every moment |
| TouchReader.UpIsLegal | src/core/aa/EvdevTouchReader.cpp:273-281 | listing the pointers down and marking one is a legal up message, UP exactly for the last |
| TouchReader.DownIsLegal | src/core/aa/EvdevTouchReader.cpp:564-574 | listing the pointers with the new one is a legal down message, DOWN exactly for the first |
| TouchReader.PointerIds | src/core/aa/EvdevTouchReader.cpp:465-477 | the pointers listed are exactly the phone-visible slots, in slot order |
| TouchReader.EvdevTouchReader.BuildAaPointers | src/core/aa/EvdevTouchReader.cpp:465-477 | each phone-visible slot at its mapped position, its last one if it was lifted |
| TouchReader.EvdevTouchReader.Retire | src/core/aa/EvdevTouchReader.cpp:537-547 | one legal up message, and the pointer is forgotten |
| TouchReader.EvdevTouchReader.Admit | src/core/aa/EvdevTouchReader.cpp:564-575 | one legal down message, and the pointer is remembered |
| TouchReader.EvdevTouchReader.ReleaseAaTouchStream | src/core/aa/EvdevTouchReader.cpp:265-283 | one legal message for each pointer down, after which none is |
| TouchReader.EvdevTouchReader.ResetTouchState | src/core/aa/EvdevTouchReader.cpp:285-296 | the phone is told before slots, gesture and claims are forgotten |
| TouchReader.EvdevTouchReader.ApplyRequestedGrab | src/core/aa/EvdevTouchReader.cpp:298-316 | the grab follows the request when the device obeys; after an ungrab nothing is down |
| TouchReader.EvdevTouchReader.DeviceLost | src/core/aa/EvdevTouchReader.cpp:409-410 | a lost device leaves nothing down and no grab |
| TouchReader.EvdevTouchReader.HandleEvent | src/core/aa/EvdevTouchReader.cpp:374-393 | a slot event selects the slot, clamped to the ten there are; any other event writes its value to the current slot only, and nothing is sent |
| TouchReader.EvdevTouchReader.CheckGesture | src/core/aa/EvdevTouchReader.cpp:429-463 | a gesture is on from three fingers inside the window until all are lifted; the most fingers seen are kept until then |
| TouchReader.EvdevTouchReader.DispatchAll | src/core/aa/EvdevTouchReader.cpp:486-511 | a pointer the phone knows is never consumed; a press is consumed exactly when a zone takes it |
| TouchReader.EvdevTouchReader.ForwardSync | src/core/aa/EvdevTouchReader.cpp:523-597 | lifts, then unclaimed presses, one message each; a move only when there was neither |
| TouchReader.EvdevTouchReader.ProcessSync | src/core/aa/EvdevTouchReader.cpp:479-603 | which pointers go up and down in a report, the exact number of messages, each with current coordinates; a gesture lifts everything |
| TouchReader.EvdevTouchReader.Sync | src/core/aa/EvdevTouchReader.cpp:394-405 | without the grab only the gesture is tracked, and nothing is sent |
| TouchReader.EvdevTouchReader.Run | src/core/aa/EvdevTouchReader.cpp:318-419 | for every sequence of events, reports, grabs, losses, remaps and zone changes the phone saw a legal stream, its set is the reader's, and it is empty without a grab or during a gesture |
| GridLayout.OverlapIsSharedCell | src/ui/WidgetGridModel.cpp:498-501 | the overlap test holds exactly when the rectangles share a cell |
| GridLayout.IndexInjective | src/ui/WidgetGridModel.cpp:1117 | two cells of a grid never share a slot of the flat array |
| InstanceIds.InstanceIdInjective | src/ui/WidgetGridModel.cpp:156 | widget id and serial number can be read off an instance id, even when the widget id has dashes or digits |
| GridCells.MarkCells | src/ui/WidgetGridModel.cpp:1113-1121 | exactly the covered cells inside the grid get the owner |
| GridCells.CellsFree | src/ui/WidgetGridModel.cpp:778-783 | true exactly when no cell of the rectangle inside the grid has an owner |
| GridRemap.ScaledFits | src/ui/WidgetGridModel.cpp:751-772 | a placement that can fit is clamped and scaled into the grid, on its target page |
| GridRemap.SpiralOk | src/ui/WidgetGridModel.cpp:840-879 | an anchor the spiral returns is inside the grid and free |
| GridRemap.SpiralComplete | src/ui/WidgetGridModel.cpp:844-878 | the spiral finds an anchor whenever there is one, from any start in the grid |
| GridRemap.SpillFinds | src/ui/WidgetGridModel.cpp:881-911 | the spill finds a free anchor when one of the pages it tries is empty |
| GridRemap.PlaceOneShape | src/ui/WidgetGridModel.cpp:733-807 | a placement is hidden exactly when its minimum span cannot fit; otherwise it is inside the grid, on its target page or later, however many are down |
| GridRemap.PageIsFree | src/ui/WidgetGridModel.cpp:886 | fewer than n placements leave one of any n consecutive pages empty |
| GridRemap.PlaceOneSound | src/ui/WidgetGridModel.cpp:733-807 | with at most a hundred placements down, one more stands apart from all of them |
| GridRemap.RemapKeepsAll | src/ui/WidgetGridModel.cpp:716-838 | a remap of any baseline keeps every placement in its place in the list, hides exactly those that cannot fit, and puts the rest inside the grid |
| GridRemap.RemapSound | src/ui/WidgetGridModel.cpp:716-838 | a remap of any baseline of at most a hundred and one placements, even an overlapping one, leaves the visible ones inside the grid and disjoint |
| GridRemap.RemapNeverEarlier | src/ui/WidgetGridModel.cpp:817-833 | in any baseline, no placement moves to an earlier page |
| GridRemap.RemapReservedLast | src/ui/WidgetGridModel.cpp:819-833 | in any baseline, every placement of a reserved page stands strictly after every other |
| RemapBound.CrowdOverlaps | src/ui/WidgetGridModel.cpp:881-911 | any more than a hundred and one widgets of one cell, sound side by side on one page, overlap after the remap to a single cell |
| RemapBound.BoundIsSharp | src/ui/WidgetGridModel.cpp:881-911 | all baselines of n placements are remapped without overlap if and only if n is at most a hundred and one |
| RemapSearch.FreeCellsAreFreeAt | src/ui/WidgetGridModel.cpp:776-783 | testing cells one by one is testing overlap with everything placed on the page |
| RemapSearch.SpiralNudge | src/ui/WidgetGridModel.cpp:840-879 | the ring loops return the first free anchor in spiral order, or leave the placement alone |
| RemapSearch.SpillToNextPage | src/ui/WidgetGridModel.cpp:881-911 | the attempt loop ends where the spill does, and the page arrays stay in step |
| RemapSearch.RemapOne | src/ui/WidgetGridModel.cpp:733-807 | the cell-array algorithm puts a placement where the specification does and marks exactly its cells |
| RemapSearch.SortedPages | src/ui/WidgetGridModel.cpp:819-820 | the reserved pages, each once, in ascending order |
| RemapSearch.AssignTargets | src/ui/WidgetGridModel.cpp:819-825 | consecutive targets in page order |
| RemapSearch.RemapAll | src/ui/WidgetGridModel.cpp:716-838 | the two passes over the baseline compute the remapped layout |
| GridPages.ComputeRequiredPageCount | src/ui/WidgetGridModel.cpp:1028-1034 | the least page count, at least one, that holds every placement |
| GridPages.TailPageOrder | src/ui/WidgetGridModel.cpp:1050-1063 | reserved pages keep their order, so do the others, and all reserved pages come after all others |
| GridPages.TailPageInjective | src/ui/WidgetGridModel.cpp:1050-1063 | no two pages are merged |
| GridPages.TailPageOnto | src/ui/WidgetGridModel.cpp:1050-1063 | every page of the result comes from one page |
| GridPages.RenamedSound | src/ui/WidgetGridModel.cpp:1065-1072 | renaming pages without merging keeps each page's layout |
| GridPages.MoveRequires | src/ui/WidgetGridModel.cpp:1050-1074 | with a reserved page the last page is in use after the move |
| GridPages.MoveTwice | src/ui/WidgetGridModel.cpp:1036-1075 | moving again changes nothing |
| GridPages.MoveReservedPagesToTail | src/ui/WidgetGridModel.cpp:1036-1075 | the ordered list and the page map rename the pages so, and the flag says whether anything changed |
| PageCounts.PlaceOneShift | src/ui/WidgetGridModel.cpp:733-807 | behind a gap between the pages, a placement lands where it would have landed without the gap, the gap later |
| PageCounts.MovedRemap | src/ui/WidgetGridModel.cpp:532-551 | when the other widgets stay, the moved baseline is laid out as before with the reserved pages behind a gap |
| PageCounts.PageCountKeeps | src/ui/WidgetGridModel.cpp:532-551 | after a new page count the live layout is the one its baseline has at this size, if and only if there is no singleton, or the other widgets stay, no reserved page spilled over, and the move leaves the live layout alone or takes every placement of a reserved page along with a singleton |
| PageCounts.NoSingleton | src/ui/WidgetGridModel.cpp:532-551 | without a singleton nothing moves and the remap does not depend on the page count |
| PageCounts.LastPagesKeep | src/ui/WidgetGridModel.cpp:532-551 | when the reserved pages come last in the baseline and none spilled over, every page count keeps the layout |
| PageCounts.PageCountLoses | src/ui/WidgetGridModel.cpp:532-551 | an input on which the new page count shows no change and the next resize shows another layout |
| GridState.OccupancyNamesTheCover | src/ui/WidgetGridModel.cpp:1104-1133 | in a sound layout the cell cache names exactly the placement that covers each cell |
| GridState.PlacingKeeps | src/ui/WidgetGridModel.cpp:147-166 | a new widget where it can stand keeps the layout sound, ids unique and later ids new |
| GridState.ReshapingKeeps | src/ui/WidgetGridModel.cpp:187-229 | a new rectangle where it can stand keeps the layout sound |
| GridState.RemoveFromPage | src/ui/WidgetGridModel.cpp:589-592 | removing from the back leaves the other placements, in order and sound |
| GridState.RaisingKeeps | src/ui/WidgetGridModel.cpp:565-568 | opening a page merges none |
| GridState.LoweringKeeps | src/ui/WidgetGridModel.cpp:595-598 | closing an empty page merges none |
| GridState.LayoutForKeeps | src/ui/WidgetGridModel.cpp:677-707 | the layout a baseline has at any size names the same widgets, on enough pages, and is sound when the baseline is |
| GridState.MovingKeeps | src/ui/WidgetGridModel.cpp:537-546 | moving reserved pages in both layouts keeps the baseline within the live layout's pages |
| WidgetGrid.WidgetGridModel.RebuildOccupancy | src/ui/WidgetGridModel.cpp:1104-1111 | the cache holds each cell's owner on the active page |
| WidgetGrid.WidgetGridModel.CellOwner | src/ui/WidgetGridModel.cpp:1128-1133 | the owner of a cell, none outside the grid, whenever the cache is exact |
| WidgetGrid.WidgetGridModel.FindPlacement | src/ui/WidgetGridModel.cpp:1095-1102 | an index with that id, -1 exactly when there is none |
| WidgetGrid.WidgetGridModel.CanPlaceOnPage | src/ui/WidgetGridModel.cpp:486-504 | true exactly when the rectangle is inside the grid and meets no other visible placement of the page |
| WidgetGrid.WidgetGridModel.FindFirstAvailableCell | src/ui/WidgetGridModel.cpp:506-515 | the first anchor, row by row, where the widget can stand; none exactly when it can stand nowhere |
| WidgetGrid.WidgetGridModel.SetCurrentPageCount | src/ui/WidgetGridModel.cpp:1077-1093 | page count at least one, active page clamped, cache rebuilt exactly when the active page changed |
| WidgetGrid.WidgetGridModel.RemapPlacements | src/ui/WidgetGridModel.cpp:716-838 | the live layout is the remapped baseline, on the pages it needs and no fewer than the baseline's |
| WidgetGrid.WidgetGridModel.AdoptLayout | src/ui/WidgetGridModel.cpp:677-707 | the three ways to lay a baseline out, chosen by the saved size |
| WidgetGrid.WidgetGridModel.ApplyPendingRemap | src/ui/WidgetGridModel.cpp:999-1026 | a deferred remap gives the layout the baseline has at the current size, without one nothing changes; afterwards the cell cache is exact if and only if something was loaded or the cache has the size of the grid |
| WidgetGrid.StaleCache | src/ui/WidgetGridModel.cpp:999-1007 | selecting on a grid never loaded, resizing and deselecting leaves a cache of the old size |
| WidgetGrid.WidgetGridModel.AdoptLiveAsBaseline | src/ui/WidgetGridModel.cpp:991-997 | live layout and baseline are one, at one size, and the invariants hold again |
| WidgetGrid.WidgetGridModel.PlaceWidget | src/ui/WidgetGridModel.cpp:147-179 | succeeds exactly when the widget can stand; one placement with a new id is appended and committed, else nothing but a deferred remap happens |
| WidgetGrid.WidgetGridModel.MoveWidget | src/ui/WidgetGridModel.cpp:181-202 | succeeds exactly when the widget exists and can stand there; only its corner changes |
| WidgetGrid.WidgetGridModel.ResizeWidget | src/ui/WidgetGridModel.cpp:204-237 | succeeds exactly when span limits and space allow; only its spans change |
| WidgetGrid.WidgetGridModel.ResizeWidgetFromEdge | src/ui/WidgetGridModel.cpp:239-282 | corner and spans change together or not at all |
| WidgetGrid.WidgetGridModel.EditAppearance | src/ui/WidgetGridModel.cpp:305-316 | opacity or configuration edits commit the layout shown, without changing it |
| WidgetGrid.WidgetGridModel.RemoveWidget | src/ui/WidgetGridModel.cpp:284-303 | exactly a present widget that is no singleton goes, the others stay in order |
| WidgetGrid.WidgetGridModel.SetActivePage | src/ui/WidgetGridModel.cpp:521-528 | the page is clamped and the cache follows |
| WidgetGrid.WidgetGridModel.AddPage | src/ui/WidgetGridModel.cpp:553-577 | an empty page opens before the first reserved page, or at the end |
| WidgetGrid.WidgetGridModel.RemovePage | src/ui/WidgetGridModel.cpp:579-613 | only a page in range, not the first and not reserved, goes with its placements; later pages move up |
| WidgetGrid.WidgetGridModel.RemoveAllWidgetsOnPage | src/ui/WidgetGridModel.cpp:615-628 | exactly the page's placements go |
| WidgetGrid.WidgetGridModel.SetPageCount | src/ui/WidgetGridModel.cpp:532-551 | reserved pages move to the end of both layouts, never fewer pages than the live layout needs; a live layout that was the baseline's stays so if and only if the condition of PageCountKeeps holds |
| WidgetGrid.WidgetGridModel.SetGridDimensions | src/ui/WidgetGridModel.cpp:652-714 | while a widget is selected only the size changes; otherwise the layout is made from the baseline again; the first size is adopted soundly exactly when the baseline is sound at it |
| WidgetGrid.WidgetGridModel.SetWidgetSelected | src/ui/WidgetGridModel.cpp:955-966 | deselecting carries out a deferred remap; selecting changes nothing else and is sound on any loaded grid |
| WidgetGrid.WidgetGridModel.SetPlacements | src/ui/WidgetGridModel.cpp:921-947 | pages clamped, reserved pages at the end, the same layout live and as baseline |
| GridRuns.Edit | src/ui/WidgetGridModel.cpp:147-316 | every edit keeps the model sound, does to the layout exactly what its kind of edit says, and commits or leaves the baseline, its size and the ids to come alone |
| GridRuns.Run | src/ui/WidgetGridModel.cpp:147-1133 | after any run: ids unique, pages in range, and unless a remap is deferred all visible placements inside the grid, disjoint and exactly cached; if the registry has no singletons or every new page count met its condition, the end shows the layout its baseline has at that size; a run of resizes, selections and page turns keeps the baseline and shows it again at the saved size |
| Dashboards.DashboardManager.SaveAll | src/ui/DashboardManager.cpp:319-346 | the configuration holds every dashboard's baseline and the active one's saved size; with one saved size for all, everything saved is sound |
| Dashboards.DashboardManager.ResizeOthers | src/ui/DashboardManager.cpp:370-373 | every dashboard is laid out at the committed size, those already at it untouched |
| Dashboards.DashboardManager.AdoptAll | src/ui/DashboardManager.cpp:374-375 | every dashboard's baseline is its live layout |
| Dashboards.DashboardManager.CommitSharedBaseline | src/ui/DashboardManager.cpp:354-379 | all dashboards show their baselines at one size, exactly that is saved, and it is sound |
| Dashboards.DashboardManager.EditActive | src/ui/DashboardManager.cpp:354-379 | the active dashboard is edited as its kind of edit says, the others show what they showed; after a commit every saved placement stands, disjoint, in the saved grid, without one nothing is saved |
| Dashboards.DashboardManager.SavesAreSound | src/ui/DashboardManager.cpp:319-346 | what is saved is sound at the one size it is saved with, whatever the occasion |
| Dashboards.DashboardManager.SavedSoundExactly | src/ui/DashboardManager.cpp:319-346 | a save is sound if and only if every visible placement is inside the grid of the saved size |
| Dashboards.SaveWithoutSize | src/ui/DashboardManager.cpp:319-346 | an input without a common size on which a save records no size for a dashboard with a widget |
| Dashboards.DashboardManager.Leave | src/ui/DashboardManager.cpp:182-186 | the dashboard left is deselected and its deferred remap done |
| Dashboards.DashboardManager.SwitchTo | src/ui/DashboardManager.cpp:176-191 | succeeds exactly for a known id; a real switch leaves no dashboard selected or pending |
| Dashboards.DashboardManager.SwitchToIndex | src/ui/DashboardManager.cpp:193-202 | succeeds exactly for an index in range, likewise |
| Dashboards.DashboardManager.NextDashboard | src/ui/DashboardManager.cpp:204-211 | the next index, wrapping, likewise |
| Dashboards.DashboardManager.PreviousDashboard | src/ui/DashboardManager.cpp:213-220 | the previous index, wrapping, likewise |
| Dashboards.DashboardManager.FreshId | src/ui/DashboardManager.cpp:230-235 | the base id when no dashboard has it, else the base id with the least free suffix from two on; the search ends |
| Dashboards.DashboardManager.AddDashboard | src/ui/DashboardManager.cpp:222-260 | a new empty dashboard of one page at the active one's current and saved sizes, under a fresh id; refused exactly for an empty name or the ninth dashboard; what is saved stays sound |
| Dashboards.DashboardManager.RemoveDashboard | src/ui/DashboardManager.cpp:262-291 | refused exactly for home, the last and the unknown; removing another keeps the active dashboard, removing the active one goes home; what is saved stays sound |
| Dashboards.DashboardManager.RenameDashboard | src/ui/DashboardManager.cpp:293-304 | only that dashboard's name changes; what is saved stays sound |
| Dashboards.DashboardManager.SetGridDimensions | src/ui/DashboardManager.cpp:312-317 | every dashboard takes the size; baselines and selection stay |
| Dashboards.LoadModel | src/ui/DashboardManager.cpp:69-76 | a loaded dashboard shows its saved layout at the current size; up to a hundred and one placements it is sound when what was saved is, and when no size was saved exactly when it is sound at the current one |
| Dashboards.ReloadShowsTheSame | src/ui/DashboardManager.cpp:69-76 | loading what was saved shows the same layout on the same pages, when the reserved pages are the last ones |
| VideoDecoding.VideoDecoder.Begin | src/core/aa/VideoDecoder.cpp:663-682 | a generation never given out before, 0 exactly without a worker; waiting frames are dropped, and the beginning queues behind the boundaries in their order |
| VideoDecoding.VideoDecoder.End | src/core/aa/VideoDecoder.cpp:684-698 | frames are refused from now on; waiting frames are dropped, and the end queues behind the boundaries in their order |
| VideoDecoding.VideoDecoder.DecodeFrame | src/core/aa/VideoDecoder.cpp:305-309 | a frame is queued exactly inside a stream |
| VideoDecoding.VideoDecoder.WorkerTake | src/core/aa/VideoDecoder.cpp:707-721 | a frame reaches the worker only in its own stream |
| VideoDecoding.VideoDecoder.WorkerFinish | src/core/aa/VideoDecoder.cpp:723-744 | a boundary takes over its generation, clears every picture and signals an end or a failed start; a frame is fed, each of its pictures signalled, and the last one is the one to show |
| VideoDecoding.DropFrames | src/core/aa/VideoDecoder.cpp:669-677 | the loop over the queue keeps the boundaries in order and drops the frames |
| ProjectedSession.RunningBegan | src/core/aa/ProjectedDisplaySession.cpp:88-124 | a running stream has begun, and nothing stopped or restarted it since |
| ProjectedSession.RenderedStory | src/core/aa/ProjectedDisplaySession.cpp:160-198 | what put the display in its rendering state belonged to a stream that began once and that no stop, restart, channel change or session end had ended |
| ProjectedSession.ProjectedDisplaySession.BeginProtocolSession | src/core/aa/ProjectedDisplaySession.cpp:342-367 | a fresh session waits for its channel, or is in error without a worker |
| ProjectedSession.ProjectedDisplaySession.EndProtocolSession | src/core/aa/ProjectedDisplaySession.cpp:369-386 | disconnected, with nothing running |
| ProjectedSession.ProjectedDisplaySession.NoteChannelOpened | src/core/aa/ProjectedDisplaySession.cpp:388-411 | opening the video channel ends what was running; other channels and a latched state change nothing |
| ProjectedSession.ProjectedDisplaySession.NoteChannelClosed | src/core/aa/ProjectedDisplaySession.cpp:413-430 | closing the video channel ends what was running, likewise |
| ProjectedSession.ProjectedDisplaySession.NoteChannelRejected | src/core/aa/ProjectedDisplaySession.cpp:432-443 | a rejected video or input channel of a live session is terminal |
| ProjectedSession.ProjectedDisplaySession.EnterTerminalState | src/core/aa/ProjectedDisplaySession.cpp:517-525 | the state is latched and nothing runs |
| ProjectedSession.ProjectedDisplaySession.StreamStarted | src/core/aa/ProjectedDisplaySession.cpp:88-111 | a new stream under a new generation, or the error state without a worker |
| ProjectedSession.ProjectedDisplaySession.StreamStopped | src/core/aa/ProjectedDisplaySession.cpp:112-124 | nothing runs; the display waits for frames or for its channel |
| ProjectedSession.ProjectedDisplaySession.OnFrameReady | src/core/aa/ProjectedDisplaySession.cpp:160-199 | a signal of the running stream renders and shows the waiting picture, which comes from that stream's data, or on the cluster ends in error when the picture has the wrong size; any other signal changes nothing |
| ProjectedSession.ProjectedDisplaySession.OnStreamError | src/core/aa/ProjectedDisplaySession.cpp:200-209 | only the running stream's error is terminal, and it shows nothing |
| ProjectedSession.Step | src/core/aa/ProjectedDisplaySession.cpp:88-215 | each event leaves exactly its marks in the history; a stop, a change of the video channel and a session begin or end leave no stream running, and nothing but a start makes one run |
| ProjectedSession.Run | src/core/aa/ProjectedDisplaySession.cpp:88-215 | in every interleaving of protocol events, worker steps and deliveries: rendering means an active session with a running stream, every picture shown came from the stream then active, nothing renders after a stop, video channel change or session begin or end until another stream starts, and a terminal state lasts until the next begin or end |
| Framing.SendMessage | src/core/aa/BluetoothDiscoveryService.cpp:566-586 | the array holds the frame of the message |
| Framing.FrameBack | src/core/aa/BluetoothDiscoveryService.cpp:464-504 | a frame followed by anything is read back whole exactly when its payload fits the sixteen-bit length |
| Framing.ParseInPieces | src/core/aa/BluetoothDiscoveryService.cpp:466-504 | where a byte stream is cut does not matter |
| Framing.ParseConserves | src/core/aa/BluetoothDiscoveryService.cpp:469-503 | for any bytes, the messages found, framed again, and the bytes left are the stream |
| Framing.FramesBack | src/core/aa/BluetoothDiscoveryService.cpp:464-504 | frames one after another are read back in order with nothing left |
| Framing.Reader.ReadSocket | src/core/aa/BluetoothDiscoveryService.cpp:464-504 | dispatches exactly the whole frames received, keeps only an incomplete one, and ends |
| Framing.ReadAll | src/core/aa/BluetoothDiscoveryService.cpp:464-504 | however the frames of messages are cut into chunks, exactly those ids and payloads arrive in order and the buffer ends empty |
| YamlTree.MergeIntoAt | src/core/YamlMerge.hpp:27-34 | the merge works key by key: each key has the merge of what both sides have under it |
| YamlTree.MergeFailsExactly | src/core/YamlMerge.hpp:19-24 | the merge fails exactly when at some path a value that is neither null nor a mapping lies over a mapping of the base |
| YamlTree.MergeCovers | src/core/YamlMerge.hpp:11-39 | every mapping of the base stays one, its keys first and in order, and no value of it becomes null |
| YamlTree.CoversMappings | src/core/YamlMerge.hpp:19-24 | a path to a mapping of the base is a path to a mapping of the result |
| YamlTree.CoveredIsFixed | src/core/YamlMerge.hpp:11-39 | a tree that covers the base is its own merge over it |
| YamlTree.MergeTwice | src/core/YamlMerge.hpp:11-39 | merging the result again changes nothing |
| YamlConfiguration.YamlConfig.Load | src/core/YamlConfig.cpp:220-259 | rename, merge and migrate, or the defaults; a file is moved aside exactly when it exists and cannot be used |
| YamlConfiguration.YamlConfig.MigrateWidgetGridV3 | src/core/YamlConfig.cpp:1213-1240 | the in-place migration of the grid, leaving the rest of the tree alone |
| YamlConfiguration.RenameFailsExactly | src/core/YamlConfig.cpp:1242-1248 | the rename fails exactly when a scalar stands on the way to the equalizer's streams |
| YamlConfiguration.PhoneBecomesSystem | src/core/YamlConfig.cpp:1249-1253 | the phone stream is found under system unless there was one; other streams are untouched |
| YamlConfiguration.PlacementsAreNested | src/core/YamlConfig.cpp:1222-1239 | flat placements become those of one home dashboard of the current version, and are gone from the grid |
| YamlConfiguration.MigratedIsCurrent | src/core/YamlConfig.cpp:1222-1239 | a migrated grid needs no migration |
| YamlConfiguration.LoadedKeepsMappings | src/core/YamlConfig.cpp:220-259 | whatever is loaded, every mapping of the defaults is a mapping |
| YamlConfiguration.LoadTwice | src/core/YamlConfig.cpp:220-259 | loading what was loaded changes nothing |
| YamlConfiguration.DefaultsAreBuiltIn | src/core/YamlConfig.cpp:123-206 | the built-in streams and grid meet what loading needs of the defaults |

## Left out
- QrSymbol.QrCode.Build: function patterns are any list of writes that fits; the encoder's own are `FunctionPatterns.Patterns`, written out as the cells in drawing order instead of drawn by nested loops.
- FunctionPatterns.EncoderPatternsFit: the colours of the patterns and the error correction of the version information are written out, and nothing is proved of them.
- Segments.MakeSegments: ECI and Kanji segments are not modelled, nor are texts with bytes after a NUL.
- Encoder.EncodeText: `encodeBinary` is the same path with one byte segment, and has no method of its own.
- TouchMapping.AxisMaps: the mapping is over exact reals; the program computes in single precision.
- TouchRouter.TouchRouter.SetZones: zones of equal priority keep their order, which the program's sort need not do; the contract does not speak of it.
- TouchReader.EvdevTouchReader.Run: the reader thread's reads of requested mappings and grabs are inputs between events; polling, retrying and stopping are not modelled.
- GridRemap.RemapSound: positions are rounded from exact quotients instead of doubles.
- WidgetGrid.WidgetGridModel.PlaceWidget: on a grid never loaded whose cell cache has the wrong size, marking the new widget has no defined effect; that case is excluded.
- Dashboards.DashboardManager.SaveAll: while the configuration has no saved size, a dashboard without widgets has none either, and a save before the first edit can record no size for the others.
- WidgetGrid.WidgetGridModel.EditAppearance: opacity values, configuration values and their schema are not modelled.
- Dashboards.DashboardManager.AddDashboard: trimming and slugifying the name happen before the call; the slug is a parameter.
- Dashboards.LoadModel: seeding a fresh home dashboard, the guard against saving while loading and the delayed write of the active id are not modelled.
- VideoDecoding.VideoDecoder.WorkerFinish: codec detection, hardware decoding and frame pools are an arbitrary outcome; generations are unbounded integers.
- ProjectedSession.Run: video sinks, focus modes, cluster profiles and diagnostics have no part in the states.
- Framing.Reader.ReadSocket: what a dispatched message sets off (credentials, connection status) is not modelled.
- YamlConfiguration.YamlConfig.Load: text syntax, mappings with a key twice, keys that are no scalars and integers in other bases than ten are not modelled; writing and renaming files is reduced to the flag.
- The other built-in settings are arbitrary entries of the default tree.
- Qt signals, model resets, logging and image output have no effect on the states; the baseline signal is the result of an edit.
- Media, navigation and plugin bridges, the web configuration and the proxy manager would only add easy members.
