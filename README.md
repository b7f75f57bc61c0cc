# rxtools core, modelled in Dafny

rxtools is a pharmacy helper with two tools.

The **pill counter** takes a photo of pills and works in three steps:

- It binarises the RGBA pixels against their mean grey value.
- It scans the 0/1 mask in row-major order and flood-fills each new foreground pixel with an explicit stack.
- It reports the centre of every 4-connected component larger than 50 pixels as a marker.

The user can then click the canvas. A click removes the first marker within radius 20, or else adds one. The count shown is the number of markers.

The **dosing calculator** is a small state machine (`DosingModel`):

- a tab (Drops, Injections, Pills) picks a prescription type, a unit and labels;
- a prescription type picks one of six fixed pack-size tables;
- checkboxes select packs; prescription lines give dose × times daily × days;
- `calculateResults` totals the lines and works out, for each selected pack, how many packs cover the total (a ceiling division).

The project is organised as follows:

- `option.dfy` (`Optional`) holds the optional value.
- `grid.dfy` (`Grid`) holds the pixel grid: row-major indexing, 4-adjacency, paths, connected components and the first pixel of a component.
- `image_processing.dfy` (`ImageProcessingService`) holds `thresholdImage`, `floodFill` and `findBlobs`. They are imperative methods over arrays:
  - the `visited` buffer is an `array<bool>` that `FloodFill` updates in place;
  - the stack is a local sequence.
- `dosing_types.dfy` (`DosingTypes`) and `constants.dfy` (`DosingConstants`) hold the types, the tables and the type lists. `TabOf` gives each prescription type its tab, following how the dosing record types of src/types/Dosing.ts:18-31 pair tabs with types.
- `dosing_model.dfy` (`DosingModel`) holds the class `DosingModel`, whose fields the methods update in place. The pure calculations are functions.
- `pill_counter.dfy`, `checkbox_list.dfy` and `prescription_input.dfy` hold the list-editing handlers of the three components. Each is a pure function on sequences plus a small class holding the list.

The main results are these:

- **Threshold.** The mask is binary and has one entry per pixel. Entry `k` is 1 exactly when pixel `k`'s grey value is strictly above the mean grey value. The comparison is made exactly, in the integer form `n·(R+G+B) > Σ(R+G+B)`. The alpha byte is never read. A uniform image is all background, and every non-empty image has a background pixel.
- **Flood fill.** It marks only new, in-bounds foreground pixels, each connected to the start. All their foreground neighbours end up visited, and no other flag changes. It returns the number of pixels marked and their centroid, which lies inside the image.
- **Blob scan.** `findBlobs` returns exactly one centre per component of more than 50 pixels, in row-major order of the components' first pixels. The components are pairwise disjoint, so `51 · |blobs| ≤ width · height`.
- **Dosing.** The state after each operation is stated completely. Each table is positive, strictly ascending, in one unit, and the tables differ from one another. The three type lists partition the six types. The ceiling quantity is the least number of packs that covers the total.
- **Handlers.** A click flips membership along with the other properties listed in the table below. A click that adds an entry, repeated at the same spot, restores the list (ToggleTwiceRestores). A click that removes an entry, followed by a second click that adds it back, moves the entry to the end: a checkbox pack goes to the end of the selection (ToggleTwiceMovesToEnd), and a marker is replaced by the click point at the end of the list (ToggleTwiceReplaces). The list comes back unchanged only when that entry was already last and, for a marker, sat exactly on the click point.

TypeScript `number`s become Dafny values as follows:

- Pack sizes, means, centres and click coordinates are exact `real`s.
- Pixel channels are values of a `byte` newtype, 0..255.
- Doses, frequencies and durations are `int`: they come from `parseInt` of integer select options.

## Model

| member | source | states |
|---|---|---|
| ImageProcessingService.Tri | src/services/ImageProcessingService.ts:52 | R+G+B of a pixel lies in [0, 765] |
| ImageProcessingService.TriSumBound | src/services/ImageProcessingService.ts:49-54 | the sum of R+G+B over k pixels lies in [0, 765·k] |
| ImageProcessingService.Avg | src/services/ImageProcessingService.ts:52 | a pixel's grey value lies in [0, 255] and three times it is the pixel's R+G+B |
| ImageProcessingService.AvgSum | src/services/ImageProcessingService.ts:49-54 | the running sum of grey values over k pixels lies in [0, 255·k] |
| ImageProcessingService.Mean | src/services/ImageProcessingService.ts:55 | the mean grey value of a non-empty image lies in [0, 255] and is Σ(R+G+B) / (3·width·height) |
| ImageProcessingService.Mask | src/services/ImageProcessingService.ts:41-63 | the integer-form mask has one entry per pixel and every entry is 0 or 1 |
| ImageProcessingService.AvgSumIsTriSum | src/services/ImageProcessingService.ts:49-54 | the running sum of grey values `(R+G+B)/3` equals the sum of R+G+B divided by 3 |
| ImageProcessingService.AboveMeanIff | src/services/ImageProcessingService.ts:55-63 | for n > 0, `t/3 > (s/3)/n` holds exactly when `n·t > s` |
| ImageProcessingService.MaskAgainstMean | src/services/ImageProcessingService.ts:52-63 | mask entry k is 1 exactly when pixel k's grey value is strictly above the mean grey value of the image |
| ImageProcessingService.ThresholdImage | src/services/ImageProcessingService.ts:37-68 | returns a fresh array of width·height entries equal to the mask, i.e. 1 exactly where the grey value exceeds the mean |
| ImageProcessingService.UniformSum | src/services/ImageProcessingService.ts:49-54 | when every pixel has R+G+B = t the sum over k pixels is k·t |
| ImageProcessingService.UniformImageIsBackground | src/services/ImageProcessingService.ts:56-63 | in a uniform image no pixel is above the mean: every mask entry is 0 |
| ImageProcessingService.AllAboveSum | src/services/ImageProcessingService.ts:49-54 | if every pixel has n·(R+G+B) ≥ s+1 then n times the total is at least k·(s+1) |
| ImageProcessingService.SomePixelIsBackground | src/services/ImageProcessingService.ts:56-63 | a non-empty image has a pixel whose mask entry is 0, because the comparison is strict |
| ImageProcessingService.AlphaIgnoredSum | src/services/ImageProcessingService.ts:50-53 | images with equal R, G, B per pixel have equal sums |
| ImageProcessingService.AlphaIgnored | src/services/ImageProcessingService.ts:50-63 | images that differ only in their alpha bytes give the same mask |
| ImageProcessingService.FloodFill | src/services/ImageProcessingService.ts:89-118 | marks exactly the set `marked`: new, in-bounds foreground pixels, each 4-connected to the start, whose foreground neighbours all end up visited; no other flag changes and `binary` is not written; marks the start when it is unvisited foreground; size = number marked; centre = centroid of the marked pixels, inside [0,w-1]×[0,h-1] (absent when nothing was marked) |
| ImageProcessingService.PopSplit | src/services/ImageProcessingService.ts:96 | an entry of the stack is the popped top or is still in the rest |
| ImageProcessingService.FrontierKept | src/services/ImageProcessingService.ts:95-112 | neighbours settled before a step stay settled when the marked set only grows |
| ImageProcessingService.SkipStep | src/services/ImageProcessingService.ts:99-101 | popping an out-of-bounds, visited or background pixel and skipping it keeps the frontier and origin invariants |
| ImageProcessingService.MarkVisited | src/services/ImageProcessingService.ts:103 | setting the flag of an unvisited foreground pixel adds exactly it to the marked set |
| ImageProcessingService.MarkSums | src/services/ImageProcessingService.ts:104-106 | incrementing size and adding x and y keeps size = count and the sums equal to the coordinate sums of the marked pixels, within (w-1)·size and (h-1)·size |
| ImageProcessingService.MarkFrontier | src/services/ImageProcessingService.ts:108-111 | pushing the four neighbours of the marked pixel keeps every pixel that may still need a visit on the stack |
| ImageProcessingService.MarkOrigin | src/services/ImageProcessingService.ts:103-111 | after marking and pushing, each stack entry is the start or a neighbour of a marked pixel, and every marked pixel is connected to the start |
| ImageProcessingService.EmptyFrontier | src/services/ImageProcessingService.ts:95 | once the stack is empty every foreground neighbour of a marked pixel is visited |
| ImageProcessingService.AdvanceRight | src/services/ImageProcessingService.ts:76 | moving from (x,y) to (x+1,y) adds exactly (x,y) to the pixels already scanned |
| ImageProcessingService.AdvanceRow | src/services/ImageProcessingService.ts:75 | moving from the end of row y to (0,y+1) adds no in-bounds pixel |
| ImageProcessingService.ScanInit | src/services/ImageProcessingService.ts:71-72 | all-clear visited flags and no blobs satisfy the scan invariant at (0,0) |
| ImageProcessingService.SeenSkip | src/services/ImageProcessingService.ts:78 | passing a background or already-visited pixel keeps the visited-set invariant |
| ImageProcessingService.FirstsStep | src/services/ImageProcessingService.ts:78 | passing a pixel keeps "no first pixel visited at or after the scan position" |
| ImageProcessingService.StartsKeep | src/services/ImageProcessingService.ts:75-86 | the recorded first pixels stay before the scan position as it advances |
| ImageProcessingService.StartsPush | src/services/ImageProcessingService.ts:80-82 | appending the current pixel and its centre keeps the recorded first pixels in scan order with their centres |
| ImageProcessingService.CompleteStep | src/services/ImageProcessingService.ts:78-82 | every large component whose first pixel has been passed is recorded |
| ImageProcessingService.ScanSkip | src/services/ImageProcessingService.ts:78 | passing a pixel that starts no fill keeps the whole scan invariant |
| ImageProcessingService.FillIsComponent | src/services/ImageProcessingService.ts:78-79 | a fill started at an unvisited foreground pixel marks exactly its component, which is disjoint from what was seen, and that pixel is the component's first pixel and no other marked pixel is |
| ImageProcessingService.SeenFill | src/services/ImageProcessingService.ts:79 | after a fill the visited flags are the old seen set plus the component |
| ImageProcessingService.ScanFill | src/services/ImageProcessingService.ts:78-82 | a fill, with its centre pushed when size > 50, keeps the whole scan invariant |
| ImageProcessingService.FgCount | src/services/ImageProcessingService.ts:71 | a set of foreground pixels has at most width·height elements |
| ImageProcessingService.ScanDone | src/services/ImageProcessingService.ts:75-86 | at the end of the scan the recorded centres are exactly those of the large components, in order of first pixel, disjoint, and 51·count ≤ width·height |
| ImageProcessingService.ScanPixel | src/services/ImageProcessingService.ts:77-83 | one step of the inner loop keeps the scan invariant from (x,y) to (x+1,y) |
| ImageProcessingService.FindBlobs | src/services/ImageProcessingService.ts:70-87 | returns one centre per 4-connected foreground component of more than 50 pixels and none for smaller ones: each is the component's centroid inside the image, every large component is listed, in row-major order of first pixels, components pairwise disjoint, 51·count ≤ width·height |
| Grid.IndexInRange | src/services/ImageProcessingService.ts:77 | the row-major index y·width+x of an in-bounds pixel lies in [0, width·height) |
| Grid.IndexInjective | src/services/ImageProcessingService.ts:97 | distinct in-bounds pixels have distinct indices |
| Grid.RowCellsSize | src/services/ImageProcessingService.ts:76 | a row has width pixels |
| Grid.CellsSplit | src/services/ImageProcessingService.ts:75 | the first h rows are the first h-1 rows plus row h-1, disjointly |
| Grid.CellsSize | src/services/ImageProcessingService.ts:71 | the image has width·height pixels |
| Grid.ReachSelf | src/services/ImageProcessingService.ts:90 | a foreground pixel reaches itself |
| Grid.ReachStep | src/services/ImageProcessingService.ts:108-111 | a reachable pixel's foreground neighbour is reachable |
| Grid.AdjacentSymmetric | src/services/ImageProcessingService.ts:108-111 | 4-adjacency is symmetric |
| Grid.ReachSymmetric | src/services/ImageProcessingService.ts:108-111 | reachability is symmetric |
| Grid.ClosedForward | src/services/ImageProcessingService.ts:95-112 | a foreground set closed under neighbours holds everything reachable from its members |
| Grid.ClosedBackward | src/services/ImageProcessingService.ts:95-112 | nothing outside a closed set reaches into it |
| Grid.ClosedHoldsComponent | src/services/ImageProcessingService.ts:95-112 | a closed set containing s contains s's component |
| Grid.ClosedExcludesComponent | src/services/ImageProcessingService.ts:78 | a closed set not containing s is disjoint from s's component |
| Grid.ReachEnds | src/services/ImageProcessingService.ts:99 | both ends of a path are foreground |
| Grid.ComponentMember | src/services/ImageProcessingService.ts:95-112 | t is in s's component exactly when it is in bounds and reachable from s |
| Grid.ComponentClosed | src/services/ImageProcessingService.ts:95-112 | a component is closed under foreground neighbours |
| Grid.FirstsDisjoint | src/services/ImageProcessingService.ts:78 | the components of two distinct first pixels are disjoint |
| Grid.RowSumEmpty | src/services/ImageProcessingService.ts:92-93 | the coordinate sum of no pixels within a row is 0 |
| Grid.CoordSumEmpty | src/services/ImageProcessingService.ts:92-93 | the coordinate sum of the empty set is 0 |
| Grid.RowSumInsert | src/services/ImageProcessingService.ts:105-106 | adding a new pixel to a row's set adds its coordinate to the row sum |
| Grid.CoordSumInsert | src/services/ImageProcessingService.ts:105-106 | adding a new in-bounds pixel adds its coordinate to the coordinate sum |
| DosingConstants.WithUnits | src/models/dosing/constants.ts:5 | the table has one entry per size, in order, each with that size and the given unit |
| DosingConstants.Sizes | src/models/dosing/constants.ts:4-20 | the sizes of a table, entry by entry |
| DosingConstants.ChainAscending | src/models/dosing/constants.ts:4-20 | each size below the next implies strictly ascending |
| DosingConstants.WithUnitsTable | src/models/dosing/constants.ts:5-20 | a table built by pairing sizes with one unit lists those sizes and has one unit |
| DosingConstants.EyeDropTable | src/models/dosing/constants.ts:4-5 | eye drops: 2.5, 3, 5, 6, 7.5, 8, 10, 12 mL, positive and strictly ascending |
| DosingConstants.EarDropTable | src/models/dosing/constants.ts:7-8 | ear drops: 5, 7.5, 10, 15 mL, positive and strictly ascending |
| DosingConstants.InsulinTable | src/models/dosing/constants.ts:10-11 | insulin: 100, 300, 500 IU, positive and strictly ascending |
| DosingConstants.OzempicTable | src/models/dosing/constants.ts:13-14 | ozempic: 0.25, 0.5, 1, 2 mg, positive and strictly ascending |
| DosingConstants.TabletTable | src/models/dosing/constants.ts:16-17 | tablets: 5, 10, 20, 50, 100 mg, positive and strictly ascending |
| DosingConstants.CapsuleTable | src/models/dosing/constants.ts:19-20 | capsules: 50, 100, 200, 500 mg, positive and strictly ascending |
| DosingConstants.TypeListsPartition | src/models/dosing/constants.ts:24-36 | the drop, injection and pill type lists are pairwise disjoint, cover all six types and hold each exactly once |
| DosingModel.UnitOf | src/models/dosing/constants.ts:4-20 | the unit of a type's table is mL exactly for the drop types, and IU only for an injection type |
| DosingModel.TabConfig | src/models/dosing/DosingModel.ts:50-54 | a tab starts with one of its own types (as the dosing record types pair them) and with the unit of that type's table |
| DosingModel.FilterUnits | src/models/dosing/DosingModel.ts:69 | the filtered list is no longer than the table and every entry is in the given unit |
| DosingModel.FilterUnitsMembers | src/models/dosing/DosingModel.ts:69 | the filtered packs are exactly the packs in the given unit, each kept as often as it occurs in the table and the others not at all |
| DosingModel.FilterUnitsInOrder | src/models/dosing/DosingModel.ts:69 | the filtered packs are drawn from the table in order |
| DosingModel.DosingFor | src/models/dosing/DosingModel.ts:43-89 | the starting dosing record of a tab: that tab and its starting type, zero dose, frequency and duration in the unit of the starting type's table, and exactly the held packs in that unit, in table order (their counts: DosingForCounts) |
| DosingModel.DosingForCounts | src/models/dosing/DosingModel.ts:69 | the starting record of a tab holds each held pack in the starting type's unit exactly as often as the table does, and no other pack |
| DosingModel.Ceil | src/models/dosing/DosingModel.ts:141 | the least integer not below r |
| DosingModel.PacksNeeded | src/models/dosing/DosingModel.ts:140-147 | one result per selected pack, in order, copying size and unit, with quantity ⌈total / size⌉ |
| DosingModel.DosingModel.constructor | src/models/dosing/DosingModel.ts:31-41 | starts on Drops with the eye-drop table, the Drops labels and record, nothing selected and no results |
| DosingModel.DosingModel.InitializeDosing | src/models/dosing/DosingModel.ts:43-90 | returns the tab's starting record filtered from the held table and sets the labels drop/Bottle Sizes, jab/Strengths or pill/Strengths |
| DosingModel.DosingModel.SetActiveTab | src/models/dosing/DosingModel.ts:92-95 | sets the tab and rebuilds the record from the table held before the call: type Eye/Insulin/Tablet in mL/IU/mg, the first type the tab offers; labels follow the tab; nothing else changes |
| DosingModel.DosingModel.SetPrescriptionType | src/models/dosing/DosingModel.ts:97-100 | replaces only the record's type and shows that type's table |
| DosingModel.DosingModel.GetPrescriptionTypes | src/models/dosing/DosingModel.ts:102-110 | two types, the first being the type the tab starts with, and a type is listed exactly when it belongs to the active tab |
| DosingModel.DosingModel.GetPackSizes | src/models/dosing/DosingModel.ts:112-129 | a type's table: non-empty, positive, strictly ascending, all in the type's unit |
| DosingModel.DosingModel.UpdatePrescriptionDetails | src/models/dosing/DosingModel.ts:131-133 | stores the given lines |
| DosingModel.DosingModel.CalculateResults | src/models/dosing/DosingModel.ts:135-150 | results become the total dose of the stored lines and the packs needed for each selected pack |
| DosingModel.DosingModel.SetSelectedPackSizes | src/models/dosing/DosingModel.ts:156-158 | stores the given selection |
| DosingModel.DosingModel.Reset | src/models/dosing/DosingModel.ts:160-166 | clears results, selection and lines, shows the eye-drop table and the Drops labels, and leaves the tab and the dosing record as they were |
| DosingModel.TotalDose | src/models/dosing/DosingModel.ts:136-138 | lines with no negative field give a total that is not negative |
| DosingModel.TotalDoseIsSum | src/models/dosing/DosingModel.ts:136-138 | the left-to-right accumulation equals the sum of dose·frequency·duration over the lines |
| DosingModel.TotalDoseAppend | src/models/dosing/DosingModel.ts:136-138 | the total of two runs of lines is the sum of their totals |
| DosingModel.QuantityIsLeastCover | src/models/dosing/DosingModel.ts:141 | for a positive pack size, ⌈total/size⌉ packs cover the total and no fewer do |
| DosingModel.ZeroTotalNeedsNoPacks | src/models/dosing/DosingModel.ts:141 | with a total of 0 every quantity is 0 |
| DosingModel.TableSelectionPositive | src/models/dosing/DosingModel.ts:141 | packs chosen from a type's table have positive sizes, so the division is by a positive value |
| DosingModel.TablesDistinct | src/models/dosing/DosingModel.ts:112-129 | distinct types have distinct tables |
| PillCounter.Near | src/features/PillCounter.tsx:90 | a marker within radius 20 has both offsets strictly inside (-20, 20), and a click exactly on a marker hits it |
| PillCounter.FindNear | src/features/PillCounter.tsx:88-91 | the index of the first marker within radius 20 of the click, or -1 exactly when none is |
| PillCounter.ToggleMarker | src/features/PillCounter.tsx:93-99 | with a hit, the list minus the first hit marker, others in order; otherwise the list with the click appended |
| PillCounter.ClickPosition | src/features/PillCounter.tsx:80-85 | the click offset inside the element scaled by canvas size over displayed size |
| PillCounter.PillCounter.constructor | src/features/PillCounter.tsx:6 | no markers at first |
| PillCounter.PillCounter.HandleImageLoaded | src/features/PillCounter.tsx:18 | a newly loaded image has no markers |
| PillCounter.PillCounter.HandleCanvasClick | src/features/PillCounter.tsx:77-100 | the markers become the toggle at the scaled click position |
| PillCounter.ToggleRemovesFirstNear | src/features/PillCounter.tsx:88-96 | when marker k is the first within radius 20, the click removes exactly marker k |
| PillCounter.ToggleAppendsWhenClear | src/features/PillCounter.tsx:97-98 | when no marker is within radius 20, the click is appended |
| PillCounter.ToggleChangesCount | src/features/PillCounter.tsx:93-99 | each click changes the count shown by exactly one |
| PillCounter.ToggleTwiceRestores | src/features/PillCounter.tsx:89-98 | a click that adds a marker, repeated at the same point, restores the list |
| PillCounter.ToggleTwiceReplaces | src/features/PillCounter.tsx:88-98 | when marker k is the only one near the click, two clicks there remove marker k and append the click point at the end |
| PillCounter.ClickPositionInverse | src/features/PillCounter.tsx:80-85 | scaling the position back to the element gives the client coordinates |
| CheckboxList.SameKey | src/components/CheckboxList.tsx:14 | two packs have the same key exactly when they are the same pack |
| CheckboxList.IsSelected | src/components/CheckboxList.tsx:14 | a pack's key is selected exactly when the pack is in the selection |
| CheckboxList.RemoveMatching | src/components/CheckboxList.tsx:16 | the result is no longer than the selection and holds no entry with the clicked key |
| CheckboxList.Toggle | src/components/CheckboxList.tsx:14-17 | when the key is selected, the result holds exactly the entries with another key, each as often as before and in the order they had; otherwise the clicked pack is appended |
| CheckboxList.CheckboxList.Checked | src/components/CheckboxList.tsx:34 | a box is ticked exactly when its pack is in the selection |
| CheckboxList.CheckboxList.constructor | src/components/CheckboxList.tsx:11 | starts with an empty selection |
| CheckboxList.CheckboxList.HandleCheckboxChange | src/components/CheckboxList.tsx:13-21 | the selection becomes the toggle, the model gets the same list, and the box's ticked state flips |
| CheckboxList.CheckboxList.PackSizesChanged | src/components/CheckboxList.tsx:23-26 | clears the selection here and in the model |
| CheckboxList.RemoveMatchingMembers | src/components/CheckboxList.tsx:16 | removal keeps exactly the entries with another key |
| CheckboxList.RemoveMatchingCount | src/components/CheckboxList.tsx:16 | removal keeps every entry with another key as often as it occurs and no entry with the clicked key |
| CheckboxList.RemoveMatchingInOrder | src/components/CheckboxList.tsx:16 | removal keeps the remaining entries in order |
| CheckboxList.RemoveMatchingNone | src/components/CheckboxList.tsx:16 | removing an absent key changes nothing |
| CheckboxList.RemoveMatchingAppend | src/components/CheckboxList.tsx:16 | removal distributes over concatenation |
| CheckboxList.ToggleFlipsMembership | src/components/CheckboxList.tsx:14-17 | the clicked key is selected afterwards exactly when it was not before |
| CheckboxList.ToggleKeepsOthers | src/components/CheckboxList.tsx:14-17 | every other key keeps its membership |
| CheckboxList.RemoveKeepsNoDuplicates | src/components/CheckboxList.tsx:16 | removal keeps a duplicate-free selection duplicate-free |
| CheckboxList.ToggleKeepsNoDuplicates | src/components/CheckboxList.tsx:14-17 | a click keeps a duplicate-free selection duplicate-free |
| CheckboxList.ToggleTwiceRestores | src/components/CheckboxList.tsx:14-17 | clicking an unselected box twice restores the selection |
| CheckboxList.ToggleTwiceMovesToEnd | src/components/CheckboxList.tsx:14-17 | clicking a selected box twice removes the entries with its key and appends the pack at the end |
| PrescriptionInput.SetField | src/components/PrescriptionInput.tsx:22 | the edited field reads back the new value, the other fields and the unit are unchanged |
| PrescriptionInput.FieldsDetermineLine | src/components/PrescriptionInput.tsx:22 | two lines whose three fields (as read by Get) and unit agree are equal, so the three field names cover a line |
| PrescriptionInput.SetFieldSame | src/components/PrescriptionInput.tsx:22 | writing back the value a field holds leaves the line as it was |
| PrescriptionInput.RemoveAt | src/components/PrescriptionInput.tsx:28 | drops exactly the line at the index and keeps the rest in order; an index out of range changes nothing |
| PrescriptionInput.UnitLabel | src/components/PrescriptionInput.tsx:63 | the label gets an "s" exactly when the dose is above one |
| PrescriptionInput.ToggleVisible | src/components/PrescriptionInput.tsx:32 | the One/Both toggle shows exactly for the drop types |
| PrescriptionInput.PrescriptionInput.constructor | src/components/PrescriptionInput.tsx:13 | one line: the model's current prescription details |
| PrescriptionInput.PrescriptionInput.AddLine | src/components/PrescriptionInput.tsx:16-18 | appends a zero line and keeps the others |
| PrescriptionInput.PrescriptionInput.HandleInputChange | src/components/PrescriptionInput.tsx:20-25 | sets one field of one line and hands the whole list to the model |
| PrescriptionInput.PrescriptionInput.RemoveLine | src/components/PrescriptionInput.tsx:27-30 | removes the line at the index; the model is not updated |
| PrescriptionInput.PrescriptionInput.PrescriptionDetailsChanged | src/components/PrescriptionInput.tsx:34-36 | resets the lines to the model's prescription details |
| PrescriptionInput.RemoveAddedLine | src/components/PrescriptionInput.tsx:16-30 | removing the line just added restores the lines |
| PrescriptionInput.EditTouchesOneLine | src/components/PrescriptionInput.tsx:20-22 | an edit changes only the chosen field of the chosen line |
| PrescriptionInput.SetFieldKeepsOffered | src/components/PrescriptionInput.tsx:57-81 | setting an offered value keeps a line within the offered values |
| PrescriptionInput.LineBound | src/components/PrescriptionInput.tsx:57-81 | a line of offered values contributes between 0 and 750 |
| PrescriptionInput.TotalBound | src/components/PrescriptionInput.tsx:57-81 | lines of offered values total between 0 and 750 per line |

Proof helpers, with no counterpart in the source: Grid.MulMono (products with a non-negative factor are monotone), Grid.DisjointUnionSize (size of a disjoint union), ImageProcessingService.BoundStep and ImageProcessingService.QuotientBound (bounds on a running sum and its quotient), ImageProcessingService.ThirdOfQuotient (dividing by 3 and then by n is dividing by 3n), DosingModel.DivideBound (dividing an inequality by a positive number) and PillCounter.SquareBelow (a square below 400 has its base below 20).

## Left out

- `processImage` and `loadImage` (src/services/ImageProcessingService.ts:15-35) decode an image through the browser's canvas. The model takes the RGBA bytes, width and height as given input.
- ThresholdImage: floating-point rounding of the running sum and mean is not modelled. Sums and means are exact reals, and the mask is stated in the exact integer form.
- ThresholdImage: for an empty image the source's mean is NaN. The model uses 0, which no pixel reads.
- FloodFill: for an empty fill the source's centre is NaN (0/0). The model returns None. `findBlobs` only asks for the centre when the size is above 50.
- FloodFill and FindBlobs require the mask to be 0/1 (`IsBinary`). That is what `thresholdImage` produces (Mask ensures it). The source tests `=== 1` to start a fill and `=== 0` to skip, and these agree only on such masks.
- FloodFill: the contract says each marked pixel is connected to the start through foreground pixels, not that the path avoids pixels visited before the call. Inside `findBlobs` the two agree: FillIsComponent and SeenFill show a fill marks exactly the component.
- ScanPixel is the body of `findBlobs`'s inner loop, split out as its own method. Nothing happens in it that the source's loop body does not do.
- The `visited` buffer is a `Uint8Array` of 0/1 in the source; the model uses `array<bool>`.
- The `throw` at src/models/dosing/DosingModel.ts:56-58 and the `default: return []` at src/models/dosing/DosingModel.ts:126-127 are unreachable once tabs and types are closed datatypes.
- `getCurrentState` (src/models/dosing/DosingModel.ts:152-154) is a plain getter of `dosing`, which the class exposes as a field.
- CalculateResults requires every selected pack size to be non-zero. The source would divide by zero and store Infinity/NaN. TableSelectionPositive shows this cannot happen for packs chosen from a table.
- The unit of `prescriptionDetails` is an optional field. The source's type declares no unit, but `initializeDosing` adds one and `addLine` does not.
- With the Injections tab the starting unit is IU (insulin), while a later choice of Ozempic shows a table in mg. The model keeps this as written.
- HandleInputChange does not model aliasing. In the source, `newLines` is a shallow copy, so the assignment also mutates the line object shared with the previous state. For line 0 that object is the model's `dosing.prescriptionDetails`. The model treats lines as values, so `dosing` is left unchanged.
- HandleInputChange requires the index to be in range. The source would throw a TypeError on `newLines[index][field]` otherwise.
- HandleCanvasClick and ClickPosition require a non-zero displayed size. The source would divide by zero and produce Infinity/NaN coordinates.
- The early return when the canvas element is missing (src/features/PillCounter.tsx:78) is not modelled.
- Near: the source compares `Math.sqrt(dx² + dy²) < 20`. The model compares `dx² + dy² < 400`, which is equivalent for exact reals. Floating-point rounding of the square root is not modelled.
- The React state plumbing is not modelled: `useState` setters, `useEffect`, `drawPoints`, `FileReader`, JSX and the One/Both option state. Each handler's new list is written directly into the class field that stands for the state.
- DosingCalculator, Home, Layout, App, SegmentedControl and ToggleButton are wiring and presentation only and are not part of this model.
