# Binary subtitle editor and ASSA tag completion, in Dafny

This project models two parts of Subtitle Edit.

The first part is the binary-subtitle editor form (`BinEdit`):
- how it reads Blu-ray PGS and DVB subtitle tracks out of a Matroska file: the segment scan, the block loop that gathers PGS display sets, the DVB payload classification and the two timing passes;
- the frame-rate combo box and the BDN XML `VideoFormat` value;
- how its three parallel row lists change when rows are deleted or inserted, or when time codes are imported.

The second part is the Advanced SubStation Alpha tag autocompletion (`AssaIntellisense`):
- the tag table;
- the typed-word extraction `GetLastString`;
- the tag around the cursor and the closing tag to propose;
- the filtering of the offered list and the choice of the preselected item.

Files, one module each:
- `basics.dfy`: the shared values (paragraph times, settings, `Option`/`Result`) and the .NET `IndexOfAny`/`LastIndexOfAny`.
- `pgs_segments.dfy`: `ContainsBluRayStartSegment`, proved against a recursive scan and the list of visited segment headers.
- `pgs_matroska.dfy`: the PGS block loop, proved against a step function.
- `dvb_matroska.dfy`: the DVB classification and both passes.
- `screen_format.dfy`: `SetFrameRate` and `VideoFormat`.
- `bin_edit_lists.dfy`: the form's lists as a class `BinEdit` whose delete, insert and import methods are proved against functions on list snapshots.
- `assa_keywords.dfy`: the 60-entry tag table.
- `assa_intellisense.dfy`: the completion. It is written against any tag table; the class method uses the real one.
- `assa_table_facts.dfy`: what holds for the real table.

Code the model cannot see is passed in as function parameters:
- PGS display-set parser: `BluRaySupParser.ParseBluRaySup`.
- The two VobSub predicates.
- The `DvbSubPes` constructor. A decoder that throws returns nothing.

Times are integers: milliseconds, or ticks of the 90 kHz PGS clock.

Properties this model proves:
- **Segment scan.** It reports true exactly when one of the headers it hops to has type 0x80.
- **PGS block loop.** It agrees step by step with a specification that:
  - accumulates the cluster buffer;
  - decodes it at a 0x80 block;
  - closes a dangling event;
  - applies the overlap fix.
  Appending the decoded events throws exactly when the event count passes the block count. After an exception no later block runs.
- **DVB classification.** It takes the first match. A raw segment is repacked into a PES data field whose segments are exactly the payload.
- **DVB second pass.** It leaves no overlap for a non-negative gap.
- **Frame-rate codes.** Code `(i+1)*0x10` selects combo entry `i`, and every other code selects the first entry.
- **`VideoFormat`.** Every positive screen size can be read back from it.
- **Delete.** It removes exactly the selected rows from every list.
- **Insert.** The source's insertion without a selection leaves the event list one short (see Findings). The corrected insertion, which the form's `InsertParagraph` follows, keeps the lists aligned and can be undone by deleting the new row.
- **Import.** Enough time codes replace every row's times, and the other lists are untouched.
- **Typed word.** It is a suffix of the text before the cursor and never ends with a backslash. So, with the ordinal comparison the model uses, the "continuing tag" fallback list is never shown.
- **Completion as written.** The source's `GetLastString` throws for a leading separator and reads nothing after any other separator. Everywhere else the source's completion shows the same list box as the corrected one.
- **List box.** It shows only entries that start with the typed word, and every such entry.
- **Preselection.** It picks the proposed closing tag when that tag is listed. With nothing typed after `{\i1}`, the closing `{\i0}` is preselected. Once the typed word starts with a backslash, the listed values lose their brace while the closing tag keeps it, so the first item is selected instead.

## Model

| member | source | states |
|---|---|---|
| PgsSegments.SegmentOffsets | src/ui/Forms/BinaryEdit/BinEdit.cs:392-409 | the headers visited from a position all fit in the buffer, the first is the position itself, and there are none exactly when no 3-byte header fits |
| PgsSegments.ScanFromFindsVisitedHeader | src/ui/Forms/BinaryEdit/BinEdit.cs:396-406 | a scan that reports true names a visited header of type 0x80 |
| PgsSegments.VisitedHeaderStopsScan | src/ui/Forms/BinaryEdit/BinEdit.cs:396-406 | a visited header of type 0x80 makes the scan report true |
| PgsSegments.ScanFromIffVisitedHeader | src/ui/Forms/BinaryEdit/BinEdit.cs:392-409 | the scan reports true exactly when some visited segment header has type 0x80 |
| PgsSegments.ContainsBluRayStartSegment | src/ui/Forms/BinaryEdit/BinEdit.cs:392-409 | the loop's answer is true exactly when a header reached by hopping 3 + length bytes from offset 0 has type 0x80 |
| PgsSegments.ShortPayloadHasNoEndSegment | src/ui/Forms/BinaryEdit/BinEdit.cs:396 | a payload shorter than one header never reports 0x80 |
| PgsSegments.WorkedExampleFindsOffsetFive | src/ui/Forms/BinaryEdit/BinEdit.cs:392-409 | a 0x81 segment of length 2 makes the next header sit at offset 5, where 0x80 is found |
| PgsMatroska.LoadBluRaySubFromMatroska | src/ui/Forms/BinaryEdit/BinEdit.cs:304-360 | the block loop ends with the same outcome as running the step specification over every block: refused when the track is compressed, aborted on an exception, else the event list |
| PgsMatroska.AppendDecodedEvents | src/ui/Forms/BinaryEdit/BinEdit.cs:332-343 | the loop over the decoded events yields what the step specification appends, including the exception when the event count passes the block count |
| PgsMatroska.AppendParsedFailsIff | src/ui/Forms/BinaryEdit/BinEdit.cs:332-343 | appending the decoded events throws exactly when there are at least two events and the event count passes the number of blocks |
| PgsMatroska.AppendParsedResult | src/ui/Forms/BinaryEdit/BinEdit.cs:332-343 | each new event starts at the block's start and ends at its end, or just before the next event when the blocks at those indices overlap; it keeps what the parser decoded; earlier events are untouched except that the previous last one may be cut |
| PgsMatroska.StepWithoutEndSegmentAccumulates | src/ui/Forms/BinaryEdit/BinEdit.cs:320-323 | a block with payload but no 0x80 segment only appends to the cluster buffer |
| PgsMatroska.StepAtEndSegment | src/ui/Forms/BinaryEdit/BinEdit.cs:323-346 | a 0x80 block decodes the buffer with this block included, empties it, takes the parser's caches, closes a dangling last event at the block's start and stamps the new events with the block's times |
| PgsMatroska.EmptyBlockClosesWithinGuard | src/ui/Forms/BinaryEdit/BinEdit.cs:348-359 | a block without payload sets a dangling last event's end to the block's start on the PGS clock, unless that would make it longer than 1000000 ticks, in which case the end stays at its start; nothing else changes |
| PgsMatroska.FailureIsFinal | src/ui/Forms/BinaryEdit/BinEdit.cs:317-360 | once an exception ends the loop, no later prefix of blocks recovers |
| DvbMatroska.RepackedLayout | src/ui/Forms/BinaryEdit/BinEdit.cs:424-431 | the repacked buffer is 3 bytes longer, starts 0x20 0x00, ends 0xFF and carries exactly the payload in between |
| DvbMatroska.ClassificationIsFirstMatch | src/ui/Forms/BinaryEdit/BinEdit.cs:424-444 | a raw segment is always repacked whatever the foreign predicates say; a pre-wrapped payload is used only when no earlier test holds; nothing is decoded exactly when no test holds |
| DvbMatroska.FirstPass | src/ui/Forms/BinaryEdit/BinEdit.cs:417-470 | the image, paragraph and transport-stream lists stay the same length and each subtitle carries the image at its index |
| DvbMatroska.ClearPacketClosesOpenParagraph | src/ui/Forms/BinaryEdit/BinEdit.cs:446-457 | a packet with nothing decodable ends a last paragraph shorter than 100 ms at the packet's start, or gives it 3000 ms when that exceeds the maximum; longer paragraphs and the other lists are untouched |
| DvbMatroska.StepAppendsOnlyImages | src/ui/Forms/BinaryEdit/BinEdit.cs:459-464 | a paragraph is added exactly when the payload is classified, decoded, and has a page composition with a region; it carries the packet's times |
| DvbMatroska.ReconciledHasNoOverlap | src/ui/Forms/BinaryEdit/BinEdit.cs:477-493 | after the second pass starts are unchanged, no paragraph ends after the next one starts, and each lasts at least 200 ms unless cut short by the next one |
| DvbMatroska.LoadDvbFromMatroska | src/ui/Forms/BinaryEdit/BinEdit.cs:411-493 | the load fails exactly when no packet carried an image; otherwise the paragraphs are the second pass over the first pass and each transport-stream subtitle gets its paragraph's times |
| DvbMatroska.ReconcileTimes | src/ui/Forms/BinaryEdit/BinEdit.cs:477-493 | the loop computes the second pass and copies each paragraph's times to the subtitle at the same index |
| ScreenFormat.FrameRateIndex | src/ui/Forms/BinaryEdit/BinEdit.cs:544-573 | the selected index always names one of the eight combo entries |
| ScreenFormat.FrameRateIndexSelectsNominalRate | src/ui/Forms/BinaryEdit/BinEdit.cs:91-98 | the selected combo entry is the rate the code stands for, and 23.976 for any unknown code |
| ScreenFormat.FrameRateIndexIff | src/ui/Forms/BinaryEdit/BinEdit.cs:544-573 | entry i > 0 is selected exactly by code (i+1)*0x10, and the first entry exactly by codes outside 0x20..0x80 |
| ScreenFormat.DecimalRoundTrip | src/ui/Forms/BinaryEdit/BinEdit.cs:838 | the decimal digits written for a size read back as that size |
| ScreenFormat.VideoFormatRoundTrip | src/ui/Forms/BinaryEdit/BinEdit.cs:823-839 | every positive screen size is recovered from its VideoFormat, the three presets included |
| ScreenFormat.NonPositiveSizeKeepsDefault | src/ui/Forms/BinaryEdit/BinEdit.cs:825-839 | a size with a non-positive side keeps the default 1080p |
| BinEditLists.KeptRemoveAt | src/ui/Forms/BinaryEdit/BinEdit.cs:678-684 | when every larger selected row is already gone, RemoveAt(i) removes exactly original row i |
| BinEditLists.SelectionAfterDeleteIsClamped | src/ui/Forms/BinaryEdit/BinEdit.cs:688-696 | after a deletion a row is selected exactly when rows are left: the first selected index, or the last row when that index is past the end |
| BinEditLists.BinEdit.DeleteSelected | src/ui/Forms/BinaryEdit/BinEdit.cs:662-697 | every list loses exactly the selected rows, keeps the others in order and stays aligned; the new selection is the clamped first selected index |
| BinEditLists.BinEdit.RemoveRows | src/ui/Forms/BinaryEdit/BinEdit.cs:678-684 | removing the selected indices largest first takes exactly the selected rows out of every list |
| BinEditLists.UnselectedInsertMisalignsLists | src/ui/Forms/BinaryEdit/BinEdit.cs:590-597 | inserting without a selection into a loaded empty subtitle leaves the event list one short, and inserting after that row then throws |
| BinEditLists.DeleteUndoesInsertAt | src/ui/Forms/BinaryEdit/BinEdit.cs:607-617 | deleting the row just inserted gives back the list |
| BinEditLists.InsertKeepsListsAligned | src/ui/Forms/BinaryEdit/BinEdit.cs:585-621 | the insertion keeps the lists aligned and puts one row at the insert position. The row has the default duration and starts the minimum gap after the previous row when a row was selected. Deleting it restores the lists. With a selection but no loaded events nothing changes |
| BinEditLists.SelectedInsertAgreesWithSource | src/ui/Forms/BinaryEdit/BinEdit.cs:599-620 | with a row selected the corrected insertion is exactly the source's |
| BinEditLists.BinEdit.InsertParagraph | src/ui/Forms/BinaryEdit/BinEdit.cs:585-621 | the form's lists and selection become those of the corrected insertion, which also adds an empty event without a selection, and the lists stay aligned |
| BinEditLists.ImportIsIdempotent | src/ui/Forms/BinaryEdit/BinEdit.cs:1227-1241 | importing the same time codes twice equals importing them once, and enough time codes replace every row's times |
| BinEditLists.BinEdit.ImportTimeCodes | src/ui/Forms/BinaryEdit/BinEdit.cs:1227-1241 | the first min(rows, time codes) rows take the imported times, the rest and the other lists are unchanged, and the count is that minimum |
| AssaKeywords.EveryKeywordIsATagBlock | src/ui/Logic/AssaIntellisense.cs:48-133 | helper, true by construction of the table: every entry is an override block, `{\`, the tag, `}` |
| AssaIntellisense.GetInsideTag | src/ui/Logic/AssaIntellisense.cs:220-236 | empty exactly when no backslash precedes the cursor or no backslash or brace follows it; otherwise the text from the last backslash before the cursor up to the first backslash or brace at or after it |
| AssaIntellisense.ClosingTagAtStart | src/ui/Logic/AssaIntellisense.cs:248-272 | the proposed closing tag is empty or an override-block opener |
| AssaIntellisense.ClosingTagAtStartIff | src/ui/Logic/AssaIntellisense.cs:248-272 | the i0, u0, b0, s0 and be0 closers are proposed exactly for text starting with i1, u1, b1, s1 and be1 respectively, and nothing exactly when none of these starts it |
| AssaIntellisense.GetEndTagFromLastTagInText | src/ui/Logic/AssaIntellisense.cs:243-276 | the result is empty or starts with `{\` |
| AssaIntellisense.EndTagClosesLastOpenedTag | src/ui/Logic/AssaIntellisense.cs:243-276 | the closing tag proposed is the one paired with the recognised tag opened at the last `{\`, and none exactly when there is no such tag |
| AssaIntellisense.AnyStartsWithIff | src/ui/Logic/AssaIntellisense.cs:296 | the recursive `Keywords.Any` holds exactly when some entry starts with the string, ignoring case |
| AssaIntellisense.NoKeywordWithoutBackslashSecond | src/ui/Logic/AssaIntellisense.cs:294-298 | no entry starts with a string whose second character is not a backslash |
| AssaIntellisense.BraceStartsEveryKeyword | src/ui/Logic/AssaIntellisense.cs:48-133 | helper, true by construction of `Value`: the opening brace is a prefix of some entry of any non-empty table |
| AssaIntellisense.GetLastStringIsTypedWord | src/ui/Logic/AssaIntellisense.cs:278-309 | the typed word is a suffix of the text without separators; it is empty, a backslash followed by no other backslash, or a backslash-free prefix of an entry; it never ends with a backslash |
| AssaIntellisense.AsWrittenDiffersOnlyAfterSeparator | src/ui/Logic/AssaIntellisense.cs:292-299 | the source's version equals the corrected one except after a separator, where it throws when the separator is first and otherwise always returns empty |
| AssaIntellisense.NoKeywordAcrossSeparator | src/ui/Logic/AssaIntellisense.cs:294-296 | the word the source keeps, starting one character before a separator, starts no entry |
| AssaIntellisense.LeadingSeparatorThrows | src/ui/Logic/AssaIntellisense.cs:294 | for " {" the source's version throws while the corrected one returns "{" |
| AssaIntellisense.BraceAfterWordIsLost | src/ui/Logic/AssaIntellisense.cs:294-298 | for "Hello {" the source's version returns empty while the corrected one returns "{" |
| AssaIntellisense.TrimEndOfSuffix | src/ui/Logic/AssaIntellisense.cs:280 | trimming a suffix that starts with a non-space gives the suffix of the trimmed text |
| AssaIntellisense.TagReadsBack | src/ui/Logic/AssaIntellisense.cs:280-290 | a backslash-led word with no other backslash and no separator is read back whole |
| AssaIntellisense.WordReadsBack | src/ui/Logic/AssaIntellisense.cs:292-304 | a backslash-free, separator-free prefix of an entry is read back whole |
| AssaIntellisense.GetLastStringIsIdempotent | src/ui/Logic/AssaIntellisense.cs:156-158 | the filter's second `GetLastString` returns the typed word itself |
| AssaIntellisense.AllowedInTransformations | src/ui/Logic/AssaIntellisense.cs:152 | an entry is kept exactly when it is in the table and allowed in transforms |
| AssaIntellisense.Filter | src/ui/Logic/AssaIntellisense.cs:156-158 | an entry is listed exactly when it is offered and matches the typed word |
| AssaIntellisense.RemoveChar | src/ui/Logic/AssaIntellisense.cs:165 | the stripped value has no closing brace left |
| AssaIntellisense.FallbackNeverTaken | src/ui/Logic/AssaIntellisense.cs:160-167 | the typed word never ends with a backslash, so under an ordinal `EndsWith` the stripped fallback list is never used |
| AssaIntellisense.IndexOfValue | src/ui/Logic/AssaIntellisense.cs:188-191 | the first item with the value, or -1 exactly when no item has it |
| AssaIntellisense.AddedTagRepeatsIff | src/ui/Logic/AssaIntellisense.cs:238-242 | after adding a tag the last two are equal exactly when it repeats the previous last tag |
| AssaIntellisense.ShowListOfFiltered | src/ui/Logic/AssaIntellisense.cs:156-182 | a list box filled from the filtered list holds only matching offered entries, carrying the typed word and cursor tag, and holds every matching entry; it is hidden exactly when none matches |
| AssaIntellisense.ShownItemsMatchTypedWord | src/ui/Logic/AssaIntellisense.cs:142-182 | the list box holds only offered entries that start with the typed word, each carrying that word and the tag at the cursor, and every such entry appears in it; it is hidden exactly when no entry does; the selection is in range |
| AssaIntellisense.FilterKeepsAllWhenNothingTyped | src/ui/Logic/AssaIntellisense.cs:156-158 | with nothing typed every offered entry is listed |
| AssaIntellisense.TransformListing | src/ui/Logic/AssaIntellisense.cs:150-154 | right after `\t(` the working list is every entry allowed in transforms, without its brace, with nothing typed |
| AssaIntellisense.TransformListShownIff | src/ui/Logic/AssaIntellisense.cs:149-182 | right after `\t(` the list box is shown exactly when some entry of the table is allowed in transforms |
| AssaIntellisense.TrimmedListItems | src/ui/Logic/AssaIntellisense.cs:152-177 | a shown list of brace-less transform entries has one item per entry, each allowed in transforms, led by a backslash and carrying no typed word |
| AssaIntellisense.TransformOffersAnimatableTags | src/ui/Logic/AssaIntellisense.cs:150-182 | right after `\t(` the list box is shown exactly when the table has an entry allowed in transforms; it then holds one backslash-led item per such entry, with no typed word |
| AssaIntellisense.SelectionPrefersClosingTag | src/ui/Logic/AssaIntellisense.cs:184-201 | the selection is the first listed closing tag when one is proposed, else the first listed repeat of the last tag when the last two tags are equal, else the first item |
| AssaIntellisense.TrimmedValuesStartWithBackslash | src/ui/Logic/AssaIntellisense.cs:147 | entries offered without brace all start with a backslash |
| AssaIntellisense.ClosingTagPreselectedWhenListed | src/ui/Logic/AssaIntellisense.cs:146-191 | with nothing typed outside a transform and a proposed closing tag that is a table value, the whole table is listed and that closing tag is selected |
| AssaIntellisense.TrimmedListNeverPreselectsClosingTag | src/ui/Logic/AssaIntellisense.cs:184-192 | once the typed word starts with a backslash a proposed closing tag is never found in the list and the first item is selected |
| AssaIntellisense.InnerCallAgrees | src/ui/Logic/AssaIntellisense.cs:146-157 | the word the source's first `GetLastString` returns has no separator, so the second call on it at line 157 agrees with the corrected version |
| AssaIntellisense.AutoCompleteAsWrittenAgrees | src/ui/Logic/AssaIntellisense.cs:142-217 | the source's completion throws exactly when its first `GetLastString` throws, and shows the corrected list box whenever that call reads the corrected word |
| AssaIntellisense.LeadingSeparatorAbortsCompletion | src/ui/Logic/AssaIntellisense.cs:146 | for " {" the source's completion throws `ArgumentOutOfRangeException` |
| AssaIntellisense.BraceAfterWordListsWholeTable | src/ui/Logic/AssaIntellisense.cs:146-177 | after "Hello {" the source's completion shows the whole table, every item with an empty typed word |
| AssaIntellisense.BraceAfterWordIsTyped | src/ui/Logic/AssaIntellisense.cs:146-177 | after "Hello {" the corrected completion is shown, every item carrying "{" as the typed word |
| AssaIntellisense.Intellisense.AddUsedTag | src/ui/Logic/AssaIntellisense.cs:137-140 | the tag is appended to the history, and the last two tags are then equal exactly when it repeats the previous one |
| AssaIntellisense.Intellisense.AutoCompleteTextBox | src/ui/Logic/AssaIntellisense.cs:142-217 | the population loop and the selection yield the list box the corrected completion describes for the real table |
| AssaIntellisense.Intellisense.FillListBox | src/ui/Logic/AssaIntellisense.cs:169-201 | the loop adds one item per listed entry, carrying the typed word and the tag at the cursor, and the selection follows the closing tag or the repeated tag, as the completion specification says |
| AssaTableFacts.StyleAndBorderTagsAreKeywords | src/ui/Logic/AssaIntellisense.cs:48-133 | helper, true by construction of the table: the style and border groups are part of it |
| AssaTableFacts.SomeKeywordAnimates | src/ui/Logic/AssaIntellisense.cs:48-133 | some entry of the table is allowed in transforms |
| AssaTableFacts.ClosingTagsAreKeywords | src/ui/Logic/AssaIntellisense.cs:48-133 | every closing tag the completion proposes is an entry of the table |
| AssaTableFacts.TransformListIsShown | src/ui/Logic/AssaIntellisense.cs:150-154 | right after `\t(` the list box for the real table is shown |
| AssaTableFacts.ClosingTagPreselectedWhenNothingTyped | src/ui/Logic/AssaIntellisense.cs:184-192 | with nothing typed after a recognised opening tag, the whole table is listed and the tag that closes it is preselected |

## Left out

- User interface: the list views, the picture boxes and their scaling, the dark theme, and the list box size and font. Also the confirmation dialogs and message boxes, including the import's "replace times?" question and its report.
- Saving (BDN XML, .sup, images), OCR, video, and every bitmap's pixels. A bitmap is only a size here.
- Rebuilding `_subtitle` and `_extra` after a load (from `StartTimeCode`, `GetPosition`, `GetBitmap`, `GetScreenSize`). These are getters of classes that are not part of this model.
- `BluRaySupParser.ParseBluRaySup`, `VobSubParser.IsMpeg2PackHeader`, `VobSubParser.IsPrivateStream1`, the `DvbSubPes` constructor and Matroska reading. These are parameters.
- DVB null payloads: the model assumes the foreign predicates throw on null, so such a packet is skipped.
- The `ulong` cast of a negative DVB time: times are unbounded integers.
- `(long)((t - 1) * 90.0)`: computed exactly in integers.
- Paragraph text, numbering and `Renumber`: rows are times only.
- `ListView.SelectedIndices`: assumed to be strictly ascending, as the list view reports them.
- Import: the `SelectedItems[0]` read after the loop, which throws when no row is selected, is outside the modelled command.
- BinEditLists.BinEdit.InsertParagraph: it follows the corrected insertion, which appends an empty event to `_binSubtitles` when no row is selected. The source does not, so after that command the source's lists are misaligned (Findings, `UnselectedInsertMisalignsLists`).
- BinEditLists.InsertedAsWritten: an `Insert` that throws on a short list is modelled as a failure with the lists unchanged. The source has already inserted into the earlier lists by then.
- PGS scan: the model scans only the block's own payload for the 0x80 segment, as line 323 of `BinEdit.cs` does, not the accumulated cluster buffer. It then decodes the cluster buffer with that block already appended.
- Empty blocks: the guard at lines 353-357 of `BinEdit.cs` only bounds the closed event's length from above. An empty block that comes before a dangling event's start gives it a negative duration, in the source as in the model.
- Case-insensitive comparison (`OrdinalIgnoreCase`) folds ASCII letters only.
- AssaIntellisense.Intellisense.AutoCompleteTextBox: it follows the corrected `GetLastString`. The source throws `ArgumentOutOfRangeException` when the text before the cursor starts with a separator and has none later (" {"), where the method shows the list. After a word and a separator ("Hello {") the source's items carry an empty typed word, where the method's carry the word after the separator. `AutoCompleteAsWritten` models the source's behaviour and `AutoCompleteAsWrittenAgrees` relates the two.
- AssaIntellisense.FallbackNeverTaken: the `EndsWith("\\")` test at line 160 of `AssaIntellisense.cs` is culture-sensitive in the source and is modelled as ordinal (`Listed`). In the source a character the culture ignores, such as a soft hyphen U+00AD after the backslash, satisfies that test. The stripped fallback list is then shown, which the model never does.
- `GetEndTagFromLastTagInText` uses the culture-sensitive `StartsWith`; it is modelled as an ordinal prefix test.
- `Keywords`: the table stores each entry's tag, and `Value` rebuilds the `{\tag}` block, so the value strings are not copied character by character.
- Global settings (`SubtitleMaximumDisplayMilliseconds`, `MinimumMillisecondsBetweenLines`, `NewEmptyDefaultMs`) are parameters.

## Findings

| source | as written | input that shows it | evidently intended | confidence | as-written member | corrected member |
|---|---|---|---|---|---|---|
| src/ui/Forms/BinaryEdit/BinEdit.cs:590-597 | without a selection the new row is appended to `_subtitle.Paragraphs` and `_extra` but not to `_binSubtitles` | a loaded subtitle with no rows, insert with nothing selected, then insert after row 0: `_binSubtitles.Insert(1, …)` on an empty list throws | append an empty `PcsData` to `_binSubtitles` as the selected case inserts one, keeping the three lists aligned | not executed | BinEditLists.UnselectedInsertMisalignsLists | BinEditLists.InsertKeepsListsAligned |
| src/ui/Logic/AssaIntellisense.cs:294 | `s.Remove(0, lastSeparatorIndex - 1)` keeps the separator and the character before it | " {" throws `ArgumentOutOfRangeException`; "Hello {" gives "" because "o {" starts no tag | `Remove(0, lastSeparatorIndex + 1)`, the word after the separator, so "Hello {" gives "{" | not executed | AssaIntellisense.AsWrittenDiffersOnlyAfterSeparator | AssaIntellisense.GetLastStringIsTypedWord |
