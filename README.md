# TetraDecaPost core, modelled in Dafny

TetraDecaPost turns CNC programs from one dialect into another, line by line. Its `om`
library is the object model behind the Qt views of its GUI. This project models both parts:

- **`flinereader`.** A generator yielding the lines of a file with their terminators removed.
- **`DMU65UL_Post`.** Translates an APT cutter-location file (`RAPID`, `FEDRAT/...`,
  `GOTO/x,y,z[,i,j,k]`) into G-code for a DMU 65 monoBLOCK.
- **`ConfineTraoriHemisphere`.** Relabels every line of a Sinumerik TRAORI program `N000000`,
  `N000001`, and so on. It rewrites each G0/G1 block of X/Y/Z and A3=/B3=/C3= words as a move
  with A and C table angles.
- **`SignalingList` and `UniformSignalingList`.** A list that emits a pre-change and a
  post-change signal around every mutation. The uniform variant converts every incoming
  element first.
- **`Property`.** A descriptor giving an attribute a per-object default, an explicit override
  and a change signal.
- **Three Qt models over a signaling list.** `ListModel`, `PropertyTableModel` and
  `RecursivePropertyTableModel`, with dotted property paths. All three keep per-element
  instance counts and follow the list's signals.
- **The item-view shortcut.** Deletes the selected rows with one `removeRows` call per run of
  adjacent rows, the last run first.

There is one module per source file. The shared modules are:

- `Wrappers` (Option/Result);
- `PyStr` (Python string operations);
- `PyList` (Python list indexing, slicing and slice assignment);
- `Sorting` (stable `sorted` by an integer key);
- `TextIO` (`readline` over the content of a file);
- `TableModels` (what the Qt models share).

**State.** Objects whose fields the source updates are classes:

- `SignalingList`, `UniformSignalingList`, `Bearer`, `InstanceCounter`, `InstanceTree`;
- the three models.

Each method states its complete new state.

**Functions and loops.** The translators' per-line logic consists of functions, and their read
loops are methods proved equal to a recursive function over the lines read.

**Signals.** A signaling list keeps every signal it emits in an event log. `Replay` gives the
contents that a listener reconstructs from such a log. Lemmas prove of every mutation that its
signals replay exactly to the new contents. The models' slots are methods called with a
signal's arguments, and the models' outputs are appended logs:

- `dataChanged` emissions;
- signal connections;
- attribute writes.

## Model

| member | source | states |
|---|---|---|
| FLineReader.FLineReader | flinereader.py:11-20 | the lines yielded are exactly the file's lines as read, each with its terminator removed, in order |
| FLineReader.StripAll | flinereader.py:15-19 | one stripped line per line read |
| FLineReader.StripAllAt | flinereader.py:15-19 | the k-th yielded line is the k-th line read with its terminator removed |
| FLineReader.YieldedLines | flinereader.py:11-20 | one yielded line per line read. None contains a line feed. Each is its line with exactly "\r\n" removed, else exactly "\n", else unchanged. Only the last line of the file can come through unchanged |
| FLineReader.StripTerminatorLine | flinereader.py:15-18 | stripping a line read leaves no line feed and removes exactly the terminator it had |
| FLineReader.EmptyAndSingleLine | flinereader.py:13-14 | an empty file yields nothing; a file without a line feed yields its content once |
| TextIO.LinesCoverContent | flinereader.py:13-20 | concatenated, the lines readline returns are the whole rest of the file |
| TextIO.LinesShape | flinereader.py:13-20 | every line read is non-empty, has a line feed only at its end, and every line but the last ends with one |
| Dmu65ulPost.Run | dmu65ul_post.py:15-46 | the lines written and the error raised are those of translating the lines read in order, starting with the rapid flag cleared |
| Dmu65ulPost.RunWith | dmu65ul_post.py:19-46 | the read loop, for any per-record translation, computes the recursive run over the lines read |
| Dmu65ulPost.Advance | dmu65ul_post.py:21-46 | one loop iteration keeps the invariant "written so far, then the run over the rest, is the whole run", or stops with the whole run's error |
| Dmu65ulPost.RapidSetsFlag | dmu65ul_post.py:29-30 | RAPID writes nothing and sets the rapid flag |
| Dmu65ulPost.FlagAndOutput | dmu65ul_post.py:29-45 | only RAPID sets the flag and only GOTO clears it. A record writes nothing exactly when it is RAPID or starts with neither FEDRAT/ nor GOTO/ (both directions) |
| Dmu65ulPost.FedratIpm | dmu65ul_post.py:31-32 | `FEDRAT/IPM,v[,...]` writes `G1 Fv` and keeps the flag |
| Dmu65ulPost.FedratOther | dmu65ul_post.py:33-34 | any other `FEDRAT/v[/...]` writes `G1 Fv` and keeps the flag |
| Dmu65ulPost.GotoValues | dmu65ul_post.py:35-45 | a GOTO with 3 or 6 values writes G0 or G1 according to the flag, then X/Y/Z (and A3=/B3=/C3=) with the values verbatim, and clears the flag |
| Dmu65ulPost.GotoBadCount | dmu65ul_post.py:38-43 | a GOTO with any other number of values raises the value-count error |
| Dmu65ulPost.GotoFields | dmu65ul_post.py:36 | the values of `GOTO/` joined by commas split back into exactly those values |
| Dmu65ulPost.RunAppend | dmu65ul_post.py:19-46 | running two batches of records is the first run followed by the second, which starts from the first's flag; an error in the first ends the run |
| Dmu65ulPost.ErrorKeepsOutput | dmu65ul_post.py:42-43 | a record that raises ends the run; every line written before it stays written and nothing after it is |
| Dmu65ulPost.AtMostOneLinePerRecord | dmu65ul_post.py:19-46 | no more lines are written than records read |
| Dmu65ulPost.RapidThenGoto | dmu65ul_post.py:29-45 | RAPID then GOTO writes exactly one G0 move; the same GOTO alone at the start writes a G1 |
| Dmu65ulPost.GotoAlone | dmu65ul_post.py:35-45 | a file of one GOTO record with 3 or 6 values writes exactly one move line, G0 or G1 as the starting flag says, and no error |
| ConfineTraoriHemisphere.Run | confine_traori_hemisphere.py:10-72 | the lines written and the error raised are those of the pass over the lines read, from line 0, with i, j, k = 0, 0, 1, x, y, z unset and j_n unbound |
| ConfineTraoriHemisphere.Advance | confine_traori_hemisphere.py:19-72 | one iteration of the outer loop keeps the invariant "written so far, then the pass over the rest, is the whole pass" |
| ConfineTraoriHemisphere.Block | confine_traori_hemisphere.py:21-71 | one input line: its output line and modal values are those of the per-line translation |
| ConfineTraoriHemisphere.ScanBlock | confine_traori_hemisphere.py:39-55 | the per-word loop computes the recursive scan: classification, the duplicate test, the float parse, and the stop at a comment or non-component |
| ConfineTraoriHemisphere.OneLinePerInput | confine_traori_hemisphere.py:10-72 | without an error there is exactly one output line per input line. An error leaves the lines before the failing one. Output line k carries the label of input line n + k |
| ConfineTraoriHemisphere.LabelReadsBack | confine_traori_hemisphere.py:69-71 | the label is N and digits reading back as the line index, exactly six digits for the first million lines |
| ConfineTraoriHemisphere.LineLabelled | confine_traori_hemisphere.py:69-71 | every line written for input line n starts with the label of n and a space |
| ConfineTraoriHemisphere.LabelRemoved | confine_traori_hemisphere.py:23-25 | a leading `N<digits>` or `n<digits>` label is removed and the rest stripped |
| ConfineTraoriHemisphere.Unlabelled | confine_traori_hemisphere.py:23-25 | a line without a leading label is kept unchanged |
| ConfineTraoriHemisphere.DropDigits | confine_traori_hemisphere.py:23 | what `\d+` leaves is a suffix of the text, after a run of digits only, and starts with no digit |
| ConfineTraoriHemisphere.DropDigitsPrefix | confine_traori_hemisphere.py:23-24 | `\d+` consumes exactly the leading digits |
| ConfineTraoriHemisphere.LeadingComponentsAre | confine_traori_hemisphere.py:39-50 | the leading-component count covers exactly the words before the first non-component |
| ConfineTraoriHemisphere.ScanFlags | confine_traori_hemisphere.py:39-56 | a successful scan is ok exactly when the components run to the end or to a comment, and has a value exactly when one component was seen |
| ConfineTraoriHemisphere.RewrittenIffEligible | confine_traori_hemisphere.py:56-71 | a line processed without error is rewritten exactly when its first word is G0 or G1, one component follows, and the first non-component, if any, is a comment |
| ConfineTraoriHemisphere.RewriteAngles | confine_traori_hemisphere.py:57-66 | a rewrite fails with UnboundLocalError exactly when k >= .99 and no earlier rewrite set j_n. Otherwise j_n is computed afresh when k < .99, else the stale one is reused. It is kept for later blocks, and the A and C words are the angles of k and j_n |
| ConfineTraoriHemisphere.VerticalStartUnbound | confine_traori_hemisphere.py:57-66 | with the initial vertical tool vector, the first block that is rewritten raises UnboundLocalError |
| ConfineTraoriHemisphere.RewriteForm | confine_traori_hemisphere.py:57-69 | a rewritten line starts with its label, `G0`/`G1` and the X word |
| ConfineTraoriHemisphere.OutputForms | confine_traori_hemisphere.py:56-71 | a rewritten line carries the G word its block selected and then X. Any other line is its new label followed by the label-stripped text |
| ConfineTraoriHemisphere.DuplicateRejected | confine_traori_hemisphere.py:50-53 | a component name given twice fails the scan, with the duplicate error unless an earlier value failed to parse |
| ConfineTraoriHemisphere.DuplicateInBlock | confine_traori_hemisphere.py:50-53 | a block whose components name one component twice makes the line fail |
| ConfineTraoriHemisphere.ScanModal | confine_traori_hemisphere.py:39-55 | after a scan, the modal map has the old keys plus those of the block. Unnamed keys keep their values and named keys hold the parsed values |
| ConfineTraoriHemisphere.ScanNamesFresh | confine_traori_hemisphere.py:50-53 | within a successful scan every component name is new |
| ConfineTraoriHemisphere.ComponentName | confine_traori_hemisphere.py:40-49 | a component is one of X, Y, Z, A3=, B3=, C3= |
| ConfineTraoriHemisphere.KeyInjective | confine_traori_hemisphere.py:40-55 | different component names set different modal keys |
| ConfineTraoriHemisphere.LStripTwice | confine_traori_hemisphere.py:21-25 | stripping leading whitespace is idempotent |
| SignalingLists.ReplaysThen | om/signaling_list/signaling_list.py:126-211 | signal logs compose: a log from l to m followed by a log from m to l' accounts for l to l' |
| SignalingLists.SignalingList.constructor | om/signaling_list/signaling_list.py:62-68 | the list holds the iterable's elements and has emitted nothing |
| SignalingLists.SignalingList.Clear | om/signaling_list/signaling_list.py:104-110 | the list is empty and removing/removed carried every index and element, even for an empty list |
| SignalingLists.ClearReplays | om/signaling_list/signaling_list.py:104-110 | clear() is del l[:], and its signals replay to the empty list |
| SignalingLists.SignalingList.DelSlice | om/signaling_list/signaling_list.py:200-211 | on success, the contents are Python's del l[s] and the signals are the removal of the selected positions; an error changes nothing |
| SignalingLists.DelSliceReplays | om/signaling_list/signaling_list.py:200-211 | the deletion signals replay to the new contents; they are empty exactly when the slice selects nothing, and the length drops by the number selected |
| SignalingLists.SignalingList.DelIndex | om/signaling_list/signaling_list.py:200-211 | del l[i] removes the element at the position i names and reports that position; out of range changes nothing |
| SignalingLists.DelIndexReplays | om/signaling_list/signaling_list.py:206-211 | the deletion of one index replays to the new contents |
| SignalingLists.SignalingList.SetIndex | om/signaling_list/signaling_list.py:170-174 | l[i] = v replaces the element at the position i names, emitting only replaced; out of range raises IndexError and changes nothing |
| SignalingLists.SetIndexReplays | om/signaling_list/signaling_list.py:170-174 | the one replaced signal replays to the new contents |
| SignalingLists.SignalingList.SetSlice | om/signaling_list/signaling_list.py:126-169 | on success, the contents are Python's slice assignment and the signals are unit-step replace-then-insert/delete or one strided replacement. A zero step raises ValueError; a strided size mismatch raises NameError; an error changes nothing |
| SignalingLists.SignalingList.SetUnitSlice | om/signaling_list/signaling_list.py:142-161 | the unit-step case: contents l[..start] + srcs + l[stop..], with its signals |
| SignalingLists.SignalingList.ReplaceCommon | om/signaling_list/signaling_list.py:146-152 | the common run replaced with one replacing/replaced pair |
| SignalingLists.SignalingList.FinishUnitSlice | om/signaling_list/signaling_list.py:153-161 | the surplus sources inserted after the run, or the surplus destinations deleted |
| SignalingLists.UnitItemsDone | om/signaling_list/signaling_list.py:142-161 | replacement then insertion/deletion yields exactly the slice assignment's contents |
| SignalingLists.ReplaceSignalsReplays | om/signaling_list/signaling_list.py:146-152 | the replacement signals replay to the list with the run overwritten |
| SignalingLists.TailSignalsReplays | om/signaling_list/signaling_list.py:153-161 | the insertion or deletion signals replay to the contents after them |
| SignalingLists.TrimSignals | om/signaling_list/signaling_list.py:159-161 | trimming delegates to del l[a:b], one removal of positions a..b-1 and their elements |
| SignalingLists.UnitSignalsReplay | om/signaling_list/signaling_list.py:133-161 | the unit-step signals replay to the slice assignment's result |
| SignalingLists.SetSliceReplays | om/signaling_list/signaling_list.py:126-169 | whenever the slice assignment succeeds, its signals replay to exactly Python's result |
| SignalingLists.SignalingList.Extend | om/signaling_list/signaling_list.py:176-182 | the contents are l + srcs, with one insertion at the old length |
| SignalingLists.ExtendReplays | om/signaling_list/signaling_list.py:176-182 | extend appends, and its signals replay to that |
| SignalingLists.SignalingList.Insert | om/signaling_list/signaling_list.py:184-195 | insert(i, x) is Python's list.insert, with one insertion signal |
| SignalingLists.InsertReplays | om/signaling_list/signaling_list.py:184-195 | x lands at i counted from the end when negative and clamped to [0, len]; the length grows by one; the signals replay |
| SignalingLists.SignalingList.Sort | om/signaling_list/signaling_list.py:197-198 | the contents become the stable sort; the signals are those of assigning l[:] |
| SignalingLists.SortSignals | om/signaling_list/signaling_list.py:197-198 | sorting a non-empty list is one replacement of every position, an empty one emits nothing, and the signals replay to the sorted list |
| SignalingLists.WholeAssign | om/signaling_list/signaling_list.py:142-152 | assigning l[:] contents of the same length is one replacement of every position |
| SignalingLists.SignalingList.Equals | om/signaling_list/signaling_list.py:213-218 | equal exactly when the other has a length and the same elements in order |
| SignalingLists.PairwiseEqual | om/signaling_list/signaling_list.py:218 | zip-wise equality of equal-length sequences is sequence equality |
| SignalingLists.SetIndexWrapsTwice | om/signaling_list/signaling_list.py:171-174 | on [7, 8], index -3 is an IndexError for a list, but as written overwrites the last element and reports -1, which no listener can replay |
| SignalingLists.DelIndexReportsRawIndex | om/signaling_list/signaling_list.py:206-211 | del l[-1] on [7, 8] removes 8 but reports index -1, which no listener can replay |
| Sorting.SortedCorrect | om/signaling_list/signaling_list.py:198 | sorted() is ordered by the key (reversed if asked) and a permutation of its input |
| UniformSignalingLists.TakeAllElementwise | om/signaling_list/uniform_signaling_list.py:116-129 | converting succeeds exactly when every element converts, and then holds each conversion at its position |
| UniformSignalingLists.TakeAllAppend | om/signaling_list/uniform_signaling_list.py:123-129 | the conversion of a concatenation is the concatenation of the conversions |
| UniformSignalingLists.BaseTakeRejects | om/signaling_list/uniform_signaling_list.py:118-119 | with the base hook only the empty sequence converts |
| UniformSignalingLists.UniformSignalingList.New | om/signaling_list/uniform_signaling_list.py:112-116 | no iterable gives an empty list. Otherwise there is a list exactly when every element converts, and it holds the conversions |
| UniformSignalingLists.UniformSignalingList.Wrap | om/signaling_list/uniform_signaling_list.py:112-116 | the list converts with the given hook over the given base list |
| UniformSignalingLists.UniformSignalingList.SetSlice | om/signaling_list/uniform_signaling_list.py:121-123 | everything is converted first; a failing conversion changes nothing; otherwise the base slice assignment of the conversions, passing on its error: ValueError for a zero step, NameError for a strided length mismatch |
| UniformSignalingLists.UniformSignalingList.SetIndex | om/signaling_list/uniform_signaling_list.py:124-125 | v is converted first, then the base index assignment |
| UniformSignalingLists.UniformSignalingList.Extend | om/signaling_list/uniform_signaling_list.py:128-129 | everything is converted first, then appended with one insertion |
| UniformSignalingLists.UniformSignalingList.Insert | om/signaling_list/uniform_signaling_list.py:132-133 | x is converted first, then the base insert |
| Properties.DerivedNames | om/property.py:81-84 | the override, default and signal names differ from each other and each determines the property's name |
| Properties.OverrideMeetsDefault | om/property.py:82-83 | the override of property `default_n` is stored where property `n` stores its default |
| Properties.Apparent | om/property.py:129-135 | reading gives a value exactly when an override or a stored default exists |
| Properties.IsDefault | om/property.py:163-169 | is_default raises exactly when there is an override but no stored default |
| Properties.IsDefaultShowsDefault | om/property.py:163-169 | on an instantiated bearer, is_default says whether the value shown is the stored default |
| Properties.Bearer.constructor | om/property.py:102 | the bearer as instantiate receives it, before any Property is instantiated on it: no attributes yet and nothing emitted |
| Properties.SetSignals | om/property.py:137-147 | a successful assignment ends with the change signal |
| Properties.Bearer.Instantiate | om/property.py:102-105 | stores the default; the value shown becomes it unless an override exists |
| Properties.Bearer.UpdateDefault | om/property.py:107-118 | under an override, the shown value does not change and nothing is signalled. Otherwise the signal is emitted exactly when the default changed. With neither attribute it raises and changes nothing |
| Properties.Bearer.CopyInstanceValue | om/property.py:120-127 | copies the source's override, when it has one, so that both show the same value; no signals |
| Properties.Bearer.Set | om/property.py:137-147 | equal to the present override, nothing happens; a pre-set veto only logs the call; otherwise the override is stored, post-set runs, the signal is emitted once and the value shown is the stored one |
| Properties.Bearer.Delete | om/property.py:149-161 | the override goes. The value shown becomes the stored default. The signal (after post-set) is emitted exactly when the override differed from the default. Nothing is emitted exactly when is_default would not answer False |
| Properties.DeletedIsDefault | om/property.py:149-169 | after deleting, the property is at its default |
| Properties.SetOutcomes | om/property.py:137-147 | assigning the present override is skipped; without pre-set nothing is vetoed; without an override nothing is skipped |
| TableModels.Cells | om/signaling_list/property_table_model.py:256-259 | one single-cell dataChanged per row, in that column |
| TableModels.CountsAdd | om/signaling_list/property_table_model.py:224-226 | one more instance raises the element's count by one, from 0 |
| TableModels.CountsRemove | om/signaling_list/property_table_model.py:237-248 | one instance fewer lowers the count, dropping the key at zero |
| TableModels.ConnectsOnce | om/signaling_list/property_table_model.py:222-233 | attaching connects each element that had no instance exactly once, and nothing else |
| TableModels.DisconnectsOnce | om/signaling_list/property_table_model.py:235-248 | detaching disconnects each element whose instances all go exactly once, and nothing else |
| TableModels.InstanceCounter.constructor | om/signaling_list/property_table_model.py:145 | no counts and no connections |
| TableModels.InstanceCounter.AttachOne | om/signaling_list/property_table_model.py:224-233 | the count goes up; the element is connected when it is the first instance |
| TableModels.InstanceCounter.Attach | om/signaling_list/property_table_model.py:222-233 | the counts are those of the attached elements plus the new ones; the connections are one per newly counted element |
| TableModels.InstanceCounter.DetachOne | om/signaling_list/property_table_model.py:237-248 | the count goes down; the element is disconnected and its key dropped at zero |
| TableModels.InstanceCounter.Detach | om/signaling_list/property_table_model.py:235-248 | the counts lose the elements; one disconnection per element whose count reaches zero |
| TableModels.ApplyElements | om/signaling_list/property_table_model.py:264-279 | a change takes out exactly the departed elements and puts in the arrived ones |
| TableModels.Track | om/signaling_list/property_table_model.py:264-279 | after a post-change slot the counts are those of the list's new contents, with departed elements detached before arrived ones are attached |
| TableModels.TrackAll | om/signaling_list/property_table_model.py:264-279 | handling every signal of a replayable log keeps the counts equal to the list's contents |
| TableModels.OccurrencesAscending | om/signaling_list/property_table_model.py:253-258 | the positions repeated list.index finds hold the element and ascend strictly |
| TableModels.OccurrencesCover | om/signaling_list/property_table_model.py:253-258 | every position holding the element is found |
| TableModels.OccurrencesCount | om/signaling_list/property_table_model.py:253-258 | there are as many as the element has instances |
| TableModels.ChangedRows | om/signaling_list/property_table_model.py:253-259 | the loop finds the first count occurrences; it fails (ValueError) exactly when there are fewer |
| TableModels.ChangedRowsAll | om/signaling_list/property_table_model.py:250-259 | with counts kept, the rows found are every row holding the element, ascending |
| TableModels.SeqMin | om/signaling_list/property_table_model.py:272 | min() is an element no greater than any other |
| TableModels.SeqMax | om/signaling_list/property_table_model.py:272 | max() is an element no smaller than any other |
| PropertyTableModels.ColumnsOfDistinct | om/signaling_list/property_table_model.py:140 | with distinct names, each name maps to its position, and nothing else is a key |
| PropertyTableModels.DuplicateCheck | om/signaling_list/property_table_model.py:142-143 | len(set(names)) == len(names) exactly when no name repeats |
| PropertyTableModels.PropertyTableModel.New | om/signaling_list/property_table_model.py:136-146 | fails on an empty name, else on a duplicate (both directions); otherwise the columns are the names' positions and the counts are the list's |
| PropertyTableModels.PropertyTableModel.Init | om/signaling_list/property_table_model.py:136-146 | the columns are the names' positions, there is no list, and nothing is counted, connected or marked |
| PropertyTableModels.PropertyTableModel.RowCount | om/signaling_list/property_table_model.py:148-150 | 0 without a list, else its length |
| PropertyTableModels.PropertyTableModel.ColumnCount | om/signaling_list/property_table_model.py:152-153 | one column per name |
| PropertyTableModels.PropertyTableModel.SetList | om/signaling_list/property_table_model.py:197-220 | a different list detaches all old elements then attaches all new ones; the counts become the new list's |
| PropertyTableModels.PropertyTableModel.OnSignal | om/signaling_list/property_table_model.py:261-279 | after a post-change signal the counts follow the change. An insertion marks its rows in every column; a replacement marks min..max of its indexes. A pre-change signal changes nothing. A replacement or a pre-removal signal with no indexes raises ValueError |
| PropertyTableModels.PropertyTableModel.OnPropertyChanged | om/signaling_list/property_table_model.py:250-259 | one dataChanged per row holding the element, ascending, in the property's column; unknown name or element raises KeyError |
| PropertyTableModels.PropertyTableModel.RemoveRows | om/signaling_list/property_table_model.py:185-191 | deletes the slice and answers True. The list's new signals are exactly those of the deletion. The counts follow the list, and the log gains exactly the disconnections of the deleted elements whose last instance went |
| ListModels.ListModel.New | om/signaling_list/list_model.py:63-72 | the model shows the list; counts are the list's with a property name and none without |
| ListModels.ListModel.Init | om/signaling_list/list_model.py:63-72 | no list, nothing counted, connected, marked or written |
| ListModels.ListModel.Keep | om/signaling_list/list_model.py:209-223 | with a property name the counts follow the change, departed elements disconnected before arrived ones connected; without one nothing is counted |
| ListModels.ListModel.RowCount | om/signaling_list/list_model.py:74-76 | 0 without a list, else its length |
| ListModels.ListModel.ColumnCount | om/signaling_list/list_model.py:78-79 | always one |
| ListModels.ListModel.GetRow | om/signaling_list/list_model.py:91-96 | succeeds exactly for rows in Python index range. The value is the element, or its attribute (None if missing) |
| ListModels.ListModel.SetRow | om/signaling_list/list_model.py:103-108 | without a property name, the element is replaced and the row marked via `_on_replaced`. With one, one attribute write and the list unchanged. Out of range raises IndexError and changes nothing |
| ListModels.ListModel.RemoveRows | om/signaling_list/list_model.py:127-133 | deletes the slice and answers True. The list's new signals are exactly those of the deletion. With a property name the counts follow the list and the log gains exactly the disconnections of the deleted elements whose last instance went; without one nothing is counted or connected |
| ListModels.ListModel.SetList | om/signaling_list/list_model.py:139-162 | a different list detaches all old elements, then attaches all new ones; nothing without a property name |
| ListModels.ListModel.OnSignal | om/signaling_list/list_model.py:206-223 | after a post-change signal the counts follow the change. Only a replacement marks rows, min..max in column 0. A pre-change signal changes nothing. A replacement or a pre-removal signal with no indexes raises ValueError |
| ListModels.ListModel.OnPropertyChanged | om/signaling_list/list_model.py:196-204 | one dataChanged per row holding the element, ascending; without a property name or count it raises |
| RecursivePropertyTableModels.GrowFind | om/signaling_list/recursive_property_table_model.py:82-95 | growing by a path keeps every node and its names. It adds exactly the path's non-empty prefixes, named after their last component and full path. A node is seen exactly when it was, or when it ends the path |
| RecursivePropertyTableModels.PathsOf | om/signaling_list/recursive_property_table_model.py:70 | each path is its name split at dots |
| RecursivePropertyTableModels.BuildDescrTree | om/signaling_list/recursive_property_table_model.py:76-78 | the descriptor tree holds a node for each non-empty path prefix and no other. Each has the right name and full name, and is seen exactly for whole paths |
| RecursivePropertyTableModels.SeenHasColumn | om/signaling_list/recursive_property_table_model.py:456-459 | a seen node's full name is a column name |
| RecursivePropertyTableModels.NameHasNode | om/signaling_list/recursive_property_table_model.py:82-95 | every name's path reaches a seen node whose full name is the name |
| RecursivePropertyTableModels.LeafIffLast | om/signaling_list/recursive_property_table_model.py:301-303 | a node is a leaf exactly when no path continues past it |
| RecursivePropertyTableModels.InstancesResolve | om/signaling_list/recursive_property_table_model.py:346-380 | on a described path, path_exists holds exactly when the attributes reach the end, and rec_get reads the value there (None otherwise) |
| RecursivePropertyTableModels.RecSetResolves | om/signaling_list/recursive_property_table_model.py:382-387 | rec_set writes exactly when the attributes reach the end, and writes the value to the last component of the object the rest reaches |
| RecursivePropertyTableModels.InstanceTree.constructor | om/signaling_list/recursive_property_table_model.py:389-391 | the root has no element nodes |
| RecursivePropertyTableModels.InstanceTree.AttachOne | om/signaling_list/recursive_property_table_model.py:406-421 | the first instance creates the element node with its instance subtree; later ones raise its count |
| RecursivePropertyTableModels.InstanceTree.DetachOne | om/signaling_list/recursive_property_table_model.py:423-430 | the count goes down; the last instance removes the node |
| RecursivePropertyTableModels.InstanceTree.Attach | om/signaling_list/recursive_property_table_model.py:192-199 | every element attached, counts added |
| RecursivePropertyTableModels.InstanceTree.Detach | om/signaling_list/recursive_property_table_model.py:201-204 | every element detached, counts removed |
| RecursivePropertyTableModels.InstanceTree.Follow | om/signaling_list/recursive_property_table_model.py:209-223 | after a post-change slot the nodes are those of the list's new contents |
| RecursivePropertyTableModels.InstanceTree.FollowAll | om/signaling_list/recursive_property_table_model.py:209-223 | following every signal of a replayable log keeps the nodes equal to the list's contents |
| RecursivePropertyTableModels.RecursivePropertyTableModel.New | om/signaling_list/recursive_property_table_model.py:62-80 | fails with ValueError exactly for no names, an empty name or a duplicate. Otherwise the paths, the descriptor tree and the columns are the names', and the nodes are the list's |
| RecursivePropertyTableModels.RecursivePropertyTableModel.Init | om/signaling_list/recursive_property_table_model.py:62-80 | the columns are the names' positions, the instance tree is empty over the descriptor tree, and nothing is marked or written |
| RecursivePropertyTableModels.RecursivePropertyTableModel.RowCount | om/signaling_list/recursive_property_table_model.py:97-99 | 0 without a list, else its length |
| RecursivePropertyTableModels.RecursivePropertyTableModel.ColumnCount | om/signaling_list/recursive_property_table_model.py:101-102 | one column per name |
| RecursivePropertyTableModels.RecursivePropertyTableModel.Locate | om/signaling_list/recursive_property_table_model.py:120-121 | the row's element node and the column's path, for rows and columns in range |
| RecursivePropertyTableModels.RecursivePropertyTableModel.GetCell | om/signaling_list/recursive_property_table_model.py:120-121 | fails exactly when the cell cannot be located |
| RecursivePropertyTableModels.RecursivePropertyTableModel.CellExists | om/signaling_list/recursive_property_table_model.py:104-115 | fails exactly when the cell cannot be located |
| RecursivePropertyTableModels.RecursivePropertyTableModel.NodesAreElements | om/signaling_list/recursive_property_table_model.py:321-323 | the element nodes are exactly the list's elements |
| RecursivePropertyTableModels.RecursivePropertyTableModel.CellResolves | om/signaling_list/recursive_property_table_model.py:120-135 | a cell in range shows the value its path reaches on the row's element (None if none), and exists exactly when it reaches one |
| RecursivePropertyTableModels.RecursivePropertyTableModel.SetCell | om/signaling_list/recursive_property_table_model.py:137-145 | writes exactly when the path reaches a value, and writes x to the last component of the object the rest reaches; location errors change nothing |
| RecursivePropertyTableModels.RecursivePropertyTableModel.WriteResolves | om/signaling_list/recursive_property_table_model.py:137-138 | the write set_cell makes for a cell in range |
| RecursivePropertyTableModels.RecursivePropertyTableModel.SetList | om/signaling_list/recursive_property_table_model.py:167-190 | after the setter the nodes are exactly the new list's elements; the same list changes nothing |
| RecursivePropertyTableModels.RecursivePropertyTableModel.OnSignal | om/signaling_list/recursive_property_table_model.py:206-223 | after a post-change signal the nodes follow the change; a replacement marks min..max in every column; a pre-change signal changes nothing; a replacement or a pre-removal signal with no indexes raises ValueError |
| RecursivePropertyTableModels.RecursivePropertyTableModel.RemoveRows | om/signaling_list/recursive_property_table_model.py:156-161 | deletes the slice and answers True; the list's new signals are exactly those of the deletion, and the nodes follow the list |
| ItemViewShortcuts.DeleteSelection | om/item_view_shortcuts.py:82-105 | nothing without a model or selection model; otherwise the calls for the runs of the valid rows of the selection sorted by row |
| ItemViewShortcuts.GroupRuns | om/item_view_shortcuts.py:89-103 | the loop records exactly the runs of the valid rows in order, the open run last |
| ItemViewShortcuts.RemoveInReverse | om/item_view_shortcuts.py:104-105 | one removeRows(start, end - start + 1) per run, the last run first |
| ItemViewShortcuts.RunsOfShape | om/item_view_shortcuts.py:89-103 | for ascending rows the runs are non-empty, at least one row apart, start and end at rows, and hold exactly the rows |
| ItemViewShortcuts.SelectionRuns | om/item_view_shortcuts.py:87-103 | with no row selected twice, the selection's runs have that shape and hold exactly the valid selected rows |
| ItemViewShortcuts.SortedRowsAscend | om/item_view_shortcuts.py:87 | the valid rows of a selection sorted by row, no row twice, ascend strictly |
| ItemViewShortcuts.RunsDeleted | om/item_view_shortcuts.py:104-105 | removing separated runs, last first, deletes exactly the rows they hold |
| ItemViewShortcuts.SelectionDeleted | om/item_view_shortcuts.py:82-105 | with no row twice and all rows in range, the handler's calls delete exactly the selected rows |
| ItemViewShortcuts.ValidRowsMembers | om/item_view_shortcuts.py:92-94 | a row is collected exactly when a valid index with that row is selected |

## Left out

- The MPF and CNC-program classes, the GUI, the progress dialog and the NX output adjuster are not part of this model; only the translators named above are.
- Floating point in the TRAORI pass: float(), str() of a float, the normalisation of j and the A/C angle computation are abstract operations (`FloatOps`). Their own errors (a domain error of acos/asin, division by zero when i = j = 0) are not modelled, beyond float() refusing a text. The comparison k < .99 is on reals. The local j_n, bound only by a rewrite with k < .99, is modelled as modal state, with the UnboundLocalError when it was never bound.
- ConfineTraoriHemisphere.LabelRemoved, ConfineTraoriHemisphere.Unlabelled, ConfineTraoriHemisphere.DropDigits, ConfineTraoriHemisphere.DropDigitsPrefix: `\d` is taken as the ASCII digits 0-9. Python's re also matches every other Unicode decimal digit, so a label such as `N٣` is stripped by the source but kept by the model.
- ConfineTraoriHemisphere.ComponentName: component words are classified after ASCII upper-casing only. Python's str.upper() maps every cased character, so a word such as `ẙ5`, which the source upper-cases to a Y component (and then fails to parse), is a non-component in the model.
- File I/O: files are their content as a string. Python's universal-newline translation of text mode is not modelled (reads are raw). The lines written are a sequence, each followed by a line feed in the file.
- Qt signals: begin/end insert/remove rows, begin/end reset model, flags, data roles, headerData, drag-and-drop flags and the GUI itself are not modelled. Only dataChanged emissions, connections and attribute writes are logged. The pre-removal slot's min() and max() of its indexes are modelled, as the ValueError it raises for no indexes; the beginRemoveRows call they feed is not.
- list_table_model.py and drag_drop_model_behavior.py are not part of this model.
- The strided slice-assignment mismatch raises NameError in the source, because its error message names an undefined variable, rather than the ValueError intended. The model reports NameError and changes nothing.
- SignalingList.Sort: the key is an integer-valued function; key=None (natural ordering of arbitrary objects) is not modelled.
- SignalingList's index, `__contains__`, `__len__`, `__getitem__` and `__iter__` delegate to the Python list and are the sequence operations themselves. The name property, repr and hash are not modelled.
- Property: eq (numpy's array equality) is Dafny equality. The post-set callback's own effects are not modelled; its call is logged. The pre-set callback's answer counts as a veto only when it is False.
- Properties.Bearer.Instantiate: the connection of a bearer's `changed` signal is not modelled. Neither is `__get__` on the class (obj None).
- PropertyTableModels.PropertyTableModel.New: the per-name changed-slot lambdas are represented by the per-element connection log.
- ListModel: the attribute write set_row performs is logged rather than performed. The ListModel.headerData bug (it reads a `property_names` it does not have) is not modelled.
- RecursivePropertyTableModel:
  - trees are values (no parent links, no in-place node update);
  - node signal connections, the re-attach on an intermediate's `_changed` signal, and on_seen_value_changed's emissions are not modelled;
  - the leaf and path asserts are not modelled;
  - dot_graph, `__str__` and the GV viewer are not modelled;
  - names other than strings are not modelled;
  - attribute lookup is a fixed getattr function.
- ItemViewShortcuts:
  - the class decorator and QAction wiring are not modelled;
  - hasModel and hasSelectionModel are parameters;
  - removeRows on the model is taken to be the slice deletion the three models perform.
- SignalingLists.SignalingList.SetIndex: implements the intended behaviour of the first Findings row (IndexError below -len). The code as written, which wraps twice, is SignalingLists.SetIndexAsWritten.
- SignalingLists.SignalingList.DelIndex: implements the intended behaviour of the second Findings row (the position deleted is reported). The code as written, which reports the raw index, is SignalingLists.DelIndexAsWritten.
- UniformSignalingLists.UniformSignalingList.SetIndex: converts and then uses the corrected SignalingLists.SignalingList.SetIndex, so it too raises IndexError below -len instead of overwriting as the inherited code does.
- ListModels.ListModel.SetRow: without a property name it uses the corrected SignalingLists.SignalingList.SetIndex, so a row below -len raises IndexError instead of overwriting as the code as written does.
- TableModels.InstanceCounter.Detach, RecursivePropertyTableModels.InstanceTree.Detach: detaching an element that is not attached (a KeyError in the source) is excluded by a requires; the slots only ever detach the elements the list reports as departed.
- UniformSignalingLists.UniformSignalingList: modelled by composition over a SignalingList rather than by subclassing.

## Findings

| source | as written | input that shows it | evidently intended | confidence | as-written member | corrected member |
|---|---|---|---|---|---|---|
| om/signaling_list/signaling_list.py:171-174 | a negative index is made relative to the end by hand and then used as a Python index, which wraps a second time | s = [7, 8]; s[-3] = 9 writes 9 over s[1] and reports index -1 | IndexError for an index out of range, and the replaced signal reporting the position written | not executed | SignalingLists.SetIndexWrapsTwice | SignalingLists.SetIndexReplays |
| om/signaling_list/signaling_list.py:206-211 | del s[i] reports i itself in removing/removed | s = [7, 8]; del s[-1] reports index -1 | the removal reports the position deleted, 1 | not executed | SignalingLists.DelIndexReportsRawIndex | SignalingLists.DelIndexReplays |
