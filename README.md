# csv-editor: editable JSON tree, text replacer and byte splitting, in Dafny

This project models three scripts of the csv-editor repository and proves
properties of the models.

- **The editable JSON tree** (`scripts/editable-tree.js`). A JSON value is shown
  as nested rows.
  - Each row has a key label (a member name or an array index; the root has none),
    a level, an index into the seven-entry type table, the text of its value and,
    for an object or an array, its child rows.
  - One floating editing card serves four edits. Edit replaces or renames a row.
    Insert puts a new row before a labelled row. Add appends a row to a container.
    Delete removes a row.
  - `from` builds rows from a value and `toValue` reads a value back from rows.
  - Module `TreeModel` holds the rows, `from` and `toValue`, and the path
    operations.
  - Module `EditSession` holds the card's draft, the commit of each edit as a
    function that either succeeds or returns the error the page would alert, and
    what each commit does to the value the tree reads back as.
  - Module `TreePage` holds class `Editor`: the tree plus the card, with one
    method per click handler, each doing what the handler's code does. It keeps
    the invariant that the tree is well formed and that an open card suits it.
- **The text replacer** (`scripts/text-replacer.js`), module `TextReplacer`.
  - A list of literal replace-all steps. Each step may wrap its pattern and its
    replacement in a shared prefix and suffix.
  - The options are loaded from a JSON file and saved back to one; on loading,
    each item is normalised and items that do nothing are dropped.
  - A gutter of line numbers is built for the text.
  - Class `Replacer` holds the page's state.
- **Byte splitting** (`rsg-data-viewer/scripts/utility.js`), module `ByteSplit`.
  - Fixed-length slices of a buffer, and the maximal runs of bytes between
    occurrences of a split code.
  - Every slice is a `subarray` view, modelled as a clamped index window.

Supporting modules:
- `JsonValue`: the seven JSON value kinds, with object members in insertion order.
- `JsonText`: `JSON.stringify` and `JSON.parse` on that grammar. Its main result is
  the round trip `Parse(Stringify(v)) == Some(v)`.
- `Decimal`: decimal digit text.
- `Wrappers`: `Option` and `Result`.

Two points about the structure edits, where the model follows the code:
- No edit checks that an object's member names stay distinct. Inserting or
  adding a name that is already there gives two rows with that name, and the
  value read back keeps the later one (`EditSession.InsertIntoObject`,
  `EditSession.AddToObject`).
- Array labels are renumbered by `resetIndexes` after a row is inserted
  (editable-tree.js:382) and are continued by the Add card's proposed index
  (`EditSession.AddKeepsLabels`). The Delete handler also calls `resetIndexes`
  (editable-tree.js:459), but on the removed row's parent, which is gone by
  then, so the labels stay stale; see "Findings". `TreePage.Editor.Delete`
  models the handler as written; `EditSession.DeleteRowRelabelled` is the
  corrected Delete.

The browser, the file dialogs and the clock are not modelled. A file's name and
text are parameters of the methods that read them.

## Model

| member | source | states |
|---|---|---|
| Decimal.NatTextValue | scripts/editable-tree.js:47 | The digits written for a count read back as that count. |
| Decimal.NatTextInjective | scripts/editable-tree.js:57 | Two different counts are never written as the same digits. |
| Decimal.NatTextHasNoNewline | scripts/text-replacer.js:30 | A line number's digits contain no line break. |
| JsonValue.AssignThenLookup | scripts/editable-tree.js:558 | After `value[key] = x`, reading `key` gives `x` and every other key reads as before. |
| JsonValue.AssignNames | scripts/editable-tree.js:558 | Assigning a new key appends it after the others. An existing key keeps its place. |
| JsonValue.AssignDistinct | scripts/editable-tree.js:558 | Assignment keeps the keys of an object distinct. |
| JsonValue.CollapseMembers | scripts/editable-tree.js:555-560 | An object built member by member has distinct keys, and each member comes from the input. |
| JsonValue.CollapseDistinct | scripts/editable-tree.js:555-560 | With distinct names the built object is the members in order. |
| JsonValue.CollapseLastWins | scripts/editable-tree.js:555-560 | For a repeated name the last value given wins. |
| JsonValue.LookupFinds | scripts/text-replacer.js:73-79 | A property read finds a value exactly when the object has that name, and the value is that member's. |
| JsonValue.LookupDistinct | scripts/text-replacer.js:73-79 | In an object with distinct names, reading a member's name gives that member's value. |
| JsonText.ParseStringify | scripts/editable-tree.js:569 | `JSON.parse` of `JSON.stringify`'s text gives every well-formed value back. |
| JsonText.ReadStringify | scripts/editable-tree.js:513 | The written text of a value, followed by anything that can end a value, reads back as that value with the rest left over. |
| JsonText.ParseWellFormed | scripts/editable-tree.js:321 | What `JSON.parse` returns is well formed: object names are distinct at every depth. |
| TreeModel.TypeIndex | scripts/editable-tree.js:17-39 | Every value gets a row of the type table. |
| TreeModel.TypeTable | scripts/editable-tree.js:3-16 | Each type's default text parses to a value of that type; exactly object and array are collections; exactly string and number can be typed in. |
| TreeModel.TypeIndexKinds | scripts/editable-tree.js:17-39 | Index 0 is exactly the objects, index 1 exactly the arrays, and a scalar has the type of its type's default. |
| TreeModel.ObjectCountRead | scripts/editable-tree.js:40-49 | The members caption of an object reads back as its member count. |
| TreeModel.ArrayCountRead | scripts/editable-tree.js:50-59 | The elements caption of an array reads back as its element count. |
| TreeModel.SummaryInjective | scripts/editable-tree.js:40-59 | Containers of one type with different lengths get different captions. |
| TreeModel.KeyTextRead | scripts/editable-tree.js:538-547 | A row's label text, without its ": ", parses back to its key. |
| TreeModel.From | scripts/editable-tree.js:479-535 | The row built for a value has the given key and level and the value's type index. |
| TreeModel.FromMembers | scripts/editable-tree.js:494-499 | An object gets one child row per member. |
| TreeModel.FromElements | scripts/editable-tree.js:500-504 | An array gets one child row per element. |
| TreeModel.ToValue | scripts/editable-tree.js:536-572 | Reading a row gives its key and the value the rows describe, or a failure where a scalar text does not parse. |
| TreeModel.ReadMembers | scripts/editable-tree.js:554-560 | The object loop assigns the children's values under their names in order. |
| TreeModel.ReadElements | scripts/editable-tree.js:561-567 | The array loop places the children's values in order. |
| TreeModel.ElementsOf | scripts/editable-tree.js:561-567 | A successful array read has as many elements as there are children. |
| TreeModel.ValueFrom | scripts/editable-tree.js:479-572 | `toValue(from(v))` is `v` for every well-formed value, at any key and level. |
| TreeModel.RoundTrip | scripts/editable-tree.js:479-572 | The same round trip, with the reading loops: the key and the value come back. |
| TreeModel.MembersArePairs | scripts/editable-tree.js:554-560 | An object read is its children's name and value pairs, built with last-wins assignment. |
| TreeModel.WfFrom | scripts/editable-tree.js:479-535 | Every tree `from` builds is well formed. Levels go down by one per depth, object children carry names, array children carry indexes, and scalar texts parse to their type. |
| TreeModel.WfValue | scripts/editable-tree.js:536-572 | A well-formed row always reads back, so `toValue` never throws, and its value has the row's type. |
| TreeModel.Put | scripts/editable-tree.js:320-322 | Replacing a row below the root keeps the root's key, level, type and number of children. |
| TreeModel.PutAt | scripts/editable-tree.js:320-322 | After `replaceChild` at a path, that path leads to the new row. |
| TreeModel.PutWf | scripts/editable-tree.js:320-332 | Replacing a row by a well-formed row of the same level and kind of label keeps the tree well formed. |
| TreeModel.PutWfRoot | scripts/editable-tree.js:320-332 | The same replacement keeps the whole page's tree well formed. |
| TreeModel.ResetIndexes | scripts/editable-tree.js:264-278 | The relabelling loop gives exactly `Relabel(parent)`. |
| TreeModel.RelabelValue | scripts/editable-tree.js:264-278 | Relabelling leaves the value unchanged and labels an array's children 0, 1, 2, … in order. |
| TreeModel.RelabelWf | scripts/editable-tree.js:264-278 | Relabelling keeps a row well formed. |
| TreeModel.InsertAt | scripts/editable-tree.js:372-380 | `insertBefore` puts the new row at position i; earlier children stay and later ones move up one place. |
| TreeModel.RemoveAt | scripts/editable-tree.js:458 | `remove` drops position i; earlier children stay and later ones move down one place. |
| TreeModel.InsertElements | scripts/editable-tree.js:372-380 | An array with a row inserted at i reads as its elements with the new value spliced in at i. |
| TreeModel.AppendElements | scripts/editable-tree.js:430-438 | An array with a row appended reads as its elements followed by the new value. |
| TreeModel.RemoveElements | scripts/editable-tree.js:458 | An array with row i removed reads as its elements without element i. |
| TreeModel.InsertPairs | scripts/editable-tree.js:372-380 | An object with a row inserted at i reads as the pairs with the new pair at i, built last-wins. |
| TreeModel.RemovePairs | scripts/editable-tree.js:458 | An object with row i removed reads as the pairs without pair i, built last-wins. |
| TreeModel.AppendMembers | scripts/editable-tree.js:430-438 | An object with a row appended reads as the assignment of the new value under the row's name, and that name then reads as the new value. |
| EditSession.AtWf | scripts/editable-tree.js:488-506 | Every row of a well-formed tree is well formed, and its level is its depth. |
| EditSession.ChildFits | scripts/editable-tree.js:491-504 | Every non-root row of a well-formed page has a container parent, a label of its parent's kind, and a level equal to its depth. |
| EditSession.ShowDraft | scripts/editable-tree.js:217-256 | A shown card has the given type and nothing changed yet. The name is enabled exactly when given and parsing as a string. The value is editable exactly for strings and numbers. |
| EditSession.SelectType | scripts/editable-tree.js:173-178 | Choosing another type loads that type's default, sets whether the value can be typed in, and marks the value changed. The name is untouched. |
| EditSession.EditName | scripts/editable-tree.js:144-150 | Only an enabled name input takes typing. |
| EditSession.EditValue | scripts/editable-tree.js:158-160 | Typing into an enabled value sets it and marks it changed when it differs. A disabled value stays. |
| EditSession.ParseValueText | scripts/editable-tree.js:321 | Reading the value succeeds exactly when the text parses; the result is well formed; a failure is a syntax error. |
| EditSession.ParseName | scripts/editable-tree.js:257-263 | `parseName` succeeds exactly when the text parses to a string. It fails with a syntax error exactly when the text is not JSON at all. |
| EditSession.DraftKey | scripts/editable-tree.js:326-330 | An enabled name must parse as a string; a disabled one is read as written, so a number becomes an index. |
| EditSession.OpenEditOk | scripts/editable-tree.js:286-314 | The Edit card opened on any row suits that row. |
| EditSession.OpenInsertOk | scripts/editable-tree.js:358-369 | The Insert card opened on any labelled row suits the row's parent. |
| EditSession.OpenAddOk | scripts/editable-tree.js:399-427 | The Add card opened on any container suits that container. |
| EditSession.AddDraftFits | scripts/editable-tree.js:403-424 | The Add card offers an enabled name for an object and a disabled index for an array. |
| EditSession.DraftStepsOk | scripts/editable-tree.js:158-178 | Choosing a type, or typing a name or a value, keeps an open card suited to the tree. |
| EditSession.DraftKeyFits | scripts/editable-tree.js:326-330 | A card suited to a container yields a label of that container's kind. |
| EditSession.EditWf | scripts/editable-tree.js:315-345 | A successful Edit keeps the tree well formed. |
| EditSession.InsertWf | scripts/editable-tree.js:370-386 | A successful Insert keeps the tree well formed. |
| EditSession.AddWf | scripts/editable-tree.js:428-443 | A successful Add keeps the tree well formed. |
| EditSession.CommitWf | scripts/editable-tree.js:312-447 | Any successful OK on a suited card keeps the tree well formed. |
| EditSession.DeleteWf | scripts/editable-tree.js:456-460 | Removing a row, as written, leaves a well-formed tree. |
| EditSession.CommitRejectsValue | scripts/editable-tree.js:321 | Insert, Add, or an Edit with a changed value fails with a syntax error when the value text does not parse. |
| EditSession.CommitNeedsStringName | scripts/editable-tree.js:329 | With an enabled name and a parsable value, the OK succeeds exactly when the name parses as a string. |
| EditSession.RootEditIgnoresName | scripts/editable-tree.js:319-322 | Editing the root does not depend on the name input. |
| EditSession.EditReplaces | scripts/editable-tree.js:318-333 | A changed Edit replaces the row by the rows for the parsed value, at the same level, under the name's label, or unlabelled at the root. |
| EditSession.EditRenames | scripts/editable-tree.js:334-340 | An unchanged Edit only renames a named row and keeps its value. Otherwise the tree stays as it was. |
| EditSession.InsertParts | scripts/editable-tree.js:372-382 | A successful Insert puts the row for the parsed value before the anchor, at the anchor's level, and relabels the parent. |
| EditSession.InsertIntoArray | scripts/editable-tree.js:372-382 | Inserting into an array splices the value in before the anchor and relabels the children 0 … n. |
| EditSession.InsertIntoObject | scripts/editable-tree.js:372-382 | Inserting into an object reads as the members with the new name and value at the anchor's place, built last-wins. |
| EditSession.AddParts | scripts/editable-tree.js:430-438 | A successful Add appends the row for the parsed value, one level below the container. |
| EditSession.AddDraftProposal | scripts/editable-tree.js:403-424 | The Add card proposes, after an indexed last child, that index plus one as a disabled name that reads back as that index, and the last child's type; after a named last child an enabled empty name and its type; in an empty object an enabled empty name and in an empty array the disabled index 0, both typed string. |
| EditSession.ProposedIndex | scripts/editable-tree.js:403-424 | In an array labelled 0 … n − 1, the name the Add card proposes, which choosing a type and typing leave alone, reads as the label n. |
| EditSession.LabelledAppend | scripts/editable-tree.js:430-438 | Rows labelled 0 … n − 1 with a row labelled n appended are labelled 0 … n. |
| EditSession.AddKeepsLabels | scripts/editable-tree.js:425-438 | Committing an Add card whose name reads as the label n to an array labelled 0 … n − 1 gives children labelled 0 … n. |
| EditSession.AddToArray | scripts/editable-tree.js:430-438 | Adding to an array appends the value. The old children keep their labels. |
| EditSession.AddToObject | scripts/editable-tree.js:430-438 | Adding to an object assigns the value under the name, and the name then reads as the new value. |
| EditSession.DeleteFromArray | scripts/editable-tree.js:456-460 | Delete, as written, drops the element from the array. The later siblings keep their old labels. |
| EditSession.DeleteFromObject | scripts/editable-tree.js:456-460 | Delete drops the member from the object's pairs. |
| EditSession.InsertExampleTree | scripts/editable-tree.js:479-535 | `from([1, 2, 3])` labels its second row with index 1 and type number. |
| EditSession.InsertExampleDraft | scripts/editable-tree.js:361-369 | The Insert card on index 1, with value 9 typed in, yields index 1 and the number 9. |
| EditSession.InsertExample | scripts/editable-tree.js:370-386 | Inserting 9 before index 1 of `[1, 2, 3]` gives `[1, 9, 2, 3]`, labelled 0 to 3. |
| EditSession.AddToEmptyArrayExample | scripts/editable-tree.js:403-411 | Add on an empty array offers the disabled index 0 and the string type, and appends `""` labelled 0. |
| EditSession.DeleteLeavesStaleLabel | scripts/editable-tree.js:456-460 | As written, deleting the first of two array elements leaves the survivor labelled 1. |
| EditSession.DeleteRelabels | scripts/editable-tree.js:456-460 | Corrected Delete: it reads as the same value as the written one, and an array parent's children are labelled 0 … n − 2. |
| EditSession.DeleteRelabelledWf | scripts/editable-tree.js:456-460 | The corrected Delete keeps the tree well formed. |
| TreePage.Editor.constructor | scripts/editable-tree.js:479-535 | A page showing `v`: an unlabelled root at level 0, no card open, and the tree reads back as `v`. |
| TreePage.Editor.OpenEdit | scripts/editable-tree.js:286-349 | The Edit icon opens the card for that row. The tree stays as it was. |
| TreePage.Editor.OpenInsert | scripts/editable-tree.js:358-390 | The Insert icon opens the card for a new row before that row. |
| TreePage.Editor.OpenAdd | scripts/editable-tree.js:399-447 | The Add icon opens the card for a new last child of that container. |
| TreePage.Editor.ChooseType | scripts/editable-tree.js:173-178 | Choosing a type updates the draft and keeps the page valid. |
| TreePage.Editor.TypeName | scripts/editable-tree.js:144-150 | Typing a name updates the draft and keeps the page valid. |
| TreePage.Editor.TypeValue | scripts/editable-tree.js:158-160 | Typing a value updates the draft and keeps the page valid. |
| TreePage.Editor.Confirm | scripts/editable-tree.js:315-443 | OK either commits and closes the card, or reports the error and changes nothing. The page stays valid either way. |
| TreePage.Editor.Cancel | scripts/editable-tree.js:573-575 | A click outside the card, or on its close button, closes it. The tree stays. |
| TreePage.Editor.Delete | scripts/editable-tree.js:456-460 | The Delete icon removes the row as written, leaving its siblings' labels as they were, and, as the click reaches the page, closes the card. The tree stays well formed. |
| TextReplacer.Split | scripts/text-replacer.js:25 | `split` always yields at least one piece. |
| TextReplacer.ReplaceAllIsSplitJoin | scripts/text-replacer.js:136 | `replaceAll` with a literal pattern is splitting on the pattern and joining with the replacement. |
| TextReplacer.ReplaceAllAbsent | scripts/text-replacer.js:136 | A pattern that does not occur leaves the text as it was. |
| TextReplacer.ReplaceAllSelf | scripts/text-replacer.js:136 | Replacing a pattern by itself leaves the text as it was. |
| TextReplacer.LineCount | scripts/text-replacer.js:25 | Splitting on line breaks gives one more piece than there are line breaks. |
| TextReplacer.NewlinesConcat | scripts/text-replacer.js:30 | Line breaks of joined texts add up. |
| TextReplacer.LineNumbers | scripts/text-replacer.js:24-33 | The loop writes the numbers 1 … count, each followed by a line break. |
| TextReplacer.GutterLines | scripts/text-replacer.js:24-33 | The gutter for count lines has exactly count line breaks. |
| TextReplacer.LineNumbersMatchText | scripts/text-replacer.js:24-33 | The gutter has one line break more than the text, so there is one number per line of the text. |
| TextReplacer.GetDefaultBoolean | scripts/text-replacer.js:34-40 | A boolean stays as it is; anything else, absent included, reads as true. |
| TextReplacer.GetDefaultString | scripts/text-replacer.js:41-47 | A string stays as it is; anything else, absent included, reads as "". |
| TextReplacer.CreateListItem | scripts/text-replacer.js:48-68 | Corrected `createListItem`: anything that is not an object, null included, gives the default item. |
| TextReplacer.NullItemThrows | scripts/text-replacer.js:48-68 | As written, `createListItem(null)` throws. The corrected one gives the default item. |
| TextReplacer.CreateListItemAgrees | scripts/text-replacer.js:48-68 | Apart from null, the written and the corrected `createListItem` agree. |
| TextReplacer.ItemRoundTrip | scripts/text-replacer.js:48-68 | Normalising an item's saved JSON gives the item back, and that JSON is well formed. |
| TextReplacer.KeepIffNotDefault | scripts/text-replacer.js:89-94 | The filter keeps an item exactly when it differs from the default item. |
| TextReplacer.KeepItems | scripts/text-replacer.js:89-94 | Filtering keeps exactly the list's items that pass, and no more of them than the list held. |
| TextReplacer.KeepItemsIdempotent | scripts/text-replacer.js:104-109 | Filtering again at save time changes nothing. |
| TextReplacer.KeepItemsAllKept | scripts/text-replacer.js:104-109 | A list whose items all pass is kept whole. |
| TextReplacer.KeepNone | scripts/text-replacer.js:104-109 | A list none of whose items passes the filter saves no items. |
| TextReplacer.ResetList | scripts/text-replacer.js:121 | A reset gives eight default items. |
| TextReplacer.ResetListSavesNothing | scripts/text-replacer.js:102-122 | Saving a reset list writes no items. |
| TextReplacer.ReadOptions | scripts/text-replacer.js:73-96 | Loading as intended (null items give the default item): text that does not parse is a syntax error and null is a type error. Otherwise every loaded item passes the filter. |
| TextReplacer.MapItemsAsWritten | scripts/text-replacer.js:85-88 | `list.map(createListItem)` as written throws exactly when the list holds null; otherwise it gives the intended items. |
| TextReplacer.LoadListAsWritten | scripts/text-replacer.js:85-96 | The list assignment as written throws exactly when the list holds a null item; otherwise it assigns the intended list. |
| TextReplacer.LoadAsWrittenVsRead | scripts/text-replacer.js:69-101 | Without a null list item, loading is `ReadOptions`: on success the options and name are replaced, on failure the error is alerted and nothing changes. With one, the name and the four wraps are replaced, the list stays, and a type error is alerted. |
| TextReplacer.NullItemFileLoads | scripts/text-replacer.js:69-101 | A file reading as `{"patternPrefix":"a","list":[null]}` loads as written with prefix "a", the other wraps empty, the old list and a type error; as intended it loads with an empty list. |
| TextReplacer.NullItemLoadAsWritten | scripts/text-replacer.js:69-101 | The same for the text `JSON.stringify` writes for that value. |
| TextReplacer.OptionsJsonWellFormed | scripts/text-replacer.js:103-114 | The saved options are a well-formed JSON value. |
| TextReplacer.LoadSavedList | scripts/text-replacer.js:85-96 | Loading the items saved for a filtered list gives that list back. |
| TextReplacer.SaveThenLoad | scripts/text-replacer.js:69-115 | Loading a saved file restores the four wrap texts, and the list with its default items dropped. |
| TextReplacer.PatternText | scripts/text-replacer.js:137-141 | With wrapping on, the searched text is the prefix, then the pattern, then the suffix, so the pattern occurs right after the prefix; with wrapping off it is the pattern. |
| TextReplacer.Active | scripts/text-replacer.js:133-134 | Only items with a non-empty pattern take part. |
| TextReplacer.NoneActive | scripts/text-replacer.js:133-134 | A list of empty patterns has no step. |
| TextReplacer.ActiveConcat | scripts/text-replacer.js:133-134 | Filtering a joined list is joining the filtered parts. |
| TextReplacer.FoldConcat | scripts/text-replacer.js:135-149 | Reducing over joined lists is reducing over the second list after the first. |
| TextReplacer.ReplacedInOrder | scripts/text-replacer.js:133-149 | Replace applies the earlier part of the list before the later part. |
| TextReplacer.ReplacedSingle | scripts/text-replacer.js:133-149 | With one item, replace is one `replaceAll` of the wrapped pattern by the wrapped replacement. |
| TextReplacer.ReplacedNoPatterns | scripts/text-replacer.js:133-149 | With no non-empty pattern, replace leaves the text as it was. |
| TextReplacer.FoldSkipsAbsent | scripts/text-replacer.js:136-147 | An item whose searched text does not occur has no effect. |
| TextReplacer.Replacer.constructor | scripts/text-replacer.js:151-167 | The page starts with no text, no history, empty wraps, eight default items, and the options name "options.json". |
| TextReplacer.Replacer.Replace | scripts/text-replacer.js:123-150 | The old text goes on the history and the text becomes the replaced text. The options stay. |
| TextReplacer.Replacer.ResetOptions | scripts/text-replacer.js:116-122 | A reset restores the empty wraps and eight default items. The text and history stay. |
| TextReplacer.Replacer.LoadOptions | scripts/text-replacer.js:69-101 | Loading, as written, assigns step by step what `LoadAsWritten` gives: the options, the options name and the alerted error. The text and history stay. |
| ByteSplit.Clamp | rsg-data-viewer/scripts/utility.js:7 | A `subarray` position ends up inside the buffer. An in-range position is kept and one past the end becomes the end. |
| ByteSplit.Subarray | rsg-data-viewer/scripts/utility.js:7 | A view lies inside the buffer, and in-range bounds give exactly that window. |
| ByteSplit.GetFixedLengthBuffers | rsg-data-viewer/scripts/utility.js:2-12 | `new Array(number)` fails exactly for a negative number or one above 2^32 − 1. Otherwise the loop yields `FixedSlices`. |
| ByteSplit.FixedSlices | rsg-data-viewer/scripts/utility.js:2-12 | There are exactly `number` slices. |
| ByteSplit.SpanIsProduct | rsg-data-viewer/scripts/utility.js:6-8 | After i steps the offset has advanced by i × length. |
| ByteSplit.FixedSliceAt | rsg-data-viewer/scripts/utility.js:5-10 | Slice i is `subarray(offset + i × length, offset + i × length + length)`. |
| ByteSplit.FixedAdjacent | rsg-data-viewer/scripts/utility.js:5-10 | With a non-negative offset and length, each slice begins where the one before it ends. |
| ByteSplit.FixedInside | rsg-data-viewer/scripts/utility.js:2-12 | When all slices fit, slice i is that exact window, and together they are the stretch from offset of number × length bytes. |
| ByteSplit.FixedConcat | rsg-data-viewer/scripts/utility.js:2-12 | When all slices fit, their bytes together are the stretch from offset of number × length bytes. |
| ByteSplit.RunEnd | rsg-data-viewer/scripts/utility.js:17-30 | A run ends at the first split code or at the end. |
| ByteSplit.GetVariableLengthBuffers | rsg-data-viewer/scripts/utility.js:13-35 | The two-state scan yields exactly the views of `Runs`. |
| ByteSplit.RunsShape | rsg-data-viewer/scripts/utility.js:13-35 | The runs are maximal. Each is non-empty, inside the range and free of split codes, begins at the start or just after a split code, and ends at the end or at a split code. They come left to right without overlap. |
| ByteSplit.RunsCover | rsg-data-viewer/scripts/utility.js:13-35 | Every position in the range that is not a split code lies in some run. |
| ByteSplit.RunsConcat | rsg-data-viewer/scripts/utility.js:13-35 | For a range inside the buffer, the buffers' bytes together are the range's bytes with the split codes removed. |
| ByteSplit.RunsClean | rsg-data-viewer/scripts/utility.js:13-35 | For a range inside the buffer, every buffer is non-empty and holds no split code. |

## Left out

- Rendering of the tree page is not modelled: DOM nodes, icons, margins, titles,
  dragging the card with the mouse, `window.alert`, and where the card is placed.
  A failed OK returns its error instead of alerting it.
- The Enter key (editable-tree.js:576-580) is not a separate member. It clicks OK,
  so `TreePage.Editor.Confirm` covers it.
- Row visibility is not modelled. A container row may be expanded or collapsed,
  and only visible rows can be clicked. The model lets any row be clicked.
- Caret toggling and captions are partly left out.
  - The caret click that expands or collapses a container is not modelled.
  - A caption is fixed when the row is built. The page refreshes a caption only on
    a toggle, so after an Add or a Delete it goes stale; the model keeps the
    caption built by `from`.
- `create` (editable-tree.js:581-600), the promise for a new document, is not
  modelled. It is `from` of the parsed value, and its card is the Edit card's flow.
- Numbers are mathematical integers. JSON fractions, exponents and floating-point
  rounding are not modelled.
- Text is characters. `JSON.parse` inputs are what the model's own reader accepts:
  - the full grammar of RFC 8259, restricted to integer numbers;
  - string escapes including `\u`; a high and a low surrogate escape in a row
    read as the one character they encode.
- EditSession.ParseValueText: a `\u` escape of a lone surrogate is a syntax
  error in the model, while `JSON.parse` accepts it. Model characters are Unicode
  scalar values, so a lone surrogate code unit cannot be stored.
- JsonValue.AssignThenLookup: does not hold for the name `__proto__` in
  JavaScript. There `value["__proto__"] = x` on a plain object sets its
  prototype, or does nothing, and creates no own member; the model treats that
  name like any other.
- TreeModel.ValueFrom: holds on the page only for values with no member named
  `__proto__` at any depth. `toValue` assigns the members one by one
  (editable-tree.js:558), which drops such a member, so `toValue(from(v))` for
  `{"__proto__":1}` is `{}`. `JSON.parse` does keep the member, as the model
  does.
- TreeModel.RoundTrip: same restriction as `TreeModel.ValueFrom`.
- TreeModel.MembersArePairs: same restriction for a row named `__proto__`.
- TreeModel.AppendMembers: same restriction for a new row named `__proto__`.
- EditSession.AddToObject: same restriction for a new name `__proto__`.
- EditSession.InsertIntoObject: same restriction for a new name `__proto__`.
- Object member order is insertion order. JavaScript puts integer-like keys first
  when it enumerates an object; that reordering is not modelled.
- In the text replacer the pattern is always literal. `$` patterns in the
  replacement string of `String.prototype.replaceAll` are not expanded.
- Files and file I/O are outside the model.
  - `fileIO.open` and `fileIO.download` are not modelled. The file's name and
    text are parameters of `LoadOptions`.
  - `openFile` and `saveFile` only move a whole text between the page and a file.
  - The four-space indentation of the saved options is left out: indentation
    does not change what the file parses to.
- On the Edit card of the root, the card shows no name input but keeps the
  disabled flag of the card before it. The model stores the name as given;
  `EditSession.RootEditIgnoresName` shows the root's commit does not read it.
- EditSession.DraftKey: a disabled name that parses to something other than a
  number or a string fails with `UnsupportedKey`. The page would then use that
  value as a label without failing. No card the page opens reaches this case.
- Some page states are excluded by the `Valid` invariant instead of being
  modelled. For example, `showEditingCard` on an unknown type index would throw.
  In a well-formed tree these cases cannot arise, and the methods require `Valid()`.
- `subarray` views share memory with the buffer; the model keeps only their index
  windows. `ByteSplit.Bytes` gives the bytes a window shows.
- `new Array(number)` with a non-integer number is left out: the parameters are
  integers.
- ByteSplit.FixedAdjacent, ByteSplit.FixedInside and ByteSplit.FixedConcat require
  a non-negative offset and length. A negative `subarray` position counts from the
  buffer's end, so without that requirement there is no adjacency to state.
  `ByteSplit.FixedSliceAt` and `ByteSplit.GetFixedLengthBuffers` hold for every
  offset and length.
- ByteSplit.RunsConcat and ByteSplit.RunsClean require a range inside the buffer.
  Outside it `buffer[offset]` is `undefined`, never the split code, so the loop
  starts a run there. With `offset == |buffer|` and `end == |buffer| + 1`,
  `subarray` clamps that run to an empty view; a run from a negative position
  counts from the buffer's end. `ByteSplit.GetVariableLengthBuffers` and
  `ByteSplit.IsSplit` reproduce both cases.

## Findings

| source | as written | input that shows it | evidently intended | confidence | as-written member | corrected member |
|---|---|---|---|---|---|---|
| scripts/editable-tree.js:456-460 | The Delete handler removes the row first and then calls `resetIndexes(span.parentNode)`. The removed row has no parent any more, so `resetIndexes(null)` throws and the siblings are never relabelled. | Delete the first element of `[null, null]`: the remaining element is still labelled `1`. | The parent array's children are relabelled 0 … n − 2, as Insert does. | not executed | EditSession.DeleteLeavesStaleLabel | EditSession.DeleteRelabels |
| scripts/text-replacer.js:48-68 | `createListItem` tests `typeof item === "object"`, which also holds for null, and then reads fields of it. For `null` that throws, so the load stops with an alert after the options name and the four wrap texts were already assigned, and the list stays. | An options file `{"patternPrefix":"a","list":[null]}` | null is treated like any other value without fields and gives the default item, which the filter then drops. | not executed | TextReplacer.NullItemLoadAsWritten | TextReplacer.CreateListItem |
