# Web builder core in Dafny

This project models the core of a drag-and-drop web-page builder. Its parts are:

- **The document store** (`store.dfy`, `store_properties.dfy`). It holds the ordered list of page elements and the selected element. It also keeps a linear undo/redo history of full element-list snapshots (`past`, `present`, `future`) and the derived `canUndo`/`canRedo` flags.
  - `Store.Step` gives the meaning of each store command as a function of the state before it.
  - The class `Store.BuilderStore` keeps the same state in fields. Each of its methods is proved to perform exactly `Step` and to keep the store invariant `Consistent`: `elements == present`, `canUndo` iff there is a past, and `canRedo` iff there is a future.
  - `StoreProperties` proves what the store promises: history recording, discarding the redo branch, the undo/redo round trips, what each command does to the element list and the selection, and that ids stay unique along any run in which the id generator keeps its promise.
- **The element renderer's pure helpers** (`element_renderer.dfy`):
  - the custom-CSS parser, written imperatively as its `forEach` loop and proved against a fold over its declarations;
  - the video-URL rewriter;
  - the splitting of a list element's text into items.
- **The colour picker's `isColorDark`** (`color_picker.dfy`). It includes a model of `Number.parseInt(s, 16)`.
- **The sidebar's element palette and its search** (`sidebar.dfy`).
- **The template gallery** (`template_gallery.dfy`): the four built-in templates, their search, and the confirmation that hands a template's elements to the store's `importLayout`.
- **Shared modules**: `text.dfy` models the JavaScript string operations the core uses (`split`, `trim`, `includes`, `startsWith`, `slice`, `toLowerCase`, `pop` of a split). `wrappers.dfy` holds `Option`.

The history has no depth bound: `builder-store.ts` never drops old entries from `past` (line 157 and the matching line of each edit). The model's history is therefore unbounded.

## Model

| member | source | states |
|---|---|---|
| Store.BuilderStore.constructor | src/store/builder-store.ts:139-148 | the store starts with no elements, no selection, empty history and both flags false, which satisfies the invariant |
| Store.BuilderStore.RecordHistory | src/store/builder-store.ts:155-159 | the present is pushed onto the past, the future is emptied, `canUndo` is set and `canRedo` is cleared |
| Store.BuilderStore.AddElement | src/store/builder-store.ts:150-182 | the fields become `Step` of the old state for `addElement`, and the invariant is kept |
| Store.BuilderStore.UpdateElementLayout | src/store/builder-store.ts:184-204 | the fields become `Step` for `updateElementLayout`: history is always recorded, and the first element with the id gets the merged layout |
| Store.BuilderStore.UpdateElementProperties | src/store/builder-store.ts:206-226 | the fields become `Step` for `updateElementProperties`: history is always recorded, and the first element with the id gets the merged property bag |
| Store.BuilderStore.RemoveElement | src/store/builder-store.ts:228-245 | the fields become `Step` for `removeElement`: the elements are filtered and the selection is cleared when it was the id |
| Store.BuilderStore.DuplicateElement | src/store/builder-store.ts:247-277 | the fields become `Step` for `duplicateElement`: an unknown id changes nothing, including the history |
| Store.BuilderStore.SetSelectedElementId | src/store/builder-store.ts:279-281 | only the selection changes |
| Store.BuilderStore.ExportLayout | src/store/builder-store.ts:283-287 | returns the current elements and changes nothing |
| Store.BuilderStore.ImportLayout | src/store/builder-store.ts:289-306 | the fields become `Step` for `importLayout`: missing data changes nothing; otherwise the elements are replaced and the selection is cleared |
| Store.BuilderStore.Undo | src/store/builder-store.ts:308-328 | the fields become `Step` for `undo`: it does nothing on an empty past; otherwise it restores the last past snapshot and moves the present to the front of the future |
| Store.BuilderStore.Redo | src/store/builder-store.ts:330-350 | the fields become `Step` for `redo`: it does nothing on an empty future; otherwise it restores the first future snapshot and pushes the present onto the past |
| Store.DefaultSize | src/store/builder-store.ts:123-137 | the size table, with the intended 6 by 4 fallback for any other name; its properties are `StoreProperties.DefaultsFallback` |
| Store.DefaultSizeAsWritten | src/store/builder-store.ts:152 | the size lookup as the code does it: no width or height exactly for the names inherited from `Object.prototype`, and the table size for the twelve types |
| Store.DefaultProperties | src/store/builder-store.ts:44-121 | the default property table, with the empty bag for any other name; its properties are `StoreProperties.DefaultsFallback` |
| Store.MergeLayout | src/store/builder-store.ts:196-199 | `{...layout, ...partial}`; its effect is stated by `StoreProperties.UpdateLayoutOnlyTarget` |
| Store.Step | src/store/builder-store.ts:150-350 | the state after each store command, which every `BuilderStore` method is proved to perform; its properties are the `StoreProperties` lemmas |
| Store.Run | src/store/builder-store.ts:150-350 | the state after a sequence of commands, one `Step` after another; `RunKeepsConsistent` and `RunKeepsDistinct` are about it |
| Store.FindIndex | src/store/builder-store.ts:194 | the index found is the first with the id, and there is none exactly when no element has the id |
| Store.RemoveById | src/store/builder-store.ts:238 | the result keeps exactly the elements whose id differs, and is no longer than the input |
| StoreProperties.StepKeepsConsistent | src/store/builder-store.ts:150-350 | every command keeps `elements == present` and the flags equal to the non-emptiness of past and future |
| StoreProperties.RunKeepsConsistent | src/store/builder-store.ts:150-350 | any sequence of commands from a consistent state ends in a consistent state |
| StoreProperties.InitialIsConsistent | src/store/builder-store.ts:139-148 | the initial store is consistent, with no elements and no selection |
| StoreProperties.EditRecordsHistory | src/store/builder-store.ts:155-159 | every edit, and a duplication of an existing element, pushes the old present onto the past and leaves nothing to redo |
| StoreProperties.MissingIdEditsOnlyRecord | src/store/builder-store.ts:184-245 | updating or removing an unknown id still records history but leaves elements and present unchanged |
| StoreProperties.RemoveAbsent | src/store/builder-store.ts:238 | filtering out an id that no element has returns the list unchanged |
| StoreProperties.NoOpCommands | src/store/builder-store.ts:279-350 | undo with an empty past, redo with an empty future and import without data change nothing; selecting changes only the selection |
| StoreProperties.DuplicateMissingIsNoOp | src/store/builder-store.ts:250-252 | duplicating an unknown id leaves the whole state unchanged |
| StoreProperties.UndoThenRedo | src/store/builder-store.ts:308-350 | redo right after undo restores the state; only the selection is cleared |
| StoreProperties.RedoThenUndo | src/store/builder-store.ts:308-350 | undo right after redo restores the state; only the selection is cleared |
| StoreProperties.UndoAfterEdit | src/store/builder-store.ts:308-328 | undo right after an edit restores the elements and past from before it, and the edited list is the only redo entry |
| StoreProperties.EditUndoRedo | src/store/builder-store.ts:308-350 | edit, undo, redo gives back the edited state without a selection |
| StoreProperties.EditAfterUndoDiscardsRedo | src/store/builder-store.ts:156-158 | an edit after an undo discards the redo branch |
| StoreProperties.AddElementAppends | src/store/builder-store.ts:150-182 | exactly one element is appended, with the new id, the given cell, the type's default size and properties, and it is selected |
| StoreProperties.DefaultsFallback | src/store/builder-store.ts:44-137 | under the intended fallback (see Findings), a type outside the twelve gets size 6 by 4 and no properties; a known type gets a positive size and a padding |
| StoreProperties.SizeLookupAgreesOutsideInherited | src/store/builder-store.ts:152 | the lookup as written and the intended fallback agree on every name not inherited from `Object.prototype` |
| StoreProperties.InheritedNameLosesSize | src/store/builder-store.ts:151-152 | for the type name `constructor`, which is not an element type, the lookup as written gives no size while the intended fallback gives 6 by 4; the property bags agree |
| StoreProperties.UpdateLayoutOnlyTarget | src/store/builder-store.ts:194-201 | only the first element with the id changes, and in it only the supplied layout fields |
| StoreProperties.UpdatePropertiesOnlyTarget | src/store/builder-store.ts:216-223 | only the first element with the id changes; supplied keys take the new values and other keys are kept |
| StoreProperties.FirstWithIdUnique | src/store/builder-store.ts:194 | `findIndex` returns `i` exactly when `i` is the first index with the id |
| StoreProperties.RemoveKeepsOthers | src/store/builder-store.ts:238-243 | removal keeps each element with another id, as often as before, drops those with the id, and clears a matching selection |
| StoreProperties.RemoveCounts | src/store/builder-store.ts:238 | the filter keeps every other element's multiplicity and drops the id's elements entirely |
| StoreProperties.RemoveKeepsOrder | src/store/builder-store.ts:238 | filtering distributes over concatenation, so the order is kept |
| StoreProperties.DuplicateAppendsCopy | src/store/builder-store.ts:247-277 | one copy of the first element with the id is appended, with the new id, moved by one cell each way, and it is selected |
| StoreProperties.ExportImportRoundTrip | src/store/builder-store.ts:283-306 | importing the exported elements keeps the elements, clears the selection and records one history entry |
| StoreProperties.AppendFreshKeepsDistinct | src/store/builder-store.ts:177 | appending an element with a fresh id keeps ids distinct |
| StoreProperties.RemoveKeepsDistinct | src/store/builder-store.ts:238 | filtering keeps ids distinct |
| StoreProperties.StepKeepsDistinct | src/store/builder-store.ts:150-350 | a command whose new id is fresh, or whose imported ids are distinct, keeps ids distinct in every list the store holds, including the history |
| StoreProperties.RunKeepsDistinct | src/store/builder-store.ts:150-350 | along any such sequence of commands, ids stay distinct in the live list and in all of the history |
| StoreProperties.ButtonScenario | src/store/builder-store.ts:150-350 | adding a button to the empty page gives one 6 by 2 button; undo empties the page, and redo brings the button back, with the flags following |
| StoreProperties.DuplicateOffsetExample | src/store/builder-store.ts:260-269 | duplicating an element at {2, 3, 6, 4} places the copy at {3, 4, 6, 4} under another id |
| ElementRenderer.ParseCustomCss | src/components/element-renderer.tsx:394-412 | the empty string gives the empty object; otherwise the loop builds the fold of the parsed declarations of `css.split(";")` |
| ElementRenderer.ParseDeclaration | src/components/element-renderer.tsx:401-407 | one piece parsed: `DeclarationNeedsColon` (no colon), `DeclarationOf` (one colon) and `DeclarationIgnoresSecondColon` (two or more colons) fix its result on every piece; `DeclarationShape` states what a kept declaration looks like |
| ElementRenderer.ParseEntry | src/components/element-renderer.tsx:401 | one loop step parses the n-th piece exactly as the map over all pieces does |
| ElementRenderer.Fold | src/components/element-renderer.tsx:400-408 | the object that writing the kept declarations in order builds; `FoldCharacterised` states what it holds |
| ElementRenderer.Map | src/components/element-renderer.tsx:401 | `map`: one result per input, the i-th being the function of the i-th input (`MapAt`) |
| ElementRenderer.FoldCharacterised | src/components/element-renderer.tsx:398-409 | the object holds exactly the declared keys, each with the value of its last declaration |
| ElementRenderer.EmptyCssDeclaresNothing | src/components/element-renderer.tsx:395 | the empty string declares nothing and gives the empty object |
| ElementRenderer.FoldStep | src/components/element-renderer.tsx:400-408 | one more declaration keeps the invariant that the map holds each declared key's last value |
| ElementRenderer.FoldPrefix | src/components/element-renderer.tsx:400-408 | the fold of every prefix satisfies that invariant |
| ElementRenderer.MapAt | src/components/element-renderer.tsx:401 | the i-th element of a map is the function applied to the i-th input |
| ElementRenderer.CamelCaseLeavesNoKebab | src/components/element-renderer.tsx:403-405 | after the replacement no hyphen is followed by a lower-case letter |
| ElementRenderer.CamelCaseKeepsPlainNames | src/components/element-renderer.tsx:403-405 | a name without a hyphen before a lower-case letter is unchanged |
| ElementRenderer.CamelCaseIdempotent | src/components/element-renderer.tsx:403-405 | converting twice is converting once |
| ElementRenderer.CamelCase | src/components/element-renderer.tsx:403-405 | the result is no longer than the input, and a first character that is not a lower-case letter stays so; `CamelCaseKeepsPlainNames`, `CamelCasePair`, `CamelCaseKeepsHyphen` and `CamelCaseAppend` together fix its result on every input |
| ElementRenderer.CamelCasePair | src/components/element-renderer.tsx:403-405 | a hyphen and a lower-case letter become that same letter upper-cased; a hyphen before any other character is kept with it |
| ElementRenderer.CamelCaseAppend | src/components/element-renderer.tsx:403-405 | the replacement works piece by piece: a name cut anywhere but just after a hyphen is converted by converting both pieces |
| ElementRenderer.CamelCaseKeepsHyphen | src/components/element-renderer.tsx:403-405 | a hyphen before anything but a lower-case letter, another hyphen included, is kept, and the rest is converted on its own |
| ElementRenderer.CustomPropertyExample | src/components/element-renderer.tsx:403-405 | the custom property `--a` becomes `-A` |
| ElementRenderer.CamelCaseExample | src/components/element-renderer.tsx:403-405 | `font-size` becomes `fontSize` |
| ElementRenderer.CamelCaseChars | src/components/element-renderer.tsx:403-405 | the replacement brings in no character other than upper-case letters |
| ElementRenderer.DeclarationShape | src/components/element-renderer.tsx:401-402 | a kept declaration has a non-empty property and a non-empty value, the value is trimmed, and neither holds a colon |
| ElementRenderer.DeclarationNeedsColon | src/components/element-renderer.tsx:401-402 | a piece without a colon is dropped |
| ElementRenderer.DeclarationOf | src/components/element-renderer.tsx:401-407 | a piece `p:v` with one colon is kept iff both trimmed sides are non-empty, and then declares the camel-cased trimmed `p` with the trimmed `v` |
| ElementRenderer.PaddedDeclaration | src/components/element-renderer.tsx:401-407 | a property and a value padded with spaces around the colon declare the camel-cased property with the bare value |
| ElementRenderer.DeclarationExample | src/components/element-renderer.tsx:401-407 | ` font-size : 12px ` declares `fontSize` as `12px` |
| ElementRenderer.TrimPadded | src/components/element-renderer.tsx:401 | trimming a word padded with one space on each side gives the word |
| ElementRenderer.DeclarationIgnoresSecondColon | src/components/element-renderer.tsx:401 | everything after a second colon, further colons included, is dropped: `p:v:rest` parses as `p:v` |
| ElementRenderer.FormatVideoUrlCases | src/components/element-renderer.tsx:415-427 | the four cases in order: watch URLs embed the `v` parameter; short links and Vimeo embed the last path segment, the slash-free suffix of the URL that is preceded by a slash or is the whole URL; anything else is returned unchanged |
| ElementRenderer.FormatVideoUrl | src/components/element-renderer.tsx:415-427 | `formatVideoUrl`; its cases are `FormatVideoUrlCases` |
| ElementRenderer.ListItems | src/components/element-renderer.tsx:217-219 | the items of a list element; their properties are `ListItemsAreLines` and `DefaultItems` |
| ElementRenderer.NonEmpty | src/components/element-renderer.tsx:219 | `.filter(Boolean)`: no longer than the input, every result is non-empty, and a string is kept iff it is in the input and non-empty |
| ElementRenderer.NonEmptyAppend | src/components/element-renderer.tsx:219 | the filter distributes over concatenation, which fixes the order and multiplicity of the kept strings |
| ElementRenderer.NonEmptySingle | src/components/element-renderer.tsx:219 | a single string is kept iff it is non-empty |
| ElementRenderer.LinesOf | src/components/element-renderer.tsx:217-219 | for any text: the lines join back to it, and the non-empty lines hold no line break and read in order as the text without line breaks |
| ElementRenderer.ListItemsAreLines | src/components/element-renderer.tsx:217-219 | the text is its lines joined by line breaks, no line holds a line break, and the items are exactly the non-empty lines; the items read in order are the text without its line breaks |
| ElementRenderer.ConcatNonEmpty | src/components/element-renderer.tsx:219 | dropping empty pieces loses no characters |
| ElementRenderer.ConcatSplit | src/components/element-renderer.tsx:218 | the pieces of a split, joined back, are the text without the separators |
| ElementRenderer.DefaultLines | src/components/element-renderer.tsx:217-218 | the default text splits into three lines |
| ElementRenderer.DefaultItems | src/components/element-renderer.tsx:217-219 | a list without items, or with empty items, shows Item 1, Item 2, Item 3 |
| ColorPicker.HexPrefixLength | src/components/color-picker.tsx:140-142 | the digits `parseInt` reads are the longest run of hexadecimal digits |
| ColorPicker.UnsignedHexDigits | src/components/color-picker.tsx:140-142 | a run of hexadecimal digits is read whole, as its value |
| ColorPicker.ParseHexDigits | src/components/color-picker.tsx:140-142 | `parseInt(s, 16)` of a non-empty run of hexadecimal digits is its value |
| ColorPicker.HexPrefixOfDigits | src/components/color-picker.tsx:140-142 | all of a run of digits is read |
| ColorPicker.ParseNegativeHexDigits | src/components/color-picker.tsx:140-142 | a minus sign before the digits negates the value, so a slice such as `-1` parses to a negative channel |
| ColorPicker.TwoDigitValue | src/components/color-picker.tsx:140-142 | two digits denote sixteen times the first plus the second |
| ColorPicker.ParseTwoDigits | src/components/color-picker.tsx:140-142 | a two-digit channel parses to sixteen times the first digit plus the second |
| ColorPicker.ChannelSlice | src/components/color-picker.tsx:140-142 | each two-character slice of a `#rrggbb` colour is that channel's digits |
| ColorPicker.HexColorDarkness | src/components/color-picker.tsx:137-147 | for a `#rrggbb` colour, dark iff the weighted brightness of the channels is below 128 |
| ColorPicker.DarkNeedsLongHex | src/components/color-picker.tsx:139-146 | only a colour starting with `#` and at least six characters long can be dark, so short forms such as `#000` never are |
| ColorPicker.IgnoresTrailingDigits | src/components/color-picker.tsx:140-142 | characters after the seventh, such as an alpha channel, do not matter |
| ColorPicker.DarknessMonotone | src/components/color-picker.tsx:143-144 | lightening every channel never turns a light colour dark |
| ColorPicker.GreyThreshold | src/components/color-picker.tsx:143-144 | a grey is dark exactly when its channel is below 128 |
| ColorPicker.ParseUnsignedHex | src/components/color-picker.tsx:140-142 | the value of the longest run of hexadecimal digits, or `None` for `NaN` when there is none; `UnsignedHexDigits` states it |
| ColorPicker.ParseIntHex | src/components/color-picker.tsx:140-142 | `Number.parseInt(s, 16)`, with `None` for `NaN`; its properties are `ParseHexDigits`, `ParseNegativeHexDigits` and `ParseTwoDigits` |
| ColorPicker.IsColorDark | src/components/color-picker.tsx:137-147 | `isColorDark`; its properties are `HexColorDarkness`, `DarkNeedsLongHex`, `IgnoresTrailingDigits`, `DarknessMonotone` and `GreyThreshold` |
| Sidebar.SidebarState.constructor | src/components/sidebar.tsx:66-67 | the term starts empty and the whole palette is shown |
| Sidebar.SidebarState.HandleSearch | src/components/sidebar.tsx:69-88 | it stores the lower-cased input and shows the search result for it |
| Sidebar.SidebarState.ClearSearch | src/components/sidebar.tsx:90-93 | it empties the term and shows the whole palette |
| Sidebar.FilterItems | src/components/sidebar.tsx:79-81 | an item is kept iff its lower-cased name or description includes the term |
| Sidebar.FilterCategories | src/components/sidebar.tsx:77-85 | the `map` then `filter` of `handleSearch`: never more categories than the palette has; its properties are `FilterCategoriesSound`, `FilterCategoriesComplete` and `FilterCategoriesAppend` |
| Sidebar.SearchResult | src/components/sidebar.tsx:73-87 | the categories shown for a lower-cased term; its properties are `SearchResultIsFilter` and `ShownIff` |
| Sidebar.FilterItemsAppend | src/components/sidebar.tsx:79-81 | item filtering keeps order, since it distributes over concatenation |
| Sidebar.FilterCategoriesAppend | src/components/sidebar.tsx:77-83 | category filtering keeps order |
| Sidebar.FilterCategoriesSound | src/components/sidebar.tsx:77-83 | each category shown is a palette category cut down to its matching items, of which it has at least one |
| Sidebar.FilterCategoriesComplete | src/components/sidebar.tsx:77-83 | each palette category with a matching item is shown |
| Sidebar.EmptyTermKeepsItems | src/components/sidebar.tsx:79-81 | the empty term matches every item |
| Sidebar.EmptyTermKeepsCategories | src/components/sidebar.tsx:73-83 | filtering with the empty term keeps every non-empty category, so the `!term` shortcut agrees with filtering |
| Sidebar.SearchResultIsFilter | src/components/sidebar.tsx:73-87 | the shown categories are the filtered palette for every term, the empty one included |
| Sidebar.SearchIgnoresCase | src/components/sidebar.tsx:70-87 | two inputs whose letters differ only in case show the same categories |
| Sidebar.TypingPartOfNameFinds | src/components/sidebar.tsx:69-88 | typing any part of a palette item's name or description, in any mix of cases, shows that item |
| Sidebar.ShownIff | src/components/sidebar.tsx:69-88 | an item is shown iff it is in the palette and matches the term |
| Sidebar.PaletteCreatesKnownTypes | src/components/sidebar.tsx:32-63 | about the palette table `ElementCategories`: every palette entry is one of the twelve element types the store has defaults for |
| Sidebar.EveryTypeInPalette | src/components/sidebar.tsx:32-63 | every element type the store knows has a palette entry |
| TemplateGallery.FilterTemplates | src/components/template-gallery.tsx:172-176 | a template is listed iff its lower-cased name or category includes the lower-cased term |
| TemplateGallery.FindTemplate | src/components/template-gallery.tsx:184 | the template at the first index with the id, or none exactly when no template has it |
| TemplateGallery.ConfirmSelection | src/components/template-gallery.tsx:182-189 | what is handed to `onSelect`; its cases are `NoSelectionConfirmsNothing` and `ConfirmSelectionCases` |
| TemplateGallery.Gallery.constructor | src/components/template-gallery.tsx:18-19 | nothing is selected and the search term is empty |
| TemplateGallery.Gallery.SetSearchTerm | src/components/template-gallery.tsx:210 | the raw input becomes the term, and the selection is kept |
| TemplateGallery.Gallery.HandleSelectTemplate | src/components/template-gallery.tsx:178-180 | the id becomes the selection, and the term is kept |
| TemplateGallery.Gallery.HandleConfirmSelection | src/components/template-gallery.tsx:182-189 | hands on the selected template's elements, or nothing without a (non-empty) selection or a matching template |
| TemplateGallery.FilterTemplatesAppend | src/components/template-gallery.tsx:172-176 | template filtering keeps the gallery's order |
| TemplateGallery.EmptySearchListsAll | src/components/template-gallery.tsx:172-176 | an empty search lists every template |
| TemplateGallery.SearchIgnoresCase | src/components/template-gallery.tsx:174-175 | any two terms that differ only in letter case list the same templates |
| TemplateGallery.NoSelectionConfirmsNothing | src/components/template-gallery.tsx:183 | without a selection, or with an empty one, nothing is handed on |
| TemplateGallery.ConfirmSelectionCases | src/components/template-gallery.tsx:182-189 | an unknown id hands nothing on; with distinct template ids, a known id hands on that template's elements |
| TemplateGallery.ApplyTemplate | src/builder/page.tsx:162-166 | applying a confirmed template through `importLayout` puts exactly its elements on the page, clears the selection and keeps the invariant, and an undo restores the previous page |
| TemplateGallery.TemplatesWellFormed | src/components/template-gallery.tsx:21-170 | about the table `Templates`: the built-in templates have distinct ids, each has distinct element ids, and every element type is one the store knows |
| Text.JoinSplit | src/components/element-renderer.tsx:398 | joining the pieces of a split with the separator gives the string back |
| Text.SplitJoin | src/components/element-renderer.tsx:398 | splitting separator-free pieces joined by the separator gives the pieces back |
| Text.ContainsIff | src/components/sidebar.tsx:81 | `includes` holds iff the substring occurs at some index |
| Text.ToLowerIdempotent | src/components/sidebar.tsx:70 | lower-casing twice is lower-casing once |
| Text.LastPieceIsSuffix | src/components/element-renderer.tsx:420 | the last piece of a split is a separator-free suffix |
| Text.Split | src/components/element-renderer.tsx:398 | `split` on one character: at least one piece, and no piece holds the separator; `JoinSplit` and `SplitJoin` show it inverts `Join` |
| Text.Trim | src/components/element-renderer.tsx:401 | `trim`: the result is the input with only whitespace taken off its two ends, it neither starts nor ends with whitespace, and it is empty iff the input is all whitespace |
| Text.TrimStart | src/components/element-renderer.tsx:401 | the leading whitespace is dropped: the result is a suffix that does not start with whitespace, and all before it is whitespace |
| Text.TrimEnd | src/components/element-renderer.tsx:401 | the trailing whitespace is dropped: the result is a prefix that does not end with whitespace, and all after it is whitespace |
| Text.Slice | src/components/color-picker.tsx:140-142 | `slice` with non-negative bounds: within the string it is the sub-sequence, and it is never longer than the string |
| Text.StartsWith | src/components/color-picker.tsx:139 | `startsWith`: the string begins with the prefix |
| Text.LastPiece | src/components/element-renderer.tsx:420 | `split(sep).pop()`; `LastPieceIsSuffix` states it is the last separator-free segment |
| Text.SplitAfterFirst | src/components/element-renderer.tsx:401 | splitting at the first separator gives the text before it, then the pieces of the text after it |
| Text.ContainsLower | src/components/sidebar.tsx:70-81 | a string that includes a part still includes it once both are lower-cased |
| Text.Contains | src/components/sidebar.tsx:81 | `includes`; `ContainsIff` relates it to an occurrence at some index |
| Text.ToLower | src/components/sidebar.tsx:70 | `toLowerCase` on ASCII letters; `ToLowerIdempotent` states it keeps the length and is idempotent |

## Left out

- State management library: the store's `create`/`set`/`get` and the draft-based `produce` are replaced by plain state updates. Each method's effect is the net effect of its draft.
- Store.BuilderStore.AddElement: the random id is the parameter `newId`. Its freshness is assumed only by the distinct-id lemmas (`Admitted`), not by the methods.
- Store.BuilderStore.DuplicateElement: the random id is the parameter `newId`. Its freshness is assumed only by the distinct-id lemmas, not by the method.
- Store.Value: property values are strings or integers. Booleans, fractional numbers and nested objects are not modelled.
- Store.PartialLayout: a field passed explicitly as `undefined` is treated like a missing field. In JavaScript it would overwrite the old value with `undefined`.
- Store.BuilderStore.ImportLayout: any `data` whose `elements` is missing or falsy is modelled as `None`. The code checks nothing else about the imported value, while `Snapshot` gives every imported element a string id and type, an integer layout and string or integer property values. Non-array `elements` and elements of any other shape are not modelled.
- Store.BuilderStore.AddElement: the new element's size follows the intended fallback `Store.DefaultSize`. For a type named after a member inherited from `Object.prototype`, such as `constructor`, the code gives no width or height; see Findings.
- StoreProperties.DefaultsFallback: states the intended 6 by 4 fallback, which the code does not give for the names inherited from `Object.prototype`; see Findings.
- Key order: objects are modelled as maps, so the insertion order of properties and of parsed CSS keys is not captured.
- ElementRenderer.ParseCustomCss: keys such as `__proto__` that have a special meaning on a JavaScript object are treated as ordinary keys.
- ElementRenderer.FormatVideoUrl: the URL library's query-string lookup is the parameter `watchVideoId`. The `null` it gives for a missing `v`, and the exception `new URL` throws on an unparsable string, are not modelled.
- ElementRenderer.ListItems: a non-string `items` value is not modelled.
- Text.ToLower: case mapping covers ASCII letters only. JavaScript's full Unicode case mapping is not modelled.
- ColorPicker.IsColorDark: strings are sequences of code points, while JavaScript's `slice` counts UTF-16 code units. On a colour holding a character outside the Basic Multilingual Plane, such as `#0😀0000`, the slices differ: the code's channel parses to `NaN` and the colour is not dark, while the model says dark.
- ColorPicker.IsColorDark: the brightness is compared exactly as an integer, `r*299 + g*587 + b*114 < 128000`. This equals the floating-point `/ 1000 < 128` for every value two-character hexadecimal slices can produce.
- Rendering, animations, icons, thumbnails, toasts and drag-and-drop: these are user-interface concerns with no behaviour the core's state depends on.
- React component state: it is modelled as fields of a class that each handler updates at once. Batching and re-rendering are not modelled.
- The property panel, the canvas and the pages that call the store are not part of this model. Only the template-application call in `src/builder/page.tsx` is modelled, as `TemplateGallery.ApplyTemplate`.

## Findings

| source | as written | input that shows it | evidently intended | confidence | as-written member | corrected member |
|---|---|---|---|---|---|---|
| src/store/builder-store.ts:152 | the lookup `defaultSizes[type]` that precedes the `{ w: 6, h: 4 }` fallback is a plain property lookup, so it also finds members inherited from `Object.prototype`; the result is truthy and has no `w` or `h` | `addElement("constructor", {x: 0, y: 0})` creates an element whose layout `w` and `h` are `undefined` | any type outside the table gets the generic 6 by 4 size | high; not executed | StoreProperties.InheritedNameLosesSize | StoreProperties.DefaultsFallback |
