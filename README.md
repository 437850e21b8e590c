# Admin dashboard: menu editor and orders table

This project models two pages of a restaurant's admin dashboard in Dafny and proves what their state updates do.

**The menu editor** (`app/admin/dashboard/menu/page.tsx`) keeps a list of day menus. Each day holds at most one lunch and one dinner shift. Each shift holds variants (a dish with an optional image, a name and a price), and each variant holds menu items. Every handler rebuilds the tree with nested `map`/`filter` calls keyed by ids.

The model splits into three parts:

- **Value functions.** The handlers are pure functions over the tree, in module `MenuTree`. They are built on generic by-key edits of a list, in module `SeqEdit`.
- **Properties.** Module `MenuProps` proves, for each handler:
  - reading the addressed node back by its id path gives the edited node;
  - every other path reads as before;
  - a path that resolves nowhere leaves the tree equal;
  - the tree invariant is kept. The invariant is: no two days share a date, at most one shift of each type per day, and every shift has a variant.
- **The component's state.** Class `MenuEditor.Editor` holds the tree, the picked date and the picked shift type. Its methods replace these fields the way the component's state setters do, and they keep the invariant.

**The orders table** (`app/admin/dashboard/orders/page.tsx`) shows the orders one page at a time and lets the admin select rows for assigning a delivery box. Module `Orders` models:

- `Array.prototype.slice`, including its negative bounds;
- the page window and the `Math.ceil` page count;
- the four page buttons;
- row selection and select-all;
- the header checkbox;
- class `Orders.OrdersView` for the page's state.

Random ids (`Math.random().toString(36)`) and the current date are passed in as parameters.

## Model

| member | source | states |
|---|---|---|
| SeqEdit.MapWhere | app/admin/dashboard/menu/page.tsx:92-103 | `xs.map(x => x.id === id ? f(x) : x)`: same length; exactly the elements with the key are replaced by `f` of them, all others are kept in place |
| SeqEdit.Without | app/admin/dashboard/menu/page.tsx:85 | `xs.filter(x => x.id !== id)`: every survivor comes from the list and has another key; every element with another key survives; if nothing matches, the list is unchanged |
| SeqEdit.Find | app/admin/dashboard/menu/page.tsx:93 | how the model reads a node back by its id (the `day.id === dayId` test used at every level): a found element is in the list with that key; nothing is found exactly when no element has the key |
| SeqEdit.FindIsFirst | app/admin/dashboard/menu/page.tsx:93 | the read-back is the first element with the key: the element at the first position carrying the id is what is found |
| SeqEdit.WithoutAppend | app/admin/dashboard/menu/page.tsx:85 | filtering distributes over concatenation, so survivors keep their order |
| SeqEdit.MapWhereUnchanged | app/admin/dashboard/menu/page.tsx:92-103 | an update by key whose matching elements are fixed points leaves the list equal |
| SeqEdit.FindMapWhere | app/admin/dashboard/menu/page.tsx:92-103 | after a key-preserving update, the updated key finds `f` of what it found before, and every other key finds what it found before |
| SeqEdit.WithoutKeepsDistinct | app/admin/dashboard/menu/page.tsx:85 | filtering keeps pairwise-distinct values (dates, ids) pairwise distinct |
| MenuTree.InitialDays | app/admin/dashboard/menu/page.tsx:40-46 | the initial tree is the single today menu with no shifts, and it is well formed |
| MenuTree.NewVariant | app/admin/dashboard/menu/page.tsx:52-58 | `createNewVariant`: the fresh variant's fields are stated in MenuProps.NewShiftSeeded (no image, empty name and price, one empty menu item) |
| MenuTree.NewShift | app/admin/dashboard/menu/page.tsx:61-65 | `createNewShift`: a shift of the given type holding one fresh variant, as MenuProps.NewShiftSeeded states |
| MenuTree.WellFormed | app/admin/dashboard/menu/page.tsx:68-105 | the tree invariant the handlers keep: no two days share a date (the guard at line 69), one shift per type in each day (the guard at line 94), every shift has a variant (line 64); kept by every `*WellFormed` lemma and every MenuEditor.Editor method |
| MenuTree.HasDate | app/admin/dashboard/menu/page.tsx:69 | `days.some(day => day.date === selectedDate)`; MenuTree.AddDate appends exactly when it is false for a non-empty date, and it is true afterwards |
| MenuTree.AddDate | app/admin/dashboard/menu/page.tsx:68-81 | a day is appended exactly when the date is non-empty and not yet present; the existing days are kept as the prefix; the new day is empty; afterwards the date is present; distinct dates stay distinct |
| MenuTree.RemoveDay | app/admin/dashboard/menu/page.tsx:84-86 | no day with the id is left; every remaining day was there before; every day with another id remains |
| MenuTree.AddShiftTo | app/admin/dashboard/menu/page.tsx:93-101 | the day keeps its id and date and then has a shift of the type; it grows by one shift exactly when it had none of that type; the new shift is a fresh seeded one at the end; one-shift-per-type is kept |
| MenuTree.HasShiftType | app/admin/dashboard/menu/page.tsx:94 | `day.shifts.some(shift => shift.type === selectedShift)`; MenuTree.AddShiftTo adds a shift exactly when it is false, and it is true afterwards |
| MenuTree.AddShift | app/admin/dashboard/menu/page.tsx:89-105 | same number of days with the same ids and dates; every day with the id then has a shift of the type; every other day is unchanged; read-back in MenuProps.AddShiftSpec |
| MenuTree.MapShift | app/admin/dashboard/menu/page.tsx:109-125 | the nested day/shift `map`: ids, dates and shift counts are kept; a shift is replaced by `f` of it exactly when its day id and shift id match |
| MenuTree.MapVariant | app/admin/dashboard/menu/page.tsx:130-157 | the nested day/shift/variant `map`; its shape and pointwise effect are MenuProps.MapVariantShape, its read-back MenuProps.MapVariantLookup |
| MenuTree.MapItem | app/admin/dashboard/menu/page.tsx:232-261 | the nested `map` down to menu items; its read-back and frame are MenuProps.MapItemLookup |
| MenuTree.AppendVariant | app/admin/dashboard/menu/page.tsx:115-118 | `{ ...shift, variants: [...shift.variants, createNewVariant()] }`; its effect on the tree is stated in MenuTree.AddVariant and MenuProps.AddVariantSpec |
| MenuTree.AddVariant | app/admin/dashboard/menu/page.tsx:108-126 | `handleAddVariant`; its shape is MenuProps.AddVariantShape, its read-back, frame and no-op MenuProps.AddVariantSpec |
| MenuTree.AppendItem | app/admin/dashboard/menu/page.tsx:140-146 | `{ ...variant, menuItems: [...variant.menuItems, { id, text: '' }] }`; stated in MenuProps.AddMenuItemSpec |
| MenuTree.AddMenuItem | app/admin/dashboard/menu/page.tsx:129-158 | `handleAddMenuItem`; its read-back and frame are MenuProps.AddMenuItemSpec, its no-op MenuProps.AddMenuItemAbsent |
| MenuTree.DropItem | app/admin/dashboard/menu/page.tsx:170-177 | the variant's other fields are unchanged; the surviving items come from it and have another id; every item with another id survives |
| MenuTree.RemoveMenuItem | app/admin/dashboard/menu/page.tsx:161-187 | `handleRemoveMenuItem`; read-back and frame in MenuProps.RemoveMenuItemSpec, no-op in MenuProps.RemoveMenuItemAbsent |
| MenuTree.SetField | app/admin/dashboard/menu/page.tsx:206-211 | `{ ...variant, [field]: value }`: the field reads back the value; the other fields, the id and the items are unchanged |
| MenuTree.ReadField | app/admin/dashboard/menu/page.tsx:18-24 | what a variant holds in the image, dishName or price field; MenuTree.SetField is stated through it |
| MenuTree.ChangeVariant | app/admin/dashboard/menu/page.tsx:190-222 | `handleVariantChange`; read-back, frame and no-op in MenuProps.ChangeVariantSpec |
| MenuTree.ChangeMenuItem | app/admin/dashboard/menu/page.tsx:225-262 | `handleMenuItemChange`; read-back, frame and no-op in MenuProps.ChangeMenuItemSpec |
| MenuTree.UploadImage | app/admin/dashboard/menu/page.tsx:265-274 | `handleImageUpload` once the data URL exists: `handleVariantChange` on the image field; stated in MenuProps.UploadImageSpec |
| MenuProps.MapShiftLookup | app/admin/dashboard/menu/page.tsx:109-125 | after an id-preserving edit at (day, shift), that path reads `f` of the old shift and every other path reads as before |
| MenuProps.MapVariantLookup | app/admin/dashboard/menu/page.tsx:130-157 | the same at variant depth |
| MenuProps.MapItemLookup | app/admin/dashboard/menu/page.tsx:232-261 | the same at menu-item depth |
| MenuProps.MapVariantShape | app/admin/dashboard/menu/page.tsx:130-157 | an edit of variants keeps days, dates, shift ids and types and variant counts; a variant becomes `f` of itself exactly when its day, shift and variant ids match |
| MenuProps.MapShiftKeeps | app/admin/dashboard/menu/page.tsx:109-125 | an edit that leaves every addressed shift as it is leaves the tree equal |
| MenuProps.MapVariantKeeps | app/admin/dashboard/menu/page.tsx:130-157 | the same at variant depth |
| MenuProps.MapShiftWellFormed | app/admin/dashboard/menu/page.tsx:109-125 | an edit of shifts that keeps their type and never empties their variants keeps the tree well formed |
| MenuProps.MapVariantWellFormed | app/admin/dashboard/menu/page.tsx:162-186 | any edit of variants keeps the tree well formed |
| MenuProps.AddDatesKeepDatesDistinct | app/admin/dashboard/menu/page.tsx:69-70 | over any run of date additions, no two day menus share a date |
| MenuProps.AddDateWellFormed | app/admin/dashboard/menu/page.tsx:68-81 | adding a date keeps the tree well formed |
| MenuProps.RemoveDayKeepsOrder | app/admin/dashboard/menu/page.tsx:84-86 | removing a day distributes over any split of the list, so the other days keep their order |
| MenuProps.RemoveDayWellFormed | app/admin/dashboard/menu/page.tsx:84-86 | removing a day keeps the tree well formed |
| MenuProps.NewShiftSeeded | app/admin/dashboard/menu/page.tsx:52-65 | a new shift has the given id and type and exactly one variant. That variant has no image, an empty name and price, and exactly one menu item with empty text |
| MenuProps.AddShiftSpec | app/admin/dashboard/menu/page.tsx:89-105 | the addressed day reads back with the shift added unless it had one of that type; other days read as before; an unknown day id leaves the tree equal |
| MenuProps.AddShiftWellFormed | app/admin/dashboard/menu/page.tsx:89-105 | adding a shift keeps the tree well formed |
| MenuProps.AddShiftIdempotent | app/admin/dashboard/menu/page.tsx:94-96 | adding the same shift type to the same day a second time changes nothing |
| MenuProps.OneShiftOfType | app/admin/dashboard/menu/page.tsx:94-96 | in a day with one shift per type, a present type occurs at exactly one index |
| MenuProps.AtMostTwoShifts | app/admin/dashboard/menu/page.tsx:28 | with two shift types and one shift per type, a day holds at most two shifts |
| MenuProps.ThreeShiftsShareType | app/admin/dashboard/menu/page.tsx:28 | among any three shifts, two have the same type |
| MenuProps.AddShiftTwiceOneOfType | app/admin/dashboard/menu/page.tsx:89-105 | adding a type twice to an existing day of a well-formed tree leaves exactly one shift of that type |
| MenuProps.AddVariantSpec | app/admin/dashboard/menu/page.tsx:108-126 | the addressed shift reads back with one new seeded variant at the end; other shifts read as before; an unresolved path leaves the tree equal |
| MenuProps.AddVariantShape | app/admin/dashboard/menu/page.tsx:108-126 | same days and shift counts; no shift changes type; each addressed shift has exactly one more variant and every other shift as many as before |
| MenuProps.AddVariantWellFormed | app/admin/dashboard/menu/page.tsx:108-126 | adding a variant keeps the tree well formed |
| MenuProps.AddMenuItemSpec | app/admin/dashboard/menu/page.tsx:129-158 | the addressed variant reads back with one new empty item at the end; other variants read as before |
| MenuProps.AddMenuItemAbsent | app/admin/dashboard/menu/page.tsx:129-158 | adding a menu item under a path that resolves nowhere leaves the tree equal |
| MenuProps.RemoveMenuItemSpec | app/admin/dashboard/menu/page.tsx:161-187 | the addressed variant reads back as `DropItem` of it; other variants read as before |
| MenuProps.RemoveMenuItemAbsent | app/admin/dashboard/menu/page.tsx:161-187 | removing an item id that resolves nowhere leaves the tree equal |
| MenuProps.RemoveLastMenuItem | app/admin/dashboard/menu/page.tsx:174 | the handler keeps no minimum: removing the only item of a fresh variant leaves it with no items |
| MenuProps.ChangeVariantSpec | app/admin/dashboard/menu/page.tsx:190-222 | the addressed variant reads back the value in the field, with its other fields, id and items unchanged; other variants read as before; an unresolved path leaves the tree equal |
| MenuProps.PriceRoundTrip | app/admin/dashboard/menu/page.tsx:190-222 | setting an existing variant's price to "120" reads back "120" |
| MenuProps.UploadImageSpec | app/admin/dashboard/menu/page.tsx:265-274 | after an upload, the addressed variant's image reads back the data URL |
| MenuProps.ChangeMenuItemSpec | app/admin/dashboard/menu/page.tsx:225-262 | the addressed item reads back with the new text under its own id; other items read as before; an unresolved path leaves the tree equal |
| MenuEditor.Editor.constructor | app/admin/dashboard/menu/page.tsx:40-48 | starts with the today menu, no picked date and no picked shift, in a well-formed state |
| MenuEditor.Editor.PickDate | app/admin/dashboard/menu/page.tsx:47 | sets the picked date only |
| MenuEditor.Editor.PickShift | app/admin/dashboard/menu/page.tsx:48 | sets the picked shift type only |
| MenuEditor.Editor.AddDate | app/admin/dashboard/menu/page.tsx:68-81 | the tree becomes `MenuTree.AddDate` of it; the picked date is cleared only when a day was added; stays well formed |
| MenuEditor.Editor.RemoveDay | app/admin/dashboard/menu/page.tsx:84-86 | the tree becomes `MenuTree.RemoveDay` of it; stays well formed |
| MenuEditor.Editor.AddShift | app/admin/dashboard/menu/page.tsx:89-105 | with no picked type nothing changes; otherwise the tree becomes `MenuTree.AddShift` of it and the pick is cleared; stays well formed |
| MenuEditor.Editor.AddVariant | app/admin/dashboard/menu/page.tsx:108-126 | the tree becomes `MenuTree.AddVariant` of it; stays well formed |
| MenuEditor.Editor.AddMenuItem | app/admin/dashboard/menu/page.tsx:129-158 | the tree becomes `MenuTree.AddMenuItem` of it; stays well formed |
| MenuEditor.Editor.RemoveMenuItem | app/admin/dashboard/menu/page.tsx:161-187 | the tree becomes `MenuTree.RemoveMenuItem` of it; stays well formed |
| MenuEditor.Editor.ChangeVariant | app/admin/dashboard/menu/page.tsx:190-222 | the tree becomes `MenuTree.ChangeVariant` of it; stays well formed |
| MenuEditor.Editor.UploadImage | app/admin/dashboard/menu/page.tsx:265-274 | the tree becomes `MenuTree.UploadImage` of it; stays well formed |
| MenuEditor.Editor.ChangeMenuItem | app/admin/dashboard/menu/page.tsx:225-262 | the tree becomes `MenuTree.ChangeMenuItem` of it; stays well formed |
| Orders.SliceBound | app/admin/dashboard/orders/page.tsx:70 | a slice bound lands within the list, and a non-negative bound lands at itself or at the end |
| Orders.Slice | app/admin/dashboard/orders/page.tsx:70 | `orders.slice(start, end)`: the result holds exactly the elements from the resolved start up to the resolved end, in order (none when the end resolves at or before the start) |
| Orders.SliceFromEnd | app/admin/dashboard/orders/page.tsx:70 | a negative start counts back from the end: `s.slice(-m, s.length)` is the last m elements |
| Orders.TotalPages | app/admin/dashboard/orders/page.tsx:72 | `Math.ceil(count / perPage)`: the least page count whose pages hold every order |
| Orders.CurrentItems | app/admin/dashboard/orders/page.tsx:68-70 | `currentItems`: the window of page p; stated in Orders.CurrentItemsWindow, Orders.OrderOnItsPage and Orders.PageZeroEmpty |
| Orders.CurrentItemsWindow | app/admin/dashboard/orders/page.tsx:68-72 | page p ≥ 1 shows the orders from position (p-1)·perPage, in order, at most perPage of them, and is non-empty exactly when p is at most the page count |
| Orders.OrderOnItsPage | app/admin/dashboard/orders/page.tsx:68-72 | each order is shown on page position/perPage + 1, at position position mod perPage, and that page is within the page count |
| Orders.PageZeroEmpty | app/admin/dashboard/orders/page.tsx:68-70 | page 0 (reached by next or last when there are no orders) shows nothing: its window has a negative start but ends at 0 |
| Orders.PrevPage | app/admin/dashboard/orders/page.tsx:274 | `Math.max(prev - 1, 1)`; its range and step are stated in Orders.PageMovesStayInRange |
| Orders.NextPage | app/admin/dashboard/orders/page.tsx:278 | `Math.min(prev + 1, totalPages)`; its range and step are stated in Orders.PageMovesStayInRange and Orders.NoOrdersNoPages |
| Orders.PageMovesStayInRange | app/admin/dashboard/orders/page.tsx:270-283 | from a page in range, first, previous, next and last all land in range; previous and next move by one except at the ends |
| Orders.NoOrdersNoPages | app/admin/dashboard/orders/page.tsx:278 | with no orders there are no pages; next from page 1 and last go to page 0, and next never goes above 0 |
| Orders.PerPageChangeKeepsPage | app/admin/dashboard/orders/page.tsx:255 | switching from 10 to 20 rows per page on page 2 of 11 orders leaves a page past the last one, showing nothing |
| Orders.ToggleRow | app/admin/dashboard/orders/page.tsx:74-80 | the row's id becomes selected exactly when it was not; every other id keeps its selection; no duplicates are introduced |
| Orders.ToggleRowTwice | app/admin/dashboard/orders/page.tsx:74-80 | toggling a row twice restores the selected set, and restores the very list when the row was not selected |
| Orders.RowIds | app/admin/dashboard/orders/page.tsx:84 | `currentItems.map(order => order.id)`: one id per shown row, in page order |
| Orders.SelectAll | app/admin/dashboard/orders/page.tsx:82-88 | checking selects exactly the shown rows' ids, in page order and without duplicates; unchecking selects nothing |
| Orders.HeaderChecked | app/admin/dashboard/orders/page.tsx:214 | the header checkbox as written (a length test); shown to misread in Orders.HeaderCheckedMisreadsOtherPage |
| Orders.AllRowsChecked | app/admin/dashboard/orders/page.tsx:231 | every shown row's checkbox is checked; proved in Orders.SelectAllChecksHeader, Orders.ToggleOffUnchecksHeader and Orders.HeaderAgreesOnPageSelection |
| Orders.SelectAllChecksHeader | app/admin/dashboard/orders/page.tsx:82-88 | after select-all the header reads checked on a non-empty page; after unselect-all it reads unchecked |
| Orders.ToggleOffUnchecksHeader | app/admin/dashboard/orders/page.tsx:230-232 | unselecting a shown row leaves the header unchecked |
| Orders.DistinctCount | app/admin/dashboard/orders/page.tsx:214 | a list without duplicates has as many distinct elements as its length |
| Orders.HeaderAgreesOnPageSelection | app/admin/dashboard/orders/page.tsx:214 | when every selected id is on the page and there are no duplicates, the length test agrees with "every shown row is selected" |
| Orders.HeaderCheckedMisreadsOtherPage | app/admin/dashboard/orders/page.tsx:214 | a selection kept from page 1 makes the header read checked on page 2, though page 2's only row is unselected |
| Orders.OrdersView.constructor | app/admin/dashboard/orders/page.tsx:43-47 | page 1, 10 rows per page, nothing selected, no assignee, dialog closed |
| Orders.OrdersView.Pages | app/admin/dashboard/orders/page.tsx:72 | `totalPages` of the view's state, i.e. Orders.TotalPages |
| Orders.OrdersView.Shown | app/admin/dashboard/orders/page.tsx:68-70 | `currentItems` of the view's state, i.e. Orders.CurrentItems |
| Orders.OrdersView.SelectAllChecked | app/admin/dashboard/orders/page.tsx:214 | the header checkbox, read with Orders.AllRowsChecked; Orders.OrdersView.SelectAllRows states its value after select-all |
| Orders.OrdersView.ToggleRowSelection | app/admin/dashboard/orders/page.tsx:74-80 | the selection becomes `ToggleRow` of it; nothing else changes; no duplicates |
| Orders.OrdersView.SelectAllRows | app/admin/dashboard/orders/page.tsx:82-88 | the selection becomes `SelectAll` of the shown rows; afterwards the header reads checked exactly when checking on a non-empty page |
| Orders.OrdersView.AssignDeliveryBox | app/admin/dashboard/orders/page.tsx:90-95 | closes the dialog and clears the assignee and the selection, keeping the page |
| Orders.OrdersView.GoFirst | app/admin/dashboard/orders/page.tsx:270 | goes to page 1 |
| Orders.OrdersView.GoPrevious | app/admin/dashboard/orders/page.tsx:274 | goes to `max(page - 1, 1)`, staying in range |
| Orders.OrdersView.GoNext | app/admin/dashboard/orders/page.tsx:278 | goes to `min(page + 1, totalPages)`, staying in range |
| Orders.OrdersView.GoLast | app/admin/dashboard/orders/page.tsx:282 | goes to the last page |
| Orders.OrdersView.SetItemsPerPage | app/admin/dashboard/orders/page.tsx:255-263 | sets 10, 20 or 50 rows per page and keeps the page number |

## Findings

| source | as written | input that shows it | evidently intended | confidence | as-written member | corrected member |
|---|---|---|---|---|---|---|
| app/admin/dashboard/orders/page.tsx:214 | the header checkbox is checked when the page is non-empty and the selection is as long as the page | 11 orders at 10 per page: select order 1 on page 1, then go to page 2, where only order 11 is shown. The header reads checked though order 11 is not selected | checked exactly when every shown row is selected, as each row's checkbox at line 231 reads it | not executed | Orders.HeaderChecked, shown wrong by Orders.HeaderCheckedMisreadsOtherPage | Orders.AllRowsChecked, proved in Orders.SelectAllChecksHeader and Orders.ToggleOffUnchecksHeader, and used by Orders.OrdersView.SelectAllChecked |

## Left out

- Rendering (JSX, cards, icons, styling) is not modelled. This includes the guards that exist only in the markup:
  - the remove-day button is hidden for the today menu;
  - the add-shift form is shown only while a day has fewer than two shifts, and offers only missing types;
  - the remove button is shown on every menu item except a variant's last one.

  The handlers themselves have none of these guards, and the model follows the handlers.
- Random ids: `Math.random().toString(36).substr(2, 9)` is replaced by ids passed in as parameters. Where a `map` matches several nodes (duplicate ids), the source draws a fresh id per match; the model gives them all the same id. The model does not assume ids are unique.
- The current date (`new Date()`) for the initial today menu and the date picker's minimum is a parameter or left out.
- `handleImageUpload`: the `FileReader` and the file input are not modelled; `MenuTree.UploadImage` is the update once the data URL is available, and an empty file list, which does nothing, is not represented.
- `handleVariantChange` with the `id` or `menuItems` key: the type `keyof Variant` admits them, but every caller passes `image`, `dishName` or `price`, and `VariantField` has only those three.
- MenuTree.WellFormed does not require every variant to have a menu item: `handleRemoveMenuItem` can remove a variant's last item (`MenuProps.RemoveLastMenuItem`). Only the markup prevents this.
- The orders page's filters (date, shift, status, group-by-address), their URL parameters, `useEffect` and `router.push` are not modelled; they do not affect the table.
- `console.log` in `handleAssignDeliveryBox` and `applyFilters`, and the assignee name input and dialog open/close setters, are not modelled as separate operations.
- `Orders.OrdersView` takes the orders as a constructor argument. The page uses a fixed list of three mock orders with distinct ids; the constructor requires distinct ids.
- The header checkbox of `Orders.OrdersView` is read with the corrected definition (see Findings), not the one at line 214.
- The rest of the repository (the login page, the public menu pages, the layout and the UI components) is not part of this model.
