/** The admin menu editor's document (app/admin/dashboard/menu/page.tsx):
    a list of day menus, each holding shifts, each holding variants, each
    holding menu items. Every handler of the page rebuilds this tree without
    mutating the old one; those rebuilds are the functions below. Ids that
    the page draws from `Math.random` are parameters here. */
module MenuTree {
  import opened SeqEdit

  datatype ShiftType = Lunch | Dinner

  datatype MenuItem = MenuItem(id: string, text: string)

  /** `image` is `null` until an image is uploaded. */
  datatype Variant = Variant(id: string, image: Option<string>, dishName: string, price: string,
                             menuItems: seq<MenuItem>)

  datatype Shift = Shift(id: string, kind: ShiftType, variants: seq<Variant>)

  datatype DayMenu = DayMenu(id: string, date: string, shifts: seq<Shift>)

  /** The variant fields the page edits through `handleVariantChange`. */
  datatype VariantField = Image | DishName | Price

  /** The id of the day menu the editor starts with. */
  const TodayId: string := "today"

  // Field accessors, passed to SeqEdit's by-key edits as their `key`.
  function DayId(d: DayMenu): string { d.id }
  function ShiftId(s: Shift): string { s.id }
  function VariantId(v: Variant): string { v.id }
  function ItemId(m: MenuItem): string { m.id }
  function DayDate(d: DayMenu): string { d.date }

  // ---------------------------------------------------------------------
  // Invariants the handlers keep

  /** No two day menus share a date. */
  predicate DatesDistinct(days: seq<DayMenu>)
  {
    forall i, j :: 0 <= i < j < |days| ==> days[i].date != days[j].date
  }

  /** A day holds at most one shift of each type. */
  predicate OneShiftPerType(day: DayMenu)
  {
    forall i, j :: 0 <= i < j < |day.shifts| ==> day.shifts[i].kind != day.shifts[j].kind
  }

  /** Every shift holds at least one variant. */
  predicate ShiftsHaveVariants(days: seq<DayMenu>)
  {
    forall i, j :: 0 <= i < |days| && 0 <= j < |days[i].shifts| ==> days[i].shifts[j].variants != []
  }

  predicate WellFormed(days: seq<DayMenu>)
  {
    && DatesDistinct(days)
    && (forall i :: 0 <= i < |days| ==> OneShiftPerType(days[i]))
    && ShiftsHaveVariants(days)
  }

  // ---------------------------------------------------------------------
  // Seeding of new nodes

  /** The editor's starting tree: the single day menu for today. */
  function InitialDays(today: string): (r: seq<DayMenu>)
    ensures WellFormed(r)
    ensures |r| == 1 && r[0].id == TodayId && r[0].date == today && r[0].shifts == []
  {
    [DayMenu(TodayId, today, [])]
  }

  /** `createNewVariant`: no image, empty name and price, one empty menu item. */
  function NewVariant(variantId: string, itemId: string): Variant
  {
    Variant(variantId, None, "", "", [MenuItem(itemId, "")])
  }

  /** `createNewShift`: a shift of the given type seeded with one new variant. */
  function NewShift(kind: ShiftType, shiftId: string, variantId: string, itemId: string): Shift
  {
    Shift(shiftId, kind, [NewVariant(variantId, itemId)])
  }

  // ---------------------------------------------------------------------
  // Days

  /** `days.some(day => day.date === date)` */
  predicate HasDate(days: seq<DayMenu>, date: string)
  {
    exists i :: 0 <= i < |days| && days[i].date == date
  }

  /** `handleAddDate`: an empty or already present date changes nothing;
      otherwise one empty day menu for that date is appended. */
  function AddDate(days: seq<DayMenu>, date: string, dayId: string): (r: seq<DayMenu>)
    ensures |r| == |days| + 1 <==> date != "" && !HasDate(days, date)
    ensures |r| == |days| || |r| == |days| + 1
    ensures r[..|days|] == days
    ensures |r| == |days| + 1 ==> r[|days|] == DayMenu(dayId, date, [])
    ensures date != "" ==> HasDate(r, date)
    ensures DatesDistinct(days) ==> DatesDistinct(r)
  {
    if date == "" || HasDate(days, date) then days
    else days + [DayMenu(dayId, date, [])]
  }

  /** `handleRemoveDay`: keeps, in order, the day menus with another id. The
      today menu gets no protection here. */
  function RemoveDay(days: seq<DayMenu>, dayId: string): (r: seq<DayMenu>)
    ensures Find(r, DayId, dayId) == None
    ensures forall i :: 0 <= i < |r| ==> r[i] in days
    ensures forall i :: 0 <= i < |days| && days[i].id != dayId ==> days[i] in r
  {
    Without(days, DayId, dayId)
  }

  // ---------------------------------------------------------------------
  // Shifts

  /** `day.shifts.some(shift => shift.type === kind)` */
  predicate HasShiftType(day: DayMenu, kind: ShiftType)
  {
    exists i :: 0 <= i < |day.shifts| && day.shifts[i].kind == kind
  }

  /** The body of `handleAddShift`'s map callback for a matching day. */
  function AddShiftTo(day: DayMenu, kind: ShiftType, shiftId: string, variantId: string, itemId: string): (r: DayMenu)
    ensures r.id == day.id && r.date == day.date
    ensures HasShiftType(r, kind)
    ensures |r.shifts| == |day.shifts| + 1 <==> !HasShiftType(day, kind)
    ensures |r.shifts| == |day.shifts| || |r.shifts| == |day.shifts| + 1
    ensures r.shifts[..|day.shifts|] == day.shifts
    ensures |r.shifts| == |day.shifts| + 1 ==> r.shifts[|day.shifts|] == NewShift(kind, shiftId, variantId, itemId)
    ensures OneShiftPerType(day) ==> OneShiftPerType(r)
  {
    if HasShiftType(day, kind) then day
    else
      var r := day.(shifts := day.shifts + [NewShift(kind, shiftId, variantId, itemId)]);
      assert r.shifts[|day.shifts|].kind == kind;
      r
  }

  /** `handleAddShift` once a shift type is selected: every day menu with the
      id then has a shift of that type; every other day menu is untouched. */
  function AddShift(days: seq<DayMenu>, dayId: string, kind: ShiftType,
                    shiftId: string, variantId: string, itemId: string): (r: seq<DayMenu>)
    ensures |r| == |days|
    ensures forall i :: 0 <= i < |days| ==> r[i].id == days[i].id && r[i].date == days[i].date
    ensures forall i :: 0 <= i < |days| && days[i].id == dayId ==> HasShiftType(r[i], kind)
    ensures forall i :: 0 <= i < |days| && days[i].id != dayId ==> r[i] == days[i]
  {
    MapWhere(days, DayId, dayId, (day: DayMenu) => AddShiftTo(day, kind, shiftId, variantId, itemId))
  }

  // ---------------------------------------------------------------------
  // Edits by id path: the nested `map` that every remaining handler uses

  /** Applies `f` to the shifts addressed by (dayId, shiftId). */
  function MapShift(days: seq<DayMenu>, dayId: string, shiftId: string, f: Shift -> Shift): (r: seq<DayMenu>)
    ensures |r| == |days|
    ensures forall i :: 0 <= i < |days| ==>
      r[i].id == days[i].id && r[i].date == days[i].date && |r[i].shifts| == |days[i].shifts|
    ensures forall i, j :: 0 <= i < |days| && 0 <= j < |days[i].shifts| ==>
      r[i].shifts[j] == if days[i].id == dayId && days[i].shifts[j].id == shiftId
                        then f(days[i].shifts[j]) else days[i].shifts[j]
  {
    MapWhere(days, DayId, dayId,
      (day: DayMenu) => day.(shifts := MapWhere(day.shifts, ShiftId, shiftId, f)))
  }

  /** Applies `f` to the variants addressed by (dayId, shiftId, variantId). */
  function MapVariant(days: seq<DayMenu>, dayId: string, shiftId: string, variantId: string,
                      f: Variant -> Variant): seq<DayMenu>
  {
    MapShift(days, dayId, shiftId,
      (sh: Shift) => sh.(variants := MapWhere(sh.variants, VariantId, variantId, f)))
  }

  /** Applies `f` to the menu items addressed by (dayId, shiftId, variantId, itemId). */
  function MapItem(days: seq<DayMenu>, dayId: string, shiftId: string, variantId: string, itemId: string,
                   f: MenuItem -> MenuItem): seq<DayMenu>
  {
    MapVariant(days, dayId, shiftId, variantId,
      (v: Variant) => v.(menuItems := MapWhere(v.menuItems, ItemId, itemId, f)))
  }

  function AppendVariant(sh: Shift, variantId: string, itemId: string): Shift
  {
    sh.(variants := sh.variants + [NewVariant(variantId, itemId)])
  }

  /** `handleAddVariant` */
  function AddVariant(days: seq<DayMenu>, dayId: string, shiftId: string,
                      variantId: string, itemId: string): seq<DayMenu>
  {
    MapShift(days, dayId, shiftId, (sh: Shift) => AppendVariant(sh, variantId, itemId))
  }

  function AppendItem(v: Variant, itemId: string): Variant
  {
    v.(menuItems := v.menuItems + [MenuItem(itemId, "")])
  }

  /** `handleAddMenuItem` */
  function AddMenuItem(days: seq<DayMenu>, dayId: string, shiftId: string, variantId: string,
                       itemId: string): seq<DayMenu>
  {
    MapVariant(days, dayId, shiftId, variantId, (v: Variant) => AppendItem(v, itemId))
  }

  /** The variant after `variant.menuItems.filter(item => item.id !== itemId)`:
      its other fields as they were, the items with another id kept. */
  function DropItem(v: Variant, itemId: string): (r: Variant)
    ensures r == v.(menuItems := r.menuItems)
    ensures forall k :: 0 <= k < |r.menuItems| ==> r.menuItems[k] in v.menuItems && r.menuItems[k].id != itemId
    ensures forall k :: 0 <= k < |v.menuItems| && v.menuItems[k].id != itemId ==> v.menuItems[k] in r.menuItems
    ensures (forall k :: 0 <= k < |v.menuItems| ==> v.menuItems[k].id != itemId) ==> r == v
  {
    v.(menuItems := Without(v.menuItems, ItemId, itemId))
  }

  /** `handleRemoveMenuItem`; no minimum number of items is kept. */
  function RemoveMenuItem(days: seq<DayMenu>, dayId: string, shiftId: string, variantId: string,
                          itemId: string): seq<DayMenu>
  {
    MapVariant(days, dayId, shiftId, variantId, (v: Variant) => DropItem(v, itemId))
  }

  /** `{ ...variant, [field]: value }` */
  function SetField(v: Variant, field: VariantField, value: string): (r: Variant)
    ensures ReadField(r, field) == Some(value)
    ensures forall other :: other != field ==> ReadField(r, other) == ReadField(v, other)
    ensures r.id == v.id && r.menuItems == v.menuItems
  {
    match field
    case Image => v.(image := Some(value))
    case DishName => v.(dishName := value)
    case Price => v.(price := value)
  }

  /** What the page reads back from a variant field. */
  function ReadField(v: Variant, field: VariantField): Option<string>
  {
    match field
    case Image => v.image
    case DishName => Some(v.dishName)
    case Price => Some(v.price)
  }

  /** `handleVariantChange` */
  function ChangeVariant(days: seq<DayMenu>, dayId: string, shiftId: string, variantId: string,
                         field: VariantField, value: string): seq<DayMenu>
  {
    MapVariant(days, dayId, shiftId, variantId, (v: Variant) => SetField(v, field, value))
  }

  /** What `handleImageUpload` does once the browser has read the file into
      a data URL. */
  function UploadImage(days: seq<DayMenu>, dayId: string, shiftId: string, variantId: string,
                       dataUrl: string): seq<DayMenu>
  {
    ChangeVariant(days, dayId, shiftId, variantId, Image, dataUrl)
  }

  /** `handleMenuItemChange` */
  function ChangeMenuItem(days: seq<DayMenu>, dayId: string, shiftId: string, variantId: string,
                          itemId: string, value: string): seq<DayMenu>
  {
    MapItem(days, dayId, shiftId, variantId, itemId, (m: MenuItem) => m.(text := value))
  }

  // ---------------------------------------------------------------------
  // Reading the tree by id path (first match at each level)

  function LookupDay(days: seq<DayMenu>, dayId: string): Option<DayMenu>
  {
    Find(days, DayId, dayId)
  }

  function LookupShift(days: seq<DayMenu>, dayId: string, shiftId: string): Option<Shift>
  {
    match LookupDay(days, dayId)
    case None => None
    case Some(day) => Find(day.shifts, ShiftId, shiftId)
  }

  function LookupVariant(days: seq<DayMenu>, dayId: string, shiftId: string, variantId: string): Option<Variant>
  {
    match LookupShift(days, dayId, shiftId)
    case None => None
    case Some(sh) => Find(sh.variants, VariantId, variantId)
  }

  function LookupItem(days: seq<DayMenu>, dayId: string, shiftId: string, variantId: string,
                      itemId: string): Option<MenuItem>
  {
    match LookupVariant(days, dayId, shiftId, variantId)
    case None => None
    case Some(v) => Find(v.menuItems, ItemId, itemId)
  }

  /** Some day with id `dayId` holds a shift with id `shiftId`. */
  predicate ShiftExists(days: seq<DayMenu>, dayId: string, shiftId: string)
  {
    exists i, j :: 0 <= i < |days| && 0 <= j < |days[i].shifts| &&
      days[i].id == dayId && days[i].shifts[j].id == shiftId
  }

  /** Some path of the tree carries the ids (dayId, shiftId, variantId). */
  predicate VariantExists(days: seq<DayMenu>, dayId: string, shiftId: string, variantId: string)
  {
    exists i, j, k :: 0 <= i < |days| && 0 <= j < |days[i].shifts| && 0 <= k < |days[i].shifts[j].variants| &&
      days[i].id == dayId && days[i].shifts[j].id == shiftId && days[i].shifts[j].variants[k].id == variantId
  }

  /** Some path of the tree carries the ids (dayId, shiftId, variantId, itemId). */
  predicate ItemExists(days: seq<DayMenu>, dayId: string, shiftId: string, variantId: string, itemId: string)
  {
    exists i, j, k, l :: 0 <= i < |days| && 0 <= j < |days[i].shifts| && 0 <= k < |days[i].shifts[j].variants| &&
      0 <= l < |days[i].shifts[j].variants[k].menuItems| &&
      days[i].id == dayId && days[i].shifts[j].id == shiftId && days[i].shifts[j].variants[k].id == variantId &&
      days[i].shifts[j].variants[k].menuItems[l].id == itemId
  }
}
