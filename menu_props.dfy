/** What the menu editor's handlers promise, stated over the functions of
    MenuTree: reading a node back by its id path after an edit, every other
    path reading as before, unresolved paths leaving the tree alone, and the
    tree invariants each edit keeps. */
module MenuProps {
  import opened SeqEdit
  import opened MenuTree

  // ---------------------------------------------------------------------
  // Edits by id path, in general

  /** After editing the shift at (d, s), that path reads the edited shift and
      every other path reads what it did before. */
  lemma MapShiftLookup(days: seq<DayMenu>, d: string, s: string, f: Shift -> Shift, d': string, s': string)
    requires forall x: Shift :: f(x).id == x.id
    ensures d' == d && s' == s ==>
      LookupShift(MapShift(days, d, s, f), d', s') == Apply(f, LookupShift(days, d, s))
    ensures d' != d || s' != s ==>
      LookupShift(MapShift(days, d, s, f), d', s') == LookupShift(days, d', s')
  {
    var g := (day: DayMenu) => day.(shifts := MapWhere(day.shifts, ShiftId, s, f));
    FindMapWhere(days, DayId, d, g, d');
    match LookupDay(days, d')
    case None =>
    case Some(day) =>
      FindMapWhere(day.shifts, ShiftId, s, f, s');
  }

  /** The same at variant depth. */
  lemma MapVariantLookup(days: seq<DayMenu>, d: string, s: string, v: string, f: Variant -> Variant,
                         d': string, s': string, v': string)
    requires forall x: Variant :: f(x).id == x.id
    ensures d' == d && s' == s && v' == v ==>
      LookupVariant(MapVariant(days, d, s, v, f), d', s', v') == Apply(f, LookupVariant(days, d, s, v))
    ensures d' != d || s' != s || v' != v ==>
      LookupVariant(MapVariant(days, d, s, v, f), d', s', v') == LookupVariant(days, d', s', v')
  {
    var g := (sh: Shift) => sh.(variants := MapWhere(sh.variants, VariantId, v, f));
    MapShiftLookup(days, d, s, g, d', s');
    match LookupShift(days, d', s')
    case None =>
    case Some(sh) =>
      FindMapWhere(sh.variants, VariantId, v, f, v');
  }

  /** The same at menu-item depth. */
  lemma MapItemLookup(days: seq<DayMenu>, d: string, s: string, v: string, i: string, f: MenuItem -> MenuItem,
                      d': string, s': string, v': string, i': string)
    requires forall x: MenuItem :: f(x).id == x.id
    ensures d' == d && s' == s && v' == v && i' == i ==>
      LookupItem(MapItem(days, d, s, v, i, f), d', s', v', i') == Apply(f, LookupItem(days, d, s, v, i))
    ensures d' != d || s' != s || v' != v || i' != i ==>
      LookupItem(MapItem(days, d, s, v, i, f), d', s', v', i') == LookupItem(days, d', s', v', i')
  {
    var g := (x: Variant) => x.(menuItems := MapWhere(x.menuItems, ItemId, i, f));
    MapVariantLookup(days, d, s, v, g, d', s', v');
    match LookupVariant(days, d', s', v')
    case None =>
    case Some(x) =>
      FindMapWhere(x.menuItems, ItemId, i, f, i');
  }

  /** An edit of variants keeps the days, their shifts and the number of
      variants in each, and turns exactly the addressed variants into `f`
      of themselves. */
  lemma MapVariantShape(days: seq<DayMenu>, d: string, s: string, v: string, f: Variant -> Variant)
    ensures var r := MapVariant(days, d, s, v, f);
      && |r| == |days|
      && (forall i :: 0 <= i < |days| ==>
            r[i].id == days[i].id && r[i].date == days[i].date && |r[i].shifts| == |days[i].shifts|)
      && (forall i, j :: 0 <= i < |days| && 0 <= j < |days[i].shifts| ==>
            && r[i].shifts[j].id == days[i].shifts[j].id && r[i].shifts[j].kind == days[i].shifts[j].kind
            && |r[i].shifts[j].variants| == |days[i].shifts[j].variants|)
      && (forall i, j, k :: 0 <= i < |days| && 0 <= j < |days[i].shifts| && 0 <= k < |days[i].shifts[j].variants| ==>
            r[i].shifts[j].variants[k] ==
              if days[i].id == d && days[i].shifts[j].id == s && days[i].shifts[j].variants[k].id == v
              then f(days[i].shifts[j].variants[k]) else days[i].shifts[j].variants[k])
  {
  }

  /** An edit whose addressed shifts all stay as they are leaves the tree equal. */
  lemma MapShiftKeeps(days: seq<DayMenu>, d: string, s: string, f: Shift -> Shift)
    requires forall i, j :: (0 <= i < |days| && 0 <= j < |days[i].shifts| &&
                             days[i].id == d && days[i].shifts[j].id == s
                             ==> f(days[i].shifts[j]) == days[i].shifts[j])
    ensures MapShift(days, d, s, f) == days
  {
    var r := MapShift(days, d, s, f);
    forall i | 0 <= i < |days| ensures r[i] == days[i] {
      assert r[i].shifts == days[i].shifts;
    }
  }

  /** The same at variant depth. */
  lemma MapVariantKeeps(days: seq<DayMenu>, d: string, s: string, v: string, f: Variant -> Variant)
    requires forall i, j, k :: (0 <= i < |days| && 0 <= j < |days[i].shifts| &&
                                0 <= k < |days[i].shifts[j].variants| &&
                                days[i].id == d && days[i].shifts[j].id == s &&
                                days[i].shifts[j].variants[k].id == v
                                ==> f(days[i].shifts[j].variants[k]) == days[i].shifts[j].variants[k])
    ensures MapVariant(days, d, s, v, f) == days
  {
    var g := (sh: Shift) => sh.(variants := MapWhere(sh.variants, VariantId, v, f));
    forall i, j | 0 <= i < |days| && 0 <= j < |days[i].shifts| && days[i].id == d && days[i].shifts[j].id == s
      ensures g(days[i].shifts[j]) == days[i].shifts[j]
    {
      MapWhereUnchanged(days[i].shifts[j].variants, VariantId, v, f);
    }
    MapShiftKeeps(days, d, s, g);
  }

  /** An edit of shifts that keeps each shift's type and never empties a
      shift's variant list keeps the tree well formed. */
  lemma MapShiftWellFormed(days: seq<DayMenu>, d: string, s: string, f: Shift -> Shift)
    requires WellFormed(days)
    requires forall x: Shift :: f(x).kind == x.kind && (x.variants != [] ==> f(x).variants != [])
    ensures WellFormed(MapShift(days, d, s, f))
  {
    var r := MapShift(days, d, s, f);
    forall i | 0 <= i < |r| ensures OneShiftPerType(r[i]) {
      assert OneShiftPerType(days[i]);
    }
  }

  /** Any edit of variants keeps the tree well formed: adding or removing
      menu items and changing a variant field or an item's text never touch
      a day's date, a shift's type or the number of variants in a shift. */
  lemma MapVariantWellFormed(days: seq<DayMenu>, d: string, s: string, v: string, f: Variant -> Variant)
    requires WellFormed(days)
    ensures WellFormed(MapVariant(days, d, s, v, f))
  {
    MapShiftWellFormed(days, d, s, (sh: Shift) => sh.(variants := MapWhere(sh.variants, VariantId, v, f)));
  }

  // ---------------------------------------------------------------------
  // handleAddDate, handleRemoveDay

  /** Replays a run of `handleAddDate` calls, each with the date then picked
      and the id then drawn. */
  function AddDates(days: seq<DayMenu>, requests: seq<(string, string)>): seq<DayMenu>
    decreases |requests|
  {
    if requests == [] then days
    else AddDates(AddDate(days, requests[0].0, requests[0].1), requests[1..])
  }

  /** However many dates are added, no two day menus share a date. */
  lemma {:induction false} AddDatesKeepDatesDistinct(days: seq<DayMenu>, requests: seq<(string, string)>)
    requires DatesDistinct(days)
    ensures DatesDistinct(AddDates(days, requests))
    decreases |requests|
  {
    if requests != [] {
      AddDatesKeepDatesDistinct(AddDate(days, requests[0].0, requests[0].1), requests[1..]);
    }
  }

  /** Adding a date keeps the tree well formed. */
  lemma AddDateWellFormed(days: seq<DayMenu>, date: string, dayId: string)
    requires WellFormed(days)
    ensures WellFormed(AddDate(days, date, dayId))
  {
    var r := AddDate(days, date, dayId);
    forall i | 0 <= i < |r| ensures OneShiftPerType(r[i]) {
      if i < |days| { assert r[i] == r[..|days|][i]; }
    }
    forall i, j | 0 <= i < |r| && 0 <= j < |r[i].shifts| ensures r[i].shifts[j].variants != [] {
      assert r[i] == r[..|days|][i];
    }
  }

  /** Removing a day keeps the other days in their order: removal distributes
      over any split of the list. */
  lemma RemoveDayKeepsOrder(front: seq<DayMenu>, back: seq<DayMenu>, dayId: string)
    ensures RemoveDay(front + back, dayId) == RemoveDay(front, dayId) + RemoveDay(back, dayId)
  {
    WithoutAppend(front, back, DayId, dayId);
  }

  /** Removing a day keeps the tree well formed. */
  lemma RemoveDayWellFormed(days: seq<DayMenu>, dayId: string)
    requires WellFormed(days)
    ensures WellFormed(RemoveDay(days, dayId))
  {
    var r := RemoveDay(days, dayId);
    WithoutKeepsDistinct(days, DayId, dayId, DayDate);
    assert forall i, j :: 0 <= i < j < |r| ==> DayDate(r[i]) != DayDate(r[j]);
    forall i | 0 <= i < |r| ensures OneShiftPerType(r[i]) && forall j :: 0 <= j < |r[i].shifts| ==> r[i].shifts[j].variants != [] {
      var k :| 0 <= k < |days| && days[k] == r[i];
      assert OneShiftPerType(days[k]);
    }
  }

  // ---------------------------------------------------------------------
  // createNewShift / createNewVariant, handleAddShift

  /** A fresh shift holds exactly one variant, with no image, empty name and
      price and exactly one menu item whose text is empty; so it satisfies
      the tree's shape invariants on its own. */
  lemma NewShiftSeeded(kind: ShiftType, shiftId: string, variantId: string, itemId: string)
    ensures var sh := NewShift(kind, shiftId, variantId, itemId);
      && sh.id == shiftId && sh.kind == kind && |sh.variants| == 1
      && sh.variants[0].id == variantId && sh.variants[0].image == None
      && sh.variants[0].dishName == "" && sh.variants[0].price == ""
      && |sh.variants[0].menuItems| == 1
      && sh.variants[0].menuItems[0] == MenuItem(itemId, "")
  {
  }

  /** Adding a shift touches only the day menus with that id: the addressed
      day gets a new shift of that type unless it has one already, every
      other day reads as before, and an unknown day id changes nothing. */
  lemma AddShiftSpec(days: seq<DayMenu>, d: string, kind: ShiftType,
                     shiftId: string, variantId: string, itemId: string, d': string)
    ensures var r := AddShift(days, d, kind, shiftId, variantId, itemId);
      match LookupDay(days, d)
      case None => LookupDay(r, d) == None
      case Some(day) => LookupDay(r, d) == Some(AddShiftTo(day, kind, shiftId, variantId, itemId))
    ensures d' != d ==>
      LookupDay(AddShift(days, d, kind, shiftId, variantId, itemId), d') == LookupDay(days, d')
    ensures LookupDay(days, d) == None ==> AddShift(days, d, kind, shiftId, variantId, itemId) == days
  {
    var g := (day: DayMenu) => AddShiftTo(day, kind, shiftId, variantId, itemId);
    FindMapWhere(days, DayId, d, g, d);
    FindMapWhere(days, DayId, d, g, d');
    if LookupDay(days, d) == None {
      MapWhereUnchanged(days, DayId, d, g);
    }
  }

  /** Adding a shift keeps the tree well formed: still one shift per type in
      every day, and the new shift comes with its variant. */
  lemma AddShiftWellFormed(days: seq<DayMenu>, d: string, kind: ShiftType,
                           shiftId: string, variantId: string, itemId: string)
    requires WellFormed(days)
    ensures WellFormed(AddShift(days, d, kind, shiftId, variantId, itemId))
  {
    var r := AddShift(days, d, kind, shiftId, variantId, itemId);
    forall i | 0 <= i < |r| ensures OneShiftPerType(r[i]) {
      assert OneShiftPerType(days[i]);
    }
    forall i, j | 0 <= i < |r| && 0 <= j < |r[i].shifts| ensures r[i].shifts[j].variants != [] {
      if days[i].id == d && j < |days[i].shifts| {
        assert r[i].shifts[j] == r[i].shifts[..|days[i].shifts|][j];
      }
    }
  }

  /** A second add of the same shift type to the same day changes nothing. */
  lemma AddShiftIdempotent(days: seq<DayMenu>, d: string, kind: ShiftType,
                           shiftId: string, variantId: string, itemId: string,
                           shiftId2: string, variantId2: string, itemId2: string)
    ensures var once := AddShift(days, d, kind, shiftId, variantId, itemId);
      AddShift(once, d, kind, shiftId2, variantId2, itemId2) == once
  {
    var once := AddShift(days, d, kind, shiftId, variantId, itemId);
    MapWhereUnchanged(once, DayId, d, (day: DayMenu) => AddShiftTo(day, kind, shiftId2, variantId2, itemId2));
  }

  /** With one shift per type, a day that has a shift of some type has
      exactly one. */
  lemma OneShiftOfType(day: DayMenu, kind: ShiftType)
    requires OneShiftPerType(day) && HasShiftType(day, kind)
    ensures exists j :: (0 <= j < |day.shifts| && day.shifts[j].kind == kind &&
                         forall j' :: 0 <= j' < |day.shifts| && day.shifts[j'].kind == kind ==> j' == j)
  {
    var j :| 0 <= j < |day.shifts| && day.shifts[j].kind == kind;
  }

  /** Since there are two shift types, a day holds at most two shifts. */
  lemma AtMostTwoShifts(day: DayMenu)
    requires OneShiftPerType(day)
    ensures |day.shifts| <= 2
  {
    ThreeShiftsShareType(day.shifts);
  }

  /** Among any three shifts two have the same type. */
  lemma ThreeShiftsShareType(shifts: seq<Shift>)
    ensures |shifts| > 2 ==>
      shifts[0].kind == shifts[1].kind || shifts[1].kind == shifts[2].kind || shifts[0].kind == shifts[2].kind
  {
  }

  /** Adding lunch twice to a day of a well-formed tree leaves that day with
      exactly one lunch shift. */
  lemma AddShiftTwiceOneOfType(days: seq<DayMenu>, d: string, kind: ShiftType,
                               shiftId: string, variantId: string, itemId: string,
                               shiftId2: string, variantId2: string, itemId2: string)
    requires WellFormed(days) && LookupDay(days, d).Some?
    ensures var twice := AddShift(AddShift(days, d, kind, shiftId, variantId, itemId),
                                  d, kind, shiftId2, variantId2, itemId2);
      && LookupDay(twice, d).Some?
      && var day := LookupDay(twice, d).value;
         exists j :: 0 <= j < |day.shifts| && day.shifts[j].kind == kind &&
           forall j' :: 0 <= j' < |day.shifts| && day.shifts[j'].kind == kind ==> j' == j
  {
    var once := AddShift(days, d, kind, shiftId, variantId, itemId);
    AddShiftIdempotent(days, d, kind, shiftId, variantId, itemId, shiftId2, variantId2, itemId2);
    AddShiftSpec(days, d, kind, shiftId, variantId, itemId, d);
    AddShiftWellFormed(days, d, kind, shiftId, variantId, itemId);
    var old_day := LookupDay(days, d).value;
    assert OneShiftPerType(old_day);
    OneShiftOfType(LookupDay(once, d).value, kind);
  }

  // ---------------------------------------------------------------------
  // handleAddVariant, handleAddMenuItem, handleRemoveMenuItem

  /** Adding a variant grows exactly the addressed shift's variant list by
      one fresh variant at its end; every other shift reads as before; an
      unresolved path leaves the tree equal. */
  lemma AddVariantSpec(days: seq<DayMenu>, d: string, s: string, variantId: string, itemId: string,
                       d': string, s': string)
    ensures var r := AddVariant(days, d, s, variantId, itemId);
      match LookupShift(days, d, s)
      case None => LookupShift(r, d, s) == None
      case Some(sh) => LookupShift(r, d, s) == Some(sh.(variants := sh.variants + [NewVariant(variantId, itemId)]))
    ensures d' != d || s' != s ==>
      LookupShift(AddVariant(days, d, s, variantId, itemId), d', s') == LookupShift(days, d', s')
    ensures !ShiftExists(days, d, s) ==> AddVariant(days, d, s, variantId, itemId) == days
  {
    var f := (sh: Shift) => AppendVariant(sh, variantId, itemId);
    MapShiftLookup(days, d, s, f, d, s);
    MapShiftLookup(days, d, s, f, d', s');
    if !ShiftExists(days, d, s) {
      MapShiftKeeps(days, d, s, f);
    }
  }

  /** Adding a variant keeps every day and every shift's type; each
      addressed shift has exactly one more variant, every other shift as
      many as before. */
  lemma AddVariantShape(days: seq<DayMenu>, d: string, s: string, variantId: string, itemId: string)
    ensures var r := AddVariant(days, d, s, variantId, itemId);
      && |r| == |days|
      && (forall i :: 0 <= i < |days| ==> r[i].id == days[i].id && |r[i].shifts| == |days[i].shifts|)
      && (forall i, j :: 0 <= i < |days| && 0 <= j < |days[i].shifts| ==>
            && r[i].shifts[j].kind == days[i].shifts[j].kind
            && |r[i].shifts[j].variants| == |days[i].shifts[j].variants| +
                 (if days[i].id == d && days[i].shifts[j].id == s then 1 else 0))
  {
  }

  /** Adding a variant keeps the tree well formed. */
  lemma AddVariantWellFormed(days: seq<DayMenu>, d: string, s: string, variantId: string, itemId: string)
    requires WellFormed(days)
    ensures WellFormed(AddVariant(days, d, s, variantId, itemId))
  {
    MapShiftWellFormed(days, d, s, (sh: Shift) => AppendVariant(sh, variantId, itemId));
  }

  /** Adding a menu item grows exactly the addressed variant's item list by
      one empty item at its end; every other variant reads as before. */
  lemma AddMenuItemSpec(days: seq<DayMenu>, d: string, s: string, v: string, itemId: string,
                        d': string, s': string, v': string)
    ensures var r := AddMenuItem(days, d, s, v, itemId);
      match LookupVariant(days, d, s, v)
      case None => LookupVariant(r, d, s, v) == None
      case Some(x) => LookupVariant(r, d, s, v) == Some(x.(menuItems := x.menuItems + [MenuItem(itemId, "")]))
    ensures d' != d || s' != s || v' != v ==>
      LookupVariant(AddMenuItem(days, d, s, v, itemId), d', s', v') == LookupVariant(days, d', s', v')
  {
    var f := (x: Variant) => AppendItem(x, itemId);
    MapVariantLookup(days, d, s, v, f, d, s, v);
    MapVariantLookup(days, d, s, v, f, d', s', v');
  }

  /** Adding a menu item under a path that resolves nowhere leaves the tree equal. */
  lemma AddMenuItemAbsent(days: seq<DayMenu>, d: string, s: string, v: string, itemId: string)
    requires !VariantExists(days, d, s, v)
    ensures AddMenuItem(days, d, s, v, itemId) == days
  {
    MapVariantKeeps(days, d, s, v, (x: Variant) => AppendItem(x, itemId));
  }

  /** Removing a menu item leaves in the addressed variant exactly the items
      with another id (see DropItem); every other variant reads as before. */
  lemma RemoveMenuItemSpec(days: seq<DayMenu>, d: string, s: string, v: string, i: string,
                           d': string, s': string, v': string)
    ensures var r := RemoveMenuItem(days, d, s, v, i);
      match LookupVariant(days, d, s, v)
      case None => LookupVariant(r, d, s, v) == None
      case Some(x) => LookupVariant(r, d, s, v) == Some(DropItem(x, i))
    ensures d' != d || s' != s || v' != v ==>
      LookupVariant(RemoveMenuItem(days, d, s, v, i), d', s', v') == LookupVariant(days, d', s', v')
  {
    var f := (x: Variant) => DropItem(x, i);
    MapVariantLookup(days, d, s, v, f, d, s, v);
    MapVariantLookup(days, d, s, v, f, d', s', v');
  }

  /** Removing an item id that resolves nowhere leaves the tree equal. */
  lemma RemoveMenuItemAbsent(days: seq<DayMenu>, d: string, s: string, v: string, i: string)
    requires !ItemExists(days, d, s, v, i)
    ensures RemoveMenuItem(days, d, s, v, i) == days
  {
    MapVariantKeeps(days, d, s, v, (x: Variant) => DropItem(x, i));
  }

  /** Nothing keeps a variant's last menu item: removing it from a freshly
      seeded shift leaves that variant with no items at all. */
  lemma RemoveLastMenuItem(date: string, kind: ShiftType, shiftId: string, variantId: string, itemId: string)
    ensures var days := [DayMenu(TodayId, date, [NewShift(kind, shiftId, variantId, itemId)])];
      && WellFormed(days)
      && LookupVariant(days, TodayId, shiftId, variantId) == Some(NewVariant(variantId, itemId))
      && LookupVariant(RemoveMenuItem(days, TodayId, shiftId, variantId, itemId), TodayId, shiftId, variantId)
         == Some(NewVariant(variantId, itemId).(menuItems := []))
  {
    var days := [DayMenu(TodayId, date, [NewShift(kind, shiftId, variantId, itemId)])];
    RemoveMenuItemSpec(days, TodayId, shiftId, variantId, itemId, TodayId, shiftId, variantId);
  }

  // ---------------------------------------------------------------------
  // handleVariantChange, handleImageUpload, handleMenuItemChange

  /** Changing a variant field: the addressed variant reads back the new
      value in that field and is otherwise unchanged; every other variant
      reads as before; an unresolved path leaves the tree equal. */
  lemma ChangeVariantSpec(days: seq<DayMenu>, d: string, s: string, v: string,
                          field: VariantField, value: string, d': string, s': string, v': string)
    ensures var r := ChangeVariant(days, d, s, v, field, value);
      match LookupVariant(days, d, s, v)
      case None => LookupVariant(r, d, s, v) == None
      case Some(x) =>
        && LookupVariant(r, d, s, v).Some?
        && var y := LookupVariant(r, d, s, v).value;
           && ReadField(y, field) == Some(value)
           && (forall other :: other != field ==> ReadField(y, other) == ReadField(x, other))
           && y.id == x.id && y.menuItems == x.menuItems
    ensures d' != d || s' != s || v' != v ==>
      LookupVariant(ChangeVariant(days, d, s, v, field, value), d', s', v') == LookupVariant(days, d', s', v')
    ensures !VariantExists(days, d, s, v) ==> ChangeVariant(days, d, s, v, field, value) == days
  {
    var f := (x: Variant) => SetField(x, field, value);
    var r := ChangeVariant(days, d, s, v, field, value);
    MapVariantLookup(days, d, s, v, f, d, s, v);
    MapVariantLookup(days, d, s, v, f, d', s', v');
    match LookupVariant(days, d, s, v) {
      case None =>
      case Some(x) =>
        assert LookupVariant(r, d, s, v) == Some(SetField(x, field, value));
    }
    if !VariantExists(days, d, s, v) {
      MapVariantKeeps(days, d, s, v, f);
    }
  }

  /** Setting the price to "120" and reading the variant back yields "120". */
  lemma PriceRoundTrip(days: seq<DayMenu>, d: string, s: string, v: string)
    requires LookupVariant(days, d, s, v).Some?
    ensures var r := ChangeVariant(days, d, s, v, Price, "120");
      LookupVariant(r, d, s, v).Some? && LookupVariant(r, d, s, v).value.price == "120"
  {
    ChangeVariantSpec(days, d, s, v, Price, "120", d, s, v);
  }

  /** An uploaded image, once read as a data URL, is what the addressed
      variant's image reads back. */
  lemma UploadImageSpec(days: seq<DayMenu>, d: string, s: string, v: string, dataUrl: string)
    ensures var r := UploadImage(days, d, s, v, dataUrl);
      LookupVariant(days, d, s, v).Some? ==>
        LookupVariant(r, d, s, v).Some? && LookupVariant(r, d, s, v).value.image == Some(dataUrl)
  {
    ChangeVariantSpec(days, d, s, v, Image, dataUrl, d, s, v);
  }

  /** Changing a menu item's text: the addressed item reads back the new
      text under its own id; every other item reads as before; an unresolved
      path leaves the tree equal. */
  lemma ChangeMenuItemSpec(days: seq<DayMenu>, d: string, s: string, v: string, i: string, value: string,
                           d': string, s': string, v': string, i': string)
    ensures var r := ChangeMenuItem(days, d, s, v, i, value);
      match LookupItem(days, d, s, v, i)
      case None => LookupItem(r, d, s, v, i) == None
      case Some(m) => LookupItem(r, d, s, v, i) == Some(MenuItem(m.id, value))
    ensures d' != d || s' != s || v' != v || i' != i ==>
      LookupItem(ChangeMenuItem(days, d, s, v, i, value), d', s', v', i') == LookupItem(days, d', s', v', i')
    ensures !ItemExists(days, d, s, v, i) ==> ChangeMenuItem(days, d, s, v, i, value) == days
  {
    var f := (m: MenuItem) => m.(text := value);
    var g := (x: Variant) => x.(menuItems := MapWhere(x.menuItems, ItemId, i, f));
    MapItemLookup(days, d, s, v, i, f, d, s, v, i);
    MapItemLookup(days, d, s, v, i, f, d', s', v', i');
    if !ItemExists(days, d, s, v, i) {
      forall a, b, c | 0 <= a < |days| && 0 <= b < |days[a].shifts| && 0 <= c < |days[a].shifts[b].variants| &&
        days[a].id == d && days[a].shifts[b].id == s && days[a].shifts[b].variants[c].id == v
        ensures g(days[a].shifts[b].variants[c]) == days[a].shifts[b].variants[c]
      {
        MapWhereUnchanged(days[a].shifts[b].variants[c].menuItems, ItemId, i, f);
      }
      MapVariantKeeps(days, d, s, v, g);
    }
  }
}
