/** The menu editor component's state (app/admin/dashboard/menu/page.tsx):
    the tree of day menus, the date picked in the date input and the shift
    type picked in the shift select. Each handler replaces these fields the
    way the component's state setters do. */
module MenuEditor {
  import opened SeqEdit
  import opened MenuTree
  import opened MenuProps

  class Editor {
    var days: seq<DayMenu>
    /** The date input's value; "" when nothing is picked. */
    var selectedDate: string
    /** The shift select's value; None stands for "". */
    var selectedShift: Option<ShiftType>

    ghost predicate Valid()
      reads this
    {
      WellFormed(days)
    }

    /** The component's initial state; `today` is the current date, which the
        page reads from the clock. */
    constructor (today: string)
      ensures Valid()
      ensures days == InitialDays(today) && selectedDate == "" && selectedShift == None
    {
      days := InitialDays(today);
      selectedDate := "";
      selectedShift := None;
    }

    /** The date input's `onChange`. */
    method PickDate(date: string)
      modifies this
      ensures days == old(days) && selectedShift == old(selectedShift)
      ensures selectedDate == date
    {
      selectedDate := date;
    }

    /** The shift select's `onValueChange`. */
    method PickShift(kind: ShiftType)
      modifies this
      ensures days == old(days) && selectedDate == old(selectedDate)
      ensures selectedShift == Some(kind)
    {
      selectedShift := Some(kind);
    }

    /** `handleAddDate`; `dayId` is the id the page draws at random. The
        picked date is cleared only when a day was added. */
    method AddDate(dayId: string)
      requires Valid()
      modifies this
      ensures Valid()
      ensures days == MenuTree.AddDate(old(days), old(selectedDate), dayId)
      ensures selectedDate == if |days| == |old(days)| + 1 then "" else old(selectedDate)
      ensures selectedShift == old(selectedShift)
    {
      if selectedDate == "" || HasDate(days, selectedDate) {
        return;
      }
      AddDateWellFormed(days, selectedDate, dayId);
      days := days + [DayMenu(dayId, selectedDate, [])];
      selectedDate := "";
    }

    /** `handleRemoveDay` */
    method RemoveDay(dayId: string)
      requires Valid()
      modifies this
      ensures Valid()
      ensures days == MenuTree.RemoveDay(old(days), dayId)
      ensures selectedDate == old(selectedDate) && selectedShift == old(selectedShift)
    {
      RemoveDayWellFormed(days, dayId);
      days := MenuTree.RemoveDay(days, dayId);
    }

    /** `handleAddShift`; the three ids are those `createNewShift` draws. With
        no shift type picked nothing happens; otherwise the pick is cleared
        whether or not a shift was added. */
    method AddShift(dayId: string, shiftId: string, variantId: string, itemId: string)
      requires Valid()
      modifies this
      ensures Valid()
      ensures days == match old(selectedShift)
                      case None => old(days)
                      case Some(kind) => MenuTree.AddShift(old(days), dayId, kind, shiftId, variantId, itemId)
      ensures selectedShift == None
      ensures selectedDate == old(selectedDate)
    {
      if selectedShift == None {
        return;
      }
      AddShiftWellFormed(days, dayId, selectedShift.value, shiftId, variantId, itemId);
      days := MenuTree.AddShift(days, dayId, selectedShift.value, shiftId, variantId, itemId);
      selectedShift := None;
    }

    /** `handleAddVariant` */
    method AddVariant(dayId: string, shiftId: string, variantId: string, itemId: string)
      requires Valid()
      modifies this
      ensures Valid()
      ensures days == MenuTree.AddVariant(old(days), dayId, shiftId, variantId, itemId)
      ensures selectedDate == old(selectedDate) && selectedShift == old(selectedShift)
    {
      AddVariantWellFormed(days, dayId, shiftId, variantId, itemId);
      days := MenuTree.AddVariant(days, dayId, shiftId, variantId, itemId);
    }

    /** `handleAddMenuItem` */
    method AddMenuItem(dayId: string, shiftId: string, variantId: string, itemId: string)
      requires Valid()
      modifies this
      ensures Valid()
      ensures days == MenuTree.AddMenuItem(old(days), dayId, shiftId, variantId, itemId)
      ensures selectedDate == old(selectedDate) && selectedShift == old(selectedShift)
    {
      MapVariantWellFormed(days, dayId, shiftId, variantId, (v: Variant) => AppendItem(v, itemId));
      days := MenuTree.AddMenuItem(days, dayId, shiftId, variantId, itemId);
    }

    /** `handleRemoveMenuItem` */
    method RemoveMenuItem(dayId: string, shiftId: string, variantId: string, itemId: string)
      requires Valid()
      modifies this
      ensures Valid()
      ensures days == MenuTree.RemoveMenuItem(old(days), dayId, shiftId, variantId, itemId)
      ensures selectedDate == old(selectedDate) && selectedShift == old(selectedShift)
    {
      MapVariantWellFormed(days, dayId, shiftId, variantId, (v: Variant) => DropItem(v, itemId));
      days := MenuTree.RemoveMenuItem(days, dayId, shiftId, variantId, itemId);
    }

    /** `handleVariantChange` */
    method ChangeVariant(dayId: string, shiftId: string, variantId: string, field: VariantField, value: string)
      requires Valid()
      modifies this
      ensures Valid()
      ensures days == MenuTree.ChangeVariant(old(days), dayId, shiftId, variantId, field, value)
      ensures selectedDate == old(selectedDate) && selectedShift == old(selectedShift)
    {
      MapVariantWellFormed(days, dayId, shiftId, variantId, (v: Variant) => SetField(v, field, value));
      days := MenuTree.ChangeVariant(days, dayId, shiftId, variantId, field, value);
    }

    /** `handleImageUpload` once the file has been read as the data URL `dataUrl`. */
    method UploadImage(dayId: string, shiftId: string, variantId: string, dataUrl: string)
      requires Valid()
      modifies this
      ensures Valid()
      ensures days == MenuTree.UploadImage(old(days), dayId, shiftId, variantId, dataUrl)
      ensures selectedDate == old(selectedDate) && selectedShift == old(selectedShift)
    {
      ChangeVariant(dayId, shiftId, variantId, Image, dataUrl);
    }

    /** `handleMenuItemChange` */
    method ChangeMenuItem(dayId: string, shiftId: string, variantId: string, itemId: string, value: string)
      requires Valid()
      modifies this
      ensures Valid()
      ensures days == MenuTree.ChangeMenuItem(old(days), dayId, shiftId, variantId, itemId, value)
      ensures selectedDate == old(selectedDate) && selectedShift == old(selectedShift)
    {
      MapVariantWellFormed(days, dayId, shiftId, variantId,
        (v: Variant) => v.(menuItems := MapWhere(v.menuItems, ItemId, itemId, (m: MenuItem) => m.(text := value))));
      days := MenuTree.ChangeMenuItem(days, dayId, shiftId, variantId, itemId, value);
    }
  }
}
