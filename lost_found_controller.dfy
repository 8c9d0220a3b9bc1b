/**
 * The lost-and-found board: any signed-in user reports an item, the board lists the items still
 * open, and the reporter or an admin marks an item claimed.
 */
module LostFoundController {
  import opened Optional
  import opened Http
  import opened Listing
  import opened Db

  const OpenStatus := "Open"
  const ClaimedStatus := "Claimed"

  /** The request body; `contact_info` may be omitted (the column is nullable). */
  datatype ItemForm = ItemForm(title: string, description: string, category: string, contactInfo: Option<string>)

  /** `category IN ('Lost', 'Found')`, the table's CHECK constraint on the category. */
  predicate KnownCategory(category: string) {
    category == "Lost" || category == "Found"
  }

  /** The form's title and contact information fit their `VARCHAR(255)` columns as given. */
  predicate FitsColumns(form: ItemForm) {
    |form.title| <= ItemTextWidth && (form.contactInfo.Some? ==> |form.contactInfo.value| <= ItemTextWidth)
  }

  /**
   * The form as the table stores it: a title or contact information longer than 255 characters is
   * refused (None), unless the excess is only spaces, which are cut off.
   */
  function StoredForm(form: ItemForm): (r: Option<ItemForm>)
    ensures FitsColumns(form) ==> r == Some(form)
    ensures r.None? <==>
              Varchar(form.title, ItemTextWidth).None? ||
              (form.contactInfo.Some? && Varchar(form.contactInfo.value, ItemTextWidth).None?)
    ensures r.Some? ==>
              && FitsColumns(r.value)
              && Some(r.value.title) == Varchar(form.title, ItemTextWidth)
              && r.value.description == form.description && r.value.category == form.category
              && (form.contactInfo.None? ==> r.value.contactInfo.None?)
              && (form.contactInfo.Some? ==> r.value.contactInfo == Varchar(form.contactInfo.value, ItemTextWidth))
  {
    match Varchar(form.title, ItemTextWidth)
    case None => None
    case Some(title) =>
      if form.contactInfo.None? then Some(form.(title := title))
      else match Varchar(form.contactInfo.value, ItemTextWidth)
        case None => None
        case Some(contact) => Some(form.(title := title, contactInfo := Some(contact)))
  }

  /** A title running past 255 characters with anything but spaces beyond the limit is refused. */
  lemma OverlongTitleRefused(form: ItemForm)
    requires |form.title| > ItemTextWidth && form.title[ItemTextWidth] != ' '
    ensures StoredForm(form).None?
  {
  }

  /** The row the insert adds: the caller as reporter and the column default status "Open". */
  function NewItem(id: nat, userId: nat, form: ItemForm): (it: Item)
    ensures it.id == id && it.userId == userId && it.status == OpenStatus
    ensures it.title == form.title && it.description == form.description
    ensures it.category == form.category && it.contactInfo == form.contactInfo
    ensures ItemChecked(it) <==> KnownCategory(form.category) && FitsColumns(form)
  {
    Item(id, userId, form.title, form.description, form.category, form.contactInfo, OpenStatus)
  }

  /**
   * `createItem`. The database refuses a category other than "Lost" or "Found" (CHECK), a title or
   * contact information too long for its column, and a reporter with no user row (the foreign key);
   * the handler then answers 500 "Failed to report item" with nothing inserted. Otherwise one open
   * item, as the columns store it, is appended and returned with 201.
   */
  method CreateItem(db: Database, caller: Identity, form: ItemForm) returns (r: Result<Item>)
    requires db.Valid()
    modifies db`items
    ensures db.Valid()
    ensures !KnownCategory(form.category) || StoredForm(form).None? || UserById(db.users, caller.id).None? ==>
              r == Err(InternalError, "Failed to report item") && db.items == old(db.items)
    ensures KnownCategory(form.category) && StoredForm(form).Some? && UserById(db.users, caller.id).Some? ==>
              var it := NewItem(|old(db.items)| + 1, caller.id, StoredForm(form).value);
              r == Ok(Created, it) && db.items == old(db.items) + [it]
  {
    var stored := StoredForm(form);
    if !KnownCategory(form.category) || stored.None? || UserById(db.users, caller.id).None? {
      r := Err(InternalError, "Failed to report item");
      return;
    }
    var it := NewItem(|db.items| + 1, caller.id, stored.value);
    db.items := db.items + [it];
    r := Ok(Created, it);
  }

  /** An item row with `u.name as reported_by`. */
  datatype ItemView = ItemView(item: Item, reportedBy: string)

  function OnBoard(users: seq<User>): Item -> bool {
    (it: Item) => it.status == OpenStatus && UserById(users, it.userId).Some?
  }

  /** The rows of `getAllItems`: open items whose reporter has a user row (inner join), newest first. */
  function OpenItems(users: seq<User>, items: seq<Item>): (rows: seq<Item>)
    requires Increasing(items, ItemId)
    ensures forall it :: it in rows <==> it in items && it.status == OpenStatus && UserById(users, it.userId).Some?
    ensures Decreasing(rows, ItemId)
  {
    NewestFirst(items, OnBoard(users), ItemId)
  }

  /** `getAllItems`: the open items, each with its reporter's name. */
  function GetAllItems(users: seq<User>, items: seq<Item>): (r: seq<ItemView>)
    requires Increasing(items, ItemId)
    ensures |r| == |OpenItems(users, items)|
    ensures forall k :: 0 <= k < |r| ==>
              var it := OpenItems(users, items)[k];
              UserById(users, it.userId).Some? && r[k] == ItemView(it, UserById(users, it.userId).value.name)
  {
    var rows := OpenItems(users, items);
    forall k | 0 <= k < |rows| ensures UserById(users, rows[k].userId).Some? {
      assert rows[k] in rows;
    }
    seq(|rows|, k requires 0 <= k < |rows| => ItemView(rows[k], UserById(users, rows[k].userId).value.name))
  }

  /** Only the reporter or an admin may mark an item claimed. */
  function MayClaim(caller: Identity, it: Item): (may: bool)
    ensures caller.role == AdminRole ==> may
    ensures caller.role != AdminRole ==> (may <==> it.userId == caller.id)
  {
    it.userId == caller.id || caller.role == AdminRole
  }

  /** `SET status = 'Claimed'`: every other column stays. */
  function Claimed(it: Item): (r: Item)
    ensures r.status == ClaimedStatus && r.(status := it.status) == it
  {
    it.(status := ClaimedStatus)
  }

  /**
   * `markAsClaimed`: an unknown id is 404 "Item not found"; someone who is neither the reporter
   * nor an admin gets 403 "Unauthorized to modify this item"; in both cases nothing changes.
   * Otherwise the item becomes "Claimed" (again, if it already was) and is returned with 200.
   */
  method MarkAsClaimed(db: Database, caller: Identity, id: int) returns (r: Result<Item>)
    requires db.Valid()
    modifies db`items
    ensures db.Valid()
    ensures !(1 <= id <= |old(db.items)|) ==> r == Err(NotFound, "Item not found") && db.items == old(db.items)
    ensures 1 <= id <= |old(db.items)| && !MayClaim(caller, old(db.items)[id - 1]) ==>
              r == Err(Forbidden, "Unauthorized to modify this item") && db.items == old(db.items)
    ensures 1 <= id <= |old(db.items)| && MayClaim(caller, old(db.items)[id - 1]) ==>
              var row := Claimed(old(db.items)[id - 1]);
              r == Ok(OK, row) && db.items == old(db.items)[id - 1 := row]
  {
    FindSerial(db.items, ItemId, id);
    var check := Find(db.items, KeyIs(ItemId, id));
    if check.None? {
      r := Err(NotFound, "Item not found");
      return;
    }
    var it := check.value;
    if !MayClaim(caller, it) {
      r := Err(Forbidden, "Unauthorized to modify this item");
      return;
    }
    UpdateSerial(db.items, ItemId, id, Claimed);
    db.items := UpdateWhere(db.items, KeyIs(ItemId, id), Claimed);
    r := Ok(OK, Claimed(it));
  }

  /** Once claimed, an item is gone from the board, and the board otherwise keeps its rows. */
  lemma {:induction false} ClaimedLeavesBoard(users: seq<User>, items: seq<Item>, k: nat)
    requires Increasing(items, ItemId) && k < |items|
    ensures Increasing(items[k := Claimed(items[k])], ItemId)
    ensures items[k] !in OpenItems(users, items[k := Claimed(items[k])])
    ensures forall it :: it in OpenItems(users, items) && it.id != items[k].id ==>
              it in OpenItems(users, items[k := Claimed(items[k])])
  {
    var after := items[k := Claimed(items[k])];
    assert Increasing(after, ItemId) by {
      forall i, j | 0 <= i < j < |after| ensures ItemId(after[i]) < ItemId(after[j]) {
        assert ItemId(after[i]) == ItemId(items[i]) && ItemId(after[j]) == ItemId(items[j]);
      }
    }
    forall it | it in OpenItems(users, items) && it.id != items[k].id ensures it in OpenItems(users, after) {
      var i :| 0 <= i < |items| && items[i] == it;
      assert after[i] == it;
    }
  }

  /** Claiming twice leaves the row as claiming once. */
  lemma ClaimTwice(it: Item)
    ensures Claimed(Claimed(it)) == Claimed(it)
  {
  }
}
