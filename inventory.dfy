/** The inventory service of internal/modules/inventory/services/service.go:
    field validation of catalog items, part-number and barcode uniqueness on
    create and update, and the item-to-submodel compatibility links. The
    repository is the in-memory state of `InventoryService`: the items table
    keyed by item id and the compatibility table keyed by its own id, each with
    the next id its sequence hands out. */
module Inventory {

  import opened Common

  datatype Item = Item(
    itemId: int,
    partNumber: string,
    description: string,
    categoryId: Option<int>,
    buyPrice: real,
    sellPrice: real,
    currentStock: int,
    minimumStock: int,
    barcode: Option<string>,
    supplierId: Option<int>,
    isActive: bool)

  /** One row of the compatibility table: item `itemId` fits submodel `submodelId`. */
  datatype Compatibility = Compatibility(compatId: int, itemId: int, submodelId: int, notes: Option<string>)

  /** The package's error sentinels, the ad-hoc validation errors, and the
      repository's "compatibility not found". */
  datatype Error =
    | ItemNotFound | DuplicatePartNumber | DuplicateBarcode
    | InvalidItemID | InvalidSubmodelID | CompatibilityExists | CompatibilityNotFound
    | PartNumberRequired | DescriptionRequired
    | BuyPriceNotPositive | SellPriceNotPositive
    | CurrentStockNegative | MinimumStockNegative

  // ---------------------------------------------------------------------------
  // Field validation

  /** The field constraints every stored item satisfies. */
  predicate FieldsValid(item: Item) {
    && item.partNumber != ""
    && item.description != ""
    && item.buyPrice > 0.0
    && item.sellPrice > 0.0
    && item.currentStock >= 0
    && item.minimumStock >= 0
  }

  /** `validateItem`: the checks run in a fixed order and the first one that
      fails is reported. */
  function ValidateItem(item: Item): (r: Outcome<Error>)
    ensures r.Pass? <==> FieldsValid(item)
    ensures r == Fail(PartNumberRequired) <==> item.partNumber == ""
    ensures r == Fail(DescriptionRequired) <==> item.partNumber != "" && item.description == ""
    ensures r == Fail(BuyPriceNotPositive) <==>
      item.partNumber != "" && item.description != "" && item.buyPrice <= 0.0
    ensures r == Fail(SellPriceNotPositive) <==>
      item.partNumber != "" && item.description != "" && item.buyPrice > 0.0 && item.sellPrice <= 0.0
    ensures r == Fail(CurrentStockNegative) <==>
      item.partNumber != "" && item.description != "" && item.buyPrice > 0.0 && item.sellPrice > 0.0
      && item.currentStock < 0
    ensures r == Fail(MinimumStockNegative) <==>
      item.partNumber != "" && item.description != "" && item.buyPrice > 0.0 && item.sellPrice > 0.0
      && item.currentStock >= 0 && item.minimumStock < 0
  {
    if item.partNumber == "" then Fail(PartNumberRequired)
    else if item.description == "" then Fail(DescriptionRequired)
    else if item.buyPrice <= 0.0 then Fail(BuyPriceNotPositive)
    else if item.sellPrice <= 0.0 then Fail(SellPriceNotPositive)
    else if item.currentStock < 0 then Fail(CurrentStockNegative)
    else if item.minimumStock < 0 then Fail(MinimumStockNegative)
    else Pass
  }

  // ---------------------------------------------------------------------------
  // Lookups on the tables (the repository's "get by ..." queries)

  /** `GetItemByPartNumber` finds a row. */
  predicate PartNumberTaken(items: map<int, Item>, pn: string) {
    exists id :: id in items && items[id].partNumber == pn
  }

  /** `GetItemByBarcode` finds a row. */
  predicate BarcodeTaken(items: map<int, Item>, bc: string) {
    exists id :: id in items && items[id].barcode == Some(bc)
  }

  /** The part number belongs to an item other than `self`. */
  predicate PartNumberHeldByOther(items: map<int, Item>, pn: string, self: int) {
    exists id :: id in items && id != self && items[id].partNumber == pn
  }

  /** The barcode belongs to an item other than `self`. */
  predicate BarcodeHeldByOther(items: map<int, Item>, bc: string, self: int) {
    exists id :: id in items && id != self && items[id].barcode == Some(bc)
  }

  /** `UpdateItem` re-checks the barcode only when one is supplied and it is
      not the one already stored. */
  predicate BarcodeChanged(stored: Item, item: Item) {
    Present(item.barcode) && (stored.barcode.None? || item.barcode.value != stored.barcode.value)
  }

  /** Some stored link joins the item to the submodel. */
  predicate Linked(links: map<int, Compatibility>, itemId: int, submodelId: int) {
    exists k :: k in links && links[k].itemId == itemId && links[k].submodelId == submodelId
  }

  /** No two rows of the compatibility table join the same item to the same submodel. */
  predicate PairsUnique(links: map<int, Compatibility>) {
    forall a, b :: a in links && b in links && a != b ==>
      !(links[a].itemId == links[b].itemId && links[a].submodelId == links[b].submodelId)
  }

  /** The repository's `GetCompatibilities`: the links of one item. */
  function LinksOfItem(links: map<int, Compatibility>, itemId: int): set<Compatibility> {
    set k | k in links && links[k].itemId == itemId :: links[k]
  }

  /** With unique pairs, an item's links name each submodel at most once. */
  lemma LinksOfItemOnePerSubmodel(links: map<int, Compatibility>, itemId: int)
    requires PairsUnique(links)
    ensures forall l1, l2 ::
      (l1 in LinksOfItem(links, itemId) && l2 in LinksOfItem(links, itemId) && l1.submodelId == l2.submodelId)
      ==> l1 == l2
  {
    forall l1, l2 | l1 in LinksOfItem(links, itemId) && l2 in LinksOfItem(links, itemId)
                    && l1.submodelId == l2.submodelId
      ensures l1 == l2
    {
      var a :| a in links && links[a].itemId == itemId && links[a] == l1;
      var b :| b in links && links[b].itemId == itemId && links[b] == l2;
      assert a == b;
    }
  }

  /** The repository's `RemoveCompatibility`: delete every row with the pair. */
  function RemovePair(links: map<int, Compatibility>, itemId: int, submodelId: int): map<int, Compatibility> {
    map k | k in links && !(links[k].itemId == itemId && links[k].submodelId == submodelId) :: links[k]
  }

  /** With unique pairs, deleting a linked pair takes out exactly one row and
      leaves the pair unlinked. */
  lemma RemovePairRemovesOne(links: map<int, Compatibility>, itemId: int, submodelId: int)
    requires PairsUnique(links) && Linked(links, itemId, submodelId)
    ensures exists k0 :: k0 in links && RemovePair(links, itemId, submodelId) == links - {k0}
    ensures |RemovePair(links, itemId, submodelId)| == |links| - 1
    ensures !Linked(RemovePair(links, itemId, submodelId), itemId, submodelId)
  {
    var k0 :| k0 in links && links[k0].itemId == itemId && links[k0].submodelId == submodelId;
    var remaining := RemovePair(links, itemId, submodelId);
    forall k | k in links && k != k0 ensures k in remaining {
      assert !(links[k].itemId == links[k0].itemId && links[k].submodelId == links[k0].submodelId);
    }
    assert remaining.Keys == links.Keys - {k0};
    assert remaining == links - {k0};
  }

  /** The rows of the repository's `GetCompatibleItems` join: active items
      linked to the submodel. */
  function CompatibleActiveItems(items: map<int, Item>, links: map<int, Compatibility>, submodelId: int): set<Item> {
    set k | k in links && links[k].submodelId == submodelId && links[k].itemId in items
                       && items[links[k].itemId].isActive :: items[links[k].itemId]
  }

  /** Adding a link under a fresh key adds to a submodel's compatible items
      exactly the linked item, when the link is for that submodel and the
      item is stored and active. */
  lemma AddLinkCompatibleItems(items: map<int, Item>, links: map<int, Compatibility>, k: int,
                               c: Compatibility, submodelId: int)
    requires k !in links
    ensures CompatibleActiveItems(items, links[k := c], submodelId) ==
      CompatibleActiveItems(items, links, submodelId)
      + (if c.submodelId == submodelId && c.itemId in items && items[c.itemId].isActive
         then {items[c.itemId]} else {})
  {
    var before := CompatibleActiveItems(items, links, submodelId);
    var after := CompatibleActiveItems(items, links[k := c], submodelId);
    forall x | x in before ensures x in after {
      var j :| j in links && links[j].submodelId == submodelId && links[j].itemId in items
               && items[links[j].itemId].isActive && items[links[j].itemId] == x;
      assert links[k := c][j] == links[j];
    }
    if c.submodelId == submodelId && c.itemId in items && items[c.itemId].isActive {
      assert links[k := c][k] == c;
    }
  }

  // ---------------------------------------------------------------------------
  // Ordering by part number

  /** Lexicographic order on strings, character by character. */
  predicate LexLe(a: string, b: string)
    decreases |a|
  {
    |a| == 0 || (|b| > 0 && (a[0] < b[0] || (a[0] == b[0] && LexLe(a[1..], b[1..]))))
  }

  lemma {:induction false} LexLeTotal(a: string, b: string)
    ensures LexLe(a, b) || LexLe(b, a)
    decreases |a|
  {
    if |a| > 0 && |b| > 0 && a[0] == b[0] {
      LexLeTotal(a[1..], b[1..]);
    }
  }

  lemma {:induction false} LexLeTransitive(a: string, b: string, c: string)
    requires LexLe(a, b) && LexLe(b, c)
    ensures LexLe(a, c)
    decreases |a|
  {
    if |a| > 0 && a[0] == b[0] && b[0] == c[0] {
      LexLeTransitive(a[1..], b[1..], c[1..]);
    }
  }

  predicate SortedByPartNumber(s: seq<Item>) {
    forall i, j :: 0 <= i < j < |s| ==> LexLe(s[i].partNumber, s[j].partNumber)
  }

  /** One step of insertion sort: `x` goes before the first row it does not follow. */
  function InsertByPartNumber(x: Item, s: seq<Item>): (r: seq<Item>)
    ensures |r| == |s| + 1
  {
    if |s| == 0 then [x]
    else if LexLe(x.partNumber, s[0].partNumber) then [x] + s
    else [s[0]] + InsertByPartNumber(x, s[1..])
  }

  /** Insertion adds exactly `x` to the rows. */
  lemma {:induction false} InsertMultiset(x: Item, s: seq<Item>)
    ensures multiset(InsertByPartNumber(x, s)) == multiset(s) + multiset{x}
  {
    if |s| > 0 && !LexLe(x.partNumber, s[0].partNumber) {
      InsertMultiset(x, s[1..]);
      assert s == [s[0]] + s[1..];
    }
  }

  /** The rows after insertion are `x` and the rows before it. */
  lemma InsertElements(x: Item, s: seq<Item>)
    ensures forall y :: y in InsertByPartNumber(x, s) <==> y == x || y in s
  {
    InsertMultiset(x, s);
    assert forall y :: y in InsertByPartNumber(x, s) <==> y in multiset(InsertByPartNumber(x, s));
  }

  /** A sorted list stays sorted when a row no greater than all of its rows
      is put in front. */
  lemma ConsSorted(a: Item, t: seq<Item>)
    requires SortedByPartNumber(t)
    requires forall j :: 0 <= j < |t| ==> LexLe(a.partNumber, t[j].partNumber)
    ensures SortedByPartNumber([a] + t)
  {
    var r := [a] + t;
    forall i, j | 0 <= i < j < |r| ensures LexLe(r[i].partNumber, r[j].partNumber) {
      if i == 0 {
        assert r[j] == t[j - 1];
      } else {
        assert r[i] == t[i - 1] && r[j] == t[j - 1];
      }
    }
  }

  lemma {:induction false} InsertSorted(x: Item, s: seq<Item>)
    requires SortedByPartNumber(s)
    ensures SortedByPartNumber(InsertByPartNumber(x, s))
  {
    if |s| == 0 {
    } else if LexLe(x.partNumber, s[0].partNumber) {
      forall j | 0 <= j < |s| ensures LexLe(x.partNumber, s[j].partNumber) {
        if j > 0 {
          LexLeTransitive(x.partNumber, s[0].partNumber, s[j].partNumber);
        }
      }
      ConsSorted(x, s);
    } else {
      LexLeTotal(x.partNumber, s[0].partNumber);
      var tail := s[1..];
      assert SortedByPartNumber(tail) by {
        forall i, j | 0 <= i < j < |tail| ensures LexLe(tail[i].partNumber, tail[j].partNumber) {
          assert tail[i] == s[i + 1] && tail[j] == s[j + 1];
        }
      }
      var t := InsertByPartNumber(x, tail);
      InsertSorted(x, tail);
      InsertElements(x, tail);
      forall j | 0 <= j < |t| ensures LexLe(s[0].partNumber, t[j].partNumber) {
        assert t[j] in t;
        if t[j] != x {
          var k :| 0 <= k < |tail| && tail[k] == t[j];
          assert s[k + 1] == t[j];
        }
      }
      ConsSorted(s[0], t);
    }
  }

  /** The rows of a set listed in part-number order, each exactly once. */
  ghost function EnumerateByPartNumber(s: set<Item>): (r: seq<Item>)
    ensures |r| == |s|
    ensures SortedByPartNumber(r)
    ensures forall x :: x in r <==> x in s
    decreases |s|
  {
    if s == {} then []
    else
      var x :| x in s;
      var rest := EnumerateByPartNumber(s - {x});
      InsertSorted(x, rest);
      InsertElements(x, rest);
      InsertByPartNumber(x, rest)
  }

  // ---------------------------------------------------------------------------
  // The service over its repository

  class InventoryService {
    var items: map<int, Item>
    var links: map<int, Compatibility>
    var nextItemId: int
    var nextCompatId: int

    /** The integrity the service maintains: ids consistent with the keys and
        below the sequences' next values, stored items pass validation, part
        numbers are unique, non-empty barcodes are unique, and no
        (item, submodel) pair is linked twice. */
    ghost predicate Valid()
      reads this
    {
      && 1 <= nextItemId && 1 <= nextCompatId
      && (forall id :: id in items ==> 0 < id < nextItemId && items[id].itemId == id && FieldsValid(items[id]))
      && (forall a, b :: a in items && b in items && a != b ==> items[a].partNumber != items[b].partNumber)
      && (forall a, b :: a in items && b in items && a != b && Present(items[a].barcode) ==>
            items[a].barcode != items[b].barcode)
      && (forall k :: k in links ==>
            0 < k < nextCompatId && links[k].compatId == k && links[k].itemId > 0 && links[k].submodelId > 0)
      && PairsUnique(links)
    }

    constructor ()
      ensures Valid()
      ensures items == map[] && links == map[]
    {
      items := map[];
      links := map[];
      nextItemId := 1;
      nextCompatId := 1;
    }

    /** `GetItemByID`. */
    function GetItemByID(id: int): (r: Result<Item, Error>)
      reads this
      requires Valid()
      ensures id <= 0 ==> r == Err(InvalidItemID)
      ensures id > 0 && id !in items ==> r == Err(ItemNotFound)
      ensures r.Ok? <==> id in items
      ensures r.Ok? ==> r.value.itemId == id && FieldsValid(r.value)
    {
      if id <= 0 then Err(InvalidItemID)
      else if id !in items then Err(ItemNotFound)
      else Ok(items[id])
    }

    /** `CreateItem`: validation, then a duplicate part number, then a
        duplicate barcode (checked only when one is supplied); otherwise the
        item is inserted under the next id and nothing else changes. */
    method CreateItem(item: Item) returns (r: Result<int, Error>)
      requires Valid()
      modifies this
      ensures Valid()
      ensures ValidateItem(item).Fail? ==> r == Err(ValidateItem(item).error)
      ensures FieldsValid(item) && PartNumberTaken(old(items), item.partNumber) ==> r == Err(DuplicatePartNumber)
      ensures (FieldsValid(item) && !PartNumberTaken(old(items), item.partNumber)
               && Present(item.barcode) && BarcodeTaken(old(items), item.barcode.value)) ==> r == Err(DuplicateBarcode)
      ensures r.Ok? <==> FieldsValid(item) && !PartNumberTaken(old(items), item.partNumber)
                         && !(Present(item.barcode) && BarcodeTaken(old(items), item.barcode.value))
      ensures r.Err? ==> unchanged(this)
      ensures r.Ok? ==> && r.value == old(nextItemId)
                        && items == old(items)[r.value := item.(itemId := r.value)]
                        && nextItemId == old(nextItemId) + 1
                        && links == old(links) && nextCompatId == old(nextCompatId)
    {
      var v := ValidateItem(item);
      if v.Fail? {
        return Err(v.error);
      }
      if PartNumberTaken(items, item.partNumber) {
        return Err(DuplicatePartNumber);
      }
      if Present(item.barcode) && BarcodeTaken(items, item.barcode.value) {
        return Err(DuplicateBarcode);
      }
      var id := nextItemId;
      items := items[id := item.(itemId := id)];
      nextItemId := nextItemId + 1;
      r := Ok(id);
    }

    /** `UpdateItem`: the id, then validation, then existence; a part number
        or barcode is re-checked only when it differs from the stored one, and
        it conflicts only with a different item. */
    method UpdateItem(item: Item) returns (r: Outcome<Error>)
      requires Valid()
      modifies this
      ensures Valid()
      ensures item.itemId <= 0 ==> r == Fail(InvalidItemID)
      ensures item.itemId > 0 && ValidateItem(item).Fail? ==> r == Fail(ValidateItem(item).error)
      ensures item.itemId > 0 && FieldsValid(item) && item.itemId !in old(items) ==> r == Fail(ItemNotFound)
      ensures r == Fail(DuplicatePartNumber) <==>
        && item.itemId > 0 && FieldsValid(item) && item.itemId in old(items)
        && item.partNumber != old(items)[item.itemId].partNumber
        && PartNumberHeldByOther(old(items), item.partNumber, item.itemId)
      ensures r == Fail(DuplicateBarcode) <==>
        && item.itemId > 0 && FieldsValid(item) && item.itemId in old(items)
        && !(item.partNumber != old(items)[item.itemId].partNumber
             && PartNumberHeldByOther(old(items), item.partNumber, item.itemId))
        && BarcodeChanged(old(items)[item.itemId], item)
        && BarcodeHeldByOther(old(items), item.barcode.value, item.itemId)
      ensures r.Pass? <==>
        && item.itemId > 0 && FieldsValid(item) && item.itemId in old(items)
        && !(item.partNumber != old(items)[item.itemId].partNumber
             && PartNumberHeldByOther(old(items), item.partNumber, item.itemId))
        && !(BarcodeChanged(old(items)[item.itemId], item)
             && BarcodeHeldByOther(old(items), item.barcode.value, item.itemId))
      ensures item.itemId in old(items) && item.partNumber == old(items)[item.itemId].partNumber ==>
        r != Fail(DuplicatePartNumber)
      ensures item.itemId in old(items) && item.barcode == old(items)[item.itemId].barcode ==>
        r != Fail(DuplicateBarcode)
      ensures r.Fail? ==> unchanged(this)
      ensures r.Pass? ==> && item.itemId in old(items)
                          && items == old(items)[item.itemId := item]
                          && links == old(links)
                          && nextItemId == old(nextItemId) && nextCompatId == old(nextCompatId)
    {
      if item.itemId <= 0 {
        return Fail(InvalidItemID);
      }
      var v := ValidateItem(item);
      if v.Fail? {
        return Fail(v.error);
      }
      if item.itemId !in items {
        return Fail(ItemNotFound);
      }
      var existing := items[item.itemId];
      if item.partNumber != existing.partNumber {
        if PartNumberHeldByOther(items, item.partNumber, item.itemId) {
          return Fail(DuplicatePartNumber);
        }
      }
      if BarcodeChanged(existing, item) {
        if BarcodeHeldByOther(items, item.barcode.value, item.itemId) {
          return Fail(DuplicateBarcode);
        }
      }
      items := items[item.itemId := item];
      r := Pass;
    }

    /** `DeleteItem`: the id, then existence; otherwise only that item goes. */
    method DeleteItem(id: int) returns (r: Outcome<Error>)
      requires Valid()
      modifies this
      ensures Valid()
      ensures id <= 0 ==> r == Fail(InvalidItemID)
      ensures id > 0 && id !in old(items) ==> r == Fail(ItemNotFound)
      ensures r.Pass? <==> id > 0 && id in old(items)
      ensures r.Fail? ==> unchanged(this)
      ensures r.Pass? ==> && items == old(items) - {id}
                          && links == old(links)
                          && nextItemId == old(nextItemId) && nextCompatId == old(nextCompatId)
      ensures r.Pass? ==> forall sub, x :: x in CompatibleActiveItems(items, links, sub) ==> x.itemId != id
    {
      if id <= 0 {
        return Fail(InvalidItemID);
      }
      if id !in items {
        return Fail(ItemNotFound);
      }
      items := items - {id};
      r := Pass;
    }

    /** `GetCompatibilities`: the item id is checked, the item's existence is not. */
    function GetCompatibilities(itemId: int): (r: Result<set<Compatibility>, Error>)
      reads this
      ensures itemId <= 0 ==> r == Err(InvalidItemID)
      ensures itemId > 0 ==> r.Ok?
      ensures r.Ok? ==> forall k :: k in links && links[k].itemId == itemId ==> links[k] in r.value
      ensures r.Ok? ==> forall l :: l in r.value ==> l.itemId == itemId && exists k :: k in links && links[k] == l
    {
      if itemId <= 0 then Err(InvalidItemID) else Ok(LinksOfItem(links, itemId))
    }

    /** `AddCompatibility`: the item id, the submodel id, the item's existence,
        then a scan of the item's links for the same submodel; otherwise
        exactly one link is added. The submodel's existence is not checked. */
    method AddCompatibility(c: Compatibility) returns (r: Result<int, Error>)
      requires Valid()
      modifies this
      ensures Valid()
      ensures c.itemId <= 0 ==> r == Err(InvalidItemID)
      ensures c.itemId > 0 && c.submodelId <= 0 ==> r == Err(InvalidSubmodelID)
      ensures c.itemId > 0 && c.submodelId > 0 && c.itemId !in old(items) ==> r == Err(ItemNotFound)
      ensures (c.itemId > 0 && c.submodelId > 0 && c.itemId in old(items)
               && Linked(old(links), c.itemId, c.submodelId)) ==> r == Err(CompatibilityExists)
      ensures r.Ok? <==> c.itemId > 0 && c.submodelId > 0 && c.itemId in old(items)
                         && !Linked(old(links), c.itemId, c.submodelId)
      ensures r.Err? ==> unchanged(this)
      ensures r.Ok? ==> && r.value == old(nextCompatId)
                        && links == old(links)[r.value := c.(compatId := r.value)]
                        && nextCompatId == old(nextCompatId) + 1
                        && items == old(items) && nextItemId == old(nextItemId)
    {
      if c.itemId <= 0 {
        return Err(InvalidItemID);
      }
      if c.submodelId <= 0 {
        return Err(InvalidSubmodelID);
      }
      if c.itemId !in items {
        return Err(ItemNotFound);
      }
      var existing := LinksOfItem(links, c.itemId);
      var remaining := existing;
      while remaining != {}
        invariant remaining <= existing
        invariant forall l :: l in existing - remaining ==> l.submodelId != c.submodelId
        decreases |remaining|
      {
        var l :| l in remaining;
        if l.submodelId == c.submodelId {
          return Err(CompatibilityExists);
        }
        remaining := remaining - {l};
      }
      assert !Linked(links, c.itemId, c.submodelId) by {
        forall k | k in links && links[k].itemId == c.itemId
          ensures links[k].submodelId != c.submodelId
        {
          assert links[k] in existing;
        }
      }
      var id := nextCompatId;
      links := links[id := c.(compatId := id)];
      nextCompatId := nextCompatId + 1;
      r := Ok(id);
    }

    /** `RemoveCompatibility`: both ids are checked before the store is
        touched; the repository then deletes the pair's row, or reports
        that there is none. */
    method RemoveCompatibility(itemId: int, submodelId: int) returns (r: Outcome<Error>)
      requires Valid()
      modifies this
      ensures Valid()
      ensures itemId <= 0 ==> r == Fail(InvalidItemID)
      ensures itemId > 0 && submodelId <= 0 ==> r == Fail(InvalidSubmodelID)
      ensures itemId > 0 && submodelId > 0 && !Linked(old(links), itemId, submodelId) ==> r == Fail(CompatibilityNotFound)
      ensures r.Pass? <==> itemId > 0 && submodelId > 0 && Linked(old(links), itemId, submodelId)
      ensures r.Fail? ==> unchanged(this)
      ensures r.Pass? ==> && links == RemovePair(old(links), itemId, submodelId)
                          && |links| == |old(links)| - 1
                          && !Linked(links, itemId, submodelId)
                          && items == old(items)
                          && nextItemId == old(nextItemId) && nextCompatId == old(nextCompatId)
    {
      if itemId <= 0 {
        return Fail(InvalidItemID);
      }
      if submodelId <= 0 {
        return Fail(InvalidSubmodelID);
      }
      if !Linked(links, itemId, submodelId) {
        return Fail(CompatibilityNotFound);
      }
      RemovePairRemovesOne(links, itemId, submodelId);
      links := RemovePair(links, itemId, submodelId);
      r := Pass;
    }

    /** `GetCompatibleItems`: the submodel id is checked; the result lists the
        active items linked to the submodel, each once, in part-number order. */
    ghost function GetCompatibleItems(submodelId: int): (r: Result<seq<Item>, Error>)
      reads this
      ensures submodelId <= 0 ==> r == Err(InvalidSubmodelID)
      ensures submodelId > 0 ==> r.Ok?
      ensures r.Ok? ==> SortedByPartNumber(r.value)
      ensures r.Ok? ==> forall x :: x in r.value <==>
        x.isActive && exists k :: k in links && links[k].submodelId == submodelId
                                  && links[k].itemId in items && items[links[k].itemId] == x
      ensures r.Ok? ==> |r.value| == |CompatibleActiveItems(items, links, submodelId)|
    {
      if submodelId <= 0 then Err(InvalidSubmodelID)
      else Ok(EnumerateByPartNumber(CompatibleActiveItems(items, links, submodelId)))
    }
  }
}
