/** The purchase service of internal/modules/purchases/services/service.go:
    field validation against the clock, uniqueness of a supplied invoice
    number, and the date and total-cost defaults that `Create` and `Update`
    write back into the caller's purchase. The purchase table is the
    in-memory state of `PurchaseService`; the caller's `*Purchase` is a
    `PurchaseRef`. */
module Purchases {

  import opened Common

  datatype Purchase = Purchase(
    purchaseId: int,
    supplierId: int,
    itemId: int,
    quantity: int,
    costPerUnit: real,
    totalCost: real,
    date: Date,
    invoiceNumber: Option<string>)

  datatype Error =
    | PurchaseNotFound
    | InvalidPurchaseID
    | InvalidSupplierID
    | InvalidItemID
    | InvalidQuantity
    | InvalidCostPerUnit
    | DuplicateInvoiceNumber
    | InvalidDate

  /** The caller's `*Purchase`, which `Create` and `Update` modify in place. */
  class PurchaseRef {
    var purchase: Purchase

    constructor (p: Purchase)
      ensures purchase == p
    {
      purchase := p;
    }
  }

  /** The numeric field constraints of `validatePurchase`. */
  predicate AmountsValid(p: Purchase) {
    p.supplierId > 0 && p.itemId > 0 && p.quantity > 0 && p.costPerUnit > 0.0
  }

  /** `validatePurchase` with the clock reading `now`: the checks run in
      order and the first failing one is reported; a zero date is accepted. */
  function ValidatePurchase(p: Purchase, now: int): (r: Outcome<Error>)
    ensures r.Pass? <==> AmountsValid(p) && !IsAfter(p.date, now)
    ensures r == Fail(InvalidSupplierID) <==> p.supplierId <= 0
    ensures r == Fail(InvalidItemID) <==> p.supplierId > 0 && p.itemId <= 0
    ensures r == Fail(InvalidQuantity) <==> p.supplierId > 0 && p.itemId > 0 && p.quantity <= 0
    ensures r == Fail(InvalidCostPerUnit) <==>
      p.supplierId > 0 && p.itemId > 0 && p.quantity > 0 && p.costPerUnit <= 0.0
    ensures r == Fail(InvalidDate) <==> AmountsValid(p) && IsAfter(p.date, now)
  {
    if p.supplierId <= 0 then Fail(InvalidSupplierID)
    else if p.itemId <= 0 then Fail(InvalidItemID)
    else if p.quantity <= 0 then Fail(InvalidQuantity)
    else if p.costPerUnit <= 0.0 then Fail(InvalidCostPerUnit)
    else if IsAfter(p.date, now) then Fail(InvalidDate)
    else Pass
  }

  /** `float64(Quantity) * CostPerUnit`, on reals. */
  function PurchaseTotal(p: Purchase): real {
    p.quantity as real * p.costPerUnit
  }

  /** The defaults `Create` fills in: a zero date becomes `now` and a zero
      total cost becomes quantity times unit cost; everything else is kept. */
  function WithDefaults(p: Purchase, now: int): (r: Purchase)
    ensures r.date.At?
    ensures p.date.At? ==> r.date == p.date
    ensures p.date.ZeroDate? ==> r.date == At(now)
    ensures p.totalCost != 0.0 ==> r.totalCost == p.totalCost
    ensures p.totalCost == 0.0 ==> r.totalCost == PurchaseTotal(p)
    ensures r.(date := p.date, totalCost := p.totalCost) == p
  {
    var dated := if p.date.ZeroDate? then p.(date := At(now)) else p;
    if dated.totalCost == 0.0 then dated.(totalCost := PurchaseTotal(dated)) else dated
  }

  /** A purchase that passes validation has a positive computed total. */
  lemma ValidPurchaseTotalPositive(p: Purchase, now: int)
    requires ValidatePurchase(p, now).Pass?
    ensures PurchaseTotal(p) > 0.0
  {
    assert p.quantity as real >= 1.0;
    assert p.quantity as real * p.costPerUnit >= 1.0 * p.costPerUnit;
  }

  /** Filling in the defaults keeps a valid purchase valid and leaves it with
      a non-zero total cost. */
  lemma DefaultsKeepValidity(p: Purchase, now: int)
    requires ValidatePurchase(p, now).Pass?
    ensures ValidatePurchase(WithDefaults(p, now), now).Pass?
    ensures WithDefaults(p, now).totalCost != 0.0
  {
    if p.totalCost == 0.0 {
      ValidPurchaseTotalPositive(p, now);
    }
  }

  /** Filling in the defaults twice changes nothing more. */
  lemma DefaultsIdempotent(p: Purchase, now: int, later: int)
    requires ValidatePurchase(p, now).Pass?
    ensures WithDefaults(WithDefaults(p, now), later) == WithDefaults(p, now)
  {
    DefaultsKeepValidity(p, now);
  }

  /** `GetByInvoiceNumber` finds a row. */
  predicate InvoiceHeld(purchases: map<int, Purchase>, invoice: string) {
    exists id :: id in purchases && purchases[id].invoiceNumber == Some(invoice)
  }

  /** A purchase other than `self` carries this invoice number. */
  predicate InvoiceHeldByOther(purchases: map<int, Purchase>, invoice: string, self: int) {
    exists id :: id in purchases && id != self && purchases[id].invoiceNumber == Some(invoice)
  }

  /** `Update` looks the invoice up when the new one is supplied and either
      none was stored or it differs from the stored one. */
  predicate InvoiceRecheck(stored: Option<string>, given: Option<string>) {
    Present(given) && (stored.None? || given.value != stored.value)
  }

  class PurchaseService {
    var purchases: map<int, Purchase>
    var nextPurchaseId: int

    /** Ids match their keys and lie below the sequence's next value, stored
        purchases satisfy the numeric constraints, and no two purchases share
        a supplied, non-empty invoice number. */
    ghost predicate Valid()
      reads this
    {
      && 1 <= nextPurchaseId
      && (forall id :: id in purchases ==>
            0 < id < nextPurchaseId && purchases[id].purchaseId == id && AmountsValid(purchases[id]))
      && (forall a, b ::
            (a in purchases && b in purchases && Present(purchases[a].invoiceNumber)
             && purchases[a].invoiceNumber == purchases[b].invoiceNumber) ==> a == b)
    }

    constructor ()
      ensures Valid()
      ensures purchases == map[]
    {
      purchases := map[];
      nextPurchaseId := 1;
    }

    /** `GetByID`. */
    function GetByID(id: int): (r: Result<Purchase, Error>)
      reads this
      requires Valid()
      ensures id <= 0 ==> r == Err(InvalidPurchaseID)
      ensures id > 0 && id !in purchases ==> r == Err(PurchaseNotFound)
      ensures r.Ok? <==> id in purchases
      ensures r.Ok? ==> r.value.purchaseId == id && AmountsValid(r.value)
    {
      if id <= 0 then Err(InvalidPurchaseID)
      else if id !in purchases then Err(PurchaseNotFound)
      else Ok(purchases[id])
    }

    /** `Create` at clock reading `now`: validation, uniqueness of a supplied
        non-empty invoice number, then the defaults are written into the
        caller's purchase and it is stored under the next id. */
    method Create(ref: PurchaseRef, now: int) returns (r: Result<int, Error>)
      requires Valid()
      modifies this, ref
      ensures Valid()
      ensures ValidatePurchase(old(ref.purchase), now).Fail? ==>
        r == Err(ValidatePurchase(old(ref.purchase), now).error)
      ensures r == Err(DuplicateInvoiceNumber) <==>
        && ValidatePurchase(old(ref.purchase), now).Pass?
        && Present(old(ref.purchase).invoiceNumber)
        && InvoiceHeld(old(purchases), old(ref.purchase).invoiceNumber.value)
      ensures r.Ok? <==>
        && ValidatePurchase(old(ref.purchase), now).Pass?
        && (!Present(old(ref.purchase).invoiceNumber) || !InvoiceHeld(old(purchases), old(ref.purchase).invoiceNumber.value))
      ensures r.Err? ==> unchanged(this) && unchanged(ref)
      ensures r.Ok? ==> && r.value == old(nextPurchaseId)
                        && ref.purchase == WithDefaults(old(ref.purchase), now)
                        && purchases == old(purchases)[r.value := ref.purchase.(purchaseId := r.value)]
                        && nextPurchaseId == old(nextPurchaseId) + 1
    {
      var v := ValidatePurchase(ref.purchase, now);
      if v.Fail? {
        return Err(v.error);
      }
      if ref.purchase.invoiceNumber.Some? && ref.purchase.invoiceNumber.value != "" {
        if InvoiceHeld(purchases, ref.purchase.invoiceNumber.value) {
          return Err(DuplicateInvoiceNumber);
        }
      }
      if ref.purchase.date.ZeroDate? {
        ref.purchase := ref.purchase.(date := At(now));
      }
      if ref.purchase.totalCost == 0.0 {
        ref.purchase := ref.purchase.(totalCost := PurchaseTotal(ref.purchase));
      }
      var id := nextPurchaseId;
      purchases := purchases[id := ref.purchase.(purchaseId := id)];
      nextPurchaseId := nextPurchaseId + 1;
      r := Ok(id);
    }

    /** `Update` at clock reading `now`: the id, validation, existence; a
        supplied invoice that is new or changed conflicts when a different
        purchase holds it; then the total cost is recomputed, written into
        the caller's purchase, and the row replaced. */
    method Update(ref: PurchaseRef, now: int) returns (r: Outcome<Error>)
      requires Valid()
      modifies this, ref
      ensures Valid()
      ensures old(ref.purchase).purchaseId <= 0 ==> r == Fail(InvalidPurchaseID)
      ensures old(ref.purchase).purchaseId > 0 && ValidatePurchase(old(ref.purchase), now).Fail? ==>
        r == Fail(ValidatePurchase(old(ref.purchase), now).error)
      ensures old(ref.purchase).purchaseId > 0 && ValidatePurchase(old(ref.purchase), now).Pass?
              && old(ref.purchase).purchaseId !in old(purchases) ==>
        r == Fail(PurchaseNotFound)
      ensures r == Fail(DuplicateInvoiceNumber) <==>
        && old(ref.purchase).purchaseId > 0 && ValidatePurchase(old(ref.purchase), now).Pass?
        && old(ref.purchase).purchaseId in old(purchases)
        && InvoiceRecheck(old(purchases)[old(ref.purchase).purchaseId].invoiceNumber, old(ref.purchase).invoiceNumber)
        && InvoiceHeldByOther(old(purchases), old(ref.purchase).invoiceNumber.value, old(ref.purchase).purchaseId)
      ensures old(ref.purchase).purchaseId in old(purchases)
              && old(purchases)[old(ref.purchase).purchaseId].invoiceNumber == old(ref.purchase).invoiceNumber ==>
        r != Fail(DuplicateInvoiceNumber)
      ensures !Present(old(ref.purchase).invoiceNumber) ==> r != Fail(DuplicateInvoiceNumber)
      ensures r.Pass? <==>
        && old(ref.purchase).purchaseId > 0 && ValidatePurchase(old(ref.purchase), now).Pass?
        && old(ref.purchase).purchaseId in old(purchases)
        && !(InvoiceRecheck(old(purchases)[old(ref.purchase).purchaseId].invoiceNumber, old(ref.purchase).invoiceNumber)
             && InvoiceHeldByOther(old(purchases), old(ref.purchase).invoiceNumber.value, old(ref.purchase).purchaseId))
      ensures r.Fail? ==> unchanged(this) && unchanged(ref)
      ensures r.Pass? ==> && ref.purchase == old(ref.purchase).(totalCost := PurchaseTotal(old(ref.purchase)))
                          && purchases == old(purchases)[ref.purchase.purchaseId := ref.purchase]
                          && nextPurchaseId == old(nextPurchaseId)
    {
      var p := ref.purchase;
      if p.purchaseId <= 0 {
        return Fail(InvalidPurchaseID);
      }
      var v := ValidatePurchase(p, now);
      if v.Fail? {
        return Fail(v.error);
      }
      if p.purchaseId !in purchases {
        return Fail(PurchaseNotFound);
      }
      var existing := purchases[p.purchaseId];
      if p.invoiceNumber.Some? && p.invoiceNumber.value != ""
         && (existing.invoiceNumber.None? || p.invoiceNumber.value != existing.invoiceNumber.value)
      {
        // The stored row of this purchase has no such invoice, so any row
        // the lookup finds belongs to a different purchase.
        if InvoiceHeldByOther(purchases, p.invoiceNumber.value, p.purchaseId) {
          return Fail(DuplicateInvoiceNumber);
        }
      }
      ref.purchase := p.(totalCost := PurchaseTotal(p));
      purchases := purchases[p.purchaseId := ref.purchase];
      r := Pass;
    }

    /** `Delete`: the id, existence, then removal of that purchase alone. */
    method Delete(id: int) returns (r: Outcome<Error>)
      requires Valid()
      modifies this
      ensures Valid()
      ensures id <= 0 ==> r == Fail(InvalidPurchaseID)
      ensures id > 0 && id !in old(purchases) ==> r == Fail(PurchaseNotFound)
      ensures r.Pass? <==> id > 0 && id in old(purchases)
      ensures r.Fail? ==> unchanged(this)
      ensures r.Pass? ==> purchases == old(purchases) - {id} && nextPurchaseId == old(nextPurchaseId)
    {
      if id <= 0 {
        return Fail(InvalidPurchaseID);
      }
      if id !in purchases {
        return Fail(PurchaseNotFound);
      }
      purchases := purchases - {id};
      r := Pass;
    }
  }
}
