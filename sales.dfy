/** The sales service of internal/modules/sales/services/service.go: field
    validation against the clock, transaction-number uniqueness, and the date
    and total defaults that `Create` and `Update` write back into the caller's
    sale. The sales table is the in-memory state of `SaleService`; the
    caller's `*Sale` is a `SaleRef`. */
module Sales {

  import opened Common

  datatype Sale = Sale(
    saleId: int,
    itemId: int,
    quantity: int,
    pricePerUnit: real,
    totalPrice: real,
    date: Date,
    transactionNumber: string,
    customerEmail: Option<string>)

  datatype Error =
    | SaleNotFound
    | InvalidSaleID
    | InvalidItemID
    | InvalidQuantity
    | InvalidPricePerUnit
    | DuplicateTransactionNumber
    | InvalidDate

  /** The caller's `*Sale`, which `Create` and `Update` modify in place. */
  class SaleRef {
    var sale: Sale

    constructor (s: Sale)
      ensures sale == s
    {
      sale := s;
    }
  }

  /** The numeric field constraints of `validateSale`. */
  predicate AmountsValid(s: Sale) {
    s.itemId > 0 && s.quantity > 0 && s.pricePerUnit > 0.0
  }

  /** `validateSale` with the clock reading `now`: the checks run in order and
      the first failing one is reported; a zero date is always accepted. */
  function ValidateSale(s: Sale, now: int): (r: Outcome<Error>)
    ensures r.Pass? <==> AmountsValid(s) && !IsAfter(s.date, now)
    ensures r == Fail(InvalidItemID) <==> s.itemId <= 0
    ensures r == Fail(InvalidQuantity) <==> s.itemId > 0 && s.quantity <= 0
    ensures r == Fail(InvalidPricePerUnit) <==> s.itemId > 0 && s.quantity > 0 && s.pricePerUnit <= 0.0
    ensures r == Fail(InvalidDate) <==> AmountsValid(s) && IsAfter(s.date, now)
  {
    if s.itemId <= 0 then Fail(InvalidItemID)
    else if s.quantity <= 0 then Fail(InvalidQuantity)
    else if s.pricePerUnit <= 0.0 then Fail(InvalidPricePerUnit)
    else if IsAfter(s.date, now) then Fail(InvalidDate)
    else Pass
  }

  /** `float64(Quantity) * PricePerUnit`, on reals. */
  function SaleTotal(s: Sale): real {
    s.quantity as real * s.pricePerUnit
  }

  /** The defaults `Create` fills in: a zero date becomes `now` and a zero
      total becomes quantity times unit price; everything else is kept. */
  function WithDefaults(s: Sale, now: int): (r: Sale)
    ensures r.date.At?
    ensures s.date.At? ==> r.date == s.date
    ensures s.date.ZeroDate? ==> r.date == At(now)
    ensures s.totalPrice != 0.0 ==> r.totalPrice == s.totalPrice
    ensures s.totalPrice == 0.0 ==> r.totalPrice == SaleTotal(s)
    ensures r.(date := s.date, totalPrice := s.totalPrice) == s
  {
    var dated := if s.date.ZeroDate? then s.(date := At(now)) else s;
    if dated.totalPrice == 0.0 then dated.(totalPrice := SaleTotal(dated)) else dated
  }

  /** A sale that passes validation has a positive computed total. */
  lemma ValidSaleTotalPositive(s: Sale, now: int)
    requires ValidateSale(s, now).Pass?
    ensures SaleTotal(s) > 0.0
  {
    assert s.quantity as real >= 1.0;
    assert s.quantity as real * s.pricePerUnit >= 1.0 * s.pricePerUnit;
  }

  /** Filling in the defaults never turns a valid sale into an invalid one:
      the default date is `now`, which is not after `now`. */
  lemma DefaultsKeepValidity(s: Sale, now: int)
    requires ValidateSale(s, now).Pass?
    ensures ValidateSale(WithDefaults(s, now), now).Pass?
    ensures WithDefaults(s, now).totalPrice != 0.0
  {
    if s.totalPrice == 0.0 {
      ValidSaleTotalPositive(s, now);
    }
  }

  /** Filling in the defaults twice changes nothing more. */
  lemma DefaultsIdempotent(s: Sale, now: int, later: int)
    requires ValidateSale(s, now).Pass?
    ensures WithDefaults(WithDefaults(s, now), later) == WithDefaults(s, now)
  {
    DefaultsKeepValidity(s, now);
  }

  /** `GetByTransactionNumber` finds a row. */
  predicate NumberHeld(sales: map<int, Sale>, tn: string) {
    exists id :: id in sales && sales[id].transactionNumber == tn
  }

  /** A sale other than `self` carries this transaction number. */
  predicate NumberHeldByOther(sales: map<int, Sale>, tn: string, self: int) {
    exists id :: id in sales && id != self && sales[id].transactionNumber == tn
  }

  class SaleService {
    var sales: map<int, Sale>
    var nextSaleId: int

    /** Ids match their keys and lie below the sequence's next value, stored
        sales satisfy the numeric constraints, and no two sales share a
        non-empty transaction number. */
    ghost predicate Valid()
      reads this
    {
      && 1 <= nextSaleId
      && (forall id :: id in sales ==> 0 < id < nextSaleId && sales[id].saleId == id && AmountsValid(sales[id]))
      && (forall a, b ::
            (a in sales && b in sales && sales[a].transactionNumber != ""
             && sales[a].transactionNumber == sales[b].transactionNumber) ==> a == b)
    }

    constructor ()
      ensures Valid()
      ensures sales == map[]
    {
      sales := map[];
      nextSaleId := 1;
    }

    /** `GetByID`. */
    function GetByID(id: int): (r: Result<Sale, Error>)
      reads this
      requires Valid()
      ensures id <= 0 ==> r == Err(InvalidSaleID)
      ensures id > 0 && id !in sales ==> r == Err(SaleNotFound)
      ensures r.Ok? <==> id in sales
      ensures r.Ok? ==> r.value.saleId == id && AmountsValid(r.value)
    {
      if id <= 0 then Err(InvalidSaleID)
      else if id !in sales then Err(SaleNotFound)
      else Ok(sales[id])
    }

    /** `Create` at clock reading `now`: validation, uniqueness of a
        non-empty transaction number, then the defaults are written into the
        caller's sale and it is stored under the next id. */
    method Create(ref: SaleRef, now: int) returns (r: Result<int, Error>)
      requires Valid()
      modifies this, ref
      ensures Valid()
      ensures ValidateSale(old(ref.sale), now).Fail? ==> r == Err(ValidateSale(old(ref.sale), now).error)
      ensures r == Err(DuplicateTransactionNumber) <==>
        && ValidateSale(old(ref.sale), now).Pass?
        && old(ref.sale).transactionNumber != "" && NumberHeld(old(sales), old(ref.sale).transactionNumber)
      ensures r.Ok? <==>
        && ValidateSale(old(ref.sale), now).Pass?
        && (old(ref.sale).transactionNumber == "" || !NumberHeld(old(sales), old(ref.sale).transactionNumber))
      ensures r.Err? ==> unchanged(this) && unchanged(ref)
      ensures r.Ok? ==> && r.value == old(nextSaleId)
                        && ref.sale == WithDefaults(old(ref.sale), now)
                        && sales == old(sales)[r.value := ref.sale.(saleId := r.value)]
                        && nextSaleId == old(nextSaleId) + 1
    {
      var v := ValidateSale(ref.sale, now);
      if v.Fail? {
        return Err(v.error);
      }
      if ref.sale.transactionNumber != "" {
        if NumberHeld(sales, ref.sale.transactionNumber) {
          return Err(DuplicateTransactionNumber);
        }
      }
      if ref.sale.date.ZeroDate? {
        ref.sale := ref.sale.(date := At(now));
      }
      if ref.sale.totalPrice == 0.0 {
        ref.sale := ref.sale.(totalPrice := SaleTotal(ref.sale));
      }
      var id := nextSaleId;
      sales := sales[id := ref.sale.(saleId := id)];
      nextSaleId := nextSaleId + 1;
      r := Ok(id);
    }

    /** `Update` at clock reading `now`: the id, validation, existence; a
        changed transaction number is looked up and conflicts when a
        different sale holds it; then the total is recomputed, written into
        the caller's sale, and the row replaced. An unchanged number is never
        a conflict. Because the lookup runs for any changed number, also the
        empty one, clearing the number fails when another sale already has
        an empty number. */
    method Update(ref: SaleRef, now: int) returns (r: Outcome<Error>)
      requires Valid()
      modifies this, ref
      ensures Valid()
      ensures old(ref.sale).saleId <= 0 ==> r == Fail(InvalidSaleID)
      ensures old(ref.sale).saleId > 0 && ValidateSale(old(ref.sale), now).Fail? ==>
        r == Fail(ValidateSale(old(ref.sale), now).error)
      ensures old(ref.sale).saleId > 0 && ValidateSale(old(ref.sale), now).Pass? && old(ref.sale).saleId !in old(sales) ==>
        r == Fail(SaleNotFound)
      ensures r == Fail(DuplicateTransactionNumber) <==>
        && old(ref.sale).saleId > 0 && ValidateSale(old(ref.sale), now).Pass? && old(ref.sale).saleId in old(sales)
        && old(sales)[old(ref.sale).saleId].transactionNumber != old(ref.sale).transactionNumber
        && NumberHeldByOther(old(sales), old(ref.sale).transactionNumber, old(ref.sale).saleId)
      ensures old(ref.sale).saleId in old(sales)
              && old(sales)[old(ref.sale).saleId].transactionNumber == old(ref.sale).transactionNumber ==>
        r != Fail(DuplicateTransactionNumber)
      ensures r.Pass? <==>
        && old(ref.sale).saleId > 0 && ValidateSale(old(ref.sale), now).Pass? && old(ref.sale).saleId in old(sales)
        && (old(sales)[old(ref.sale).saleId].transactionNumber == old(ref.sale).transactionNumber
            || !NumberHeldByOther(old(sales), old(ref.sale).transactionNumber, old(ref.sale).saleId))
      ensures r.Fail? ==> unchanged(this) && unchanged(ref)
      ensures r.Pass? ==> && ref.sale == old(ref.sale).(totalPrice := SaleTotal(old(ref.sale)))
                          && sales == old(sales)[ref.sale.saleId := ref.sale]
                          && nextSaleId == old(nextSaleId)
    {
      var s := ref.sale;
      if s.saleId <= 0 {
        return Fail(InvalidSaleID);
      }
      var v := ValidateSale(s, now);
      if v.Fail? {
        return Fail(v.error);
      }
      if s.saleId !in sales {
        return Fail(SaleNotFound);
      }
      var existing := sales[s.saleId];
      if s.transactionNumber != existing.transactionNumber {
        // The stored row of this sale has another number, so any row the
        // lookup finds belongs to a different sale.
        if NumberHeldByOther(sales, s.transactionNumber, s.saleId) {
          return Fail(DuplicateTransactionNumber);
        }
      }
      ref.sale := s.(totalPrice := SaleTotal(s));
      sales := sales[s.saleId := ref.sale];
      r := Pass;
    }

    /** `Delete`: the id, existence, then removal of that sale alone. */
    method Delete(id: int) returns (r: Outcome<Error>)
      requires Valid()
      modifies this
      ensures Valid()
      ensures id <= 0 ==> r == Fail(InvalidSaleID)
      ensures id > 0 && id !in old(sales) ==> r == Fail(SaleNotFound)
      ensures r.Pass? <==> id > 0 && id in old(sales)
      ensures r.Fail? ==> unchanged(this)
      ensures r.Pass? ==> sales == old(sales) - {id} && nextSaleId == old(nextSaleId)
    {
      if id <= 0 {
        return Fail(InvalidSaleID);
      }
      if id !in sales {
        return Fail(SaleNotFound);
      }
      sales := sales - {id};
      r := Pass;
    }
  }
}
