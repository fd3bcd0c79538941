/** The supplier service of internal/modules/suppliers/services/service.go:
    lookups by id, exact-name uniqueness on create and on a rename, and a
    delete guarded by an associated-items check that is a stub. The supplier
    table is the in-memory state of `SupplierService`. */
module Suppliers {

  import opened Common

  /** A supplier row; `details` stands for the contact columns, which the
      service never inspects. */
  datatype Supplier = Supplier(supplierId: int, name: string, details: string)

  datatype Error =
    | SupplierNotFound
    | InvalidSupplierID
    | DuplicateSupplierName
    | SupplierHasItems
    | NameRequired

  /** `validateSupplier`: only the name is required. */
  function ValidateSupplier(s: Supplier): (r: Outcome<Error>)
    ensures r.Pass? <==> s.name != ""
    ensures r.Fail? ==> r.error == NameRequired
  {
    if s.name == "" then Fail(NameRequired) else Pass
  }

  /** `checkSupplierHasItems`: a placeholder that reports no items for any
      supplier, whatever the items table holds. */
  function CheckSupplierHasItems(supplierId: int): (hasItems: bool)
    ensures !hasItems
  {
    false
  }

  /** Some stored supplier carries exactly this name. */
  predicate NameTaken(suppliers: map<int, Supplier>, name: string) {
    exists id :: id in suppliers && suppliers[id].name == name
  }

  /** Some stored supplier other than `self` carries exactly this name. */
  predicate NameHeldByOther(suppliers: map<int, Supplier>, name: string, self: int) {
    exists id :: id in suppliers && id != self && suppliers[id].name == name
  }

  class SupplierService {
    var suppliers: map<int, Supplier>
    var nextSupplierId: int

    /** Ids are positive, below the sequence's next value and match their
        keys; names are present and no two suppliers share one. */
    ghost predicate Valid()
      reads this
    {
      && 1 <= nextSupplierId
      && (forall id :: id in suppliers ==>
            0 < id < nextSupplierId && suppliers[id].supplierId == id && suppliers[id].name != "")
      && (forall a, b :: a in suppliers && b in suppliers && suppliers[a].name == suppliers[b].name ==> a == b)
    }

    constructor ()
      ensures Valid()
      ensures suppliers == map[]
    {
      suppliers := map[];
      nextSupplierId := 1;
    }

    /** `GetByID`. */
    function GetByID(id: int): (r: Result<Supplier, Error>)
      reads this
      requires Valid()
      ensures id <= 0 ==> r == Err(InvalidSupplierID)
      ensures id > 0 && id !in suppliers ==> r == Err(SupplierNotFound)
      ensures r.Ok? <==> id in suppliers
      ensures r.Ok? ==> r.value.supplierId == id && r.value.name != ""
    {
      if id <= 0 then Err(InvalidSupplierID)
      else if id !in suppliers then Err(SupplierNotFound)
      else Ok(suppliers[id])
    }

    /** `Create`: validation, then a scan of the stored suppliers for one with
        exactly the same name, then the insert under the next id. */
    method Create(s: Supplier) returns (r: Result<int, Error>)
      requires Valid()
      modifies this
      ensures Valid()
      ensures s.name == "" ==> r == Err(NameRequired)
      ensures r == Err(DuplicateSupplierName) <==> s.name != "" && NameTaken(old(suppliers), s.name)
      ensures r.Ok? <==> s.name != "" && !NameTaken(old(suppliers), s.name)
      ensures r.Err? ==> unchanged(this)
      ensures r.Ok? ==> && r.value == old(nextSupplierId)
                        && suppliers == old(suppliers)[r.value := s.(supplierId := r.value)]
                        && nextSupplierId == old(nextSupplierId) + 1
    {
      var v := ValidateSupplier(s);
      if v.Fail? {
        return Err(v.error);
      }
      var i := 1;
      while i < nextSupplierId
        invariant 1 <= i <= nextSupplierId
        invariant forall id :: id in suppliers && id < i ==> suppliers[id].name != s.name
      {
        if i in suppliers && suppliers[i].name == s.name {
          return Err(DuplicateSupplierName);
        }
        i := i + 1;
      }
      var id := nextSupplierId;
      suppliers := suppliers[id := s.(supplierId := id)];
      nextSupplierId := nextSupplierId + 1;
      r := Ok(id);
    }

    /** `Update`: the id, validation, existence; a changed name is then
        checked against every other supplier. */
    method Update(s: Supplier) returns (r: Outcome<Error>)
      requires Valid()
      modifies this
      ensures Valid()
      ensures s.supplierId <= 0 ==> r == Fail(InvalidSupplierID)
      ensures s.supplierId > 0 && s.name == "" ==> r == Fail(NameRequired)
      ensures s.supplierId > 0 && s.name != "" && s.supplierId !in old(suppliers) ==> r == Fail(SupplierNotFound)
      ensures r == Fail(DuplicateSupplierName) <==>
        && s.supplierId > 0 && s.name != "" && s.supplierId in old(suppliers)
        && old(suppliers)[s.supplierId].name != s.name
        && NameHeldByOther(old(suppliers), s.name, s.supplierId)
      ensures s.supplierId in old(suppliers) && old(suppliers)[s.supplierId].name == s.name ==>
        r != Fail(DuplicateSupplierName)
      ensures r.Pass? <==>
        s.supplierId > 0 && s.name != "" && s.supplierId in old(suppliers)
        && !NameHeldByOther(old(suppliers), s.name, s.supplierId)
      ensures r.Fail? ==> unchanged(this)
      ensures r.Pass? ==> suppliers == old(suppliers)[s.supplierId := s] && nextSupplierId == old(nextSupplierId)
    {
      if s.supplierId <= 0 {
        return Fail(InvalidSupplierID);
      }
      var v := ValidateSupplier(s);
      if v.Fail? {
        return Fail(v.error);
      }
      if s.supplierId !in suppliers {
        return Fail(SupplierNotFound);
      }
      var existing := suppliers[s.supplierId];
      if existing.name != s.name {
        var i := 1;
        while i < nextSupplierId
          invariant 1 <= i <= nextSupplierId
          invariant forall id :: id in suppliers && id < i && id != s.supplierId ==> suppliers[id].name != s.name
        {
          if i in suppliers && suppliers[i].name == s.name && i != s.supplierId {
            return Fail(DuplicateSupplierName);
          }
          i := i + 1;
        }
      }
      suppliers := suppliers[s.supplierId := s];
      r := Pass;
    }

    /** `Delete`: the id, existence, the associated-items guard, then removal.
        Because the guard is a stub, every stored supplier can be deleted. */
    method Delete(id: int) returns (r: Outcome<Error>)
      requires Valid()
      modifies this
      ensures Valid()
      ensures id <= 0 ==> r == Fail(InvalidSupplierID)
      ensures id > 0 && id !in old(suppliers) ==> r == Fail(SupplierNotFound)
      ensures r != Fail(SupplierHasItems)
      ensures r.Pass? <==> id > 0 && id in old(suppliers)
      ensures r.Fail? ==> unchanged(this)
      ensures r.Pass? ==> suppliers == old(suppliers) - {id} && nextSupplierId == old(nextSupplierId)
    {
      if id <= 0 {
        return Fail(InvalidSupplierID);
      }
      if id !in suppliers {
        return Fail(SupplierNotFound);
      }
      if CheckSupplierHasItems(id) {
        return Fail(SupplierHasItems);
      }
      suppliers := suppliers - {id};
      r := Pass;
    }
  }
}
