/** The vehicle service of internal/modules/vehicles/services/service.go: the
    make -> model -> submodel hierarchy, with existence checks on the parent
    when a child is created or re-parented, refusal to delete a make that has
    models or a model that has submodels, and submodel field and year-range
    validation. The repository is the in-memory state of `VehicleService`:
    three tables keyed by id, each with the next id its sequence hands out. */
module Vehicles {

  import opened Common

  datatype Make = Make(makeId: int, makeName: string, country: string)

  datatype Model = Model(modelId: int, makeId: int, modelName: string)

  datatype Submodel = Submodel(
    submodelId: int,
    modelId: int,
    submodelName: string,
    yearFrom: int,
    yearTo: Option<int>,
    engineType: string,
    engineDisplacement: real,
    fuelType: string,
    transmissionType: string,
    bodyType: string)

  /** The package's error sentinels and its ad-hoc errors. */
  datatype Error =
    | MakeNotFound | ModelNotFound | SubmodelNotFound
    | InvalidMakeID | InvalidModelID | InvalidSubmodelID
    | MakeNameRequired | ModelNameRequired
    | MakeHasModels | ModelHasSubmodels
    | SubmodelNameRequired | StartYearRequired | EngineTypeRequired | EngineDisplacementRequired
    | FuelTypeRequired | TransmissionTypeRequired | BodyTypeRequired
    | YearRangeInvalid

  /** The field constraints `validateSubmodel` enforces. */
  predicate SubmodelFieldsValid(s: Submodel) {
    && s.submodelName != ""
    && s.yearFrom > 0
    && s.engineType != ""
    && s.engineDisplacement > 0.0
    && s.fuelType != ""
    && s.transmissionType != ""
    && s.bodyType != ""
  }

  /** An end year, when given, is not before the start year. */
  predicate YearRangeValid(s: Submodel) {
    s.yearTo.Some? ==> s.yearTo.value >= s.yearFrom
  }

  /** `validateSubmodel`: the checks run in a fixed order and the first one
      that fails is reported. */
  function ValidateSubmodel(s: Submodel): (r: Outcome<Error>)
    ensures r.Pass? <==> SubmodelFieldsValid(s)
    ensures r == Fail(SubmodelNameRequired) <==> s.submodelName == ""
    ensures r == Fail(StartYearRequired) <==> s.submodelName != "" && s.yearFrom <= 0
    ensures r == Fail(EngineTypeRequired) <==> s.submodelName != "" && s.yearFrom > 0 && s.engineType == ""
    ensures r == Fail(EngineDisplacementRequired) <==>
      s.submodelName != "" && s.yearFrom > 0 && s.engineType != "" && s.engineDisplacement <= 0.0
    ensures r == Fail(FuelTypeRequired) <==>
      s.submodelName != "" && s.yearFrom > 0 && s.engineType != "" && s.engineDisplacement > 0.0
      && s.fuelType == ""
    ensures r == Fail(TransmissionTypeRequired) <==>
      s.submodelName != "" && s.yearFrom > 0 && s.engineType != "" && s.engineDisplacement > 0.0
      && s.fuelType != "" && s.transmissionType == ""
    ensures r == Fail(BodyTypeRequired) <==>
      s.submodelName != "" && s.yearFrom > 0 && s.engineType != "" && s.engineDisplacement > 0.0
      && s.fuelType != "" && s.transmissionType != "" && s.bodyType == ""
  {
    if s.submodelName == "" then Fail(SubmodelNameRequired)
    else if s.yearFrom <= 0 then Fail(StartYearRequired)
    else if s.engineType == "" then Fail(EngineTypeRequired)
    else if s.engineDisplacement <= 0.0 then Fail(EngineDisplacementRequired)
    else if s.fuelType == "" then Fail(FuelTypeRequired)
    else if s.transmissionType == "" then Fail(TransmissionTypeRequired)
    else if s.bodyType == "" then Fail(BodyTypeRequired)
    else Pass
  }

  /** The repository's `GetModelsByMake` returns at least one row. */
  predicate MakeHasModel(models: map<int, Model>, makeId: int) {
    exists id :: id in models && models[id].makeId == makeId
  }

  /** The repository's `GetSubmodelsByModel` returns at least one row. */
  predicate ModelHasSubmodel(submodels: map<int, Submodel>, modelId: int) {
    exists id :: id in submodels && submodels[id].modelId == modelId
  }

  class VehicleService {
    var makes: map<int, Make>
    var models: map<int, Model>
    var submodels: map<int, Submodel>
    var nextMakeId: int
    var nextModelId: int
    var nextSubmodelId: int

    /** The integrity the service maintains: ids consistent with the keys and
        below the sequences' next values, names present, every model's make
        and every submodel's model stored, and every stored submodel valid. */
    ghost predicate Valid()
      reads this
    {
      && 1 <= nextMakeId && 1 <= nextModelId && 1 <= nextSubmodelId
      && (forall id :: id in makes ==> 0 < id < nextMakeId && makes[id].makeId == id && makes[id].makeName != "")
      && (forall id :: id in models ==>
            0 < id < nextModelId && models[id].modelId == id && models[id].modelName != ""
            && models[id].makeId in makes)
      && (forall id :: id in submodels ==>
            0 < id < nextSubmodelId && submodels[id].submodelId == id
            && SubmodelFieldsValid(submodels[id]) && YearRangeValid(submodels[id])
            && submodels[id].modelId in models)
    }

    constructor ()
      ensures Valid()
      ensures makes == map[] && models == map[] && submodels == map[]
    {
      makes, models, submodels := map[], map[], map[];
      nextMakeId, nextModelId, nextSubmodelId := 1, 1, 1;
    }

    // -------------------------------------------------------------------------
    // Makes

    /** `GetMakeByID`. */
    function GetMakeByID(id: int): (r: Result<Make, Error>)
      reads this
      requires Valid()
      ensures id <= 0 ==> r == Err(InvalidMakeID)
      ensures id > 0 && id !in makes ==> r == Err(MakeNotFound)
      ensures r.Ok? <==> id in makes
      ensures r.Ok? ==> r.value.makeId == id
    {
      if id <= 0 then Err(InvalidMakeID)
      else if id !in makes then Err(MakeNotFound)
      else Ok(makes[id])
    }

    /** `CreateMake`: only the name is checked. */
    method CreateMake(m: Make) returns (r: Result<int, Error>)
      requires Valid()
      modifies this
      ensures Valid()
      ensures m.makeName == "" ==> r == Err(MakeNameRequired)
      ensures r.Ok? <==> m.makeName != ""
      ensures r.Err? ==> unchanged(this)
      ensures r.Ok? ==> && r.value == old(nextMakeId)
                        && makes == old(makes)[r.value := m.(makeId := r.value)]
                        && nextMakeId == old(nextMakeId) + 1
                        && models == old(models) && submodels == old(submodels)
                        && nextModelId == old(nextModelId) && nextSubmodelId == old(nextSubmodelId)
    {
      if m.makeName == "" {
        return Err(MakeNameRequired);
      }
      var id := nextMakeId;
      makes := makes[id := m.(makeId := id)];
      nextMakeId := nextMakeId + 1;
      r := Ok(id);
    }

    /** `UpdateMake`: the id, the name, then existence. */
    method UpdateMake(m: Make) returns (r: Outcome<Error>)
      requires Valid()
      modifies this
      ensures Valid()
      ensures m.makeId <= 0 ==> r == Fail(InvalidMakeID)
      ensures m.makeId > 0 && m.makeName == "" ==> r == Fail(MakeNameRequired)
      ensures m.makeId > 0 && m.makeName != "" && m.makeId !in old(makes) ==> r == Fail(MakeNotFound)
      ensures r.Pass? <==> m.makeId > 0 && m.makeName != "" && m.makeId in old(makes)
      ensures r.Fail? ==> unchanged(this)
      ensures r.Pass? ==> && makes == old(makes)[m.makeId := m]
                          && models == old(models) && submodels == old(submodels)
                          && nextMakeId == old(nextMakeId) && nextModelId == old(nextModelId)
                          && nextSubmodelId == old(nextSubmodelId)
    {
      if m.makeId <= 0 {
        return Fail(InvalidMakeID);
      }
      if m.makeName == "" {
        return Fail(MakeNameRequired);
      }
      if m.makeId !in makes {
        return Fail(MakeNotFound);
      }
      makes := makes[m.makeId := m];
      r := Pass;
    }

    /** `DeleteMake`: the id, existence, then refusal while any model refers
        to the make; otherwise only that make goes. */
    method DeleteMake(id: int) returns (r: Outcome<Error>)
      requires Valid()
      modifies this
      ensures Valid()
      ensures id <= 0 ==> r == Fail(InvalidMakeID)
      ensures id > 0 && id !in old(makes) ==> r == Fail(MakeNotFound)
      ensures id > 0 && id in old(makes) && MakeHasModel(old(models), id) ==> r == Fail(MakeHasModels)
      ensures r.Pass? <==> id > 0 && id in old(makes) && !MakeHasModel(old(models), id)
      ensures r.Fail? ==> unchanged(this)
      ensures r.Pass? ==> && makes == old(makes) - {id}
                          && models == old(models) && submodels == old(submodels)
                          && nextMakeId == old(nextMakeId) && nextModelId == old(nextModelId)
                          && nextSubmodelId == old(nextSubmodelId)
    {
      if id <= 0 {
        return Fail(InvalidMakeID);
      }
      if id !in makes {
        return Fail(MakeNotFound);
      }
      if MakeHasModel(models, id) {
        return Fail(MakeHasModels);
      }
      makes := makes - {id};
      r := Pass;
    }

    // -------------------------------------------------------------------------
    // Models

    /** `GetModelsByMake`: the id, the make's existence, then its models. */
    function GetModelsByMake(makeId: int): (r: Result<set<Model>, Error>)
      reads this
      requires Valid()
      ensures makeId <= 0 ==> r == Err(InvalidMakeID)
      ensures makeId > 0 && makeId !in makes ==> r == Err(MakeNotFound)
      ensures r.Ok? <==> makeId in makes
      ensures r.Ok? ==> forall id :: id in models && models[id].makeId == makeId ==> models[id] in r.value
      ensures r.Ok? ==> forall m :: m in r.value ==> m.makeId == makeId && m.modelId in models && models[m.modelId] == m
    {
      if makeId <= 0 then Err(InvalidMakeID)
      else if makeId !in makes then Err(MakeNotFound)
      else Ok(set id | id in models && models[id].makeId == makeId :: models[id])
    }

    /** `GetModelByID`. */
    function GetModelByID(id: int): (r: Result<Model, Error>)
      reads this
      requires Valid()
      ensures id <= 0 ==> r == Err(InvalidModelID)
      ensures id > 0 && id !in models ==> r == Err(ModelNotFound)
      ensures r.Ok? <==> id in models
      ensures r.Ok? ==> r.value.modelId == id && r.value.makeId in makes
    {
      if id <= 0 then Err(InvalidModelID)
      else if id !in models then Err(ModelNotFound)
      else Ok(models[id])
    }

    /** `CreateModel`: the name, then the make's existence. */
    method CreateModel(m: Model) returns (r: Result<int, Error>)
      requires Valid()
      modifies this
      ensures Valid()
      ensures m.modelName == "" ==> r == Err(ModelNameRequired)
      ensures m.modelName != "" && m.makeId !in old(makes) ==> r == Err(MakeNotFound)
      ensures r.Ok? <==> m.modelName != "" && m.makeId in old(makes)
      ensures r.Err? ==> unchanged(this)
      ensures r.Ok? ==> && r.value == old(nextModelId)
                        && models == old(models)[r.value := m.(modelId := r.value)]
                        && nextModelId == old(nextModelId) + 1
                        && makes == old(makes) && submodels == old(submodels)
                        && nextMakeId == old(nextMakeId) && nextSubmodelId == old(nextSubmodelId)
    {
      if m.modelName == "" {
        return Err(ModelNameRequired);
      }
      if m.makeId !in makes {
        return Err(MakeNotFound);
      }
      var id := nextModelId;
      models := models[id := m.(modelId := id)];
      nextModelId := nextModelId + 1;
      r := Ok(id);
    }

    /** `UpdateModel`: the id, the name, existence; the make is looked up only
        when it differs from the stored one. */
    method UpdateModel(m: Model) returns (r: Outcome<Error>)
      requires Valid()
      modifies this
      ensures Valid()
      ensures m.modelId <= 0 ==> r == Fail(InvalidModelID)
      ensures m.modelId > 0 && m.modelName == "" ==> r == Fail(ModelNameRequired)
      ensures m.modelId > 0 && m.modelName != "" && m.modelId !in old(models) ==> r == Fail(ModelNotFound)
      ensures r == Fail(MakeNotFound) <==>
        && m.modelId > 0 && m.modelName != "" && m.modelId in old(models)
        && m.makeId != old(models)[m.modelId].makeId && m.makeId !in old(makes)
      ensures m.modelId in old(models) && m.makeId == old(models)[m.modelId].makeId ==> r != Fail(MakeNotFound)
      ensures r.Pass? <==> m.modelId > 0 && m.modelName != "" && m.modelId in old(models) && m.makeId in old(makes)
      ensures r.Fail? ==> unchanged(this)
      ensures r.Pass? ==> && models == old(models)[m.modelId := m]
                          && makes == old(makes) && submodels == old(submodels)
                          && nextMakeId == old(nextMakeId) && nextModelId == old(nextModelId)
                          && nextSubmodelId == old(nextSubmodelId)
    {
      if m.modelId <= 0 {
        return Fail(InvalidModelID);
      }
      if m.modelName == "" {
        return Fail(ModelNameRequired);
      }
      if m.modelId !in models {
        return Fail(ModelNotFound);
      }
      var existing := models[m.modelId];
      if existing.makeId != m.makeId {
        if m.makeId !in makes {
          return Fail(MakeNotFound);
        }
      }
      models := models[m.modelId := m];
      r := Pass;
    }

    /** `DeleteModel`: the id, existence, then refusal while any submodel
        refers to the model; otherwise only that model goes. */
    method DeleteModel(id: int) returns (r: Outcome<Error>)
      requires Valid()
      modifies this
      ensures Valid()
      ensures id <= 0 ==> r == Fail(InvalidModelID)
      ensures id > 0 && id !in old(models) ==> r == Fail(ModelNotFound)
      ensures id > 0 && id in old(models) && ModelHasSubmodel(old(submodels), id) ==> r == Fail(ModelHasSubmodels)
      ensures r.Pass? <==> id > 0 && id in old(models) && !ModelHasSubmodel(old(submodels), id)
      ensures r.Fail? ==> unchanged(this)
      ensures r.Pass? ==> && models == old(models) - {id}
                          && makes == old(makes) && submodels == old(submodels)
                          && nextMakeId == old(nextMakeId) && nextModelId == old(nextModelId)
                          && nextSubmodelId == old(nextSubmodelId)
    {
      if id <= 0 {
        return Fail(InvalidModelID);
      }
      if id !in models {
        return Fail(ModelNotFound);
      }
      if ModelHasSubmodel(submodels, id) {
        return Fail(ModelHasSubmodels);
      }
      models := models - {id};
      r := Pass;
    }

    // -------------------------------------------------------------------------
    // Submodels

    /** `GetSubmodelsByModel`: the id, the model's existence, then its submodels. */
    function GetSubmodelsByModel(modelId: int): (r: Result<set<Submodel>, Error>)
      reads this
      requires Valid()
      ensures modelId <= 0 ==> r == Err(InvalidModelID)
      ensures modelId > 0 && modelId !in models ==> r == Err(ModelNotFound)
      ensures r.Ok? <==> modelId in models
      ensures r.Ok? ==> forall id :: id in submodels && submodels[id].modelId == modelId ==> submodels[id] in r.value
      ensures r.Ok? ==> forall s :: s in r.value ==>
        s.modelId == modelId && s.submodelId in submodels && submodels[s.submodelId] == s
    {
      if modelId <= 0 then Err(InvalidModelID)
      else if modelId !in models then Err(ModelNotFound)
      else Ok(set id | id in submodels && submodels[id].modelId == modelId :: submodels[id])
    }

    /** `GetSubmodelByID`. */
    function GetSubmodelByID(id: int): (r: Result<Submodel, Error>)
      reads this
      requires Valid()
      ensures id <= 0 ==> r == Err(InvalidSubmodelID)
      ensures id > 0 && id !in submodels ==> r == Err(SubmodelNotFound)
      ensures r.Ok? <==> id in submodels
      ensures r.Ok? ==> r.value.submodelId == id && SubmodelFieldsValid(r.value) && YearRangeValid(r.value)
    {
      if id <= 0 then Err(InvalidSubmodelID)
      else if id !in submodels then Err(SubmodelNotFound)
      else Ok(submodels[id])
    }

    /** `CreateSubmodel`: validation, the model's existence, then the year range. */
    method CreateSubmodel(s: Submodel) returns (r: Result<int, Error>)
      requires Valid()
      modifies this
      ensures Valid()
      ensures ValidateSubmodel(s).Fail? ==> r == Err(ValidateSubmodel(s).error)
      ensures SubmodelFieldsValid(s) && s.modelId !in old(models) ==> r == Err(ModelNotFound)
      ensures SubmodelFieldsValid(s) && s.modelId in old(models) && !YearRangeValid(s) ==> r == Err(YearRangeInvalid)
      ensures r.Ok? <==> SubmodelFieldsValid(s) && s.modelId in old(models) && YearRangeValid(s)
      ensures r.Err? ==> unchanged(this)
      ensures r.Ok? ==> && r.value == old(nextSubmodelId)
                        && submodels == old(submodels)[r.value := s.(submodelId := r.value)]
                        && nextSubmodelId == old(nextSubmodelId) + 1
                        && makes == old(makes) && models == old(models)
                        && nextMakeId == old(nextMakeId) && nextModelId == old(nextModelId)
    {
      var v := ValidateSubmodel(s);
      if v.Fail? {
        return Err(v.error);
      }
      if s.modelId !in models {
        return Err(ModelNotFound);
      }
      if s.yearTo.Some? && s.yearTo.value < s.yearFrom {
        return Err(YearRangeInvalid);
      }
      var id := nextSubmodelId;
      submodels := submodels[id := s.(submodelId := id)];
      nextSubmodelId := nextSubmodelId + 1;
      r := Ok(id);
    }

    /** `UpdateSubmodel`: the id, validation, existence; the model is looked
        up only when it differs from the stored one; then the year range. */
    method UpdateSubmodel(s: Submodel) returns (r: Outcome<Error>)
      requires Valid()
      modifies this
      ensures Valid()
      ensures s.submodelId <= 0 ==> r == Fail(InvalidSubmodelID)
      ensures s.submodelId > 0 && ValidateSubmodel(s).Fail? ==> r == Fail(ValidateSubmodel(s).error)
      ensures s.submodelId > 0 && SubmodelFieldsValid(s) && s.submodelId !in old(submodels) ==> r == Fail(SubmodelNotFound)
      ensures r == Fail(ModelNotFound) <==>
        && s.submodelId > 0 && SubmodelFieldsValid(s) && s.submodelId in old(submodels)
        && s.modelId != old(submodels)[s.submodelId].modelId && s.modelId !in old(models)
      ensures s.submodelId in old(submodels) && s.modelId == old(submodels)[s.submodelId].modelId ==>
        r != Fail(ModelNotFound)
      ensures r == Fail(YearRangeInvalid) <==>
        s.submodelId > 0 && SubmodelFieldsValid(s) && s.submodelId in old(submodels) && s.modelId in old(models)
        && !YearRangeValid(s)
      ensures r.Pass? <==>
        s.submodelId > 0 && SubmodelFieldsValid(s) && s.submodelId in old(submodels) && s.modelId in old(models)
        && YearRangeValid(s)
      ensures r.Fail? ==> unchanged(this)
      ensures r.Pass? ==> && submodels == old(submodels)[s.submodelId := s]
                          && makes == old(makes) && models == old(models)
                          && nextMakeId == old(nextMakeId) && nextModelId == old(nextModelId)
                          && nextSubmodelId == old(nextSubmodelId)
    {
      if s.submodelId <= 0 {
        return Fail(InvalidSubmodelID);
      }
      var v := ValidateSubmodel(s);
      if v.Fail? {
        return Fail(v.error);
      }
      if s.submodelId !in submodels {
        return Fail(SubmodelNotFound);
      }
      var existing := submodels[s.submodelId];
      if existing.modelId != s.modelId {
        if s.modelId !in models {
          return Fail(ModelNotFound);
        }
      }
      if s.yearTo.Some? && s.yearTo.value < s.yearFrom {
        return Fail(YearRangeInvalid);
      }
      submodels := submodels[s.submodelId := s];
      r := Pass;
    }

    /** `DeleteSubmodel`: the id, then existence; there is no dependency
        check, so every stored submodel can be deleted. */
    method DeleteSubmodel(id: int) returns (r: Outcome<Error>)
      requires Valid()
      modifies this
      ensures Valid()
      ensures id <= 0 ==> r == Fail(InvalidSubmodelID)
      ensures id > 0 && id !in old(submodels) ==> r == Fail(SubmodelNotFound)
      ensures r.Pass? <==> id > 0 && id in old(submodels)
      ensures r.Fail? ==> unchanged(this)
      ensures r.Pass? ==> && submodels == old(submodels) - {id}
                          && makes == old(makes) && models == old(models)
                          && nextMakeId == old(nextMakeId) && nextModelId == old(nextModelId)
                          && nextSubmodelId == old(nextSubmodelId)
    {
      if id <= 0 {
        return Fail(InvalidSubmodelID);
      }
      if id !in submodels {
        return Fail(SubmodelNotFound);
      }
      submodels := submodels - {id};
      r := Pass;
    }
  }
}
