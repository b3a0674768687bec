/**
  The schema registry (memstate/storage.py, SchemaRegistry and Constraint): a table from type
  name to model class, kept in registration order as a Python dict is, and the validation a
  registered class applies to a payload.
 */
module Registry {
  import opened Wrappers
  import opened Json
  import opened Errors

  /** A Pydantic model class; two classes are equal exactly when they are the same class object. */
  datatype ModelClass = ModelClass(ident: nat)

  /**
    `model_cls.model_validate(payload).model_dump(mode="json")`: the normalized payload, or None
    when validation raises. The library call itself is not modelled; any function will do.
   */
  type Validator = (ModelClass, Object) -> Option<Object>

  /** A model instance handed to `commit_model`: its class and `model_dump(mode="json")`. */
  datatype ModelInstance = ModelInstance(cls: ModelClass, dump: Object)

  /** `Constraint(singleton_key, immutable)`. */
  datatype Constraint = Constraint(singletonKey: Option<string>, immutable: bool)

  /** `validate`: an unregistered type passes its payload through; a registered one normalizes or fails. */
  function ValidatePayload(schemas: map<string, ModelClass>, validator: Validator, typename: string, payload: Object)
    : Result<Object>
  {
    if typename !in schemas then Ok(payload)
    else match validator(schemas[typename], payload)
      case None => Err(ValidationFailed)
      case Some(normalized) => Ok(normalized)
  }

  /** The first name, in registration order, registered for `cls`. */
  function FirstNameOf(names: seq<string>, schemas: map<string, ModelClass>, cls: ModelClass): (r: Option<string>)
    requires forall n :: n in names ==> n in schemas
    ensures r.Some? ==> exists i :: 0 <= i < |names| && names[i] == r.value
                          && schemas[r.value] == cls
                          && forall j :: 0 <= j < i ==> schemas[names[j]] != cls
    ensures r.None? <==> forall n :: n in names ==> schemas[n] != cls
  {
    if names == [] then None
    else if schemas[names[0]] == cls then Some(names[0])
    else
      var rest := FirstNameOf(names[1..], schemas, cls);
      assert forall n :: n in names <==> n == names[0] || n in names[1..];
      if rest.Some? then
        ghost var i :| 0 <= i < |names[1..]| && names[1..][i] == rest.value
                       && schemas[rest.value] == cls
                       && forall j :: 0 <= j < i ==> schemas[names[1..][j]] != cls;
        assert names[i + 1] == rest.value;
        rest
      else rest
  }

  /** `validate` of a type with no registered model returns the payload unchanged. */
  lemma ValidateUnregistered(schemas: map<string, ModelClass>, validator: Validator, typename: string, payload: Object)
    requires typename !in schemas
    ensures ValidatePayload(schemas, validator, typename, payload) == Ok(payload)
  {
  }

  /** For a registered type, `validate` fails exactly when the model rejects the payload. */
  lemma ValidateRegistered(schemas: map<string, ModelClass>, validator: Validator, typename: string, payload: Object)
    requires typename in schemas
    ensures ValidatePayload(schemas, validator, typename, payload).Err?
            <==> validator(schemas[typename], payload).None?
    ensures ValidatePayload(schemas, validator, typename, payload).Ok?
            ==> Some(ValidatePayload(schemas, validator, typename, payload).value) == validator(schemas[typename], payload)
  {
  }

  class SchemaRegistry {
    /** The dict's key order. */
    var names: seq<string>
    var schemas: map<string, ModelClass>
    const validator: Validator

    ghost predicate Valid()
      reads this
    {
      Distinct(names) && forall n :: n in names <==> n in schemas
    }

    constructor (validator: Validator)
      ensures Valid()
      ensures names == [] && schemas == map[] && this.validator == validator
    {
      names, schemas := [], map[];
      this.validator := validator;
    }

    /** `register`: a new name goes last; re-registering a name replaces its class in place. */
    method Register(typename: string, model: ModelClass)
      requires Valid()
      modifies this
      ensures Valid()
      ensures schemas == old(schemas)[typename := model]
      ensures names == if typename in old(schemas) then old(names) else old(names) + [typename]
    {
      if typename !in schemas {
        names := names + [typename];
      }
      schemas := schemas[typename := model];
    }

    function Validate(typename: string, payload: Object): Result<Object>
      reads this
    {
      ValidatePayload(schemas, validator, typename, payload)
    }

    /** `get_type_by_model`: the reverse lookup, first match in registration order. */
    method GetTypeByModel(cls: ModelClass) returns (r: Option<string>)
      requires Valid()
      ensures r == FirstNameOf(names, schemas, cls)
    {
      var i := 0;
      while i < |names|
        invariant 0 <= i <= |names|
        invariant forall j :: 0 <= j < i ==> schemas[names[j]] != cls
        invariant FirstNameOf(names, schemas, cls) == FirstNameOf(names[i..], schemas, cls)
      {
        assert names[i..][1..] == names[i + 1..];
        if schemas[names[i]] == cls {
          return Some(names[i]);
        }
        i := i + 1;
      }
      return None;
    }
  }
}
