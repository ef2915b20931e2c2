/** The feature registry: uninitialised until a load succeeds, then a map from
    feature name to definition that each later successful load replaces. */
module Registry {
  import opened Base
  import opened Dto

  type Catalog = map<string, FeatureDefinition>

  datatype Registry = Uninitialized | Initialized(catalog: Catalog)

  /** The registry loader, given repository, token and branch (absent: the
      default branch). It fetches and parses the registry file, which the
      model does not do; a missing file, fetch error or missing `features`
      key is an `Err`. */
  type Loader = (string, Option<string>, Option<string>) -> Result<Catalog>

  /** Whether a call that only changes state returned normally or threw. */
  datatype Status = Done | Failed(error: Exception)

  datatype Initialization = Initialization(registry: Registry, status: Status)

  const NotInitializedMessage: string :=
    "FeatureRegistry is not initialized. Call initialize() first."

  /** `initialize(repo, token, branch)`: one assignment of the loaded map, or,
      when the loader throws, the exception with the registry untouched. */
  function InitializeOnBranch(reg: Registry, load: Loader, repo: string,
                              token: Option<string>, branch: Option<string>): (r: Initialization)
    ensures load(repo, token, branch).Ok? ==>
              r == Initialization(Initialized(load(repo, token, branch).value), Done)
    ensures load(repo, token, branch).Err? ==>
              r == Initialization(reg, Failed(load(repo, token, branch).error))
  {
    match load(repo, token, branch)
    case Ok(catalog) => Initialization(Initialized(catalog), Done)
    case Err(e) => Initialization(reg, Failed(e))
  }

  /** `initialize(repo, token)`: delegates with no branch. */
  function Initialize(reg: Registry, load: Loader, repo: string,
                      token: Option<string>): (r: Initialization)
    ensures r == InitializeOnBranch(reg, load, repo, token, None)
  {
    InitializeOnBranch(reg, load, repo, token, None)
  }

  /** `getFeature`: throws before initialisation, else the definition stored
      under `name` if there is one. */
  function GetFeature(reg: Registry, name: string): (r: Result<Option<FeatureDefinition>>)
    ensures r.Err? <==> reg.Uninitialized?
    ensures r.Err? ==> r.error == IllegalState(NotInitializedMessage)
    ensures r.Ok? ==> (r.value.Some? <==> name in reg.catalog)
    ensures r.Ok? && r.value.Some? ==> r.value.value == reg.catalog[name]
  {
    match reg
    case Uninitialized => Err(IllegalState(NotInitializedMessage))
    case Initialized(catalog) =>
      Ok(if name in catalog then Some(catalog[name]) else None)
  }

  /** `hasFeature`: throws before initialisation, else whether `getFeature`
      would find a definition. */
  function HasFeature(reg: Registry, name: string): (r: Result<bool>)
    ensures r.Err? <==> reg.Uninitialized?
    ensures r.Err? ==> r.error == IllegalState(NotInitializedMessage)
    ensures r.Ok? ==> (r.value <==> GetFeature(reg, name).value.Some?)
  {
    match reg
    case Uninitialized => Err(IllegalState(NotInitializedMessage))
    case Initialized(catalog) => Ok(name in catalog)
  }

  /** `getAllFeatures`: throws before initialisation, else every definition,
      one per registered name, in the map's (unspecified) order. */
  method GetAllFeatures(reg: Registry) returns (r: Result<seq<FeatureDefinition>>)
    ensures r.Err? <==> reg.Uninitialized?
    ensures r.Err? ==> r.error == IllegalState(NotInitializedMessage)
    ensures r.Ok? ==> |r.value| == |reg.catalog.Keys|
    ensures r.Ok? ==> forall d :: d in r.value ==> d in reg.catalog.Values
    ensures r.Ok? ==> forall n :: n in reg.catalog ==> reg.catalog[n] in r.value
  {
    if reg.Uninitialized? {
      return Err(IllegalState(NotInitializedMessage));
    }
    var catalog := reg.catalog;
    var remaining := catalog.Keys;
    var values: seq<FeatureDefinition> := [];
    while remaining != {}
      invariant remaining <= catalog.Keys
      invariant |values| + |remaining| == |catalog.Keys|
      invariant forall d :: d in values ==> d in catalog.Values
      invariant forall n :: n in catalog && n !in remaining ==> catalog[n] in values
      decreases remaining
    {
      var n :| n in remaining;
      values := values + [catalog[n]];
      remaining := remaining - {n};
    }
    return Ok(values);
  }

  /** After a successful load every lookup answers from the loaded map, and
      `hasFeature` agrees with `getFeature`. */
  lemma LookupsAfterLoad(reg: Registry, load: Loader, repo: string,
                         token: Option<string>, branch: Option<string>, name: string)
    requires load(repo, token, branch).Ok?
    ensures var loaded := load(repo, token, branch).value;
            var after := InitializeOnBranch(reg, load, repo, token, branch).registry;
            && GetFeature(after, name) == Ok(if name in loaded then Some(loaded[name]) else None)
            && HasFeature(after, name) == Ok(name in loaded)
  {
  }

  /** A failed load leaves every lookup answering exactly as before, and an
      uninitialised registry stays unusable. */
  lemma LookupsAfterFailedLoad(reg: Registry, load: Loader, repo: string,
                               token: Option<string>, branch: Option<string>, name: string)
    requires load(repo, token, branch).Err?
    ensures var after := InitializeOnBranch(reg, load, repo, token, branch).registry;
            && GetFeature(after, name) == GetFeature(reg, name)
            && HasFeature(after, name) == HasFeature(reg, name)
            && (reg.Uninitialized? ==> GetFeature(after, name).Err?)
  {
  }
}
