/**
 * The scenario selection store (src/stores/scenarios.js): its getters over the
 * list of scenarios, and the actions that select a scenario, apply the result
 * of a fetch and reset the store. The HTTP request of `fetchScenarios` is
 * replaced by its outcome, passed in as a `FetchResponse`.
 */
module Scenarios {
  import opened Wrappers
  import opened JsStrings

  /** A scenario or profile id: the source compares them with `===`. */
  datatype Id = NumId(n: int) | TextId(text: string)

  /** A scenario record; a missing `name` is `None`. */
  datatype Scenario = Scenario(id: Id, name: Option<string>)

  datatype Profile = Profile(id: Option<Id>)

  /** What the request for the profile's scenarios produced. */
  datatype FetchResponse = Fetched(data: seq<Scenario>) | FetchFailed(message: Option<string>)

  const FetchFailedMessage := "Failed to fetch scenarios"

  /** `profile.value?.id` is truthy: a profile with an id other than 0 or "". */
  predicate HasProfileId(profile: Option<Profile>)
  {
    profile.Some? && profile.value.id.Some? &&
    match profile.value.id.value
    case NumId(n) => n != 0
    case TextId(t) => t != ""
  }

  /** `scenario.name && scenario.name.toLowerCase() === 'default'`. */
  predicate IsDefaultName(name: Option<string>)
  {
    name.Some? && name.value != "" && ToLower(name.value) == "default"
  }

  /** `scenario.name && scenario.name.toLowerCase() !== 'default'`. */
  predicate IsCustomName(name: Option<string>)
  {
    name.Some? && name.value != "" && ToLower(name.value) != "default"
  }

  /** The `defaultScenario` getter: the first scenario named "default", ignoring case. */
  function DefaultScenario(ss: seq<Scenario>): (r: Option<Scenario>)
    ensures r.None? <==> forall i :: 0 <= i < |ss| ==> !IsDefaultName(ss[i].name)
    ensures r.Some? ==>
      exists i :: (0 <= i < |ss| && ss[i] == r.value && IsDefaultName(ss[i].name)
        && forall j :: 0 <= j < i ==> !IsDefaultName(ss[j].name))
  {
    if ss == [] then None
    else if IsDefaultName(ss[0].name) then Some(ss[0])
    else
      var r := DefaultScenario(ss[1..]);
      assert forall i :: 1 <= i < |ss| ==> ss[i] == ss[1..][i - 1];
      r
  }

  /** The `customScenarios` getter: the named scenarios not called "default", in order. */
  function CustomScenarios(ss: seq<Scenario>): (r: seq<Scenario>)
    ensures |r| <= |ss|
    ensures forall s :: s in r <==> s in ss && IsCustomName(s.name)
  {
    if ss == [] then []
    else (if IsCustomName(ss[0].name) then [ss[0]] else []) + CustomScenarios(ss[1..])
  }

  /** The `isDefaultScenario` getter. */
  predicate IsDefaultScenario(current: Option<Scenario>)
  {
    current.Some? && IsDefaultName(current.value.name)
  }

  /** The `hasScenarios` getter. */
  predicate HasScenarios(ss: seq<Scenario>)
  {
    |ss| > 0
  }

  /** `scenarios.find((s) => s.id === scenarioId)`. */
  function FindById(ss: seq<Scenario>, id: Id): (r: Option<Scenario>)
    ensures r.None? <==> forall i :: 0 <= i < |ss| ==> ss[i].id != id
    ensures r.Some? ==>
      exists i :: (0 <= i < |ss| && ss[i] == r.value && r.value.id == id
        && forall j :: 0 <= j < i ==> ss[j].id != id)
  {
    if ss == [] then None
    else if ss[0].id == id then Some(ss[0])
    else
      var r := FindById(ss[1..], id);
      assert forall i :: 1 <= i < |ss| ==> ss[i] == ss[1..][i - 1];
      r
  }

  /** The scenario a successful fetch selects: the default one if present, else the first. */
  function AutoSelection(ss: seq<Scenario>): (r: Option<Scenario>)
    ensures r.Some? <==> HasScenarios(ss)
    ensures r.Some? ==> r.value in ss
    ensures DefaultScenario(ss).Some? ==> r == DefaultScenario(ss)
    ensures DefaultScenario(ss).None? && ss != [] ==> r == Some(ss[0])
  {
    if |ss| > 0 then
      var def := DefaultScenario(ss);
      if def.Some? then def else Some(ss[0])
    else None
  }

  // ---------------------------------------------------------------------
  // Properties of the getters

  /** `customScenarios` keeps order: it distributes over concatenation. */
  lemma {:induction false} CustomScenariosAppend(a: seq<Scenario>, b: seq<Scenario>)
    ensures CustomScenarios(a + b) == CustomScenarios(a) + CustomScenarios(b)
  {
    if a == [] {
      assert a + b == b;
    } else {
      assert (a + b)[1..] == a[1..] + b;
      CustomScenariosAppend(a[1..], b);
    }
  }

  /** A named scenario is either the default kind or listed among the custom ones, never both. */
  lemma NamedScenarioIsDefaultOrCustom(ss: seq<Scenario>, s: Scenario)
    requires s in ss && s.name.Some? && s.name.value != ""
    ensures IsDefaultName(s.name) <==> s !in CustomScenarios(ss)
  {
  }

  /** The default scenario is never among the custom ones. */
  lemma DefaultIsNotCustom(ss: seq<Scenario>)
    requires DefaultScenario(ss).Some?
    ensures DefaultScenario(ss).value !in CustomScenarios(ss)
  {
  }

  /** After a fetch, the selection is the default kind exactly when the list has a default scenario. */
  lemma AutoSelectionPrefersDefault(ss: seq<Scenario>)
    ensures IsDefaultScenario(AutoSelection(ss)) <==> DefaultScenario(ss).Some?
  {
    if DefaultScenario(ss).None? && ss != [] {
      assert !IsDefaultName(ss[0].name);
    }
  }

  lemma DefaultScenarioExample()
    ensures DefaultScenario([Scenario(NumId(1), Some("Custom")), Scenario(NumId(2), Some("default")),
                             Scenario(NumId(3), Some("DEFAULT"))])
      == Some(Scenario(NumId(2), Some("default")))
  {
    assert ToLower("Custom") == "custom";
    assert ToLower("default") == "default";
  }

  lemma CustomScenariosExample()
    ensures CustomScenarios([Scenario(NumId(1), Some("default")), Scenario(NumId(2), Some("Vacation"))])
      == [Scenario(NumId(2), Some("Vacation"))]
  {
    assert ToLower("default") == "default";
    assert ToLower("Vacation") == "vacation";
  }

  // ---------------------------------------------------------------------
  // The store

  class ScenarioStore {
    var scenarios: seq<Scenario>
    var currentScenario: Option<Scenario>
    var profile: Option<Profile>
    var loading: bool
    var error: Option<string>

    /** The store's initial state. */
    constructor()
      ensures scenarios == [] && currentScenario.None? && profile.None?
      ensures !loading && error.None?
    {
      scenarios := [];
      currentScenario := None;
      profile := None;
      loading := false;
      error := None;
    }

    /** `hasError`. */
    predicate HasError()
      reads this
    {
      error.Some?
    }

    /** `setProfile(prof)`. */
    method SetProfile(prof: Option<Profile>)
      modifies this
      ensures profile == prof
      ensures scenarios == old(scenarios) && currentScenario == old(currentScenario)
      ensures loading == old(loading) && error == old(error)
    {
      profile := prof;
    }

    /** `selectScenario(scenario)`: a null scenario is ignored. */
    method SelectScenario(scenario: Option<Scenario>)
      modifies this
      ensures currentScenario == if scenario.Some? then scenario else old(currentScenario)
      ensures scenarios == old(scenarios) && profile == old(profile)
      ensures loading == old(loading) && error == old(error)
    {
      if scenario.None? {
        return;
      }
      currentScenario := scenario;
    }

    /** `selectScenarioById(id)`: selects the first scenario with that id, if any. */
    method SelectScenarioById(id: Id)
      modifies this
      ensures currentScenario ==
        if FindById(old(scenarios), id).Some? then FindById(old(scenarios), id) else old(currentScenario)
      ensures scenarios == old(scenarios) && profile == old(profile)
      ensures loading == old(loading) && error == old(error)
    {
      var scenario := FindById(scenarios, id);
      if scenario.Some? {
        SelectScenario(scenario);
      }
    }

    /** `selectDefaultScenario()`: selects the default scenario, if any. */
    method SelectDefaultScenario()
      modifies this
      ensures currentScenario ==
        if DefaultScenario(old(scenarios)).Some? then DefaultScenario(old(scenarios)) else old(currentScenario)
      ensures scenarios == old(scenarios) && profile == old(profile)
      ensures loading == old(loading) && error == old(error)
    {
      var def := DefaultScenario(scenarios);
      if def.Some? {
        SelectScenario(def);
      }
    }

    /**
     * `fetchScenarios()` with the request's outcome as a parameter. Without a
     * profile id nothing changes. A successful fetch replaces the list and, if
     * it is non-empty, selects the default scenario or else the first one; a
     * failed one records the error message. Either way loading ends false.
     */
    method FetchScenarios(response: FetchResponse)
      modifies this
      ensures !HasProfileId(old(profile)) ==>
        scenarios == old(scenarios) && currentScenario == old(currentScenario)
        && loading == old(loading) && error == old(error)
      ensures profile == old(profile)
      ensures HasProfileId(old(profile)) && response.Fetched? ==>
        scenarios == response.data && error.None? && !loading
        && currentScenario ==
          (if AutoSelection(response.data).Some? then AutoSelection(response.data) else old(currentScenario))
      ensures HasProfileId(old(profile)) && response.FetchFailed? ==>
        scenarios == old(scenarios) && currentScenario == old(currentScenario) && !loading
        && error == Some(if TruthyString(response.message) then response.message.value else FetchFailedMessage)
    {
      if !HasProfileId(profile) {
        return;
      }
      loading := true;
      error := None;
      match response {
        case Fetched(data) =>
          scenarios := data;
          if |scenarios| > 0 {
            var def := DefaultScenario(scenarios);
            if def.Some? {
              SelectScenario(def);
            } else {
              SelectScenario(Some(scenarios[0]));
            }
          }
        case FetchFailed(message) =>
          error := Some(if TruthyString(message) then message.value else FetchFailedMessage);
      }
      loading := false;
    }

    /** `reset()`: clears everything but the profile. */
    method Reset()
      modifies this
      ensures scenarios == [] && currentScenario.None? && !loading && error.None?
      ensures profile == old(profile)
    {
      scenarios := [];
      currentScenario := None;
      loading := false;
      error := None;
    }

    /** `resetForNewUser()`: `reset()` and forget the profile. */
    method ResetForNewUser()
      modifies this
      ensures scenarios == [] && currentScenario.None? && !loading && error.None?
      ensures profile.None?
    {
      Reset();
      profile := None;
    }

    /** `clearError()`. */
    method ClearError()
      modifies this
      ensures error.None?
      ensures scenarios == old(scenarios) && currentScenario == old(currentScenario)
      ensures profile == old(profile) && loading == old(loading)
    {
      error := None;
    }
  }
}
