/**
 * The change-detection store (core/state.py): per provider, the HTTP caching
 * validators and the last `updated` string seen for every entry id.
 *
 * `ProviderState` objects are created lazily and updated in place, and
 * `get_state` hands out the stored object itself, so both are classes here.
 * `StateManager.View()` is the store's abstract value: every provider's
 * state as a plain value.
 */
module State {
  import opened Optional

  /** A provider's state as a value. */
  datatype StateView = StateView(etag: Option<string>, lastModified: Option<string>, seenEntries: map<string, string>)

  /** The state a provider starts with: no validators and nothing seen. */
  const Initial := StateView(None, None, map[])

  class ProviderState {
    var etag: Option<string>
    var lastModified: Option<string>
    /** Entry id to the `updated` string last seen for it. */
    var seenEntries: map<string, string>

    constructor ()
      ensures Snapshot() == Initial
    {
      etag := None;
      lastModified := None;
      seenEntries := map[];
    }

    function Snapshot(): StateView
      reads this
    {
      StateView(etag, lastModified, seenEntries)
    }

    /** Assigns both validators, absent ones included; the seen entries stay. */
    method SetValidators(etag: Option<string>, lastModified: Option<string>)
      modifies this
      ensures Snapshot() == old(Snapshot()).(etag := etag, lastModified := lastModified)
    {
      this.etag := etag;
      this.lastModified := lastModified;
    }
  }

  /**
   * `is_new_or_updated` on a seen-entries map: ("new") for an unseen id,
   * ("updated") when the stored string differs from `updated`, and the
   * empty change type when they are equal; the comparison is exact string
   * equality. The flag is set exactly when the change type is non-empty.
   */
  function Detect(seen: map<string, string>, entryId: string, updated: string): (r: (bool, string))
    ensures r.0 <==> r.1 != ""
    ensures r.1 == "new" <==> entryId !in seen
    ensures r.1 == "updated" <==> entryId in seen && seen[entryId] != updated
    ensures r.1 == "" <==> entryId in seen && seen[entryId] == updated
  {
    if entryId !in seen then (true, "new")
    else if seen[entryId] != updated then (true, "updated")
    else (false, "")
  }

  /**
   * Once an entry is marked seen with `updated`, asking again with the same
   * string reports no change, and asking with any other string reports an
   * update.
   */
  lemma MarkThenDetect(seen: map<string, string>, entryId: string, updated: string, other: string)
    ensures Detect(seen[entryId := updated], entryId, updated) == (false, "")
    ensures other != updated ==> Detect(seen[entryId := updated], entryId, other) == (true, "updated")
  {
  }

  /** The store after `get_state(name)`: a fresh state is added for an unknown provider. */
  function Touch(view: map<string, StateView>, name: string): (r: map<string, StateView>)
    ensures r.Keys == view.Keys + {name}
    ensures name in view ==> r == view
    ensures name !in view ==> r[name] == Initial
    ensures forall n :: n in view ==> r[n] == view[n]
  {
    if name in view then view else view[name := Initial]
  }

  class StateManager {
    /** Provider name to its state object. */
    var states: map<string, ProviderState>

    /** Distinct providers never share a state object. */
    ghost predicate Valid()
      reads this
    {
      forall a, b :: a in states && b in states && a != b ==> states[a] != states[b]
    }

    ghost function View(): map<string, StateView>
      reads this, states.Values
    {
      map n | n in states :: states[n].Snapshot()
    }

    constructor ()
      ensures Valid()
      ensures states == map[]
    {
      states := map[];
    }

    /**
     * `get_state`: returns the stored state of `name`, creating a fresh one
     * with no validators and nothing seen when the provider is unknown. A
     * known provider gets its own object back and nothing changes.
     */
    method GetState(name: string) returns (s: ProviderState)
      requires Valid()
      modifies this
      ensures Valid()
      ensures name in states && s == states[name]
      ensures name in old(states) ==> states == old(states)
      ensures name !in old(states) ==> fresh(s) && states == old(states)[name := s]
      ensures View() == Touch(old(View()), name)
    {
      if name !in states {
        var created := new ProviderState();
        states := states[name := created];
      }
      s := states[name];
    }

    /** Overwrites both validators of `name`, absent ones included; seen entries stay. */
    method UpdateEtag(name: string, etag: Option<string>, lastModified: Option<string>)
      requires Valid()
      modifies this, states.Values
      ensures Valid()
      ensures name in states
      ensures states == old(states) || (name !in old(states) && fresh(states[name]) && states == old(states)[name := states[name]])
      ensures
        var before := Touch(old(View()), name);
        View() == before[name := before[name].(etag := etag, lastModified := lastModified)]
    {
      var s := GetState(name);
      ghost var touched := View();
      s.SetValidators(etag, lastModified);
      forall n | n in states
        ensures View()[n] == touched[name := touched[name].(etag := etag, lastModified := lastModified)][n]
      {
        if n != name {
          assert states[n] != s;
        }
      }
    }

    /**
     * `is_new_or_updated`: classifies the entry against the provider's seen
     * entries. Its only effect is the lazy creation of the provider's state.
     */
    method IsNewOrUpdated(name: string, entryId: string, updated: string) returns (changed: bool, changeType: string)
      requires Valid()
      modifies this
      ensures Valid()
      ensures name in states
      ensures states == old(states) || (name !in old(states) && fresh(states[name]) && states == old(states)[name := states[name]])
      ensures View() == Touch(old(View()), name)
      ensures (changed, changeType) == Detect(View()[name].seenEntries, entryId, updated)
    {
      var s := GetState(name);
      if entryId !in s.seenEntries {
        return true, "new";
      }
      if s.seenEntries[entryId] != updated {
        return true, "updated";
      }
      return false, "";
    }

    /** `mark_seen`: records `updated` for the entry, overwriting any earlier value. */
    method MarkSeen(name: string, entryId: string, updated: string)
      requires Valid()
      modifies this, states.Values
      ensures Valid()
      ensures name in states
      ensures states == old(states) || (name !in old(states) && fresh(states[name]) && states == old(states)[name := states[name]])
      ensures
        var before := Touch(old(View()), name);
        View() == before[name := before[name].(seenEntries := before[name].seenEntries[entryId := updated])]
    {
      var s := GetState(name);
      ghost var touched := View();
      s.seenEntries := s.seenEntries[entryId := updated];
      forall n | n in states
        ensures View()[n] == touched[name := touched[name].(seenEntries := touched[name].seenEntries[entryId := updated])][n]
      {
        if n != name {
          assert states[n] != s;
        }
      }
    }
  }
}
