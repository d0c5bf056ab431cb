/** PluginRegistry: the map of slots, its dependency check, and what a load order is worth to it. */
module PluginRegistries {
  import opened DependencyGraph
  import opened PluginSlots
  import opened Plugins
  import opened Sequences
  import opened SlotProtocol
  import opened Wrappers

  datatype RegistryError =
    | AlreadyRegistered(id: string)
    | NotFound(id: string)
    | Unsatisfied(missing: seq<string>, inactive: seq<string>)

  /** Loading a binary gives a plugin with the manifest that was read from it. */
  ghost predicate KeepsManifests(load: PluginManifest -> LoadedPlugin) {
    forall m :: load(m).manifest == m
  }

  class PluginRegistry {
    var slots: map<string, PluginSlot>

    ghost predicate Valid()
      reads this, slots.Values
    {
      && (forall id :: id in slots ==>
            slots[id].manifest.id == id && Inv(slots[id].View()) && slots[id].registered)
      && (forall a, b :: a in slots && b in slots && a != b ==> slots[a] != slots[b])
    }

    /** The plugins that are loaded and active. */
    function Up(): (up: set<string>)
      reads this, slots.Values
      ensures up <= slots.Keys
    {
      set id | id in slots && slots[id].state == Active
    }

    constructor ()
      ensures Valid() && slots == map[]
    {
      slots := map[];
    }

    method Register(loaded: LoadedPlugin, now: nat) returns (r: Result<(), RegistryError>)
      requires Valid()
      modifies this
      ensures Valid()
      ensures r == if loaded.manifest.id in old(slots) then Err(AlreadyRegistered(loaded.manifest.id)) else Ok(())
      ensures r.Err? ==> slots == old(slots)
      ensures r.Ok? ==> slots.Keys == old(slots.Keys) + {loaded.manifest.id}
      ensures r.Ok? ==> forall id :: id in old(slots) ==> slots[id] == old(slots)[id]
      ensures r.Ok? ==> fresh(slots[loaded.manifest.id]) && slots[loaded.manifest.id].View() == Fresh(loaded, now)
      ensures r.Ok? ==> slots[loaded.manifest.id].module_ == loaded.module_
      ensures r.Ok? ==> Up() == old(Up()) + {loaded.manifest.id}
    {
      hide Inv;
      var id := loaded.manifest.id;
      if id in slots { return Err(AlreadyRegistered(id)); }
      var slot := new PluginSlot(loaded, now);
      slots := slots[id := slot];
      r := Ok(());
    }

    /** check_dependencies: satisfied exactly when every dependency, listed or not among the plugins
        being loaded, is up; otherwise both kinds of failure are reported in manifest order. */
    method CheckDependencies(manifest: PluginManifest) returns (r: Result<(), RegistryError>)
      ensures r.Ok? <==> Elements(manifest.dependencies) <= Up()
      ensures r.Err? ==> r.error == Unsatisfied(
        Among(manifest.dependencies, Elements(manifest.dependencies) - slots.Keys),
        Among(manifest.dependencies, slots.Keys - Up()))
    {
      var deps := manifest.dependencies;
      var missing, inactive := [], [];
      ghost var absent := Elements(deps) - slots.Keys;
      for i := 0 to |deps|
        invariant missing == Among(deps[..i], absent)
        invariant inactive == Among(deps[..i], slots.Keys - Up())
      {
        assert deps[..i + 1] == deps[..i] + [deps[i]];
        AmongOneMore(deps[..i], deps[i], absent);
        AmongOneMore(deps[..i], deps[i], slots.Keys - Up());
        assert deps[i] in Elements(deps);
        if deps[i] !in slots {
          missing := missing + [deps[i]];
        } else if slots[deps[i]].state != Active {
          inactive := inactive + [deps[i]];
        }
      }
      assert deps[..|deps|] == deps;
      if missing != [] || inactive != [] {
        r := Err(Unsatisfied(missing, inactive));
        assert (missing + inactive)[0] in deps && (missing + inactive)[0] !in Up();
      } else {
        r := Ok(());
        forall d | d in deps ensures d in Up() {
          assert d !in missing && d !in inactive;
        }
      }
    }

    // ---------- reload and unload ----------

    /** At most one management operation at a time is in flight for a slot. */
    ghost predicate Unmanaged(id: string)
      reads this, slots.Values
    {
      id in slots ==> slots[id].manager.Free?
    }

    /** What reload does by itself: the drain of one slot. */
    method ReloadSlot(id: string, incoming: LoadedPlugin) returns (completed: bool)
      requires Valid() && id in slots && Unmanaged(id)
      modifies slots.Values
      ensures Valid() && Unmanaged(id) && slots == old(slots)
      ensures slots[id].state == Active
      ensures slots[id].module_ == if completed then incoming.module_ else old(slots[id].module_)
      ensures forall other :: other in slots && other != id ==> slots[other].View() == old(slots[other].View())
    {
      hide Inv;
      ghost var run;
      completed, run := slots[id].DrainAndReload(incoming);
    }

    /** What unload does by itself: the drain of one slot and its removal. */
    method UnloadSlot(id: string) returns (completed: bool)
      requires Valid() && id in slots && Unmanaged(id)
      modifies this, slots.Values
      ensures Valid() && Unmanaged(id)
      ensures slots == if completed then old(slots) - {id} else old(slots)
      ensures id !in Up()
      ensures forall other :: other in slots && other != id ==> slots[other].View() == old(slots[other].View())
    {
      hide Inv;
      ghost var run;
      completed, run := slots[id].UnloadAndRemove();
      if completed { slots := slots - {id}; }
    }

    /** While an operation on `id` waits, the registry is not locked: other tasks register plugins, call,
        reload and unload the other ones, and a slot whose unload is over leaves the map. */
    method OthersAct(id: string)
      requires Valid()
      modifies this, slots.Values
      ensures Valid()
      ensures id in slots <==> id in old(slots)
      ensures id in slots ==> slots[id] == old(slots[id]) && slots[id].View() == old(slots[id].View())
      ensures forall other :: other in slots ==> slots[other] in old(slots.Values) || fresh(slots[other])
    {
      var more: nat := *;
      while more > 0
        invariant Valid()
        invariant id in slots <==> id in old(slots)
        invariant id in slots ==> slots[id] == old(slots[id]) && slots[id].View() == old(slots[id].View())
        invariant forall other :: other in slots ==> slots[other] in old(slots.Values) || fresh(slots[other])
      {
        if * {
          var loaded: LoadedPlugin, now: nat := *, *;
          if loaded.manifest.id != id {
            var _ := Register(loaded, now);
          }
        } else {
          var other: string, step: Step := *, *;
          if other in slots && other != id {
            StepOf(other, step);
          }
        }
        more := more - 1;
      }
    }

    method StepOf(other: string, step: Step)
      requires Valid() && other in slots
      modifies this, slots[other]
      ensures Valid() && slots == if other in slots then old(slots) else old(slots) - {other}
    {
      hide Inv, Next;
      var slot := slots[other];
      ghost var at := slot.View();
      var taken := slot.OtherStep(step);
      if taken { NextKeepsInv(at, step); }
      if !slot.registered { slots := slots - {other}; }
    }

    method Reload(id: string, incoming: LoadedPlugin) returns (r: Result<bool, RegistryError>)
      requires Valid() && Unmanaged(id)
      modifies this, slots.Values
      ensures Valid() && Unmanaged(id)
      ensures r.Err? <==> id !in old(slots)
      ensures r.Err? ==> r.error == NotFound(id) && slots == old(slots)
      ensures r.Ok? ==> id in slots && slots[id] == old(slots[id]) && slots[id].state == Active
      ensures r.Ok? ==> slots[id].module_ == if r.value then incoming.module_ else old(slots[id].module_)
    {
      hide Inv;
      if id !in slots { return Err(NotFound(id)); }
      OthersAct(id);
      var completed := ReloadSlot(id, incoming);
      OthersAct(id);
      r := Ok(completed);
    }

    method UnloadPlugin(id: string) returns (r: Result<bool, RegistryError>)
      requires Valid() && Unmanaged(id)
      modifies this, slots.Values
      ensures Valid() && Unmanaged(id)
      ensures r.Err? <==> id !in old(slots)
      ensures r.Err? ==> r.error == NotFound(id) && slots == old(slots)
      ensures r.Ok? ==> id !in Up()
      ensures r == Ok(true) ==> id !in slots
      ensures r == Ok(false) ==> id in slots && slots[id] == old(slots[id]) && slots[id].state != Active
    {
      hide Inv;
      if id !in slots { return Err(NotFound(id)); }
      OthersAct(id);
      var completed := UnloadSlot(id);
      OthersAct(id);
      r := Ok(completed);
    }

    // ---------- loading a set of plugins ----------

    /** Check, then register, plugin after plugin, until a check fails. */
    method RegisterInOrder(manifests: seq<PluginManifest>, order: seq<string>,
                           load: PluginManifest -> LoadedPlugin, now: nat)
      returns (r: Result<(), RegistryError>)
      requires Valid() && KeepsManifests(load)
      requires Distinct(order) && Elements(order) == Ids(manifests)
      requires OutsideIsUp(manifests, Up()) && slots.Keys !! Ids(manifests)
      modifies this
      ensures Valid()
      ensures r.Ok? <==> IsLoadOrder(GraphOf(manifests), order)
      ensures r.Ok? ==> Up() == old(Up()) + Ids(manifests)
      ensures forall id :: id in old(slots) ==> id in slots && slots[id] == old(slots)[id]
    {
      hide *;
      ghost var up := Up();
      LoadOrdersPassEveryCheck(manifests, order, up);
      Ends(order);
      for i := 0 to |order|
        invariant Valid() && Up() == up + Elements(order[..i])
        invariant slots.Keys == old(slots.Keys) + Elements(order[..i])
        invariant forall id :: id in old(slots) ==> slots[id] == old(slots)[id]
        invariant forall j :: 0 <= j < i ==> CheckSucceeds(manifests, order, up, j)
      {
        Place(order, i);
        r := CheckAndRegister(manifests, order, i, load, now, up);
        if r.Err? { return; }
      }
      r := Ok(());
    }

    method CheckAndRegister(manifests: seq<PluginManifest>, order: seq<string>, i: nat,
                            load: PluginManifest -> LoadedPlugin, now: nat, ghost up: set<string>)
      returns (r: Result<(), RegistryError>)
      requires Valid() && KeepsManifests(load)
      requires Elements(order) == Ids(manifests) && i < |order|
      requires Up() == up + Elements(order[..i]) && order[i] !in slots
      modifies this
      ensures Valid()
      ensures r.Ok? <==> CheckSucceeds(manifests, order, up, i)
      ensures r.Err? ==> slots == old(slots)
      ensures r.Ok? ==> slots.Keys == old(slots.Keys) + {order[i]} && Up() == old(Up()) + {order[i]}
      ensures forall id :: id in old(slots) ==> id in slots && slots[id] == old(slots)[id]
    {
      assert order[i] in Elements(order);
      hide Inv, ManifestOf;
      var manifest := ManifestOf(manifests, order[i]);
      r := CheckDependencies(manifest);
      if r.Ok? { r := Register(load(manifest), now); }
    }
  }

  lemma Ends(order: seq<string>)
    ensures Elements(order[..0]) == {} && order[..|order|] == order
  {
  }

  lemma Place(order: seq<string>, i: nat)
    requires Distinct(order) && i < |order|
    ensures order[i] in Elements(order) && order[i] !in Elements(order[..i])
    ensures Elements(order[..i + 1]) == Elements(order[..i]) + {order[i]}
  {
    assert order[..i + 1] == order[..i] + [order[i]];
  }

  // ---------- load orders and the dependency check ----------

  /** The check that precedes the registration of order[i] succeeds, when `up` were up before. */
  predicate CheckSucceeds(manifests: seq<PluginManifest>, order: seq<string>, up: set<string>, i: nat)
    requires Elements(order) <= Ids(manifests) && i < |order|
  {
    order[i] in Elements(order) && Elements(ManifestOf(manifests, order[i]).dependencies) <= up + Elements(order[..i])
  }

  predicate OutsideIsUp(manifests: seq<PluginManifest>, up: set<string>) {
    forall id :: id in Ids(manifests) ==> Elements(ManifestOf(manifests, id).dependencies) - Ids(manifests) <= up
  }

  /** Registering plugins one by one passes every dependency check exactly when the sequence is a load
      order, provided the dependencies outside the set are up and none of the set is. */
  lemma LoadOrdersPassEveryCheck(manifests: seq<PluginManifest>, order: seq<string>, up: set<string>)
    requires Distinct(order) && Elements(order) == Ids(manifests)
    requires OutsideIsUp(manifests, up) && up !! Ids(manifests)
    ensures (forall i :: 0 <= i < |order| ==> CheckSucceeds(manifests, order, up, i))
       <==> IsLoadOrder(GraphOf(manifests), order)
  {
    forall i | 0 <= i < |order| {
      CheckAtPlace(manifests, order, up, i);
    }
    hide CheckSucceeds, GraphOf, OutsideIsUp;
  }

  lemma CheckAtPlace(manifests: seq<PluginManifest>, order: seq<string>, up: set<string>, i: nat)
    requires Elements(order) == Ids(manifests) && i < |order|
    requires OutsideIsUp(manifests, up) && up !! Ids(manifests)
    ensures order[i] in GraphOf(manifests)
    ensures CheckSucceeds(manifests, order, up, i)
       <==> Elements(GraphOf(manifests)[order[i]]) <= Elements(order[..i])
  {
    hide GraphOf, ManifestOf, OutsideIsUp;
    assert order[i] in Elements(order);
    OneCheck(manifests, order[i], Elements(order[..i]), up);
  }

  lemma OneCheck(manifests: seq<PluginManifest>, id: string, done: set<string>, up: set<string>)
    requires id in Ids(manifests)
    requires OutsideIsUp(manifests, up) && up !! Ids(manifests)
    requires done <= Ids(manifests)
    ensures Elements(GraphOf(manifests)[id]) <= done
       <==> Elements(ManifestOf(manifests, id).dependencies) <= up + done
  {
    var deps := ManifestOf(manifests, id).dependencies;
    var inside := GraphOf(manifests)[id];
    assert Elements(inside) == Elements(deps) * Ids(manifests);
    assert Elements(deps) == Elements(inside) + (Elements(deps) - Ids(manifests));
  }
}
