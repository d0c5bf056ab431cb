/** The nano runtime's state store: one namespace of key-value pairs per plugin name. */
module StateStores {
  import opened Wrappers

  /** A JSON value, by its text. */
  datatype Value = Json(text: string)

  type Namespace = map<string, Value>
  type Namespaces = map<string, Namespace>

  function SnapshotOf(all: Namespaces, plugin: string): Namespace {
    if plugin in all then all[plugin] else map[]
  }

  function Stored(all: Namespaces, plugin: string, key: string, value: Value): Namespaces {
    all[plugin := SnapshotOf(all, plugin)[key := value]]
  }

  function Removed(all: Namespaces, plugin: string, key: string): Namespaces {
    if plugin in all then all[plugin := all[plugin] - {key}] else all
  }

  /** Writes and removals stay inside the namespace of the plugin they name. */
  lemma NamespacesAreSeparate(all: Namespaces, plugin: string, key: string, value: Value, other: string)
    ensures SnapshotOf(Stored(all, plugin, key, value), other)
         == if other == plugin then SnapshotOf(all, plugin)[key := value] else SnapshotOf(all, other)
    ensures SnapshotOf(Removed(all, plugin, key), other)
         == if other == plugin then SnapshotOf(all, plugin) - {key} else SnapshotOf(all, other)
  {
    var empty: Namespace := map[];
    assert empty - {key} == empty;
  }

  class StateStore {
    var namespaces: Namespaces

    constructor ()
      ensures namespaces == map[]
    {
      namespaces := map[];
    }

    method Set(plugin: string, key: string, value: Value)
      modifies this
      ensures namespaces == Stored(old(namespaces), plugin, key, value)
    {
      if plugin !in namespaces {
        namespaces := namespaces[plugin := map[]];
      }
      namespaces := namespaces[plugin := namespaces[plugin][key := value]];
    }

    method Get(plugin: string, key: string) returns (value: Option<Value>)
      ensures value.Some? <==> key in SnapshotOf(namespaces, plugin)
      ensures value.Some? ==> value.value == SnapshotOf(namespaces, plugin)[key]
    {
      value := None;
      if plugin in namespaces && key in namespaces[plugin] {
        value := Some(namespaces[plugin][key]);
      }
    }

    method Snapshot(plugin: string) returns (copy: Namespace)
      ensures copy == SnapshotOf(namespaces, plugin)
    {
      copy := if plugin in namespaces then namespaces[plugin] else map[];
    }

    method Remove(plugin: string, key: string) returns (value: Option<Value>)
      modifies this
      ensures namespaces == Removed(old(namespaces), plugin, key)
      ensures value.Some? <==> key in SnapshotOf(old(namespaces), plugin)
      ensures value.Some? ==> value.value == SnapshotOf(old(namespaces), plugin)[key]
    {
      value := Get(plugin, key);
      if plugin in namespaces {
        namespaces := namespaces[plugin := namespaces[plugin] - {key}];
      }
    }
  }
}
