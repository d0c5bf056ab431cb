/** What a loaded plugin consists of, as far as the registry looks at it. */
module Plugins {

  datatype PluginManifest = PluginManifest(id: string, dependencies: seq<string>)

  /** The identities of a compiled module and of a set of sandbox limits. */
  type Module = nat
  type Limits = nat

  datatype LoadedPlugin = LoadedPlugin(manifest: PluginManifest, module_: Module, limits: Limits)
}
