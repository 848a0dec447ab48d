/** Shared vocabulary of the plugin layer: plugin categories, the error codes the
    plugin agent reports, and an optional value standing for a nullable pointer. */
module PluginDef {

  /** The categories an agent can be tagged with; `None` is the tag a closed agent gets. */
  datatype PluginType =
    | None
    | Decoder
    | Encoder
    | Renderer
    | MediaPack
    | TagParser
    | PlayerEventListener

  /** The two error codes `PluginAgent::Open` can return. */
  datatype ErrorCode = Ok | MgrBadFormat

  /** A plugin object, identified by the address its creator returned. */
  type Instance = nat

  /** A nullable pointer: `Null` or a non-null `Some(value)`. */
  datatype Option<+T> = Null | Some(value: T)
}
