/**
 * The child block a list block wraps, seen only through the capabilities the
 * list block calls on it. Its validation, widgets and storage are opaque: each
 * capability is a function value supplied from outside.
 */
module ChildBlocks {
  import opened Wrappers

  /** Submitted form fields: field name to its (last) submitted string. */
  type FormData = map<string, string>

  /** Uploaded files by field name; the list block only passes them on. */
  type Files = map<string, seq<bv8>>

  /**
   * A child block with native values `V`, raw (serialisable) values `R` and
   * validation errors `E`.
   */
  datatype ChildBlock<!V, !R, E> = ChildBlock(
    getDefault: V,
    toPython: R -> V,
    getPrepValue: V -> R,
    clean: V -> Result<V, E>,
    valueFromDatadict: (FormData, Files, string) -> V,
    getSearchableContent: V -> seq<string>)

  /** What the list block's constructor is given: a block instance, or a block class. */
  datatype ChildArg<!V, !R, E> =
    | BlockInstance(block: ChildBlock<V, R, E>)
    | BlockClass(construct: () -> ChildBlock<V, R, E>)

  /** A block class is instantiated with no arguments; an instance is used as it is. */
  function Instantiate<V, R, E>(arg: ChildArg<V, R, E>): (b: ChildBlock<V, R, E>)
    ensures arg.BlockInstance? ==> b == arg.block
    ensures arg.BlockClass? ==> b == arg.construct()
  {
    match arg
    case BlockInstance(block) => block
    case BlockClass(construct) => construct()
  }
}
