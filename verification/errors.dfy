/** The failure conditions of the symbol table and the loader, one variant per raise site. */
module Errors {

  datatype Error =
      /** `set_symbol` or `remove_symbol` on a name that has no entry. */
    | UnknownSymbol(symbol: string)
      /** `increment_symbol_usage` on a name that has no entry, with the line of the use. */
    | UnknownUse(symbol: string, lineno: int)
      /** `set_symbol` was asked to change `name`. */
    | NameImmutable(symbol: string)
      /** `set_symbol` was asked to change a `lineno` that already holds a real line. */
    | LinenoFrozen(symbol: string)
      /** `add_symbol` on a name already declared at the real line `lineno`. */
    | Redefinition(symbol: string, lineno: int)
      /** `add_symbol` as written: calling `.get` on the key string fails. */
    | AttributeMisuse(symbol: string)
      /** An attribute compared or added as an integer holds a string or a list. */
    | TypeMismatch(symbol: string, attr: string)
      /** The loader met a FUNC symbol without generated `code`. */
    | UndefinedReference(kind: string, symbol: string)
      /** The loader met an instruction starting with `LABEL` that has no space to split at. */
    | MalformedLabel(instruction: string)
      /** The loader met a `code` attribute that cannot be enumerated. */
    | NotIterable(symbol: string)
}
