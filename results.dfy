/** Optional values, failures and results shared by every module of the model.
    A Python exception raised by the core becomes `Err(f)` for a `Failure` that names
    the exception and the value it was raised for. */
module Results {

  datatype Option<+T> = None | Some(value: T)

  /** The exceptions the core can raise, one constructor per raise site. */
  datatype Failure =
      /** `ValueError` of `_parse_color`: an indexed colour of 256 or more. */
    | BadIndexedColor(color: string)
      /** `ValueError` of `int(part, base=16)` on a malformed hex component. */
    | BadHexComponent(part: string)
      /** `ValueError` of `int(ansi)` in `Color.from_ansi` on a non-numeric body part. */
    | BadAnsiIndex(part: string)
      /** `KeyError` of `COLOR_TABLE[index]` in `Color.from_ansi`. */
    | MissingColorIndex(index: nat)
      /** `AssertionError` of `_apply_auto_foreground`: the background layer holds a boolean
          (set by the `background` flag tag) instead of an SGR body. */
    | BackgroundNotAString
      /** An error (`IndexError`, `ValueError`) raised while computing a colour's luminance. */
    | LuminanceUndefined
      /** `ValueError("Undefined macro ...")` of `_apply_tag`. */
    | UndefinedMacro(tag: string)
      /** `ValueError("Macro ... is not set, so it can't be unset.")` of `_apply_tag`. */
    | MacroNotSet(tag: string)
      /** `ValueError("Unknown tag ...")` of `_apply_tag`. */
    | UnknownTag(tag: string)
      /** `RecursionError` of `_apply_tag` on an alias that expands too deeply (or cyclically). */
    | AliasTooDeep(tag: string)
      /** `ValueError` of `define` for an identifier that does not start with `!`. */
    | NotAMacroIdentifier(identifier: string)

  datatype Result<+T> = Ok(value: T) | Err(error: Failure) {
    predicate IsFailure() { Err? }

    function PropagateFailure<U>(): Result<U>
      requires Err?
    {
      Err(error)
    }

    function Extract(): T
      requires Ok?
    {
      value
    }
  }
}
