/** The autoconsent configuration schema the transformer produces. */
module Autoconsent {
  import opened Wrappers

  /** The accepted values of a `visible` check: `'any' | 'all' | 'none'`. */
  type VisibleCheck = s: string | s == "any" || s == "all" || s == "none" witness "any"

  /** The accepted values of a `hide` method: `'display' | 'opacity'`. */
  type HideMethod = s: string | s == "display" || s == "opacity" witness "display"

  /**
   * One configured step (`CmpAction`). Each variant is named after the key that
   * tags it in the serialized record; `selector` is the value stored under that key.
   */
  datatype CmpAction =
    | Exists(selector: string)
    | Visible(selector: string, check: VisibleCheck)
    | WaitFor(selector: string, timeout: int)
    | WaitForVisible(selector: string, timeout: int, check: VisibleCheck)
    | Click(selector: string, all: bool)
    | WaitForThenClick(selector: string, timeout: int, all: bool)
    | Wait(duration: int)
    | Hide(selector: string, hideMethod: HideMethod)
    | Eval(expression: string)

  /** `runContext`; every field is optional in the schema. */
  datatype RunContext = RunContext(main: Option<bool>, frame: Option<bool>, urlPattern: Option<string>)

  /** `AutoCmp`: one configuration record; optional fields are `Option`s. */
  datatype AutoCmp = AutoCmp(
    name: string,
    detectCMP: seq<CmpAction>,
    detectPopup: seq<CmpAction>,
    optOut: seq<CmpAction>,
    optIn: seq<CmpAction>,
    prehideSelectors: Option<seq<string>>,
    cosmetic: Option<bool>,
    intermediate: Option<bool>,
    runContext: Option<RunContext>,
    test: Option<seq<CmpAction>>)
}
