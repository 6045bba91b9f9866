/**
 * The transformer: maps one parsed rule to one autoconsent configuration record.
 * Option lookup is by name (the first match wins, presence alone is a boolean flag),
 * enum options fall back to a default, numeric options go through `parseInt(text, 10)`
 * with 0 for `NaN`, and every chain's handled actions are appended, in order, to the
 * opt-in list (positive chain) or the opt-out list (negative chain).
 */
module Transformer {
  import opened Wrappers
  import opened RuleTree
  import opened Autoconsent
  import JsNumber
  import opened Lists

  // ---------------------------------------------------------------- Options

  /** `i` is the option `options.find(o => o.name.value === key)` returns. */
  predicate IsFirstNamed(options: seq<OptionDecl>, key: string, i: int) {
    0 <= i < |options| && options[i].name.value == key
    && forall j :: 0 <= j < i ==> options[j].name.value != key
  }

  lemma FirstNamedUnique(options: seq<OptionDecl>, key: string, i: int, j: int)
    requires IsFirstNamed(options, key, i) && IsFirstNamed(options, key, j)
    ensures i == j
  {
  }

  /** The position of the option `find` returns, if any. */
  function FindOption(options: seq<OptionDecl>, key: string): (r: Option<nat>)
    ensures r.Some? ==> IsFirstNamed(options, key, r.value)
    ensures r.None? ==> forall j :: 0 <= j < |options| ==> options[j].name.value != key
  {
    if |options| == 0 then None
    else if options[0].name.value == key then Some(0)
    else match FindOption(options[1..], key)
      case None => None
      case Some(k) => Some(k + 1)
  }

  /** `hasKey`: some option carries the name `key`, whatever its value. */
  function HasKey(options: seq<OptionDecl>, key: string): (b: bool)
    ensures b <==> exists i :: 0 <= i < |options| && options[i].name.value == key
  {
    FindOption(options, key).Some?
  }

  /** `getOption`: the value text of the first option named `key`, if that option has a value. */
  function GetOption(options: seq<OptionDecl>, key: string): (r: Option<string>)
    ensures r.Some? ==>
      exists i :: IsFirstNamed(options, key, i) && options[i].value == Some(Identifier(r.value))
    ensures r.None? ==> forall i :: IsFirstNamed(options, key, i) ==> options[i].value.None?
  {
    match FindOption(options, key)
    case None => None
    case Some(i) => if options[i].value.Some? then Some(options[i].value.value.value) else None
  }

  /** Putting an option with another name anywhere in the list does not change what `key` finds. */
  lemma GetOptionInsertOther(options: seq<OptionDecl>, key: string, k: nat, o: OptionDecl)
    requires k <= |options|
    requires o.name.value != key
    ensures GetOption(options[..k] + [o] + options[k..], key) == GetOption(options, key)
  {
    var ins := options[..k] + [o] + options[k..];
    assert forall j :: 0 <= j < k ==> ins[j] == options[j];
    assert forall j :: k < j < |ins| ==> ins[j] == options[j - 1];
    match FindOption(options, key)
    case None =>
      assert forall j :: 0 <= j < |ins| ==> ins[j].name.value != key;
    case Some(i) =>
      var m := if i < k then i else i + 1;
      assert ins[m] == options[i];
      assert IsFirstNamed(ins, key, m);
      FirstNamedUnique(ins, key, m, FindOption(ins, key).value);
  }

  /** `isVisibleCheckOption`: the type guard for `'any' | 'all' | 'none'`. */
  predicate IsVisibleCheckOption(text: Option<string>): (b: bool)
    ensures b <==> text.Some? && text.value in {"any", "all", "none"}
  {
    text.Some? && (text.value == "any" || text.value == "all" || text.value == "none")
  }

  /** `isHideMethodOption`: the type guard for `'display' | 'opacity'`. */
  predicate IsHideMethodOption(text: Option<string>): (b: bool)
    ensures b <==> text.Some? && text.value in {"display", "opacity"}
  {
    text.Some? && (text.value == "display" || text.value == "opacity")
  }

  /** `useCheck`: the text itself when it is exactly `any`, `all` or `none`; otherwise `any`. */
  function UseCheck(text: Option<string>): (r: VisibleCheck)
    ensures IsVisibleCheckOption(text) ==> r == text.value
    ensures !IsVisibleCheckOption(text) ==> r == "any"
  {
    var t := text.GetOr("any");
    if IsVisibleCheckOption(Some(t)) then t else "any"
  }

  /** `useMethod`: the text itself when it is exactly `display` or `opacity`; otherwise `display`. */
  function UseMethod(text: Option<string>): (r: HideMethod)
    ensures IsHideMethodOption(text) ==> r == text.value
    ensures !IsHideMethodOption(text) ==> r == "display"
  {
    var t := text.GetOr("display");
    if IsHideMethodOption(Some(t)) then t else "display"
  }

  /**
   * `n` is what `useNumeric` gives for `text`: 0 when the text is absent, otherwise the
   * `parseInt` value, with 0 for `NaN`.
   */
  predicate ReadsNumber(text: Option<string>, n: int) {
    if text.None? then n == 0
    else JsNumber.ParseInt(text.value) == Some(n) || (JsNumber.ParseInt(text.value).None? && n == 0)
  }

  /** `useNumeric`: `parseInt(text, 10)`, with an absent text read as `"0"` and `NaN` as 0. */
  function UseNumeric(text: Option<string>): (n: int)
    ensures ReadsNumber(text, n)
  {
    var t := text.GetOr("0");
    JsNumber.ParseIntRoundTrip(0);
    assert JsNumber.IntToString(0) == "0";
    match JsNumber.ParseInt(t)
    case None => 0
    case Some(v) => v
  }

  /** A decimal integer, after any leading white space, is read back exactly. */
  lemma UseNumericDecimal(w: string, i: int)
    requires forall k :: 0 <= k < |w| ==> JsNumber.IsWhitespace(w[k])
    ensures UseNumeric(Some(w + JsNumber.IntToString(i))) == i
  {
    JsNumber.ParseIntSkipsWhitespace(w, JsNumber.IntToString(i));
    JsNumber.ParseIntRoundTrip(i);
  }

  /** Text that does not start (after white space and a sign) with a digit reads as 0. */
  lemma UseNumericNonNumeric(w: string, sign: string, rest: string)
    requires forall k :: 0 <= k < |w| ==> JsNumber.IsWhitespace(w[k])
    requires sign == "" || sign == "-" || sign == "+"
    requires |rest| == 0 || (!JsNumber.IsDigit(rest[0])
                            && (sign != "" || (!JsNumber.IsWhitespace(rest[0]) && rest[0] != '-' && rest[0] != '+')))
    ensures UseNumeric(Some(w + sign + rest)) == 0
  {
    JsNumber.ParseIntNoDigits(w, sign, rest);
  }

  // ---------------------------------------------------------------- Actions

  /** `exists`: the chain selector; options play no part. */
  function TransformExistsAction(action: ActionDeclaration, self: string): (r: CmpAction)
    ensures r.Exists? && r.selector == self
  {
    Exists(self)
  }

  /** `visible`: the chain selector and the `check` option, defaulting to `any`. */
  function TransformCheckAction(action: ActionDeclaration, self: string): (r: CmpAction)
    ensures r.Visible? && r.selector == self
    ensures IsVisibleCheckOption(GetOption(action.options, "check")) ==>
      r.check == GetOption(action.options, "check").value
    ensures !IsVisibleCheckOption(GetOption(action.options, "check")) ==> r.check == "any"
  {
    Visible(self, UseCheck(GetOption(action.options, "check")))
  }

  /** `waitFor`: the chain selector and the numeric `timeout` option. */
  function TransformWaitForAction(action: ActionDeclaration, self: string): (r: CmpAction)
    ensures r.WaitFor? && r.selector == self
    ensures ReadsNumber(GetOption(action.options, "timeout"), r.timeout)
  {
    WaitFor(self, UseNumeric(GetOption(action.options, "timeout")))
  }

  /** `waitForVisible`: the timeout is read from the option named `check`, as the check itself is. */
  function TransformWaitForVisibleAction(action: ActionDeclaration, self: string): (r: CmpAction)
    ensures r.WaitForVisible? && r.selector == self
    ensures ReadsNumber(GetOption(action.options, "check"), r.timeout)
    ensures IsVisibleCheckOption(GetOption(action.options, "check")) ==>
      r.check == GetOption(action.options, "check").value
    ensures !IsVisibleCheckOption(GetOption(action.options, "check")) ==> r.check == "any"
  {
    WaitForVisible(self,
      UseNumeric(GetOption(action.options, "check")),
      UseCheck(GetOption(action.options, "check")))
  }

  /** `click`: the chain selector, and `all` when an option of that name is present. */
  function TransformClickAction(action: ActionDeclaration, self: string): (r: CmpAction)
    ensures r.Click? && r.selector == self
    ensures r.all <==> exists i :: 0 <= i < |action.options| && action.options[i].name.value == "all"
  {
    Click(self, HasKey(action.options, "all"))
  }

  /** `waitForThenClick`: `waitFor`'s timeout and `click`'s `all` flag. */
  function TransformWaitForThenClickAction(action: ActionDeclaration, self: string): (r: CmpAction)
    ensures r.WaitForThenClick? && r.selector == self
    ensures ReadsNumber(GetOption(action.options, "timeout"), r.timeout)
    ensures r.all <==> exists i :: 0 <= i < |action.options| && action.options[i].name.value == "all"
  {
    WaitForThenClick(self,
      UseNumeric(GetOption(action.options, "timeout")),
      HasKey(action.options, "all"))
  }

  /**
   * `wait`: the number read from `for`, falling back to the one read from `_` when `for`
   * gives 0 (JavaScript's `||` on numbers). The selector plays no part.
   */
  function TransformWaitAction(action: ActionDeclaration, self: string): (r: CmpAction)
    ensures r.Wait?
    ensures (ReadsNumber(GetOption(action.options, "for"), r.duration) && r.duration != 0)
         || (ReadsNumber(GetOption(action.options, "for"), 0)
             && ReadsNumber(GetOption(action.options, "_"), r.duration))
  {
    var duration := UseNumeric(GetOption(action.options, "for"));
    Wait(if duration != 0 then duration else UseNumeric(GetOption(action.options, "_")))
  }

  /** `hide`: the chain selector and the `method` option, defaulting to `display`. */
  function TransformHideAction(action: ActionDeclaration, self: string): (r: CmpAction)
    ensures r.Hide? && r.selector == self
    ensures IsHideMethodOption(GetOption(action.options, "method")) ==>
      r.hideMethod == GetOption(action.options, "method").value
    ensures !IsHideMethodOption(GetOption(action.options, "method")) ==> r.hideMethod == "display"
  {
    Hide(self, UseMethod(GetOption(action.options, "method")))
  }

  /** `eval`: the text of option `_`, or `""` when it has none. The selector plays no part. */
  function TransformEvalAction(action: ActionDeclaration, self: string): (r: CmpAction)
    ensures r.Eval?
    ensures GetOption(action.options, "_").Some? ==> r.expression == GetOption(action.options, "_").value
    ensures GetOption(action.options, "_").None? ==> r.expression == ""
  {
    Eval(GetOption(action.options, "_").GetOr(""))
  }

  /** The output variant that stands for each handled keyword. */
  predicate ProducedBy(kind: ActionKind, a: CmpAction) {
    match kind
    case ExistsKind => a.Exists?
    case VisibleKind => a.Visible?
    case WaitForKind => a.WaitFor?
    case WaitForVisibleKind => a.WaitForVisible?
    case ClickKind => a.Click?
    case WaitForThenClickKind => a.WaitForThenClick?
    case WaitKind => a.Wait?
    case HideKind => a.Hide?
    case EvalKind => a.Eval?
    case OtherKind(_) => false
  }

  /**
   * The `switch` on `action.kind` in `transform`: one output entry per handled keyword,
   * nothing for any other keyword.
   */
  function TransformAction(action: ActionDeclaration, self: string): (r: Option<CmpAction>)
    ensures r.None? <==> action.kind.OtherKind?
    ensures r.Some? ==> ProducedBy(action.kind, r.value)
    ensures r.Some? && !r.value.Wait? && !r.value.Eval? ==> r.value.selector == self
  {
    match action.kind
    case ExistsKind => Some(TransformExistsAction(action, self))
    case VisibleKind => Some(TransformCheckAction(action, self))
    case WaitForKind => Some(TransformWaitForAction(action, self))
    case WaitForVisibleKind => Some(TransformWaitForVisibleAction(action, self))
    case ClickKind => Some(TransformClickAction(action, self))
    case WaitForThenClickKind => Some(TransformWaitForThenClickAction(action, self))
    case WaitKind => Some(TransformWaitAction(action, self))
    case HideKind => Some(TransformHideAction(action, self))
    case EvalKind => Some(TransformEvalAction(action, self))
    case OtherKind(_) => None
  }

  /** The entries one action adds to its chain's `actions` list: one, or none for an unknown keyword. */
  function ActionEntries(self: string): ActionDeclaration -> seq<CmpAction> {
    (action: ActionDeclaration) => if TransformAction(action, self).Some? then [TransformAction(action, self).value] else []
  }

  /** The `actions` list one chain builds: its handled actions mapped in source order. */
  function MapActions(actions: seq<ActionDeclaration>, self: string): seq<CmpAction> {
    FlatMap(actions, ActionEntries(self))
  }

  /** The entries one chain adds to the list of the given polarity. */
  function ChainEntries(positive: bool): ChainableDeclaration -> seq<CmpAction> {
    (chain: ChainableDeclaration) => if chain.positive == positive then MapActions(chain.actions, chain.selector.value) else []
  }

  /** Concatenation, in chain order, of the mapped actions of the chains of one polarity. */
  function Collect(chains: seq<ChainableDeclaration>, positive: bool): seq<CmpAction> {
    FlatMap(chains, ChainEntries(positive))
  }

  /** An action with an unknown keyword contributes nothing and leaves its neighbours' entries alone. */
  lemma UnknownKeywordDropped(xs: seq<ActionDeclaration>, other: ActionDeclaration,
                              ys: seq<ActionDeclaration>, self: string)
    requires other.kind.OtherKind?
    ensures MapActions(xs + [other] + ys, self) == MapActions(xs + ys, self)
  {
    FlatMapSkip(xs, other, ys, ActionEntries(self));
  }

  /** When every keyword is handled, each action gives exactly one entry, in source order. */
  lemma MapActionsAllHandled(actions: seq<ActionDeclaration>, self: string)
    requires forall k :: 0 <= k < |actions| ==> !actions[k].kind.OtherKind?
    ensures |MapActions(actions, self)| == |actions|
    ensures forall k :: 0 <= k < |actions| ==>
      TransformAction(actions[k], self) == Some(MapActions(actions, self)[k])
  {
    var f := ActionEntries(self);
    assert forall k :: 0 <= k < |actions| ==> |f(actions[k])| == 1;
    FlatMapSingletons(actions, f);
  }

  /** Chain `c` has the given polarity and `x` is among its mapped actions. */
  predicate ProducedByChain(c: ChainableDeclaration, positive: bool, x: CmpAction) {
    c.positive == positive && x in MapActions(c.actions, c.selector.value)
  }

  /**
   * Chain polarity: an entry is in the list of one polarity exactly when some chain of
   * that polarity produced it.
   */
  lemma CollectPolarity(chains: seq<ChainableDeclaration>, positive: bool, x: CmpAction)
    ensures x in Collect(chains, positive) <==>
      exists k :: 0 <= k < |chains| && ProducedByChain(chains[k], positive, x)
  {
    var f := ChainEntries(positive);
    FlatMapMember(chains, f, x);
    assert forall k :: 0 <= k < |chains| ==> (x in f(chains[k]) <==> ProducedByChain(chains[k], positive, x));
  }

  /** A chain of the other polarity can be added anywhere without changing a list. */
  lemma CollectIgnoresOtherPolarity(cs: seq<ChainableDeclaration>, c: ChainableDeclaration,
                                    ds: seq<ChainableDeclaration>, positive: bool)
    requires c.positive != positive
    ensures Collect(cs + [c] + ds, positive) == Collect(cs + ds, positive)
  {
    FlatMapSkip(cs, c, ds, ChainEntries(positive));
  }

  /** Chains do not affect each other: the lists of a concatenation are the concatenated lists. */
  lemma CollectAppend(cs: seq<ChainableDeclaration>, ds: seq<ChainableDeclaration>, positive: bool)
    ensures Collect(cs + ds, positive) == Collect(cs, positive) + Collect(ds, positive)
  {
    FlatMapAppend(cs, ds, ChainEntries(positive));
  }

  // ---------------------------------------------------------------- Per-action fields

  /** Absent options fall back: `check` to `any`, `method` to `display`, `_` of `eval` to `""`. */
  lemma ActionDefaults(action: ActionDeclaration, self: string)
    ensures !HasKey(action.options, "check") ==>
      TransformCheckAction(action, self) == Visible(self, "any")
      && TransformWaitForVisibleAction(action, self) == WaitForVisible(self, 0, "any")
    ensures !HasKey(action.options, "method") ==>
      TransformHideAction(action, self) == Hide(self, "display")
    ensures !HasKey(action.options, "timeout") ==>
      TransformWaitForAction(action, self) == WaitFor(self, 0)
      && TransformWaitForThenClickAction(action, self).timeout == 0
    ensures !HasKey(action.options, "for") && !HasKey(action.options, "_") ==>
      TransformWaitAction(action, self) == Wait(0)
    ensures !HasKey(action.options, "_") ==> TransformEvalAction(action, self) == Eval("")
  {
    if !HasKey(action.options, "check") {
      assert GetOption(action.options, "check").None?;
    }
    if !HasKey(action.options, "method") {
      assert GetOption(action.options, "method").None?;
    }
    if !HasKey(action.options, "timeout") {
      assert GetOption(action.options, "timeout").None?;
    }
    if !HasKey(action.options, "for") {
      assert GetOption(action.options, "for").None?;
    }
    if !HasKey(action.options, "_") {
      assert GetOption(action.options, "_").None?;
    }
  }

  /**
   * `waitForVisible` reads its timeout from the `check` text, so a check of `all` or
   * `none` always comes with timeout 0, and a non-zero timeout always with check `any`.
   */
  lemma WaitForVisibleSharesCheckText(action: ActionDeclaration, self: string)
    ensures TransformWaitForVisibleAction(action, self).check != "any" ==>
      TransformWaitForVisibleAction(action, self).timeout == 0
  {
    var text := GetOption(action.options, "check");
    if text == Some("all") {
      UseNumericNonNumeric("", "", "all");
      assert "" + "" + "all" == "all";
    } else if text == Some("none") {
      UseNumericNonNumeric("", "", "none");
      assert "" + "" + "none" == "none";
    }
  }

  /** An option named `timeout` has no effect on `waitForVisible`. */
  lemma WaitForVisibleIgnoresTimeout(action: ActionDeclaration, k: nat, value: Option<Identifier>, self: string)
    requires k <= |action.options|
    ensures TransformWaitForVisibleAction(
              action.(options := action.options[..k] + [OptionDecl(Identifier("timeout"), value)] + action.options[k..]),
              self)
         == TransformWaitForVisibleAction(action, self)
  {
    GetOptionInsertOther(action.options, "check", k, OptionDecl(Identifier("timeout"), value));
  }

  /** `click` and `waitForThenClick` set `all` from presence alone: `all: false` still gives true. */
  lemma ClickAllIsPresence(action: ActionDeclaration, self: string)
    ensures TransformClickAction(action, self).all
        <==> exists i :: 0 <= i < |action.options| && action.options[i].name.value == "all"
    ensures TransformWaitForThenClickAction(action, self).all
        == TransformClickAction(action, self).all
  {
  }

  /**
   * An explicit `for: 0` on `wait` is indistinguishable from no `for` at all: both fall
   * through to the option `_`.
   */
  lemma WaitExplicitZeroFallsThrough(kind: ActionKind, rest: seq<OptionDecl>, k: nat, self: string)
    requires k <= |rest|
    requires !HasKey(rest, "for")
    ensures TransformWaitAction(
              ActionDeclaration(kind, rest[..k] + [OptionDecl(Identifier("for"), Some(Identifier("0")))] + rest[k..]),
              self)
         == TransformWaitAction(ActionDeclaration(kind, rest), self)
    ensures TransformWaitAction(ActionDeclaration(kind, rest), self)
         == Wait(UseNumeric(GetOption(rest, "_")))
  {
    var zero := OptionDecl(Identifier("for"), Some(Identifier("0")));
    var with := rest[..k] + [zero] + rest[k..];
    assert with[k] == zero;
    assert forall j :: 0 <= j < k ==> with[j] == rest[j];
    assert IsFirstNamed(with, "for", k);
    FirstNamedUnique(with, "for", k, FindOption(with, "for").value);
    assert GetOption(with, "for") == Some("0");
    UseNumericDecimal("", 0);
    assert "" + JsNumber.IntToString(0) == "0";
    GetOptionInsertOther(rest, "_", k, zero);
    assert GetOption(rest, "for").None?;
  }

  // ---------------------------------------------------------------- Rules

  /** `name`: the value of the first rule option named `name` when it has one (even `""`), else the domain. */
  function RuleName(rule: RuleDeclaration): (r: string)
    ensures forall i :: IsFirstNamed(rule.options, "name", i) && rule.options[i].value.Some? ==>
      r == rule.options[i].value.value.value
    ensures (forall i :: IsFirstNamed(rule.options, "name", i) ==> rule.options[i].value.None?) ==>
      r == rule.domain.value
  {
    GetOption(rule.options, "name").GetOr(rule.domain.value)
  }

  /**
   * The rule of the transformer's unit test: no options, chains
   * `+button[action="optIn"]:click()` and `-button[action="optOut"]:waitForVisible():click()`.
   */
  lemma TransformTestExpectation()
    ensures var optInSel := "button[action=\"optIn\"]";
      var optOutSel := "button[action=\"optOut\"]";
      var rule := RuleDeclaration(Identifier("domain.tld"), Identifier("test"), [
        ChainableDeclaration(true, Identifier(optInSel), [ActionDeclaration(ClickKind, [])]),
        ChainableDeclaration(false, Identifier(optOutSel),
          [ActionDeclaration(WaitForVisibleKind, []), ActionDeclaration(ClickKind, [])])], []);
      RuleName(rule) == "domain.tld"
      && Collect(rule.chains, true) == [Click(optInSel, false)]
      && Collect(rule.chains, false) == [WaitForVisible(optOutSel, 0, "any"), Click(optOutSel, false)]
      && !HasKey(rule.options, "cosmetic") && !HasKey(rule.options, "intermediate")
      && !HasKey(rule.options, "main") && !HasKey(rule.options, "frame")
      && GetOption(rule.options, "at").None?
  {
    var optOutSel := "button[action=\"optOut\"]";
    var wait := ActionDeclaration(WaitForVisibleKind, []);
    var click := ActionDeclaration(ClickKind, []);
    ActionDefaults(wait, optOutSel);
    MapActionsPair(wait, click, optOutSel, WaitForVisible(optOutSel, 0, "any"), Click(optOutSel, false));
    var optInSel := "button[action=\"optIn\"]";
    var optInChain := ChainableDeclaration(true, Identifier(optInSel), [click]);
    var optOutChain := ChainableDeclaration(false, Identifier(optOutSel), [wait, click]);
    FlatMapSingle(click, ActionEntries(optInSel));
    CollectPair(optInChain, optOutChain, true);
    CollectPair(optInChain, optOutChain, false);
  }

  /**
   * The transformer's unit test run through `Transform`: the whole record its `deepEqual`
   * expects, with `urlPattern`, `prehideSelectors` and `test` absent.
   */
  method TransformUnitTest() returns (cmp: AutoCmp)
    ensures cmp == AutoCmp(
      name := "domain.tld",
      detectCMP := [Exists("test")],
      detectPopup := [Visible("test", "any")],
      optOut := [WaitForVisible("button[action=\"optOut\"]", 0, "any"), Click("button[action=\"optOut\"]", false)],
      optIn := [Click("button[action=\"optIn\"]", false)],
      prehideSelectors := None,
      cosmetic := Some(false),
      intermediate := Some(false),
      runContext := Some(RunContext(main := Some(false), frame := Some(false), urlPattern := None)),
      test := None)
  {
    var optInSel := "button[action=\"optIn\"]";
    var optOutSel := "button[action=\"optOut\"]";
    var rule := RuleDeclaration(Identifier("domain.tld"), Identifier("test"), [
      ChainableDeclaration(true, Identifier(optInSel), [ActionDeclaration(ClickKind, [])]),
      ChainableDeclaration(false, Identifier(optOutSel),
        [ActionDeclaration(WaitForVisibleKind, []), ActionDeclaration(ClickKind, [])])], []);
    TransformTestExpectation();
    cmp := Transform(rule);
  }

  /** Two handled actions of one chain give their two entries, in order. */
  lemma MapActionsPair(a: ActionDeclaration, b: ActionDeclaration, self: string, x: CmpAction, y: CmpAction)
    requires TransformAction(a, self) == Some(x) && TransformAction(b, self) == Some(y)
    ensures MapActions([a, b], self) == [x, y]
  {
    FlatMapPair(a, b, ActionEntries(self));
  }

  /** Two chains: each contributes its own mapped actions to the list of its polarity. */
  lemma CollectPair(c: ChainableDeclaration, d: ChainableDeclaration, positive: bool)
    ensures Collect([c, d], positive)
         == (if c.positive == positive then MapActions(c.actions, c.selector.value) else [])
          + (if d.positive == positive then MapActions(d.actions, d.selector.value) else [])
  {
    FlatMapPair(c, d, ChainEntries(positive));
  }

  /** `waitFor(timeout: 500)`: the value text `" 500"` keeps its leading space and still reads as 500. */
  lemma WaitForTimeoutWithSpace(self: string)
    ensures TransformWaitForAction(
              ActionDeclaration(WaitForKind, [OptionDecl(Identifier("timeout"), Some(Identifier(" 500")))]), self)
         == WaitFor(self, 500)
  {
    var timeout := OptionDecl(Identifier("timeout"), Some(Identifier(" 500")));
    assert IsFirstNamed([timeout], "timeout", 0);
    assert GetOption([timeout], "timeout") == Some(" 500");
    assert JsNumber.NatToString(500) == "500" by {
      assert JsNumber.NatToString(5) == "5";
      assert JsNumber.NatToString(50) == "50";
    }
    UseNumericDecimal(" ", 500);
    assert " " + JsNumber.IntToString(500) == " 500";
  }

  /** The opt-out chain `-div:waitFor(timeout: 500):click()`. */
  lemma DivChainExample()
    ensures MapActions([
        ActionDeclaration(WaitForKind, [OptionDecl(Identifier("timeout"), Some(Identifier(" 500")))]),
        ActionDeclaration(ClickKind, [])], "div")
      == [WaitFor("div", 500), Click("div", false)]
  {
    WaitForTimeoutWithSpace("div");
    MapActionsPair(
      ActionDeclaration(WaitForKind, [OptionDecl(Identifier("timeout"), Some(Identifier(" 500")))]),
      ActionDeclaration(ClickKind, []), "div", WaitFor("div", 500), Click("div", false));
  }

  /** The opt-in chain `+button:waitFor():click(all: true)`. */
  lemma ButtonChainExample()
    ensures MapActions([
        ActionDeclaration(WaitForKind, []),
        ActionDeclaration(ClickKind, [OptionDecl(Identifier("all"), Some(Identifier(" true")))])], "button")
      == [WaitFor("button", 0), Click("button", true)]
  {
    var clickButton := ActionDeclaration(ClickKind, [OptionDecl(Identifier("all"), Some(Identifier(" true")))]);
    ActionDefaults(ActionDeclaration(WaitForKind, []), "button");
    assert clickButton.options[0].name.value == "all";
    MapActionsPair(ActionDeclaration(WaitForKind, []), clickButton, "button",
      WaitFor("button", 0), Click("button", true));
  }

  /**
   * The two-chain rule `domain.tld##test` / `-div:waitFor(timeout: 500):click()` /
   * `+button:waitFor():click(all: true)`, as the parser's test expects it parsed.
   */
  lemma TwoChainExample()
    ensures var rule := RuleDeclaration(Identifier("domain.tld"), Identifier("test"), [
        ChainableDeclaration(false, Identifier("div"), [
          ActionDeclaration(WaitForKind, [OptionDecl(Identifier("timeout"), Some(Identifier(" 500")))]),
          ActionDeclaration(ClickKind, [])]),
        ChainableDeclaration(true, Identifier("button"), [
          ActionDeclaration(WaitForKind, []),
          ActionDeclaration(ClickKind, [OptionDecl(Identifier("all"), Some(Identifier(" true")))])])], []);
      Collect(rule.chains, false) == [WaitFor("div", 500), Click("div", false)]
      && Collect(rule.chains, true) == [WaitFor("button", 0), Click("button", true)]
  {
    DivChainExample();
    ButtonChainExample();
    var div := ChainableDeclaration(false, Identifier("div"), [
      ActionDeclaration(WaitForKind, [OptionDecl(Identifier("timeout"), Some(Identifier(" 500")))]),
      ActionDeclaration(ClickKind, [])]);
    var button := ChainableDeclaration(true, Identifier("button"), [
      ActionDeclaration(WaitForKind, []),
      ActionDeclaration(ClickKind, [OptionDecl(Identifier("all"), Some(Identifier(" true")))])]);
    CollectPair(div, button, false);
    CollectPair(div, button, true);
  }

  /**
   * The inner loop of `transform`: the `switch` over each action of one chain, pushing the
   * mapped entry into the chain's local `actions` list (unknown keywords push nothing).
   */
  method TransformChainActions(chain: ChainableDeclaration) returns (actions: seq<CmpAction>)
    ensures actions == MapActions(chain.actions, chain.selector.value)
  {
    actions := [];
    for j := 0 to |chain.actions|
      invariant actions == MapActions(chain.actions[..j], chain.selector.value)
    {
      var action := chain.actions[j];
      var self := chain.selector.value;
      match action.kind {
        case ExistsKind => actions := actions + [TransformExistsAction(action, self)];
        case VisibleKind => actions := actions + [TransformCheckAction(action, self)];
        case WaitForKind => actions := actions + [TransformWaitForAction(action, self)];
        case WaitForVisibleKind => actions := actions + [TransformWaitForVisibleAction(action, self)];
        case ClickKind => actions := actions + [TransformClickAction(action, self)];
        case WaitForThenClickKind => actions := actions + [TransformWaitForThenClickAction(action, self)];
        case WaitKind => actions := actions + [TransformWaitAction(action, self)];
        case HideKind => actions := actions + [TransformHideAction(action, self)];
        case EvalKind => actions := actions + [TransformEvalAction(action, self)];
        case OtherKind(_) =>
      }
      assert chain.actions[..j + 1][..j] == chain.actions[..j];
    }
    assert chain.actions[..|chain.actions|] == chain.actions;
  }

  /** `transform`: one rule to one configuration record. */
  method Transform(rule: RuleDeclaration) returns (cmp: AutoCmp)
    ensures cmp.name == RuleName(rule)
    ensures cmp.detectCMP == [Exists(rule.detectionSelector.value)]
    ensures cmp.detectPopup == [Visible(rule.detectionSelector.value, "any")]
    ensures cmp.optIn == Collect(rule.chains, true)
    ensures cmp.optOut == Collect(rule.chains, false)
    ensures cmp.cosmetic == Some(HasKey(rule.options, "cosmetic"))
    ensures cmp.intermediate == Some(HasKey(rule.options, "intermediate"))
    ensures cmp.runContext.Some?
    ensures cmp.runContext.value.main == Some(HasKey(rule.options, "main"))
    ensures cmp.runContext.value.frame == Some(HasKey(rule.options, "frame"))
    ensures cmp.runContext.value.urlPattern.Some? <==>
      GetOption(rule.options, "at").Some? && GetOption(rule.options, "at").value != ""
    ensures cmp.runContext.value.urlPattern.Some? ==>
      cmp.runContext.value.urlPattern == GetOption(rule.options, "at")
    ensures cmp.prehideSelectors.None? && cmp.test.None?
  {
    var name := GetOption(rule.options, "name").GetOr(rule.domain.value);
    var optIn: seq<CmpAction> := [];
    var optOut: seq<CmpAction> := [];

    for c := 0 to |rule.chains|
      invariant optIn == Collect(rule.chains[..c], true)
      invariant optOut == Collect(rule.chains[..c], false)
    {
      var chain := rule.chains[c];
      var actions := TransformChainActions(chain);

      if chain.positive {
        optIn := optIn + actions;
      } else {
        optOut := optOut + actions;
      }
      assert rule.chains[..c + 1][..c] == rule.chains[..c];
    }
    assert rule.chains[..|rule.chains|] == rule.chains;

    cmp := AutoCmp(
      name := name,
      detectCMP := [Exists(rule.detectionSelector.value)],
      detectPopup := [Visible(rule.detectionSelector.value, "any")],
      optOut := optOut,
      optIn := optIn,
      prehideSelectors := None,
      cosmetic := Some(HasKey(rule.options, "cosmetic")),
      intermediate := Some(HasKey(rule.options, "intermediate")),
      runContext := Some(RunContext(
        main := Some(HasKey(rule.options, "main")),
        frame := Some(HasKey(rule.options, "frame")),
        urlPattern := None)),
      test := None);

    var at := GetOption(rule.options, "at");
    if at.Some? && at.value != "" {
      cmp := cmp.(runContext := Some(cmp.runContext.value.(urlPattern := at)));
    }
  }
}
