/**
 * `ActionExecutor` (src/action-executor.js): walks an action tree and applies each action
 * to the page. The page is a sequence of element records; CSS selector matching is an
 * oracle (`Selectors`); cookie writes, clicks, reloads, timer waits and runtime messages are
 * append-only logs.
 *
 * Every operation is specified twice: as a function from the state before to the state
 * after (`State`, `Env`), and as a method of the class `ActionExecutor` whose fields and
 * whose `Page` change in place, proved to end in the state the function describes.
 */
module ActionExecutor {
  import opened JsText
  import opened JsValue

  // ---------------------------------------------------------------------------------------
  // The page and the executor's state
  // ---------------------------------------------------------------------------------------

  /** A DOM element: an identity, its class list and its inline style. */
  datatype Element = Element(id: nat, classes: set<string>, style: map<string, string>)

  /**
   * The selector engine: `valid(q)` when `querySelectorAll(q)` does not throw a SyntaxError,
   * and `matches(q, e)` when the element `e` matches `q`.
   */
  datatype Selectors = Selectors(valid: string -> bool, matches: (string, Element) -> bool)

  /** A rule of the executor's own style sheet. */
  datatype CssRule = CssRule(selectorText: string, cssText: string)

  /** What `chrome.runtime.sendMessage` is given. */
  datatype Message = UpdateCounter(count: int) | ClearAllCookies

  /** What does not change during a pass: the page's host name, its cookies, its selectors. */
  datatype Env = Env(hostname: string, cookie: string, selectors: Selectors)

  /** Everything a pass can change: the page and its logs, then the executor's own fields. */
  datatype State = State(
    elements: seq<Element>,
    cookieWrites: seq<string>,
    clicks: seq<Element>,
    reloads: nat,
    waits: seq<Value>,
    outbox: seq<Message>,
    elementCount: nat,
    cookieCount: nat,
    globalStyles: map<Value, string>,
    sheet: Option<seq<CssRule>>)

  // ---------------------------------------------------------------------------------------
  // Selector queries
  // ---------------------------------------------------------------------------------------

  /** `querySelectorAll(q)`: the matching elements in document order. */
  function Matched(sel: Selectors, q: string, els: seq<Element>): (r: seq<Element>)
    ensures |r| <= |els|
  {
    if els == [] then []
    else
      var init := Matched(sel, q, els[..|els| - 1]);
      var last := els[|els| - 1];
      assert els == els[..|els| - 1] + [last];
      if sel.matches(q, last) then init + [last] else init
  }

  /** The elements that do not match `q`, in document order. */
  function Unmatched(sel: Selectors, q: string, els: seq<Element>): (r: seq<Element>)
    ensures |r| + |Matched(sel, q, els)| == |els|
  {
    if els == [] then []
    else
      var init := Unmatched(sel, q, els[..|els| - 1]);
      var last := els[|els| - 1];
      assert els == els[..|els| - 1] + [last];
      if sel.matches(q, last) then init else init + [last]
  }

  /** The query keeps exactly the matching elements, and the rest keeps exactly the others. */
  lemma {:induction false} QueryMembers(sel: Selectors, q: string, els: seq<Element>)
    ensures forall e :: e in Matched(sel, q, els) <==> e in els && sel.matches(q, e)
    ensures forall e :: e in Unmatched(sel, q, els) <==> e in els && !sel.matches(q, e)
  {
    if els != [] {
      var init := els[..|els| - 1];
      QueryMembers(sel, q, init);
      assert els == init + [els[|els| - 1]];
    }
  }

  /** Extending the document by one element extends exactly one of the two partitions. */
  lemma QuerySnoc(sel: Selectors, q: string, els: seq<Element>, e: Element)
    ensures Matched(sel, q, els + [e]) == Matched(sel, q, els) + (if sel.matches(q, e) then [e] else [])
    ensures Unmatched(sel, q, els + [e]) == Unmatched(sel, q, els) + (if sel.matches(q, e) then [] else [e])
  {
    assert (els + [e])[..|els|] == els;
  }

  // ---------------------------------------------------------------------------------------
  // Element handlers: `_removeElement`, `_setStyle`/`_hideElement`, `_removeClass`,
  // `_clickElement`. An invalid selector makes `querySelectorAll` throw; `_executeAction`
  // catches that and answers `false`.
  // ---------------------------------------------------------------------------------------

  /** `_removeElement`: every match leaves the page and is counted. */
  function ElementsRemoved(env: Env, s: State, target: Value): (r: (State, Value)) {
    var q := ToJsString(target);
    if !env.selectors.valid(q) then (s, Bool(false))
    else
      (s.(elements := Unmatched(env.selectors, q, s.elements),
          elementCount := s.elementCount + |Matched(env.selectors, q, s.elements)|),
       Undefined)
  }

  /**
   * One pass of `querySelectorAll(q).forEach(el => el.remove())` over the page's elements
   * in document order: the elements that stay, and how many went.
   */
  method Partition(sel: Selectors, q: string, els: seq<Element>) returns (kept: seq<Element>, removed: nat)
    ensures kept == Unmatched(sel, q, els)
    ensures removed == |Matched(sel, q, els)|
  {
    kept := [];
    removed := 0;
    var i := 0;
    while i < |els|
      invariant 0 <= i <= |els|
      invariant kept == Unmatched(sel, q, els[..i])
      invariant removed == |Matched(sel, q, els[..i])|
    {
      assert els[..i + 1] == els[..i] + [els[i]];
      QuerySnoc(sel, q, els[..i], els[i]);
      if sel.matches(q, els[i]) {
        removed := removed + 1;
      } else {
        kept := kept + [els[i]];
      }
      i := i + 1;
    }
    assert els[..i] == els;
  }

  lemma ElementsRemovedBy(env: Env, s: State, target: Value, kept: seq<Element>, removed: nat)
    requires env.selectors.valid(ToJsString(target))
    requires kept == Unmatched(env.selectors, ToJsString(target), s.elements)
    requires removed == |Matched(env.selectors, ToJsString(target), s.elements)|
    ensures ElementsRemoved(env, s, target) == (s.(elements := kept, elementCount := s.elementCount + removed), Undefined)
  {
  }

  /** What an inline style property is set to: `null` clears it, anything else is stringified. */
  function StyleText(v: Value): string {
    if v.Null? then "" else ToJsString(v)
  }

  /** `Object.entries(styles).forEach(([p, v]) => style[p] = v)`, from the first entry on. */
  function Assigned(style: map<string, string>, entries: seq<(string, Value)>): (r: map<string, string>)
    ensures forall k :: k in r <==> k in style || exists i :: 0 <= i < |entries| && entries[i].0 == k
    decreases |entries|
  {
    if entries == [] then style
    else Assigned(style[entries[0].0 := StyleText(entries[0].1)], entries[1..])
  }

  /**
   * The values `Assigned` leaves: a property keeps its old value unless some entry names it,
   * and then the last entry that names it wins.
   */
  lemma {:induction false} AssignedValues(style: map<string, string>, entries: seq<(string, Value)>)
    ensures forall k :: k in style && (forall i :: 0 <= i < |entries| ==> entries[i].0 != k) ==>
              Assigned(style, entries)[k] == style[k]
    ensures forall i :: 0 <= i < |entries| && (forall j :: i < j < |entries| ==> entries[j].0 != entries[i].0) ==>
              Assigned(style, entries)[entries[i].0] == StyleText(entries[i].1)
    decreases |entries|
  {
    if entries != [] {
      var style' := style[entries[0].0 := StyleText(entries[0].1)];
      AssignedValues(style', entries[1..]);
      assert forall i :: 1 <= i < |entries| ==> entries[i] == entries[1..][i - 1];
    }
  }

  /** The inline style `_setStyle` leaves on one matching element. */
  function StyleUpdated(style: map<string, string>, property: Value, value: Value, styles: Value): map<string, string> {
    if Truthy(property) && Truthy(value) then style[ToJsString(property) := StyleText(value)]
    else if Truthy(styles) then
      TruthyIsNotNullish(styles);
      Assigned(style, Entries(styles).value)
    else style
  }

  function Restyled(sel: Selectors, q: string, e: Element, property: Value, value: Value, styles: Value): Element {
    if sel.matches(q, e) then e.(style := StyleUpdated(e.style, property, value, styles)) else e
  }

  /** `_setStyle`: each matching element gets the style update; no other element changes. */
  function StylesSet(env: Env, s: State, target: Value, property: Value, value: Value, styles: Value): (r: (State, Value)) {
    var q := ToJsString(target);
    if !env.selectors.valid(q) then (s, Bool(false))
    else
      (s.(elements := seq(|s.elements|, i requires 0 <= i < |s.elements| =>
                            Restyled(env.selectors, q, s.elements[i], property, value, styles))),
       Undefined)
  }

  lemma StylesSetBy(env: Env, s: State, target: Value, property: Value, value: Value, styles: Value, els: seq<Element>)
    requires env.selectors.valid(ToJsString(target)) && |els| == |s.elements|
    requires forall j :: 0 <= j < |els| ==>
               els[j] == Restyled(env.selectors, ToJsString(target), s.elements[j], property, value, styles)
    ensures StylesSet(env, s, target, property, value, styles) == (s.(elements := els), Undefined)
  {
    assert StylesSet(env, s, target, property, value, styles).0.elements == els;
  }

  /** A token `DOMTokenList.remove` accepts: non-empty, without ASCII whitespace. */
  predicate ValidToken(t: string) {
    t != [] && forall i :: 0 <= i < |t| ==> !IsAsciiWhitespace(t[i])
  }

  function Declassed(sel: Selectors, q: string, e: Element, token: string): Element {
    if sel.matches(q, e) then e.(classes := e.classes - {token}) else e
  }

  /**
   * `_removeClass`: the class token leaves every matching element. An invalid token throws
   * at the first match, before any element changes.
   */
  function ClassRemoved(env: Env, s: State, target: Value, className: Value): (r: (State, Value)) {
    var q := ToJsString(target);
    var token := ToJsString(className);
    if !env.selectors.valid(q) then (s, Bool(false))
    else if |Matched(env.selectors, q, s.elements)| > 0 && !ValidToken(token) then (s, Bool(false))
    else
      (s.(elements := seq(|s.elements|, i requires 0 <= i < |s.elements| =>
                            Declassed(env.selectors, q, s.elements[i], token))),
       Undefined)
  }

  lemma NoneMatched(sel: Selectors, q: string, els: seq<Element>)
    requires forall j :: 0 <= j < |els| ==> !sel.matches(q, els[j])
    ensures Matched(sel, q, els) == []
  {
    QueryMembers(sel, q, els);
    assert forall e :: e in els ==> !sel.matches(q, e);
  }

  lemma ClassRemovedThrows(env: Env, s: State, target: Value, className: Value, e: Element)
    requires env.selectors.valid(ToJsString(target)) && !ValidToken(ToJsString(className))
    requires e in s.elements && env.selectors.matches(ToJsString(target), e)
    ensures ClassRemoved(env, s, target, className) == (s, Bool(false))
  {
    QueryMembers(env.selectors, ToJsString(target), s.elements);
    assert e in Matched(env.selectors, ToJsString(target), s.elements);
  }

  /**
   * The `forEach` of `_removeClass` over the page's elements in document order: the token
   * leaves every matching element, or, when the token is invalid, the first match throws.
   */
  method Declass(sel: Selectors, q: string, token: string, els: seq<Element>) returns (out: seq<Element>, threw: bool)
    ensures threw <==> |Matched(sel, q, els)| > 0 && !ValidToken(token)
    ensures !threw ==> |out| == |els| && forall j :: 0 <= j < |els| ==> out[j] == Declassed(sel, q, els[j], token)
  {
    out := els;
    var i := 0;
    while i < |els|
      invariant 0 <= i <= |els| == |out|
      invariant forall j :: 0 <= j < i ==> out[j] == Declassed(sel, q, els[j], token)
      invariant forall j :: i <= j < |els| ==> out[j] == els[j]
      invariant !ValidToken(token) ==> forall j :: 0 <= j < i ==> !sel.matches(q, els[j])
    {
      if sel.matches(q, els[i]) {
        if !ValidToken(token) {
          QueryMembers(sel, q, els);
          assert els[i] in Matched(sel, q, els);
          return out, true;
        }
        out := out[i := els[i].(classes := els[i].classes - {token})];
      }
      i := i + 1;
    }
    if !ValidToken(token) {
      NoneMatched(sel, q, els);
    }
    threw := false;
  }

  lemma ClassRemovedBy(env: Env, s: State, target: Value, className: Value, els: seq<Element>)
    requires env.selectors.valid(ToJsString(target)) && |els| == |s.elements|
    requires |Matched(env.selectors, ToJsString(target), s.elements)| > 0 ==> ValidToken(ToJsString(className))
    requires forall j :: 0 <= j < |els| ==>
               els[j] == Declassed(env.selectors, ToJsString(target), s.elements[j], ToJsString(className))
    ensures ClassRemoved(env, s, target, className) == (s.(elements := els), Undefined)
  {
    assert ClassRemoved(env, s, target, className).0.elements == els;
  }

  /** `_clickElement`: the first match, if any, is clicked. */
  function ElementClicked(env: Env, s: State, target: Value): (r: (State, Value)) {
    var q := ToJsString(target);
    if !env.selectors.valid(q) then (s, Bool(false))
    else
      var ms := Matched(env.selectors, q, s.elements);
      if |ms| > 0 then (s.(clicks := s.clicks + [ms[0]]), Undefined) else (s, Undefined)
  }

  /** The first element of a query result is the first matching element in document order. */
  lemma {:induction false} FirstMatch(sel: Selectors, q: string, els: seq<Element>)
    ensures Matched(sel, q, els) != [] <==> exists k :: 0 <= k < |els| && sel.matches(q, els[k])
    ensures Matched(sel, q, els) != [] ==>
              exists k :: 0 <= k < |els| && Matched(sel, q, els)[0] == els[k] && sel.matches(q, els[k])
                && forall j :: 0 <= j < k ==> !sel.matches(q, els[j])
  {
    if els != [] {
      var init := els[..|els| - 1];
      var last := els[|els| - 1];
      FirstMatch(sel, q, init);
      assert forall k :: 0 <= k < |init| ==> els[k] == init[k];
      if Matched(sel, q, init) == [] && sel.matches(q, last) {
        assert Matched(sel, q, els) == [last];
        assert forall j :: 0 <= j < |els| - 1 ==> !sel.matches(q, els[j]);
      }
    }
  }

  /**
   * With a valid selector, a click is recorded exactly when some element matches, and the
   * clicked element is the first match; nothing else in the page changes.
   */
  lemma ClickedFirstMatch(env: Env, s: State, target: Value)
    requires env.selectors.valid(ToJsString(target))
    ensures ElementClicked(env, s, target).1 == Undefined
    ensures ElementClicked(env, s, target).0 == s.(clicks := ElementClicked(env, s, target).0.clicks)
    ensures (exists k :: 0 <= k < |s.elements| && env.selectors.matches(ToJsString(target), s.elements[k])) <==>
              |ElementClicked(env, s, target).0.clicks| == |s.clicks| + 1
    ensures |ElementClicked(env, s, target).0.clicks| == |s.clicks| + 1 ==>
              exists k :: 0 <= k < |s.elements|
                && ElementClicked(env, s, target).0.clicks == s.clicks + [s.elements[k]]
                && env.selectors.matches(ToJsString(target), s.elements[k])
                && forall j :: 0 <= j < k ==> !env.selectors.matches(ToJsString(target), s.elements[j])
  {
    FirstMatch(env.selectors, ToJsString(target), s.elements);
  }

  // ---------------------------------------------------------------------------------------
  // Cookie handlers: `_clearCookie`, `_clearAllCookies`
  // ---------------------------------------------------------------------------------------

  /** `new Date(0).toUTCString()`. */
  const PastDate: string := "Thu, 01 Jan 1970 00:00:00 GMT"

  /** The five `document.cookie` assignments `_clearCookie` makes for one name, in order. */
  function ClearWrites(name: string, host: string): (r: seq<string>)
    ensures |r| == 5 && forall i :: 0 <= i < 5 ==> StartsWith(r[i], name + "=; ")
  {
    [name + "=; Max-Age=0; path=/; domain=" + host,
     name + "=; Max-Age=0; path=/",
     name + "=; Max-Age=0; path=/; domain=." + host,
     name + "=; expires=" + PastDate + "; path=/; domain=" + host,
     name + "=; expires=" + PastDate + "; path=/"]
  }

  /** `_clearCookie({ name: target })`: five writes and one more cookie counted. */
  function CookieCleared(env: Env, s: State, target: Value): (r: (State, Value)) {
    (s.(cookieWrites := s.cookieWrites + ClearWrites(ToJsString(target), env.hostname),
        cookieCount := s.cookieCount + 1),
     Undefined)
  }

  /** The name in one `;`-separated part of `document.cookie`: before the first `=`, trimmed. */
  function CookieName(part: string): string {
    Trim(Split(part, '=')[0])
  }

  /** The non-empty names of the parts, in order. */
  function CookieNames(parts: seq<string>): (names: seq<string>)
    ensures |names| <= |parts|
  {
    if parts == [] then []
    else
      var name := CookieName(parts[|parts| - 1]);
      CookieNames(parts[..|parts| - 1]) + (if name != "" then [name] else [])
  }

  lemma CookieNamesSnoc(parts: seq<string>, part: string)
    ensures CookieNames(parts + [part]) == CookieNames(parts) + (if CookieName(part) != "" then [CookieName(part)] else [])
  {
    assert (parts + [part])[..|parts|] == parts;
  }

  /** What `_clearAllCookies` assigns after a cookie's name. */
  const ExpireSuffix: string := "=; expires=Thu, 01 Jan 1970 00:00:00 UTC; path=/;"

  /** The assignment `_clearAllCookies` makes for one name. */
  function ExpireWrite(name: string): string {
    name + ExpireSuffix
  }

  function ExpireWrites(names: seq<string>): (r: seq<string>)
    ensures |r| == |names|
  {
    if names == [] then [] else ExpireWrites(names[..|names| - 1]) + [ExpireWrite(names[|names| - 1])]
  }

  lemma ExpireWritesSnoc(names: seq<string>, name: string)
    ensures ExpireWrites(names + [name]) == ExpireWrites(names) + [ExpireWrite(name)]
  {
    assert (names + [name])[..|names|] == names;
  }

  /** One more part adds its name's write, or nothing when the name is empty. */
  lemma ExpireStep(cookies: seq<string>, i: nat)
    requires i < |cookies|
    ensures var name := CookieName(cookies[i]);
            && ExpireWrites(CookieNames(cookies[..i + 1])) ==
               ExpireWrites(CookieNames(cookies[..i])) + (if name != "" then [ExpireWrite(name)] else [])
            && |CookieNames(cookies[..i + 1])| == |CookieNames(cookies[..i])| + (if name != "" then 1 else 0)
  {
    assert cookies[..i + 1] == cookies[..i] + [cookies[i]];
    CookieNamesSnoc(cookies[..i], cookies[i]);
    var name := CookieName(cookies[i]);
    if name != "" {
      ExpireWritesSnoc(CookieNames(cookies[..i]), name);
    } else {
      assert CookieNames(cookies[..i + 1]) == CookieNames(cookies[..i]);
    }
  }

  /** `_clearAllCookies`: one write and one count per named cookie, then a message out. */
  function AllCookiesCleared(env: Env, s: State): (r: (State, Value)) {
    var names := CookieNames(Split(env.cookie, ';'));
    (s.(cookieWrites := s.cookieWrites + ExpireWrites(names),
        cookieCount := s.cookieCount + |names|,
        outbox := s.outbox + [ClearAllCookies]),
     Undefined)
  }

  lemma AllCookiesClearedBy(env: Env, s: State, writes: seq<string>, cleared: nat)
    requires writes == ExpireWrites(CookieNames(Split(env.cookie, ';')))
    requires cleared == |CookieNames(Split(env.cookie, ';'))|
    ensures AllCookiesCleared(env, s) ==
            (s.(cookieWrites := s.cookieWrites + writes, cookieCount := s.cookieCount + cleared,
                outbox := s.outbox + [ClearAllCookies]),
             Undefined)
  {
  }

  // ---------------------------------------------------------------------------------------
  // Global styles: `_addGlobalStyle`, `_removeGlobalStyle`
  // ---------------------------------------------------------------------------------------

  /** `${prop}: ${value};` for each entry. */
  function Declarations(entries: seq<(string, Value)>): (r: seq<string>)
    ensures |r| == |entries|
  {
    seq(|entries|, i requires 0 <= i < |entries| => entries[i].0 + ": " + ToJsString(entries[i].1) + ";")
  }

  /** The rule text `${selector} { ${declarations joined by " "} }`. */
  function RuleText(selector: string, entries: seq<(string, Value)>): string {
    selector + " { " + Join(Declarations(entries), " ") + " }"
  }

  /**
   * `_addGlobalStyle(target, styles)`: `Object.entries` throws on `null`/`undefined` styles
   * (caught: `false`); without a sheet the method falls off its end (`undefined`);
   * `insertRule` throws on an invalid selector (caught: `false`); otherwise the rule goes last
   * in the sheet, the registry maps the target to it, and the answer is `true`.
   */
  function GlobalStyleAdded(env: Env, s: State, target: Value, styles: Value): (r: (State, Value)) {
    match Entries(styles)
    case None => (s, Bool(false))
    case Some(entries) =>
      var selector := ToJsString(target);
      var rule := RuleText(selector, entries);
      if s.sheet.None? then (s, Undefined)
      else if !env.selectors.valid(selector) then (s, Bool(false))
      else
        (s.(sheet := Some(s.sheet.value + [CssRule(selector, rule)]),
            globalStyles := s.globalStyles[target := rule]),
         Bool(true))
  }

  /** The first rule whose selector text is strictly equal to `target`. */
  function FirstRuleFor(rules: seq<CssRule>, target: Value): (r: Option<nat>)
    ensures r.Some? ==> r.value < |rules| && target == Str(rules[r.value].selectorText)
    ensures r.Some? ==> forall j :: 0 <= j < r.value ==> target != Str(rules[j].selectorText)
    ensures r.None? ==> forall j :: 0 <= j < |rules| ==> target != Str(rules[j].selectorText)
  {
    if rules == [] then None
    else if target == Str(rules[0].selectorText) then Some(0)
    else match FirstRuleFor(rules[1..], target)
      case None => None
      case Some(i) => Some(i + 1)
  }

  /**
   * `_removeGlobalStyle(target)`: `false` without a sheet; the first rule for the target is
   * deleted and its registry entry dropped (`true`); with no such rule, `undefined`.
   */
  function GlobalStyleRemoved(s: State, target: Value): (r: (State, Value)) {
    if s.sheet.None? then (s, Bool(false))
    else
      var rules := s.sheet.value;
      match FirstRuleFor(rules, target)
      case None => (s, Undefined)
      case Some(i) =>
        (s.(sheet := Some(rules[..i] + rules[i + 1..]), globalStyles := s.globalStyles - {target}),
         Bool(true))
  }

  // ---------------------------------------------------------------------------------------
  // Dispatch: `_executeAction`, `_processAction`, `executeActions`
  // ---------------------------------------------------------------------------------------

  /**
   * `_executeAction(context)`. A truthy `log` or `message` answers `true` at once; otherwise
   * the `action` name, compared strictly with each case, picks the handler; `reload` records
   * a reload and falls through into `remove`; an unknown name answers `false`. Its one caller
   * has already read a property of `context`, so `context` is not `null` or `undefined`.
   */
  function ActionExecuted(env: Env, s: State, context: Value): (r: (State, Value))
    requires !Nullish(context)
  {
    if Truthy(Get(context, "log")) || Truthy(Get(context, "message")) then (s, Bool(true))
    else
      var name := Get(context, "action");
      var target := Get(context, "target");
      if name == Str("click") then ElementClicked(env, s, target)
      else if name == Str("reload") then ElementsRemoved(env, s.(reloads := s.reloads + 1), target)
      else if name == Str("remove") then ElementsRemoved(env, s, target)
      else if name == Str("hide") then StylesSet(env, s, target, Str("display"), Str("none"), Undefined)
      else if name == Str("style") then
        StylesSet(env, s, target, Get(context, "property"), Get(context, "value"), Get(context, "styles"))
      else if name == Str("delete-cookies") || name == Str("clear-cookies") then
        if target == Str("*") then AllCookiesCleared(env, s) else CookieCleared(env, s, target)
      else if name == Str("remove-class") then ClassRemoved(env, s, target, Get(context, "className"))
      else if name == Str("addGlobalStyle") then GlobalStyleAdded(env, s, target, Get(context, "styles"))
      else if name == Str("removeGlobalStyle") then GlobalStyleRemoved(s, target)
      else (s, Bool(false))
  }

  /** How a call of the async `_processAction` settles. */
  datatype Settled = Returned(value: Value) | Rejected

  /** The state after a truthy `delay` has been waited for. */
  function Delayed(s: State, action: Value): State {
    var delay := Get(action, "delay");
    if Truthy(delay) then s.(waits := s.waits + [delay]) else s
  }

  /**
   * `_processAction(action)`. Reading `action.delay` throws for `null`/`undefined`, and so
   * does `action.onError` in the catch block, so such an action rejects. Otherwise: wait
   * for a truthy delay, run the action, then process `onSuccess` when the result is truthy
   * or `onError` when it is falsy (each only when present), and return the result. A
   * rejection of that chained call would land in the catch block: `onError` is processed
   * (again) and the answer is `false`.
   */
  function ActionProcessed(env: Env, s: State, action: Value): (r: (State, Settled))
    decreases action, 1
  {
    if Nullish(action) then (s, Rejected)
    else
      var (s2, success) := ActionExecuted(env, Delayed(s, action), action);
      Chained(env, s2, action, success)
  }

  /** What follows the action itself, once its result `success` is known. */
  function Chained(env: Env, s2: State, action: Value, success: Value): (r: (State, Settled))
    decreases action, 0
  {
    var onSuccess := Get(action, "onSuccess");
    var onError := Get(action, "onError");
    var chained: Option<(State, Settled)> :=
      if Truthy(success) && Truthy(onSuccess) then Some(ActionProcessed(env, s2, onSuccess))
      else if !Truthy(success) && Truthy(onError) then Some(ActionProcessed(env, s2, onError))
      else None;
    match chained
    case None => (s2, Returned(success))
    case Some((s3, Returned(_))) => (s3, Returned(success))
    case Some((s3, Rejected)) =>
      if Truthy(onError) then
        var (s4, again) := ActionProcessed(env, s3, onError);
        (s4, if again.Rejected? then Rejected else Returned(Bool(false)))
      else (s3, Returned(Bool(false)))
  }

  /** The report at the end of every `executeActions` call: the running total, if any. */
  function Reported(s: State): State {
    if s.elementCount > 0 || s.cookieCount > 0 then
      s.(outbox := s.outbox + [UpdateCounter(s.elementCount + s.cookieCount)])
    else s
  }

  /**
   * `executeActions(context)`: an array recurses on each element in order; an object whose
   * `actions` is an array processes those actions in order; anything else is one action.
   * Reading `context.actions` throws for `null`/`undefined`; a rejection ends the call (and
   * every enclosing one) before its report. The boolean is `false` for a rejection.
   */
  function ActionsRun(env: Env, s: State, context: Value): (r: (State, bool))
    decreases context, 1
  {
    var (s1, ok) :=
      if context.Arr? then EachRun(env, s, context, 0)
      else if Nullish(context) then (s, false)
      else if Get(context, "actions").Arr? then EachProcessed(env, s, Get(context, "actions").items, 0)
      else
        var (s2, settled) := ActionProcessed(env, s, context);
        (s2, settled.Returned?);
    if ok then (Reported(s1), true) else (s1, false)
  }

  /** The array branch of `executeActions`, from element `i` on. */
  function EachRun(env: Env, s: State, context: Value, i: nat): (r: (State, bool))
    requires context.Arr? && i <= |context.items|
    decreases context, 0, |context.items| - i
  {
    if i == |context.items| then (s, true)
    else
      var (s1, ok) := ActionsRun(env, s, context.items[i]);
      if ok then EachRun(env, s1, context, i + 1) else (s1, false)
  }

  /** The `actions` branch of `executeActions`, from action `i` on. */
  function EachProcessed(env: Env, s: State, actions: seq<Value>, i: nat): (r: (State, bool))
    requires i <= |actions|
    decreases |actions| - i
  {
    if i == |actions| then (s, true)
    else
      var (s1, settled) := ActionProcessed(env, s, actions[i]);
      if settled.Returned? then EachProcessed(env, s1, actions, i + 1) else (s1, false)
  }

  // ---------------------------------------------------------------------------------------
  // Properties of a pass
  // ---------------------------------------------------------------------------------------

  /**
   * `_processAction` rejects exactly for `null`/`undefined`: the catch block is reached only
   * then, so for any other action the chained call always returns.
   */
  lemma {:induction false} ProcessedRejectsIffNullish(env: Env, s: State, action: Value)
    ensures ActionProcessed(env, s, action).1.Rejected? <==> Nullish(action)
    decreases action
  {
    if !Nullish(action) {
      var (s2, success) := ActionExecuted(env, Delayed(s, action), action);
      var onSuccess := Get(action, "onSuccess");
      var onError := Get(action, "onError");
      if Truthy(success) && Truthy(onSuccess) {
        TruthyIsNotNullish(onSuccess);
        ProcessedRejectsIffNullish(env, s2, onSuccess);
      } else if !Truthy(success) && Truthy(onError) {
        TruthyIsNotNullish(onError);
        ProcessedRejectsIffNullish(env, s2, onError);
      }
    }
  }

  /**
   * After the action itself, exactly one branch follows: `onSuccess` for a truthy result,
   * `onError` for a falsy one, each only when present; the result is returned as it is.
   */
  lemma ProcessedChainsOnce(env: Env, s: State, action: Value)
    requires !Nullish(action)
    ensures var (s2, success) := ActionExecuted(env, Delayed(s, action), action);
            var onSuccess := Get(action, "onSuccess");
            var onError := Get(action, "onError");
            ActionProcessed(env, s, action) ==
              (if Truthy(success) && Truthy(onSuccess) then ActionProcessed(env, s2, onSuccess).0
               else if !Truthy(success) && Truthy(onError) then ActionProcessed(env, s2, onError).0
               else s2,
               Returned(success))
  {
    var (s2, success) := ActionExecuted(env, Delayed(s, action), action);
    var onSuccess := Get(action, "onSuccess");
    var onError := Get(action, "onError");
    TruthyIsNotNullish(onSuccess);
    TruthyIsNotNullish(onError);
    ProcessedRejectsIffNullish(env, s2, onSuccess);
    ProcessedRejectsIffNullish(env, s2, onError);
  }

  /**
   * An action with a truthy `log` or `message` succeeds whatever its `action` says: only its
   * `onSuccess` runs, never its `onError`.
   */
  lemma LogShortCircuits(env: Env, s: State, action: Value)
    requires !Nullish(action)
    requires Truthy(Get(action, "log")) || Truthy(Get(action, "message"))
    ensures var s1 := Delayed(s, action);
            var onSuccess := Get(action, "onSuccess");
            ActionProcessed(env, s, action) ==
              (if Truthy(onSuccess) then ActionProcessed(env, s1, onSuccess).0 else s1, Returned(Bool(true)))
  {
    ProcessedChainsOnce(env, s, action);
  }

  /**
   * Only a log/message action and the two global-style actions can answer truthily; every
   * other handler answers `undefined` (or `false` when it throws), so it chains as a failure.
   */
  lemma ExecutedResults(env: Env, s: State, context: Value)
    requires !Nullish(context)
    ensures var name := Get(context, "action");
            Truthy(ActionExecuted(env, s, context).1) ==>
              Truthy(Get(context, "log")) || Truthy(Get(context, "message")) ||
              name == Str("addGlobalStyle") || name == Str("removeGlobalStyle")
  {
    var name := Get(context, "action");
    var target := Get(context, "target");
    if Truthy(Get(context, "log")) || Truthy(Get(context, "message")) {
    } else if name == Str("click") || name == Str("reload") || name == Str("remove") || name == Str("style")
              || name == Str("remove-class") {
      ElementHandlersFail(env, s, target, Get(context, "property"), Get(context, "value"), Get(context, "styles"),
                          Get(context, "className"));
    } else if name == Str("hide") {
      StylesSetFalsy(env, s, target);
    } else if name == Str("delete-cookies") || name == Str("clear-cookies") {
      CookieHandlersFail(env, s, target);
    }
  }

  /** An unknown action name answers `false` and changes nothing. */
  lemma UnknownActionIsFalse(env: Env, s: State, context: Value)
    requires !Nullish(context)
    requires !Truthy(Get(context, "log")) && !Truthy(Get(context, "message"))
    requires Get(context, "action") !in [Str("click"), Str("reload"), Str("remove"), Str("hide"), Str("style"),
                                         Str("delete-cookies"), Str("clear-cookies"), Str("remove-class"),
                                         Str("addGlobalStyle"), Str("removeGlobalStyle")]
    ensures ActionExecuted(env, s, context) == (s, Bool(false))
  {
  }

  /** The element handlers answer `undefined` or `false`. */
  lemma ElementHandlersFail(env: Env, s: State, target: Value, property: Value, value: Value, styles: Value,
                            className: Value)
    ensures !Truthy(ElementClicked(env, s, target).1)
    ensures !Truthy(ElementsRemoved(env, s, target).1)
    ensures !Truthy(ElementsRemoved(env, s.(reloads := s.reloads + 1), target).1)
    ensures !Truthy(StylesSet(env, s, target, property, value, styles).1)
    ensures !Truthy(ClassRemoved(env, s, target, className).1)
  {
  }

  lemma StylesSetFalsy(env: Env, s: State, target: Value)
    ensures !Truthy(StylesSet(env, s, target, Str("display"), Str("none"), Undefined).1)
  {
  }

  /** The cookie handlers answer `undefined`. */
  lemma CookieHandlersFail(env: Env, s: State, target: Value)
    ensures AllCookiesCleared(env, s).1 == Undefined && CookieCleared(env, s, target).1 == Undefined
  {
  }

  /** The logs only grow and the counters never go down. */
  predicate Grows(s: State, t: State) {
    && s.cookieWrites <= t.cookieWrites && s.clicks <= t.clicks && s.reloads <= t.reloads
    && s.waits <= t.waits && s.outbox <= t.outbox
    && s.elementCount <= t.elementCount && s.cookieCount <= t.cookieCount
  }

  lemma GrowsTransitive(s: State, t: State, u: State)
    requires Grows(s, t) && Grows(t, u)
    ensures Grows(s, u)
  {
  }

  lemma ExecutedGrows(env: Env, s: State, context: Value)
    requires !Nullish(context)
    ensures Grows(s, ActionExecuted(env, s, context).0)
  {
    var name := Get(context, "action");
    var target := Get(context, "target");
    if Truthy(Get(context, "log")) || Truthy(Get(context, "message")) {
    } else if name == Str("click") {
      ClickedGrows(env, s, target);
    } else if name == Str("reload") {
      var s1 := s.(reloads := s.reloads + 1);
      RemovedGrows(env, s1, target);
      GrowsTransitive(s, s1, ElementsRemoved(env, s1, target).0);
    } else if name == Str("remove") {
      RemovedGrows(env, s, target);
    } else if name == Str("hide") {
      StylesGrow(env, s, target, Str("display"), Str("none"), Undefined);
    } else if name == Str("style") {
      StylesGrow(env, s, target, Get(context, "property"), Get(context, "value"), Get(context, "styles"));
    } else if name == Str("delete-cookies") || name == Str("clear-cookies") {
      CookiesGrow(env, s, target);
    } else if name == Str("remove-class") {
      ClassGrows(env, s, target, Get(context, "className"));
    } else if name == Str("addGlobalStyle") || name == Str("removeGlobalStyle") {
      GlobalStylesGrow(env, s, target, Get(context, "styles"));
    }
  }

  lemma ClickedGrows(env: Env, s: State, target: Value)
    ensures Grows(s, ElementClicked(env, s, target).0)
  {
  }

  lemma RemovedGrows(env: Env, s: State, target: Value)
    ensures Grows(s, ElementsRemoved(env, s, target).0)
  {
  }

  lemma StylesGrow(env: Env, s: State, target: Value, property: Value, value: Value, styles: Value)
    ensures Grows(s, StylesSet(env, s, target, property, value, styles).0)
  {
  }

  lemma CookiesGrow(env: Env, s: State, target: Value)
    ensures Grows(s, AllCookiesCleared(env, s).0) && Grows(s, CookieCleared(env, s, target).0)
  {
  }

  lemma ClassGrows(env: Env, s: State, target: Value, className: Value)
    ensures Grows(s, ClassRemoved(env, s, target, className).0)
  {
  }

  lemma GlobalStylesGrow(env: Env, s: State, target: Value, styles: Value)
    ensures Grows(s, GlobalStyleAdded(env, s, target, styles).0) && Grows(s, GlobalStyleRemoved(s, target).0)
  {
  }

  lemma {:induction false} ProcessedGrows(env: Env, s: State, action: Value)
    ensures Grows(s, ActionProcessed(env, s, action).0)
    decreases action
  {
    if !Nullish(action) {
      var s1 := Delayed(s, action);
      var (s2, success) := ActionExecuted(env, s1, action);
      ExecutedGrows(env, s1, action);
      GrowsTransitive(s, s1, s2);
      var onSuccess := Get(action, "onSuccess");
      var onError := Get(action, "onError");
      TruthyIsNotNullish(onSuccess);
      TruthyIsNotNullish(onError);
      if Truthy(success) && Truthy(onSuccess) {
        ProcessedGrows(env, s2, onSuccess);
        ProcessedRejectsIffNullish(env, s2, onSuccess);
        GrowsTransitive(s, s2, ActionProcessed(env, s2, onSuccess).0);
      } else if !Truthy(success) && Truthy(onError) {
        ProcessedGrows(env, s2, onError);
        ProcessedRejectsIffNullish(env, s2, onError);
        GrowsTransitive(s, s2, ActionProcessed(env, s2, onError).0);
      }
    }
  }

  /**
   * The counters are cumulative: no call of `executeActions` lowers them, and no log entry
   * is ever taken back.
   */
  lemma {:induction false} RunGrows(env: Env, s: State, context: Value)
    ensures Grows(s, ActionsRun(env, s, context).0)
    decreases context, 1
  {
    var s1: State;
    if context.Arr? {
      EachRunGrows(env, s, context, 0);
      s1 := EachRun(env, s, context, 0).0;
    } else if Nullish(context) {
      s1 := s;
    } else if Get(context, "actions").Arr? {
      EachProcessedGrows(env, s, Get(context, "actions").items, 0);
      s1 := EachProcessed(env, s, Get(context, "actions").items, 0).0;
    } else {
      ProcessedGrows(env, s, context);
      s1 := ActionProcessed(env, s, context).0;
    }
    GrowsTransitive(s, s1, Reported(s1));
  }

  lemma {:induction false} EachRunGrows(env: Env, s: State, context: Value, i: nat)
    requires context.Arr? && i <= |context.items|
    ensures Grows(s, EachRun(env, s, context, i).0)
    decreases context, 0, |context.items| - i
  {
    if i < |context.items| {
      RunGrows(env, s, context.items[i]);
      var (s1, ok) := ActionsRun(env, s, context.items[i]);
      if ok {
        EachRunGrows(env, s1, context, i + 1);
        GrowsTransitive(s, s1, EachRun(env, s1, context, i + 1).0);
      }
    }
  }

  lemma {:induction false} EachProcessedGrows(env: Env, s: State, actions: seq<Value>, i: nat)
    requires i <= |actions|
    ensures Grows(s, EachProcessed(env, s, actions, i).0)
    decreases |actions| - i
  {
    if i < |actions| {
      ProcessedGrows(env, s, actions[i]);
      var (s1, settled) := ActionProcessed(env, s, actions[i]);
      if settled.Returned? {
        EachProcessedGrows(env, s1, actions, i + 1);
        GrowsTransitive(s, s1, EachProcessed(env, s1, actions, i + 1).0);
      }
    }
  }

  /**
   * Every call of `executeActions` that does not reject ends by reporting the running total
   * when it is not zero, so a nested array reports once per level.
   */
  lemma RunReports(env: Env, s: State, context: Value)
    ensures var (t, ok) := ActionsRun(env, s, context);
            ok && (t.elementCount > 0 || t.cookieCount > 0) ==>
              |t.outbox| > 0 && t.outbox[|t.outbox| - 1] == UpdateCounter(t.elementCount + t.cookieCount)
  {
  }

  /** With a non-zero total, `[[]]` reports it twice: once for the inner and once for the outer call. */
  lemma NestedArrayReportsTwice(env: Env, s: State)
    requires s.elementCount + s.cookieCount > 0
    ensures ActionsRun(env, s, Arr([Arr([])])).0.outbox ==
            s.outbox + [UpdateCounter(s.elementCount + s.cookieCount), UpdateCounter(s.elementCount + s.cookieCount)]
  {
    var inner := ActionsRun(env, s, Arr([]));
    assert inner == (Reported(s), true);
    assert EachRun(env, s, Arr([Arr([])]), 0) == EachRun(env, inner.0, Arr([Arr([])]), 1);
  }

  /**
   * A selector `querySelectorAll` rejects makes the element handlers throw; `_executeAction`
   * catches it and answers `false`, so the action's `onError` runs and the page is untouched.
   */
  lemma InvalidSelectorFails(env: Env, s: State, context: Value)
    requires !Nullish(context)
    requires !Truthy(Get(context, "log")) && !Truthy(Get(context, "message"))
    requires Get(context, "action") in [Str("click"), Str("remove"), Str("hide"), Str("style"), Str("remove-class")]
    requires !env.selectors.valid(ToJsString(Get(context, "target")))
    ensures var s1 := Delayed(s, context);
            var onError := Get(context, "onError");
            ActionProcessed(env, s, context) ==
              (if Truthy(onError) then ActionProcessed(env, s1, onError).0 else s1, Returned(Bool(false)))
  {
    assert ActionExecuted(env, Delayed(s, context), context) == (Delayed(s, context), Bool(false));
    ProcessedChainsOnce(env, s, context);
  }

  /**
   * `remove` with a valid selector: no matching element is left, every other element stays,
   * and `elementCount` rises by the number of matches.
   */
  lemma RemoveEffect(env: Env, s: State, target: Value)
    requires env.selectors.valid(ToJsString(target))
    ensures var q := ToJsString(target);
            var (t, r) := ElementsRemoved(env, s, target);
            && r == Undefined
            && (forall e :: e in t.elements <==> e in s.elements && !env.selectors.matches(q, e))
            && t.elementCount == s.elementCount + |Matched(env.selectors, q, s.elements)|
            && |t.elements| + |Matched(env.selectors, q, s.elements)| == |s.elements|
  {
    QueryMembers(env.selectors, ToJsString(target), s.elements);
  }

  /** A named clear counts one cookie, whether or not it existed, and makes five writes for it. */
  lemma ClearCookieEffect(env: Env, s: State, target: Value)
    ensures var (t, r) := CookieCleared(env, s, target);
            && r == Undefined
            && t.cookieCount == s.cookieCount + 1
            && s.cookieWrites <= t.cookieWrites && |t.cookieWrites| == |s.cookieWrites| + 5
            && forall i :: |s.cookieWrites| <= i < |t.cookieWrites| ==>
                 StartsWith(t.cookieWrites[i], ToJsString(target) + "=; ")
  {
    var w := ClearWrites(ToJsString(target), env.hostname);
    var t := CookieCleared(env, s, target).0;
    assert forall i :: |s.cookieWrites| <= i < |t.cookieWrites| ==> t.cookieWrites[i] == w[i - |s.cookieWrites|];
  }

  /** What a cleared cookie name looks like: non-empty, no `;` or `=`, no whitespace at either end. */
  predicate NameShape(n: string) {
    && n != "" && ';' !in n && '=' !in n
    && !IsJsWhitespace(n[0]) && !IsJsWhitespace(n[|n| - 1])
  }

  lemma CookieNameShape(part: string)
    requires ';' !in part && CookieName(part) != ""
    ensures NameShape(CookieName(part))
  {
    var head := Split(part, '=')[0];
    SplitHead(part, '=');
    TrimSpec(head);
    var k := |head| - |TrimStart(head)|;
    var n := CookieName(part);
    assert n == head[k..k + |n|];
    assert head == part[..|head|];
    assert ';' !in head;
  }

  lemma {:induction false} CookieNamesShape(parts: seq<string>)
    requires forall i :: 0 <= i < |parts| ==> ';' !in parts[i]
    ensures forall n :: n in CookieNames(parts) ==> NameShape(n)
  {
    if parts != [] {
      var last := parts[|parts| - 1];
      CookieNamesShape(parts[..|parts| - 1]);
      if CookieName(last) != "" {
        CookieNameShape(last);
      }
    }
  }

  /**
   * `"*"` clears every named cookie of `document.cookie`: one count and one write per
   * non-empty name, each name well formed, at most one per `;`-separated part; then the
   * background is asked to clear the rest.
   */
  lemma ClearAllEffect(env: Env, s: State)
    ensures var parts := Split(env.cookie, ';');
            var names := CookieNames(parts);
            var (t, r) := AllCookiesCleared(env, s);
            && r == Undefined
            && (forall n :: n in names ==> NameShape(n))
            && |names| <= |parts|
            && t.cookieCount == s.cookieCount + |names|
            && |t.cookieWrites| == |s.cookieWrites| + |names|
            && t.outbox == s.outbox + [ClearAllCookies]
  {
    SplitJoin(env.cookie, ';');
    CookieNamesShape(Split(env.cookie, ';'));
  }

  /** Appending a rule for `target` to a sheet that has none makes it the first one. */
  lemma {:induction false} FirstRuleForAppend(rules: seq<CssRule>, rule: CssRule, target: Value)
    requires FirstRuleFor(rules, target).None? && target == Str(rule.selectorText)
    ensures FirstRuleFor(rules + [rule], target) == Some(|rules|)
  {
    if rules != [] {
      assert (rules + [rule])[1..] == rules[1..] + [rule];
      FirstRuleForAppend(rules[1..], rule, target);
    }
  }

  /**
   * `removeGlobalStyle` deletes the first rule whose selector text is the target, and only
   * that one, and drops the target from the registry.
   */
  lemma RemoveGlobalStyleFirst(s: State, target: Value, i: nat)
    requires s.sheet.Some? && i < |s.sheet.value|
    requires target == Str(s.sheet.value[i].selectorText)
    requires forall j :: 0 <= j < i ==> target != Str(s.sheet.value[j].selectorText)
    ensures var rules := s.sheet.value;
            GlobalStyleRemoved(s, target) ==
              (s.(sheet := Some(rules[..i] + rules[i + 1..]), globalStyles := s.globalStyles - {target}), Bool(true))
  {
    var r := FirstRuleFor(s.sheet.value, target);
    assert r.Some?;
    assert r.value == i;
  }

  /** Without a rule for the target, `removeGlobalStyle` changes nothing and answers `undefined`. */
  lemma RemoveGlobalStyleAbsent(s: State, target: Value)
    requires s.sheet.Some?
    requires forall j :: 0 <= j < |s.sheet.value| ==> target != Str(s.sheet.value[j].selectorText)
    ensures GlobalStyleRemoved(s, target) == (s, Undefined)
  {
  }

  /**
   * Adding a global style for a selector the sheet has no rule for, then removing it,
   * restores the sheet and leaves the registry without the selector; both calls answer `true`.
   */
  lemma AddThenRemoveGlobalStyle(env: Env, s: State, selector: string, styles: Value)
    requires s.sheet.Some? && env.selectors.valid(selector) && !Nullish(styles)
    requires forall j :: 0 <= j < |s.sheet.value| ==> s.sheet.value[j].selectorText != selector
    ensures var (t, added) := GlobalStyleAdded(env, s, Str(selector), styles);
            && added == Bool(true)
            && GlobalStyleRemoved(t, Str(selector)) == (s.(globalStyles := s.globalStyles - {Str(selector)}), Bool(true))
  {
    var rules := s.sheet.value;
    var (t, added) := GlobalStyleAdded(env, s, Str(selector), styles);
    var rule := CssRule(selector, RuleText(selector, Entries(styles).value));
    assert t.sheet == Some(rules + [rule]);
    FirstRuleForAppend(rules, rule, Str(selector));
    assert (rules + [rule])[..|rules|] + (rules + [rule])[|rules| + 1..] == rules;
    assert t.globalStyles - {Str(selector)} == s.globalStyles - {Str(selector)};
  }

  /** `_processAction` is the action run on the delayed state, then chained. */
  lemma ProcessedBy(env: Env, s0: State, action: Value, s2: State, success: Value, s3: State, r: Settled)
    requires !Nullish(action)
    requires (s2, success) == ActionExecuted(env, Delayed(s0, action), action)
    requires (s3, r) == Chained(env, s2, action, success)
    ensures (s3, r) == ActionProcessed(env, s0, action)
  {
  }

  // ---------------------------------------------------------------------------------------
  // The executor as the source has it: fields updated in place
  // ---------------------------------------------------------------------------------------

  /** The document and the browser services the executor acts on. */
  class Page {
    const hostname: string
    /** `document.cookie` as read; what the writes do to the cookie jar is not modelled. */
    const cookie: string
    var elements: seq<Element>
    var cookieWrites: seq<string>
    var clicks: seq<Element>
    var reloads: nat
    var waits: seq<Value>
    var outbox: seq<Message>

    constructor(hostname: string, cookie: string, elements: seq<Element>)
      ensures this.hostname == hostname && this.cookie == cookie && this.elements == elements
      ensures cookieWrites == [] && clicks == [] && reloads == 0 && waits == [] && outbox == []
    {
      this.hostname := hostname;
      this.cookie := cookie;
      this.elements := elements;
      cookieWrites := [];
      clicks := [];
      reloads := 0;
      waits := [];
      outbox := [];
    }
  }

  class ActionExecutor {
    const page: Page
    const selectors: Selectors
    var elementCount: nat
    var cookieCount: nat
    /** `globalStyles`: selector value to the rule text added for it. */
    var globalStyles: map<Value, string>
    /** `styleSheet.sheet`: its rules, or `None` while the style element is not attached. */
    var sheet: Option<seq<CssRule>>

    /** The constructor and `_initializeStyleSheet`: zero counters, an empty registry and sheet. */
    constructor(page: Page, selectors: Selectors, attached: bool)
      ensures this.page == page
      ensures elementCount == 0 && cookieCount == 0 && globalStyles == map[]
      ensures sheet == if attached then Some([]) else None
    {
      this.page := page;
      this.selectors := selectors;
      elementCount := 0;
      cookieCount := 0;
      globalStyles := map[];
      sheet := if attached then Some([]) else None;
    }

    /** What a pass reads but never changes. */
    function Environment(): Env {
      Env(page.hostname, page.cookie, selectors)
    }

    function Snapshot(): State
      reads this, page
    {
      State(page.elements, page.cookieWrites, page.clicks, page.reloads, page.waits, page.outbox,
            elementCount, cookieCount, globalStyles, sheet)
    }

    /** `_removeElement(action)`. */
    method RemoveElement(target: Value) returns (r: Value)
      modifies this, page
      ensures (Snapshot(), r) == ElementsRemoved(Environment(), old(Snapshot()), target)
    {
      var q := ToJsString(target);
      if !selectors.valid(q) {
        return Bool(false);
      }
      var kept, removed := Partition(selectors, q, page.elements);
      ElementsRemovedBy(Environment(), Snapshot(), target, kept, removed);
      page.elements := kept;
      elementCount := elementCount + removed;
      r := Undefined;
    }

    /** The inner `forEach` of `_setStyle`: assigns each entry of `styles`, in order. */
    method AssignStyles(style: map<string, string>, entries: seq<(string, Value)>) returns (r: map<string, string>)
      ensures r == Assigned(style, entries)
    {
      r := style;
      var i := 0;
      while i < |entries|
        invariant 0 <= i <= |entries|
        invariant Assigned(style, entries) == Assigned(r, entries[i..])
      {
        assert entries[i..][1..] == entries[i + 1..];
        r := r[entries[i].0 := StyleText(entries[i].1)];
        i := i + 1;
      }
    }

    /** The body of `_setStyle`'s `forEach` for one element. */
    method StyleOne(style: map<string, string>, property: Value, value: Value, styles: Value) returns (r: map<string, string>)
      ensures r == StyleUpdated(style, property, value, styles)
    {
      if Truthy(property) && Truthy(value) {
        r := style[ToJsString(property) := StyleText(value)];
      } else if Truthy(styles) {
        TruthyIsNotNullish(styles);
        r := AssignStyles(style, Entries(styles).value);
      } else {
        r := style;
      }
    }

    /** `_setStyle(action)`, and `_hideElement` through it. */
    method SetStyle(target: Value, property: Value, value: Value, styles: Value) returns (r: Value)
      modifies this, page
      ensures (Snapshot(), r) == StylesSet(Environment(), old(Snapshot()), target, property, value, styles)
    {
      var q := ToJsString(target);
      if !selectors.valid(q) {
        return Bool(false);
      }
      var original := page.elements;
      var els := original;
      var i := 0;
      while i < |els|
        invariant 0 <= i <= |els| == |original| && original == page.elements
        invariant forall j :: 0 <= j < i ==> els[j] == Restyled(selectors, q, page.elements[j], property, value, styles)
        invariant forall j :: i <= j < |els| ==> els[j] == page.elements[j]
        invariant unchanged(this, page)
      {
        var e := els[i];
        if selectors.matches(q, e) {
          var style := StyleOne(e.style, property, value, styles);
          els := els[i := e.(style := style)];
        }
        i := i + 1;
      }
      StylesSetBy(Environment(), Snapshot(), target, property, value, styles, els);
      page.elements := els;
      r := Undefined;
    }

    /** `_removeClass(action)`. */
    method RemoveClass(target: Value, className: Value) returns (r: Value)
      modifies this, page
      ensures (Snapshot(), r) == ClassRemoved(Environment(), old(Snapshot()), target, className)
    {
      var q := ToJsString(target);
      if !selectors.valid(q) {
        return Bool(false);
      }
      var token := ToJsString(className);
      var els, threw := Declass(selectors, q, token, page.elements);
      if threw {
        return Bool(false);
      }
      ClassRemovedBy(Environment(), Snapshot(), target, className, els);
      page.elements := els;
      r := Undefined;
    }

    /** `_clickElement(action)`. */
    method ClickElement(target: Value) returns (r: Value)
      modifies this, page
      ensures (Snapshot(), r) == ElementClicked(Environment(), old(Snapshot()), target)
    {
      var q := ToJsString(target);
      if !selectors.valid(q) {
        return Bool(false);
      }
      var elements := Matched(selectors, q, page.elements);
      if |elements| > 0 {
        page.clicks := page.clicks + [elements[0]];
      }
      r := Undefined;
    }

    /** `_clearCookie({ name: target })`. */
    method ClearCookie(target: Value) returns (r: Value)
      modifies this, page
      ensures (Snapshot(), r) == CookieCleared(Environment(), old(Snapshot()), target)
    {
      var name := ToJsString(target);
      var host := page.hostname;
      page.cookieWrites := page.cookieWrites + [name + "=; Max-Age=0; path=/; domain=" + host];
      page.cookieWrites := page.cookieWrites + [name + "=; Max-Age=0; path=/"];
      page.cookieWrites := page.cookieWrites + [name + "=; Max-Age=0; path=/; domain=." + host];
      page.cookieWrites := page.cookieWrites + [name + "=; expires=" + PastDate + "; path=/; domain=" + host];
      page.cookieWrites := page.cookieWrites + [name + "=; expires=" + PastDate + "; path=/"];
      assert page.cookieWrites == old(page.cookieWrites) + ClearWrites(name, host);
      cookieCount := cookieCount + 1;
      r := Undefined;
    }

    /** The `forEach` of `_clearAllCookies` over the `;`-separated parts. */
    method ExpireAll(cookies: seq<string>) returns (writes: seq<string>, cleared: nat)
      ensures writes == ExpireWrites(CookieNames(cookies)) && cleared == |CookieNames(cookies)|
    {
      writes := [];
      cleared := 0;
      var i := 0;
      while i < |cookies|
        invariant 0 <= i <= |cookies|
        invariant writes == ExpireWrites(CookieNames(cookies[..i]))
        invariant cleared == |CookieNames(cookies[..i])|
      {
        ExpireStep(cookies, i);
        var name := CookieName(cookies[i]);
        if name != "" {
          writes := writes + [ExpireWrite(name)];
          cleared := cleared + 1;
        }
        i := i + 1;
      }
      assert cookies[..i] == cookies;
    }

    /** `_clearAllCookies()`. */
    method ClearAllCookies() returns (r: Value)
      modifies this, page
      ensures (Snapshot(), r) == AllCookiesCleared(Environment(), old(Snapshot()))
    {
      var cookies := Split(page.cookie, ';');
      var writes, cleared := ExpireAll(cookies);
      AllCookiesClearedBy(Environment(), Snapshot(), writes, cleared);
      page.cookieWrites := page.cookieWrites + writes;
      cookieCount := cookieCount + cleared;
      page.outbox := page.outbox + [Message.ClearAllCookies];
      r := Undefined;
    }

    /** `_addGlobalStyle(selector, styles)`. */
    method AddGlobalStyle(target: Value, styles: Value) returns (r: Value)
      modifies this
      ensures (Snapshot(), r) == GlobalStyleAdded(Environment(), old(Snapshot()), target, styles)
    {
      var entries := Entries(styles);
      if entries.None? {
        return Bool(false);
      }
      var selector := ToJsString(target);
      var rule := RuleText(selector, entries.value);
      if sheet.None? {
        return Undefined;
      }
      if !selectors.valid(selector) {
        return Bool(false);
      }
      sheet := Some(sheet.value + [CssRule(selector, rule)]);
      globalStyles := globalStyles[target := rule];
      r := Bool(true);
    }

    /** `_removeGlobalStyle(selector)`. */
    method RemoveGlobalStyle(target: Value) returns (r: Value)
      modifies this
      ensures (Snapshot(), r) == GlobalStyleRemoved(old(Snapshot()), target)
    {
      if sheet.None? {
        return Bool(false);
      }
      var rules := sheet.value;
      var i := 0;
      while i < |rules|
        invariant 0 <= i <= |rules|
        invariant forall j :: 0 <= j < i ==> target != Str(rules[j].selectorText)
        invariant unchanged(this, page)
      {
        if target == Str(rules[i].selectorText) {
          sheet := Some(rules[..i] + rules[i + 1..]);
          globalStyles := globalStyles - {target};
          return Bool(true);
        }
        i := i + 1;
      }
      r := Undefined;
    }

    /** `_executeAction(context)`. */
    method ExecuteAction(context: Value) returns (r: Value)
      requires !Nullish(context)
      modifies this, page
      ensures (Snapshot(), r) == ActionExecuted(Environment(), old(Snapshot()), context)
    {
      if Truthy(Get(context, "log")) || Truthy(Get(context, "message")) {
        return Bool(true);
      }
      var name := Get(context, "action");
      var target := Get(context, "target");
      if name == Str("click") {
        r := ClickElement(target);
      } else if name == Str("reload") {
        page.reloads := page.reloads + 1;
        r := RemoveElement(target);
      } else if name == Str("remove") {
        r := RemoveElement(target);
      } else if name == Str("hide") {
        r := SetStyle(target, Str("display"), Str("none"), Undefined);
      } else if name == Str("style") {
        r := SetStyle(target, Get(context, "property"), Get(context, "value"), Get(context, "styles"));
      } else if name == Str("delete-cookies") || name == Str("clear-cookies") {
        if target == Str("*") {
          r := ClearAllCookies();
        } else {
          r := ClearCookie(target);
        }
      } else if name == Str("remove-class") {
        r := RemoveClass(target, Get(context, "className"));
      } else if name == Str("addGlobalStyle") {
        r := AddGlobalStyle(target, Get(context, "styles"));
      } else if name == Str("removeGlobalStyle") {
        r := RemoveGlobalStyle(target);
      } else {
        r := Bool(false);
      }
    }

    /** `_processAction(action)`. */
    method ProcessAction(action: Value) returns (r: Settled)
      modifies this, page
      ensures (Snapshot(), r) == ActionProcessed(Environment(), old(Snapshot()), action)
      decreases action, 1
    {
      if Nullish(action) {
        return Rejected;
      }
      ghost var s0 := Snapshot();
      var delay := Get(action, "delay");
      if Truthy(delay) {
        page.waits := page.waits + [delay];
      }
      assert Snapshot() == Delayed(s0, action);
      var success := ExecuteAction(action);
      ghost var s2 := Snapshot();
      r := Chain(action, success);
      ProcessedBy(Environment(), s0, action, s2, success, Snapshot(), r);
    }

    /** The `onSuccess`/`onError` chaining of `_processAction` and its catch block. */
    method Chain(action: Value, success: Value) returns (r: Settled)
      modifies this, page
      ensures (Snapshot(), r) == Chained(Environment(), old(Snapshot()), action, success)
      decreases action, 0
    {
      var onSuccess := Get(action, "onSuccess");
      var onError := Get(action, "onError");
      var chained: Option<Settled> := None;
      if Truthy(success) && Truthy(onSuccess) {
        var c := ProcessAction(onSuccess);
        chained := Some(c);
      } else if !Truthy(success) && Truthy(onError) {
        var c := ProcessAction(onError);
        chained := Some(c);
      }
      if chained == Some(Rejected) {
        if Truthy(onError) {
          var again := ProcessAction(onError);
          if again.Rejected? {
            return Rejected;
          }
        }
        return Returned(Bool(false));
      }
      r := Returned(success);
    }

    /** The report at the end of `executeActions`. */
    method Report()
      modifies page
      ensures Snapshot() == Reported(old(Snapshot()))
    {
      if elementCount > 0 || cookieCount > 0 {
        var count := elementCount + cookieCount;
        page.outbox := page.outbox + [UpdateCounter(count)];
      }
    }

    /** `executeActions(context)`; `false` when the call rejects. */
    method ExecuteActions(context: Value) returns (ok: bool)
      modifies this, page
      ensures (Snapshot(), ok) == ActionsRun(Environment(), old(Snapshot()), context)
      decreases context
    {
      if context.Arr? {
        var i := 0;
        while i < |context.items|
          invariant 0 <= i <= |context.items|
          invariant EachRun(Environment(), old(Snapshot()), context, 0) == EachRun(Environment(), Snapshot(), context, i)
        {
          ok := ExecuteActions(context.items[i]);
          if !ok {
            return false;
          }
          i := i + 1;
        }
      } else if Nullish(context) {
        return false;
      } else if Get(context, "actions").Arr? {
        var actions := Get(context, "actions").items;
        var i := 0;
        while i < |actions|
          invariant 0 <= i <= |actions|
          invariant EachProcessed(Environment(), old(Snapshot()), actions, 0) == EachProcessed(Environment(), Snapshot(), actions, i)
        {
          var settled := ProcessAction(actions[i]);
          if settled.Rejected? {
            return false;
          }
          i := i + 1;
        }
      } else {
        var settled := ProcessAction(context);
        if settled.Rejected? {
          return false;
        }
      }
      Report();
      ok := true;
    }
  }
}
