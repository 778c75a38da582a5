/**
 * The popup (popup.js): the one-line preview of each stored ruleset, the checks an added
 * or edited ruleset must pass, and the edits to the ruleset list that are written back
 * to synced storage.
 */
module Popup {
  import opened JsText
  import opened JsValue
  import opened ActionParser
  import Content

  // ---------------------------------------------------------------------------------------
  // Preview
  // ---------------------------------------------------------------------------------------

  const RemoteOpen := "<em>Remote schema: "
  const RemoteClose := "</em>"
  const Ellipsis := "..."

  /** `text.substring(0, n)`, then `...` when the text was longer than `n`. */
  function Clipped(text: string, n: nat): (r: string)
    ensures Take(text, n) <= r
    ensures |text| <= n ==> r == text
    ensures |text| > n ==> |r| == n + 3 && EndsWith(r, Ellipsis)
  {
    Take(text, n) + if |text| > n then Ellipsis else ""
  }

  /** `key: value` and a separator when the item's field is truthy, nothing otherwise. */
  function Part(item: Value, key: string, sep: string): (r: string)
    ensures r == "" <==> !Truthy(Get(item, key))
    ensures r != "" ==> r == key + ": " + ToJsString(Get(item, key)) + sep
  {
    var v := Get(item, key);
    if Truthy(v) then key + ": " + ToJsString(v) + sep else ""
  }

  /** The first item's fields in braces. */
  function Braced(first: Value): (r: string)
    ensures |r| >= 2 && r[0] == '{' && r[|r| - 1] == '}'
  {
    var inner := Part(first, "domain", ", ") + Part(first, "action", ", ") + Part(first, "target", "");
    var r := "{" + inner + "}";
    assert r[0] == '{';
    r
  }

  /** The braces are empty exactly when none of `domain`, `action` and `target` is truthy. */
  lemma BracedEmpty(first: Value)
    ensures Braced(first) == "{}" <==>
              !Truthy(Get(first, "domain")) && !Truthy(Get(first, "action")) && !Truthy(Get(first, "target"))
  {
    var inner := Part(first, "domain", ", ") + Part(first, "action", ", ") + Part(first, "target", "");
    assert Braced(first) == "{" + inner + "}";
    assert |Braced(first)| == |inner| + 2;
  }

  /** ` + n more`: how many items the preview leaves out. */
  function More(n: nat): string {
    " + " + IntToString(n) + " more"
  }

  /**
   * The preview of the decoded items: the first item's `domain`, `action` and `target` in
   * braces, and how many more items follow. `None` where reading the first item throws.
   * No items means an empty array, which `JSON.stringify` writes `[]`.
   */
  function ItemsText(items: seq<Value>): Option<string> {
    if items == [] then Some("[]")
    else if Nullish(items[0]) then None
    else
      var text := Braced(items[0]);
      Some(if |items| > 1 then text + More(|items| - 1) else text)
  }

  /** The preview of a stored schema string. */
  function Preview(schema: string, decode: Decoder): string {
    if StartsWith(schema, "http") then RemoteOpen + Clipped(schema, 40) + RemoteClose
    else
      match decode(schema)
      case None => Clipped(schema, 50)
      case Some(v) =>
        var items := if v.Arr? then v.items else [v];
        match ItemsText(items)
        case None => Clipped(schema, 50)
        case Some(text) => Clipped(text, 50)
  }

  /**
   * A preview never runs long: a remote schema shows at most its first 40 characters inside
   * the markers, anything else at most 50 characters and `...`.
   */
  lemma PreviewBounded(schema: string, decode: Decoder)
    ensures StartsWith(schema, "http") ==>
              |Preview(schema, decode)| <= 67 && RemoteOpen + Take(schema, 40) <= Preview(schema, decode)
    ensures !StartsWith(schema, "http") ==> |Preview(schema, decode)| <= 53
  {
    if StartsWith(schema, "http") {
      var c := Clipped(schema, 40);
      assert Preview(schema, decode) == RemoteOpen + c + RemoteClose;
      assert (RemoteOpen + c + RemoteClose)[..|RemoteOpen| + |Take(schema, 40)|] == RemoteOpen + Take(schema, 40);
    }
  }

  /**
   * A schema that is not JSON, that is `null` itself, or whose first item is nullish, previews
   * as its own beginning.
   */
  lemma FallbackKeepsBeginning(schema: string, decode: Decoder)
    requires !StartsWith(schema, "http")
    requires || decode(schema).None?
             || Nullish(decode(schema).value)
             || (decode(schema).value.Arr? && decode(schema).value.items != [] && Nullish(decode(schema).value.items[0]))
    ensures Preview(schema, decode) == Clipped(schema, 50)
    ensures Take(schema, 50) <= Preview(schema, decode)
    ensures |schema| <= 50 ==> Preview(schema, decode) == schema
  {
  }

  /**
   * The preview of a list opens with a brace; with more than one item it ends by counting
   * the others, with exactly one it ends with the closing brace.
   */
  lemma ItemsTextShape(items: seq<Value>)
    requires items != [] && !Nullish(items[0])
    ensures ItemsText(items).Some? && StartsWith(ItemsText(items).value, "{")
    ensures |items| > 1 ==> EndsWith(ItemsText(items).value, More(|items| - 1))
    ensures |items| == 1 ==> EndsWith(ItemsText(items).value, "}")
  {
    var text := Braced(items[0]);
    if |items| > 1 {
      EndsWithTail(text, More(|items| - 1));
    } else {
      EndsWithTail(text, "");
      assert text + "" == text;
    }
  }

  /** Appending a tail to a braced text keeps the opening brace and ends with the tail. */
  lemma EndsWithTail(text: string, tail: string)
    requires |text| >= 2 && text[0] == '{' && text[|text| - 1] == '}'
    ensures StartsWith(text + tail, "{") && EndsWith(text + tail, tail)
    ensures tail == "" ==> EndsWith(text + tail, "}")
  {
    var t := text + tail;
    assert t[|t| - |tail|..] == tail;
  }

  /** A decoded value that is not an array previews as a list of that one value. */
  lemma SingleValueIsOneItem(s1: string, s2: string, v: Value, decode: Decoder)
    requires !StartsWith(s1, "http") && !StartsWith(s2, "http")
    requires decode(s1) == Some(v) && !v.Arr? && !Nullish(v)
    requires decode(s2) == Some(Arr([v]))
    ensures Preview(s1, decode) == Preview(s2, decode)
  {
  }

  /** The editor's default template, decoded. */
  const DefaultTemplate: Value :=
    Arr([Obj([Field("domain", Str("*")),
              Field("actions", Arr([Obj([Field("action", Str("remove")), Field("target", Str("#cookie-banner"))])]))])])

  /** The default template previews its one domain, having no top-level action or target. */
  lemma DefaultTemplatePreview(schema: string, decode: Decoder)
    requires !StartsWith(schema, "http") && decode(schema) == Some(DefaultTemplate)
    ensures Preview(schema, decode) == "{domain: *, }"
  {
    DefaultTemplateText();
  }

  lemma DefaultTemplateText()
    ensures ItemsText(DefaultTemplate.items) == Some("{domain: *, }")
  {
    var first := DefaultTemplate.items[0];
    DefaultTemplateFields();
    assert Part(first, "domain", ", ") == "domain: *, ";
    assert Braced(first) == "{domain: *, }";
  }

  lemma DefaultTemplateFields()
    ensures var first := DefaultTemplate.items[0];
            && Get(first, "domain") == Str("*")
            && Part(first, "action", ", ") == ""
            && Part(first, "target", "") == ""
  {
    var first := DefaultTemplate.items[0];
    assert Get(first, "action") == FieldValue(first, first.fields, "action", 2);
    assert Get(first, "target") == FieldValue(first, first.fields, "target", 2);
  }

  // ---------------------------------------------------------------------------------------
  // Validation of an added or edited ruleset
  // ---------------------------------------------------------------------------------------

  datatype Verdict = Accepted(entry: Value) | MissingField | InvalidJson

  /** The stored form of a ruleset. */
  function Entry(name: string, schema: string): Value {
    Obj([Field("rulesetName", Str(name)), Field("schema", Str(schema))])
  }

  /**
   * Both fields are trimmed and must be non-empty; a schema that does not start with `http`
   * must decode as JSON.
   */
  function Validated(nameInput: string, text: string, decode: Decoder): (r: Verdict)
    ensures r == MissingField <==> Trim(nameInput) == "" || Trim(text) == ""
    ensures r.Accepted? <==>
              Trim(nameInput) != "" && Trim(text) != "" && (StartsWith(Trim(text), "http") || decode(Trim(text)).Some?)
    ensures r.Accepted? ==> r.entry == Entry(Trim(nameInput), Trim(text))
  {
    var name := Trim(nameInput);
    var schema := Trim(text);
    if name == "" || schema == "" then MissingField
    else if !StartsWith(schema, "http") && decode(schema).None? then InvalidJson
    else Accepted(Entry(name, schema))
  }

  /**
   * What the popup accepts, the content script reads the same way: the entry is remote
   * there exactly when the popup saw a URL, and an inline schema always decodes.
   */
  lemma AcceptedEntryAgreesWithContent(nameInput: string, text: string, decode: Decoder)
    requires Validated(nameInput, text, decode).Accepted?
    ensures var entry := Validated(nameInput, text, decode).entry;
            && Get(entry, "rulesetName") == Str(Trim(nameInput))
            && Get(entry, "schema") == Str(Trim(text))
            && (Content.IsRemote(Get(entry, "schema")) <==> StartsWith(Trim(text), "http"))
            && (!Content.IsRemote(Get(entry, "schema")) ==> ParseSchema(Get(entry, "schema"), decode) != Threw(MalformedJson))
  {
    var entry := Validated(nameInput, text, decode).entry;
    assert Get(entry, "schema") == FieldValue(entry, entry.fields, "schema", 1);
    TrimIdempotent(text);
  }

  /**
   * The popup accepts a JSON object, yet the content script's parser rejects it: such a
   * ruleset is stored and never runs.
   */
  lemma AcceptedObjectNeverRuns(nameInput: string, text: string, decode: Decoder, fields: seq<Field>)
    requires Trim(nameInput) != "" && Trim(text) != "" && !StartsWith(Trim(text), "http")
    requires decode(Trim(text)) == Some(Obj(fields))
    ensures Validated(nameInput, text, decode).Accepted?
    ensures ParseSchema(Str(Trim(text)), decode) == Threw(NotAnArray)
  {
  }

  // ---------------------------------------------------------------------------------------
  // Edits to the ruleset list
  // ---------------------------------------------------------------------------------------

  /**
   * `list.splice(index, 1)`: a negative index counts back from the end (and is held at the
   * start); an index past the end removes nothing.
   */
  function Spliced(list: seq<Value>, index: int): (r: seq<Value>)
    ensures 0 <= index < |list| ==> r == list[..index] + list[index + 1..]
    ensures index >= |list| ==> r == list
    ensures -|list| <= index < 0 ==> r == list[..|list| + index] + list[|list| + index + 1..]
    ensures index < -|list| && list != [] ==> r == list[1..]
  {
    var start :=
      if index < 0 then (if |list| + index < 0 then 0 else |list| + index)
      else if index < |list| then index else |list|;
    if start < |list| then list[..start] + list[start + 1..] else list
  }

  /** Deleting a row removes that one entry and keeps all the others, in order. */
  lemma SplicedRemovesOne(list: seq<Value>, index: nat)
    requires index < |list|
    ensures |Spliced(list, index)| == |list| - 1
    ensures multiset(Spliced(list, index)) + multiset{list[index]} == multiset(list)
    ensures forall j :: 0 <= j < index ==> Spliced(list, index)[j] == list[j]
    ensures forall j :: index < j < |list| ==> Spliced(list, index)[j - 1] == list[j]
  {
    assert list == list[..index] + [list[index]] + list[index + 1..];
  }

  /**
   * `list[index] = v` on a JavaScript array: a negative index sets a property that is not
   * an element; an index past the end grows the array, the holes stored as `null`.
   */
  function Assigned(list: seq<Value>, index: int, v: Value): (r: seq<Value>)
    ensures index < 0 ==> r == list
    ensures 0 <= index ==> |r| == if index < |list| then |list| else index + 1
    ensures 0 <= index ==> r[index] == v && forall j :: 0 <= j < |list| && j != index ==> r[j] == list[j]
    ensures forall j :: |list| <= j < |r| - 1 ==> r[j] == Null
  {
    if index < 0 then list
    else if index < |list| then list[index := v]
    else list + seq(index - |list|, _ => Null) + [v]
  }

  // ---------------------------------------------------------------------------------------
  // Which `handlers` and `editIndex` each function reaches
  // ---------------------------------------------------------------------------------------

  /**
   * The scopes popup.js's code runs in. `Listeners` is the `DOMContentLoaded` callback, whose
   * locals (`rulesetName`, `editor`, `handlers`, `editIndex` ...) its add and update listeners
   * see. `LoadHandlers` and `RenderHandlers` hold those functions' destructured parameters,
   * `LoadCallback` and `HandleEdit` the locals of the storage callback and the Edit handler.
   * `Global` is the window: the top-level functions, the element ids it exposes, and any
   * name a sloppy-mode assignment creates.
   */
  datatype ScopeId = Global | Listeners | LoadHandlers | LoadCallback | RenderHandlers | HandleEdit

  type Store = map<ScopeId, map<string, Value>>

  /** The innermost scope of the chain that declares `x`. */
  function Resolve(store: Store, chain: seq<ScopeId>, x: string): (r: Option<ScopeId>)
    ensures r.Some? ==> r.value in chain && r.value in store && x in store[r.value]
    ensures r.None? ==> forall k :: 0 <= k < |chain| ==> chain[k] !in store || x !in store[chain[k]]
    ensures r.Some? ==>
              exists k :: 0 <= k < |chain| && chain[k] == r.value
                && forall j :: 0 <= j < k ==> chain[j] !in store || x !in store[chain[j]]
  {
    if chain == [] then None
    else if chain[0] in store && x in store[chain[0]] then Some(chain[0])
    else
      var r := Resolve(store, chain[1..], x);
      if r.Some? then InnermostShifts(store, chain, x, r.value); r else r
  }

  /** An innermost declaring scope of `chain[1..]` is one of `chain` when `chain[0]` lacks `x`. */
  lemma InnermostShifts(store: Store, chain: seq<ScopeId>, x: string, s: ScopeId)
    requires chain != [] && (chain[0] !in store || x !in store[chain[0]])
    requires exists k :: 0 <= k < |chain[1..]| && chain[1..][k] == s
               && forall j :: 0 <= j < k ==> chain[1..][j] !in store || x !in store[chain[1..][j]]
    ensures exists k :: 0 <= k < |chain| && chain[k] == s
              && forall j :: 0 <= j < k ==> chain[j] !in store || x !in store[chain[j]]
  {
    var k :| 0 <= k < |chain[1..]| && chain[1..][k] == s
             && forall j :: 0 <= j < k ==> chain[1..][j] !in store || x !in store[chain[1..][j]];
    forall j | 0 <= j < k + 1 ensures chain[j] !in store || x !in store[chain[j]] {
      if j > 0 { assert chain[j] == chain[1..][j - 1]; }
    }
    assert chain[k + 1] == s;
  }

  /** Reading `x`; `None` is a ReferenceError. */
  function Lookup(store: Store, chain: seq<ScopeId>, x: string): Option<Value> {
    match Resolve(store, chain, x)
    case Some(s) => Some(store[s][x])
    case None => None
  }

  /** `x = v` outside strict mode: the scope that declares `x`, else a new window property. */
  function Assign(store: Store, chain: seq<ScopeId>, x: string, v: Value): Store {
    match Resolve(store, chain, x)
    case Some(s) => store[s := store[s][x := v]]
    case None => store[Global := (if Global in store then store[Global] else map[])[x := v]]
  }

  /** An assignment made through a chain that ends at the window is read back through it. */
  lemma {:induction false} AssignThenLookup(store: Store, chain: seq<ScopeId>, x: string, v: Value)
    requires Global in chain && chain[|chain| - 1] == Global
    ensures Lookup(Assign(store, chain, x, v), chain, x) == Some(v)
  {
    var after := Assign(store, chain, x, v);
    match Resolve(store, chain, x)
    case Some(s) =>
      ResolveUnchanged(store, after, chain, x, s);
    case None =>
      ResolveToGlobal(store, after, chain, x);
  }

  /** Adding `x` to the scope that already resolves it leaves the resolution alone. */
  lemma {:induction false} ResolveUnchanged(store: Store, after: Store, chain: seq<ScopeId>, x: string, s: ScopeId)
    requires Resolve(store, chain, x) == Some(s) && s in after && x in after[s]
    requires forall t :: t != s ==> (t in store <==> t in after) && (t in store ==> store[t] == after[t])
    ensures Resolve(after, chain, x) == Some(s)
    decreases |chain|
  {
    if chain[0] != s {
      ResolveUnchanged(store, after, chain[1..], x, s);
    }
  }

  /** When no scope declares `x`, the window property the assignment creates is found. */
  lemma {:induction false} ResolveToGlobal(store: Store, after: Store, chain: seq<ScopeId>, x: string)
    requires Resolve(store, chain, x).None? && chain != [] && chain[|chain| - 1] == Global
    requires Global in after && x in after[Global]
    requires forall t :: t != Global ==> (t in store <==> t in after) && (t in store ==> store[t] == after[t])
    ensures Resolve(after, chain, x) == Some(Global)
    decreases |chain|
  {
    if chain[0] != Global {
      ResolveToGlobal(store, after, chain[1..], x);
    }
  }

  /** The elements the code reaches by name; their properties play no part here. */
  const Element: Value := Obj([])

  /** The scopes once the popup has opened, before storage answers (popup.js:146-194). */
  function Opened(): Store {
    map[Global := map["renderHandlers" := Element, "loadHandlers" := Element, "init" := Element,
                      "add" := Element, "update" := Element, "cancel" := Element],
        Listeners := map["rulesetName" := Element, "add" := Element, "update" := Element,
                         "cancel" := Element, "editor" := Element, "list" := Element,
                         "handlers" := Arr([]), "editIndex" := Num(-1)],
        LoadHandlers := map["list" := Element, "handlers" := Arr([]), "emptyList" := Element],
        LoadCallback := map["data" := Element],
        RenderHandlers := map["list" := Element, "handlers" := Arr([]), "emptyList" := Element,
                              "handleEdit" := Element, "handleDelete" := Element],
        HandleEdit := map["e" := Element, "index" := Element, "handler" := Element]]
  }

  /** What the add and update listeners see: nested in the `DOMContentLoaded` callback. */
  const ListenerChain: seq<ScopeId> := [Listeners, Global]

  /**
   * The storage callback in `loadHandlers`, as written: `loadHandlers` is top-level, so the
   * nearest `handlers` is its own destructured parameter.
   */
  const LoadCallbackChain: seq<ScopeId> := [LoadCallback, LoadHandlers, Global]

  /** The Edit handler, as written: nested in the top-level `renderHandlers`. */
  const HandleEditChain: seq<ScopeId> := [HandleEdit, RenderHandlers, Global]

  /** The same two functions as intended: reaching the listeners' own bindings. */
  const LoadCallbackChainIntended: seq<ScopeId> := [LoadCallback, Listeners, Global]
  const HandleEditChainIntended: seq<ScopeId> := [HandleEdit, Listeners, Global]

  /** The list the listeners read. */
  function ListenerList(store: Store): seq<Value> {
    match Lookup(store, ListenerChain, "handlers")
    case Some(Arr(items)) => items
    case _ => []
  }

  /** The row index the update listener reads. */
  function ListenerIndex(store: Store): int {
    match Lookup(store, ListenerChain, "editIndex")
    case Some(Num(n)) => n
    case _ => -1
  }

  /** The listeners' list once `loadHandlers` has stored `handlers = data.customHandlers`, as written. */
  function LoadedAsWritten(stored: seq<Value>): seq<Value> {
    ListenerList(Assign(Opened(), LoadCallbackChain, "handlers", Arr(stored)))
  }

  /**
   * As written, the assignment lands on `loadHandlers`' own parameter, so the listeners' list
   * stays empty and the first ruleset added replaces every stored one.
   */
  lemma AddAfterOpenDropsStored(stored: seq<Value>, entry: Value)
    ensures Resolve(Opened(), LoadCallbackChain, "handlers") == Some(LoadHandlers)
    ensures LoadedAsWritten(stored) == []
    ensures var saved := LoadedAsWritten(stored) + [entry];
            saved == [entry] && forall x :: x in stored && x != entry ==> x !in saved
  {
    LoadCallbackScope();
    var after := Assign(Opened(), LoadCallbackChain, "handlers", Arr(stored));
    assert after[Listeners] == Opened()[Listeners];
    assert Resolve(after, ListenerChain, "handlers") == Some(Listeners);
  }

  /**
   * The storage callback's `handlers` is `loadHandlers`' parameter as written, and the
   * listeners' list as intended.
   */
  lemma LoadCallbackScope()
    ensures Resolve(Opened(), LoadCallbackChain, "handlers") == Some(LoadHandlers)
    ensures Resolve(Opened(), LoadCallbackChainIntended, "handlers") == Some(Listeners)
  {
    var start := Opened();
    assert "handlers" !in start[LoadCallback] && "handlers" in start[LoadHandlers];
    assert "handlers" in start[Listeners];
  }

  /** The listeners' list once the popup has loaded `stored`, as intended. */
  function Loaded(stored: seq<Value>): seq<Value> {
    ListenerList(Assign(Opened(), LoadCallbackChainIntended, "handlers", Arr(stored)))
  }

  /** Adding after loading keeps every stored ruleset, in order, and appends the new one. */
  lemma AddAfterOpenKeepsStored(stored: seq<Value>, entry: Value)
    ensures Loaded(stored) == stored
    ensures var saved := Loaded(stored) + [entry];
            saved[..|stored|] == stored && saved[|stored|] == entry && |saved| == |stored| + 1
  {
    LoadCallbackScope();
    var after := Assign(Opened(), LoadCallbackChainIntended, "handlers", Arr(stored));
    assert after[Listeners]["handlers"] == Arr(stored);
    assert Resolve(after, ListenerChain, "handlers") == Some(Listeners);
  }

  /** The index the update listener reads after `editIndex = index` in the Edit handler, as written. */
  function ListenerEditIndexAsWritten(row: nat): int {
    ListenerIndex(Assign(Opened(), HandleEditChain, "editIndex", Num(row)))
  }

  /**
   * As written, the Edit handler cannot see the listeners' bindings: its first read of
   * `rulesetName` is a ReferenceError, and even past it, `editIndex = index` creates a
   * window property, so the update listener still reads -1 and writes to no row.
   */
  lemma UpdateAfterEditAsWritten(list: seq<Value>, row: nat, entry: Value)
    ensures Lookup(Opened(), HandleEditChain, "rulesetName") == None
    ensures Resolve(Opened(), HandleEditChain, "editIndex") == None
    ensures ListenerEditIndexAsWritten(row) == -1
    ensures Assigned(list, ListenerEditIndexAsWritten(row), entry) == list
  {
    EditHandlerScope();
    var after := Assign(Opened(), HandleEditChain, "editIndex", Num(row));
    assert after[Listeners] == Opened()[Listeners];
    assert Resolve(after, ListenerChain, "editIndex") == Some(Listeners);
  }

  /** Neither `rulesetName` nor `editIndex` is declared on the Edit handler's scope chain. */
  lemma EditHandlerScope()
    ensures Resolve(Opened(), HandleEditChain, "rulesetName") == None
    ensures Resolve(Opened(), HandleEditChain, "editIndex") == None
  {
    var start := Opened();
    assert "rulesetName" !in start[HandleEdit] && "rulesetName" !in start[RenderHandlers];
    assert "rulesetName" !in start[Global];
    assert "editIndex" !in start[HandleEdit] && "editIndex" !in start[RenderHandlers];
    assert "editIndex" !in start[Global];
  }

  /** The index the update listener reads after a row's Edit button, as intended. */
  function ListenerEditIndex(row: nat): int {
    ListenerIndex(Assign(Opened(), HandleEditChainIntended, "editIndex", Num(row)))
  }

  /** Update after Edit on a row replaces that row and no other. */
  lemma UpdateAfterEditReplaces(list: seq<Value>, row: nat, entry: Value)
    ensures Lookup(Opened(), HandleEditChainIntended, "rulesetName").Some?
    ensures ListenerEditIndex(row) == row
    ensures row < |list| ==> Assigned(list, ListenerEditIndex(row), entry) == list[row := entry]
  {
    EditHandlerScopeIntended();
    var after := Assign(Opened(), HandleEditChainIntended, "editIndex", Num(row));
    assert after[Listeners]["editIndex"] == Num(row);
    assert Resolve(after, ListenerChain, "editIndex") == Some(Listeners);
  }

  /** Nested in the listeners' scope, the Edit handler finds both bindings there. */
  lemma EditHandlerScopeIntended()
    ensures Resolve(Opened(), HandleEditChainIntended, "rulesetName") == Some(Listeners)
    ensures Resolve(Opened(), HandleEditChainIntended, "editIndex") == Some(Listeners)
  {
    var start := Opened();
    assert "rulesetName" !in start[HandleEdit] && "rulesetName" in start[Listeners];
    assert "editIndex" !in start[HandleEdit] && "editIndex" in start[Listeners];
  }

  // ---------------------------------------------------------------------------------------
  // The popup's list as the source keeps it
  // ---------------------------------------------------------------------------------------

  /**
   * The popup's ruleset list, the row being edited (-1 for none) and what it last saved to
   * storage. Loading and editing follow the intended `Loaded` and `ListenerEditIndex`.
   */
  class Popup {
    var handlers: seq<Value>
    var editIndex: int
    var stored: seq<Value>

    constructor(stored: seq<Value>)
      ensures handlers == Loaded(stored) && this.stored == stored && editIndex == -1
    {
      AddAfterOpenKeepsStored(stored, Null);
      handlers := stored;
      this.stored := stored;
      editIndex := -1;
    }

    /**
     * A row's Edit button. A row with no ruleset behind it (one left on screen after a
     * Delete, or a stored `null`) throws at `handler.rulesetName` before `editIndex` is set.
     */
    method Edit(row: nat)
      modifies this
      ensures row < |handlers| && !Nullish(handlers[row]) ==> editIndex == ListenerEditIndex(row)
      ensures !(row < |handlers| && !Nullish(handlers[row])) ==> editIndex == old(editIndex)
      ensures handlers == old(handlers) && stored == old(stored)
    {
      if row < |handlers| && !Nullish(handlers[row]) {
        UpdateAfterEditReplaces([], row, Null);
        editIndex := row;
      }
    }

    /** The Add button: validate, append, save. */
    method Add(nameInput: string, text: string, decode: Decoder) returns (v: Verdict)
      modifies this
      ensures v == Validated(nameInput, text, decode)
      ensures v.Accepted? ==> handlers == old(handlers) + [v.entry] && stored == handlers
      ensures !v.Accepted? ==> handlers == old(handlers) && stored == old(stored)
      ensures editIndex == old(editIndex)
    {
      v := Validated(nameInput, text, decode);
      if v.Accepted? {
        handlers := handlers + [v.entry];
        stored := handlers;
      }
    }

    /** The Update button: validate, replace the row being edited, save, stop editing. */
    method Update(nameInput: string, text: string, decode: Decoder) returns (v: Verdict)
      modifies this
      ensures v == Validated(nameInput, text, decode)
      ensures v.Accepted? ==>
                handlers == Assigned(old(handlers), old(editIndex), v.entry) && stored == handlers && editIndex == -1
      ensures !v.Accepted? ==> handlers == old(handlers) && stored == old(stored) && editIndex == old(editIndex)
    {
      v := Validated(nameInput, text, decode);
      if v.Accepted? {
        handlers := Assigned(handlers, editIndex, v.entry);
        stored := handlers;
        editIndex := -1;
      }
    }

    /** A row's Delete button, once confirmed: remove the row, save. */
    method Delete(row: int)
      modifies this
      ensures handlers == Spliced(old(handlers), row) && stored == handlers && editIndex == old(editIndex)
    {
      handlers := Spliced(handlers, row);
      stored := handlers;
    }
  }
}
