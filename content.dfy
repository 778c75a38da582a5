/**
 * The content script's handler loop (`runCustomHandlers` in content.js): for each stored
 * handler in order, load a remote schema, parse it, decide which of its actions apply to the
 * page's hostname, and hand them to the executor. A handler whose load, parse or selection
 * fails is skipped and the loop goes on with the next one. A `null` or `undefined` handler
 * ends the whole pass: reading its `schema` throws, and the loop's own catch block throws
 * again when it reads the handler's `rulesetName` for its message.
 */
module Content {
  import opened JsText
  import opened JsValue
  import opened ActionParser
  import RL = RemoteLoader
  import AE = ActionExecutor

  // ---------------------------------------------------------------------------------------
  // Selection rules
  // ---------------------------------------------------------------------------------------

  /** A schema is remote when it is a string whose trimmed text starts with `http`. */
  predicate IsRemote(schema: Value) {
    schema.Str? && StartsWith(Trim(schema.s), "http")
  }

  /** `parts.slice(-2)`: the last two pieces, or all of them when there are fewer. */
  function LastTwo(parts: seq<string>): (r: seq<string>)
    ensures |r| == if |parts| < 2 then |parts| else 2
    ensures r == parts[|parts| - |r|..]
  {
    if |parts| <= 2 then parts else parts[|parts| - 2..]
  }

  /** `host.split(".").slice(-2).join(".")`: the last two labels of the hostname. */
  function BaseDomain(host: string): string {
    Join(LastTwo(Split(host, '.')), ".")
  }

  /** The base domain is a suffix of the hostname. */
  lemma BaseDomainIsSuffix(host: string)
    ensures EndsWith(host, BaseDomain(host))
  {
    var parts := Split(host, '.');
    SplitJoin(host, '.');
    JoinEndsWithTail(parts, ".", |parts| - |LastTwo(parts)|);
  }

  /** A hostname of at most two labels is its own base domain. */
  lemma BaseDomainOfTwoLabels(host: string)
    requires |Split(host, '.')| <= 2
    ensures BaseDomain(host) == host
  {
    SplitJoin(host, '.');
  }

  /** Taking the base domain twice changes nothing more. */
  lemma BaseDomainIdempotent(host: string)
    ensures BaseDomain(BaseDomain(host)) == BaseDomain(host)
  {
    var parts := Split(host, '.');
    var last := LastTwo(parts);
    SplitJoin(host, '.');
    LabelsHaveNoDot(parts, last);
    JoinSplit(last, '.');
    assert Split(BaseDomain(host), '.') == last;
    assert LastTwo(last) == last;
  }

  lemma LabelsHaveNoDot(parts: seq<string>, last: seq<string>)
    requires forall i :: 0 <= i < |parts| ==> '.' !in parts[i]
    requires last == LastTwo(parts)
    ensures |last| >= 1 || parts == []
    ensures forall i :: 0 <= i < |last| ==> '.' !in last[i]
  {
    if |parts| > 2 {
      assert last == [parts[|parts| - 2], parts[|parts| - 1]];
    }
  }

  /** A domain-mode item is kept when its `domain` is the hostname or its base domain. */
  predicate DomainMatches(item: Value, host: string) {
    Get(item, "domain") == Str(host) || Get(item, "domain") == Str(BaseDomain(host))
  }

  /** The `filter` of domain mode. */
  function DomainActions(items: seq<Value>, host: string): (r: seq<Value>)
    ensures |r| <= |items|
  {
    if items == [] then []
    else
      var last := items[|items| - 1];
      DomainActions(items[..|items| - 1], host) + (if DomainMatches(last, host) then [last] else [])
  }

  /** An item is kept exactly when it is in the schema and its domain matches. */
  lemma {:induction false} DomainActionsMembers(items: seq<Value>, host: string)
    ensures forall x :: x in DomainActions(items, host) <==> x in items && DomainMatches(x, host)
  {
    if items != [] {
      var init := items[..|items| - 1];
      DomainActionsMembers(init, host);
      assert items == init + [items[|items| - 1]];
    }
  }

  /** The filter keeps the schema's order: it distributes over concatenation. */
  lemma {:induction false} DomainActionsConcat(a: seq<Value>, b: seq<Value>, host: string)
    ensures DomainActions(a + b, host) == DomainActions(a, host) + DomainActions(b, host)
    decreases |b|
  {
    if b != [] {
      var init := b[..|b| - 1];
      DomainActionsConcat(a, init, host);
      assert (a + b)[..|a + b| - 1] == a + init;
    } else {
      assert a + b == a;
    }
  }

  /** Flat mode runs when the ruleset name is `*`, the hostname, or a parent domain of it. */
  predicate NameMatches(name: Value, host: string) {
    name == Str("*") || name == Str(host) || EndsWith(host, "." + ToJsString(name))
  }

  /** A ruleset named after a domain applies to each of its subdomains. */
  lemma SubdomainMatches(name: string, sub: string)
    ensures NameMatches(Str(name), sub + "." + name)
  {
    var host := sub + "." + name;
    assert host[|host| - |"." + name|..] == "." + name;
  }

  /** A hostname that merely ends with the name's text, without a dot before it, does not match. */
  lemma LookalikeDoesNotMatch(name: string, host: string, c: char)
    requires name != "*" && c != '.' && host == [c] + name
    ensures !NameMatches(Str(name), host)
  {
    assert host[0] != ("." + name)[0];
    assert host[|host| - |"." + name|..] == host;
  }

  /** What a handler's schema leads to: actions for the executor, nothing, or a thrown error. */
  datatype Selection = Run(actions: Value) | Idle | Skipped

  /** Some item is `null` or `undefined`: reading its `domain` in `some`/`filter` throws. */
  predicate HasNullishItem(items: seq<Value>) {
    exists i :: 0 <= i < |items| && Nullish(items[i])
  }

  /** Domain mode: some item has a truthy `domain`. */
  predicate HasDomainObjects(items: seq<Value>) {
    exists i :: 0 <= i < |items| && Truthy(Get(items[i], "domain"))
  }

  /**
   * Parse the schema and choose what to run. Parsing yields an array or throws, so the
   * branch for a domain-keyed object is not reached here (see `KeyedSelection`).
   */
  function Selected(host: string, name: Value, schema: Value, decode: Decoder): (r: Selection)
    ensures r.Run? ==> ParseSchema(schema, decode).Parsed? && r.actions.Arr?
    ensures r.Run? ==> forall x :: x in r.actions.items ==> x in ParseSchema(schema, decode).actions && !Nullish(x)
    ensures r == Skipped <==> ParseSchema(schema, decode).Threw? || HasNullishItem(ParseSchema(schema, decode).actions)
  {
    match ParseSchema(schema, decode)
    case Threw(_) => Skipped
    case Parsed(items) =>
      if HasNullishItem(items) then Skipped
      else if HasDomainObjects(items) then
        var kept := DomainActions(items, host);
        DomainActionsMembers(items, host);
        if kept != [] then Run(Arr(kept)) else Idle
      else if NameMatches(name, host) then Run(Arr(items))
      else Idle
  }

  /** In domain mode the ruleset name plays no part, `*` included. */
  lemma DomainModeIgnoresName(host: string, name1: Value, name2: Value, schema: Value, decode: Decoder)
    requires ParseSchema(schema, decode).Parsed? && HasDomainObjects(ParseSchema(schema, decode).actions)
    ensures Selected(host, name1, schema, decode) == Selected(host, name2, schema, decode)
  {
  }

  /**
   * Flat mode, for a schema without nullish items and without any truthy `domain`: the
   * whole array runs when the name matches and nothing runs otherwise.
   */
  lemma FlatModeRunsIff(host: string, name: Value, schema: Value, decode: Decoder)
    requires ParseSchema(schema, decode).Parsed?
    requires !HasNullishItem(ParseSchema(schema, decode).actions)
    requires !HasDomainObjects(ParseSchema(schema, decode).actions)
    ensures Selected(host, name, schema, decode).Run? <==> NameMatches(name, host)
    ensures Selected(host, name, schema, decode).Run? ==>
              Selected(host, name, schema, decode).actions == Arr(ParseSchema(schema, decode).actions)
  {
  }

  /**
   * Domain mode, for a schema without nullish items: something runs exactly when some item's
   * domain matches, and what runs is every matching item, in schema order.
   */
  lemma DomainModeRunsIff(host: string, name: Value, schema: Value, decode: Decoder, items: seq<Value>)
    requires ParseSchema(schema, decode) == Parsed(items)
    requires !HasNullishItem(items) && HasDomainObjects(items)
    ensures Selected(host, name, schema, decode).Run? <==> exists i :: 0 <= i < |items| && DomainMatches(items[i], host)
    ensures Selected(host, name, schema, decode).Run? ==>
              Selected(host, name, schema, decode).actions == Arr(DomainActions(items, host))
  {
    var kept := DomainActions(items, host);
    assert Selected(host, name, schema, decode) == if kept != [] then Run(Arr(kept)) else Idle;
    DomainActionsMembers(items, host);
    if exists i :: 0 <= i < |items| && DomainMatches(items[i], host) {
      var i :| 0 <= i < |items| && DomainMatches(items[i], host);
      assert items[i] in kept;
    }
    if kept != [] {
      assert kept[0] in kept;
    }
  }

  /** Domain mode never hands the executor an empty array. */
  lemma DomainModeRunsNonEmpty(host: string, name: Value, schema: Value, decode: Decoder)
    requires ParseSchema(schema, decode).Parsed? && HasDomainObjects(ParseSchema(schema, decode).actions)
    requires Selected(host, name, schema, decode).Run?
    ensures |Selected(host, name, schema, decode).actions.items| >= 1
    ensures forall x :: x in Selected(host, name, schema, decode).actions.items ==> DomainMatches(x, host)
  {
    DomainActionsMembers(ParseSchema(schema, decode).actions, host);
  }

  /**
   * The branch for an object keyed by domain: the exact hostname's entry when truthy, else
   * the base domain's, else nothing.
   */
  function KeyedSelection(host: string, schema: Value): Selection {
    if Truthy(Get(schema, host)) then Run(Get(schema, host))
    else if Truthy(Get(schema, BaseDomain(host))) then Run(Get(schema, BaseDomain(host)))
    else Idle
  }

  /** The exact hostname wins over the base domain, and at most one entry runs. */
  lemma ExactKeyWins(host: string, schema: Value)
    ensures Truthy(Get(schema, host)) ==> KeyedSelection(host, schema) == Run(Get(schema, host))
    ensures KeyedSelection(host, schema).Run? ==>
              KeyedSelection(host, schema).actions in [Get(schema, host), Get(schema, BaseDomain(host))]
    ensures !Truthy(Get(schema, host)) && !Truthy(Get(schema, BaseDomain(host))) ==> KeyedSelection(host, schema) == Idle
  {
  }

  /** The keyed branch is unreachable: a parsed schema is always an array. */
  lemma KeyedBranchUnreachable(schema: Value, decode: Decoder)
    requires ParseSchema(schema, decode).Parsed?
    ensures Decoded(schema, decode).value.Arr?
  {
  }

  // ---------------------------------------------------------------------------------------
  // One pass over the stored handlers
  // ---------------------------------------------------------------------------------------

  /** What a pass changes: the page and executor, the loader's cache, and the fetches made. */
  datatype Pass = Pass(state: AE.State, cache: RL.Cache, requests: seq<string>)

  /**
   * How one turn of the loop ends: on to the next handler, or out of the loop into the outer
   * catch block, which ends the pass.
   */
  datatype StepOutcome = Next(pass: Pass) | Abort(pass: Pass)

  /** Run what the selection asks for. */
  function Executed(env: AE.Env, p: Pass, name: Value, schema: Value, decode: Decoder): Pass {
    match Selected(env.hostname, name, schema, decode)
    case Run(actions) => p.(state := AE.ActionsRun(env, p.state, actions).0)
    case _ => p
  }

  /**
   * One handler: reading `schema` of a nullish handler throws, and so does the catch block
   * that reports it, so the pass ends; a remote schema is loaded from its trimmed text (a
   * failed load skips the handler); the schema is then parsed and run.
   */
  function HandlerStep(env: AE.Env, p: Pass, handler: Value, now: int, later: int,
                       fetch: RL.Fetcher, decode: Decoder): StepOutcome
  {
    if Nullish(handler) then Abort(p)
    else
      var schema := Get(handler, "schema");
      var name := Get(handler, "rulesetName");
      if IsRemote(schema) then
        var loaded := RL.Load(p.cache, Trim(schema.s), now, later, fetch);
        var p1 := p.(cache := loaded.cache,
                     requests := p.requests + if loaded.request.Some? then [loaded.request.value] else []);
        match loaded.result
        case Failed(_) => Next(p1)
        case Loaded(text) => Next(Executed(env, p1, name, Str(text), decode))
      else Next(Executed(env, p, name, schema, decode))
  }

  /**
   * The handlers from `i` on, in storage order. `clock(2 * i)` and `clock(2 * i + 1)` are the
   * two readings of `Date.now()` the loader takes for handler `i`.
   */
  function HandlersRun(env: AE.Env, p: Pass, handlers: seq<Value>, i: nat, clock: nat -> int,
                       fetch: RL.Fetcher, decode: Decoder): Pass
    requires i <= |handlers|
    decreases |handlers| - i
  {
    if i == |handlers| then p
    else
      match HandlerStep(env, p, handlers[i], clock(2 * i), clock(2 * i + 1), fetch, decode)
      case Abort(p1) => p1
      case Next(p1) => HandlersRun(env, p1, handlers, i + 1, clock, fetch, decode)
  }

  /** `runCustomHandlers`: nothing happens unless storage holds an array of handlers. */
  function CustomHandlersRun(env: AE.Env, p: Pass, stored: Value, clock: nat -> int,
                             fetch: RL.Fetcher, decode: Decoder): Pass
  {
    if !Truthy(stored) || !stored.Arr? then p
    else HandlersRun(env, p, stored.items, 0, clock, fetch, decode)
  }

  /**
   * A handler that fails — nullish, a failed remote load, a parse that throws, a nullish
   * item — leaves the page as it was; only the loader's cache and fetch log may change.
   */
  lemma FailedHandlerLeavesPage(env: AE.Env, p: Pass, handler: Value, now: int, later: int,
                                fetch: RL.Fetcher, decode: Decoder)
    requires
      || Nullish(handler)
      || (IsRemote(Get(handler, "schema"))
          && RL.Load(p.cache, Trim(Get(handler, "schema").s), now, later, fetch).result.Failed?)
      || (!IsRemote(Get(handler, "schema"))
          && Selected(env.hostname, Get(handler, "rulesetName"), Get(handler, "schema"), decode) == Skipped)
    ensures HandlerStep(env, p, handler, now, later, fetch, decode).pass.state == p.state
    ensures HandlerStep(env, p, handler, now, later, fetch, decode).Abort? <==> Nullish(handler)
  {
  }

  /**
   * Only a remote schema reaches the loader, and then with its trimmed text: an inline
   * schema leaves cache and fetch log alone, a remote one fetches at most its own URL.
   */
  lemma RemoteOnlyFetchesTrimmed(env: AE.Env, p: Pass, handler: Value, now: int, later: int,
                                 fetch: RL.Fetcher, decode: Decoder)
    requires !Nullish(handler)
    ensures var q := HandlerStep(env, p, handler, now, later, fetch, decode).pass;
            var schema := Get(handler, "schema");
            && (!IsRemote(schema) ==> q.cache == p.cache && q.requests == p.requests)
            && (IsRemote(schema) ==>
                  q.requests == p.requests || q.requests == p.requests + [RL.RequestUrl(Trim(schema.s))])
  {
  }

  /**
   * A nullish entry ends the pass: no handler after it runs, so the pass over the whole list
   * is the pass over the handlers before it.
   */
  lemma {:induction false} NullishHandlerEndsPass(env: AE.Env, p: Pass, handlers: seq<Value>, i: nat, j: nat,
                                                  clock: nat -> int, fetch: RL.Fetcher, decode: Decoder)
    requires i <= j < |handlers| && Nullish(handlers[j])
    ensures HandlersRun(env, p, handlers, i, clock, fetch, decode) ==
            HandlersRun(env, p, handlers[..j], i, clock, fetch, decode)
    decreases j - i
  {
    if i < j {
      assert handlers[..j][i] == handlers[i];
      var step := HandlerStep(env, p, handlers[i], clock(2 * i), clock(2 * i + 1), fetch, decode);
      if step.Next? {
        NullishHandlerEndsPass(env, step.pass, handlers, i + 1, j, clock, fetch, decode);
      }
    }
  }

  /** A stored list that starts with `null` runs nothing, whatever follows it. */
  lemma NullFirstRunsNothing(env: AE.Env, p: Pass, rest: seq<Value>, clock: nat -> int,
                             fetch: RL.Fetcher, decode: Decoder)
    ensures CustomHandlersRun(env, p, Arr([Null] + rest), clock, fetch, decode) == p
  {
    NullishHandlerEndsPass(env, p, [Null] + rest, 0, 0, clock, fetch, decode);
  }

  /** Counters only grow over a pass, handler after handler. */
  lemma {:induction false} HandlersRunGrows(env: AE.Env, p: Pass, handlers: seq<Value>, i: nat,
                                            clock: nat -> int, fetch: RL.Fetcher, decode: Decoder)
    requires i <= |handlers|
    ensures AE.Grows(p.state, HandlersRun(env, p, handlers, i, clock, fetch, decode).state)
    decreases |handlers| - i
  {
    if i < |handlers| {
      var step := HandlerStep(env, p, handlers[i], clock(2 * i), clock(2 * i + 1), fetch, decode);
      StepGrows(env, p, handlers[i], clock(2 * i), clock(2 * i + 1), fetch, decode);
      if step.Next? {
        var p1 := step.pass;
        HandlersRunGrows(env, p1, handlers, i + 1, clock, fetch, decode);
        AE.GrowsTransitive(p.state, p1.state, HandlersRun(env, p1, handlers, i + 1, clock, fetch, decode).state);
      }
    }
  }

  lemma StepGrows(env: AE.Env, p: Pass, handler: Value, now: int, later: int,
                  fetch: RL.Fetcher, decode: Decoder)
    ensures AE.Grows(p.state, HandlerStep(env, p, handler, now, later, fetch, decode).pass.state)
  {
    if !Nullish(handler) {
      var schema := Get(handler, "schema");
      var name := Get(handler, "rulesetName");
      if IsRemote(schema) {
        var loaded := RL.Load(p.cache, Trim(schema.s), now, later, fetch);
        if loaded.result.Loaded? {
          ExecutedGrows(env, p, name, Str(loaded.result.text), decode);
        }
      } else {
        ExecutedGrows(env, p, name, schema, decode);
      }
    }
  }

  lemma ExecutedGrows(env: AE.Env, p: Pass, name: Value, schema: Value, decode: Decoder)
    ensures AE.Grows(p.state, Executed(env, p, name, schema, decode).state)
  {
    var sel := Selected(env.hostname, name, schema, decode);
    if sel.Run? {
      AE.RunGrows(env, p.state, sel.actions);
    }
  }

  // ---------------------------------------------------------------------------------------
  // The loop as the source has it
  // ---------------------------------------------------------------------------------------

  /** The part of the loader and executor a pass changes. */
  function Current(loader: RL.RemoteLoader, executor: AE.ActionExecutor): Pass
    reads loader, executor, executor.page
  {
    Pass(executor.Snapshot(), loader.cache, loader.requests)
  }

  /**
   * The body of the `for…of` loop, with its `try`/`catch` and `continue`s; `aborted` is set
   * when the body throws out of the loop.
   */
  method RunHandler(handler: Value, loader: RL.RemoteLoader, executor: AE.ActionExecutor,
                    now: int, later: int, fetch: RL.Fetcher, decode: Decoder) returns (aborted: bool)
    modifies loader, executor, executor.page
    ensures HandlerStep(executor.Environment(), old(Current(loader, executor)), handler, now, later, fetch, decode) ==
            if aborted then Abort(Current(loader, executor)) else Next(Current(loader, executor))
  {
    if Nullish(handler) {
      return true;
    }
    aborted := false;
    var schema := Get(handler, "schema");
    if IsRemote(schema) {
      var result := loader.LoadFromUrl(Trim(schema.s), now, later, fetch);
      if result.Failed? {
        return;
      }
      schema := Str(result.text);
    }
    var selection := Selected(executor.Environment().hostname, Get(handler, "rulesetName"), schema, decode);
    if selection.Run? {
      var _ := executor.ExecuteActions(selection.actions);
    }
  }

  /** `runCustomHandlers`, one sequential pass; a body that throws out of the loop ends it. */
  method RunCustomHandlers(stored: Value, loader: RL.RemoteLoader, executor: AE.ActionExecutor,
                           clock: nat -> int, fetch: RL.Fetcher, decode: Decoder)
    modifies loader, executor, executor.page
    ensures Current(loader, executor) ==
            CustomHandlersRun(executor.Environment(), old(Current(loader, executor)), stored, clock, fetch, decode)
  {
    if !Truthy(stored) || !stored.Arr? {
      return;
    }
    var handlers := stored.items;
    var i := 0;
    while i < |handlers|
      invariant 0 <= i <= |handlers|
      invariant HandlersRun(executor.Environment(), old(Current(loader, executor)), handlers, 0, clock, fetch, decode) ==
                HandlersRun(executor.Environment(), Current(loader, executor), handlers, i, clock, fetch, decode)
    {
      var aborted := RunHandler(handlers[i], loader, executor, clock(2 * i), clock(2 * i + 1), fetch, decode);
      if aborted {
        return;
      }
      i := i + 1;
    }
  }
}
