/**
 * The background script (background.js): a running total of what the content scripts
 * report, shown on the toolbar badge and kept in synced storage, plus the defaults it
 * writes to storage when the extension is installed.
 */
module Background {
  import opened JsText
  import opened JsValue

  /** The messages the background listens for; any other `action` is ignored. */
  datatype Message = UpdateCounter(count: int) | ResetCounter | Other(action: string)

  const BadgeGray := "#777777"

  /** The badge shows the total up to 99 and `99+` beyond. */
  function BadgeText(total: int): string {
    if total > 99 then "99+" else IntToString(total)
  }

  /**
   * The badge never takes more than three characters for a total that is not negative:
   * up to 99 it is exactly the total's digits, above 99 the fixed `99+`.
   */
  lemma BadgeTextShape(total: int)
    ensures total > 99 ==> BadgeText(total) == "99+"
    ensures 0 <= total <= 99 ==>
              1 <= |BadgeText(total)| <= 2 && AllDigits(BadgeText(total)) && DecimalValue(BadgeText(total)) == total
    ensures 0 <= total ==> |BadgeText(total)| <= 3
  {
    if 0 <= total {
      NatToStringLength(total);
    }
  }

  /** The background's state: the in-memory total, the badge, and synced storage. */
  datatype Counter = Counter(total: int, badgeText: string, badgeColor: string, storage: map<string, Value>)

  /** The message listener. */
  function Received(c: Counter, m: Message): Counter {
    match m
    case UpdateCounter(n) =>
      var total := c.total + n;
      Counter(total, BadgeText(total), BadgeGray, c.storage["totalCounter" := Num(total)])
    case ResetCounter =>
      c.(total := 0, badgeText := IntToString(0), storage := c.storage["totalCounter" := Num(0)])
    case Other(_) => c
  }

  /** What storage and the badge should agree on: storage keeps the real total, the badge its display. */
  predicate Consistent(c: Counter) {
    "totalCounter" in c.storage && c.storage["totalCounter"] == Num(c.total) && c.badgeText == BadgeText(c.total)
  }

  /**
   * `updateCounter` adds the count, `resetCounter` zeroes the total and shows `0`, and both
   * store the real total, not the badge text; any other message changes nothing.
   */
  lemma ReceivedEffect(c: Counter, m: Message)
    ensures m.UpdateCounter? ==> Received(c, m).total == c.total + m.count
    ensures m.ResetCounter? ==> Received(c, m).total == 0 && Received(c, m).badgeText == "0"
    ensures m.Other? ==> Received(c, m) == c
    ensures !m.Other? ==> Consistent(Received(c, m))
  {
    if m.ResetCounter? {
      assert IntToString(0) == "0";
    }
  }

  /** Consistency, once reached, survives every message. */
  lemma ReceivedKeepsConsistent(c: Counter, m: Message)
    requires Consistent(c)
    ensures Consistent(Received(c, m))
  {
    ReceivedEffect(c, m);
  }

  /** The messages in order. */
  function ReceivedAll(c: Counter, ms: seq<Message>): Counter
    decreases |ms|
  {
    if ms == [] then c else ReceivedAll(Received(c, ms[0]), ms[1..])
  }

  /** The sum of the counts of `updateCounter` messages. */
  function Counted(ms: seq<Message>): int
    decreases |ms|
  {
    if ms == [] then 0
    else (if ms[0].UpdateCounter? then ms[0].count else 0) + Counted(ms[1..])
  }

  /** Without a reset in between, the total grows by exactly the counts reported. */
  lemma {:induction false} TotalIsSumOfCounts(c: Counter, ms: seq<Message>)
    requires forall i :: 0 <= i < |ms| ==> !ms[i].ResetCounter?
    ensures ReceivedAll(c, ms).total == c.total + Counted(ms)
    decreases |ms|
  {
    if ms != [] {
      assert forall i :: 0 <= i < |ms[1..]| ==> ms[1..][i] == ms[i + 1];
      TotalIsSumOfCounts(Received(c, ms[0]), ms[1..]);
    }
  }

  /** After a reset the total is what the following messages report. */
  lemma ResetRestarts(c: Counter, ms: seq<Message>)
    requires forall i :: 0 <= i < |ms| ==> !ms[i].ResetCounter?
    ensures ReceivedAll(c, [ResetCounter] + ms).total == Counted(ms)
  {
    assert ([ResetCounter] + ms)[1..] == ms;
    TotalIsSumOfCounts(Received(c, ResetCounter), ms);
  }

  // ---------------------------------------------------------------------------------------
  // Installation defaults
  // ---------------------------------------------------------------------------------------

  /** `chrome.storage.sync.get(key)`: an object holding that one key, when stored. */
  function Fetched(storage: map<string, Value>, key: string): (r: Value)
    ensures key in storage && storage[key] != Undefined ==> Get(r, key) == storage[key]
    ensures key !in storage ==> Get(r, key) == Undefined
  {
    if key in storage then Obj([Field(key, storage[key])]) else Obj([])
  }

  /** The fetched object holds no other key. */
  lemma FetchedOnlyKey(storage: map<string, Value>, key: string, other: string)
    requires other != key
    ensures Get(Fetched(storage, key), other) == Undefined
  {
    var r := Fetched(storage, key);
    if key in storage {
      assert FieldValue(r, r.fields, other, 1) == Undefined;
    }
  }

  const DefaultRulesetUrl := "https://gist.githubusercontent.com/nsrau/c3a4430e7255223cb2e40844f4f98ca4/raw"

  /** The ruleset list a fresh install starts with: the project's own list, loaded remotely. */
  const DefaultHandlers: Value :=
    Arr([Obj([Field("rulesetName", Str("un_cookies_list.json")), Field("schema", Str(DefaultRulesetUrl))])])

  /** A truthy stored total replaces the in-memory one and is shown on the badge. */
  function TotalRestored(c: Counter): Counter {
    var stored := Get(Fetched(c.storage, "totalCounter"), "totalCounter");
    if Truthy(stored) && stored.Num? then c.(total := stored.n, badgeColor := BadgeGray, badgeText := BadgeText(stored.n))
    else c
  }

  /**
   * The debug default as written: the callback for `debugMode` tests `data.totalCounter`,
   * which the fetched object never holds, so `debugMode` is set to `true` on every install.
   */
  function DebugDefaultAsWritten(storage: map<string, Value>): map<string, Value> {
    if Get(Fetched(storage, "debugMode"), "totalCounter") == Undefined then storage["debugMode" := Bool(true)]
    else storage
  }

  /** The user's choice is lost: a stored `false` comes back `true` after an install or update. */
  lemma DebugModeOverwritten(storage: map<string, Value>)
    requires "debugMode" in storage && storage["debugMode"] == Bool(false)
    ensures DebugDefaultAsWritten(storage)["debugMode"] == Bool(true)
  {
    FetchedOnlyKey(storage, "debugMode", "totalCounter");
  }

  /** The debug default as the popup writes it: only when nothing is stored yet. */
  function DebugDefault(storage: map<string, Value>): map<string, Value> {
    if Get(Fetched(storage, "debugMode"), "debugMode") == Undefined then storage["debugMode" := Bool(true)]
    else storage
  }

  /** A stored choice is kept; a missing one becomes `true`; nothing else changes. */
  lemma DebugDefaultKeepsChoice(storage: map<string, Value>)
    ensures "debugMode" in storage && storage["debugMode"] != Undefined ==> DebugDefault(storage) == storage
    ensures "debugMode" !in storage ==> DebugDefault(storage) == storage["debugMode" := Bool(true)]
  {
  }

  /** A missing ruleset list (or a falsy one; an empty array is truthy) is replaced by the default one. */
  function HandlersDefault(storage: map<string, Value>): map<string, Value> {
    if !Truthy(Get(Fetched(storage, "customHandlers"), "customHandlers")) then storage["customHandlers" := DefaultHandlers]
    else storage
  }

  /**
   * `onInstalled` as written: restore the total, set `debugMode` to `true` whatever is
   * stored, default the ruleset list.
   */
  function InstalledAsWritten(c: Counter): Counter {
    var c1 := TotalRestored(c);
    c1.(storage := HandlersDefault(DebugDefaultAsWritten(c1.storage)))
  }

  /**
   * `onInstalled` as intended: the same three steps, with the debug default the popup
   * writes, which keeps a stored choice.
   */
  function InstalledIntended(c: Counter): Counter {
    var c1 := TotalRestored(c);
    c1.(storage := HandlersDefault(DebugDefault(c1.storage)))
  }

  /**
   * The install as written differs from the intended one in `debugMode` alone, which it
   * always leaves `true`.
   */
  lemma InstalledAsWrittenForcesDebug(c: Counter)
    ensures var d := InstalledIntended(c);
            InstalledAsWritten(c) == d.(storage := d.storage["debugMode" := Bool(true)])
  {
    var s := TotalRestored(c).storage;
    FetchedOnlyKey(s, "debugMode", "totalCounter");
    var w := DebugDefaultAsWritten(s);
    var i := DebugDefault(s);
    assert w == i["debugMode" := Bool(true)];
    FetchedOnlyKey(w, "customHandlers", "debugMode");
    assert Get(Fetched(w, "customHandlers"), "customHandlers") == Get(Fetched(i, "customHandlers"), "customHandlers");
  }

  /**
   * An install keeps a stored ruleset list and a stored debug choice, restores a non-zero
   * stored total, and leaves a counter without one as it was.
   */
  lemma InstalledKeepsSettings(c: Counter)
    ensures var d := InstalledIntended(c);
            && ("customHandlers" in c.storage && Truthy(c.storage["customHandlers"]) ==>
                  d.storage["customHandlers"] == c.storage["customHandlers"])
            && ("customHandlers" !in c.storage ==> d.storage["customHandlers"] == DefaultHandlers)
            && ("debugMode" in c.storage && c.storage["debugMode"] != Undefined ==>
                  d.storage["debugMode"] == c.storage["debugMode"])
            && ("totalCounter" in c.storage && c.storage["totalCounter"].Num? && c.storage["totalCounter"].n != 0 ==>
                  d.total == c.storage["totalCounter"].n && d.badgeText == BadgeText(d.total))
            && ("totalCounter" !in c.storage ==> d.total == c.total && d.badgeText == c.badgeText)
            && d.storage.Keys == c.storage.Keys + {"debugMode", "customHandlers"}
  {
    var c1 := TotalRestored(c);
    assert c1.storage == c.storage;
    var s2 := DebugDefault(c1.storage);
    assert "customHandlers" in c.storage ==> s2["customHandlers"] == c.storage["customHandlers"];
  }

  // ---------------------------------------------------------------------------------------
  // The script's state as the source has it
  // ---------------------------------------------------------------------------------------

  class Background {
    /** The module-level `totalCounter`. */
    var totalCounter: int
    var badgeText: string
    var badgeColor: string
    /** `chrome.storage.sync`. */
    var storage: map<string, Value>

    /** A fresh background page: the total starts at 0, the badge is blank. */
    constructor(storage: map<string, Value>)
      ensures totalCounter == 0 && badgeText == "" && badgeColor == "" && this.storage == storage
    {
      totalCounter := 0;
      badgeText := "";
      badgeColor := "";
      this.storage := storage;
    }

    function Snapshot(): Counter
      reads this
    {
      Counter(totalCounter, badgeText, badgeColor, storage)
    }

    /** The `onMessage` listener. */
    method OnMessage(m: Message)
      modifies this
      ensures Snapshot() == Received(old(Snapshot()), m)
    {
      if m.UpdateCounter? {
        totalCounter := totalCounter + m.count;
        badgeColor := BadgeGray;
        var text := if totalCounter > 99 then "99+" else IntToString(totalCounter);
        badgeText := text;
        storage := storage["totalCounter" := Num(totalCounter)];
      }
      if m.ResetCounter? {
        totalCounter := 0;
        badgeText := IntToString(totalCounter);
        storage := storage["totalCounter" := Num(totalCounter)];
      }
    }

    /**
     * The `onInstalled` listener, with its three storage callbacks run in turn and the
     * intended debug default.
     */
    method OnInstalled()
      modifies this
      ensures Snapshot() == InstalledIntended(old(Snapshot()))
    {
      var data := Fetched(storage, "totalCounter");
      var stored := Get(data, "totalCounter");
      if Truthy(stored) && stored.Num? {
        totalCounter := stored.n;
        badgeColor := BadgeGray;
        badgeText := BadgeText(totalCounter);
      }
      data := Fetched(storage, "debugMode");
      if Get(data, "debugMode") == Undefined {
        storage := storage["debugMode" := Bool(true)];
      }
      data := Fetched(storage, "customHandlers");
      if !Truthy(Get(data, "customHandlers")) {
        storage := storage["customHandlers" := DefaultHandlers];
      }
    }
  }
}
