/** The control surface of server.py: the status, start, stop and config
    handlers, and the state they share (the bot thread, the bot instance,
    the stop flag and the current configuration). */
module Dashboard {
  import opened Search
  import opened Decimal
  import opened Bot

  // ── Request values ──

  /** A value of the JSON request body after parsing. A float carries the
      text `str()` gives for it, and a list or an object its `repr`. JSON
      numbers too large for a float (`1e999`) and the literals `Infinity`
      and `-Infinity` parse to infinities, `NaN` to NaN. */
  datatype Json =
    | JNull
    | JBool(b: bool)
    | JInt(i: int)
    | JFloat(x: real, text: string)
    | JNaN
    | JInfinity(negative: bool)
    | JString(s: string)
    | JArray(text: string)
    | JObject(text: string)

  type Config = map<string, Json>

  /** What `int(v)` does: a value, a ValueError or TypeError, or an
      OverflowError. */
  datatype Coercion = Converted(value: int) | Rejected | Overflowed

  /** `int(x)` for a finite float: toward zero. */
  function Truncate(x: real): (n: int)
    ensures 0.0 <= x ==> n as real <= x < n as real + 1.0
    ensures x < 0.0 ==> n as real - 1.0 < x <= n as real
  {
    if x >= 0.0 then x.Floor else -((-x).Floor)
  }

  /** `int(v)`: booleans are 0 and 1, floats are truncated, strings are
      parsed; None, lists and objects raise TypeError and NaN or a bad
      string raises ValueError; an infinity raises OverflowError. */
  function CoerceInt(v: Json): (c: Coercion)
    ensures c.Overflowed? <==> v.JInfinity?
    ensures c.Rejected? <==> v.JNull? || v.JNaN? || v.JArray? || v.JObject?
                             || (v.JString? && ParseInt(v.s).None?)
    ensures v.JFloat? ==> c.Converted? && c.value == Truncate(v.x)
  {
    match v
    case JNull => Rejected
    case JBool(b) => Converted(if b then 1 else 0)
    case JInt(i) => Converted(i)
    case JFloat(x, _) => Converted(Truncate(x))
    case JNaN => Rejected
    case JInfinity(_) => Overflowed
    case JString(s) => (match ParseInt(s) case Some(n) => Converted(n) case None => Rejected)
    case JArray(_) => Rejected
    case JObject(_) => Rejected
  }

  /** `str(v)`: a string is kept as it is, a bool prints as "True" or
      "False", and an int prints as text `int()` reads back as that int. */
  function StrOf(v: Json): (s: string)
    ensures v.JString? ==> s == v.s
    ensures v.JBool? ==> (s == "True" <==> v.b) && (s == "False" <==> !v.b)
    ensures v.JInt? ==> ParseInt(s) == Some(v.i)
  {
    match v
    case JNull => "None"
    case JBool(b) => if b then "True" else "False"
    case JInt(i) => ParseIntToString(i); IntToString(i)
    case JFloat(_, text) => text
    case JNaN => "nan"
    case JInfinity(negative) => if negative then "-inf" else "inf"
    case JString(s) => s
    case JArray(text) => text
    case JObject(text) => text
  }

  /** An int the configuration holds reads back as itself, sent as a
      number or as the string `str()` makes of it. */
  lemma StoredIntReadsBack(i: int)
    ensures CoerceInt(JInt(i)) == Converted(i)
    ensures CoerceInt(JString(StrOf(JInt(i)))) == Converted(i)
  {
    ParseIntToString(i);
  }

  // ── The config merge (api_set_config) ──

  const IntKeys: seq<string> := ["max_viewers_pack", "max_viewers_other",
                                 "max_wait_pack", "max_wait_other",
                                 "ended_checks_pack", "ended_checks_other"]
  const StrKeys: seq<string> := ["mode", "category"]

  /** The request carries `k` and `int()` accepts its value. */
  predicate Converts(data: Config, k: string)
  {
    k in data && CoerceInt(data[k]).Converted?
  }

  /** One pass of the int-key loop: the converted value is stored, and a
      value `int()` refuses leaves the old one. */
  function IntStep(cfg: Config, data: Config, k: string): Config
  {
    if Converts(data, k) then cfg[k := JInt(CoerceInt(data[k]).value)] else cfg
  }

  /** One pass of the str-key loop. */
  function StrStep(cfg: Config, data: Config, k: string): Config
  {
    if k in data then cfg[k := JString(StrOf(data[k]))] else cfg
  }

  /** The int-key loop over `keys`, in order. */
  function IntPass(cfg: Config, data: Config, keys: seq<string>): Config
    decreases |keys|
  {
    if |keys| == 0 then cfg
    else IntStep(IntPass(cfg, data, keys[..|keys| - 1]), data, keys[|keys| - 1])
  }

  /** The str-key loop over `keys`, in order. */
  function StrPass(cfg: Config, data: Config, keys: seq<string>): Config
    decreases |keys|
  {
    if |keys| == 0 then cfg
    else StrStep(StrPass(cfg, data, keys[..|keys| - 1]), data, keys[|keys| - 1])
  }

  lemma {:induction false} IntPassEffect(cfg: Config, data: Config, keys: seq<string>)
    ensures forall k :: k in IntPass(cfg, data, keys) <==> k in cfg || (k in keys && Converts(data, k))
    ensures forall k :: k in IntPass(cfg, data, keys) ==>
              IntPass(cfg, data, keys)[k]
              == if k in keys && Converts(data, k) then JInt(CoerceInt(data[k]).value) else cfg[k]
    decreases |keys|
  {
    if |keys| > 0 {
      var front := keys[..|keys| - 1];
      IntPassEffect(cfg, data, front);
      assert forall k :: k in keys <==> k in front || k == keys[|keys| - 1];
    }
  }

  lemma {:induction false} StrPassEffect(cfg: Config, data: Config, keys: seq<string>)
    ensures forall k :: k in StrPass(cfg, data, keys) <==> k in cfg || (k in keys && k in data)
    ensures forall k :: k in StrPass(cfg, data, keys) ==>
              StrPass(cfg, data, keys)[k]
              == if k in keys && k in data then JString(StrOf(data[k])) else cfg[k]
    decreases |keys|
  {
    if |keys| > 0 {
      var front := keys[..|keys| - 1];
      StrPassEffect(cfg, data, front);
      assert forall k :: k in keys <==> k in front || k == keys[|keys| - 1];
    }
  }

  /** The configuration after a successful update: the int keys, then the
      str keys, each only when the request carries it. Keys outside the two
      lists are never written, keys the request does not carry keep their
      values, an int key whose value `int()` refuses keeps its value, a
      converted value is stored as an int, and a str key stores `str()` of
      the value. */
  function Merged(cfg: Config, data: Config): (r: Config)
    ensures forall k :: k in r <==> (k in cfg || (k in IntKeys && Converts(data, k))
                                    || (k in StrKeys && k in data))
    ensures forall k :: k in cfg && k !in IntKeys && k !in StrKeys ==> k in r && r[k] == cfg[k]
    ensures forall k :: k in cfg && k !in data ==> k in r && r[k] == cfg[k]
    ensures forall k :: k in cfg && k in IntKeys && !Converts(data, k) ==> k in r && r[k] == cfg[k]
    ensures forall k :: k in IntKeys && Converts(data, k) ==>
                          k in r && r[k] == JInt(CoerceInt(data[k]).value)
    ensures forall k :: k in StrKeys && k in data ==> k in r && r[k] == JString(StrOf(data[k]))
  {
    var ints := IntPass(cfg, data, IntKeys);
    IntPassEffect(cfg, data, IntKeys);
    StrPassEffect(ints, data, StrKeys);
    assert forall k :: k in StrKeys ==> k !in IntKeys;
    StrPass(ints, data, StrKeys)
  }

  /** A response: a JSON body, or an error status with its message. */
  datatype Reply<T> = Ok(value: T) | Error(status: nat, message: string)

  const RunningConfigError: string := "Cannot change config while bot is running"
  const InternalServerError: string := "Internal Server Error"

  /** Whether `int()` overflows on the value the request gives `k`. */
  predicate Overflows(data: Config, k: string)
  {
    k in data && CoerceInt(data[k]).Overflowed?
  }

  /** api_set_config as written, with the configuration it leaves behind:
      an infinity for an int key raises OverflowError, which the handler
      does not catch, so the request fails with status 500 after the
      earlier int keys were already written and before any str key is. */
  function SetConfigAsWritten(running: bool, cfg: Config, data: Config): (r: (Reply<Config>, Config))
    ensures running ==> r == (Error(400, RunningConfigError), cfg)
    ensures !running && r.0.Error? ==>
              r.0 == Error(500, InternalServerError)
              && exists k :: k in IntKeys && Overflows(data, k)
    ensures r.0.Error? ==>
              forall k :: k in StrKeys ==> (k in r.1 <==> k in cfg) && (k in cfg ==> r.1[k] == cfg[k])
  {
    if running then (Error(400, RunningConfigError), cfg)
    else
      FirstIndexFirst(IntKeys, k => Overflows(data, k));
      match FirstIndex(IntKeys, k => Overflows(data, k))
      case None => (Ok(Merged(cfg, data)), Merged(cfg, data))
      case Some(i) =>
        IntPassEffect(cfg, data, IntKeys[..i]);
        assert forall k :: k in StrKeys ==> k !in IntKeys[..i];
        (Error(500, InternalServerError), IntPass(cfg, data, IntKeys[..i]))
  }

  /** Without an infinity among the int keys, the handler as written and
      the corrected merge agree. */
  lemma AsWrittenWithoutInfinity(running: bool, cfg: Config, data: Config)
    requires forall k :: k in IntKeys ==> !Overflows(data, k)
    ensures SetConfigAsWritten(running, cfg, data)
            == if running then (Error(400, RunningConfigError), cfg)
               else (Ok(Merged(cfg, data)), Merged(cfg, data))
  {
    if !running {
      FirstIndexFirst(IntKeys, k => Overflows(data, k));
      assert forall j :: 0 <= j < |IntKeys| ==> !Overflows(data, IntKeys[j]);
    }
  }

  /** A configuration, and a request whose `max_wait_pack` is `1e999`. */
  const SampleConfig: Config := map["max_viewers_pack" := JInt(50), "max_wait_pack" := JInt(600),
                                    "mode" := JString("pack")]
  const SampleRequest: Config := map["max_viewers_pack" := JInt(20),
                                     "max_wait_pack" := JInfinity(false),
                                     "mode" := JString("all")]

  /** As written, the sample request fails with status 500, yet
      `max_viewers_pack`, which comes before `max_wait_pack`, has already
      changed, and `mode`, which comes after it, has not. */
  lemma InfinityAbortsHalfway()
    ensures SetConfigAsWritten(false, SampleConfig, SampleRequest)
            == (Error(500, InternalServerError), SampleConfig["max_viewers_pack" := JInt(20)])
  {
    var data := SampleRequest;
    assert Overflows(data, IntKeys[2]);
    assert !Overflows(data, IntKeys[0]) && !Overflows(data, IntKeys[1]);
    assert FirstIndex(IntKeys, k => Overflows(data, k)) == Some(2);
    var front := IntKeys[..2];
    assert front[..1] == ["max_viewers_pack"] && front[1] == "max_viewers_other";
    assert IntPass(SampleConfig, data, front[..1])
           == SampleConfig["max_viewers_pack" := JInt(20)];
  }

  /** The corrected merge ignores the infinity like any other value `int()`
      refuses, and applies the rest of the sample request. */
  lemma InfinityIgnoredWhenMerged()
    ensures var r := Merged(SampleConfig, SampleRequest);
            && r.Keys == SampleConfig.Keys
            && r["max_viewers_pack"] == JInt(20)
            && r["max_wait_pack"] == JInt(600)
            && r["mode"] == JString("all")
  {
    var r := Merged(SampleConfig, SampleRequest);
    assert "max_viewers_pack" in IntKeys && "max_wait_pack" in IntKeys && "mode" in StrKeys;
    assert Converts(SampleRequest, "max_viewers_pack");
    assert !Converts(SampleRequest, "max_wait_pack");
    assert forall k :: k in r <==> k in SampleConfig;
  }

  // ── The server ──

  /** `bot_thread`: none, or a thread that is alive or has finished. */
  datatype BotThread = NoThread | Thread(alive: bool)

  /** The result of running `adb devices`: the number of non-blank lines
      after its header, or the message of the exception it raised. */
  datatype AdbCheck = Listed(devices: nat) | Raised(message: string)

  datatype Status = Status(running: bool, giveawaysEntered: nat, streamsChecked: nat)

  class Server {
    var thread: BotThread
    var instance: WhatnotBot?
    var stopRequested: bool
    var config: Config

    /** The module state at import, with the default configuration. */
    constructor(defaults: Config)
      ensures thread == NoThread && instance == null && !stopRequested && config == defaults
    {
      thread := NoThread;
      instance := null;
      stopRequested := false;
      config := defaults;
    }

    /** A bot thread exists and is alive. */
    predicate Running()
      reads this
    {
      thread.Thread? && thread.alive
    }

    /** api_status: the counters of the bot instance, or 0 and 0 when there
        is none. */
    function CurrentStatus(): (s: Status)
      reads this, instance
      ensures s.running <==> Running()
      ensures instance == null ==> s.giveawaysEntered == 0 && s.streamsChecked == 0
      ensures instance != null ==> s.giveawaysEntered == instance.giveawaysEntered
                                   && s.streamsChecked == instance.streamsChecked
    {
      if instance == null then Status(Running(), 0, 0)
      else Status(Running(), instance.giveawaysEntered, instance.streamsChecked)
    }

    /** api_start: refused while a bot thread is alive, and when the device
        check fails or lists no device; otherwise a fresh stop flag and a
        new, live bot thread. */
    method Start(adb: AdbCheck) returns (reply: Reply<()>)
      modifies this
      ensures old(Running()) ==> reply == Error(400, "Bot is already running")
      ensures !old(Running()) && adb.Raised? ==>
                reply == Error(500, "ADB check failed: " + adb.message)
      ensures !old(Running()) && adb == Listed(0) ==> reply == Error(400, "No ADB device connected")
      ensures reply.Error? ==> thread == old(thread) && stopRequested == old(stopRequested)
      ensures !old(Running()) && adb.Listed? && adb.devices > 0 ==>
                reply == Ok(()) && thread == Thread(true) && !stopRequested
      ensures reply.Ok? ==> Running()
      ensures config == old(config) && instance == old(instance)
    {
      if Running() {
        return Error(400, "Bot is already running");
      }
      match adb
      case Raised(message) =>
        return Error(500, "ADB check failed: " + message);
      case Listed(devices) =>
        if devices == 0 {
          return Error(400, "No ADB device connected");
        }
      stopRequested := false;
      thread := Thread(true);
      reply := Ok(());
    }

    /** api_stop: refused when no bot thread is alive; otherwise the stop
        flag is set and the thread is forgotten. */
    method Stop() returns (reply: Reply<()>)
      modifies this
      ensures !old(Running()) ==> reply == Error(400, "Bot is not running")
                                  && thread == old(thread) && stopRequested == old(stopRequested)
      ensures old(Running()) ==> reply == Ok(()) && stopRequested && thread == NoThread
      ensures !Running()
      ensures config == old(config) && instance == old(instance)
    {
      if !Running() {
        return Error(400, "Bot is not running");
      }
      stopRequested := true;
      thread := NoThread;
      reply := Ok(());
    }

    /** api_set_config: refused while a bot thread is alive; otherwise the
        int keys, then the str keys, are merged into the configuration. */
    method SetConfig(data: Config) returns (reply: Reply<Config>)
      modifies this
      ensures old(Running()) ==> reply == Error(400, RunningConfigError) && config == old(config)
      ensures !old(Running()) ==> config == Merged(old(config), data) && reply == Ok(config)
      ensures thread == old(thread) && instance == old(instance)
      ensures stopRequested == old(stopRequested)
    {
      if Running() {
        return Error(400, RunningConfigError);
      }
      var i := 0;
      while i < |IntKeys|
        invariant 0 <= i <= |IntKeys|
        invariant config == IntPass(old(config), data, IntKeys[..i])
        invariant thread == old(thread) && instance == old(instance)
        invariant stopRequested == old(stopRequested)
      {
        var k := IntKeys[i];
        if k in data {
          match CoerceInt(data[k])
          case Converted(n) => config := config[k := JInt(n)];
          case Rejected =>
          case Overflowed =>
        }
        assert IntKeys[..i + 1][..i] == IntKeys[..i];
        i := i + 1;
      }
      assert IntKeys[..i] == IntKeys;
      ghost var afterInts := config;
      var j := 0;
      while j < |StrKeys|
        invariant 0 <= j <= |StrKeys|
        invariant config == StrPass(afterInts, data, StrKeys[..j])
        invariant thread == old(thread) && instance == old(instance)
        invariant stopRequested == old(stopRequested)
      {
        var k := StrKeys[j];
        if k in data {
          config := config[k := JString(StrOf(data[k]))];
        }
        assert StrKeys[..j + 1][..j] == StrKeys[..j];
        j := j + 1;
      }
      assert StrKeys[..j] == StrKeys;
      reply := Ok(config);
    }

    /** The bot thread stores the bot it built. */
    method BotCreated(b: WhatnotBot)
      modifies this
      ensures instance == b
      ensures thread == old(thread) && stopRequested == old(stopRequested) && config == old(config)
    {
      instance := b;
    }

    /** The bot thread ends, by returning or by an exception: the instance
        is dropped, and the thread, if it is still the registered one, is
        no longer alive. */
    method ThreadFinished(registered: bool)
      modifies this
      ensures instance == null
      ensures CurrentStatus().giveawaysEntered == 0 && CurrentStatus().streamsChecked == 0
      ensures registered && old(thread).Thread? ==> thread == Thread(false) && !Running()
      ensures !(registered && old(thread).Thread?) ==> thread == old(thread)
      ensures stopRequested == old(stopRequested) && config == old(config)
    {
      instance := null;
      if registered && thread.Thread? {
        thread := Thread(false);
      }
    }
  }
}
