/** powerBankMode.py: the keyboard/cron toggle between the automatic power settings and a
    three-hour battery mode, over the JSON config and the one-shot timestamp file. */
module PowerBank {
  import opened Wrappers

  /** A JSON value as `json.load` produces it. */
  datatype Json =
    | JNull
    | JBool(b: bool)
    | JNumber(n: real)
    | JString(s: string)
    | JArray(items: seq<Json>)
    | JObject(fields: map<string, Json>)

  /** The top-level object of config.json. */
  type Config = map<string, Json>

  const CpuKey := "alwaysCpuBatteryMode"
  const BrightnessKey := "alwaysBrightnessBatteryMode"
  const SavedKey := "last_auto_state"

  /** The three keys the toggle may write. */
  predicate ModeKey(k: string) {
    k == CpuKey || k == BrightnessKey || k == SavedKey
  }

  /** `config.get(key, default)`. */
  function Get(c: Config, key: string, default: Json): Json {
    if key in c then c[key] else default
  }

  /** The object stored under `last_auto_state`: the two flags as `c` holds them, false when
      absent. */
  function Snapshot(c: Config): (s: Json)
    ensures s.JObject? && CpuKey in s.fields && BrightnessKey in s.fields
    ensures s.fields[CpuKey] == Get(c, CpuKey, JBool(false))
    ensures s.fields[BrightnessKey] == Get(c, BrightnessKey, JBool(false))
  {
    JObject(map[CpuKey := Get(c, CpuKey, JBool(false)), BrightnessKey := Get(c, BrightnessKey, JBool(false))])
  }

  /** The saved object that records both flags on. */
  const BothOn := JObject(map[CpuKey := JBool(true), BrightnessKey := JBool(true)])

  /** `update_config("bat")` as written: the flags are set first and the snapshot is read from the
      updated object, so the saved state always records battery mode, whatever was there. */
  function BatAsWritten(c: Config): (r: Config)
    ensures CpuKey in r && BrightnessKey in r && SavedKey in r
    ensures r[CpuKey] == JBool(true) && r[BrightnessKey] == JBool(true)
    ensures r[SavedKey] == BothOn
    ensures forall k :: !ModeKey(k) ==> (k in r <==> k in c) && (k in c ==> r[k] == c[k])
  {
    var flagged := c[CpuKey := JBool(true)][BrightnessKey := JBool(true)];
    flagged[SavedKey := Snapshot(flagged)]
  }

  /** The corrected `update_config("bat")`, with the snapshot taken before the flags change, which
      is what the saved state is for: both flags on, and the previous automatic settings kept.
      The modelled run uses `BatAsWritten`. */
  function Bat(c: Config): (r: Config)
    ensures CpuKey in r && BrightnessKey in r && SavedKey in r
    ensures r[CpuKey] == JBool(true) && r[BrightnessKey] == JBool(true)
    ensures r[SavedKey] == Snapshot(c)
    ensures forall k :: !ModeKey(k) ==> (k in r <==> k in c) && (k in c ==> r[k] == c[k])
  {
    c[CpuKey := JBool(true)][BrightnessKey := JBool(true)][SavedKey := Snapshot(c)]
  }

  /** `update_config("auto")`: restore both flags from the saved object and delete it. Subscripting
      a saved value that is not an object raises TypeError, a missing flag in it KeyError; an
      exception leaves the file as it was. */
  function Auto(c: Config): (r: Result<Config>)
    ensures SavedKey !in c ==> r == Ok(c)
    ensures r.Ok? && SavedKey in c ==>
      && c[SavedKey].JObject? && CpuKey in c[SavedKey].fields && BrightnessKey in c[SavedKey].fields
      && SavedKey !in r.value && CpuKey in r.value && BrightnessKey in r.value
      && r.value[CpuKey] == c[SavedKey].fields[CpuKey]
      && r.value[BrightnessKey] == c[SavedKey].fields[BrightnessKey]
    ensures r.Err? <==> SavedKey in c && !(c[SavedKey].JObject? && CpuKey in c[SavedKey].fields && BrightnessKey in c[SavedKey].fields)
  {
    if SavedKey !in c then Ok(c)
    else
      match c[SavedKey]
      case JObject(saved) =>
        if CpuKey !in saved then Err(KeyError(CpuKey))
        else if BrightnessKey !in saved then Err(KeyError(BrightnessKey))
        else Ok((c[CpuKey := saved[CpuKey]][BrightnessKey := saved[BrightnessKey]]) - {SavedKey})
      case _ => Err(TypeError)
  }

  /** `update_config(mode)` as written: "bat" always succeeds with both flags on and a saved state
      recording both on, "auto" is `Auto`, and any other mode rewrites the file unchanged. */
  function ModeConfig(c: Config, mode: string): (r: Result<Config>)
    ensures mode == "bat" ==>
      && r.Ok? && SavedKey in r.value && r.value[SavedKey] == BothOn
      && CpuKey in r.value && r.value[CpuKey] == JBool(true)
      && BrightnessKey in r.value && r.value[BrightnessKey] == JBool(true)
    ensures mode == "auto" ==> r == Auto(c)
    ensures mode != "bat" && mode != "auto" ==> r == Ok(c)
  {
    if mode == "bat" then Ok(BatAsWritten(c))
    else if mode == "auto" then Auto(c)
    else Ok(c)
  }

  /** No mode touches a key other than the two flags and the saved state. */
  lemma OnlyModeKeysChange(c: Config, mode: string)
    requires ModeConfig(c, mode).Ok?
    ensures var r := ModeConfig(c, mode).value;
      forall k :: !ModeKey(k) ==> (k in r <==> k in c) && (k in c ==> r[k] == c[k])
  {
  }

  /** With the corrected battery mode, battery mode then automatic mode gives back the
      configuration there was, when it held both flags and no saved state. */
  lemma AutoUndoesBat(c: Config)
    requires CpuKey in c && BrightnessKey in c && SavedKey !in c
    ensures Auto(Bat(c)) == Ok(c)
  {
    var b := Bat(c);
    assert b[SavedKey].fields[CpuKey] == c[CpuKey];
    assert b[SavedKey].fields[BrightnessKey] == c[BrightnessKey];
    var r := Auto(b).value;
    assert r == (b[CpuKey := c[CpuKey]][BrightnessKey := c[BrightnessKey]]) - {SavedKey};
    assert forall k :: k in r <==> k in c;
    assert forall k :: k in r ==> r[k] == c[k];
    assert r == c;
  }

  /** With the code as written, automatic mode after battery mode leaves both battery flags on
      and only deletes the saved state, so a config whose flags were off does not come back. */
  lemma AutoAfterBatAsWrittenKeepsBattery(c: Config)
    ensures Auto(BatAsWritten(c)) == Ok(c[CpuKey := JBool(true)][BrightnessKey := JBool(true)] - {SavedKey})
    ensures CpuKey in c && c[CpuKey] == JBool(false) ==> Auto(BatAsWritten(c)) != Ok(c)
  {
    var b := BatAsWritten(c);
    var r := Auto(b).value;
    var expected := c[CpuKey := JBool(true)][BrightnessKey := JBool(true)] - {SavedKey};
    assert r == (b[CpuKey := JBool(true)][BrightnessKey := JBool(true)]) - {SavedKey};
    assert forall k :: k in r <==> k in expected;
    assert r == expected;
    if CpuKey in c && c[CpuKey] == JBool(false) {
      assert r[CpuKey] != c[CpuKey];
    }
  }

  // ---- The timestamp latch ----

  /** timestamp.txt: absent, blank after stripping, a `%Y-%m-%d %H:%M:%S` time (as whole seconds on
      the local clock), or text that does not parse as one. */
  datatype Latch = Missing | Blank | At(t: int) | Unreadable

  /** `save_relative_timestamp(hours)`: now shifted by the hours, with the fraction of a second
      dropped by the format. */
  function Shifted(now: real, hours: int): Latch {
    At((now + (hours * 3600) as real).Floor)
  }

  /** `is_past_timestamp`: whether the stored time has passed, and the file afterwards. It fires
      only when `now` is later than a stored time, and then blanks the file; a missing or blank
      file never fires and stays as it is; unparsable text raises ValueError. */
  function IsPast(l: Latch, now: real): (r: Result<(bool, Latch)>)
    ensures r.Err? <==> l.Unreadable?
    ensures r.Ok? && r.value.0 ==> l.At? && now > l.t as real && r.value.1 == Blank
    ensures r.Ok? && !r.value.0 ==> r.value.1 == l
    ensures l.At? && now > l.t as real ==> r == Ok((true, Blank))
  {
    match l
    case Missing => Ok((false, l))
    case Blank => Ok((false, l))
    case Unreadable => Err(ValueError)
    case At(t) => if now > t as real then Ok((true, Blank)) else Ok((false, l))
  }

  /** Once the latch has fired, asking again at any time gives false and changes nothing. */
  lemma FiresOnce(l: Latch, now: real, later: real)
    requires IsPast(l, now).Ok? && IsPast(l, now).value.0
    ensures IsPast(IsPast(l, now).value.1, later) == Ok((false, Blank))
  {
  }

  /** The two files together. */
  datatype Stored = Stored(config: Config, latch: Latch)

  /** What one run leaves behind: the files and how the run ended. */
  datatype Run = Run(stored: Stored, outcome: Outcome)

  /** `main` for the arguments after the script name. A wrong argument count is a usage error that
      touches neither file; a mode word other than "keyboard" and "cron" changes nothing; a run
      that raises leaves the config as it was. */
  function Dispatch(args: seq<string>, s: Stored, now: real): (r: Run)
    ensures |args| != 1 ==> r == Run(s, Raised(Usage))
    ensures |args| == 1 && args[0] != "keyboard" && args[0] != "cron" ==> r == Run(s, Done)
    ensures r.outcome.Raised? ==> r.stored.config == s.config
  {
    if |args| != 1 then Run(s, Raised(Usage))
    else if args[0] == "keyboard" then
      match IsPast(s.latch, now)
      case Err(e) => Run(s, Raised(e))
      case Ok((fired, latch)) =>
        if !fired then
          match Auto(s.config)
          case Err(e) => Run(Stored(s.config, latch), Raised(e))
          case Ok(c) => Run(Stored(c, Shifted(now, -3)), Done)
        else Run(Stored(BatAsWritten(s.config), Shifted(now, 3)), Done)
    else if args[0] == "cron" then
      match IsPast(s.latch, now)
      case Err(e) => Run(s, Raised(e))
      case Ok((fired, latch)) =>
        if fired then
          match Auto(s.config)
          case Err(e) => Run(Stored(s.config, latch), Raised(e))
          case Ok(c) => Run(Stored(c, latch), Done)
        else Run(s, Done)
    else Run(s, Done)
  }

  /** A keyboard press: automatic mode with the latch set three hours back while the latch has
      not fired, battery mode for three hours once it has. An unreadable latch, or a failed switch
      to automatic mode, raises its error and changes nothing. */
  lemma KeyboardToggles(s: Stored, now: real)
    ensures var r := Dispatch(["keyboard"], s, now);
      && (IsPast(s.latch, now).Err? ==> r == Run(s, Raised(IsPast(s.latch, now).error)))
      && (IsPast(s.latch, now).Ok? && !IsPast(s.latch, now).value.0 && Auto(s.config).Ok? ==>
            r == Run(Stored(Auto(s.config).value, Shifted(now, -3)), Done))
      && (IsPast(s.latch, now).Ok? && !IsPast(s.latch, now).value.0 && Auto(s.config).Err? ==>
            r == Run(s, Raised(Auto(s.config).error)))
      && (IsPast(s.latch, now).Ok? && IsPast(s.latch, now).value.0 ==>
            r == Run(Stored(BatAsWritten(s.config), Shifted(now, 3)), Done))
  {
  }

  /** From a missing or blank latch, a keyboard press gives automatic mode and a second press gives
      battery mode for the next three hours. */
  lemma TwoPressesGiveAutoThenBattery(c: Config, l: Latch, now: real, later: real)
    requires l == Missing || l == Blank
    requires Auto(c).Ok? && later >= now
    ensures var first := Dispatch(["keyboard"], Stored(c, l), now);
      var second := Dispatch(["keyboard"], first.stored, later);
      && first == Run(Stored(Auto(c).value, Shifted(now, -3)), Done)
      && second == Run(Stored(BatAsWritten(Auto(c).value), Shifted(later, 3)), Done)
  {
    var t := (now + (-3 * 3600) as real).Floor;
    assert t as real <= now - 10800.0;
    assert later > t as real;
  }

  /** Within the three hours a press returns to automatic mode, but as written that keeps both
      battery flags on: the settings from before battery mode are not restored. */
  lemma PressInsideBatteryHoursKeepsBattery(c: Config, now: real, later: real)
    requires SavedKey !in c
    requires now <= later <= now + 10800.0 - 1.0
    ensures Dispatch(["keyboard"], Stored(BatAsWritten(c), Shifted(now, 3)), later)
      == Run(Stored(c[CpuKey := JBool(true)][BrightnessKey := JBool(true)], Shifted(later, -3)), Done)
  {
    AutoAfterBatAsWrittenKeepsBattery(c);
    var flagged := c[CpuKey := JBool(true)][BrightnessKey := JBool(true)];
    assert flagged - {SavedKey} == flagged;
    var t := (now + (3 * 3600) as real).Floor;
    assert t as real > now + 10800.0 - 1.0;
  }

  /** Cron restores automatic mode only when the latch fires and blanks it; otherwise nothing
      changes. */
  lemma CronOnlyWhenPast(s: Stored, now: real)
    requires IsPast(s.latch, now).Ok?
    ensures !IsPast(s.latch, now).value.0 ==> Dispatch(["cron"], s, now) == Run(s, Done)
    ensures IsPast(s.latch, now).value.0 && Auto(s.config).Ok? ==>
      Dispatch(["cron"], s, now) == Run(Stored(Auto(s.config).value, Blank), Done)
  {
  }

  /** Whatever the arguments, a run writes no config key other than the two flags and the
      saved state. */
  lemma DispatchKeepsOtherKeys(args: seq<string>, s: Stored, now: real)
    ensures var c := Dispatch(args, s, now).stored.config;
      forall k :: !ModeKey(k) ==> (k in c <==> k in s.config) && (k in s.config ==> c[k] == s.config[k])
  {
    if |args| == 1 && (args[0] == "keyboard" || args[0] == "cron") && IsPast(s.latch, now).Ok? {
      if Auto(s.config).Ok? {
        OnlyModeKeysChange(s.config, "auto");
      }
      OnlyModeKeysChange(s.config, "bat");
    }
  }

  /** The config file and the timestamp file of one installation. */
  class Toggle {
    var config: Config
    var latch: Latch

    constructor (config0: Config, latch0: Latch)
      ensures config == config0 && latch == latch0
    {
      config := config0;
      latch := latch0;
    }

    /** `update_config`: load, change the object in place, write it back; an exception leaves the
        file unwritten. */
    method UpdateConfig(mode: string) returns (r: Outcome)
      modifies this
      ensures latch == old(latch)
      ensures r.Done? <==> ModeConfig(old(config), mode).Ok?
      ensures r.Done? ==> config == ModeConfig(old(config), mode).value
      ensures r.Raised? ==> config == old(config) && ModeConfig(old(config), mode) == Err(r.error)
    {
      var updated := config;
      if mode == "bat" {
        updated := updated[CpuKey := JBool(true)];
        updated := updated[BrightnessKey := JBool(true)];
        updated := updated[SavedKey := Snapshot(updated)];
      } else if mode == "auto" {
        if SavedKey in updated {
          var saved := updated[SavedKey];
          if !saved.JObject? {
            return Raised(TypeError);
          }
          if CpuKey !in saved.fields {
            return Raised(KeyError(CpuKey));
          }
          updated := updated[CpuKey := saved.fields[CpuKey]];
          if BrightnessKey !in saved.fields {
            return Raised(KeyError(BrightnessKey));
          }
          updated := updated[BrightnessKey := saved.fields[BrightnessKey]];
          updated := updated - {SavedKey};
        }
      }
      config := updated;
      return Done;
    }

    /** `save_relative_timestamp`. */
    method SaveRelativeTimestamp(hours: int, now: real)
      modifies this
      ensures config == old(config) && latch == Shifted(now, hours)
    {
      var futureTime := (now + (hours * 3600) as real).Floor;
      latch := At(futureTime);
    }

    /** `is_past_timestamp`. */
    method IsPastTimestamp(now: real) returns (r: Result<bool>)
      modifies this
      ensures config == old(config)
      ensures IsPast(old(latch), now).Ok? ==> r == Ok(IsPast(old(latch), now).value.0) && latch == IsPast(old(latch), now).value.1
      ensures IsPast(old(latch), now).Err? ==> r == Err(IsPast(old(latch), now).error) && latch == old(latch)
    {
      match latch
      case Missing =>
        return Ok(false);
      case Blank =>
        return Ok(false);
      case Unreadable =>
        return Err(ValueError);
      case At(savedTime) =>
        if now > savedTime as real {
          latch := Blank;
          return Ok(true);
        }
        return Ok(false);
    }

    /** `main`: the run `Dispatch` describes. */
    method HandleEvent(args: seq<string>, now: real) returns (r: Outcome)
      modifies this
      ensures Run(Stored(config, latch), r) == Dispatch(args, Stored(old(config), old(latch)), now)
    {
      if |args| != 1 {
        return Raised(Usage);
      }
      var mode := args[0];
      if mode == "keyboard" {
        var past := IsPastTimestamp(now);
        if past.Err? {
          return Raised(past.error);
        }
        if !past.value {
          r := UpdateConfig("auto");
          if r.Raised? {
            return;
          }
          SaveRelativeTimestamp(-3, now);
        } else {
          r := UpdateConfig("bat");
          SaveRelativeTimestamp(3, now);
        }
      } else if mode == "cron" {
        var past := IsPastTimestamp(now);
        if past.Err? {
          return Raised(past.error);
        }
        if past.value {
          r := UpdateConfig("auto");
          return;
        }
        return Done;
      } else {
        return Done;
      }
    }
  }
}
