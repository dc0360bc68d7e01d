/** The charge history of utils.py as values: the samples, the ten-minute window, the direction
    rule, the clear-on-reversal rule, the power estimates and the history file's text. The class in
    tracker.dfy changes its entries exactly as these functions say. */
module History {
  import opened Wrappers
  import opened Text
  import opened Battery

  /** HISTORY_DURATION_MINUTES * 60. */
  const WindowSeconds: real := 600.0

  /** One `(timestamp, charge)` entry: seconds since the epoch and the reading of the charge node. */
  datatype Sample = Sample(ts: real, charge: real)

  /** The clock and the sysfs readings that one call of the tracker sees. */
  datatype Env = Env(now: real, fs: Sysfs)

  function Min(a: int, b: int): int {
    if a <= b then a else b
  }

  function Last(es: seq<Sample>): Sample
    requires |es| > 0
  {
    es[|es| - 1]
  }

  /** A sample no more than ten minutes older than `now`; a sample stamped after `now` counts. */
  predicate Recent(s: Sample, now: real) {
    now - s.ts <= WindowSeconds
  }

  /** The samples of `es` inside the window ending at `now`, in their order. */
  function Window(es: seq<Sample>, now: real): (r: seq<Sample>)
    ensures |r| <= |es|
  {
    if es == [] then []
    else Window(es[..|es| - 1], now) + (if Recent(Last(es), now) then [Last(es)] else [])
  }

  /** The filter keeps exactly the samples inside the window. */
  lemma {:induction false} WindowMembers(es: seq<Sample>, now: real)
    ensures forall i :: 0 <= i < |Window(es, now)| ==> Recent(Window(es, now)[i], now)
    ensures forall s :: s in Window(es, now) <==> s in es && Recent(s, now)
  {
    if es != [] {
      var init := es[..|es| - 1];
      WindowMembers(init, now);
      assert es == init + [Last(es)];
    }
  }

  lemma WindowSingle(s: Sample, now: real)
    ensures Window([s], now) == if Recent(s, now) then [s] else []
  {
    assert [s][..0] == [];
  }

  /** Filtering works sample by sample, so the survivors keep their relative order. */
  lemma {:induction false} WindowConcat(a: seq<Sample>, b: seq<Sample>, now: real)
    ensures Window(a + b, now) == Window(a, now) + Window(b, now)
  {
    if b == [] {
      assert a + b == a;
    } else {
      var b' := b[..|b| - 1];
      WindowConcat(a, b', now);
      assert (a + b)[..|a + b| - 1] == a + b';
      assert Last(a + b) == Last(b);
    }
  }

  /** A history already inside the window is left as it is. */
  lemma {:induction false} WindowKeepsRecent(es: seq<Sample>, now: real)
    requires forall i :: 0 <= i < |es| ==> Recent(es[i], now)
    ensures Window(es, now) == es
  {
    if es != [] {
      WindowKeepsRecent(es[..|es| - 1], now);
    }
  }

  // ---- Direction ----

  /** `threshold * full / 100`: the charge at which the battery counts as full. */
  function FullCharge(fs: Sysfs): (r: Result<real>)
    ensures r.Ok? <==> GetFullCapacity(fs).Ok?
    ensures r.Ok? ==> r.value * 100.0 == GetEndThreshold(fs) * GetFullCapacity(fs).value
  {
    var full :- GetFullCapacity(fs);
    Ok(GetEndThreshold(fs) * full / 100.0)
  }

  /** The direction a history of at least two samples shows: the last charge against the one
      three samples back (or the oldest), with a flat reading at the full-charge level on AC
      counting as charging. */
  function Trend(es: seq<Sample>, fullCharge: real, ac: string): (d: int)
    requires |es| >= 2
    ensures -1 <= d <= 1
  {
    var older := es[|es| - Min(3, |es|)];
    if Last(es).charge > older.charge then 1
    else if Last(es).charge < older.charge then -1
    else if Last(es).charge == fullCharge && ac == "1" then 1
    else 0
  }

  /** `get_charge_direction` on a history of at least two samples, with the reads it makes. */
  function Direction(es: seq<Sample>, fs: Sysfs): (r: Result<int>)
    requires |es| >= 2
    ensures r.Ok? <==> FullCharge(fs).Ok? && GetAcStatus(fs).Ok?
  {
    var full :- FullCharge(fs);
    var ac :- GetAcStatus(fs);
    Ok(Trend(es, full, ac))
  }

  /** The direction the AC adapter implies: charging when it reads "1", discharging otherwise. */
  function Implied(ac: string): int {
    if ac == "1" then 1 else -1
  }

  /** The history's trend disagrees with the adapter: falling while on AC, or rising off AC. */
  predicate Contradicts(trend: int, ac: string) {
    (trend == -1 && ac == "1") || (trend == 1 && ac != "1")
  }

  /** `check_direction_change`: the history is emptied when its trend contradicts the adapter,
      and otherwise kept; with fewer than two samples nothing is read and nothing changes. */
  function CheckDirection(es: seq<Sample>, fs: Sysfs): (r: Result<seq<Sample>>)
    ensures |es| < 2 ==> r == Ok(es)
    ensures r.Ok? ==> r.value == es || r.value == []
    ensures |es| >= 2 ==>
      (r.Ok? <==> GetAcStatus(fs).Ok? && FullCharge(fs).Ok?)
    ensures |es| >= 2 && r.Ok? ==>
      (r.value == [] <==> Contradicts(Trend(es, FullCharge(fs).value, GetAcStatus(fs).value), GetAcStatus(fs).value))
  {
    if |es| < 2 then Ok(es)
    else
      var ac :- GetAcStatus(fs);
      var newDirection := Implied(ac);
      var oldDirection :- Direction(es, fs);
      if oldDirection != 0 && oldDirection != newDirection then Ok([]) else Ok(es)
  }

  /** `add_entry`: the direction check, then the new sample, then the window. */
  function AddSample(es: seq<Sample>, env: Env, charge: real): (r: Result<seq<Sample>>)
    ensures r.Ok? <==> CheckDirection(es, env.fs).Ok?
  {
    var checked :- CheckDirection(es, env.fs);
    Ok(Window(checked + [Sample(env.now, charge)], env.now))
  }

  /** After `add_entry` the newest sample is the one just taken, every sample is inside the
      window, and the history is exactly the surviving old samples in their order followed by the
      new one, or only the new one when the direction check emptied it. */
  lemma AddSampleShape(es: seq<Sample>, env: Env, charge: real)
    requires AddSample(es, env, charge).Ok?
    ensures var r := AddSample(es, env, charge).value;
      && |r| > 0
      && Last(r) == Sample(env.now, charge)
      && (forall i :: 0 <= i < |r| ==> Recent(r[i], env.now))
      && r == (if CheckDirection(es, env.fs).value == [] then [] else Window(es, env.now))
              + [Sample(env.now, charge)]
  {
    var s := Sample(env.now, charge);
    var checked := CheckDirection(es, env.fs).value;
    WindowConcat(checked, [s], env.now);
    WindowSingle(s, env.now);
    WindowMembers(checked + [s], env.now);
    if checked == [] {
      assert Window(checked, env.now) == [];
      assert [] + [s] == [s];
    }
  }

  /** The samples the bootstrap of `get_charge_direction` leaves behind a single sample: one
      `add_entry`, and a second one if the window dropped the old sample. It always ends with
      exactly two samples and the new one last: the old sample and the new one, or the new one
      twice when the old one had left the window. */
  function Bootstrap(es: seq<Sample>, now: real, charge: real): (r: seq<Sample>)
    requires |es| == 1
    ensures Recent(es[0], now) ==> r == es + [Sample(now, charge)]
    ensures !Recent(es[0], now) ==> r == [Sample(now, charge), Sample(now, charge)]
  {
    var s := Sample(now, charge);
    BootstrapSteps(es, s, now);
    var once := Window(es + [s], now);
    if |once| >= 2 then once else Window(once + [s], now)
  }

  /** The two window steps of the bootstrap, taken one at a time. */
  lemma BootstrapSteps(es: seq<Sample>, s: Sample, now: real)
    requires |es| == 1 && Recent(s, now)
    ensures Recent(es[0], now) ==> Window(es + [s], now) == es + [s]
    ensures !Recent(es[0], now) ==> Window(es + [s], now) == [s] && Window([s] + [s], now) == [s, s]
  {
    WindowConcat(es, [s], now);
    WindowSingle(s, now);
    assert es == [es[0]];
    WindowSingle(es[0], now);
    if Recent(es[0], now) {
      WindowKeepsRecent(es + [s], now);
    } else {
      assert [s] + [s] == [s, s];
      WindowKeepsRecent([s, s], now);
      assert [] + [s] == [s];
    }
  }

  /** How far the bootstrap is from two samples: 0 once there are two, 1 with one sample inside
      the window, 2 otherwise. */
  function Budget(es: seq<Sample>, now: real): nat {
    if |es| >= 2 then 0
    else if |es| == 1 && Recent(es[0], now) then 1
    else 2
  }

  // ---- Power ----

  /** Watts between two samples: volts times the charge change (the node counts micro-units)
      over the hours between them. */
  function Rate(a: Sample, b: Sample, voltage: real): real
    requires a.ts != b.ts
  {
    voltage * ((b.charge - a.charge) / 1000000.0) / ((b.ts - a.ts) / 3600.0)
  }

  /** The two samples `calculate_power_metrics` divides by exist with distinct timestamps. */
  predicate PowerDefined(es: seq<Sample>) {
    |es| >= 2 ==> es[|es| - Min(4, |es|)].ts != Last(es).ts && es[0].ts != Last(es).ts
  }

  predicate Increasing(es: seq<Sample>) {
    forall i, j :: 0 <= i < j < |es| ==> es[i].ts < es[j].ts
  }

  /** `calculate_power_metrics`: (instantaneous, average) watts. The instantaneous figure uses the
      sample four back (or the oldest), the average the oldest; both are 0 below two samples. */
  function Metrics(es: seq<Sample>, voltage: real): (r: (real, real))
    requires PowerDefined(es)
    ensures |es| < 2 ==> r == (0.0, 0.0)
    ensures 2 <= |es| <= 4 ==> r.0 == r.1
  {
    if |es| < 2 then (0.0, 0.0)
    else (Rate(es[|es| - Min(4, |es|)], Last(es), voltage), Rate(es[0], Last(es), voltage))
  }

  function Sign(x: real): int {
    if x > 0.0 then 1 else if x < 0.0 then -1 else 0
  }

  lemma PositiveProduct(x: real, y: real)
    requires x > 0.0 && y > 0.0
    ensures x * y > 0.0
  {
  }

  /** With a positive voltage and a later second sample the power has the sign of the charge
      change. */
  lemma RateSign(a: Sample, b: Sample, voltage: real)
    requires voltage > 0.0 && a.ts < b.ts
    ensures Sign(Rate(a, b, voltage)) == Sign(b.charge - a.charge)
  {
    var dc := (b.charge - a.charge) / 1000000.0;
    var dh := (b.ts - a.ts) / 3600.0;
    assert dh > 0.0;
    var p := voltage * dc;
    assert Rate(a, b, voltage) == p / dh;
    assert Sign(dc) == Sign(b.charge - a.charge);
    if dc > 0.0 {
      PositiveProduct(voltage, dc);
      PositiveProduct(p, 1.0 / dh);
      assert p / dh == p * (1.0 / dh);
    } else if dc < 0.0 {
      PositiveProduct(voltage, -dc);
      assert voltage * (-dc) == -p;
      PositiveProduct(-p, 1.0 / dh);
      assert p / dh == -((-p) * (1.0 / dh));
    } else {
      assert p == 0.0;
    }
  }

  /** Both power figures follow the sign of their charge change. */
  lemma MetricsSign(es: seq<Sample>, voltage: real)
    requires |es| >= 2 && Increasing(es) && voltage > 0.0
    ensures PowerDefined(es)
    ensures Sign(Metrics(es, voltage).0) == Sign(Last(es).charge - es[|es| - Min(4, |es|)].charge)
    ensures Sign(Metrics(es, voltage).1) == Sign(Last(es).charge - es[0].charge)
  {
    RateSign(es[|es| - Min(4, |es|)], Last(es), voltage);
    RateSign(es[0], Last(es), voltage);
  }

  /** Three samples a minute apart, 10 units up each time, at 12 V: the sample four back is the
      oldest, so both figures are 12 * (20 / 10^6) / (120 / 3600) = 0.0072 W, charging. */
  lemma ChargingExample()
    ensures var es := [Sample(0.0, 1000.0), Sample(60.0, 1010.0), Sample(120.0, 1020.0)];
      PowerDefined(es) && Metrics(es, 12.0) == (0.0072, 0.0072)
  {
  }

  /** On a history of two or three samples the direction rule and the power figure look at the
      same two samples, so the direction is the power's sign except for the flat reading at the
      full-charge level on AC, which counts as charging. */
  lemma TrendMatchesPower(es: seq<Sample>, voltage: real, fullCharge: real, ac: string)
    requires 2 <= |es| <= 3 && Increasing(es) && voltage > 0.0
    ensures PowerDefined(es)
    ensures var flatFull := Last(es).charge == es[0].charge && Last(es).charge == fullCharge && ac == "1";
      Trend(es, fullCharge, ac) == if flatFull then 1 else Sign(Metrics(es, voltage).0)
  {
    RateSign(es[0], Last(es), voltage);
  }

  // ---- The history file ----

  /** The text form of one number in the history file and its reading. The program writes Python's
      `str(float)` and reads with `float()`; the model takes that pair as given. */
  datatype Codec = Codec(show: real -> string, parse: string -> Option<real>)

  /** What the pair does for the number `x`: reading its text gives `x` back, and that text is one
      non-blank token without commas or line breaks. Python's pair does this for every finite
      float; an arbitrary real has no exact decimal form, so the round trip is asked only of the
      numbers actually written. */
  predicate Writes(codec: Codec, x: real) {
    && codec.parse(codec.show(x)) == Some(x)
    && ',' !in codec.show(x)
    && '\n' !in codec.show(x)
    && |codec.show(x)| > 0
    && !IsSpace(codec.show(x)[0])
    && !IsSpace(codec.show(x)[|codec.show(x)| - 1])
  }

  /** The pair writes both numbers of every sample of a history faithfully. */
  predicate WritesAll(codec: Codec, es: seq<Sample>) {
    forall i :: 0 <= i < |es| ==> Writes(codec, es[i].ts) && Writes(codec, es[i].charge)
  }

  /** One line of the file, read as `load` reads it: stripped, split at commas into exactly two
      fields, the timestamp parsed and compared with the cutoff, then the charge parsed. Any failure
      drops the line. */
  function KeepLine(line: string, now: real, codec: Codec): (r: Option<Sample>)
    ensures r.Some? ==> r.value.ts >= now - WindowSeconds
  {
    var fields := Split(Strip(line), ',');
    if |fields| != 2 then None
    else match codec.parse(fields[0])
      case None => None
      case Some(ts) =>
        if ts >= now - WindowSeconds then
          match codec.parse(fields[1])
          case None => None
          case Some(charge) => Some(Sample(ts, charge))
        else None
  }

  /** The samples `load` keeps from the lines, in file order. */
  function LoadLines(lines: seq<string>, now: real, codec: Codec): (r: seq<Sample>)
    ensures forall i :: 0 <= i < |r| ==> Recent(r[i], now)
  {
    if lines == [] then []
    else
      LoadLines(lines[..|lines| - 1], now, codec) + Kept(lines[|lines| - 1], now, codec)
  }

  /** The samples one line contributes: its sample, or none. */
  function Kept(line: string, now: real, codec: Codec): (r: seq<Sample>)
    ensures forall i :: 0 <= i < |r| ==> Recent(r[i], now)
  {
    match KeepLine(line, now, codec)
    case Some(s) => [s]
    case None => []
  }

  /** The lines' contributions one after another, for any rule giving each line's samples. */
  function Gather(lines: seq<string>, keep: string -> seq<Sample>): seq<Sample> {
    if lines == [] then [] else Gather(lines[..|lines| - 1], keep) + keep(lines[|lines| - 1])
  }

  lemma {:induction false} GatherConcat(a: seq<string>, b: seq<string>, keep: string -> seq<Sample>)
    ensures Gather(a + b, keep) == Gather(a, keep) + Gather(b, keep)
  {
    if b == [] {
      assert a + b == a;
    } else {
      var b', x := b[..|b| - 1], b[|b| - 1];
      GatherConcat(a, b', keep);
      assert (a + b)[..|a + b| - 1] == a + b';
      assert (a + b)[|a + b| - 1] == x;
      calc {
        Gather(a + b, keep);
        Gather(a + b', keep) + keep(x);
        Gather(a, keep) + Gather(b', keep) + keep(x);
        Gather(a, keep) + (Gather(b', keep) + keep(x));
        Gather(a, keep) + Gather(b, keep);
      }
    }
  }

  lemma {:induction false} LoadLinesIsGather(lines: seq<string>, now: real, codec: Codec)
    ensures LoadLines(lines, now, codec) == Gather(lines, line => Kept(line, now, codec))
  {
    if lines != [] {
      LoadLinesIsGather(lines[..|lines| - 1], now, codec);
    }
  }

  /** Lines are read independently: a line that does not parse adds nothing and does not stop
      the later lines from loading. */
  lemma LoadLinesConcat(a: seq<string>, b: seq<string>, now: real, codec: Codec)
    ensures LoadLines(a + b, now, codec) == LoadLines(a, now, codec) + LoadLines(b, now, codec)
  {
    var keep := line => Kept(line, now, codec);
    LoadLinesIsGather(a + b, now, codec);
    LoadLinesIsGather(a, now, codec);
    LoadLinesIsGather(b, now, codec);
    GatherConcat(a, b, keep);
  }

  /** Loading one more line adds that line's samples at the end. */
  lemma LoadLinesStep(lines: seq<string>, i: nat, now: real, codec: Codec)
    requires i < |lines|
    ensures LoadLines(lines[..i + 1], now, codec) == LoadLines(lines[..i], now, codec) + Kept(lines[i], now, codec)
  {
    assert lines[..i + 1][..i] == lines[..i];
  }

  /** `load`: no file gives an empty history; otherwise the kept samples of its lines, all inside
      the window. */
  function LoadFile(file: Option<string>, now: real, codec: Codec): (r: seq<Sample>)
    ensures file.None? ==> r == []
    ensures forall i :: 0 <= i < |r| ==> Recent(r[i], now)
  {
    match file
    case None => []
    case Some(text) => LoadLines(Split(text, '\n'), now, codec)
  }

  /** The line `save` writes for one sample, without its newline. */
  function FormatSample(s: Sample, codec: Codec): string {
    codec.show(s.ts) + "," + codec.show(s.charge)
  }

  /** The text `save` writes: one line per sample, each ending in a newline. It is empty exactly
      for an empty history. */
  function Serialize(es: seq<Sample>, codec: Codec): (r: string)
    ensures r == [] <==> es == []
    ensures es != [] ==> r[|r| - 1] == '\n'
  {
    if es == [] then ""
    else Serialize(es[..|es| - 1], codec) + FormatSample(Last(es), codec) + "\n"
  }

  function FormatAll(es: seq<Sample>, codec: Codec): (r: seq<string>)
    ensures |r| == |es|
  {
    if es == [] then [] else FormatAll(es[..|es| - 1], codec) + [FormatSample(Last(es), codec)]
  }

  lemma {:induction false} SerializeIsJoin(es: seq<Sample>, codec: Codec)
    requires es != []
    ensures Serialize(es, codec) == Join(FormatAll(es, codec), '\n') + "\n"
  {
    var init := es[..|es| - 1];
    if init == [] {
      assert FormatAll(es, codec) == [FormatSample(Last(es), codec)];
    } else {
      SerializeIsJoin(init, codec);
      JoinSnoc(FormatAll(init, codec), '\n', FormatSample(Last(es), codec));
    }
  }

  /** A written line reads back as the sample it was written from, when that is inside the
      window. */
  lemma KeepFormatted(s: Sample, now: real, codec: Codec)
    requires Writes(codec, s.ts) && Writes(codec, s.charge)
    ensures KeepLine(FormatSample(s, codec), now, codec) == if Recent(s, now) then Some(s) else None
  {
    var a, b := codec.show(s.ts), codec.show(s.charge);
    var line := FormatSample(s, codec);
    assert line == a + [','] + b;
    assert line[0] == a[0] && line[|line| - 1] == b[|b| - 1];
    StripKeeps(line);
    SplitAtFirst(a, ',', b);
    SplitNoSeparator(b, ',');
  }

  lemma {:induction false} LoadFormatted(es: seq<Sample>, now: real, codec: Codec)
    requires WritesAll(codec, es)
    ensures LoadLines(FormatAll(es, codec), now, codec) == Window(es, now)
  {
    if es != [] {
      var init := es[..|es| - 1];
      LoadFormatted(init, now, codec);
      KeepFormatted(Last(es), now, codec);
      var lines := FormatAll(es, codec);
      assert Kept(lines[|lines| - 1], now, codec) == if Recent(Last(es), now) then [Last(es)] else [];
      assert lines[..|lines| - 1] == FormatAll(init, codec);
    }
  }

  /** Saving a history and loading the file again gives the history's samples inside the window,
      in their order. */
  lemma SaveLoadRoundTrip(es: seq<Sample>, now: real, codec: Codec)
    requires WritesAll(codec, es)
    ensures LoadFile(Some(Serialize(es, codec)), now, codec) == Window(es, now)
  {
    var lines := FormatAll(es, codec);
    assert forall i :: 0 <= i < |lines| ==> '\n' !in lines[i] by {
      forall i | 0 <= i < |lines|
        ensures '\n' !in lines[i]
      {
        FormatHasNoNewline(es, codec, i);
      }
    }
    if es == [] {
      assert Split("", '\n') == [""];
      assert KeepLine("", now, codec) == None by {
        assert Strip("") == "";
      }
      assert [""][..0] == [];
    } else {
      SerializeIsJoin(es, codec);
      JoinSnoc(lines, '\n', "");
      assert Serialize(es, codec) == Join(lines + [""], '\n');
      SplitJoin(lines + [""], '\n');
      LoadLinesConcat(lines, [""], now, codec);
      assert KeepLine("", now, codec) == None by {
        assert Strip("") == "";
      }
      assert LoadLines([""], now, codec) == [] by {
        assert [""][..0] == [];
      }
      LoadFormatted(es, now, codec);
    }
  }

  lemma {:induction false} FormatHasNoNewline(es: seq<Sample>, codec: Codec, i: nat)
    requires WritesAll(codec, es) && i < |es|
    ensures '\n' !in FormatAll(es, codec)[i]
  {
    if i < |es| - 1 {
      FormatHasNoNewline(es[..|es| - 1], codec, i);
    } else {
      var s := Last(es);
      assert FormatSample(s, codec) == codec.show(s.ts) + [','] + codec.show(s.charge);
    }
  }

  /** A pair writing 0 and 1 as "0.0" and "1.0": the sample (0, 1) saved and loaded a minute later
      comes back as it was. */
  lemma RoundTripExample()
    ensures var codec := Codec(x => if x == 0.0 then "0.0" else "1.0",
                               t => if t == "0.0" then Some(0.0) else if t == "1.0" then Some(1.0) else None);
      LoadFile(Some(Serialize([Sample(0.0, 1.0)], codec)), 60.0, codec) == [Sample(0.0, 1.0)]
  {
    var codec := Codec(x => if x == 0.0 then "0.0" else "1.0",
                       t => if t == "0.0" then Some(0.0) else if t == "1.0" then Some(1.0) else None);
    var es := [Sample(0.0, 1.0)];
    assert Writes(codec, 0.0) && Writes(codec, 1.0);
    SaveLoadRoundTrip(es, 60.0, codec);
    WindowKeepsRecent(es, 60.0);
  }
}
