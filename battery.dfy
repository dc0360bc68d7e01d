/** `BatteryStatus`: the battery and AC readings, each taken from a sysfs node, with the fallbacks
    of utils.py. */
module Battery {
  import opened Wrappers

  const ChargeNow := "/sys/class/power_supply/BAT*/charge_now"
  const EnergyNow := "/sys/class/power_supply/BAT*/energy_now"
  const ChargeFull := "/sys/class/power_supply/BAT*/charge_full"
  const EnergyFull := "/sys/class/power_supply/BAT*/energy_full"
  const EndThreshold := "/sys/class/power_supply/BAT*/charge_control_end_threshold"
  const VoltageNow := "/sys/class/power_supply/BAT*/voltage_now"
  const AcOnline := "/sys/class/power_supply/AC*/online"

  /** What the nodes read at one moment. `nodes` maps a node's path pattern to its content as a
      number: a pattern no file matches is absent, a node whose content is not a number maps to
      `None`. `acOnline` is the stripped text of the AC adapter's `online` node, if there is one. */
  datatype Sysfs = Sysfs(nodes: map<string, Option<real>>, acOnline: Option<string>)

  predicate Readable(fs: Sysfs, path: string) {
    path in fs.nodes && fs.nodes[path].Some?
  }

  /** `float(read_file(path))`: the number in the node, or the exception the read raises. */
  function ReadNumber(fs: Sysfs, path: string): (r: Result<real>)
    ensures r.Ok? <==> Readable(fs, path)
    ensures r.Ok? ==> r.value == fs.nodes[path].value
  {
    if path !in fs.nodes then Err(FileNotFound(path))
    else if fs.nodes[path].None? then Err(ValueError)
    else Ok(fs.nodes[path].value)
  }

  /** The charge-unit node wins whenever it reads; the energy-unit node is used only when it does
      not, and the call fails only when neither reads. */
  function GetCharge(fs: Sysfs): (r: Result<real>)
    ensures Readable(fs, ChargeNow) ==> r == Ok(fs.nodes[ChargeNow].value)
    ensures !Readable(fs, ChargeNow) ==> (r.Ok? <==> Readable(fs, EnergyNow))
    ensures !Readable(fs, ChargeNow) && r.Ok? ==> r.value == fs.nodes[EnergyNow].value
  {
    match ReadNumber(fs, ChargeNow)
    case Ok(v) => Ok(v)
    case Err(_) => ReadNumber(fs, EnergyNow)
  }

  /** The same fallback for the full capacity. */
  function GetFullCapacity(fs: Sysfs): (r: Result<real>)
    ensures Readable(fs, ChargeFull) ==> r == Ok(fs.nodes[ChargeFull].value)
    ensures !Readable(fs, ChargeFull) ==> (r.Ok? <==> Readable(fs, EnergyFull))
    ensures !Readable(fs, ChargeFull) && r.Ok? ==> r.value == fs.nodes[EnergyFull].value
  {
    match ReadNumber(fs, ChargeFull)
    case Ok(v) => Ok(v)
    case Err(_) => ReadNumber(fs, EnergyFull)
  }

  /** The charge-limit percentage; 100 when the kernel offers no limit. */
  function GetEndThreshold(fs: Sysfs): (t: real)
    ensures Readable(fs, EndThreshold) ==> t == fs.nodes[EndThreshold].value
    ensures !Readable(fs, EndThreshold) ==> t == 100.0
  {
    match ReadNumber(fs, EndThreshold)
    case Ok(v) => v
    case Err(_) => 100.0
  }

  /** The voltage in volts (the node holds microvolts); 0 when the node does not read. */
  function GetVoltage(fs: Sysfs): (v: real)
    ensures Readable(fs, VoltageNow) ==> v * 1000000.0 == fs.nodes[VoltageNow].value
    ensures !Readable(fs, VoltageNow) ==> v == 0.0
  {
    match ReadNumber(fs, VoltageNow)
    case Ok(raw) => raw / 1000000.0
    case Err(_) => 0.0
  }

  /** The AC adapter's `online` text; unlike the other getters it has no fallback. */
  function GetAcStatus(fs: Sysfs): (r: Result<string>)
    ensures r.Ok? <==> fs.acOnline.Some?
    ensures r.Ok? ==> r.value == fs.acOnline.value
  {
    match fs.acOnline
    case Some(text) => Ok(text)
    case None => Err(FileNotFound(AcOnline))
  }

  /** Python's `int(x)` on a float: rounding toward zero. */
  function Truncate(x: real): (n: int)
    ensures x >= 0.0 ==> n as real <= x < n as real + 1.0
    ensures x < 0.0 ==> n as real - 1.0 < x <= n as real
  {
    if x >= 0.0 then x.Floor else -((-x).Floor)
  }

  /** `get_percentage`: the charge as a whole percentage of the full capacity, rounded toward
      zero. It fails when either reading fails or the capacity reads 0. */
  function GetPercentage(fs: Sysfs): (r: Result<int>)
    ensures r.Ok? <==> GetCharge(fs).Ok? && GetFullCapacity(fs).Ok? && GetFullCapacity(fs).value != 0.0
    ensures r.Ok? ==> r.value == Truncate(GetCharge(fs).value / GetFullCapacity(fs).value * 100.0)
  {
    var charge :- GetCharge(fs);
    var full :- GetFullCapacity(fs);
    if full == 0.0 then Err(ZeroDivisionError) else Ok(Truncate(charge / full * 100.0))
  }

  lemma RatioInUnit(c: real, f: real)
    requires 0.0 <= c <= f && f > 0.0
    ensures 0.0 <= c / f <= 1.0
  {
    var q := c / f;
    assert q * f == c;
    if q < 0.0 {
      assert false;
    }
    if q > 1.0 {
      assert false;
    }
  }

  /** A charge between empty and full gives a percentage between 0 and 100. */
  lemma PercentageInRange(fs: Sysfs)
    requires GetCharge(fs).Ok? && GetFullCapacity(fs).Ok?
    requires 0.0 <= GetCharge(fs).value <= GetFullCapacity(fs).value
    requires GetFullCapacity(fs).value > 0.0
    ensures GetPercentage(fs).Ok? && 0 <= GetPercentage(fs).value <= 100
  {
    var c, f := GetCharge(fs).value, GetFullCapacity(fs).value;
    RatioInUnit(c, f);
    assert 0.0 <= c / f * 100.0 <= 100.0;
  }
}
