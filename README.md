# batteryOptimise core, modelled in Dafny

batteryOptimise is a set of Python scripts that tune a Linux laptop for battery life. This
project models the parts of it that make decisions. Reading files, running commands and the
clock are replaced by parameters. The parts are:

- **Battery readings** (`battery.dfy`, module `Battery`). `BatteryStatus` reads sysfs nodes. The
  charge-unit node (`charge_*`) is used before the energy-unit node (`energy_*`). The charge
  threshold defaults to 100 and the voltage to 0. The nodes are a map from path pattern to
  `Option<real>`.
- **Charge history** (`history.dfy`, module `History`: the values; `tracker.dfy`, module
  `Tracker`: the object). This is the list of `(timestamp, charge)` samples that `ChargeHistory`
  keeps:
  - the ten-minute window;
  - the direction rule (the last charge against the one three samples back);
  - the rule that clears the history when the direction reverses;
  - the one-sample bootstrap of `get_charge_direction`;
  - the instantaneous and average power figures;
  - the history file's text.

  The class `Tracker.ChargeHistory` has an `entries` field that its methods reassign. Each method
  is proved to leave exactly the history the functions of `History` describe.
- **Desktop user** (`users.dfy`, module `Users`). `SystemUser` filters the password database. When
  several users pass the filter, it picks the owner of the newest profile file.
- **Power-bank toggle** (`power_bank.dfy`, module `PowerBank`). The `keyboard`/`cron` state
  machine works over the JSON config and the one-shot timestamp file. The pure transition is
  `Dispatch`, and the class `Toggle` runs it step by step.
- **Command text** (`commands.dfy`, module `Commands`). This is the `~` and `$$$` substitution
  applied to catalogue commands.
- **GRUB rewrite** (`grub.dfy`, module `Grub`). This adds the AMD P-State kernel options to
  `GRUB_CMDLINE_LINUX_DEFAULT` unless `amd_pstate` is already in the file.
- **Power and time remaining** (`consumption.dfy`, module `Consumption`). This is the computation
  in `printPowerConsumption.py`.
- `wrappers.dfy` (`Option`, `Result` and the Python exceptions that can escape) and `text.dfy`
  (`str.split`, `join`, `strip`, `in` and `replace`) hold shared helpers.

Quantities are `real`. Timestamps are seconds as `real`; the timestamp file holds whole seconds as
`int`. A call of the tracker sees one fixed clock reading and one fixed set of sysfs readings,
given as the parameter `Env`.

Some behaviour of the scripts that is easy to misread, modelled as the code has it:
- `printPowerConsumption.py:35-36` shows any rounded time above 20 hours as infinite.
- `printPowerConsumption.py:24-28` divides the charge gap, or the charge, by the present current.
  No power figure enters the time.
- `get_ac_status` (`utils.py:88-90`) has no fallback: a missing AC node raises.
- `get_percentage` (`utils.py:92-96`) reads the charge and the full capacity independently, so one
  can come from a `charge_*` node and the other from an `energy_*` node.
- `StateManager` (`utils.py:260-274`) only reads and writes its record. No modelled file decides
  anything from it.

Where the code has an evident bug (see "Findings"), the model runs the code as written and keeps
the corrected definition beside it, under its own name.

## Model

| member | source | states |
|---|---|---|
| Battery.GetCharge | utils.py:57-63 | the `charge_now` value whenever that node reads; `energy_now` only when it does not; an error only when neither reads |
| Battery.GetFullCapacity | utils.py:65-70 | the same fallback for `charge_full` / `energy_full` |
| Battery.GetEndThreshold | utils.py:72-79 | the threshold node's value, or 100.0 when it does not read |
| Battery.GetVoltage | utils.py:81-86 | volts, where volts × 10^6 is the node's raw value; 0.0 when the node does not read |
| Battery.GetAcStatus | utils.py:88-90 | the AC `online` text when the node exists, FileNotFound otherwise |
| Battery.GetPercentage | utils.py:92-96 | succeeds exactly when both readings succeed and the capacity is non-zero; then it is charge/full × 100 rounded toward zero |
| Battery.PercentageInRange | utils.py:92-96 | a charge between 0 and a positive full capacity gives a percentage from 0 to 100 |
| History.WindowMembers | utils.py:148-152 | the filter keeps exactly the samples of the input within 600 s of `now`: every survivor is inside the window and every input sample inside it survives |
| History.Window | utils.py:148-152 | the filter never adds samples: it keeps at most as many as it is given |
| History.WindowConcat | utils.py:148-152 | filtering distributes over concatenation, so the survivors keep their relative order |
| History.WindowKeepsRecent | utils.py:148-152 | a history already inside the window is unchanged by the filter |
| History.KeepLine | utils.py:113-119 | a line that is kept gives a sample with `ts >= now - 600` |
| History.LoadLines | utils.py:107-120 | every loaded sample is inside the window |
| History.LoadLinesConcat | utils.py:112-119 | lines load independently: a malformed line contributes nothing and does not stop later lines |
| History.LoadFile | utils.py:107-120 | no file gives an empty history, and every loaded sample is inside the window |
| History.Serialize | utils.py:122-125 | the text is empty exactly for an empty history, and otherwise ends with a newline |
| History.SaveLoadRoundTrip | utils.py:107-125 | loading the text `save` writes gives back the saved samples inside the window, in order, whenever the number format writes each saved number as one comma-free, newline-free token that reads back as that number |
| History.RoundTripExample | utils.py:107-125 | with a format writing 0 and 1 as `0.0` and `1.0`, the saved sample (0, 1) loads back unchanged a minute later |
| History.FullCharge | utils.py:155-157 | threshold × full / 100, failing exactly when the full capacity cannot be read |
| History.Trend | utils.py:166-174 | a direction in {-1, 0, 1} |
| History.Direction | utils.py:154-174 | `get_charge_direction` on two or more samples succeeds exactly when the full capacity and the AC node read |
| History.CheckDirection | utils.py:127-139 | fewer than 2 samples: no change. Otherwise the result is either the history unchanged or empty; it is empty exactly when the trend is non-zero and disagrees with the AC reading |
| History.AddSample | utils.py:141-152 | `add_entry` fails exactly when its direction check fails |
| History.AddSampleShape | utils.py:141-152 | after `add_entry` the last sample is `(now, charge)` and every sample is within 600 s of now. Before it come exactly the windowed old samples in order, or nothing when the direction check cleared the history |
| History.Bootstrap | utils.py:161-165 | from one sample the bootstrap ends with exactly two: the old sample and the new one, or the new one twice when the old one left the window |
| History.MetricsSign | utils.py:176-193 | with positive voltage and increasing timestamps, each power figure has the sign of its charge change |
| History.Metrics | utils.py:176-193 | below two samples both figures are 0. With 2 to 4 samples the instantaneous and average powers are equal |
| History.TrendMatchesPower | utils.py:166-191 | on 2 or 3 samples the direction is the power's sign, except that a flat reading at full charge on AC counts as charging |
| History.ChargingExample | utils.py:176-193 | three samples 60 s and 10 units apart at 12 V give 0.0072 W for both figures |
| Tracker.ChargeHistory.Load | utils.py:107-120 | the loop over the file's lines builds the history `LoadFile` describes |
| Tracker.ChargeHistory.Save | utils.py:122-125 | the loop writes `Serialize(entries)`, one `ts,charge` line per sample |
| Tracker.ChargeHistory.CheckDirectionChange | utils.py:127-139 | the new entries are those `CheckDirection` gives; an exception leaves them unchanged |
| Tracker.ChargeHistory.AddEntry | utils.py:141-152 | the new entries are those `AddSample` gives; an exception leaves them unchanged |
| Tracker.ChargeHistory.ChargeDirection | utils.py:154-174 | two or more samples: `Direction`, with the history unchanged. None: IndexError, or the capacity read's error. One: the bootstrap to two samples, then the direction of those; when a read fails, the first failing read's error (capacity, then AC, then charge) with the history unchanged |
| Tracker.Open | utils.py:101-105 | constructing a history loads the file and applies the direction check once |
| Users.Scan | utils.py:216-230 | the leader's time starts at 0, never drops below it, and stays 0 exactly while nobody leads |
| Users.ScanFindsFirstNewest | utils.py:219-230 | the scan's leader is the first probe holding the strictly largest readable mtime above 0, or nobody with time 0 |
| Users.MostRecentUserIsNewest | utils.py:215-230 | the chosen user is one of the candidates and owns the newest profile file (earliest on a tie); nobody exactly when no file has a readable mtime above 0 |
| Users.ScanProfiles | utils.py:219-228 | the inner loop over one user's `.profile`, `.bashrc` and `.bash_history` continues the scan from the leader the earlier probes left |
| Users.FindMostRecentUser | utils.py:215-230 | the nested loop computes the scan over all users' three profile files |
| Users.RealUsers | utils.py:200-207 | the accepted accounts are exactly the entries with uid ≥ 1000 and an existing home under /home/ |
| Users.Choose | utils.py:209-213 | no accepted user gives none, a lone one is chosen as is, and whoever is chosen is one of the accepted users |
| Users.GetRealUser | utils.py:198-213 | the filtering loop and the choice: a lone accepted user directly, several by the scan, none gives no user |
| Users.ChosenUserIsReal | utils.py:198-213 | the chosen user is always an accepted entry. There is no user exactly when none is accepted, or several are accepted and no profile file has a readable mtime above 0 |
| PowerBank.Snapshot | powerBankMode.py:24-29 | an object holding both flags as they are, false when absent |
| PowerBank.BatAsWritten | powerBankMode.py:21-29 | both flags true, and the saved `last_auto_state` is always true/true whatever was there, because the flags are set before they are read. No other key appears, disappears or changes |
| PowerBank.Bat | powerBankMode.py:21-29 | the corrected battery mode, not the code: both flags true, the saved state holding the flags from before the change, and no other key changed |
| PowerBank.Auto | powerBankMode.py:30-38 | without a saved state the config is unchanged. Otherwise both flags are restored from it and it is deleted. TypeError/KeyError when it is malformed |
| PowerBank.ModeConfig | powerBankMode.py:13-41 | `bat` always succeeds with both flags on and the saved state true/true. `auto` is `Auto`. Any other mode rewrites the config unchanged |
| PowerBank.OnlyModeKeysChange | powerBankMode.py:13-41 | no mode adds, removes or changes a key other than the two flags and `last_auto_state` |
| PowerBank.AutoUndoesBat | powerBankMode.py:21-38 | for the corrected `Bat` only: battery mode followed by automatic mode restores a config holding both flags and no saved state |
| PowerBank.AutoAfterBatAsWrittenKeepsBattery | powerBankMode.py:21-38 | as written, automatic mode after battery mode leaves both flags true and only deletes the saved state, so a config whose CPU flag was false does not come back |
| PowerBank.IsPast | powerBankMode.py:53-70 | fires only when `now` is later than a stored time, and then blanks the latch. A missing or blank latch never fires and is unchanged. Unparsable text raises ValueError |
| PowerBank.FiresOnce | powerBankMode.py:53-70 | after the latch fires, a second call at any time returns false and changes nothing |
| PowerBank.Dispatch | powerBankMode.py:73-93 | a wrong argument count is a usage error touching neither file. A mode word other than `keyboard` and `cron` changes nothing. A run that raises leaves the config as it was |
| PowerBank.KeyboardToggles | powerBankMode.py:80-88 | not past: automatic mode with the latch at now − 3 h. Past: battery mode as written (saved state true/true) with the latch at now + 3 h. An unreadable latch, or a failed switch to automatic mode, raises its error and leaves both files as they were |
| PowerBank.TwoPressesGiveAutoThenBattery | powerBankMode.py:80-88 | from an empty latch, two presses give automatic mode, then battery mode as written |
| PowerBank.PressInsideBatteryHoursKeepsBattery | powerBankMode.py:80-88 | a press within the three battery hours goes to automatic mode, but both flags stay true and only `last_auto_state` is deleted: the config from before battery mode is not restored |
| PowerBank.CronOnlyWhenPast | powerBankMode.py:89-91 | cron applies automatic mode, and blanks the latch, only when the latch fires. Otherwise nothing changes |
| PowerBank.DispatchKeepsOtherKeys | powerBankMode.py:73-93 | no run writes a config key other than the two flags and `last_auto_state` |
| PowerBank.Toggle.UpdateConfig | powerBankMode.py:13-41 | the new config is `ModeConfig(old config, mode)`, with `bat` setting the flags before the snapshot as the code does. An exception leaves the config and the latch unchanged |
| PowerBank.Toggle.SaveRelativeTimestamp | powerBankMode.py:44-50 | the latch becomes now + hours, in whole seconds; the config is unchanged |
| PowerBank.Toggle.IsPastTimestamp | powerBankMode.py:53-70 | the answer and the new latch are those of `IsPast`; the config is unchanged |
| PowerBank.Toggle.HandleEvent | powerBankMode.py:73-93 | the files and outcome after a run are those `Dispatch` gives |
| Commands.ReplaceTilde | main.py:108-109 | equals a per-character expansion: each `~` becomes the home directory and every other character stays |
| Commands.TildeConcat | main.py:108-109 | tilde replacement distributes over concatenation |
| Commands.TildeRemoved | main.py:108-109 | no `~` survives when the home has none; a command without `~` is unchanged |
| Commands.ReplaceDollars | main.py:118-120 | no `$$$` survives when the directory is non-empty and `$`-free. A command without `$$$` is unchanged |
| Commands.PrepareCommand | main.py:123-125 | a command holding neither `~` nor `$$$` runs as it is |
| Commands.PreparedHasNoPlaceholder | main.py:123-125 | with tildes replaced first, the prepared command holds neither placeholder |
| Commands.DollarsStep | main.py:118-120 | `replace("$$$", directory)` scans from the left: the `$`-free text before the first `$$$` is kept, that `$$$` becomes the directory, and the rest is replaced in turn |
| Commands.DirectoryInsertedVerbatim | main.py:123-125 | for a tilde-free command `a + "$$$" + rest`, with no `$` in `a` and no further `$$$` in `rest`, the prepared command is `a + directory + rest`. The dollar step comes last, so the directory is inserted as it is, wherever the `$$$` stands (as in `cp $$$/tlp.conf /etc`, main.py:78) |
| Grub.Inner | main.py:93 | `s[1:-1]`: the first and last characters dropped, empty below two characters |
| Grub.ValueAsWritten | main.py:93 | IndexError exactly when the line has no `=`. Otherwise the text between the first and the second `=` (or the line's end), with its first and last characters dropped |
| Grub.Value | main.py:93 | the corrected extraction, not the code: it fails exactly when the line has no `=`, and otherwise gives all the text after the first `=`, first and last characters dropped |
| Grub.RewriteLine | main.py:92-100 | a line without the key is copied. The line raises exactly when it holds the key and no `=` |
| Grub.RewriteAll | main.py:91-101 | success gives one output line per input line, each the rewrite of its input. Failure comes from some line that fails |
| Grub.RewriteAllStopsAtError | main.py:91-101 | an exception on an earlier line is the loop's result |
| Grub.RewriteGrubConfig | main.py:84-103 | the loop, with the code's `split("=")[1][1:-1]`, builds exactly the text `GrubRewrite` describes for that extraction |
| Grub.GrubRewrite | main.py:84-103 | a file already mentioning `amd_pstate` is not rewritten. Any failure comes from a key line without `=` |
| Grub.RewriteIsLineWise | main.py:90-103 | same number of lines, and lines without the key are copied. Each key line holds an `=` and becomes `GRUB_CMDLINE_LINUX_DEFAULT="<v> amd_pstate=passive …"`. As written, `<v>` is the text between its first and second `=`, first and last characters dropped; with the corrected extraction it is all the text after the first `=` |
| Grub.KeyLineHasMarker | main.py:94-98 | a rewritten key line mentions `amd_pstate` |
| Grub.RewriteIsIdempotent | main.py:86-103 | with either extraction, applying the rewrite to its own output changes nothing |
| Grub.ExtractionsAgreeWithoutEquals | main.py:93 | for a quoted value without `=`, the extraction as written and the corrected one agree |
| Grub.AsWrittenTruncatesAtSecondEquals | main.py:93 | for a value containing `=`, the extraction as written loses the text after it |
| Grub.ValueOfKeyLine | main.py:93 | the corrected extraction gives back any quoted value, `=` signs included |
| Consumption.Power | printPowerConsumption.py:12-18 | the power is zero exactly when the current or the voltage is, whatever the adapter says |
| Consumption.PowerFollowsAdapter | printPowerConsumption.py:12-18 | with positive current and voltage, the power is negative exactly when the adapter reads "0" |
| Consumption.TimeRemaining | printPowerConsumption.py:24-30 | the time is infinite exactly when the power is zero |
| Consumption.TimeRemainingMeaning | printPowerConsumption.py:24-28 | positive power: hours × current is the gap to full. Negative power: hours × current is the charge |
| Consumption.TimeNotNegative | printPowerConsumption.py:24-28 | a positive current and a charge between 0 and full give a non-negative time |
| Consumption.RoundTenths | printPowerConsumption.py:33-34 | the rounded value is within 0.05 of its input |
| Consumption.Report | printPowerConsumption.py:32-38 | the power shown is within 0.05 W of the computed one, and a finite time shown is at most 20 hours |
| Consumption.ReportedTimeBounds | printPowerConsumption.py:33-36 | a reported finite time is within 0.05 of the computed time. It is infinite exactly at zero power or a rounded time above 20 |

## Left out

- File and glob access (`read_file`, `getAbsPath`, `open`, `json` load/dump, `StateManager`): I/O. The model takes file contents and sysfs readings as values.
- `execute_command`, `os.system`, `update-grub`, the `commands` catalogue and `executeCommands`: subprocess plumbing with no decision.
- `configure_logging`, all logging and `print` output: no effect on state.
- `setChargeThreshold.py` and `test.py`: a one-command wrapper and a one-off D-Bus call.
- The clock, `pwd.getpwall` and file modification times are parameters. One call of the tracker sees a single clock reading, so the bootstrap's second sample has the same timestamp as the first.
- Floating point: values are exact reals. `round(x, 1)` is rounding half to even on exact reals.
- History.Codec: Python's `str(float)` and `float()` are a parameter. The round-trip lemmas require only that each number actually saved is written as one token that reads back as that number, which Python's pair does for every finite float.
- Text.IsSpace: `str.strip()` is modelled for ASCII whitespace only (space, tab, newline, carriage return, vertical tab, form feed). The Unicode spaces Python also strips are left out, because the history file holds only numbers and commas.
- History.Metrics: requires the two samples it divides by to have distinct timestamps. The ZeroDivisionError that equal timestamps raise is not modelled.
- PowerBank.Shifted: the `%Y-%m-%d %H:%M:%S` format is modelled as whole seconds since the epoch on one clock. Calendar and time-zone conversion are not modelled.

## Findings

| source | as written | input that shows it | evidently intended | confidence | as-written member | corrected member |
|---|---|---|---|---|---|---|
| powerBankMode.py:21-29 | the two flags are set to true before `last_auto_state` is read from them, so the saved state is always true/true | any config, e.g. both flags false: `bat` then `auto` leaves both flags true | save the flags as they were before battery mode, so `auto` restores them | high, not executed | PowerBank.AutoAfterBatAsWrittenKeepsBattery | PowerBank.AutoUndoesBat |
| main.py:93 | `line.split("=")[1][1:-1]` keeps only the text up to the second `=` and then drops its last character | `GRUB_CMDLINE_LINUX_DEFAULT="quiet resume=UUID"` gives the value `quiet resum` | the quoted value after the first `=`, here `quiet resume=UUID` | high, not executed | Grub.AsWrittenTruncatesAtSecondEquals | Grub.ValueOfKeyLine |
