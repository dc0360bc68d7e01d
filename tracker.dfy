/** `ChargeHistory` as an object: its list of samples is a field the methods reassign, each method
    proved to leave exactly the history the functions of module History describe. */
module Tracker {
  import opened Wrappers
  import opened Text
  import opened Battery
  import opened History

  class ChargeHistory {
    var entries: seq<Sample>

    /** `load`: the samples of the history file inside the window ending at `now`. */
    constructor Load(file: Option<string>, now: real, codec: Codec)
      ensures entries == LoadFile(file, now, codec)
    {
      var loaded := [];
      if file.Some? {
        var lines := Split(file.value, '\n');
        var i := 0;
        while i < |lines|
          invariant 0 <= i <= |lines|
          invariant loaded == LoadLines(lines[..i], now, codec)
        {
          LoadLinesStep(lines, i, now, codec);
          match KeepLine(lines[i], now, codec) {
            case Some(s) =>
              loaded := loaded + [s];
            case None =>
          }
          i := i + 1;
        }
        assert lines[..|lines|] == lines;
      }
      entries := loaded;
    }

    /** `save`: the text written to the history file. */
    method Save(codec: Codec) returns (text: string)
      ensures text == Serialize(entries, codec)
    {
      text := "";
      var i := 0;
      while i < |entries|
        invariant 0 <= i <= |entries|
        invariant text == Serialize(entries[..i], codec)
      {
        assert entries[..i + 1][..i] == entries[..i];
        text := text + FormatSample(entries[i], codec) + "\n";
        i := i + 1;
      }
      assert entries[..|entries|] == entries;
    }

    /** `check_direction_change`: empties the history when its trend contradicts the AC
        adapter; an exception leaves the history as it was. */
    method CheckDirectionChange(env: Env) returns (r: Outcome)
      modifies this
      decreases Budget(entries, env.now), if |entries| >= 2 then 3 else 0
      ensures r.Done? <==> CheckDirection(old(entries), env.fs).Ok?
      ensures r.Done? ==> entries == CheckDirection(old(entries), env.fs).value
      ensures r.Raised? ==> entries == old(entries) && CheckDirection(old(entries), env.fs) == Err(r.error)
    {
      if |entries| < 2 {
        return Done;
      }
      var acState := GetAcStatus(env.fs);
      if acState.Err? {
        return Raised(acState.error);
      }
      var newDirection := if acState.value == "1" then 1 else -1;
      var oldDirection := ChargeDirection(env);
      if oldDirection.Err? {
        return Raised(oldDirection.error);
      }
      if oldDirection.value != 0 && oldDirection.value != newDirection {
        entries := [];
      }
      return Done;
    }

    /** `add_entry`: the direction check, then the new sample, then the window. */
    method AddEntry(charge: real, env: Env) returns (r: Outcome)
      modifies this
      decreases Budget(entries, env.now), if |entries| >= 2 then 4 else 1
      ensures r.Done? <==> AddSample(old(entries), env, charge).Ok?
      ensures r.Done? ==> entries == AddSample(old(entries), env, charge).value
      ensures r.Raised? ==> entries == old(entries) && AddSample(old(entries), env, charge) == Err(r.error)
    {
      var currentTime := env.now;
      r := CheckDirectionChange(env);
      if r.Raised? {
        return;
      }
      entries := Window(entries + [Sample(currentTime, charge)], currentTime);
    }

    /** `get_charge_direction`: with two samples or more, the trend; with one, the bootstrap adds
        samples until there are two and then answers; with none it raises IndexError. */
    method ChargeDirection(env: Env) returns (r: Result<int>)
      modifies this
      decreases Budget(entries, env.now), 2
      ensures |old(entries)| != 1 ==> entries == old(entries)
      ensures |old(entries)| >= 2 ==> r == Direction(entries, env.fs)
      ensures |old(entries)| == 0 ==>
        r == if FullCharge(env.fs).Err? then Err(FullCharge(env.fs).error) else Err(IndexError)
      ensures |old(entries)| == 1 ==>
        var ready := FullCharge(env.fs).Ok? && GetAcStatus(env.fs).Ok? && GetCharge(env.fs).Ok?;
        && (ready ==> |entries| == 2
                      && entries == Bootstrap(old(entries), env.now, GetCharge(env.fs).value)
                      && r == Direction(entries, env.fs))
        && (!ready ==> entries == old(entries)
                       && r == if FullCharge(env.fs).Err? then Err(FullCharge(env.fs).error)
                               else if GetAcStatus(env.fs).Err? then Err(GetAcStatus(env.fs).error)
                               else Err(GetCharge(env.fs).error))
    {
      var fullCharge := FullCharge(env.fs);
      if fullCharge.Err? {
        return Err(fullCharge.error);
      }
      if |entries| == 0 {
        return Err(IndexError);
      }
      var isFullyCharged := entries[|entries| - 1].charge == fullCharge.value;
      var acState := GetAcStatus(env.fs);
      if acState.Err? {
        return Err(acState.error);
      }
      if |entries| < 2 {
        var charge := GetCharge(env.fs);
        if charge.Err? {
          return Err(charge.error);
        }
        ghost var before := entries;
        var added := AddEntry(charge.value, env);
        ghost var s := Sample(env.now, charge.value);
        assert Window([s], env.now) == [s] by {
          assert [s][..0] == [];
        }
        if Recent(before[0], env.now) {
          WindowKeepsRecent(before + [s], env.now);
        } else {
          WindowConcat(before, [s], env.now);
          assert Window(before, env.now) == [] by {
            assert before[..0] == [];
          }
          assert entries == [s];
        }
        r := ChargeDirection(env);
        return;
      }
      var oldEntry := entries[|entries| - Min(3, |entries|)];
      var lastCharge := entries[|entries| - 1].charge;
      if lastCharge > oldEntry.charge {
        r := Ok(1);
      } else if lastCharge < oldEntry.charge {
        r := Ok(-1);
      } else if isFullyCharged && acState.value == "1" {
        r := Ok(1);
      } else {
        r := Ok(0);
      }
    }
  }

  /** `ChargeHistory(history_file)`: load the file, then run the direction check once. */
  method Open(file: Option<string>, env: Env, codec: Codec) returns (history: ChargeHistory, r: Outcome)
    ensures fresh(history)
    ensures r.Done? <==> CheckDirection(LoadFile(file, env.now, codec), env.fs).Ok?
    ensures r.Done? ==> history.entries == CheckDirection(LoadFile(file, env.now, codec), env.fs).value
  {
    history := new ChargeHistory.Load(file, env.now, codec);
    r := history.CheckDirectionChange(env);
  }
}
