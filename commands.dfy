/** The placeholder substitution main.py applies to each catalogue command before running it:
    `~` becomes the home directory, then `$$$` becomes the script's own directory. */
module Commands {
  import opened Text

  const Tilde := "~"
  const Dollars := "$$$"

  /** `replace_tilde_with_home_directory`: every `~` becomes the home directory and every other
      character stays. */
  function ReplaceTilde(command: string, home: string): (r: string)
    ensures r == ExpandEach(command, home)
  {
    TildeIsExpandEach(command, home);
    ReplaceAll(command, Tilde, home)
  }

  /** `replace_dollars_with_current_directory`, with the directory `getAbsPath(".")` given: no
      `$$$` survives when the directory is non-empty and holds no `$`, and a command without one
      is unchanged. */
  function ReplaceDollars(command: string, directory: string): (r: string)
    ensures directory != [] && '$' !in directory ==> !Contains(r, Dollars)
    ensures !Contains(command, Dollars) ==> r == command
  {
    DollarsRemoved(command, directory);
    ReplaceAll(command, Dollars, directory)
  }

  /** The command `print_and_execute_command` runs: tildes first, then dollars. A command with
      neither placeholder runs as it is. */
  function PrepareCommand(command: string, home: string, directory: string): (r: string)
    ensures '~' !in command && !Contains(command, Dollars) ==> r == command
  {
    ExpandEachNoTilde(command, home);
    ReplaceDollars(ReplaceTilde(command, home), directory)
  }

  /** Tilde expansion written independently: each character on its own, a `~` giving the home
      directory and any other character itself. */
  function ExpandEach(command: string, home: string): (r: string) {
    if command == [] then []
    else (if command[0] == '~' then home else [command[0]]) + ExpandEach(command[1..], home)
  }

  /** `str.replace("~", home)` changes every tilde into the home directory and nothing else. */
  lemma {:induction false} TildeIsExpandEach(command: string, home: string)
    ensures ReplaceAll(command, Tilde, home) == ExpandEach(command, home)
  {
    if command != [] {
      ReplaceCharStep(command, '~', home);
      TildeIsExpandEach(command[1..], home);
    }
  }

  /** Expansion splits along any cut of the command. */
  lemma TildeConcat(a: string, b: string, home: string)
    ensures ReplaceTilde(a + b, home) == ReplaceTilde(a, home) + ReplaceTilde(b, home)
  {
    ReplaceCharConcat(a, b, '~', home);
  }

  /** No tilde survives when the home directory has none; a command without one is unchanged. */
  lemma TildeRemoved(command: string, home: string)
    ensures '~' !in home ==> '~' !in ReplaceTilde(command, home)
    ensures '~' !in command ==> ReplaceTilde(command, home) == command
  {
    if '~' !in home {
      ReplaceCharRemovesAll(command, '~', home);
    }
    ExpandEachNoTilde(command, home);
  }

  lemma {:induction false} ExpandEachNoTilde(command: string, home: string)
    ensures '~' !in command ==> ExpandEach(command, home) == command
  {
    if command != [] && '~' !in command {
      assert command[0] != '~';
      assert forall ch :: ch in command[1..] ==> ch in command;
      ExpandEachNoTilde(command[1..], home);
    }
  }

  /** `str.replace("$$$", directory)` leaves no `$$$` when the directory is non-empty and holds
      no `$`, and changes nothing in a command without one. */
  lemma DollarsRemoved(command: string, directory: string)
    ensures directory != [] && '$' !in directory ==> !Contains(ReplaceAll(command, Dollars, directory), Dollars)
    ensures !Contains(command, Dollars) ==> ReplaceAll(command, Dollars, directory) == command
  {
    if directory != [] && '$' !in directory {
      assert forall i :: 0 <= i < |directory| ==> directory[i] !in Dollars;
      ReplaceRemovesAll(command, Dollars, directory);
    }
    if !Contains(command, Dollars) {
      ReplaceAbsent(command, Dollars, directory);
    }
  }

  /** Because tildes go first, a `$$$` the home directory brings in is still replaced, and the
      prepared command holds no placeholder when neither directory holds one. */
  lemma PreparedHasNoPlaceholder(command: string, home: string, directory: string)
    requires '~' !in home && '~' !in directory
    requires directory != [] && '$' !in directory
    ensures '~' !in PrepareCommand(command, home, directory)
    ensures !Contains(PrepareCommand(command, home, directory), Dollars)
  {
    var t := ReplaceTilde(command, home);
    TildeRemoved(command, home);
    ReplaceChars(t, Dollars, directory);
  }

  /** `str.replace("$$$", directory)` scans from the left: text before the first `$$$` is copied,
      that `$$$` becomes the directory, and the rest is replaced in turn. */
  lemma {:induction false} DollarsStep(a: string, b: string, directory: string)
    requires '$' !in a
    ensures ReplaceDollars(a + Dollars + b, directory) == a + directory + ReplaceDollars(b, directory)
  {
    var s := a + Dollars + b;
    if a == [] {
      assert s == Dollars + b;
      assert s[..3] == Dollars && s[3..] == b;
    } else {
      assert s[0] == a[0] && a[0] != '$';
      assert s[..3] != Dollars;
      assert s[1..] == a[1..] + Dollars + b;
      DollarsStep(a[1..], b, directory);
      assert a == [a[0]] + a[1..];
    }
  }

  /** The dollar step comes last, so the directory takes the place of the `$$$` as it is, wherever
      the `$$$` stands in a command without tildes. */
  lemma DirectoryInsertedVerbatim(a: string, rest: string, home: string, directory: string)
    requires '~' !in a && '$' !in a
    requires '~' !in rest && !Contains(rest, Dollars)
    ensures PrepareCommand(a + Dollars + rest, home, directory) == a + directory + rest
  {
    var s := a + Dollars + rest;
    assert '~' !in s;
    ExpandEachNoTilde(s, home);
    DollarsStep(a, rest, directory);
  }
}
