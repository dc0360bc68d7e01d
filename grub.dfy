/** The rewrite `addAMDPstateToGrubConfig` makes to /etc/default/grub: unless the file already
    mentions amd_pstate, every line holding the kernel command-line key is replaced by one that
    appends the AMD P-State options to its value. Reading, writing and `update-grub` are left out. */
module Grub {
  import opened Wrappers
  import opened Text

  const GrubKey := "GRUB_CMDLINE_LINUX_DEFAULT"
  const Marker := "amd_pstate"
  /** " amd_pstate=passive initcall_blacklist=acpi_cpufreq_init amd_pstate.shared_mem=1". */
  const Extra := " " + Marker + "=passive " + "initcall_blacklist=" + "acpi_cpufreq_init " + Marker + ".shared_mem=1"

  /** Python's `s[1:-1]`: the first and last characters dropped, empty below two characters. */
  function Inner(s: string): (r: string)
    ensures |s| >= 2 ==> r == s[1..|s| - 1]
    ensures |s| < 2 ==> r == []
  {
    if |s| < 2 then "" else s[1..|s| - 1]
  }

  /** The text after the first `c`, if there is one. */
  function AfterFirst(s: string, c: char): (r: Option<string>)
    ensures r.Some? <==> c in s
    ensures r.Some? ==>
      var k := |s| - |r.value| - 1;
      0 <= k && s[k] == c && c !in s[..k] && r.value == s[k + 1..]
  {
    if s == [] then None
    else if s[0] == c then Some(s[1..])
    else
      var r := AfterFirst(s[1..], c);
      assert r.Some? ==> s[..|s| - |r.value| - 1] == [s[0]] + s[1..][..|s| - 1 - |r.value| - 1];
      r
  }

  lemma AfterFirstAt(x: string, c: char, y: string)
    requires c !in x
    ensures AfterFirst(x + [c] + y, c) == Some(y)
  {
    var s := x + [c] + y;
    assert s[|x|] == c;
    var rest := AfterFirst(s, c).value;
    var k := |s| - |rest| - 1;
    assert forall i :: 0 <= i < |x| ==> s[i] == x[i];
    assert k >= |x|;
    assert s[..k + 1][|x|] == c;
    assert k == |x|;
    assert s[|x| + 1..] == y;
  }

  /** How the source's `split("=")` splits a line: a line without `=` is one piece, and the second
      piece of any other line is the text between its first `=` and the next one. */
  lemma SplitSecond(s: string, c: char)
    ensures c !in s ==> Split(s, c) == [s]
    ensures c in s ==> |Split(s, c)| >= 2 && Split(s, c)[1] == BeforeFirst(AfterFirst(s, c).value, c)
  {
    if c in s {
      var head := AroundFirst(s, c);
      SplitSecondAt(head, c, AfterFirst(s, c).value);
    } else {
      SplitNoSeparator(s, c);
    }
  }

  /** A line holding `c` is the text before its first `c`, that `c`, and the text after it. */
  lemma AroundFirst(s: string, c: char) returns (head: string)
    requires c in s
    ensures c !in head && s == head + [c] + AfterFirst(s, c).value
  {
    var rest := AfterFirst(s, c).value;
    var k := |s| - |rest| - 1;
    head := s[..k];
    assert s == s[..k] + [s[k]] + s[k + 1..];
  }

  lemma SplitSecondAt(x: string, c: char, y: string)
    requires c !in x
    ensures |Split(x + [c] + y, c)| >= 2 && Split(x + [c] + y, c)[1] == BeforeFirst(y, c)
  {
    SplitAtFirst(x, c, y);
    SplitHead(y, c);
  }

  /** The value as the source extracts it, `line.split("=")[1][1:-1]`: IndexError exactly when the
      line has no `=`, and otherwise only the text between the first and the second `=`, with its
      first and last characters dropped. */
  function ValueAsWritten(line: string): (r: Result<string>)
    ensures r.Err? <==> '=' !in line
    ensures r.Ok? ==> r.value == Inner(BeforeFirst(AfterFirst(line, '=').value, '='))
  {
    SplitSecond(line, '=');
    var parts := Split(line, '=');
    if |parts| < 2 then Err(IndexError) else Ok(Inner(parts[1]))
  }

  /** The corrected extraction: everything after the first `=`, its first and last characters
      dropped. */
  function Value(line: string): (r: Result<string>)
    ensures r.Err? <==> '=' !in line
    ensures r.Ok? ==> r.value == Inner(AfterFirst(line, '=').value)
  {
    match AfterFirst(line, '=')
    case None => Err(IndexError)
    case Some(rest) => Ok(Inner(rest))
  }

  /** Which extraction a rewrite uses: the source's (`AsWritten`) or the corrected one. */
  datatype Extraction = AsWritten | Intended

  function Extract(e: Extraction, line: string): (r: Result<string>)
    ensures r.Err? <==> '=' !in line
  {
    match e
    case AsWritten => ValueAsWritten(line)
    case Intended => Value(line)
  }

  /** Either extraction takes its value from characters of the line. */
  lemma ExtractKeepsChars(e: Extraction, line: string)
    requires Extract(e, line).Ok?
    ensures forall ch :: ch in Extract(e, line).value ==> ch in line
  {
    var rest := AfterFirst(line, '=').value;
    assert forall ch :: ch in rest ==> ch in line;
    var v := Extract(e, line).value;
    if e == AsWritten {
      var head := BeforeFirst(rest, '=');
      assert forall ch :: ch in head ==> ch in rest;
      assert forall ch :: ch in v ==> ch in head;
    } else {
      assert forall ch :: ch in v ==> ch in rest;
    }
  }

  /** The replacement line for a value. */
  function KeyLine(value: string): string {
    GrubKey + "=\"" + value + Extra + "\""
  }

  /** One line of the loop: key lines are replaced, all others copied. A key line without `=`
      raises IndexError. */
  function RewriteLine(line: string, e: Extraction): (r: Result<string>)
    ensures !Contains(line, GrubKey) ==> r == Ok(line)
    ensures r.Err? <==> Contains(line, GrubKey) && '=' !in line
  {
    if Contains(line, GrubKey) then
      var value :- Extract(e, line);
      Ok(KeyLine(value))
    else Ok(line)
  }

  /** The loop over the lines: the rewritten lines in order, or the first line's exception. */
  function RewriteAll(lines: seq<string>, e: Extraction): (r: Result<seq<string>>)
    ensures r.Ok? ==> |r.value| == |lines| && forall i :: 0 <= i < |lines| ==> RewriteLine(lines[i], e) == Ok(r.value[i])
    ensures r.Err? ==> exists i :: 0 <= i < |lines| && RewriteLine(lines[i], e).Err?
  {
    if lines == [] then Ok([])
    else
      var init := lines[..|lines| - 1];
      assert forall i :: 0 <= i < |init| ==> init[i] == lines[i];
      match RewriteAll(init, e)
      case Err(error) => Err(error)
      case Ok(front) =>
        match RewriteLine(lines[|lines| - 1], e)
        case Err(error) => Err(error)
        case Ok(last) => Ok(front + [last])
  }

  /** One more line: its exception, or its rewrite appended. */
  lemma RewriteAllStep(lines: seq<string>, i: nat, e: Extraction)
    requires i < |lines| && RewriteAll(lines[..i], e).Ok?
    ensures RewriteLine(lines[i], e).Err? ==> RewriteAll(lines[..i + 1], e) == Err(RewriteLine(lines[i], e).error)
    ensures RewriteLine(lines[i], e).Ok? ==>
      RewriteAll(lines[..i + 1], e) == Ok(RewriteAll(lines[..i], e).value + [RewriteLine(lines[i], e).value])
  {
    assert lines[..i + 1][..i] == lines[..i];
  }

  /** The line step with the source's extraction, in the terms of its loop. */
  lemma RewriteLineAsWritten(line: string)
    ensures !Contains(line, GrubKey) ==> RewriteLine(line, AsWritten) == Ok(line)
    ensures Contains(line, GrubKey) && |Split(line, '=')| < 2 ==> RewriteLine(line, AsWritten) == Err(IndexError)
    ensures Contains(line, GrubKey) && |Split(line, '=')| >= 2 ==>
      RewriteLine(line, AsWritten) == Ok(GrubKey + "=\"" + Inner(Split(line, '=')[1]) + Extra + "\"")
  {
  }

  /** An exception on an early line is the loop's result, whatever follows. */
  lemma {:induction false} RewriteAllStopsAtError(lines: seq<string>, k: nat, e: Extraction)
    requires k <= |lines| && RewriteAll(lines[..k], e).Err?
    ensures RewriteAll(lines, e) == RewriteAll(lines[..k], e)
  {
    if k < |lines| {
      var init := lines[..|lines| - 1];
      assert init[..k] == lines[..k];
      RewriteAllStopsAtError(init, k, e);
    } else {
      assert lines[..k] == lines;
    }
  }

  /** The whole rewrite: `None` when the file already mentions amd_pstate and is left alone,
      otherwise the new file text. It fails only on a key line without `=`. */
  function GrubRewrite(text: string, e: Extraction): (r: Result<Option<string>>)
    ensures Contains(text, Marker) ==> r == Ok(None)
    ensures r.Err? ==> exists i ::
      0 <= i < |Split(text, '\n')| && Contains(Split(text, '\n')[i], GrubKey) && '=' !in Split(text, '\n')[i]
  {
    if Contains(text, Marker) then Ok(None)
    else
      var lines :- RewriteAll(Split(text, '\n'), e);
      Ok(Some(Join(lines, '\n')))
  }

  /** The file's text after the rewrite, whichever way it went. */
  function GrubAfter(text: string, e: Extraction): string
    requires GrubRewrite(text, e).Ok?
  {
    match GrubRewrite(text, e).value
    case None => text
    case Some(t) => t
  }

  /** `addAMDPstateToGrubConfig`'s loop, building the lines one by one with the source's
      extraction. */
  method RewriteGrubConfig(text: string) returns (r: Result<Option<string>>)
    ensures r == GrubRewrite(text, AsWritten)
  {
    if Contains(text, Marker) {
      return Ok(None);
    }
    var lines := Split(text, '\n');
    var reconstructed: seq<string> := [];
    var i := 0;
    while i < |lines|
      invariant 0 <= i <= |lines|
      invariant RewriteAll(lines[..i], AsWritten) == Ok(reconstructed)
    {
      var line := lines[i];
      RewriteAllStep(lines, i, AsWritten);
      RewriteLineAsWritten(line);
      if Contains(line, GrubKey) {
        var parts := Split(line, '=');
        if |parts| < 2 {
          RewriteAllStopsAtError(lines, i + 1, AsWritten);
          return Err(IndexError);
        }
        var value := Inner(parts[1]);
        reconstructed := reconstructed + [GrubKey + "=\"" + value + Extra + "\""];
      } else {
        reconstructed := reconstructed + [line];
      }
      i := i + 1;
    }
    assert lines[..|lines|] == lines;
    return Ok(Some(Join(reconstructed, '\n')));
  }

  // ---- Properties ----

  lemma NoNewlineInPieces()
    ensures '\n' !in "=passive " && '\n' !in "initcall_blacklist=" && '\n' !in "acpi_cpufreq_init "
    ensures '\n' !in Marker && '\n' !in ".shared_mem=1" && '\n' !in " "
  {
  }

  lemma NoNewlineInConstants()
    ensures '\n' !in GrubKey && '\n' !in Extra
    ensures '=' !in GrubKey
  {
    NoNewlineInPieces();
  }

  /** A rewritten line is a single line. */
  lemma RewriteLineIsOneLine(line: string, e: Extraction)
    requires '\n' !in line && RewriteLine(line, e).Ok?
    ensures '\n' !in RewriteLine(line, e).value
  {
    if Contains(line, GrubKey) {
      var v := Extract(e, line).value;
      ExtractKeepsChars(e, line);
      NoNewlineInConstants();
      assert KeyLine(v) == GrubKey + "=\"" + v + Extra + "\"";
    }
  }

  /** The rewrite keeps the number of lines, copies every line without the key, and gives every
      key line its extracted value followed by the P-State options. As written the value is the
      text between the line's first and second `=`; corrected it is all the text after the first. */
  lemma RewriteIsLineWise(text: string, e: Extraction)
    requires GrubRewrite(text, e).Ok? && GrubRewrite(text, e).value.Some?
    ensures var before := Split(text, '\n'); var after := Split(GrubRewrite(text, e).value.value, '\n');
      && |after| == |before|
      && (forall i :: 0 <= i < |before| && !Contains(before[i], GrubKey) ==> after[i] == before[i])
      && (forall i :: 0 <= i < |before| && Contains(before[i], GrubKey) ==>
            '=' in before[i] && after[i] == KeyLine(Extract(e, before[i]).value))
      && (e == AsWritten ==> forall i :: 0 <= i < |before| && Contains(before[i], GrubKey) ==>
            after[i] == KeyLine(Inner(BeforeFirst(AfterFirst(before[i], '=').value, '='))))
      && (e == Intended ==> forall i :: 0 <= i < |before| && Contains(before[i], GrubKey) ==>
            after[i] == KeyLine(Inner(AfterFirst(before[i], '=').value)))
  {
    var before := Split(text, '\n');
    var lines := RewriteAll(before, e).value;
    RewrittenLines(text, e);
    assert forall i :: 0 <= i < |before| ==> RewriteLine(before[i], e) == Ok(lines[i]);
  }

  /** Splitting the rewritten text gives back the rewritten lines. */
  lemma RewrittenLines(text: string, e: Extraction)
    requires GrubRewrite(text, e).Ok? && GrubRewrite(text, e).value.Some?
    ensures RewriteAll(Split(text, '\n'), e).Ok?
    ensures Split(GrubRewrite(text, e).value.value, '\n') == RewriteAll(Split(text, '\n'), e).value
  {
    var before := Split(text, '\n');
    var lines := RewriteAll(before, e).value;
    SplitPieces(text, '\n');
    assert forall i :: 0 <= i < |lines| ==> '\n' !in lines[i] by {
      forall i | 0 <= i < |lines|
        ensures '\n' !in lines[i]
      {
        RewriteLineIsOneLine(before[i], e);
      }
    }
    SplitJoin(lines, '\n');
  }

  /** A key line written by the rewrite mentions amd_pstate. */
  lemma KeyLineHasMarker(v: string)
    ensures Contains(KeyLine(v), Marker)
  {
    ContainsItself(Marker);
    var tail := "=passive " + "initcall_blacklist=" + "acpi_cpufreq_init " + Marker + ".shared_mem=1";
    ContainsInside(" ", Marker, tail, Marker);
    assert Extra == " " + Marker + tail;
    ContainsInside(GrubKey + "=\"" + v, Extra, "\"", Marker);
    assert KeyLine(v) == GrubKey + "=\"" + v + Extra + "\"";
  }

  lemma {:induction false} JoinContains(parts: seq<string>, c: char, i: nat, sub: string)
    requires i < |parts| && Contains(parts[i], sub)
    ensures Contains(Join(parts, c), sub)
  {
    if |parts| == 1 {
    } else if i == 0 {
      ContainsAppend(parts[0], [c] + Join(parts[1..], c), sub);
      assert Join(parts, c) == parts[0] + ([c] + Join(parts[1..], c));
    } else {
      JoinContains(parts[1..], c, i - 1, sub);
      ContainsPrepend(parts[0] + [c], Join(parts[1..], c), sub);
    }
  }

  /** Running the rewrite on its own output changes nothing, with either extraction: a file that
      had a key line now mentions amd_pstate, and a file without one was copied as it was. */
  lemma RewriteIsIdempotent(text: string, e: Extraction)
    requires GrubRewrite(text, e).Ok?
    ensures GrubRewrite(GrubAfter(text, e), e).Ok?
    ensures GrubAfter(GrubAfter(text, e), e) == GrubAfter(text, e)
  {
    if GrubRewrite(text, e).value.Some? {
      var before := Split(text, '\n');
      var lines := RewriteAll(before, e).value;
      if i :| 0 <= i < |before| && Contains(before[i], GrubKey) {
        KeyLineHasMarker(Extract(e, before[i]).value);
        JoinContains(lines, '\n', i, Marker);
      } else {
        assert lines == before;
        JoinSplit(text, '\n');
      }
    }
  }

  // ---- The value extraction as written ----

  /** For a quoted value without `=` the source's extraction and the intended one agree. */
  lemma ExtractionsAgreeWithoutEquals(v: string)
    requires '=' !in v
    ensures ValueAsWritten(GrubKey + "=\"" + v + "\"") == Ok(v)
    ensures Value(GrubKey + "=\"" + v + "\"") == Ok(v)
  {
    NoNewlineInConstants();
    var q := "\"" + v + "\"";
    assert GrubKey + "=\"" + v + "\"" == GrubKey + ['='] + q;
    SplitAtFirst(GrubKey, '=', q);
    assert '=' !in q;
    SplitNoSeparator(q, '=');
    AfterFirstAt(GrubKey, '=', q);
  }

  /** The line `GRUB_CMDLINE_LINUX_DEFAULT="a=b"`. */
  function TwoEqualsLine(a: string, b: string): string {
    GrubKey + "=\"" + a + "=" + b + "\""
  }

  lemma TwoEqualsLineShape(a: string, b: string)
    ensures TwoEqualsLine(a, b) == GrubKey + ['='] + (("\"" + a) + ['='] + (b + "\""))
  {
  }

  /** As written, only the text before the second `=` survives, and the slice drops its last
      character. */
  lemma AsWrittenValueOfTwoEquals(a: string, b: string)
    requires '=' !in a && '=' !in b
    ensures ValueAsWritten(TwoEqualsLine(a, b)) == Ok(Inner("\"" + a))
  {
    NoNewlineInConstants();
    var q, t := "\"" + a, b + "\"";
    TwoEqualsLineShape(a, b);
    SplitAtFirst(GrubKey, '=', q + ['='] + t);
    SplitAtFirst(q, '=', t);
  }

  /** The intended extraction keeps the whole quoted value. */
  lemma ValueOfTwoEquals(a: string, b: string)
    requires '=' !in a && '=' !in b
    ensures Value(TwoEqualsLine(a, b)) == Ok(a + "=" + b)
  {
    var v := a + "=" + b;
    assert TwoEqualsLine(a, b) == GrubKey + "=\"" + v + "\"";
    ValueOfKeyLine(v);
  }

  /** The corrected extraction of a key line takes everything after the key's `=`. */
  lemma ValueAfterKey(rest: string)
    ensures Value(GrubKey + ['='] + rest) == Ok(Inner(rest))
  {
    NoNewlineInConstants();
    AfterFirstAt(GrubKey, '=', rest);
  }

  /** The corrected extraction gives back any quoted value, `=` signs and all. */
  lemma ValueOfKeyLine(v: string)
    ensures Value(GrubKey + "=\"" + v + "\"") == Ok(v)
  {
    var rest := "\"" + v + "\"";
    assert GrubKey + "=\"" + v + "\"" == GrubKey + ['='] + rest;
    ValueAfterKey(rest);
    InnerOfQuoted(v);
  }

  /** Dropping the first and last characters of a quoted text gives the text. */
  lemma InnerOfQuoted(v: string)
    ensures Inner("\"" + v + "\"") == v
  {
    var q := "\"" + v + "\"";
    assert q[1..|q| - 1] == v;
  }

  /** The source keeps only the text before a second `=`: a value `a=b` in quotes comes back as
      `a` with its last character dropped by the `[1:-1]` slice, while the intended extraction
      gives `a=b`. */
  lemma AsWrittenTruncatesAtSecondEquals(a: string, b: string)
    requires '=' !in a && '=' !in b
    ensures ValueAsWritten(TwoEqualsLine(a, b)) == Ok(Inner("\"" + a))
    ensures Value(TwoEqualsLine(a, b)) == Ok(a + "=" + b)
    ensures ValueAsWritten(TwoEqualsLine(a, b)) != Value(TwoEqualsLine(a, b))
  {
    AsWrittenValueOfTwoEquals(a, b);
    ValueOfTwoEquals(a, b);
    assert |Inner("\"" + a)| < |a + "=" + b|;
  }
}
