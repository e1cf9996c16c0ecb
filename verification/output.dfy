/**
 * splitNagiosOutput: a plugin's output, line by line in the form `<message> [| <perf data>]`, is cut
 * into the message, the perf-data segments and the log of every non-blank line's text.
 */
module NagiosOutput {
  import opened GoStrings

  /** A line made only of white space, the empty line included. */
  predicate IsBlank(line: String)
  {
    forall k | 0 <= k < |line| :: IsSpace(line[k])
  }

  /** The loop's test: a line is skipped exactly when it is empty once trimmed. */
  lemma BlankIffTrimmedEmpty(line: String)
    ensures IsBlank(line) <==> TrimSpace(line) == []
  {
  }

  /** The log entry of a non-blank line: its trimmed text before the first '|'. */
  function LineLog(line: String): (r: String)
    ensures '|' !in r
    ensures '\n' !in line ==> '\n' !in r
  {
    var parts := Split(line, '|');
    assert parts[0] in parts;
    TrimSpace(parts[0])
  }

  /** The pieces from index lo up to hi, each trimmed, in order. */
  function TrimRange(pieces: seq<String>, lo: nat, hi: nat): (r: seq<String>)
    requires lo <= hi <= |pieces|
    ensures |r| == hi - lo
    decreases hi - lo
  {
    if hi == lo then [] else TrimRange(pieces, lo, hi - 1) + [TrimSpace(pieces[hi - 1])]
  }

  /** A trimmed piece holds only characters of the piece it comes from. */
  lemma {:induction false} TrimRangeWithin(pieces: seq<String>, lo: nat, hi: nat, c: char)
    requires lo <= hi <= |pieces|
    requires forall k | lo <= k < hi :: c !in pieces[k]
    ensures forall k | 0 <= k < hi - lo :: c !in TrimRange(pieces, lo, hi)[k]
    decreases hi - lo
  {
    if hi > lo {
      TrimRangeWithin(pieces, lo, hi - 1, c);
    }
  }

  /** The perf-data entries of a non-blank line: each trimmed segment after a '|', in order. */
  function LinePerf(line: String): (r: seq<String>)
    ensures |r| == multiset(line)['|']
  {
    var pieces := Split(line, '|');
    SplitCount(line, '|');
    TrimRange(pieces, 1, |pieces|)
  }

  /** No entry of a line holds a '|', nor a newline when the line has none. */
  lemma LinePerfClean(line: String)
    ensures forall k | 0 <= k < |LinePerf(line)| :: '|' !in LinePerf(line)[k]
    ensures '\n' !in line ==> forall k | 0 <= k < |LinePerf(line)| :: '\n' !in LinePerf(line)[k]
  {
    var pieces := Split(line, '|');
    TrimRangeWithin(pieces, 1, |pieces|, '|');
    if '\n' !in line {
      forall k | 1 <= k < |pieces| ensures '\n' !in pieces[k] {
        PieceInJoin(pieces, '|', k);
      }
      TrimRangeWithin(pieces, 1, |pieces|, '\n');
    }
  }

  /** The log entry one line contributes: none for a blank line. */
  function LineLogEntries(line: String): seq<String>
  {
    if IsBlank(line) then [] else [LineLog(line)]
  }

  /** The perf-data entries one line contributes: none for a blank line. */
  function LinePerfEntries(line: String): seq<String>
  {
    if IsBlank(line) then [] else LinePerf(line)
  }

  /** The entries of every line, in order. */
  function FlatMap(entries: String -> seq<String>, lines: seq<String>): seq<String>
  {
    if lines == [] then [] else entries(lines[0]) + FlatMap(entries, lines[1..])
  }

  /** The log: one entry per non-blank line, in order. */
  function LogOf(lines: seq<String>): seq<String>
  {
    FlatMap(LineLogEntries, lines)
  }

  /** The perf data: the entries of every non-blank line, in order. */
  function PerfOf(lines: seq<String>): seq<String>
  {
    FlatMap(LinePerfEntries, lines)
  }

  datatype PluginOutput = PluginOutput(message: String, perfData: seq<String>, log: seq<String>)

  /** What splitNagiosOutput returns: the message is the first log entry, or "" if there is none. */
  function SplitOutput(output: String): PluginOutput
  {
    var lines := Split(output, '\n');
    var log := LogOf(lines);
    PluginOutput(if |log| > 0 then log[0] else [], PerfOf(lines), log)
  }

  lemma {:induction false} FlatMapAppend(entries: String -> seq<String>, a: seq<String>, b: seq<String>)
    ensures FlatMap(entries, a + b) == FlatMap(entries, a) + FlatMap(entries, b)
    decreases |a|
  {
    if a == [] {
      assert a + b == b;
    } else {
      assert (a + b)[1..] == a[1..] + b;
      FlatMapAppend(entries, a[1..], b);
    }
  }

  /** The inner loop of splitNagiosOutput: every piece after the first, trimmed, is appended. */
  method AppendSegments(perfData: seq<String>, tokens: seq<String>) returns (r: seq<String>)
    requires |tokens| >= 1
    ensures r == perfData + TrimRange(tokens, 1, |tokens|)
  {
    r := perfData;
    var j := 1;
    while j < |tokens|
      invariant 1 <= j <= |tokens|
      invariant r == perfData + TrimRange(tokens, 1, j)
    {
      var entry := TrimSpace(tokens[j]);
      assert r + [entry] == perfData + (TrimRange(tokens, 1, j) + [entry]);
      r := r + [entry];
      j := j + 1;
    }
  }

  /** What one more line adds. */
  lemma FlatMapSnoc(entries: String -> seq<String>, lines: seq<String>, line: String)
    ensures FlatMap(entries, lines + [line]) == FlatMap(entries, lines) + entries(line)
  {
    FlatMapAppend(entries, lines, [line]);
    assert [line][1..] == [];
  }

  /** The loop of splitNagiosOutput, with its inner loop over the segments after each '|'. */
  method SplitNagiosOutput(output: String) returns (message: String, perfData: seq<String>, log: seq<String>)
    ensures PluginOutput(message, perfData, log) == SplitOutput(output)
  {
    var lines := Split(output, '\n');
    message, perfData, log := [], [], [];
    var i := 0;
    while i < |lines|
      invariant 0 <= i <= |lines|
      invariant log == LogOf(lines[..i])
      invariant perfData == PerfOf(lines[..i])
    {
      var line := lines[i];
      assert lines[..i + 1] == lines[..i] + [line];
      if TrimSpace(line) == [] {
        BlankIffTrimmedEmpty(line);
        FlatMapSnoc(LineLogEntries, lines[..i], line);
        FlatMapSnoc(LinePerfEntries, lines[..i], line);
        i := i + 1;
        continue;
      }
      var tokens := Split(line, '|');
      log := log + [TrimSpace(tokens[0])];
      perfData := AppendSegments(perfData, tokens);
      BlankIffTrimmedEmpty(line);
      FlatMapSnoc(LineLogEntries, lines[..i], line);
      FlatMapSnoc(LinePerfEntries, lines[..i], line);
      i := i + 1;
    }
    assert lines[..i] == lines;
    if |log| > 0 {
      message := log[0];
    }
  }

  // ---------------------------------------------------------------------------------------------
  // What the split promises
  // ---------------------------------------------------------------------------------------------

  /** The non-blank lines, in order. */
  function NonBlank(lines: seq<String>): (r: seq<String>)
    ensures forall l :: l in r <==> l in lines && !IsBlank(l)
  {
    if lines == [] then []
    else (if IsBlank(lines[0]) then [] else [lines[0]]) + NonBlank(lines[1..])
  }

  /** The log has one entry per non-blank line, the k-th one from the k-th non-blank line. */
  lemma {:induction false} LogPerLine(lines: seq<String>)
    ensures |LogOf(lines)| == |NonBlank(lines)|
    ensures forall k | 0 <= k < |NonBlank(lines)| :: LogOf(lines)[k] == LineLog(NonBlank(lines)[k])
    decreases |lines|
  {
    if lines != [] {
      LogPerLine(lines[1..]);
      assert LogOf(lines) == LineLogEntries(lines[0]) + LogOf(lines[1..]);
    }
  }

  /** Blank lines add nothing to the log. */
  lemma {:induction false} BlankLinesNoLog(lines: seq<String>)
    requires forall k | 0 <= k < |lines| :: IsBlank(lines[k])
    ensures LogOf(lines) == []
    decreases |lines|
  {
    if lines != [] {
      BlankLinesNoLog(lines[1..]);
    }
  }

  /** The message is the trimmed text before the first '|' of the first non-blank line. */
  lemma MessageFromFirstNonBlankLine(output: String, i: nat)
    requires i < |Split(output, '\n')|
    requires !IsBlank(Split(output, '\n')[i])
    requires forall k | 0 <= k < i :: IsBlank(Split(output, '\n')[k])
    ensures SplitOutput(output).message == TrimSpace(Split(Split(output, '\n')[i], '|')[0])
  {
    var lines := Split(output, '\n');
    assert lines == lines[..i] + lines[i..];
    FlatMapAppend(LineLogEntries, lines[..i], lines[i..]);
    BlankLinesNoLog(lines[..i]);
    assert lines[i..][0] == lines[i];
  }

  /** When every line is blank the message is empty, and so are the log and the perf data. */
  lemma AllBlankOutput(output: String)
    requires forall k | 0 <= k < |Split(output, '\n')| :: IsBlank(Split(output, '\n')[k])
    ensures SplitOutput(output) == SplitOutput("")
    ensures SplitOutput(output).message == [] && SplitOutput(output).log == []
    ensures SplitOutput(output).perfData == []
  {
    var lines := Split(output, '\n');
    BlankLinesNoLog(lines);
    BlankLinesNoPerf(lines);
    assert Split("", '\n') == [""];
    assert TrimSpace("") == [];
    assert PerfOf([""]) == [] + PerfOf([]);
  }

  lemma {:induction false} BlankLinesNoPerf(lines: seq<String>)
    requires forall k | 0 <= k < |lines| :: IsBlank(lines[k])
    ensures PerfOf(lines) == []
    decreases |lines|
  {
    if lines != [] {
      BlankLinesNoPerf(lines[1..]);
    }
  }

  /** Neither the message nor a log entry holds a '|' or a newline. */
  lemma LogIsClean(output: String)
    ensures '|' !in SplitOutput(output).message && '\n' !in SplitOutput(output).message
    ensures forall k | 0 <= k < |SplitOutput(output).log| ::
      '|' !in SplitOutput(output).log[k] && '\n' !in SplitOutput(output).log[k]
  {
    var lines := Split(output, '\n');
    LogPerLine(lines);
    forall k | 0 <= k < |LogOf(lines)| ensures '|' !in LogOf(lines)[k] && '\n' !in LogOf(lines)[k] {
      assert NonBlank(lines)[k] in NonBlank(lines);
    }
  }

  /** The number of '|'s in the lines. */
  function Bars(lines: seq<String>): nat
  {
    if lines == [] then 0 else multiset(lines[0])['|'] + Bars(lines[1..])
  }

  /** Joining lines with newlines keeps every '|'. */
  lemma {:induction false} JoinBars(lines: seq<String>)
    ensures multiset(Join(lines, '\n'))['|'] == Bars(lines)
    decreases |lines|
  {
    if |lines| > 1 {
      JoinBars(lines[1..]);
      assert multiset(Join(lines, '\n')) ==
        multiset(lines[0]) + multiset(['\n']) + multiset(Join(lines[1..], '\n'));
    } else if |lines| == 1 {
      assert lines[1..] == [];
    }
  }

  /** Every non-blank line contributes one perf-data entry per '|'; blank lines hold none. */
  lemma {:induction false} PerfPerBar(lines: seq<String>)
    ensures |PerfOf(lines)| == Bars(lines)
    decreases |lines|
  {
    if lines != [] {
      PerfPerBar(lines[1..]);
      if IsBlank(lines[0]) {
        assert !IsSpace('|');
      }
    }
  }

  /** There are exactly as many perf-data entries as '|'s in the output. */
  lemma PerfDataCount(output: String)
    ensures |SplitOutput(output).perfData| == multiset(output)['|']
  {
    var lines := Split(output, '\n');
    PerfPerBar(lines);
    JoinBars(lines);
  }

  /** Output without a '|' has no perf data. */
  lemma NoBarNoPerfData(output: String)
    requires '|' !in output
    ensures SplitOutput(output).perfData == []
  {
    PerfDataCount(output);
  }

  lemma {:induction false} PerfLinesClean(lines: seq<String>)
    requires forall k | 0 <= k < |lines| :: '\n' !in lines[k]
    ensures forall k | 0 <= k < |PerfOf(lines)| :: '|' !in PerfOf(lines)[k] && '\n' !in PerfOf(lines)[k]
    decreases |lines|
  {
    if lines != [] {
      LinePerfClean(lines[0]);
      PerfLinesClean(lines[1..]);
      assert PerfOf(lines) == LinePerfEntries(lines[0]) + PerfOf(lines[1..]);
    }
  }

  /** No perf-data entry holds a '|' or a newline. */
  lemma PerfIsClean(output: String)
    ensures forall k | 0 <= k < |SplitOutput(output).perfData| ::
      '|' !in SplitOutput(output).perfData[k] && '\n' !in SplitOutput(output).perfData[k]
  {
    PerfLinesClean(Split(output, '\n'));
  }
}
