/** Where a record ends: at the line that starts with a dot, whatever follows it on the stream. */
module Endings {
  import opened Text
  import opened Patterns
  import opened Records
  import opened Streams
  import opened Format
  import opened Parser
  import opened Protocol
  import Splits
  import Writer
  import Entries
  import RoundTrip

  /** The states in which the switch falls through to the label of the dot: all from the complete title on. */
  predicate SeesDot(at: Control)
  {
    at.state in {DiscYear, DiscGenre, TrackTitle, DiscExt, TrackExt, PlayOrder, EndDot}
    || (at.state == DiscTitle && at.multi != NoMulti)
  }

  /** A line that starts with a dot ends the record exactly in those states; before, it is passed over. */
  lemma DotStops(m: Machine, line: string)
    requires line != "" && line[0] == '.' && m.at.state != Stop
    ensures var r := Step(m, ScanLine(line));
      && r.Go? && (r.m.at.state == Stop <==> SeesDot(m.at))
      && r.m.disc == if m.at.state == DiscTitle then Close(m).disc else m.disc
  {
    ScanDot(line);
    hide ScanLine;
  }

  lemma NotStopped(m: Machine)
    requires SeesDot(m.at)
    ensures m.at.state != Stop
  {
  }

  /** A run over lines that bring the machine there ends with the dot, and leaves alone what follows. */
  lemma DotEndsRun(m: Machine, lines: seq<string>, dot: string, later: seq<string>)
    requires Splits.Steps(m, lines).Some? && SeesDot(Splits.Steps(m, lines).value.at)
    requires dot != "" && dot[0] == '.'
    ensures var all := lines + ([dot] + later); var n := Splits.Steps(m, lines).value;
      && Run(m, all).ok && Run(m, all).disc == (if n.at.state == DiscTitle then Close(n).disc else n.disc)
      && Used(m, all) == |lines| + 1
  {
    hide Step, ScanLine, SeesDot, Splits.Steps;
    var n := Splits.Steps(m, lines).value;
    Splits.RunFrom(m, lines, [dot] + later);
    Splits.UsedFrom(m, lines, [dot] + later);
    assert n.at.state != Stop by { NotStopped(n); }
    DotStops(n, dot);
  }

  /** Every record that is followed by a line with a dot is parsed as it would be alone, and nothing behind the dot is
      read. */
  lemma RecordEnds(e: DiscData, d: DiscData, cname: string, cversion: string, dot: string, later: seq<string>)
    requires e.tracks == [] && Writer.Writable(d) && RoundTrip.OffsetsSet(d)
    requires dot != "" && dot[0] == '.'
    ensures var lines := Entries.Lines(d, cname, cversion); var r := Parse(e, lines + ([dot] + later));
      && r.ok && r.disc == RoundTrip.Restored(e, d)
      && Used(Machine(INITIAL, e), lines + ([dot] + later)) == |lines| + 1
  {
    hide Run, Used, Splits.Steps, Entries.Lines, RoundTrip.Restored;
    RoundTrip.LinesRun(e, d, cname, cversion);
    DotEndsRun(Machine(INITIAL, e), Entries.Lines(d, cname, cversion), dot, later);
  }

  // --- the same on a stream

  /** A record on a stream, ended by a dot: the disc is what was written, what follows the dot is still to be read, and
      the saved lines are those of the record and the dot. */
  lemma RecordOnStream(e: DiscData, d: DiscData, cname: string, cversion: string, dot: string, later: string, size: nat)
    requires e.tracks == [] && Writer.Writable(d) && RoundTrip.OffsetsSet(d) && dot != "" && dot[0] == '.'
    requires size >= 2
    requires var all := Entries.Lines(d, cname, cversion) + [dot]; AllClean(all) && AllShort(all, size - 2)
    ensures var all := Entries.Lines(d, cname, cversion) + [dot];
      ParseStream(e, Save(all) + later, size) == Parsed(true, RoundTrip.Restored(e, d), later, Save(all))
  {
    hide Run, Used, Rest, LinesOf, Save, Entries.Lines, RoundTrip.Restored, AllClean, AllShort;
    var lines := Entries.Lines(d, cname, cversion);
    var all := lines + [dot];
    SavedThen(all, later, size);
    RestSaved(all, later, size);
    var rest := LinesOf(later, size);
    assert all + rest == lines + ([dot] + rest);
    RecordEnds(e, d, cname, cversion, dot, rest);
    assert (all + rest)[..|all|] == all;
  }
}
