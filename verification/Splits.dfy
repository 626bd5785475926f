/** Values cut over several lines. However a DTITLE or TTITLE value is cut into consecutive lines, the
    parser finds the same artist and title as in the whole value, exactly when one line holds the only
    delimiter; extended data is simply put together again. */
module Splits {
  import opened Text
  import opened Patterns
  import opened Records
  import opened Parser
  import opened Format

  // --- running over a known stretch of lines

  /** The machine after all of the lines, if it accepts them and does not stop. */
  function Steps(m: Machine, lines: seq<string>): Option<Machine>
    decreases |lines|
  {
    if lines == [] then Some(m)
    else match Step(m, ScanLine(lines[0]))
      case Fail(_) => None
      case Go(m') => if m'.at.state == Stop then None else Steps(m', lines[1..])
  }

  lemma {:induction false} RunFrom(m: Machine, lines: seq<string>, rest: seq<string>)
    requires Steps(m, lines).Some?
    ensures Run(m, lines + rest) == Run(Steps(m, lines).value, rest)
    decreases |lines|
  {
    hide Step;
    if lines == [] {
      assert lines + rest == rest;
    } else {
      assert (lines + rest)[1..] == lines[1..] + rest;
      RunFrom(Step(m, ScanLine(lines[0])).m, lines[1..], rest);
    }
  }

  lemma {:induction false} UsedFrom(m: Machine, lines: seq<string>, rest: seq<string>)
    requires Steps(m, lines).Some?
    ensures Used(m, lines + rest) == |lines| + Used(Steps(m, lines).value, rest)
    decreases |lines|
  {
    hide Step;
    if lines == [] {
      assert lines + rest == rest;
    } else {
      assert (lines + rest)[1..] == lines[1..] + rest;
      UsedFrom(Step(m, ScanLine(lines[0])).m, lines[1..], rest);
    }
  }

  lemma {:induction false} StepsJoin(m: Machine, a: seq<string>, b: seq<string>)
    requires Steps(m, a).Some?
    ensures Steps(m, a + b) == Steps(Steps(m, a).value, b)
    decreases |a|
  {
    hide Step;
    if a == [] {
      assert a + b == b;
    } else {
      assert (a + b)[1..] == a[1..] + b;
      StepsJoin(Step(m, ScanLine(a[0])).m, a[1..], b);
    }
  }

  lemma StepsOne(m: Machine, line: string, m': Machine)
    requires Step(m, ScanLine(line)) == Go(m') && m'.at.state != Stop
    ensures Steps(m, [line]) == Some(m')
  {
    hide Step;
    assert Steps(m', []) == Some(m');
    assert [line][1..] == [];
  }

  // --- pieces

  function Concat(ps: seq<string>): string
  {
    if ps == [] then "" else ps[0] + Concat(ps[1..])
  }

  /** How many pieces hold a delimiter. */
  function Delimiters(ps: seq<string>): nat
  {
    if ps == [] then 0 else (if HasDelimiter(ps[0]) then 1 else 0) + Delimiters(ps[1..])
  }

  /** What is read as the title after the first piece with a delimiter, all later ones included. */
  function TitleAfter(ps: seq<string>): string
  {
    if ps == [] then ""
    else match Split(ps[0])
      case Both(_, t) => t + Concat(ps[1..])
      case Only(_) => TitleAfter(ps[1..])
  }

  /** The pieces leave the delimiter whole: one of them holds it, and no other delimiter comes to be
      after it, within the title or across a cut; or there is none anywhere. */
  predicate DelimiterWhole(ps: seq<string>)
  {
    if Delimiters(ps) == 0 then !HasDelimiter(Concat(ps))
    else Delimiters(ps) == 1 && SplitsBack(TitleAfter(ps))
  }

  /** Artist and title as they stand, against what one line would have given: the whole text counts as
      `alone` if it holds no delimiter. */
  predicate AsOneLine(artist: Str, title: Str, whole: string, alone: (Str, Str))
  {
    match Split(whole)
    case Both(a, t) => artist == Some(a) && title == Some(t)
    case Only(_) => (artist, title) == alone
  }

  // --- the title of the disc

  function DiscPieces(d: DiscData, multi: Multi, ps: seq<string>): (DiscData, Multi)
    decreases |ps|
  {
    if ps == [] then (d, multi)
    else var (d', multi') := AddDiscTitle(d, multi, Split(ps[0])); DiscPieces(d', multi', ps[1..])
  }

  lemma {:induction false} DiscTail(d: DiscData, ps: seq<string>)
    requires d.artist.Some? && d.title.Some?
    ensures var r := DiscPieces(d, MultiTitle, ps).0;
      && DiscPieces(d, MultiTitle, ps).1 == MultiTitle
      && r == d.(artist := r.artist, title := r.title) && r.artist.Some? && r.title.Some?
      && |r.artist.value| + |r.title.value| + 3 * Delimiters(ps)
         == |d.artist.value| + |d.title.value| + |Concat(ps)|
      && (Delimiters(ps) == 0 ==>
            r.artist == d.artist && r.title.value == d.title.value + Concat(ps))
    decreases |ps|
  {
    hide Split, HasDelimiter;
    if ps != [] {
      var (d', _) := AddDiscTitle(d, MultiTitle, Split(ps[0]));
      DiscTail(d', ps[1..]);
      if Delimiters(ps) == 0 {
        assert d.title.value + Concat(ps) == d.title.value + ps[0] + Concat(ps[1..]);
      }
    }
  }

  lemma Regroup0(before: string, x: string, after: string)
    ensures before + (x + after) == (before + x) + after
  {
  }

  lemma Regroup(before: string, a: string, t: string, after: string)
    ensures before + ((a + DELIMITER + t) + after) == before + a + DELIMITER + (t + after)
  {
  }

  /** What the pieces leave in a disc that had no title: without a delimiter they all go to the artist; with one
      delimiter, it splits the text of all of them; with more, some text is lost. */
  ghost predicate DiscRead(d: DiscData, multi: Multi, ps: seq<string>)
  {
    var r, k := DiscPieces(d, multi, ps).0, Delimiters(ps);
    && r == d.(artist := r.artist, title := r.title) && r.artist.Some?
    && (k == 0 ==> r.artist == Some(OrEmpty(d.artist) + Concat(ps)) && r.title == None)
    && (k > 0 ==> r.title.Some?)
    && (k > 0 ==> |r.artist.value| + |r.title.value| + 3 * k == |OrEmpty(d.artist)| + |Concat(ps)|)
    && (k == 1 ==> r.title == Some(TitleAfter(ps)))
    && (k == 1 ==> r.artist.value + DELIMITER + TitleAfter(ps) == OrEmpty(d.artist) + Concat(ps))
  }

  lemma DiscReadOnly(d: DiscData, multi: Multi, ps: seq<string>)
    requires d.title == None && multi != MultiTitle && ps != [] && Split(ps[0]).Only?
    requires var (d', multi') := AddDiscTitle(d, multi, Split(ps[0])); DiscRead(d', multi', ps[1..])
    ensures DiscRead(d, multi, ps)
  {
    hide Split, HasDelimiter;
    var x := ps[0];
    assert "" + x == x;
    assert AddDiscTitle(d, multi, Split(x)).0.artist == Some(OrEmpty(d.artist) + x);
    Regroup0(OrEmpty(d.artist), x, Concat(ps[1..]));
  }

  lemma DiscReadBoth(d: DiscData, multi: Multi, ps: seq<string>)
    requires d.title == None && multi != MultiTitle && ps != [] && Split(ps[0]).Both?
    ensures DiscRead(d, multi, ps)
  {
    hide Split, HasDelimiter;
    var (d', _) := AddDiscTitle(d, multi, Split(ps[0]));
    DiscTail(d', ps[1..]);
    Regroup(OrEmpty(d.artist), Split(ps[0]).artist, Split(ps[0]).title, Concat(ps[1..]));
  }

  lemma {:induction false} DiscHead(d: DiscData, multi: Multi, ps: seq<string>)
    requires d.title == None && multi != MultiTitle && (ps == [] ==> d.artist.Some?)
    ensures DiscRead(d, multi, ps)
    decreases |ps|
  {
    if ps == [] {
      assert OrEmpty(d.artist) + "" == d.artist.value;
    } else {
      hide Split, DiscRead;
      if Split(ps[0]).Only? {
        var (d', multi') := AddDiscTitle(d, multi, Split(ps[0]));
        DiscHead(d', multi', ps[1..]);
        DiscReadOnly(d, multi, ps);
      } else {
        DiscReadBoth(d, multi, ps);
      }
    }
  }

  /** A disc title cut into pieces reads as the whole exactly when the delimiter stays whole. */
  lemma DiscTitlePieces(d: DiscData, ps: seq<string>)
    requires ps != []
    ensures var r := DiscPieces(d.(artist := None, title := None), NoMulti, ps).0;
      && r == d.(artist := r.artist, title := r.title) && r.artist.Some?
      && (Delimiters(ps) == 0 ==> r.artist == Some(Concat(ps))) && (r.title.Some? <==> Delimiters(ps) > 0)
      && (AsOneLine(r.artist, r.title, Concat(ps), (Some(Concat(ps)), None)) <==> DelimiterWhole(ps))
  {
    var c := d.(artist := None, title := None);
    DiscHead(c, NoMulti, ps);
    var r := DiscPieces(c, NoMulti, ps).0;
    assert OrEmpty(None) + Concat(ps) == Concat(ps);
    if Delimiters(ps) == 1 { SplitJoin(r.artist.value, TitleAfter(ps)); }
  }

  // --- the title of a track

  function TrackPieces(t: TrackData, multi: Multi, ps: seq<string>): (TrackData, Multi)
    decreases |ps|
  {
    if ps == [] then (t, multi)
    else var (t', multi') := AddTrackTitle(t, multi, Split(ps[0])); TrackPieces(t', multi', ps[1..])
  }

  lemma {:induction false} TrackTail(t: TrackData, multi: Multi, ps: seq<string>)
    requires t.artist.Some? && t.title.Some?
    ensures var r := TrackPieces(t, multi, ps).0;
      && r == t.(artist := r.artist, title := r.title) && r.artist.Some? && r.title.Some?
      && |r.artist.value| + |r.title.value| + 3 * Delimiters(ps)
         <= |t.artist.value| + |t.title.value| + |Concat(ps)|
      && (Delimiters(ps) == 0 ==>
            r.artist == t.artist && r.title.value == t.title.value + Concat(ps))
    decreases |ps|
  {
    hide Split, HasDelimiter;
    if ps != [] {
      var (t', multi') := AddTrackTitle(t, multi, Split(ps[0]));
      TrackTail(t', multi', ps[1..]);
      if Delimiters(ps) == 0 {
        assert t.title.value + Concat(ps) == t.title.value + ps[0] + Concat(ps[1..]);
      }
    }
  }

  /** The same for a track, where text without a delimiter goes to the title. */
  ghost predicate TrackRead(t: TrackData, multi: Multi, ps: seq<string>)
  {
    var r, k := TrackPieces(t, multi, ps).0, Delimiters(ps);
    && r == t.(artist := r.artist, title := r.title) && r.title.Some?
    && (k == 0 ==> r.artist == None && r.title == Some(OrEmpty(t.title) + Concat(ps)))
    && (k > 0 ==> r.artist.Some?)
    && (k > 0 ==> |r.artist.value| + |r.title.value| + 3 * k <= |OrEmpty(t.title)| + |Concat(ps)|)
    && (k == 1 ==> r.title == Some(TitleAfter(ps)))
    && (k == 1 ==> r.artist.value + DELIMITER + TitleAfter(ps) == OrEmpty(t.title) + Concat(ps))
  }

  lemma TrackReadOnly(t: TrackData, multi: Multi, ps: seq<string>)
    requires t.artist == None && ps != [] && Split(ps[0]).Only?
    requires var (t', multi') := AddTrackTitle(t, multi, Split(ps[0])); TrackRead(t', multi', ps[1..])
    ensures TrackRead(t, multi, ps)
  {
    hide Split, HasDelimiter;
    var x := ps[0];
    assert "" + x == x;
    assert AddTrackTitle(t, multi, Split(x)).0.title == Some(OrEmpty(t.title) + x);
    Regroup0(OrEmpty(t.title), x, Concat(ps[1..]));
  }

  lemma TrackReadBoth(t: TrackData, multi: Multi, ps: seq<string>)
    requires t.artist == None && ps != [] && Split(ps[0]).Both?
    ensures TrackRead(t, multi, ps)
  {
    hide Split, HasDelimiter;
    var (t', multi') := AddTrackTitle(t, multi, Split(ps[0]));
    TrackTail(t', multi', ps[1..]);
    Regroup(OrEmpty(t.title), Split(ps[0]).artist, Split(ps[0]).title, Concat(ps[1..]));
  }

  lemma {:induction false} TrackHead(t: TrackData, multi: Multi, ps: seq<string>)
    requires t.artist == None && (ps == [] ==> t.title.Some?)
    ensures TrackRead(t, multi, ps)
    decreases |ps|
  {
    if ps == [] {
      assert OrEmpty(t.title) + "" == t.title.value;
    } else {
      hide Split, TrackRead;
      if Split(ps[0]).Only? {
        var (t', multi') := AddTrackTitle(t, multi, Split(ps[0]));
        TrackHead(t', multi', ps[1..]);
        TrackReadOnly(t, multi, ps);
      } else {
        TrackReadBoth(t, multi, ps);
      }
    }
  }

  /** A track title cut into pieces reads as the whole exactly when the delimiter stays whole; one
      without a delimiter is a title only. */
  lemma TrackTitlePieces(t: TrackData, multi: Multi, ps: seq<string>)
    requires ps != []
    ensures var r := TrackPieces(t.(artist := None, title := None), multi, ps).0;
      && r == t.(artist := r.artist, title := r.title)
      && (AsOneLine(r.artist, r.title, Concat(ps), (None, Some(Concat(ps)))) <==> DelimiterWhole(ps))
  {
    var c := t.(artist := None, title := None);
    TrackHead(c, multi, ps);
    var r := TrackPieces(c, multi, ps).0;
    assert OrEmpty(None) + Concat(ps) == Concat(ps);
    if Delimiters(ps) == 1 { SplitJoin(r.artist.value, TitleAfter(ps)); }
  }

  // --- the pieces as lines

  function DTitleLines(ps: seq<string>): (r: seq<string>)
    ensures |r| == |ps|
  {
    if ps == [] then [] else [DTitleLine(ps[0])] + DTitleLines(ps[1..])
  }

  function TTitleLines(n: nat, ps: seq<string>): (r: seq<string>)
    ensures |r| == |ps|
  {
    if ps == [] then [] else [TTitleLine(n, ps[0])] + TTitleLines(n, ps[1..])
  }

  function ExtDLines(ps: seq<string>): (r: seq<string>)
    ensures |r| == |ps|
  {
    if ps == [] then [] else [ExtDLine(ps[0])] + ExtDLines(ps[1..])
  }

  function ExtTLines(n: nat, ps: seq<string>): (r: seq<string>)
    ensures |r| == |ps|
  {
    if ps == [] then [] else [ExtTLine(n, ps[0])] + ExtTLines(n, ps[1..])
  }

  lemma DTitleStep(m: Machine, x: string)
    requires m.at.state == DiscTitle && m.at.multi in {MultiArtist, MultiTitle}
    ensures var (d, multi) := AddDiscTitle(m.disc, m.at.multi, Split(x));
      Step(m, ScanLine(DTitleLine(x))) == Go(Machine(m.at.(multi := multi), d)) && multi in {MultiArtist, MultiTitle}
  {
    ScanDTitle(x);
    hide ScanLine, DTitleLine, Split;
  }

  lemma {:induction false} MoreDTitles(m: Machine, ps: seq<string>)
    requires m.at.state == DiscTitle && m.at.multi in {MultiArtist, MultiTitle}
    ensures var (d, multi) := DiscPieces(m.disc, m.at.multi, ps);
      Steps(m, DTitleLines(ps)) == Some(Machine(m.at.(multi := multi), d))
      && multi in {MultiArtist, MultiTitle}
    decreases |ps|
  {
    if ps != [] {
      DTitleStep(m, ps[0]);
      hide ScanLine, DTitleLine, Step, Split, AddDiscTitle;
      var (d, multi) := AddDiscTitle(m.disc, m.at.multi, Split(ps[0]));
      assert DTitleLines(ps)[1..] == DTitleLines(ps[1..]);
      MoreDTitles(Machine(m.at.(multi := multi), d), ps[1..]);
    }
  }

  /** DTITLE lines that start a title: what the disc held before is gone, artist and title are as in
      one line exactly when the delimiter stays whole, and nothing else changes. */
  lemma DTitleRun(m: Machine, ps: seq<string>)
    requires m.at.state == DiscTitle && m.at.multi == NoMulti && ps != []
    ensures var r := Steps(m, DTitleLines(ps));
      && r.Some? && r.value.at == m.at.(multi := r.value.at.multi) && r.value.at.multi in {MultiArtist, MultiTitle}
      && r.value.disc == m.disc.(artist := r.value.disc.artist, title := r.value.disc.title)
      && r.value.disc.artist.Some? && (Delimiters(ps) == 0 ==> r.value.disc.artist == Some(Concat(ps)))
      && (r.value.disc.title.Some? <==> Delimiters(ps) > 0)
      && (AsOneLine(r.value.disc.artist, r.value.disc.title, Concat(ps), (Some(Concat(ps)), None))
          <==> DelimiterWhole(ps))
  {
    var c := m.disc.(artist := None, title := None);
    ScanDTitle(ps[0]);
    DiscTitlePieces(m.disc, ps);
    hide ScanLine, DTitleLine, Split, AsOneLine, DelimiterWhole;
    var (d, multi) := AddDiscTitle(c, NoMulti, Split(ps[0]));
    var n := Machine(m.at.(multi := multi), d);
    assert Step(m, ScanLine(DTitleLine(ps[0]))) == Go(n);
    assert DTitleLines(ps)[1..] == DTitleLines(ps[1..]);
    MoreDTitles(n, ps[1..]);
  }

  // --- what a parse leaves of the title of the disc

  /** No title of the disc is being read, and none was begun that still lacks its next line. */
  predicate NamesClosed(at: Control)
  {
    Rank(at.state) > Rank(DiscTitle) || (at.state == DiscTitle && at.multi == NoMulti)
  }

  /** The disc after one line, accepted or not. */
  function DiscAfter(m: Machine, s: Scan): DiscData
  {
    match Step(m, s) case Go(n) => n.disc case Fail(d) => d
  }

  /** Such a line has one of the later effects, or none. */
  lemma NamesEffect(at: Control, s: Scan)
    requires at.state != Stop && Rank(at.state) >= Rank(DiscTitle) && s.dtitle == None
    ensures !EffectOf(at, s).Heading? && !EffectOf(at, s).Offset? && !EffectOf(at, s).Length?
    ensures !EffectOf(at, s).Revision? && !EffectOf(at, s).DTitle?
  {
  }

  /** A line without a DTITLE value closes the title that is being read, and leaves it alone from then on. */
  lemma NamesClose(m: Machine, s: Scan)
    requires Steady(m) && m.at.state != Stop && Rank(m.at.state) >= Rank(DiscTitle) && s.dtitle == None
    ensures var d := DiscAfter(m, s);
      d.artist == m.disc.artist && d.title == (if NamesClosed(m.at) then m.disc else FixTitle(m.disc)).title
    ensures Step(m, s).Go? ==> NamesClosed(Step(m, s).m.at) && Steady(Step(m, s).m)
  {
    hide Step, Steady, AddExt, TitledTrack, ExtendedTrack, SetOffset, EffectOf;
    StepIsTable(m, s);
    NamesEffect(m.at, s);
  }

  predicate NoDTitle(lines: seq<string>)
  {
    forall k :: 0 <= k < |lines| ==> ScanLine(lines[k]).dtitle == None
  }

  lemma ClosedRank(m: Machine)
    requires NamesClosed(m.at)
    ensures Rank(m.at.state) >= Rank(DiscTitle)
  {
  }

  lemma {:induction false} NamesStay(m: Machine, rest: seq<string>)
    requires Steady(m) && m.at.state != Stop && NamesClosed(m.at) && NoDTitle(rest)
    ensures Run(m, rest).disc.artist == m.disc.artist && Run(m, rest).disc.title == m.disc.title
    decreases |rest|
  {
    hide Step, ScanLine, Steady, NamesClosed;
    if rest != [] {
      ClosedRank(m);
      NamesClose(m, ScanLine(rest[0]));
      if Step(m, ScanLine(rest[0])).Go? && Step(m, ScanLine(rest[0])).m.at.state != Stop {
        NamesStay(Step(m, ScanLine(rest[0])).m, rest[1..]);
      }
    }
  }

  /** What a run leaves when it starts within the title of the disc. */
  lemma NamesFixed(m: Machine, rest: seq<string>)
    requires Steady(m) && m.at.state == DiscTitle && m.at.multi != NoMulti && NoDTitle(rest)
    ensures Run(m, rest).disc.artist == m.disc.artist
    ensures Run(m, rest).disc.title == (if rest == [] then m.disc else FixTitle(m.disc)).title
  {
    hide ScanLine, Step, Steady, FixTitle;
    if rest != [] {
      var s := ScanLine(rest[0]);
      NamesClose(m, s);
      if Step(m, s).Go? && Step(m, s).m.at.state != Stop {
        NamesStay(Step(m, s).m, rest[1..]);
      }
    }
  }

  lemma StillSteady(m: Machine, n: Machine)
    requires Steady(m) && m.at.state == DiscTitle && n.at == m.at.(multi := n.at.multi)
    requires n.at.multi in {MultiArtist, MultiTitle}
    ensures Steady(n)
  {
  }

  /** After the DTITLE lines of a record, the artist is the one read, and the title is the one read if there was a
      delimiter; if there was none, it is the artist when another line follows, whatever line that is, and unset
      when none does. */
  lemma TitleOutcome(m: Machine, ps: seq<string>, rest: seq<string>)
    requires Steady(m) && m.at.state == DiscTitle && m.at.multi == NoMulti && ps != [] && NoDTitle(rest)
    ensures Steps(m, DTitleLines(ps)).Some?
    ensures var t := Steps(m, DTitleLines(ps)).value.disc; var r := Run(m, DTitleLines(ps) + rest).disc;
      && r.artist == t.artist
      && r.title == if Delimiters(ps) == 0 && rest != [] then t.artist else t.title
  {
    hide ScanLine, DTitleLines, AsOneLine, DelimiterWhole, Step, Steps, Run, Delimiters, Steady, NoDTitle;
    DTitleRun(m, ps);
    RunFrom(m, DTitleLines(ps), rest);
    var n := Steps(m, DTitleLines(ps)).value;
    StillSteady(m, n);
    NamesFixed(n, rest);
  }

  /** A disc title without a delimiter ends up as artist and title exactly when some line follows it. */
  lemma LoneTitle(m: Machine, ps: seq<string>, rest: seq<string>)
    requires Steady(m) && m.at.state == DiscTitle && m.at.multi == NoMulti && ps != [] && NoDTitle(rest)
    requires Delimiters(ps) == 0
    ensures var r := Run(m, DTitleLines(ps) + rest).disc;
      r.artist == Some(Concat(ps)) && r.title == if rest != [] then Some(Concat(ps)) else None
  {
    hide Steady, Run, Steps, NoDTitle, DTitleLines;
    DTitleRun(m, ps);
    TitleOutcome(m, ps, rest);
  }

  lemma TTitleMore(m: Machine, n: nat, x: string)
    requires m.at.state == TrackTitle && m.at.oldNo == n < |m.disc.tracks| && m.at.trackNo == n
    ensures var (t, multi) := AddTrackTitle(m.disc.tracks[n], m.at.multi, Split(x));
      Step(m, ScanLine(TTitleLine(n, x))) ==
        Go(Machine(m.at.(multi := multi), m.disc.(tracks := m.disc.tracks[n := t])))
  {
    hide ScanLine, TTitleLine, Split, AddTrackTitle;
    ScanTTitle(n, x);
  }

  lemma {:induction false} MoreTTitles(m: Machine, n: nat, ps: seq<string>)
    requires m.at.state == TrackTitle && m.at.oldNo == n < |m.disc.tracks| && m.at.trackNo == n
    ensures var (t, multi) := TrackPieces(m.disc.tracks[n], m.at.multi, ps);
      Steps(m, TTitleLines(n, ps)) ==
        Some(Machine(m.at.(multi := multi), m.disc.(tracks := m.disc.tracks[n := t])))
    decreases |ps|
  {
    hide ScanLine, TTitleLine, Split, Step, AddTrackTitle;
    if ps == [] {
      assert m.disc.tracks[n := m.disc.tracks[n]] == m.disc.tracks;
    } else {
      TTitleMore(m, n, ps[0]);
      var (t, multi) := AddTrackTitle(m.disc.tracks[n], m.at.multi, Split(ps[0]));
      var m' := Machine(m.at.(multi := multi), m.disc.(tracks := m.disc.tracks[n := t]));
      assert TTitleLines(n, ps)[1..] == TTitleLines(n, ps[1..]);
      MoreTTitles(m', n, ps[1..]);
      assert m.disc.tracks[n := t][n := TrackPieces(t, multi, ps[1..]).0] ==
             m.disc.tracks[n := TrackPieces(t, multi, ps[1..]).0];
    }
  }

  /** The states in which the switch reaches its TTITLE label: the title of the disc was read, year and genre may or
      may not have been. */
  predicate TakesTitles(at: Control)
  {
    at.state in {DiscGenre, TrackTitle} || (at.state == DiscTitle && at.multi != NoMulti)
  }

  /** The first TTITLE line of a track clears what the track held. */
  lemma TTitleStep(m: Machine, n: nat, v: string)
    requires TakesTitles(m.at) && m.at.oldNo != n < |m.disc.tracks|
    ensures var (t, multi) :=
        AddTrackTitle(m.disc.tracks[n].(artist := None, title := None), MultiArtist, Split(v));
      Close(m).disc.tracks == m.disc.tracks &&
      Step(m, ScanLine(TTitleLine(n, v))) ==
        Go(Machine(Control(TrackTitle, multi, n, n), Close(m).disc.(tracks := m.disc.tracks[n := t])))
  {
    ScanTTitle(n, v);
    hide ScanLine, TTitleLine, Split, AddTrackTitle;
  }

  /** The same for the TTITLE lines of a track, wherever the switch accepts them; without a delimiter the track has a
      title and no artist. A title of the disc that was being read is closed. */
  lemma TTitleRun(m: Machine, n: nat, ps: seq<string>)
    requires TakesTitles(m.at) && m.at.oldNo != n < |m.disc.tracks| && ps != []
    ensures var r := Steps(m, TTitleLines(n, ps)); var was := m.disc.tracks[n];
      && r.Some? && r.value.at.state == TrackTitle && r.value.at.oldNo == n
      && |r.value.disc.tracks| == |m.disc.tracks|
      && var t := r.value.disc.tracks[n];
         && r.value.disc == Close(m).disc.(tracks := m.disc.tracks[n := t])
         && t == was.(artist := t.artist, title := t.title)
         && (AsOneLine(t.artist, t.title, Concat(ps), (None, Some(Concat(ps)))) <==> DelimiterWhole(ps))
  {
    hide ScanLine, TTitleLine, Split, AsOneLine, DelimiterWhole, Step, AddTrackTitle, TakesTitles, Close;
    TTitleStep(m, n, ps[0]);
    var was := m.disc.tracks[n];
    TrackTitlePieces(was, MultiArtist, ps);
    var (t, multi) := AddTrackTitle(was.(artist := None, title := None), MultiArtist, Split(ps[0]));
    var m' := Machine(Control(TrackTitle, multi, n, n), Close(m).disc.(tracks := m.disc.tracks[n := t]));
    assert TTitleLines(n, ps)[1..] == TTitleLines(n, ps[1..]);
    MoreTTitles(m', n, ps[1..]);
    assert m.disc.tracks[n := t][n := TrackPieces(t, multi, ps[1..]).0] ==
           m.disc.tracks[n := TrackPieces(t, multi, ps[1..]).0];
  }

  /** Text that is NULL when there is none. */
  function NonEmpty(s: string): Str
  {
    if s == "" then None else Some(s)
  }

  lemma AddExtJoins(before: string, x: string)
    ensures AddExt(NonEmpty(before), x) == NonEmpty(before + x)
  {
    assert "" + x == x && before + "" == before;
  }

  lemma ExtDStep(m: Machine, before: string, x: string)
    requires m.at.state == DiscExt && m.at.multi == MultiExt && m.disc.extData == NonEmpty(before)
    ensures Step(m, ScanLine(ExtDLine(x))) == Go(m.(disc := m.disc.(extData := NonEmpty(before + x))))
  {
    ScanExtD(x);
    AddExtJoins(before, x);
    hide ScanLine, ExtDLine, NonEmpty;
  }

  lemma {:induction false} MoreExtDs(m: Machine, before: string, ps: seq<string>)
    requires m.at.state == DiscExt && m.at.multi == MultiExt && m.disc.extData == NonEmpty(before)
    ensures Steps(m, ExtDLines(ps)) ==
            Some(m.(disc := m.disc.(extData := NonEmpty(before + Concat(ps)))))
    decreases |ps|
  {
    if ps == [] {
      assert before + "" == before;
    } else {
      ExtDStep(m, before, ps[0]);
      hide ScanLine, ExtDLine, NonEmpty, Step;
      assert ExtDLines(ps)[1..] == ExtDLines(ps[1..]);
      MoreExtDs(m.(disc := m.disc.(extData := NonEmpty(before + ps[0]))), before + ps[0], ps[1..]);
      Regroup0(before, ps[0], Concat(ps[1..]));
    }
  }

  /** The states in which an EXTD line starts the extended data of the disc. */
  predicate TakesExtD(at: Control)
  {
    TakesTitles(at) || (at.state == DiscExt && at.multi == NoMulti)
  }

  lemma FirstExtD(m: Machine, x: string)
    requires TakesExtD(m.at)
    ensures var oldNo := if m.at.state == DiscExt then m.at.oldNo else -1;
      Step(m, ScanLine(ExtDLine(x))) ==
        Go(Machine(m.at.(state := DiscExt, multi := MultiExt, oldNo := oldNo),
                   Close(m).disc.(extData := NonEmpty(x))))
  {
    ScanExtD(x);
    AddExtJoins("", x);
    assert "" + x == x;
    hide ScanLine, ExtDLine;
  }

  /** However it is cut, the extended data of a disc is put together again, wherever the switch accepts it; none at
      all is NULL. */
  lemma ExtDRun(m: Machine, ps: seq<string>)
    requires TakesExtD(m.at) && ps != []
    ensures var r := Steps(m, ExtDLines(ps));
      && r.Some? && r.value.at.state == DiscExt
      && r.value.disc == Close(m).disc.(extData := NonEmpty(Concat(ps)))
  {
    hide ScanLine, ExtDLine, Step, NonEmpty, TakesExtD, Close;
    FirstExtD(m, ps[0]);
    var m' := Step(m, ScanLine(ExtDLine(ps[0]))).m;
    assert ExtDLines(ps)[1..] == ExtDLines(ps[1..]);
    MoreExtDs(m', ps[0], ps[1..]);
  }

  lemma ExtTStep(m: Machine, n: nat, before: string, x: string)
    requires m.at.state == TrackExt && m.at.oldNo == n < |m.disc.tracks| && m.at.trackNo == n
    requires m.disc.tracks[n].extData == NonEmpty(before)
    ensures Step(m, ScanLine(ExtTLine(n, x))) == Go(m.(disc := m.disc.(tracks :=
              m.disc.tracks[n := m.disc.tracks[n].(extData := NonEmpty(before + x))])))
  {
    ScanExtT(n, x);
    AddExtJoins(before, x);
    hide ScanLine, ExtTLine, NonEmpty;
  }

  lemma {:induction false} MoreExtTs(m: Machine, n: nat, before: string, ps: seq<string>)
    requires m.at.state == TrackExt && m.at.oldNo == n < |m.disc.tracks| && m.at.trackNo == n
    requires m.disc.tracks[n].extData == NonEmpty(before)
    ensures Steps(m, ExtTLines(n, ps)) == Some(m.(disc := m.disc.(tracks :=
              m.disc.tracks[n := m.disc.tracks[n].(extData := NonEmpty(before + Concat(ps)))])))
    decreases |ps|
  {
    if ps == [] {
      assert before + "" == before;
      assert m.disc.tracks[n := m.disc.tracks[n]] == m.disc.tracks;
    } else {
      ExtTStep(m, n, before, ps[0]);
      hide ScanLine, ExtTLine, NonEmpty, Step;
      var t := m.disc.tracks[n].(extData := NonEmpty(before + ps[0]));
      assert ExtTLines(n, ps)[1..] == ExtTLines(n, ps[1..]);
      MoreExtTs(m.(disc := m.disc.(tracks := m.disc.tracks[n := t])), n, before + ps[0], ps[1..]);
      Regroup0(before, ps[0], Concat(ps[1..]));
      var x := t.(extData := NonEmpty(before + Concat(ps)));
      assert m.disc.tracks[n := t][n := x] == m.disc.tracks[n := x];
    }
  }

  /** The states in which the switch reaches its EXTT label, the extended data of the disc being optional too. */
  predicate TakesExtT(at: Control, n: nat)
  {
    TakesTitles(at) || (at.state in {DiscExt, TrackExt} && at.oldNo != n)
  }

  lemma NothingYet()
    ensures NonEmpty("") == None
  {
  }

  lemma FirstExtT(m: Machine, n: nat, x: string)
    requires TakesExtT(m.at, n) && n < |m.disc.tracks|
    ensures var t := m.disc.tracks[n].(extData := NonEmpty(x));
      var multi := if m.at.state == TrackExt then m.at.multi else NoMulti;
      Close(m).disc.tracks == m.disc.tracks &&
      Step(m, ScanLine(ExtTLine(n, x))) ==
        Go(Machine(m.at.(state := TrackExt, multi := multi, trackNo := n, oldNo := n),
                   Close(m).disc.(tracks := m.disc.tracks[n := t])))
  {
    hide ScanLine, ExtTLine, NonEmpty, AddExt;
    ScanExtT(n, x);
    AddExtJoins("", x);
    NothingYet();
    assert "" + x == x;
  }

  /** The same for the extended data of a track. */
  lemma ExtTRun(m: Machine, n: nat, ps: seq<string>)
    requires TakesExtT(m.at, n) && n < |m.disc.tracks| && ps != []
    ensures var r := Steps(m, ExtTLines(n, ps));
      && r.Some? && r.value.at.state == TrackExt && r.value.at.oldNo == n
      && r.value.disc == Close(m).disc.(tracks :=
           m.disc.tracks[n := m.disc.tracks[n].(extData := NonEmpty(Concat(ps)))])
  {
    hide ScanLine, ExtTLine, Step, NonEmpty, TakesExtT, Close;
    FirstExtT(m, n, ps[0]);
    var t := m.disc.tracks[n].(extData := NonEmpty(ps[0]));
    var m' := Step(m, ScanLine(ExtTLine(n, ps[0]))).m;
    assert ExtTLines(n, ps)[1..] == ExtTLines(n, ps[1..]);
    MoreExtTs(m', n, ps[0], ps[1..]);
    var x := t.(extData := NonEmpty(Concat(ps)));
    assert m.disc.tracks[n := t][n := x] == m.disc.tracks[n := x];
  }
}
