/** What holds over whole runs of the record parser, for every input: it only moves forward, it fails
    for one reason only, and what it leaves in a disc depends on the lines alone wherever the lines
    mention a field, and on nothing but the disc where they do not. */
module ParserRuns {
  import opened Text
  import opened Patterns
  import opened Records
  import opened Parser

  // --- progress

  /** The machines that a run passes through, the first one included. */
  function Trace(m: Machine, lines: seq<string>): (t: seq<Machine>)
    ensures 0 < |t| <= |lines| + 1 && t[0] == m
    decreases |lines|
  {
    if lines == [] then [m]
    else match Step(m, ScanLine(lines[0]))
      case Fail(_) => [m]
      case Go(m') => if m'.at.state == Stop then [m, m'] else [m] + Trace(m', lines[1..])
  }

  lemma StepForward(m: Machine, s: Scan)
    requires Steady(m) && m.at.state != Stop && Step(m, s).Go?
    ensures var m' := Step(m, s).m;
      Rank(m.at.state) <= Rank(m'.at.state) && |m.disc.tracks| <= |m'.disc.tracks|
  {
    StepIsTable(m, s);
  }

  /** Along every run the state only moves forward in the order of the switch, tracks are never lost,
      and the offsets counted so far have their tracks. */
  lemma {:induction false} RunMovesForward(m: Machine, lines: seq<string>)
    requires Steady(m) && m.at.state != Stop
    ensures var t := Trace(m, lines);
      && (forall i :: 0 <= i < |t| ==> Steady(t[i]))
      && (forall i, j :: 0 <= i <= j < |t| ==>
            Rank(t[i].at.state) <= Rank(t[j].at.state) && |t[i].disc.tracks| <= |t[j].disc.tracks|)
    decreases |lines|
  {
    if lines != [] && Step(m, ScanLine(lines[0])).Go? {
      var s := ScanLine(lines[0]);
      StepIsTable(m, s);
      StepForward(m, s);
      var m' := Step(m, s).m;
      hide Step, Rank, Steady;
      if m'.at.state != Stop {
        RunMovesForward(m', lines[1..]);
        var t := Trace(m, lines);
        assert forall i :: 1 <= i < |t| ==> t[i] == Trace(m', lines[1..])[i - 1];
      }
    }
  }

  /** An offset line changes the offset of the track it counts up to, which it makes if there is none,
      and nothing else. */
  lemma OffsetLands(m: Machine, s: Scan)
    requires Steady(m) && m.at.state == TrackOffsets && s.offset.Some?
    ensures var n := m.at.trackNo; var r := Step(m, s);
      && r.Go? && r.m.at == m.at.(trackNo := n + 1)
      && |r.m.disc.tracks| == (if n < |m.disc.tracks| then |m.disc.tracks| else n + 1)
      && r.m.disc.tracks[n].frameOffset == s.offset.value
      && (forall k :: 0 <= k < |m.disc.tracks| && k != n ==> r.m.disc.tracks[k] == m.disc.tracks[k])
      && r.m.disc == m.disc.(tracks := r.m.disc.tracks)
  {
  }

  // --- failure

  /** The line that makes the parser give up: a title or extended data for a track the disc has not. */
  predicate Rejects(m: Machine, s: Scan)
  {
    match EffectOf(m.at, s)
    case TTitle(n, _) => n >= |m.disc.tracks|
    case ExtT(n, _) => n >= |m.disc.tracks|
    case _ => false
  }

  lemma StepFails(m: Machine, s: Scan)
    requires Steady(m) && m.at.state != Stop
    ensures Step(m, s).Fail? <==> Rejects(m, s)
  {
    StepIsTable(m, s);
    hide Step, EffectOf;
  }

  /** The run gives up at line i. */
  ghost predicate GivesUpAt(m: Machine, lines: seq<string>, i: nat)
  {
    var t := Trace(m, lines);
    i < |t| && i < |lines| && t[i].at.state != Stop && Rejects(t[i], ScanLine(lines[i]))
  }

  lemma GivesUpLater(m: Machine, m': Machine, lines: seq<string>)
    requires lines != [] && Step(m, ScanLine(lines[0])) == Go(m') && m'.at.state != Stop
    requires !Rejects(m, ScanLine(lines[0]))
    ensures (exists i :: GivesUpAt(m, lines, i)) <==> exists i :: GivesUpAt(m', lines[1..], i)
  {
    hide Step, Rejects, ScanLine;
    var t := Trace(m', lines[1..]);
    assert Trace(m, lines) == [m] + t;
    forall i: nat ensures GivesUpAt(m', lines[1..], i) <==> GivesUpAt(m, lines, i + 1) {
      if i < |t| && i < |lines[1..]| { assert lines[1..][i] == lines[i + 1]; }
    }
    if i: nat :| GivesUpAt(m, lines, i) {
      assert GivesUpAt(m', lines[1..], i - 1) <==> GivesUpAt(m, lines, i - 1 + 1);
    }
    if i: nat :| GivesUpAt(m', lines[1..], i) {
      assert GivesUpAt(m, lines, i + 1);
    }
  }

  /** A run fails exactly when some line on its way has such a track index; otherwise it always ends
      in the stop state, so that no cached entry is ever taken for an invalid one. */
  lemma {:induction false} FailsExactly(m: Machine, lines: seq<string>)
    requires Steady(m) && m.at.state != Stop
    ensures !Run(m, lines).ok <==> exists i :: GivesUpAt(m, lines, i)
    ensures Run(m, lines).ok ==> Run(m, lines).at.state == Stop
    decreases |lines|
  {
    if lines != [] {
      var s := ScanLine(lines[0]);
      StepFails(m, s);
      StepIsTable(m, s);
      hide Step, Rejects, Steady, ScanLine;
      if Step(m, s).Fail? {
        assert GivesUpAt(m, lines, 0);
      } else if Step(m, s).m.at.state != Stop {
        var m' := Step(m, s).m;
        FailsExactly(m', lines[1..]);
        GivesUpLater(m, m', lines);
      }
    }
  }

  // --- what the lines mention

  /** The fields of a disc that lines have mentioned: `names` are the artist and title of the disc,
      `offsets` the number of frame offsets, and the sets hold track numbers. */
  datatype Mentioned = Mentioned(offsets: nat, length: bool, revision: bool, names: bool, year: bool,
                                 genre: bool, ext: bool, titles: set<nat>, exts: set<nat>)

  const NOTHING := Mentioned(0, false, false, false, false, false, false, {}, {})

  function Mention(t: Mentioned, e: Effect): Mentioned
  {
    match e
    case Offset(_) => t.(offsets := t.offsets + 1)
    case Length(_) => t.(length := true)
    case Revision(_) => t.(revision := true)
    case DTitle(_) => t.(names := true)
    case Year(_) => t.(year := true)
    case Genre(_) => t.(genre := true)
    case TTitle(n, _) => t.(titles := t.titles + {n})
    case ExtD(_) => t.(ext := true)
    case ExtT(n, _) => t.(exts := t.exts + {n})
    case Skip => t case Heading => t case Order => t case Dot => t
  }

  /** What a run mentions, on top of t. */
  function Mentions(m: Machine, lines: seq<string>, t: Mentioned): Mentioned
    decreases |lines|
  {
    if lines == [] then t
    else
      var t' := Mention(t, EffectOf(m.at, ScanLine(lines[0])));
      match Step(m, ScanLine(lines[0]))
      case Fail(_) => t
      case Go(m') => if m'.at.state == Stop then t' else Mentions(m', lines[1..], t')
  }

  /** Two tracks agree in what is mentioned of track i. */
  ghost predicate SameTrack(t: Mentioned, i: nat, a: TrackData, b: TrackData)
  {
    && (i < t.offsets ==> a.frameOffset == b.frameOffset)
    && (i in t.titles ==> a.title == b.title && a.artist == b.artist)
    && (i in t.exts ==> a.extData == b.extData)
  }

  /** Two discs agree in every mentioned field, and have the tracks mentioned. */
  ghost predicate SameOn(t: Mentioned, a: DiscData, b: DiscData)
  {
    && t.offsets <= |a.tracks| && t.offsets <= |b.tracks|
    && (forall i :: i in t.titles || i in t.exts ==> i < |a.tracks| && i < |b.tracks|)
    && (t.length ==> a.length == b.length)
    && (t.revision ==> a.revision == b.revision)
    && (t.names ==> a.artist == b.artist && a.title == b.title)
    && (t.year ==> a.year == b.year)
    && (t.genre ==> a.genre == b.genre)
    && (t.ext ==> a.extData == b.extData)
    && (forall i :: 0 <= i < |a.tracks| && i < |b.tracks| ==> SameTrack(t, i, a.tracks[i], b.tracks[i]))
  }

  /** A track keeps what is not mentioned of track i. */
  ghost predicate KeptTrack(t: Mentioned, i: nat, a: TrackData, b: TrackData)
  {
    && a.length == b.length
    && (i >= t.offsets ==> a.frameOffset == b.frameOffset)
    && (i !in t.titles ==> a.title == b.title && a.artist == b.artist)
    && (i !in t.exts ==> a.extData == b.extData)
  }

  /** b is a with at most the mentioned fields changed; a track that a lacks counts as a new one. */
  ghost predicate KeptOff(t: Mentioned, a: DiscData, b: DiscData)
  {
    && a.discid == b.discid && a.category == b.category
    && |b.tracks| == (if |a.tracks| < t.offsets then t.offsets else |a.tracks|)
    && (!t.length ==> a.length == b.length)
    && (!t.revision ==> a.revision == b.revision)
    && (!t.names ==> a.artist == b.artist && a.title == b.title)
    && (!t.year ==> a.year == b.year)
    && (!t.genre ==> a.genre == b.genre)
    && (!t.ext ==> a.extData == b.extData)
    && (forall i :: 0 <= i < |b.tracks| ==>
          KeptTrack(t, i, if i < |a.tracks| then a.tracks[i] else NEW_TRACK, b.tracks[i]))
  }

  /** The value that the machine is in the middle of is mentioned already. */
  ghost predicate Open(t: Mentioned, at: Control)
  {
    && (at.state in {Start, TrackOffsets} ==> t.offsets == at.trackNo)
    && (at.state == DiscTitle && at.multi != NoMulti ==> t.names)
    && (at.state == TrackTitle && at.oldNo >= 0 ==> at.oldNo in t.titles)
    && (at.state == DiscExt && at.multi == MultiExt ==> t.ext)
    && (at.state == TrackExt && at.oldNo >= 0 ==> at.oldNo in t.exts)
  }

  // --- two runs

  /** The states in which a line can have each effect. */
  lemma EffectSource(at: Control, s: Scan)
    requires Sound(at) && at.state != Stop
    ensures match EffectOf(at, s)
      case Heading => at.state == Start
      case Offset(_) => at.state == TrackOffsets
      case Length(_) => at.state in {TrackOffsets, DiscLength}
      case Revision(_) => at.state == DiscRevision
      case DTitle(_) => at.state == DiscTitle
      case Year(_) => at.state == DiscTitle && at.multi != NoMulti
      case Genre(_) => (at.state == DiscTitle && at.multi != NoMulti) || at.state == DiscGenre
      case TTitle(_, _) => (at.state == DiscTitle && at.multi != NoMulti) || at.state in {DiscGenre, TrackTitle}
      case ExtD(_) =>
        (at.state == DiscTitle && at.multi != NoMulti) || at.state in {DiscGenre, TrackTitle, DiscExt}
      case ExtT(_, _) =>
        (at.state == DiscTitle && at.multi != NoMulti) || at.state in {DiscGenre, TrackTitle, DiscExt, TrackExt}
      case _ => true
  {
  }

  lemma CloseTwo(m1: Machine, m2: Machine, t: Mentioned)
    requires Steady(m1) && Steady(m2) && m1.at == m2.at && Open(t, m1.at)
    requires SameOn(t, m1.disc, m2.disc)
    ensures Close(m1).at == Close(m2).at && SameOn(t, Close(m1).disc, Close(m2).disc)
    ensures Close(m1).disc.tracks == m1.disc.tracks && Close(m2).disc.tracks == m2.disc.tracks
    ensures Open(t, Close(m1).at)
  {
  }

  /** The rest of TwoSteps, by what the line does. Offsets first. */
  lemma TwoOffsets(m1: Machine, m2: Machine, o: int, t: Mentioned)
    requires Steady(m1) && Steady(m2) && m1.at == m2.at && m1.at.state == TrackOffsets && Open(t, m1.at)
    requires SameOn(t, m1.disc, m2.disc)
    ensures var n1, n2 := Apply(m1, Offset(o)).m, Apply(m2, Offset(o)).m;
      SameOn(Mention(t, Offset(o)), n1.disc, n2.disc)
  {
    var n1, n2 := Apply(m1, Offset(o)).m, Apply(m2, Offset(o)).m;
    var t' := Mention(t, Offset(o));
    forall i | 0 <= i < |n1.disc.tracks| && i < |n2.disc.tracks|
      ensures SameTrack(t', i, n1.disc.tracks[i], n2.disc.tracks[i])
    {
      if i < |m1.disc.tracks| && i < |m2.disc.tracks| {
        assert SameTrack(t, i, m1.disc.tracks[i], m2.disc.tracks[i]);
      }
    }
  }

  /** Changing track n alike in two discs. */
  lemma TwoTracks(d1: DiscData, d2: DiscData, n: nat, a: TrackData, b: TrackData, t: Mentioned, t': Mentioned)
    requires SameOn(t, d1, d2) && n < |d1.tracks| && n < |d2.tracks|
    requires t' == t.(titles := t.titles + {n}) || t' == t.(exts := t.exts + {n})
    requires SameTrack(t', n, a, b)
    ensures SameOn(t', d1.(tracks := d1.tracks[n := a]), d2.(tracks := d2.tracks[n := b]))
  {
    var ts1, ts2 := d1.tracks[n := a], d2.tracks[n := b];
    forall i | 0 <= i < |ts1| && i < |ts2| ensures SameTrack(t', i, ts1[i], ts2[i]) {
      assert SameTrack(t, i, d1.tracks[i], d2.tracks[i]);
    }
  }

  lemma SameTitled(at: Control, a: TrackData, b: TrackData, n: nat, v: Titled, t: Mentioned)
    requires SameTrack(t, n, a, b) && (n == at.oldNo ==> n in t.titles)
    ensures TitledTrack(at, a, n, v).1 == TitledTrack(at, b, n, v).1
    ensures SameTrack(t.(titles := t.titles + {n}), n, TitledTrack(at, a, n, v).0, TitledTrack(at, b, n, v).0)
  {
  }

  lemma TwoTitles(m1: Machine, m2: Machine, n: nat, v: Titled, t: Mentioned)
    requires Steady(m1) && Steady(m2) && m1.at == m2.at && Open(t, m1.at)
    requires m1.at.state in {DiscTitle, DiscGenre, TrackTitle}
    requires SameOn(t, m1.disc, m2.disc)
    requires Apply(m1, TTitle(n, v)).Go? && Apply(m2, TTitle(n, v)).Go?
    ensures var n1, n2 := Apply(m1, TTitle(n, v)).m, Apply(m2, TTitle(n, v)).m;
      n1.at == n2.at && SameOn(Mention(t, TTitle(n, v)), n1.disc, n2.disc)
  {
    CloseTwo(m1, m2, t);
    var c1 := if m1.at.state == TrackTitle then m1 else Close(m1);
    var c2 := if m2.at.state == TrackTitle then m2 else Close(m2);
    var a, b := c1.disc.tracks[n], c2.disc.tracks[n];
    assert n == c1.at.oldNo ==> n in t.titles;
    assert SameTrack(t, n, a, b);
    hide TitledTrack, SameTrack, SameOn, Steady, Open, Close;
    SameTitled(c1.at, a, b, n, v, t);
    TwoTracks(c1.disc, c2.disc, n, TitledTrack(c1.at, a, n, v).0, TitledTrack(c2.at, b, n, v).0,
              t, Mention(t, TTitle(n, v)));
  }

  lemma TwoExts(m1: Machine, m2: Machine, n: nat, x: string, t: Mentioned)
    requires Steady(m1) && Steady(m2) && m1.at == m2.at && Open(t, m1.at)
    requires m1.at.state in {DiscTitle, DiscGenre, TrackTitle, DiscExt, TrackExt}
    requires SameOn(t, m1.disc, m2.disc)
    requires Apply(m1, ExtT(n, x)).Go? && Apply(m2, ExtT(n, x)).Go?
    ensures var n1, n2 := Apply(m1, ExtT(n, x)).m, Apply(m2, ExtT(n, x)).m;
      n1.at == n2.at && SameOn(Mention(t, ExtT(n, x)), n1.disc, n2.disc)
  {
    CloseTwo(m1, m2, t);
    var c1, c2 := Close(m1), Close(m2);
    var a, b := c1.disc.tracks[n], c2.disc.tracks[n];
    assert SameTrack(t, n, a, b);
    assert SameTrack(t.(exts := t.exts + {n}), n, ExtendedTrack(c1.at, a, n, x), ExtendedTrack(c2.at, b, n, x));
    hide ExtendedTrack, SameTrack, SameOn, Steady, Open, Close;
    TwoTracks(c1.disc, c2.disc, n, ExtendedTrack(c1.at, a, n, x), ExtendedTrack(c2.at, b, n, x),
              t, Mention(t, ExtT(n, x)));
  }

  /** The same tracks, with at most more fields of the disc mentioned. */
  lemma SameTracks(d1: DiscData, d2: DiscData, e1: DiscData, e2: DiscData, t: Mentioned, t': Mentioned)
    requires SameOn(t, d1, d2) && e1.tracks == d1.tracks && e2.tracks == d2.tracks
    requires t'.offsets == t.offsets && t'.titles == t.titles && t'.exts == t.exts
    ensures forall i :: 0 <= i < |e1.tracks| && i < |e2.tracks| ==> SameTrack(t', i, e1.tracks[i], e2.tracks[i])
  {
    forall i | 0 <= i < |e1.tracks| && i < |e2.tracks| ensures SameTrack(t', i, e1.tracks[i], e2.tracks[i]) {
      assert SameTrack(t, i, d1.tracks[i], d2.tracks[i]);
    }
  }

  /** Two discs whose fields were each kept, or are the same now. */
  lemma SameFields(d1: DiscData, d2: DiscData, e1: DiscData, e2: DiscData, t: Mentioned, t': Mentioned)
    requires SameOn(t, d1, d2) && e1.tracks == d1.tracks && e2.tracks == d2.tracks
    requires t'.offsets == t.offsets && t'.titles == t.titles && t'.exts == t.exts
    requires e1.length == e2.length || (t'.length == t.length && e1.length == d1.length && e2.length == d2.length)
    requires e1.revision == e2.revision ||
             (t'.revision == t.revision && e1.revision == d1.revision && e2.revision == d2.revision)
    requires (e1.artist == e2.artist && e1.title == e2.title) ||
             (t'.names == t.names && e1.artist == d1.artist && e2.artist == d2.artist
              && e1.title == d1.title && e2.title == d2.title)
    requires e1.year == e2.year || (t'.year == t.year && e1.year == d1.year && e2.year == d2.year)
    requires e1.genre == e2.genre || (t'.genre == t.genre && e1.genre == d1.genre && e2.genre == d2.genre)
    requires e1.extData == e2.extData || (t'.ext == t.ext && e1.extData == d1.extData && e2.extData == d2.extData)
    ensures SameOn(t', e1, e2)
  {
    SameTracks(d1, d2, e1, e2, t, t');
    hide SameTrack;
  }

  /** Lines that come before the section or value is closed. */
  lemma TwoEarly(m1: Machine, m2: Machine, e: Effect, t: Mentioned)
    requires Steady(m1) && Steady(m2) && m1.at == m2.at && Open(t, m1.at) && SameOn(t, m1.disc, m2.disc)
    requires e.Heading? || e.Length? || e.Revision?
    ensures var n1, n2 := Apply(m1, e).m, Apply(m2, e).m;
      n1.at == n2.at && SameOn(Mention(t, e), n1.disc, n2.disc)
  {
    hide SameOn, Close, Steady, Open;
    SameFields(m1.disc, m2.disc, Apply(m1, e).m.disc, Apply(m2, e).m.disc, t, Mention(t, e));
  }

  lemma NamesSame(m1: Machine, m2: Machine, t: Mentioned)
    requires m1.at == m2.at && m1.at.state == DiscTitle && Open(t, m1.at) && SameOn(t, m1.disc, m2.disc)
    ensures m1.at.multi != NoMulti ==> m1.disc.artist == m2.disc.artist && m1.disc.title == m2.disc.title
  {
  }

  lemma TwoDTitle(m1: Machine, m2: Machine, v: Titled, t: Mentioned)
    requires m1.at == m2.at && m1.at.state == DiscTitle && Open(t, m1.at) && SameOn(t, m1.disc, m2.disc)
    ensures var n1, n2 := Apply(m1, DTitle(v)).m, Apply(m2, DTitle(v)).m;
      n1.at == n2.at && SameOn(Mention(t, DTitle(v)), n1.disc, n2.disc)
  {
    NamesSame(m1, m2, t);
    hide SameOn, Close, Open;
    SameFields(m1.disc, m2.disc, Apply(m1, DTitle(v)).m.disc, Apply(m2, DTitle(v)).m.disc, t, Mention(t, DTitle(v)));
  }

  /** Lines that close it first, and do no more to the disc. */
  lemma TwoClosed(m1: Machine, m2: Machine, e: Effect, t: Mentioned)
    requires Steady(m1) && Steady(m2) && m1.at == m2.at && Open(t, m1.at) && SameOn(t, m1.disc, m2.disc)
    requires e.Skip? || e.Order? || e.Dot?
    ensures var n1, n2 := Apply(m1, e).m, Apply(m2, e).m;
      n1.at == n2.at && SameOn(Mention(t, e), n1.disc, n2.disc)
  {
    hide SameOn, Close, Steady, Open;
    CloseTwo(m1, m2, t);
  }

  lemma TwoYears(m1: Machine, m2: Machine, y: nat, t: Mentioned)
    requires Steady(m1) && Steady(m2) && m1.at == m2.at && Open(t, m1.at) && SameOn(t, m1.disc, m2.disc)
    ensures var n1, n2 := Apply(m1, Year(y)).m, Apply(m2, Year(y)).m;
      n1.at == n2.at && SameOn(Mention(t, Year(y)), n1.disc, n2.disc)
  {
    hide SameOn, Close, Steady, Open;
    CloseTwo(m1, m2, t);
    var c1, c2 := Close(m1).disc, Close(m2).disc;
    SameFields(c1, c2, c1.(year := y), c2.(year := y), t, Mention(t, Year(y)));
  }

  lemma TwoGenres(m1: Machine, m2: Machine, g: string, t: Mentioned)
    requires Steady(m1) && Steady(m2) && m1.at == m2.at && Open(t, m1.at) && SameOn(t, m1.disc, m2.disc)
    ensures var n1, n2 := Apply(m1, Genre(g)).m, Apply(m2, Genre(g)).m;
      n1.at == n2.at && SameOn(Mention(t, Genre(g)), n1.disc, n2.disc)
  {
    hide SameOn, Close, Steady, Open;
    CloseTwo(m1, m2, t);
    var c1, c2 := Close(m1).disc, Close(m2).disc;
    SameFields(c1, c2, c1.(genre := Some(g)), c2.(genre := Some(g)), t, Mention(t, Genre(g)));
  }

  /** The machine that an EXTD line goes on from. */
  function ExtFrom(m: Machine): Machine
  {
    if m.at.state == DiscExt then m else Close(m)
  }

  lemma ExtSame(m1: Machine, m2: Machine, t: Mentioned)
    requires Steady(m1) && Steady(m2) && m1.at == m2.at && Open(t, m1.at) && SameOn(t, m1.disc, m2.disc)
    ensures var c1, c2 := ExtFrom(m1), ExtFrom(m2);
      && c1.at == c2.at && SameOn(t, c1.disc, c2.disc)
      && (c1.at.multi == MultiExt ==> c1.disc.extData == c2.disc.extData)
  {
    CloseTwo(m1, m2, t);
    hide SameTrack;
  }

  lemma TwoExtD(m1: Machine, m2: Machine, x: string, t: Mentioned)
    requires Steady(m1) && Steady(m2) && m1.at == m2.at && Open(t, m1.at) && SameOn(t, m1.disc, m2.disc)
    ensures var n1, n2 := Apply(m1, ExtD(x)).m, Apply(m2, ExtD(x)).m;
      n1.at == n2.at && SameOn(Mention(t, ExtD(x)), n1.disc, n2.disc)
  {
    hide SameOn, Close, Steady, Open, AddExt;
    ExtSame(m1, m2, t);
    SameFields(ExtFrom(m1).disc, ExtFrom(m2).disc, Apply(m1, ExtD(x)).m.disc, Apply(m2, ExtD(x)).m.disc, t,
               Mention(t, ExtD(x)));
  }

  /** Where a line that is accepted takes the control. */
  lemma NextControl(m: Machine, e: Effect)
    requires Apply(m, e).Go?
    ensures var at := Apply(m, e).m.at;
      match e
      case Skip => at == Close(m).at
      case Heading => at == m.at.(state := TrackOffsets)
      case Offset(_) => at == m.at.(trackNo := m.at.trackNo + 1)
      case DTitle(_) => at == m.at.(multi := at.multi)
      case TTitle(n, _) => at == Control(TrackTitle, at.multi, n, n)
      case ExtT(n, _) => at.state == TrackExt && at.oldNo == n
      case ExtD(_) => at.state == DiscExt
      case Length(_) => at.state == DiscRevision
      case Revision(_) => at == m.at.(state := DiscTitle)
      case Year(_) => at.state == DiscGenre
      case Genre(_) => at == Close(m).at.(state := TrackTitle)
      case Order => at.state == EndDot
      case Dot => at.state == Stop
  {
    hide TitledTrack, ExtendedTrack, AddExt, FixTitle, SetOffset, AddDiscTitle, Close;
  }

  lemma CloseOpen(m: Machine, t: Mentioned)
    requires Steady(m) && Open(t, m.at)
    ensures Open(t, Close(m).at)
    ensures m.at.state in {DiscTitle, DiscGenre} ==> Close(m).at.oldNo == -1
    ensures m.at.state == DiscRevision ==> m.at.multi == NoMulti
    ensures m.at.state == Start ==> m.at.trackNo == 0
  {
  }

  lemma MentionedOpen(at: Control, at': Control, c: Control, e: Effect, t: Mentioned)
    requires Open(t, at) && Open(t, c)
    requires at.state in {DiscTitle, DiscGenre} ==> c.oldNo == -1
    requires match e
      case Skip => at' == c
      case Heading => at.state == Start && at' == at.(state := TrackOffsets)
      case Offset(_) => at' == at.(trackNo := at.trackNo + 1)
      case DTitle(_) => at.state == DiscTitle && at' == at.(multi := at'.multi)
      case TTitle(n, _) => at'.state == TrackTitle && at'.oldNo == n
      case ExtT(n, _) => at'.state == TrackExt && at'.oldNo == n
      case ExtD(_) => at'.state == DiscExt
      case Length(_) => at'.state == DiscRevision
      case Revision(_) => at' == at.(state := DiscTitle) && at.multi == NoMulti
      case Year(_) => at'.state == DiscGenre
      case Genre(_) => at' == c.(state := TrackTitle) && at.state in {DiscTitle, DiscGenre}
      case Order => at'.state == EndDot
      case Dot => at'.state == Stop
    ensures Open(Mention(t, e), at')
  {
  }

  /** After a line, what the machine is in the middle of has been mentioned. */
  lemma StaysOpen(m: Machine, s: Scan, t: Mentioned)
    requires Steady(m) && m.at.state != Stop && Open(t, m.at)
    requires Apply(m, EffectOf(m.at, s)).Go?
    ensures Open(Mention(t, EffectOf(m.at, s)), Apply(m, EffectOf(m.at, s)).m.at)
  {
    var e := EffectOf(m.at, s);
    NextControl(m, e);
    EffectSource(m.at, s);
    CloseOpen(m, t);
    var at, at', c := m.at, Apply(m, e).m.at, Close(m).at;
    hide *;
    MentionedOpen(at, at', c, e, t);
  }

  /** One line keeps two machines in step, on everything mentioned up to and including that line. */
  lemma TwoSteps(m1: Machine, m2: Machine, s: Scan, t: Mentioned)
    requires Steady(m1) && Steady(m2) && m1.at == m2.at && m1.at.state != Stop && Open(t, m1.at)
    requires SameOn(t, m1.disc, m2.disc)
    requires Step(m1, s).Go? && Step(m2, s).Go?
    ensures var t' := Mention(t, EffectOf(m1.at, s)); var n1, n2 := Step(m1, s).m, Step(m2, s).m;
      n1.at == n2.at && Open(t', n1.at) && SameOn(t', n1.disc, n2.disc)
  {
    StepIsTable(m1, s);
    StepIsTable(m2, s);
    StaysOpen(m1, s, t);
    var e := EffectOf(m1.at, s);
    EffectSource(m1.at, s);
    hide Step, EffectOf, SameOn, Open, Steady, Close, Mention;
    match e
    case TTitle(n, v) => TwoTitles(m1, m2, n, v, t);
    case ExtT(n, x) => TwoExts(m1, m2, n, x, t);
    case Offset(o) => TwoOffsets(m1, m2, o, t);
    case ExtD(x) => TwoExtD(m1, m2, x, t);
    case DTitle(v) => TwoDTitle(m1, m2, v, t);
    case Year(y) => TwoYears(m1, m2, y, t);
    case Genre(g) => TwoGenres(m1, m2, g, t);
    case _ => if e.Heading? || e.Length? || e.Revision? { TwoEarly(m1, m2, e, t); }
              else { TwoClosed(m1, m2, e, t); }
  }

  /** Two runs over the same lines from any two discs, when both succeed, go through the same controls,
      mention the same fields, and leave every mentioned field the same. */
  lemma {:induction false} TwoRuns(m1: Machine, m2: Machine, lines: seq<string>, t: Mentioned)
    requires Steady(m1) && Steady(m2) && m1.at == m2.at && m1.at.state != Stop && Open(t, m1.at)
    requires SameOn(t, m1.disc, m2.disc)
    requires Run(m1, lines).ok && Run(m2, lines).ok
    ensures Run(m1, lines).at == Run(m2, lines).at && Used(m1, lines) == Used(m2, lines)
    ensures |Trace(m1, lines)| == |Trace(m2, lines)|
    ensures forall i :: 0 <= i < |Trace(m1, lines)| ==> Trace(m1, lines)[i].at == Trace(m2, lines)[i].at
    ensures Mentions(m1, lines, t) == Mentions(m2, lines, t)
    ensures SameOn(Mentions(m1, lines, t), Run(m1, lines).disc, Run(m2, lines).disc)
    decreases |lines|
  {
    hide Step, SameOn, Open, Steady, EffectOf, Mention;
    if lines != [] {
      var s := ScanLine(lines[0]);
      StepIsTable(m1, s);
      StepIsTable(m2, s);
      TwoSteps(m1, m2, s, t);
      var n1, n2 := Step(m1, s).m, Step(m2, s).m;
      if n1.at.state != Stop {
        TwoRuns(n1, n2, lines[1..], Mention(t, EffectOf(m1.at, s)));
      }
    }
  }

  // --- what a run leaves alone

  lemma KeptOffsets(m: Machine, o: int, t: Mentioned, d: DiscData)
    requires Steady(m) && m.at.state == TrackOffsets && t.offsets == m.at.trackNo && KeptOff(t, d, m.disc)
    ensures KeptOff(Mention(t, Offset(o)), d, Apply(m, Offset(o)).m.disc)
  {
    var n := Apply(m, Offset(o)).m;
    var t' := Mention(t, Offset(o));
    forall i | 0 <= i < |n.disc.tracks|
      ensures KeptTrack(t', i, if i < |d.tracks| then d.tracks[i] else NEW_TRACK, n.disc.tracks[i])
    {
      if i < |m.disc.tracks| {
        assert KeptTrack(t, i, if i < |d.tracks| then d.tracks[i] else NEW_TRACK, m.disc.tracks[i]);
      }
    }
  }

  lemma KeptTracks(d: DiscData, c: DiscData, n: nat, a: TrackData, t: Mentioned, t': Mentioned)
    requires KeptOff(t, d, c) && n < |c.tracks|
    requires (t' == t.(titles := t.titles + {n}) && a == c.tracks[n].(title := a.title, artist := a.artist))
          || (t' == t.(exts := t.exts + {n}) && a == c.tracks[n].(extData := a.extData))
    ensures KeptOff(t', d, c.(tracks := c.tracks[n := a]))
  {
    var ts := c.tracks[n := a];
    forall i | 0 <= i < |ts|
      ensures KeptTrack(t', i, if i < |d.tracks| then d.tracks[i] else NEW_TRACK, ts[i])
    {
      assert KeptTrack(t, i, if i < |d.tracks| then d.tracks[i] else NEW_TRACK, c.tracks[i]);
    }
  }

  lemma KeptClose(m: Machine, t: Mentioned, d: DiscData)
    requires KeptOff(t, d, m.disc) && Open(t, m.at) && Steady(m)
    ensures KeptOff(t, d, Close(m).disc) && Close(m).disc.tracks == m.disc.tracks
  {
    hide KeptTrack;
  }

  /** A disc that differs from one that kept what is not mentioned, in fields that are mentioned now. */
  lemma KeptFields(d: DiscData, c: DiscData, n: DiscData, t: Mentioned, t': Mentioned)
    requires KeptOff(t, d, c) && n.tracks == c.tracks && n.discid == c.discid && n.category == c.category
    requires t'.offsets == t.offsets && t'.titles == t.titles && t'.exts == t.exts
    requires (t.length ==> t'.length) && (!t'.length ==> n.length == c.length)
    requires (t.revision ==> t'.revision) && (!t'.revision ==> n.revision == c.revision)
    requires (t.names ==> t'.names) && (!t'.names ==> n.artist == c.artist && n.title == c.title)
    requires (t.year ==> t'.year) && (!t'.year ==> n.year == c.year)
    requires (t.genre ==> t'.genre) && (!t'.genre ==> n.genre == c.genre)
    requires (t.ext ==> t'.ext) && (!t'.ext ==> n.extData == c.extData)
    ensures KeptOff(t', d, n)
  {
    forall i | 0 <= i < |n.tracks|
      ensures KeptTrack(t', i, if i < |d.tracks| then d.tracks[i] else NEW_TRACK, n.tracks[i])
    {
      assert KeptTrack(t, i, if i < |d.tracks| then d.tracks[i] else NEW_TRACK, c.tracks[i]);
    }
  }

  lemma KeptEarly(m: Machine, e: Effect, t: Mentioned, d: DiscData)
    requires KeptOff(t, d, m.disc) && Steady(m)
    requires e.Heading? || e.Length? || e.Revision? || (e.DTitle? && m.at.state == DiscTitle)
    ensures KeptOff(Mention(t, e), d, Apply(m, e).m.disc)
  {
    hide Close, KeptOff, Steady;
    KeptFields(d, m.disc, Apply(m, e).m.disc, t, Mention(t, e));
  }

  lemma KeptLate(m: Machine, e: Effect, t: Mentioned, d: DiscData)
    requires KeptOff(t, d, m.disc) && Open(t, m.at) && Steady(m)
    requires e.Skip? || e.Year? || e.Genre? || e.Order? || e.Dot?
    ensures KeptOff(Mention(t, e), d, Apply(m, e).m.disc)
  {
    hide Close, KeptOff, Open, Steady;
    KeptClose(m, t, d);
    KeptFields(d, Close(m).disc, Apply(m, e).m.disc, t, Mention(t, e));
  }

  lemma KeptExtD(m: Machine, x: string, t: Mentioned, d: DiscData)
    requires KeptOff(t, d, m.disc) && Open(t, m.at) && Steady(m)
    ensures KeptOff(Mention(t, ExtD(x)), d, Apply(m, ExtD(x)).m.disc)
  {
    hide Close, KeptOff, Open, Steady, AddExt;
    KeptClose(m, t, d);
    var c := if m.at.state == DiscExt then m else Close(m);
    KeptFields(d, c.disc, Apply(m, ExtD(x)).m.disc, t, Mention(t, ExtD(x)));
  }

  lemma KeptOffset(m: Machine, o: int, t: Mentioned, d: DiscData)
    requires Steady(m) && m.at.state == TrackOffsets && Open(t, m.at) && KeptOff(t, d, m.disc)
    ensures KeptOff(Mention(t, Offset(o)), d, Apply(m, Offset(o)).m.disc)
  {
    hide KeptOff;
    KeptOffsets(m, o, t, d);
  }

  lemma KeptStep(m: Machine, s: Scan, t: Mentioned, d: DiscData)
    requires Steady(m) && m.at.state != Stop && Open(t, m.at) && KeptOff(t, d, m.disc)
    requires Step(m, s).Go?
    ensures KeptOff(Mention(t, EffectOf(m.at, s)), d, Step(m, s).m.disc)
  {
    hide Step, EffectOf, Close, KeptOff, Open;
    StepIsTable(m, s);
    EffectSource(m.at, s);
    KeptClose(m, t, d);
    var e := EffectOf(m.at, s);
    match e
    case Offset(o) => KeptOffset(m, o, t, d);
    case TTitle(n, v) =>
      var c := if m.at.state == TrackTitle then m else Close(m);
      KeptTracks(d, c.disc, n, TitledTrack(c.at, c.disc.tracks[n], n, v).0, t, Mention(t, e));
    case ExtT(n, x) =>
      var c := Close(m);
      KeptTracks(d, c.disc, n, ExtendedTrack(c.at, c.disc.tracks[n], n, x), t, Mention(t, e));
    case ExtD(x) => KeptExtD(m, x, t, d);
    case _ => if e.Heading? || e.Length? || e.Revision? || e.DTitle? { KeptEarly(m, e, t, d); }
              else { KeptLate(m, e, t, d); }
  }

  lemma {:induction false} RunKeeps(m: Machine, lines: seq<string>, t: Mentioned, d: DiscData)
    requires Steady(m) && m.at.state != Stop && Open(t, m.at) && KeptOff(t, d, m.disc)
    requires Run(m, lines).ok
    ensures KeptOff(Mentions(m, lines, t), d, Run(m, lines).disc)
    decreases |lines|
  {
    hide Step, KeptOff, Open, Steady, EffectOf, Mention, Apply;
    if lines != [] {
      var s := ScanLine(lines[0]);
      StepIsTable(m, s);
      KeptStep(m, s, t, d);
      StaysOpen(m, s, t);
      var n := Step(m, s).m;
      if n.at.state != Stop {
        RunKeeps(n, lines[1..], Mention(t, EffectOf(m.at, s)), d);
      }
    }
  }

  // --- the theorems

  /** What the lines of a record mention. */
  function MentionedIn(d: DiscData, lines: seq<string>): Mentioned
  {
    Mentions(Machine(INITIAL, d), lines, NOTHING)
  }

  /** Parsing the same lines into any two discs, when both succeed, mentions the same fields and leaves
      each of them the same in both; every other field keeps what it was. */
  lemma ParseIndependent(d1: DiscData, d2: DiscData, lines: seq<string>)
    requires Parse(d1, lines).ok && Parse(d2, lines).ok
    ensures var t := MentionedIn(d1, lines);
      && t == MentionedIn(d2, lines) && Parse(d1, lines).at == Parse(d2, lines).at
      && SameOn(t, Parse(d1, lines).disc, Parse(d2, lines).disc)
      && KeptOff(t, d1, Parse(d1, lines).disc) && KeptOff(t, d2, Parse(d2, lines).disc)
  {
    TwoRuns(Machine(INITIAL, d1), Machine(INITIAL, d2), lines, NOTHING);
    RunKeeps(Machine(INITIAL, d1), lines, NOTHING, d1);
    RunKeeps(Machine(INITIAL, d2), lines, NOTHING, d2);
  }

  lemma SameControlOf(m1: Machine, m2: Machine, e: Effect)
    requires m1.at == m2.at && |m1.disc.tracks| <= |m2.disc.tracks| && Apply(m1, e).Go?
    ensures Apply(m2, e).Go? && Apply(m1, e).m.at == Apply(m2, e).m.at
    ensures |Apply(m1, e).m.disc.tracks| <= |Apply(m2, e).m.disc.tracks|
  {
    hide AddExt, ExtendedTrack;
    assert Close(m1).at == Close(m2).at;
  }

  lemma SameControl(m1: Machine, m2: Machine, s: Scan)
    requires Steady(m1) && Steady(m2) && m1.at == m2.at && m1.at.state != Stop
    requires |m1.disc.tracks| <= |m2.disc.tracks| && Step(m1, s).Go?
    ensures Step(m2, s).Go? && Step(m1, s).m.at == Step(m2, s).m.at
    ensures |Step(m1, s).m.disc.tracks| <= |Step(m2, s).m.disc.tracks|
  {
    hide EffectOf, Step, Steady;
    StepIsTable(m1, s);
    StepIsTable(m2, s);
    SameControlOf(m1, m2, EffectOf(m1.at, s));
  }

  /** A disc with more tracks accepts every record that one with fewer tracks accepts. */
  lemma {:induction false} MoreTracksAccept(m1: Machine, m2: Machine, lines: seq<string>)
    requires Steady(m1) && Steady(m2) && m1.at == m2.at && m1.at.state != Stop
    requires |m1.disc.tracks| <= |m2.disc.tracks| && Run(m1, lines).ok
    ensures Run(m2, lines).ok
    decreases |lines|
  {
    hide Step, Steady, Apply;
    if lines != [] {
      var s := ScanLine(lines[0]);
      StepIsTable(m1, s);
      SameControl(m1, m2, s);
      StepIsTable(m2, s);
      if Step(m1, s).m.at.state != Stop {
        MoreTracksAccept(Step(m1, s).m, Step(m2, s).m, lines[1..]);
      }
    }
  }

  lemma SameAndKept(t: Mentioned, a: DiscData, b: DiscData)
    requires SameOn(t, a, b) && KeptOff(t, a, b)
    ensures a == b
  {
    forall i | 0 <= i < |a.tracks| ensures a.tracks[i] == b.tracks[i] {
      assert SameTrack(t, i, a.tracks[i], b.tracks[i]) && KeptTrack(t, i, a.tracks[i], b.tracks[i]);
    }
    assert a.tracks == b.tracks;
  }

  /** Reading the same record again into the same disc succeeds and changes nothing. */
  lemma ParseTwice(d: DiscData, lines: seq<string>)
    requires Parse(d, lines).ok
    ensures var r := Parse(d, lines).disc; Parse(r, lines).ok && Parse(r, lines).disc == r
  {
    var r := Parse(d, lines).disc;
    var m := Machine(INITIAL, d);
    RunKeeps(m, lines, NOTHING, d);
    MoreTracksAccept(m, Machine(INITIAL, r), lines);
    ParseIndependent(d, r, lines);
    SameAndKept(MentionedIn(d, lines), r, Parse(r, lines).disc);
  }
}
