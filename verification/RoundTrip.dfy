/** Writing a record and parsing it again. */
module RoundTrip {
  import opened Text
  import opened Patterns
  import opened Records
  import opened Parser
  import opened Format
  import opened Splits
  import Writer
  import Entries

  // --- what comes back

  /** A title line gives artist and title, or a title alone. */
  function ReadTitle(text: string): (r: (Str, Str))
  {
    match Split(text)
    case Both(a, t) => (Some(a), Some(t))
    case Only(x) => (None, Some(x))
  }

  function RestoredTrack(t: TrackData): TrackData
    requires t.title.Some?
  {
    var (artist, title) := ReadTitle(Entries.TitleText(t));
    TrackData(t.frameOffset, -1, title, artist, NonEmpty(OrEmpty(t.extData)))
  }

  function RestoredTracks(ts: seq<TrackData>): (r: seq<TrackData>)
    requires forall i :: 0 <= i < |ts| ==> ts[i].title.Some?
    ensures |r| == |ts| && forall i :: 0 <= i < |ts| ==> r[i] == RestoredTrack(ts[i])
  {
    seq(|ts|, i requires 0 <= i < |ts| => RestoredTrack(ts[i]))
  }

  /** The disc that parsing the record of d leaves in e, a disc without tracks: everything but the
      identifier and the category of e comes from the record. */
  function Restored(e: DiscData, d: DiscData): DiscData
    requires Writer.Writable(d)
  {
    var (artist, title) := ReadTitle(d.artist.value + DELIMITER + d.title.value);
    DiscData(e.discid, e.category, d.year, Some(Writer.GenreText(d)), title, artist, d.length, d.revision,
             NonEmpty(OrEmpty(d.extData)), RestoredTracks(d.tracks))
  }

  predicate OffsetsSet(d: DiscData)
  {
    forall i :: 0 <= i < |d.tracks| ==> d.tracks[i].frameOffset >= 0
  }

  // --- running over the sections of the record

  lemma StepsFirst(m: Machine, lines: seq<string>, m': Machine)
    requires lines != [] && Step(m, ScanLine(lines[0])) == Go(m') && m'.at.state != Stop
    ensures Steps(m, lines) == Steps(m', lines[1..])
  {
    hide Step;
  }

  lemma HeadScan()
    ensures ScanLine(HeadingLine()).heading
  {
    ScanHeading();
  }

  lemma HeadRun(e: DiscData)
    ensures Steps(Machine(INITIAL, e), Entries.HEAD_LINES) ==
            Some(Machine(INITIAL.(state := TrackOffsets), e))
  {
    var lines := Entries.HEAD_LINES;
    var m, m' := Machine(INITIAL, e), Machine(INITIAL.(state := TrackOffsets), e);
    ScanXmcd();
    ScanHash();
    ScanHeading();
    hide ScanLine, Steps, MatchHeading, HeadingLine;
    HeadScan();
    assert Step(m, ScanLine("# xmcd")) == Go(m) && Step(m, ScanLine("#")) == Go(m);
    assert Step(m, ScanLine(HeadingLine())) == Go(m');
    StepsFirst(m, lines, m);
    StepsFirst(m, lines[1..], m);
    assert lines[1..][1..] == [HeadingLine()];
    StepsOne(m, HeadingLine(), m');
  }

  /** A disc after its first k offset lines. */
  function WithOffsets(e: DiscData, ts: seq<TrackData>, k: nat): (r: DiscData)
    requires k <= |ts|
    ensures |r.tracks| == k
  {
    e.(tracks := seq(k, i requires 0 <= i < k => NEW_TRACK.(frameOffset := ts[i].frameOffset)))
  }

  lemma OffsetStep(m: Machine, ts: seq<TrackData>, k: nat, e: DiscData)
    requires k < |ts| && ts[k].frameOffset >= 0
    requires m == Machine(Control(TrackOffsets, NoMulti, k, -1), WithOffsets(e, ts, k))
    ensures Step(m, ScanLine(OffsetLine(ts[k].frameOffset))) ==
            Go(Machine(Control(TrackOffsets, NoMulti, k + 1, -1), WithOffsets(e, ts, k + 1)))
  {
    hide OffsetLine, MatchNumber;
    ScanOffset(ts[k].frameOffset);
    assert WithOffsets(e, ts, k + 1).tracks ==
           WithOffsets(e, ts, k).tracks + [NEW_TRACK.(frameOffset := ts[k].frameOffset)];
  }

  lemma {:induction false} OffsetsRun(e: DiscData, ts: seq<TrackData>, k: nat)
    requires k <= |ts| && e.tracks == [] && forall i :: 0 <= i < |ts| ==> ts[i].frameOffset >= 0
    ensures Steps(Machine(INITIAL.(state := TrackOffsets), e), Entries.OffsetLines(ts)[..k]) ==
            Some(Machine(Control(TrackOffsets, NoMulti, k, -1), WithOffsets(e, ts, k)))
  {
    hide Step, ScanLine, OffsetLine;
    var m, lines := Machine(INITIAL.(state := TrackOffsets), e), Entries.OffsetLines(ts);
    if k == 0 {
      assert WithOffsets(e, ts, 0).tracks == [];
    } else {
      OffsetsRun(e, ts, k - 1);
      var m' := Machine(Control(TrackOffsets, NoMulti, k - 1, -1), WithOffsets(e, ts, k - 1));
      OffsetStep(m', ts, k - 1, e);
      StepsJoin(m, lines[..k - 1], [lines[k - 1]]);
      assert lines[..k] == lines[..k - 1] + [lines[k - 1]];
      StepsOne(m', lines[k - 1], Machine(Control(TrackOffsets, NoMulti, k, -1), WithOffsets(e, ts, k)));
    }
  }

  // --- the section between the offsets and the track titles

  lemma StepsThree(m0: Machine, m1: Machine, m2: Machine, m3: Machine, a: string, b: string, c: string,
                   rest: seq<string>)
    requires Step(m0, ScanLine(a)) == Go(m1) && m1.at.state != Stop
    requires Step(m1, ScanLine(b)) == Go(m2) && m2.at.state != Stop
    requires Step(m2, ScanLine(c)) == Go(m3) && m3.at.state != Stop
    ensures Steps(m0, [a, b, c] + rest) == Steps(m3, rest)
  {
    hide Step, ScanLine, Steps;
    var l3, l2, l1 := [a, b, c] + rest, [b, c] + rest, [c] + rest;
    assert l3[1..] == l2 && l2[1..] == l1 && l1[1..] == rest;
    StepsFirst(m0, l3, m1);
    StepsFirst(m1, l2, m2);
    StepsFirst(m2, l1, m3);
  }

  /** Lines that leave the offsets, give the length, and give the revision. */
  lemma HashStep(m: Machine)
    requires m.at.state in {TrackOffsets, DiscRevision}
    ensures Step(m, ScanLine("#")) ==
            Go(if m.at.state == TrackOffsets then m.(at := m.at.(state := DiscLength)) else m)
  {
    ScanHash();
    hide ScanLine;
  }

  lemma LengthStep(m: Machine, length: nat)
    requires m.at.state == DiscLength
    ensures Step(m, ScanLine(LengthLine(length))) ==
            Go(Machine(m.at.(state := DiscRevision), m.disc.(length := length)))
  {
    hide LengthLine, MatchNumber;
    ScanLength(length);
  }

  lemma RevisionStep(m: Machine, revision: nat)
    requires m.at.state == DiscRevision
    ensures Step(m, ScanLine(RevisionLine(revision))) ==
            Go(Machine(m.at.(state := DiscTitle), m.disc.(revision := revision)))
  {
    hide RevisionLine, MatchNumber;
    ScanRevision(revision);
  }

  /** The lines up to the revision. */
  lemma LengthRun(m: Machine, length: nat, revision: nat, rest: seq<string>)
    requires m.at.state == TrackOffsets
    ensures Steps(m, ["#", LengthLine(length), "#", RevisionLine(revision)] + rest) ==
            Steps(Machine(m.at.(state := DiscTitle), m.disc.(length := length, revision := revision)), rest)
  {
    hide *;
    var a, b := m.(at := m.at.(state := DiscLength)),
                Machine(m.at.(state := DiscRevision), m.disc.(length := length));
    var l, r := LengthLine(length), RevisionLine(revision);
    HashStep(m);
    LengthStep(a, length);
    HashStep(b);
    RevisionStep(b, revision);
    StepsThree(m, a, b, b, "#", l, "#", [r] + rest);
    assert ["#", l, "#", r] + rest == ["#", l, "#"] + ([r] + rest);
    assert ([r] + rest)[1..] == rest;
    StepsFirst(b, [r] + rest, Machine(b.at.(state := DiscTitle), b.disc.(revision := revision)));
  }

  /** Lines that the machine passes over while it waits for the title. */
  lemma {:induction false} PassedOver(m: Machine, lines: seq<string>, rest: seq<string>)
    requires m.at.state == DiscTitle && m.at.multi == NoMulti
    requires forall k :: 0 <= k < |lines| ==> ScanLine(lines[k]).dtitle == None
    ensures Steps(m, lines + rest) == Steps(m, rest)
    decreases |lines|
  {
    hide ScanLine, Steps;
    if lines == [] {
      assert lines + rest == rest;
    } else {
      assert (lines + rest)[1..] == lines[1..] + rest;
      assert Step(m, ScanLine(lines[0])) == Go(m);
      StepsFirst(m, lines + rest, m);
      PassedOver(m, lines[1..], rest);
    }
  }

  lemma CommentsPass(cname: string, cversion: string, discid: Word)
    ensures ScanLine(Writer.SubmittedLine(cname, cversion)).dtitle == None
    ensures ScanLine("#").dtitle == None && ScanLine("DISCID=" + Hex8(discid)).dtitle == None
  {
    ScanHash();
    var a, b := Writer.SubmittedLine(cname, cversion), "DISCID=" + Hex8(discid);
    assert a[0] == '#' && b[1] == 'I';
    ScanOther(a);
    ScanOther(b);
  }

  /** Title, year and genre. */
  lemma NamesSteps(m: Machine, artist: string, title: string, year: nat, genre: string)
    requires m.at == Control(DiscTitle, NoMulti, m.at.trackNo, -1)
    ensures var (x, t) := ReadTitle(artist + DELIMITER + title);
      var a := Machine(m.at.(multi := MultiTitle), m.disc.(artist := x, title := t));
      var b := Machine(m.at.(state := DiscGenre), a.disc.(year := year));
      && Step(m, ScanLine(DTitleLine(artist + DELIMITER + title))) == Go(a)
      && Step(a, ScanLine(YearLine(Entries.YearText(year)))) == Go(b)
      && Step(b, ScanLine(GenreLine(genre))) ==
           Go(Machine(m.at.(state := TrackTitle), b.disc.(genre := Some(genre))))
  {
    var v := artist + DELIMITER + title;
    SplitJoin(artist, title);
    ScanDTitle(v);
    ScanYear(if year != 0 then Some(year) else None);
    ScanGenre(genre);
    hide ScanLine, DTitleLine, YearLine, GenreLine, Split;
    var t := Split(v);
    assert "" + t.artist == t.artist;
  }

  lemma NamesRun(m: Machine, d: DiscData)
    requires m.at == Control(DiscTitle, NoMulti, m.at.trackNo, -1) && Writer.Writable(d)
    ensures var (artist, title) := ReadTitle(d.artist.value + DELIMITER + d.title.value);
      Steps(m, [DTitleLine(d.artist.value + DELIMITER + d.title.value),
                YearLine(Entries.YearText(d.year)), GenreLine(Writer.GenreText(d))]) ==
      Some(Machine(m.at.(state := TrackTitle), m.disc.(artist := artist, title := title, year := d.year,
                                                       genre := Some(Writer.GenreText(d)))))
  {
    var v, y, g := DTitleLine(d.artist.value + DELIMITER + d.title.value),
                   YearLine(Entries.YearText(d.year)), GenreLine(Writer.GenreText(d));
    hide ScanLine, DTitleLine, YearLine, GenreLine, Step, ReadTitle, Writer.GenreText, Entries.YearText;
    NamesSteps(m, d.artist.value, d.title.value, d.year, Writer.GenreText(d));
    var (x, t) := ReadTitle(d.artist.value + DELIMITER + d.title.value);
    var a := Machine(m.at.(multi := MultiTitle), m.disc.(artist := x, title := t));
    var b := Machine(m.at.(state := DiscGenre), a.disc.(year := d.year));
    var c := Machine(m.at.(state := TrackTitle), b.disc.(genre := Some(Writer.GenreText(d))));
    StepsThree(m, a, b, c, v, y, g, []);
    assert [v, y, g] + [] == [v, y, g];
  }

  lemma MiddleRun(m: Machine, d: DiscData, cname: string, cversion: string)
    requires m.at == Control(TrackOffsets, NoMulti, m.at.trackNo, -1) && Writer.Writable(d)
    ensures Steps(m, Entries.MiddleLines(d, cname, cversion)) ==
            Some(Machine(m.at.(state := TrackTitle), Restored(m.disc, d).(tracks := m.disc.tracks,
                                                                          extData := m.disc.extData)))
  {
    hide Steps, ScanLine, LengthLine, RevisionLine, DTitleLine, YearLine, GenreLine, Hex8, Writer.SubmittedLine,
         ReadTitle;
    var all := Entries.MiddleLines(d, cname, cversion);
    var names := all[7..];
    var comments := all[4..7];
    assert all == ["#", LengthLine(d.length), "#", RevisionLine(d.revision)] + (comments + names);
    LengthRun(m, d.length, d.revision, comments + names);
    var m' := Machine(m.at.(state := DiscTitle), m.disc.(length := d.length, revision := d.revision));
    CommentsPass(cname, cversion, d.discid);
    PassedOver(m', comments, names);
    NamesRun(m', d);
  }

  // --- titles and extended data

  /** The tracks after the first k title lines. */
  function WithTitles(ts: seq<TrackData>, k: nat): (r: seq<TrackData>)
    requires k <= |ts| && forall i :: 0 <= i < |ts| ==> ts[i].title.Some?
    ensures |r| == |ts|
    ensures forall i :: 0 <= i < k ==> r[i] == RestoredTrack(ts[i]).(extData := None)
    ensures forall i :: k <= i < |ts| ==> r[i] == NEW_TRACK.(frameOffset := ts[i].frameOffset)
  {
    seq(|ts|, i requires 0 <= i < |ts| =>
      if i < k then RestoredTrack(ts[i]).(extData := None) else NEW_TRACK.(frameOffset := ts[i].frameOffset))
  }

  lemma TitleRead(t: TrackData)
    requires t.title.Some?
    ensures AddTrackTitle(NEW_TRACK.(frameOffset := t.frameOffset), MultiArtist, Split(Entries.TitleText(t))).0 ==
            RestoredTrack(t).(extData := None)
  {
    hide Split;
    var v := Entries.TitleText(t);
    assert "" + v == v;
    if Split(v).Both? { assert "" + Split(v).artist == Split(v).artist; }
  }

  lemma TitleStep(m: Machine, ts: seq<TrackData>, k: nat)
    requires k < |ts| && forall i :: 0 <= i < |ts| ==> ts[i].title.Some?
    requires m.at.state == TrackTitle && m.at.oldNo == k - 1 && m.disc.tracks == WithTitles(ts, k)
    ensures var r := Step(m, ScanLine(TTitleLine(k, Entries.TitleText(ts[k]))));
      r.Go? && r.m.at.state == TrackTitle && r.m.at.oldNo == k
      && r.m.disc == m.disc.(tracks := WithTitles(ts, k + 1))
  {
    hide Step, ScanLine, TTitleLine, Split, AddTrackTitle, Entries.TitleText, RestoredTrack;
    var v := Entries.TitleText(ts[k]);
    TTitleStep(m, k, v);
    TitleRead(ts[k]);
    var (t, multi) := AddTrackTitle(m.disc.tracks[k].(artist := None, title := None), MultiArtist, Split(v));
    assert m.disc.tracks[k := t] == WithTitles(ts, k + 1);
  }

  lemma {:induction false} TitlesRun(m: Machine, ts: seq<TrackData>, k: nat)
    requires k <= |ts| && forall i :: 0 <= i < |ts| ==> ts[i].title.Some?
    requires m.at.state == TrackTitle && m.at.oldNo == -1 && m.disc.tracks == WithTitles(ts, 0)
    ensures var r := Steps(m, Entries.TitleLines(ts)[..k]);
      r.Some? && r.value.at.state == TrackTitle && r.value.at.oldNo == k - 1
      && r.value.disc == m.disc.(tracks := WithTitles(ts, k))
  {
    hide Step, ScanLine, TTitleLine, Entries.TitleText, RestoredTrack;
    var lines := Entries.TitleLines(ts);
    if k > 0 {
      TitlesRun(m, ts, k - 1);
      var m' := Steps(m, lines[..k - 1]).value;
      TitleStep(m', ts, k - 1);
      StepsJoin(m, lines[..k - 1], [lines[k - 1]]);
      assert lines[..k] == lines[..k - 1] + [lines[k - 1]];
      StepsOne(m', lines[k - 1], Step(m', ScanLine(lines[k - 1])).m);
    }
  }

  /** The tracks after the first k lines of extended data. */
  function WithExts(base: seq<TrackData>, ts: seq<TrackData>, k: nat): (r: seq<TrackData>)
    requires k <= |ts| == |base|
    ensures |r| == |ts|
    ensures forall i :: 0 <= i < k ==> r[i] == base[i].(extData := NonEmpty(OrEmpty(ts[i].extData)))
    ensures forall i :: k <= i < |ts| ==> r[i] == base[i]
  {
    seq(|ts|, i requires 0 <= i < |ts| =>
      if i < k then base[i].(extData := NonEmpty(OrEmpty(ts[i].extData))) else base[i])
  }

  /** The extended data of the tracks from k on is still to come. */
  predicate AwaitsExt(at: Control, k: nat)
  {
    at.state == TrackTitle || (at.state in {DiscExt, TrackExt} && at.oldNo == k - 1)
  }

  lemma ExtTLineRun(m: Machine, base: seq<TrackData>, ts: seq<TrackData>, k: nat)
    requires k < |ts| == |base| && AwaitsExt(m.at, k) && m.disc.tracks == WithExts(base, ts, k)
    ensures var r := Steps(m, [ExtTLine(k, OrEmpty(ts[k].extData))]);
      r.Some? && r.value.at.state == TrackExt && r.value.at.oldNo == k
      && r.value.disc == m.disc.(tracks := WithExts(base, ts, k + 1))
  {
    hide Step, ScanLine, ExtTLine, Steps;
    var v := OrEmpty(ts[k].extData);
    ExtTRun(m, k, [v]);
    assert [v][1..] == [] && v + "" == v;
    assert ExtTLines(k, [v]) == [ExtTLine(k, v)];
    assert m.disc.tracks[k := m.disc.tracks[k].(extData := NonEmpty(v))] == WithExts(base, ts, k + 1);
  }

  lemma {:induction false} ExtTsRun(m: Machine, ts: seq<TrackData>, k: nat)
    requires k <= |ts| == |m.disc.tracks| && AwaitsExt(m.at, 0)
    ensures var r := Steps(m, Entries.ExtLines(ts)[..k]);
      r.Some? && AwaitsExt(r.value.at, k) && (if k == 0 then r.value.at == m.at else r.value.at.state == TrackExt)
      && r.value.disc == m.disc.(tracks := WithExts(m.disc.tracks, ts, k))
  {
    hide Step, ScanLine, ExtTLine;
    var lines, base := Entries.ExtLines(ts), m.disc.tracks;
    if k == 0 {
      assert WithExts(base, ts, 0) == base;
    } else {
      ExtTsRun(m, ts, k - 1);
      var m' := Steps(m, lines[..k - 1]).value;
      ExtTLineRun(m', base, ts, k - 1);
      StepsJoin(m, lines[..k - 1], [lines[k - 1]]);
      assert lines[..k] == lines[..k - 1] + [lines[k - 1]];
    }
  }

  // --- the whole record

  /** Where the sections of the record take the machine. */
  lemma SectionsRun(e: DiscData, d: DiscData, cname: string, cversion: string) returns (m: Machine)
    requires e.tracks == [] && Writer.Writable(d) && OffsetsSet(d)
    ensures Steps(Machine(INITIAL, e), Entries.HEAD_LINES + Entries.OffsetLines(d.tracks)
                                       + Entries.MiddleLines(d, cname, cversion)) == Some(m)
    ensures m.at.state == TrackTitle && m.at.oldNo == -1
    ensures m.disc == Restored(e, d).(tracks := WithTitles(d.tracks, 0), extData := e.extData)
  {
    hide Step, Steps, Entries.MiddleLines, Entries.OffsetLines, ReadTitle, Writer.GenreText;
    var h, o, c := Entries.HEAD_LINES, Entries.OffsetLines(d.tracks),
                   Entries.MiddleLines(d, cname, cversion);
    var n := |d.tracks|;
    HeadRun(e);
    OffsetsRun(e, d.tracks, n);
    assert o[..n] == o;
    StepsJoin(Machine(INITIAL, e), h, o);
    var m' := Machine(Control(TrackOffsets, NoMulti, n, -1), WithOffsets(e, d.tracks, n));
    MiddleRun(m', d, cname, cversion);
    StepsJoin(Machine(INITIAL, e), h + o, c);
    m := Machine(m'.at.(state := TrackTitle), Restored(m'.disc, d).(tracks := m'.disc.tracks,
                                                                    extData := m'.disc.extData));
    assert m'.disc.tracks == WithTitles(d.tracks, 0);
  }

  lemma OrderRun(c: Machine)
    requires c.at.state in {DiscExt, TrackExt}
    ensures var r := Steps(c, ["PLAYORDER="]); r.Some? && r.value.at.state == EndDot && r.value.disc == c.disc
  {
    ScanOrder();
    hide ScanLine;
    StepsOne(c, "PLAYORDER=", Step(c, ScanLine("PLAYORDER=")).m);
  }

  /** After the extended data of the disc no track is open. */
  lemma ExtDLeaves(a: Machine, x: string)
    requires a.at.state == TrackTitle
    ensures Steps(a, [ExtDLine(x)]).Some? && Steps(a, [ExtDLine(x)]).value.at.oldNo == -1
  {
    ScanExtD(x);
    hide ScanLine, ExtDLine;
    var s := Step(a, ScanLine(ExtDLine(x)));
    StepsOne(a, ExtDLine(x), s.m);
  }

  lemma AllRestored(ts: seq<TrackData>)
    requires forall i :: 0 <= i < |ts| ==> ts[i].title.Some?
    ensures WithExts(WithTitles(ts, |ts|), ts, |ts|) == RestoredTracks(ts)
  {
    hide ReadTitle;
  }

  lemma TracksRun(m: Machine, d: DiscData, e: DiscData)
    requires Writer.Writable(d) && m.at.state == TrackTitle && m.at.oldNo == -1
    requires m.disc == Restored(e, d).(tracks := WithTitles(d.tracks, 0), extData := e.extData)
    ensures var r := Steps(m, Entries.TitleLines(d.tracks) + ([ExtDLine(OrEmpty(d.extData))]
                              + (Entries.ExtLines(d.tracks) + ["PLAYORDER="])));
      r.Some? && r.value.at.state == EndDot && r.value.disc == Restored(e, d)
  {
    hide Step, Steps, ScanLine, Entries.TitleLines, Entries.ExtLines, ExtDLine, ReadTitle, RestoredTrack,
         Writer.GenreText;
    var n := |d.tracks|;
    var t, x, y, z := Entries.TitleLines(d.tracks), OrEmpty(d.extData),
                      Entries.ExtLines(d.tracks), ["PLAYORDER="];
    TitlesRun(m, d.tracks, n);
    assert t[..n] == t;
    var a := Steps(m, t).value;
    StepsJoin(m, t, [ExtDLine(x)] + (y + z));
    ExtDRun(a, [x]);
    assert [x][1..] == [] && x + "" == x;
    assert ExtDLines([x]) == [ExtDLine(x)];
    var b := Steps(a, [ExtDLine(x)]).value;
    StepsJoin(a, [ExtDLine(x)], y + z);
    ExtDLeaves(a, x);
    ExtTsRun(b, d.tracks, n);
    assert y[..n] == y;
    var c := Steps(b, y).value;
    StepsJoin(b, y, z);
    AllRestored(d.tracks);
    OrderRun(c);
  }

  lemma Group(a: seq<string>, t: seq<string>, x: seq<string>, y: seq<string>, z: seq<string>)
    ensures a + t + x + y + z == a + (t + (x + (y + z)))
  {
  }

  /** The lines of a record take the machine, on a disc without tracks, to where it waits for the dot. */
  lemma LinesRun(e: DiscData, d: DiscData, cname: string, cversion: string)
    requires e.tracks == [] && Writer.Writable(d) && OffsetsSet(d)
    ensures var r := Steps(Machine(INITIAL, e), Entries.Lines(d, cname, cversion));
      r.Some? && r.value.at.state == EndDot && r.value.disc == Restored(e, d)
  {
    var front := Entries.HEAD_LINES + Entries.OffsetLines(d.tracks)
                 + Entries.MiddleLines(d, cname, cversion);
    hide Step, Steps, Run, Entries.MiddleLines, Restored, ExtDLine, HeadingLine;
    var m := SectionsRun(e, d, cname, cversion);
    var t, x, y, z := Entries.TitleLines(d.tracks), [ExtDLine(OrEmpty(d.extData))],
                      Entries.ExtLines(d.tracks), ["PLAYORDER="];
    Group(front, t, x, y, z);
    StepsJoin(Machine(INITIAL, e), front, t + (x + (y + z)));
    TracksRun(m, d, e);
  }

  /** Parsing the lines of a record into a disc without tracks succeeds and leaves Restored there. */
  lemma ParseLines(e: DiscData, d: DiscData, cname: string, cversion: string)
    requires e.tracks == [] && Writer.Writable(d) && OffsetsSet(d)
    ensures var r := Parse(e, Entries.Lines(d, cname, cversion)); r.ok && r.disc == Restored(e, d)
  {
    hide Steps, Entries.Lines, Restored;
    var lines := Entries.Lines(d, cname, cversion);
    LinesRun(e, d, cname, cversion);
    RunFrom(Machine(INITIAL, e), lines, []);
    assert lines + [] == lines;
  }

  predicate TrackSplitsBack(t: TrackData)
    requires t.title.Some?
  {
    if t.artist.Some? then SplitsBack(t.title.value) else !HasDelimiter(t.title.value)
  }

  /** The names that come back as they were written. */
  predicate NamesSplitBack(d: DiscData)
    requires Writer.Writable(d)
  {
    SplitsBack(d.title.value) && forall i :: 0 <= i < |d.tracks| ==> TrackSplitsBack(d.tracks[i])
  }

  /** An empty text cannot be told from none. */
  function Present(s: Str): Str
  {
    if s == Some("") then None else s
  }

  function NormalTracks(ts: seq<TrackData>): (r: seq<TrackData>)
    ensures |r| == |ts| && forall i :: 0 <= i < |ts| ==>
      r[i] == ts[i].(length := -1, extData := Present(ts[i].extData))
  {
    seq(|ts|, i requires 0 <= i < |ts| => ts[i].(length := -1, extData := Present(ts[i].extData)))
  }

  /** d as a record can hold it: no track lengths, the category name when there is no genre, and no
      difference between empty and absent extended data. */
  function Normal(e: DiscData, d: DiscData): DiscData
    requires Writer.Writable(d)
  {
    d.(discid := e.discid, category := e.category,
       genre := if d.genre in {None, Some("")} then Some(CategoryName(d.category)) else d.genre,
       extData := Present(d.extData), tracks := NormalTracks(d.tracks))
  }

  lemma TrackComesBack(t: TrackData)
    requires t.title.Some?
    ensures RestoredTrack(t) == t.(length := -1, extData := Present(t.extData)) <==> TrackSplitsBack(t)
  {
    if t.artist.Some? { SplitJoin(t.artist.value, t.title.value); }
    hide SplitsBack, HasDelimiter;
  }

  /** Writing a record and parsing its lines gives the disc back exactly when all titles split back. */
  lemma RoundTrip(e: DiscData, d: DiscData, cname: string, cversion: string)
    requires e.tracks == [] && Writer.Writable(d) && OffsetsSet(d)
    ensures var r := Parse(e, Entries.Lines(d, cname, cversion));
      r.ok && (r.disc == Normal(e, d) <==> NamesSplitBack(d))
  {
    ParseLines(e, d, cname, cversion);
    SplitJoin(d.artist.value, d.title.value);
    assert NonEmpty(OrEmpty(d.extData)) == Present(d.extData);
    forall i | 0 <= i < |d.tracks|
      ensures RestoredTracks(d.tracks)[i] == NormalTracks(d.tracks)[i] <==> TrackSplitsBack(d.tracks[i])
    {
      TrackComesBack(d.tracks[i]);
    }
    hide Parse, SplitsBack, TrackSplitsBack, RestoredTrack, Entries.Lines;
    var r := Restored(e, d);
    if NamesSplitBack(d) {
      assert r.tracks == NormalTracks(d.tracks);
    }
    if r == Normal(e, d) {
      forall i | 0 <= i < |d.tracks| ensures TrackSplitsBack(d.tracks[i]) {
        assert RestoredTracks(d.tracks)[i] == NormalTracks(d.tracks)[i];
      }
    }
  }
}
