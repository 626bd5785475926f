/** The file that the writer makes of a disc: what it holds, and when it is the record line by line. */
module Entries {
  import opened Text
  import opened Patterns
  import opened Records
  import opened Streams
  import opened Format
  import opened Writer
  import opened WriterSizes

  // --- the lines of a record

  function YearText(year: nat): string
  {
    if year != 0 then Decimal(year) else ""
  }

  function TitleText(t: TrackData): string
    requires t.title.Some?
  {
    if t.artist.Some? then t.artist.value + DELIMITER + t.title.value else t.title.value
  }

  const HEAD_LINES: seq<string> := ["# xmcd", "#", HeadingLine()]

  function OffsetLines(ts: seq<TrackData>): (r: seq<string>)
    ensures |r| == |ts| && forall i :: 0 <= i < |ts| ==> r[i] == OffsetLine(ts[i].frameOffset)
  {
    seq(|ts|, i requires 0 <= i < |ts| => OffsetLine(ts[i].frameOffset))
  }

  function MiddleLines(d: DiscData, cname: string, cversion: string): (r: seq<string>)
    requires Writable(d)
    ensures |r| == 10
  {
    ["#", LengthLine(d.length), "#", RevisionLine(d.revision), SubmittedLine(cname, cversion), "#",
     "DISCID=" + Hex8(d.discid), DTitleLine(d.artist.value + DELIMITER + d.title.value),
     YearLine(YearText(d.year)), GenreLine(GenreText(d))]
  }

  function TitleLines(ts: seq<TrackData>): (r: seq<string>)
    requires forall i :: 0 <= i < |ts| ==> ts[i].title.Some?
    ensures |r| == |ts| && forall i :: 0 <= i < |ts| ==> r[i] == TTitleLine(i, TitleText(ts[i]))
  {
    seq(|ts|, i requires 0 <= i < |ts| => TTitleLine(i, TitleText(ts[i])))
  }

  function ExtLines(ts: seq<TrackData>): (r: seq<string>)
    ensures |r| == |ts| && forall i :: 0 <= i < |ts| ==> r[i] == ExtTLine(i, OrEmpty(ts[i].extData))
  {
    seq(|ts|, i requires 0 <= i < |ts| => ExtTLine(i, OrEmpty(ts[i].extData)))
  }

  function Lines(d: DiscData, cname: string, cversion: string): seq<string>
    requires Writable(d)
  {
    HEAD_LINES + OffsetLines(d.tracks) + MiddleLines(d, cname, cversion) + TitleLines(d.tracks)
    + [ExtDLine(OrEmpty(d.extData))] + ExtLines(d.tracks) + ["PLAYORDER="]
  }

  // --- lines in groups: those of each part

  function Flatten(gs: seq<seq<string>>): seq<string>
  {
    if gs == [] then [] else Flatten(gs[..|gs| - 1]) + gs[|gs| - 1]
  }

  lemma {:induction false} FlattenAppend(a: seq<seq<string>>, b: seq<seq<string>>)
    ensures Flatten(a + b) == Flatten(a) + Flatten(b)
    decreases |b|
  {
    if b == [] {
      assert a + b == a;
    } else {
      var n := |b| - 1;
      assert (a + b)[..|a + b| - 1] == a + b[..n];
      FlattenAppend(a, b[..n]);
    }
  }

  lemma FlattenOne(g: seq<string>)
    ensures Flatten([g]) == g
  {
    assert [g][..0] == [];
  }

  function Singles(lines: seq<string>): (gs: seq<seq<string>>)
    ensures |gs| == |lines| && forall k :: 0 <= k < |gs| ==> gs[k] == [lines[k]]
  {
    seq(|lines|, k requires 0 <= k < |lines| => [lines[k]])
  }

  lemma {:induction false} FlattenSingles(lines: seq<string>)
    ensures Flatten(Singles(lines)) == lines
  {
    if lines != [] {
      var n := |lines| - 1;
      FlattenSingles(lines[..n]);
      assert Singles(lines)[..n] == Singles(lines[..n]);
    }
  }

  /** The characters that lines of a record begin with. */
  predicate IsMark(c: char) { c in "#DTEP" }

  /** A part that is longer than declared is cut within its last line, where no mark stands. */
  ghost predicate CutInLast(p: Piece, g: seq<string>)
    requires g != []
  {
    var front, l := Save(g[..|g| - 1]), g[|g| - 1];
    && |front| <= p.declared <= |front| + |l|
    && (p.declared < |front| + |l| ==> !IsMark(l[p.declared - |front|]))
  }

  /** A part prints these lines; it begins with a mark, and so does what follows it. */
  ghost predicate Prints(p: Piece, g: seq<string>)
  {
    && g != [] && p.text == Save(g) && g[0] != "" && IsMark(g[0][0]) && p.declared >= 2
    && (p.declared < |p.text| ==> CutInLast(p, g))
  }

  ghost predicate Parallel(ps: seq<Piece>, gs: seq<seq<string>>)
  {
    |ps| == |gs| && forall k :: 0 <= k < |ps| ==> Prints(ps[k], gs[k])
  }

  lemma ParallelAppend(ps: seq<Piece>, gs: seq<seq<string>>, ps': seq<Piece>, gs': seq<seq<string>>)
    requires Parallel(ps, gs) && Parallel(ps', gs')
    ensures Parallel(ps + ps', gs + gs')
  {
    hide Prints;
  }

  // --- the lines of each part

  lemma SaveOne(line: string)
    ensures Save([line]) == line + "\n"
  {
    assert [line][1..] == [];
  }

  lemma SaveTwo(a: string, b: string)
    ensures Save([a, b]) == a + "\n" + b + "\n"
    ensures Save([a, b][..1]) == a + "\n"
  {
    assert [a, b] == [a] + [b] && [a, b][..1] == [a];
    SaveAppend([a], [b]);
    SaveOne(a);
    SaveOne(b);
  }

  /** A part of one line, whose declared length is long enough or cuts the line where no mark stands. */
  lemma OneLine(p: Piece, l: string)
    requires p.text == l + "\n" && l != "" && IsMark(l[0]) && p.declared >= 2
    requires p.declared < |l| ==> !IsMark(l[p.declared])
    ensures Prints(p, [l])
  {
    SaveOne(l);
    assert [l][..0] == [] && Save([]) == "";
  }

  /** A part of two lines. */
  lemma TwoLines(p: Piece, a: string, b: string)
    requires p.text == a + "\n" + b + "\n" && a != "" && IsMark(a[0]) && p.declared >= |a| + 1 >= 2
    requires p.declared < |a| + 1 + |b| ==> !IsMark(b[p.declared - |a| - 1])
    ensures Prints(p, [a, b])
  {
    SaveTwo(a, b);
  }

  lemma DigitNoMark(c: char)
    requires IsDigit(c)
    ensures !IsMark(c)
  {
  }

  /** A padded number that is too wide has no padding, and digits behind its first character. */
  lemma WideDigits(w: nat, n: int, k: nat)
    requires w < |Padded(w, n)| && 0 < k < |Padded(w, n)|
    ensures IsDigit(Padded(w, n)[k])
  {
    var d := Decimal(if n < 0 then -n else n);
    assert Padded(w, n) == Signed(n);
    assert n < 0 ==> Signed(n) == ['-'] + d;
  }

  lemma OffsetPrints(offset: int)
    ensures Prints(OffsetPiece(offset), [OffsetLine(offset)])
  {
    hide Padded;
    var l, x := OffsetLine(offset), Padded(8, offset);
    assert |l| == 5 + |x| && (forall k :: 5 <= k < |l| ==> l[k] == x[k - 5]) && l[0] == '#';
    if 14 < |l| {
      WideDigits(8, offset, 9);
      DigitNoMark(l[14]);
    }
    OneLine(OffsetPiece(offset), l);
  }

  lemma SecondsNoMark(k: nat)
    requires k < |SECONDS|
    ensures !IsMark(SECONDS[k])
  {
  }

  lemma LengthPrints(length: nat)
    ensures Prints(Piece(26 + 6, "#" + "\n" + LengthLine(length) + "\n"), ["#", LengthLine(length)])
  {
    hide Padded;
    var l, x := LengthLine(length), Padded(6, length);
    assert |l| == 15 + |x| + |SECONDS|;
    assert forall k :: 15 <= k < |l| ==> l[k] == (x + SECONDS)[k - 15];
    if 30 < |l| {
      if 15 < |x| {
        WideDigits(6, length, 15);
        DigitNoMark(l[30]);
      } else {
        SecondsNoMark(15 - |x|);
      }
    }
    TwoLines(Piece(26 + 6, "#" + "\n" + l + "\n"), "#", l);
  }

  lemma RevisionPrints(revision: nat)
    ensures Prints(Piece(15 + 8, "#" + "\n" + RevisionLine(revision) + "\n"), ["#", RevisionLine(revision)])
  {
    hide Padded;
    var l, x := RevisionLine(revision), Padded(8, revision);
    assert |l| == 12 + |x| && forall k :: 12 <= k < |l| ==> l[k] == x[k - 12];
    if 21 < |l| {
      WideDigits(8, revision, 9);
      DigitNoMark(l[21]);
    }
    TwoLines(Piece(15 + 8, "#" + "\n" + l + "\n"), "#", l);
  }

  lemma YearPrints(year: nat)
    ensures Prints(YearPiece(year), [YearLine(YearText(year))])
  {
    var l := YearLine(YearText(year));
    hide Decimal;
    if year != 0 && 11 < |l| {
      assert l[11] == Decimal(year)[5];
      DigitNoMark(l[11]);
    }
    OneLine(YearPiece(year), l);
  }

  /** The width of an index is never too small. */
  lemma TitlePrints(i: nat, t: TrackData)
    requires t.title.Some?
    ensures Prints(TitlePiece(i, t), [TTitleLine(i, TitleText(t))])
  {
    hide IndexWidth, Decimal;
    IndexExact(i);
    TitleExact(i, t);
    OneLine(TitlePiece(i, t), TTitleLine(i, TitleText(t)));
  }

  lemma ExtTPrints(i: nat, t: TrackData)
    ensures Prints(ExtTPiece(i, t), [ExtTLine(i, OrEmpty(t.extData))])
  {
    hide IndexWidth, Decimal, OrEmpty;
    IndexExact(i);
    ExtTExact(i, t);
    OneLine(ExtTPiece(i, t), ExtTLine(i, OrEmpty(t.extData)));
  }

  // --- the lines of all parts

  function HeadGroups(): (r: seq<seq<string>>)
    ensures |r| == 2
  {
    [["# xmcd", "#"], [HeadingLine()]]
  }

  function MiddleGroups(d: DiscData, cname: string, cversion: string): (r: seq<seq<string>>)
    requires Writable(d)
    ensures |r| == 7
  {
    [["#", LengthLine(d.length)], ["#", RevisionLine(d.revision)], [SubmittedLine(cname, cversion), "#"],
     ["DISCID=" + Hex8(d.discid)], [DTitleLine(d.artist.value + DELIMITER + d.title.value)],
     [YearLine(YearText(d.year))], [GenreLine(GenreText(d))]]
  }

  function Groups(d: DiscData, cname: string, cversion: string): seq<seq<string>>
    requires Writable(d)
  {
    HeadGroups() + Singles(OffsetLines(d.tracks)) + MiddleGroups(d, cname, cversion) + Singles(TitleLines(d.tracks))
    + [[ExtDLine(OrEmpty(d.extData))]] + Singles(ExtLines(d.tracks)) + [["PLAYORDER="]]
  }

  lemma HeadParallel()
    ensures Parallel(HeadPieces(), HeadGroups())
  {
    TwoLines(Piece(9, "# xmcd" + "\n" + "#" + "\n"), "# xmcd", "#");
    OneLine(Piece(23, HeadingLine() + "\n"), HeadingLine());
    hide Prints;
  }

  lemma MiddleParallel(d: DiscData, cname: string, cversion: string)
    requires Writable(d)
    ensures Parallel(MiddlePieces(d, cname, cversion), MiddleGroups(d, cname, cversion))
  {
    hide Prints, LengthLine, RevisionLine, Padded, Hex8, GenreText, YearPiece, YearLine;
    var ms, gs := MiddlePieces(d, cname, cversion), MiddleGroups(d, cname, cversion);
    LengthPrints(d.length);
    RevisionPrints(d.revision);
    YearPrints(d.year);
    TwoLines(ms[2], SubmittedLine(cname, cversion), "#");
    OneLine(ms[3], gs[3][0]);
    OneLine(ms[4], gs[4][0]);
    OneLine(ms[6], gs[6][0]);
  }

  lemma TracksParallel(ts: seq<TrackData>)
    requires forall i :: 0 <= i < |ts| ==> ts[i].title.Some?
    ensures Parallel(OffsetPieces(ts), Singles(OffsetLines(ts)))
    ensures Parallel(TitlePieces(ts), Singles(TitleLines(ts)))
    ensures Parallel(ExtTPieces(ts), Singles(ExtLines(ts)))
  {
    hide Prints, OffsetPiece, TitlePiece, ExtTPiece, OffsetLine, TTitleLine, ExtTLine, TitleText, OrEmpty;
    forall i | 0 <= i < |ts|
      ensures Prints(OffsetPieces(ts)[i], Singles(OffsetLines(ts))[i])
      ensures Prints(TitlePieces(ts)[i], Singles(TitleLines(ts))[i])
      ensures Prints(ExtTPieces(ts)[i], Singles(ExtLines(ts))[i])
    {
      OffsetPrints(ts[i].frameOffset);
      TitlePrints(i, ts[i]);
      ExtTPrints(i, ts[i]);
    }
  }

  lemma LastParallel(d: DiscData)
    ensures Parallel([ExtDPiece(d)], [[ExtDLine(OrEmpty(d.extData))]])
    ensures Parallel([OrderPiece()], [["PLAYORDER="]])
  {
    hide OrEmpty;
    OneLine(ExtDPiece(d), ExtDLine(OrEmpty(d.extData)));
    OneLine(OrderPiece(), "PLAYORDER=");
    hide Prints;
  }

  lemma AllParallel(d: DiscData, cname: string, cversion: string)
    requires Writable(d)
    ensures Parallel(Pieces(d, cname, cversion), Groups(d, cname, cversion))
  {
    hide Parallel, HeadPieces, HeadGroups, MiddlePieces, MiddleGroups, OffsetPieces, TitlePieces, ExtTPieces, Singles,
         ExtDPiece, OrderPiece, ExtDLine;
    var a, b, c, e := HeadPieces(), OffsetPieces(d.tracks), MiddlePieces(d, cname, cversion), TitlePieces(d.tracks);
    var f, g, h := [ExtDPiece(d)], ExtTPieces(d.tracks), [OrderPiece()];
    var a', b', c', e' := HeadGroups(), Singles(OffsetLines(d.tracks)), MiddleGroups(d, cname, cversion),
                          Singles(TitleLines(d.tracks));
    var f', g', h' := [[ExtDLine(OrEmpty(d.extData))]], Singles(ExtLines(d.tracks)), [["PLAYORDER="]];
    HeadParallel();
    TracksParallel(d.tracks);
    MiddleParallel(d, cname, cversion);
    LastParallel(d);
    ParallelAppend(a, a', b, b');
    ParallelAppend(a + b, a' + b', c, c');
    ParallelAppend(a + b + c, a' + b' + c', e, e');
    ParallelAppend(a + b + c + e, a' + b' + c' + e', f, f');
    ParallelAppend(a + b + c + e + f, a' + b' + c' + e' + f', g, g');
    ParallelAppend(a + b + c + e + f + g, a' + b' + c' + e' + f' + g', h, h');
  }

  lemma HeadFlat()
    ensures Flatten(HeadGroups()) == HEAD_LINES
  {
    var h := HeadingLine();
    hide HeadingLine;
    FlattenAppend([["# xmcd", "#"]], [[h]]);
    FlattenOne(["# xmcd", "#"]);
    FlattenOne([h]);
    assert HeadGroups() == [["# xmcd", "#"]] + [[h]];
  }

  lemma FlattenSeven(a: seq<string>, b: seq<string>, c: seq<string>, rest: seq<string>, gs: seq<seq<string>>)
    requires gs == [a, b, c] + Singles(rest)
    ensures Flatten(gs) == a + b + c + rest
  {
    FlattenAppend([a, b, c], Singles(rest));
    FlattenSingles(rest);
    FlattenAppend([a, b], [c]);
    FlattenAppend([a], [b]);
    FlattenOne(a);
    FlattenOne(b);
    FlattenOne(c);
    assert [a, b, c] == [a, b] + [c] && [a, b] == [a] + [b];
  }

  lemma MiddleFlat(d: DiscData, cname: string, cversion: string)
    requires Writable(d)
    ensures Flatten(MiddleGroups(d, cname, cversion)) == MiddleLines(d, cname, cversion)
  {
    hide Flatten, LengthLine, RevisionLine, SubmittedLine, DTitleLine, YearLine, GenreLine, Hex8, GenreText, YearText;
    var ls := MiddleLines(d, cname, cversion);
    FlattenSeven([ls[0], ls[1]], [ls[2], ls[3]], [ls[4], ls[5]], ls[6..], MiddleGroups(d, cname, cversion));
  }

  lemma AllFlat(d: DiscData, cname: string, cversion: string)
    requires Writable(d)
    ensures Flatten(Groups(d, cname, cversion)) == Lines(d, cname, cversion)
  {
    hide Flatten, HeadGroups, MiddleGroups, Singles, MiddleLines, OffsetLines, TitleLines, ExtLines, ExtDLine;
    var a, b, c, e := HeadGroups(), Singles(OffsetLines(d.tracks)), MiddleGroups(d, cname, cversion),
                      Singles(TitleLines(d.tracks));
    var f, g, h := [[ExtDLine(OrEmpty(d.extData))]], Singles(ExtLines(d.tracks)), [["PLAYORDER="]];
    HeadFlat();
    MiddleFlat(d, cname, cversion);
    FlattenSingles(OffsetLines(d.tracks));
    FlattenSingles(TitleLines(d.tracks));
    FlattenSingles(ExtLines(d.tracks));
    FlattenOne(f[0]);
    FlattenOne(h[0]);
    FlattenAppend(a, b);
    FlattenAppend(a + b, c);
    FlattenAppend(a + b + c, e);
    FlattenAppend(a + b + c + e, f);
    FlattenAppend(a + b + c + e + f, g);
    FlattenAppend(a + b + c + e + f + g, h);
  }

  // --- printing parts that mark their lines, any parts

  /** The text of all parts, one behind the other. */
  function TextOf(ps: seq<Piece>): string
  {
    if ps == [] then "" else TextOf(ps[..|ps| - 1]) + ps[|ps| - 1].text
  }

  lemma TextTo(ps: seq<Piece>, k: nat)
    requires k < |ps|
    ensures TextOf(ps[..k + 1]) == TextOf(ps[..k]) + ps[k].text
    ensures Total(ps[..k + 1]) == Total(ps[..k]) + ps[k].declared
  {
    assert ps[..k + 1][..k] == ps[..k];
  }

  lemma {:induction false} TextGrows(ps: seq<Piece>, m: nat, n: nat)
    requires m <= n <= |ps|
    ensures TextOf(ps[..m]) <= TextOf(ps[..n])
  {
    if m < n {
      TextGrows(ps, m, n - 1);
      TextTo(ps, n - 1);
    }
  }

  lemma FlattenTo(gs: seq<seq<string>>, k: nat)
    requires k < |gs|
    ensures Flatten(gs[..k + 1]) == Flatten(gs[..k]) + gs[k]
  {
    assert gs[..k + 1][..k] == gs[..k];
  }

  lemma ParallelNext(ps: seq<Piece>, gs: seq<seq<string>>, k: nat)
    requires Parallel(ps, gs) && k < |ps| && TextOf(ps[..k]) == Save(Flatten(gs[..k]))
    ensures TextOf(ps[..k + 1]) == Save(Flatten(gs[..k + 1]))
  {
    hide TextOf, Flatten, Save, CutInLast;
    TextTo(ps, k);
    FlattenTo(gs, k);
    SaveAppend(Flatten(gs[..k]), gs[k]);
    assert Prints(ps[k], gs[k]);
  }

  lemma {:induction false} ParallelText(ps: seq<Piece>, gs: seq<seq<string>>, k: nat)
    requires Parallel(ps, gs) && k <= |ps|
    ensures TextOf(ps[..k]) == Save(Flatten(gs[..k]))
  {
    if k > 0 {
      ParallelText(ps, gs, k - 1);
      ParallelNext(ps, gs, k - 1);
    }
  }

  lemma SaveStarts(g: seq<string>)
    requires g != [] && g[0] != ""
    ensures Save(g) != "" && Save(g)[0] == g[0][0]
  {
  }

  lemma ParallelSizes(ps: seq<Piece>, gs: seq<seq<string>>)
    requires Parallel(ps, gs)
    ensures |ps| == |gs| && forall k :: 0 <= k < |ps| ==> ps[k].declared >= 2 && ps[k].text != ""
  {
    hide CutInLast, Save;
    forall k | 0 <= k < |ps| ensures ps[k].declared >= 2 && ps[k].text != "" {
      assert Prints(ps[k], gs[k]);
      SaveStarts(gs[k]);
    }
  }

  lemma ParallelAll(ps: seq<Piece>, gs: seq<seq<string>>)
    requires Parallel(ps, gs)
    ensures TextOf(ps) == Save(Flatten(gs))
  {
    hide TextOf, Flatten, Save, Parallel;
    ParallelText(ps, gs, |ps|);
    ParallelSizes(ps, gs);
    assert ps[..|ps|] == ps && gs[..|gs|] == gs;
  }

  /** What the declared lengths say is in the buffer at the end. */
  function FileFrom(s: string, ps: seq<Piece>): (r: string)
    requires Total(ps) <= |s|
    ensures |r| == Total(ps)
  {
    TotalInside(ps, |s|);
    Layout(s, ps)[..Total(ps)]
  }

  lemma PrintWhole(s: string, pos: nat, text: string)
    requires pos + |text| < |s|
    ensures Print(s, pos, text) == s[..pos] + text + [NUL] + s[pos + |text| + 1..]
  {
  }

  lemma PrintKeeps(s: string, pos: nat, text: string, k: nat)
    requires k <= pos <= |s|
    ensures Print(s, pos, text)[..k] == s[..k]
  {
  }

  lemma LayoutTo(s: string, ps: seq<Piece>, k: nat)
    requires Inside(ps, |s|) && k < |ps|
    ensures Inside(ps[..k], |s|) && Inside(ps[..k + 1], |s|) && Total(ps[..k]) <= |s|
    ensures Layout(s, ps[..k + 1]) == Print(Layout(s, ps[..k]), Total(ps[..k]), ps[k].text)
  {
    hide Layout, Print, Total;
    InsidePrefix(ps, k, |s|);
    InsidePrefix(ps, k + 1, |s|);
    assert ps[..k + 1] == ps[..k] + [ps[k]];
    LayoutStep(s, ps[..k], ps[k]);
  }

  /** Later parts do not reach back before the point where the pointer stood. */
  lemma {:induction false} LayoutKeeps(s: string, ps: seq<Piece>, m: nat, n: nat)
    requires Inside(ps, |s|) && m <= n <= |ps| && Total(ps[..m]) <= |s|
    ensures Inside(ps[..m], |s|) && Inside(ps[..n], |s|)
    ensures Layout(s, ps[..n])[..Total(ps[..m])] == Layout(s, ps[..m])[..Total(ps[..m])]
  {
    hide Print, Layout, Total, Inside;
    InsidePrefix(ps, m, |s|);
    InsidePrefix(ps, n, |s|);
    if m < n {
      LayoutKeeps(s, ps, m, n - 1);
      TotalGrows(ps, m, n - 1);
      LayoutTo(s, ps, n - 1);
      PrintKeeps(Layout(s, ps[..n - 1]), Total(ps[..n - 1]), ps[n - 1].text, Total(ps[..m]));
    }
  }

  lemma ExactPrefix(ps: seq<Piece>, k: nat)
    requires AllExact(ps) && k < |ps|
    ensures AllExact(ps[..k]) && Exact(ps[k])
  {
  }

  /** As long as the lengths are exact and there is room, the buffer holds the text. */
  lemma {:induction false} LayoutExact(s: string, ps: seq<Piece>, k: nat)
    requires Inside(ps, |s|) && k <= |ps| && AllExact(ps[..k]) && Total(ps[..k]) < |s|
    ensures Inside(ps[..k], |s|) && Total(ps[..k]) == |TextOf(ps[..k])|
    ensures Layout(s, ps[..k])[..Total(ps[..k])] == TextOf(ps[..k])
  {
    hide Print, Inside, AllExact;
    InsidePrefix(ps, k, |s|);
    if k > 0 {
      hide Layout, TextOf;
      var p := ps[k - 1];
      ExactPrefix(ps[..k], k - 1);
      assert ps[..k][..k - 1] == ps[..k - 1];
      TextTo(ps, k - 1);
      LayoutExact(s, ps, k - 1);
      LayoutTo(s, ps, k - 1);
      var before := Layout(s, ps[..k - 1]);
      PrintWhole(before, Total(ps[..k - 1]), p.text);
    } else {
      assert ps[..0] == [];
    }
  }

  lemma LayoutEnds(s: string, ps: seq<Piece>, k: nat)
    requires Total(ps) <= |s| && k <= |ps|
    ensures Inside(ps, |s|) && Inside(ps[..k], |s|) && Total(ps[..k]) <= Total(ps)
    ensures FileFrom(s, ps)[..Total(ps[..k])] == Layout(s, ps[..k])[..Total(ps[..k])]
  {
    hide Layout, Total, Inside;
    TotalInside(ps, |s|);
    TotalGrows(ps, k, |ps|);
    assert ps[..|ps|] == ps;
    LayoutKeeps(s, ps, k, |ps|);
    assert FileFrom(s, ps)[..Total(ps[..k])] == Layout(s, ps)[..Total(ps[..k])];
  }

  lemma PrintCut(s: string, pos: nat, text: string)
    requires pos + |text| == |s| && text != ""
    ensures Print(s, pos, text) == s[..pos] + text[..|text| - 1] + [NUL]
  {
  }

  /** Exact lengths throughout give the text, of which the last character gives way to a zero if it would end at the
      very end of the buffer. */
  lemma ExactFrom(s: string, ps: seq<Piece>)
    requires Total(ps) <= |s| && AllExact(ps) && ps != [] && ps[|ps| - 1].text != ""
    ensures var t := TextOf(ps);
      |t| == Total(ps) && FileFrom(s, ps) == if |t| < |s| then t else t[..|t| - 1] + [NUL]
  {
    hide Layout, Total, Inside, TextOf, Print, AllExact;
    var n := |ps| - 1;
    var p := ps[n];
    assert ps[..n + 1] == ps;
    TotalInside(ps, |s|);
    TextTo(ps, n);
    assert AllExact(ps[..n]) && Exact(p) by { ExactPrefix(ps, n); }
    LayoutExact(s, ps, n);
    LayoutTo(s, ps, n);
    var before, pos := Layout(s, ps[..n]), Total(ps[..n]);
    if Total(ps) < |s| {
      PrintWhole(before, pos, p.text);
    } else {
      PrintCut(before, pos, p.text);
      assert TextOf(ps)[..|TextOf(ps)| - 1] == TextOf(ps[..n]) + p.text[..|p.text| - 1];
    }
  }

  /** The first part whose length is wrong. */
  lemma {:induction false} FirstInexact(ps: seq<Piece>) returns (k: nat)
    requires !AllExact(ps)
    ensures k < |ps| && AllExact(ps[..k]) && !Exact(ps[k])
  {
    hide Exact;
    var n := |ps| - 1;
    if AllExact(ps[..n]) {
      k := n;
      assert forall i :: 0 <= i < n ==> ps[..n][i] == ps[i];
    } else {
      k := FirstInexact(ps[..n]);
      assert ps[..n][..k] == ps[..k];
    }
  }

  /** A declared length that is too large leaves a zero behind the text. */
  lemma GapFrom(s: string, ps: seq<Piece>, k: nat) returns (rest: string)
    requires Total(ps) <= |s| && k < |ps| && AllExact(ps[..k]) && ps[k].declared > |ps[k].text|
    ensures FileFrom(s, ps) == TextOf(ps[..k + 1]) + ([NUL] + rest)
  {
    hide Layout, Total, Inside, TextOf, Print, AllExact, FileFrom;
    var p, pos := ps[k], Total(ps[..k]);
    TextTo(ps, k);
    LayoutEnds(s, ps, k + 1);
    LayoutExact(s, ps, k);
    LayoutTo(s, ps, k);
    PrintWhole(Layout(s, ps[..k]), pos, p.text);
    var whole, m := FileFrom(s, ps), pos + |p.text| + 1;
    assert whole[..m] == whole[..Total(ps[..k + 1])][..m] == TextOf(ps[..k]) + p.text + [NUL];
    rest := whole[m..];
    assert whole == whole[..m] + rest;
    assert whole == TextOf(ps[..k + 1]) + ([NUL] + rest);
  }

  /** The first characters of a text are printed if there is room for them and a zero. */
  lemma PrintStart(s: string, pos: nat, text: string, n: nat)
    requires n <= |text| && pos + n < |s|
    ensures Print(s, pos, text)[..pos + n] == s[..pos] + text[..n]
  {
  }

  /** One that is too small lets the next part begin within the text. */
  lemma OverrunFrom(s: string, ps: seq<Piece>, k: nat) returns (rest: string)
    requires Total(ps) <= |s| && k + 1 < |ps| && AllExact(ps[..k]) && ps[k].declared < |ps[k].text|
    requires ps[k + 1].declared >= 2 && ps[k + 1].text != ""
    ensures FileFrom(s, ps) == TextOf(ps[..k]) + ps[k].text[..ps[k].declared] + ([ps[k + 1].text[0]] + rest)
  {
    hide Layout, Total, Inside, TextOf, Print, AllExact, FileFrom;
    var p, q, pos := ps[k], ps[k + 1], Total(ps[..k]);
    TextTo(ps, k);
    TextTo(ps, k + 1);
    LayoutEnds(s, ps, k + 2);
    LayoutExact(s, ps, k);
    LayoutTo(s, ps, k);
    LayoutTo(s, ps, k + 1);
    var before := Layout(s, ps[..k]);
    PrintStart(before, pos, p.text, p.declared);
    var middle := Layout(s, ps[..k + 1]);
    PrintStart(middle, pos + p.declared, q.text, 1);
    var after := Layout(s, ps[..k + 2]);
    var whole, m := FileFrom(s, ps), pos + p.declared + 1;
    assert after[..m] == middle[..m - 1] + [q.text[0]];
    assert whole[..m] == whole[..Total(ps[..k + 2])][..m] == after[..m];
    rest := whole[m..];
    assert whole == whole[..m] + rest;
    assert whole == TextOf(ps[..k]) + p.text[..p.declared] + ([q.text[0]] + rest);
  }

  // --- when the file is the text

  lemma SaveEnds(g: seq<string>)
    requires g != []
    ensures Save(g) == Save(g[..|g| - 1]) + (g[|g| - 1] + "\n")
  {
    hide Save;
    var n := |g| - 1;
    assert g == g[..n] + [g[n]];
    SaveAppend(g[..n], [g[n]]);
    SaveOne(g[n]);
  }

  lemma CutChar(p: Piece, g: seq<string>)
    requires Prints(p, g) && p.declared < |p.text|
    ensures !IsMark(p.text[p.declared])
  {
    hide Save;
    SaveEnds(g);
  }

  lemma PrintsAt(ps: seq<Piece>, gs: seq<seq<string>>, k: nat)
    requires Parallel(ps, gs) && k < |ps|
    ensures |gs| == |ps| && Prints(ps[k], gs[k])
    ensures gs[k] != [] && gs[k][0] != "" && IsMark(gs[k][0][0]) && ps[k].text == Save(gs[k])
  {
    hide CutInLast, Save;
  }

  /** The file differs from the text where the first wrong length puts a zero or the start of the next part. */
  lemma InexactDiffers(s: string, ps: seq<Piece>, gs: seq<seq<string>>)
    requires Parallel(ps, gs) && Total(ps) <= |s| && ps != [] && Exact(ps[|ps| - 1]) && !AllExact(ps)
    ensures FileFrom(s, ps) != TextOf(ps)
  {
    hide Total, TextOf, FileFrom, Save, Parallel, Prints, AllExact;
    var k := FirstInexact(ps);
    ParallelSizes(ps, gs);
    PrintsAt(ps, gs, k);
    PrintsAt(ps, gs, k + 1);
    SaveStarts(gs[k + 1]);
    TextTo(ps, k);
    TextTo(ps, k + 1);
    TextGrows(ps, k + 2, |ps|);
    assert ps[..|ps|] == ps;
    if ps[k].declared > |ps[k].text| {
      var rest := GapFrom(s, ps, k);
      var q := |TextOf(ps[..k + 1])|;
      assert FileFrom(s, ps)[q] == NUL;
      assert TextOf(ps)[q] == TextOf(ps[..k + 2])[q] == ps[k + 1].text[0];
    } else {
      var rest := OverrunFrom(s, ps, k);
      CutChar(ps[k], gs[k]);
      var q := |TextOf(ps[..k])| + ps[k].declared;
      assert FileFrom(s, ps)[q] == ps[k + 1].text[0];
      assert TextOf(ps)[q] == TextOf(ps[..k + 2])[q] == ps[k].text[ps[k].declared];
    }
  }

  lemma FileIsText(s: string, ps: seq<Piece>, gs: seq<seq<string>>)
    requires Parallel(ps, gs) && Total(ps) <= |s| && ps != [] && Exact(ps[|ps| - 1])
    ensures FileFrom(s, ps) == TextOf(ps) <==> AllExact(ps) && |TextOf(ps)| < |s|
  {
    hide Total, TextOf, FileFrom, Save, Parallel, Prints, AllExact;
    if AllExact(ps) {
      var n := |ps| - 1;
      ParallelSizes(ps, gs);
      ExactFrom(s, ps);
      PrintsAt(ps, gs, n);
      SaveEnds(gs[n]);
      TextTo(ps, n);
      assert ps[..n + 1] == ps;
      var t := TextOf(ps);
      assert t[|t| - 1] == '\n';
      if |t| >= |s| {
        assert FileFrom(s, ps)[|t| - 1] == NUL;
      }
    } else {
      InexactDiffers(s, ps, gs);
    }
  }

  // --- when the file reads back

  lemma {:induction false} FlattenGrows(gs: seq<seq<string>>, m: nat, n: nat)
    requires m <= n <= |gs|
    ensures Flatten(gs[..m]) <= Flatten(gs[..n])
  {
    if m < n {
      FlattenGrows(gs, m, n - 1);
      FlattenTo(gs, n - 1);
    }
  }

  lemma FlattenSplit(gs: seq<seq<string>>, k: nat)
    requires k < |gs|
    ensures Flatten(gs[..k]) + gs[k] <= Flatten(gs) && Flatten(gs[..k]) <= Flatten(gs)
  {
    hide Flatten;
    FlattenTo(gs, k);
    FlattenGrows(gs, k + 1, |gs|);
    assert gs[..|gs|] == gs;
  }

  lemma FrontClean(lines: seq<string>, front: seq<string>, n: int)
    requires AllClean(lines) && AllShort(lines, n) && front <= lines
    ensures AllClean(front) && AllShort(front, n)
  {
    forall k | 0 <= k < |front| ensures Clean(front[k]) && |front[k]| <= n {
      assert lines[k] == front[k];
    }
  }

  /** Behind a length that is too large, a line reads as empty. */
  lemma GapReads(s: string, ps: seq<Piece>, gs: seq<seq<string>>, k: nat, size: nat)
    requires Parallel(ps, gs) && Total(ps) <= |s| && k + 1 < |ps|
    requires AllExact(ps[..k]) && ps[k].declared > |ps[k].text|
    requires size >= 2 && AllClean(Flatten(gs)) && AllShort(Flatten(gs), size - 2)
    ensures |gs| == |ps|
    ensures var read, lines, j := LinesOf(FileFrom(s, ps), size), Flatten(gs), |Flatten(gs[..k + 1])|;
      j < |read| && j < |lines| && read[..j] == lines[..j] && read[j] == "" != lines[j]
  {
    hide Total, TextOf, FileFrom, Save, Parallel, Prints, AllExact, LinesOf, Flatten;
    PrintsAt(ps, gs, k + 1);
    var rest := GapFrom(s, ps, k);
    ParallelText(ps, gs, k + 1);
    var early, lines := Flatten(gs[..k + 1]), Flatten(gs);
    FlattenSplit(gs, k + 1);
    FrontClean(lines, early, size - 2);
    SavedThen(early, [NUL] + rest, size);
    ZeroReadsEmpty(rest, size);
    assert lines[|early|] == (early + gs[k + 1])[|early|] == gs[k + 1][0];
  }

  lemma CutFile(a: string, b: string, c: string, rest: string)
    ensures a + (b + c) + rest == (a + b) + (c + rest)
  {
  }

  lemma FirstLine(s: string, size: nat)
    requires size >= 2 && NextLine(s, size).Some?
    ensures LinesOf(s, size) != [] && LinesOf(s, size)[0] == NextLine(s, size).value.0
  {
  }

  /** At one that is too small, a line goes on with the next part. */
  lemma OverrunReads(s: string, ps: seq<Piece>, gs: seq<seq<string>>, k: nat, size: nat)
    requires Parallel(ps, gs) && Total(ps) <= |s| && k + 1 < |ps|
    requires AllExact(ps[..k]) && ps[k].declared < |ps[k].text|
    requires size >= 2 && AllClean(Flatten(gs)) && AllShort(Flatten(gs), size - 2)
    ensures LinesOf(FileFrom(s, ps), size) != Flatten(gs)
  {
    hide Total, TextOf, FileFrom, Save, Parallel, AllExact, LinesOf, Flatten, NextLine;
    ParallelSizes(ps, gs);
    PrintsAt(ps, gs, k);
    PrintsAt(ps, gs, k + 1);
    SaveStarts(gs[k + 1]);
    SaveEnds(gs[k]);
    var rest := OverrunFrom(s, ps, k);
    ParallelText(ps, gs, k);
    var g, x := gs[k], ps[k + 1].text[0];
    var front, l := g[..|g| - 1], g[|g| - 1];
    var c := ps[k].declared - |Save(front)|;
    var early, lines := Flatten(gs[..k]) + front, Flatten(gs);
    FlattenSplit(gs, k);
    assert early + [l] == Flatten(gs[..k]) + g;
    assert early <= lines && lines[|early|] == (early + [l])[|early|] == l;
    FrontClean(lines, early, size - 2);
    assert Clean(l) && |l| <= size - 2;
    SaveAppend(Flatten(gs[..k]), front);
    assert ps[k].text[..ps[k].declared] == Save(front) + l[..c];
    CutFile(Save(Flatten(gs[..k])), Save(front), l[..c], [x] + rest);
    SavedThen(early, l[..c] + ([x] + rest), size);
    ReadsPast(l[..c], x, rest, size);
    FirstLine(l[..c] + ([x] + rest), size);
  }

  lemma SaveNonEmpty(lines: seq<string>)
    ensures Save(lines) != "" ==> lines != []
  {
  }

  lemma CutNewline(a: string, line: string)
    ensures var t := a + (line + "\n"); t[..|t| - 1] + [NUL] == a + (line + [NUL])
  {
  }

  /** The saved lines, cut before the last newline and ended by a zero. */
  lemma CutReads(lines: seq<string>, size: nat)
    requires Save(lines) != "" && size >= 2 && AllClean(lines) && AllShort(lines, size - 2)
    ensures var t := Save(lines); LinesOf(t[..|t| - 1] + [NUL], size) == lines
  {
    hide Save, LinesOf, Clean;
    SaveNonEmpty(lines);
    var n, t := |lines| - 1, Save(lines);
    SaveEnds(lines);
    FrontClean(lines, lines[..n], size - 2);
    CutNewline(Save(lines[..n]), lines[n]);
    SavedThen(lines[..n], lines[n] + [NUL], size);
    ZeroEndsLine(lines[n], size);
    assert lines == lines[..n] + [lines[n]];
  }

  lemma ExactReads(s: string, ps: seq<Piece>, gs: seq<seq<string>>, size: nat)
    requires Parallel(ps, gs) && Total(ps) <= |s| && ps != [] && AllExact(ps)
    requires size >= 2 && AllClean(Flatten(gs)) && AllShort(Flatten(gs), size - 2)
    ensures LinesOf(FileFrom(s, ps), size) == Flatten(gs)
  {
    hide Total, TextOf, FileFrom, Save, Parallel, Prints, AllExact, LinesOf, Flatten, AllClean, AllShort;
    ParallelSizes(ps, gs);
    ExactFrom(s, ps);
    ParallelAll(ps, gs);
    if |TextOf(ps)| < |s| {
      SavedLines(Flatten(gs), size);
    } else {
      TextTo(ps, |ps| - 1);
      assert ps[..|ps| - 1 + 1] == ps;
      CutReads(Flatten(gs), size);
    }
  }

  lemma FileReads(s: string, ps: seq<Piece>, gs: seq<seq<string>>, size: nat)
    requires Parallel(ps, gs) && Total(ps) <= |s| && ps != [] && Exact(ps[|ps| - 1])
    requires size >= 2 && AllClean(Flatten(gs)) && AllShort(Flatten(gs), size - 2)
    ensures LinesOf(FileFrom(s, ps), size) == Flatten(gs) <==> AllExact(ps)
  {
    hide Total, TextOf, FileFrom, Save, Parallel, Prints, AllExact, LinesOf, Flatten, AllClean, AllShort;
    if AllExact(ps) {
      ExactReads(s, ps, gs, size);
    } else {
      var k := FirstInexact(ps);
      if ps[k].declared > |ps[k].text| {
        GapReads(s, ps, gs, k, size);
      } else {
        OverrunReads(s, ps, gs, k, size);
      }
    }
  }

  // --- the entry of a disc

  /** What cddb_write puts into the file: the first bytes of the buffer, as many as were declared. */
  function FileOf(d: DiscData, cname: string, cversion: string, buf: string): string
    requires Writable(d) && Total(Pieces(d, cname, cversion)) <= |buf|
  {
    FileFrom(buf, Pieces(d, cname, cversion))
  }

  lemma LastExact(d: DiscData, cname: string, cversion: string)
    requires Writable(d)
    ensures var all := Pieces(d, cname, cversion); all != [] && Exact(all[|all| - 1])
  {
    hide HeadPieces, MiddlePieces, OffsetPieces, TitlePieces, ExtTPieces, ExtDPiece;
    var all := Pieces(d, cname, cversion);
    assert all[|all| - 1] == OrderPiece();
  }

  /** The file is the lines of the record, without gap or overwriting, exactly when all numbers fit their columns,
      there are at most 20 tracks, and there is room for a zero behind the text. */
  lemma ExactFile(d: DiscData, cname: string, cversion: string, buf: string)
    requires Writable(d) && Total(Pieces(d, cname, cversion)) <= |buf|
    ensures FileOf(d, cname, cversion, buf) == Save(Lines(d, cname, cversion)) <==>
            InWidths(d) && |d.tracks| <= 20 && |Save(Lines(d, cname, cversion))| < |buf|
  {
    hide Pieces, Groups, FileFrom, Total, TextOf, Lines, InWidths, AllExact, Save, Parallel, Flatten, Exact;
    var ps, gs := Pieces(d, cname, cversion), Groups(d, cname, cversion);
    AllParallel(d, cname, cversion);
    AllFlat(d, cname, cversion);
    ParallelAll(ps, gs);
    LastExact(d, cname, cversion);
    SizesExact(d, cname, cversion);
    FileIsText(buf, ps, gs);
  }

  /** Read back line by line, the file is the record exactly when all numbers fit their columns and there are at most
      20 tracks. */
  lemma FileReadsBack(d: DiscData, cname: string, cversion: string, buf: string, size: nat)
    requires Writable(d) && Total(Pieces(d, cname, cversion)) <= |buf|
    requires size >= 2 && AllClean(Lines(d, cname, cversion)) && AllShort(Lines(d, cname, cversion), size - 2)
    ensures LinesOf(FileOf(d, cname, cversion, buf), size) == Lines(d, cname, cversion) <==>
            InWidths(d) && |d.tracks| <= 20
  {
    hide Pieces, Groups, FileFrom, Total, TextOf, Lines, InWidths, AllExact, Save, Parallel, Flatten, Exact, LinesOf,
         AllClean, AllShort;
    var ps, gs := Pieces(d, cname, cversion), Groups(d, cname, cversion);
    AllParallel(d, cname, cversion);
    AllFlat(d, cname, cversion);
    LastExact(d, cname, cversion);
    SizesExact(d, cname, cversion);
    FileReads(buf, ps, gs, size);
  }

  // --- the lines that the parser passes over

  lemma SubmittedWords(cname: string, cversion: string)
    ensures Words(SubmittedLine(cname, cversion)) == ["#", "Submitted", "via:"] + (Words(cname) + Words(cversion))
  {
    hide Words;
    var rest := cname + (" " + cversion);
    assert SubmittedLine(cname, cversion) == "#" + (" " + ("Submitted" + (" " + ("via:" + (" " + rest)))));
    WordsJoin(cname, cversion);
    FirstWord("via:", rest);
    FirstWord("Submitted", "via:" + (" " + rest));
    FirstWord("#", "Submitted" + (" " + ("via:" + (" " + rest))));
  }

  /** An entry says that it is one, by whom it was submitted, name before version, and for which identifier; it gives
      no year for a disc that has none. */
  lemma EntrySays(d: DiscData, cname: string, cversion: string)
    requires Writable(d)
    ensures var lines, n := Lines(d, cname, cversion), |d.tracks|;
      && |lines| > n + 11 && lines[0] == "# xmcd"
      && Words(lines[n + 7]) == ["#", "Submitted", "via:"] + (Words(cname) + Words(cversion))
      && (d.year == 0 ==> lines[n + 11] == "DYEAR=")
      && "DISCID=" <= lines[n + 9] && IsHex8(lines[n + 9][7..]) && HexNumber(lines[n + 9][7..]) == d.discid
  {
    hide OffsetLines, TitleLines, ExtLines, ExtDLine, HeadingLine, LengthLine, RevisionLine, DTitleLine, GenreLine,
         Words, HexDigits, SubmittedLine, HexNumber;
    var lines, n := Lines(d, cname, cversion), |d.tracks|;
    SubmittedWords(cname, cversion);
    Hex8Word(d.discid);
    Hex8Reads(d.discid);
    assert lines[n + 7] == SubmittedLine(cname, cversion);
    assert lines[n + 9] == "DISCID=" + Hex8(d.discid);
    assert ("DISCID=" + Hex8(d.discid))[7..] == Hex8(d.discid);
  }

  // --- more than 20 tracks

  lemma EarlySizes(d: DiscData, cname: string, cversion: string)
    requires Writable(d) && |d.tracks| > 20 && InWidths(d)
    ensures AllExact(HeadPieces()) && AllExact(OffsetPieces(d.tracks)) && AllExact(MiddlePieces(d, cname, cversion))
    ensures AllExact(TitlePieces(d.tracks)[..20])
  {
    MiddleExact(d, cname, cversion);
    TracksExact(d.tracks);
    hide TitlePiece, IndexWidth, MiddlePieces, OffsetPieces;
    forall i | 0 <= i < 20 ensures Exact(TitlePieces(d.tracks)[i]) {
      IndexExact(i);
      TitleExact(i, d.tracks[i]);
    }
  }

  lemma EarlyExact(d: DiscData, cname: string, cversion: string)
    requires Writable(d) && |d.tracks| > 20 && InWidths(d)
    ensures var all, k := Pieces(d, cname, cversion), |d.tracks| + 29;
      k + 1 < |all| && AllExact(all[..k]) && all[k] == TitlePiece(20, d.tracks[20])
  {
    hide HeadPieces, MiddlePieces, TitlePiece, OffsetPiece, OffsetPieces, TitlePieces, ExtTPieces, AllExact, ExtDPiece,
         OrderPiece, InWidths;
    var a, b, c, e := HeadPieces(), OffsetPieces(d.tracks), MiddlePieces(d, cname, cversion), TitlePieces(d.tracks);
    var all, k := Pieces(d, cname, cversion), |d.tracks| + 29;
    EarlySizes(d, cname, cversion);
    ExactAppend(a, b);
    ExactAppend(a + b, c);
    ExactAppend(a + b + c, e[..20]);
    assert all[..k] == a + b + c + e[..20];
    assert all[k] == e[20];
  }

  /** The lines up to the title of track 20. */
  function EarlyLines(d: DiscData, cname: string, cversion: string): (r: seq<string>)
    requires Writable(d) && |d.tracks| > 20
    ensures |r| == |d.tracks| + 34
  {
    HEAD_LINES + OffsetLines(d.tracks) + MiddleLines(d, cname, cversion) + TitleLines(d.tracks)[..21]
  }

  lemma EarlyFlat(d: DiscData, cname: string, cversion: string)
    requires Writable(d) && |d.tracks| > 20
    ensures var gs, k := Groups(d, cname, cversion), |d.tracks| + 30;
      k < |gs| && Flatten(gs[..k]) == EarlyLines(d, cname, cversion)
  {
    hide Flatten, MiddleGroups, HeadGroups, MiddleLines;
    var a, b, c, e := HeadGroups(), Singles(OffsetLines(d.tracks)), MiddleGroups(d, cname, cversion),
                      Singles(TitleLines(d.tracks));
    assert Groups(d, cname, cversion)[..|d.tracks| + 30] == a + b + c + e[..21];
    HeadFlat();
    MiddleFlat(d, cname, cversion);
    FlattenSingles(OffsetLines(d.tracks));
    FlattenSingles(TitleLines(d.tracks)[..21]);
    assert e[..21] == Singles(TitleLines(d.tracks)[..21]);
    FlattenAppend(a, b);
    FlattenAppend(a + b, c);
    FlattenAppend(a + b + c, e[..21]);
  }

  /** Where the record has the line after the title of track 20, the file has an empty one, whatever the
      buffer held before. */
  lemma LostLine(d: DiscData, cname: string, cversion: string, buf: string, size: nat)
    requires Writable(d) && Total(Pieces(d, cname, cversion)) <= |buf| && InWidths(d) && |d.tracks| > 20
    requires size >= 2 && AllClean(Lines(d, cname, cversion)) && AllShort(Lines(d, cname, cversion), size - 2)
    ensures var k := |d.tracks| + 34; var read := LinesOf(FileOf(d, cname, cversion, buf), size);
      && k < |read| && k < |Lines(d, cname, cversion)|
      && read[..k] == Lines(d, cname, cversion)[..k]
      && read[k] == "" != Lines(d, cname, cversion)[k]
  {
    hide Pieces, Groups, FileFrom, Total, TextOf, Lines, InWidths, AllExact, Save, Parallel, Flatten, LinesOf,
         AllClean, AllShort, TitlePiece, IndexWidth;
    var ps, gs := Pieces(d, cname, cversion), Groups(d, cname, cversion);
    AllParallel(d, cname, cversion);
    AllFlat(d, cname, cversion);
    EarlyExact(d, cname, cversion);
    EarlyFlat(d, cname, cversion);
    IndexExact(20);
    TitleExact(20, d.tracks[20]);
    GapReads(buf, ps, gs, |d.tracks| + 29, size);
  }
}
