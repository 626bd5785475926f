/** Entries with 21 to 30 tracks, in which every declared length is too large by one from track 20 on: what the file
    holds, and what comes back when it is read. */
module ManyTracks {
  import opened Text
  import opened Patterns
  import opened Records
  import opened Streams
  import opened Format
  import opened Writer
  import opened WriterSizes
  import opened Entries
  import opened Parser
  import Splits
  import RoundTrip

  // --- parts with gaps of one byte

  predicate Gapped(p: Piece) { p.declared == |p.text| + 1 }

  predicate AllLoose(ps: seq<Piece>)
  {
    forall k :: 0 <= k < |ps| ==> Exact(ps[k]) || Gapped(ps[k])
  }

  /** The texts of all parts, with the zero that is left behind where the length is too large. */
  function Filled(ps: seq<Piece>): string
  {
    if ps == [] then ""
    else
      var p := ps[|ps| - 1];
      Filled(ps[..|ps| - 1]) + p.text + (if Gapped(p) then [NUL] else "")
  }

  lemma {:induction false} FilledAppend(a: seq<Piece>, b: seq<Piece>)
    ensures Filled(a + b) == Filled(a) + Filled(b)
    decreases |b|
  {
    if b == [] {
      assert a + b == a;
    } else {
      var n := |b| - 1;
      assert (a + b)[..|a + b| - 1] == a + b[..n];
      FilledAppend(a, b[..n]);
    }
  }

  lemma {:induction false} FilledExact(ps: seq<Piece>)
    requires AllExact(ps)
    ensures Filled(ps) == TextOf(ps)
  {
    if ps != [] {
      ExactPrefix(ps, |ps| - 1);
      FilledExact(ps[..|ps| - 1]);
    }
  }

  /** Exact parts and then one with a gap. */
  lemma FilledGap(ps: seq<Piece>, k: nat)
    requires k < |ps| && AllExact(ps[..k]) && Gapped(ps[k])
    ensures Filled(ps[..k + 1]) == TextOf(ps[..k + 1]) + [NUL]
  {
    assert ps[..k + 1][..k] == ps[..k];
    FilledExact(ps[..k]);
  }

  lemma {:induction false} LayoutFilled(s: string, ps: seq<Piece>, k: nat)
    requires Inside(ps, |s|) && k <= |ps| && AllLoose(ps) && Total(ps[..k]) < |s|
    ensures Inside(ps[..k], |s|) && Total(ps[..k]) == |Filled(ps[..k])|
    ensures Layout(s, ps[..k])[..Total(ps[..k])] == Filled(ps[..k])
  {
    hide Print, Inside;
    InsidePrefix(ps, k, |s|);
    if k > 0 {
      hide Layout;
      var p := ps[k - 1];
      assert Exact(p) || Gapped(p);
      assert ps[..k][..k - 1] == ps[..k - 1];
      TextTo(ps, k - 1);
      LayoutFilled(s, ps, k - 1);
      LayoutTo(s, ps, k - 1);
      PrintWhole(Layout(s, ps[..k - 1]), Total(ps[..k - 1]), p.text);
    } else {
      assert ps[..0] == [];
    }
  }

  /** The file of such parts; the last newline gives way to a zero at the very end of the buffer. */
  lemma FileFilled(s: string, ps: seq<Piece>, x: string) returns (c: char)
    requires ps != [] && AllLoose(ps) && Total(ps) <= |s|
    requires ps[|ps| - 1] == Piece(|x| + 1, x + "\n")
    ensures c in {'\n', NUL} && FileFrom(s, ps) == Filled(ps[..|ps| - 1]) + (x + [c])
  {
    hide Layout, Inside, Filled, Print;
    var n := |ps| - 1;
    var p := ps[n];
    assert ps[..n + 1] == ps;
    TotalInside(ps, |s|);
    TextTo(ps, n);
    LayoutFilled(s, ps, n);
    LayoutTo(s, ps, n);
    var before, pos := Layout(s, ps[..n]), Total(ps[..n]);
    if Total(ps) < |s| {
      c := '\n';
      PrintWhole(before, pos, p.text);
    } else {
      c := NUL;
      PrintCut(before, pos, p.text);
      assert p.text[..|p.text| - 1] == x;
    }
  }

  // --- lines behind a zero

  function Blanks(k: nat): (r: seq<string>)
    ensures |r| == k && forall i :: 0 <= i < k ==> r[i] == ""
  {
    seq(k, _ => "")
  }

  lemma BlanksAppend(i: nat, j: nat)
    ensures Blanks(i) + Blanks(j) == Blanks(i + j)
  {
  }

  /** Lines saved with a zero in front of each. */
  function Zeroed(lines: seq<string>): string
  {
    if lines == [] then "" else Zeroed(lines[..|lines| - 1]) + ([NUL] + lines[|lines| - 1] + "\n")
  }

  lemma GapMoves(f: string, z: string, x: string)
    requires [NUL] + f == z + [NUL]
    ensures [NUL] + (f + (x + "\n") + [NUL]) == z + ([NUL] + x + "\n") + [NUL]
  {
    assert [NUL] + (f + (x + "\n") + [NUL]) == ([NUL] + f) + (x + "\n") + [NUL];
  }

  /** Parts of one line each, with gaps: the zeros are in front of the lines that follow. */
  lemma {:induction false} GapsAreZeros(ps: seq<Piece>, lines: seq<string>)
    requires |ps| == |lines|
    requires forall k :: 0 <= k < |ps| ==> Gapped(ps[k]) && ps[k].text == lines[k] + "\n"
    ensures [NUL] + Filled(ps) == Zeroed(lines) + [NUL]
  {
    if ps != [] {
      var n := |ps| - 1;
      GapsAreZeros(ps[..n], lines[..n]);
      assert Filled(ps) == Filled(ps[..n]) + (lines[n] + "\n") + [NUL];
      GapMoves(Filled(ps[..n]), Zeroed(lines[..n]), lines[n]);
    }
  }

  lemma ZeroStrips(s: string)
    requires s != "" && s[0] == NUL
    ensures StripEol(CString(s)) == ""
  {
  }

  lemma ZeroNext(x: string, rest: string, size: nat)
    requires size >= 2 && '\n' !in x && |x| <= size - 2
    ensures NextLine(([NUL] + x) + ("\n" + rest), size) ==
            Some(("", if |x| + 3 <= size then rest else "\n" + rest))
  {
    hide Taken, CString, StripEol;
    var l := [NUL] + x;
    TakenLine(l, rest, size - 1);
    CutAfter(l, rest);
    ZeroStrips(l);
    ZeroStrips(l + "\n");
  }

  lemma BlankFirst(s: string, rest: string, size: nat)
    requires size >= 2 && NextLine(s, size) == Some(("", rest))
    ensures LinesOf(s, size) == Blanks(1) + LinesOf(rest, size)
  {
    hide NextLine;
    assert Blanks(1) == [""];
  }

  lemma BlankTwice(s: string, rest: string, size: nat)
    requires size >= 2 && NextLine(s, size) == Some(("", "\n" + rest))
    ensures LinesOf(s, size) == Blanks(2) + LinesOf(rest, size)
  {
    hide NextLine, LinesOf;
    SavedLine("", rest, size);
    assert "" + ("\n" + rest) == "\n" + rest;
    BlankFirst(s, "\n" + rest, size);
    BlankFirst("\n" + rest, rest, size);
    assert Blanks(2) == Blanks(1) + Blanks(1);
  }

  /** A line behind a zero reads as an empty one, or as two if its newline does not fit. */
  lemma ZeroLine(x: string, rest: string, size: nat) returns (k: nat)
    requires size >= 2 && '\n' !in x && |x| <= size - 2
    ensures LinesOf(([NUL] + x) + ("\n" + rest), size) == Blanks(k) + LinesOf(rest, size)
  {
    hide *;
    ZeroNext(x, rest, size);
    if |x| + 3 <= size {
      k := 1;
      BlankFirst(([NUL] + x) + ("\n" + rest), rest, size);
    } else {
      k := 2;
      BlankTwice(([NUL] + x) + ("\n" + rest), rest, size);
    }
  }

  /** The same at the end of the file. */
  lemma ZeroLast(x: string, c: char, size: nat) returns (k: nat)
    requires '\n' !in x && |x| + 3 <= size && c in {'\n', NUL}
    ensures LinesOf(([NUL] + x) + [c], size) == Blanks(k)
  {
    var s := ([NUL] + x) + [c];
    assert LinesOf("", size) == [];
    if c == NUL {
      TakenAll(s, size - 1);
      assert s[..|s|] == s && s[|s|..] == "" && s[0] == NUL;
      k := 1;
    } else {
      k := ZeroLine(x, "", size);
      assert s == ([NUL] + x) + ("\n" + "");
    }
  }

  lemma LineClean(x: string)
    requires Clean(x)
    ensures '\n' !in x
  {
  }

  lemma {:induction false} ZeroedReads(lines: seq<string>, rest: string, size: nat) returns (k: nat)
    requires size >= 2 && AllClean(lines) && AllShort(lines, size - 2)
    ensures LinesOf(Zeroed(lines) + rest, size) == Blanks(k) + LinesOf(rest, size)
  {
    hide LinesOf, Clean;
    if lines == [] {
      k := 0;
      assert Zeroed(lines) + rest == rest;
    } else {
      var n := |lines| - 1;
      var x := lines[n];
      FrontClean(lines, lines[..n], size - 2);
      assert '\n' !in x by { assert Clean(lines[n]); LineClean(x); }
      var tail := ([NUL] + x) + ("\n" + rest);
      var i := ZeroedReads(lines[..n], tail, size);
      var j := ZeroLine(x, rest, size);
      assert Zeroed(lines) + rest == Zeroed(lines[..n]) + tail;
      k := i + j;
      BlanksAppend(i, j);
    }
  }

  // --- the file

  /** From track 20 on the lengths of titles and extended data are too large by one. */
  lemma TracksLoose(ts: seq<TrackData>)
    requires |ts| <= 30 && forall i :: 0 <= i < |ts| ==> ts[i].title.Some?
    ensures forall i :: 0 <= i < |ts| ==>
      if i < 20 then Exact(TitlePieces(ts)[i]) && Exact(ExtTPieces(ts)[i])
      else Gapped(TitlePieces(ts)[i]) && Gapped(ExtTPieces(ts)[i])
  {
    hide TitlePiece, ExtTPiece, IndexWidth;
    forall i | 0 <= i < |ts|
      ensures if i < 20 then Exact(TitlePieces(ts)[i]) && Exact(ExtTPieces(ts)[i])
              else Gapped(TitlePieces(ts)[i]) && Gapped(ExtTPieces(ts)[i])
    {
      IndexExact(i);
      TitleExact(i, ts[i]);
      ExtTExact(i, ts[i]);
    }
  }

  lemma LooseAppend(a: seq<Piece>, b: seq<Piece>)
    requires AllLoose(a) && AllLoose(b)
    ensures AllLoose(a + b)
  {
  }

  lemma DiscLoose(d: DiscData, cname: string, cversion: string)
    requires Writable(d) && InWidths(d) && |d.tracks| <= 30
    ensures AllLoose(Pieces(d, cname, cversion))
  {
    var a, b, c, e := HeadPieces(), OffsetPieces(d.tracks), MiddlePieces(d, cname, cversion), TitlePieces(d.tracks);
    var f, g, h := [ExtDPiece(d)], ExtTPieces(d.tracks), [OrderPiece()];
    assert AllLoose(a) && AllLoose(f) && AllLoose(h);
    MiddleExact(d, cname, cversion);
    TracksExact(d.tracks);
    TracksLoose(d.tracks);
    hide Exact, Gapped, HeadPieces, OffsetPieces, MiddlePieces, TitlePieces, ExtTPieces, ExtDPiece, OrderPiece;
    assert AllLoose(b) && AllLoose(c) && AllLoose(e) && AllLoose(g);
    hide AllLoose;
    LooseAppend(a, b);
    LooseAppend(a + b, c);
    LooseAppend(a + b + c, e);
    LooseAppend(a + b + c + e, f);
    LooseAppend(a + b + c + e + f, g);
    LooseAppend(a + b + c + e + f + g, h);
  }

  lemma FrontFilled(d: DiscData, cname: string, cversion: string)
    requires Writable(d) && InWidths(d) && 20 < |d.tracks| <= 30
    ensures var ps, k := Pieces(d, cname, cversion), |d.tracks| + 30;
      k < |ps| && Filled(ps[..k]) == Save(EarlyLines(d, cname, cversion)) + [NUL]
  {
    hide Pieces, Groups, TextOf, Filled, Flatten, Save, Parallel, AllExact, EarlyLines, TitlePiece, IndexWidth;
    var ps, k := Pieces(d, cname, cversion), |d.tracks| + 30;
    AllParallel(d, cname, cversion);
    EarlyExact(d, cname, cversion);
    EarlyFlat(d, cname, cversion);
    IndexExact(20);
    TitleExact(20, d.tracks[20]);
    FilledGap(ps, k - 1);
    ParallelText(ps, Groups(d, cname, cversion), k);
  }

  /** The extended data of tracks 0 to 20. */
  lemma ExtsFilled(ts: seq<TrackData>)
    requires 20 < |ts| <= 30 && forall i :: 0 <= i < |ts| ==> ts[i].title.Some?
    ensures Filled(ExtTPieces(ts)[..21]) == Save(ExtLines(ts)[..21]) + [NUL]
  {
    hide ExtTPiece, ExtTLine, TextOf, Filled, Flatten, Save, Parallel, TitlePieces, Gapped, Exact;
    var ps, gs := ExtTPieces(ts), Singles(ExtLines(ts));
    TracksLoose(ts);
    TracksParallel(ts);
    FilledGap(ps, 20);
    ParallelText(ps, gs, 21);
    assert gs[..21] == Singles(ExtLines(ts)[..21]);
    FlattenSingles(ExtLines(ts)[..21]);
  }

  lemma Texts(ts: seq<TrackData>, i: nat)
    requires i < |ts| && ts[i].title.Some?
    ensures TitlePiece(i, ts[i]).text == TTitleLine(i, TitleText(ts[i])) + "\n"
    ensures ExtTPiece(i, ts[i]).text == ExtTLine(i, OrEmpty(ts[i].extData)) + "\n"
  {
  }

  lemma LateFilled(ts: seq<TrackData>)
    requires 20 < |ts| <= 30 && forall i :: 0 <= i < |ts| ==> ts[i].title.Some?
    ensures [NUL] + Filled(TitlePieces(ts)[21..]) == Zeroed(TitleLines(ts)[21..]) + [NUL]
    ensures [NUL] + Filled(ExtTPieces(ts)[21..]) == Zeroed(ExtLines(ts)[21..]) + [NUL]
  {
    hide TitlePiece, ExtTPiece, TTitleLine, ExtTLine, Filled, Zeroed, Gapped, Exact, TitleText, OrEmpty;
    TracksLoose(ts);
    forall i | 21 <= i < |ts|
      ensures TitlePiece(i, ts[i]).text == TTitleLine(i, TitleText(ts[i])) + "\n"
      ensures ExtTPiece(i, ts[i]).text == ExtTLine(i, OrEmpty(ts[i].extData)) + "\n"
    {
      Texts(ts, i);
    }
    GapsAreZeros(TitlePieces(ts)[21..], TitleLines(ts)[21..]);
    GapsAreZeros(ExtTPieces(ts)[21..], ExtLines(ts)[21..]);
  }

  lemma ExtDFilled(d: DiscData)
    ensures Filled([ExtDPiece(d)]) == ExtDLine(OrEmpty(d.extData)) + "\n"
  {
    var p := ExtDPiece(d);
    assert !Gapped(p);
    hide ExtDPiece;
    assert [p][..0] == [] && Filled([]) == "";
  }

  lemma FilledFive(a: seq<Piece>, t: seq<Piece>, x: seq<Piece>, y: seq<Piece>, z: seq<Piece>)
    ensures Filled(a + t + x + y + z) == Filled(a) + Filled(t) + Filled(x) + Filled(y) + Filled(z)
  {
    FilledAppend(a, t);
    FilledAppend(a + t, x);
    FilledAppend(a + t + x, y);
    FilledAppend(a + t + x + y, z);
  }

  lemma Regroup(f: seq<Piece>, t: seq<Piece>, x: Piece, y: seq<Piece>, o: Piece)
    requires |t| == |y| > 20
    ensures var all, k := f + t + [x] + y + [o], |f| + 21;
      k < |all| && all[|all| - 1] == o && all[..|all| - 1] == all[..k] + t[21..] + [x] + y[..21] + y[21..]
  {
    assert y == y[..21] + y[21..] && t == t[..21] + t[21..];
  }

  lemma Parts(d: DiscData, cname: string, cversion: string)
    requires Writable(d) && |d.tracks| > 20
    ensures var ps, k := Pieces(d, cname, cversion), |d.tracks| + 30;
      var t, y := TitlePieces(d.tracks), ExtTPieces(d.tracks);
      && k < |ps| && ps[|ps| - 1] == OrderPiece()
      && ps[..|ps| - 1] == ps[..k] + t[21..] + [ExtDPiece(d)] + y[..21] + y[21..]
  {
    hide HeadPieces, MiddlePieces, OffsetPieces, TitlePieces, ExtTPieces, ExtDPiece, OrderPiece;
    Regroup(HeadPieces() + OffsetPieces(d.tracks) + MiddlePieces(d, cname, cversion), TitlePieces(d.tracks),
            ExtDPiece(d), ExtTPieces(d.tracks), OrderPiece());
  }

  lemma Joined(a: string, t: string, t': string, x: string, y: string, z: string, z': string, o: string)
    requires [NUL] + t == t' + [NUL] && [NUL] + z == z' + [NUL]
    ensures (a + [NUL]) + t + (x + "\n") + (y + [NUL]) + z + o ==
            a + (t' + (([NUL] + x) + ("\n" + (y + (z' + ([NUL] + o))))))
  {
    var late := z' + ([NUL] + o);
    assert ([NUL] + z) + o == late;
    var r := "\n" + (y + late);
    assert ([NUL] + t) + (x + r) == t' + (([NUL] + x) + r);
    assert (a + [NUL]) + t + (x + "\n") + (y + [NUL]) + z + o ==
           a + (([NUL] + t) + (x + ("\n" + (y + (([NUL] + z) + o)))));
  }

  /** What the file holds: the lines up to the title of track 20, and after them every line that follows the title or
      the extended data of a track from 20 on stands behind a zero. */
  lemma FileText(d: DiscData, cname: string, cversion: string, buf: string) returns (c: char)
    requires Writable(d) && InWidths(d) && 20 < |d.tracks| <= 30 && Total(Pieces(d, cname, cversion)) <= |buf|
    ensures c in {'\n', NUL}
    ensures FileOf(d, cname, cversion, buf) ==
            Save(EarlyLines(d, cname, cversion))
            + (Zeroed(TitleLines(d.tracks)[21..]) + (([NUL] + ExtDLine(OrEmpty(d.extData))) + ("\n"
               + (Save(ExtLines(d.tracks)[..21])
                  + (Zeroed(ExtLines(d.tracks)[21..]) + (([NUL] + "PLAYORDER=") + [c]))))))
  {
    hide Pieces, TitlePieces, ExtTPieces, ExtDPiece, Filled, Zeroed, Save, FileFrom, AllLoose, Total, EarlyLines,
         TitleLines, ExtLines, ExtDLine;
    var ps, k := Pieces(d, cname, cversion), |d.tracks| + 30;
    var t, y := TitlePieces(d.tracks), ExtTPieces(d.tracks);
    Parts(d, cname, cversion);
    DiscLoose(d, cname, cversion);
    c := FileFilled(buf, ps, "PLAYORDER=");
    FilledFive(ps[..k], t[21..], [ExtDPiece(d)], y[..21], y[21..]);
    FrontFilled(d, cname, cversion);
    ExtsFilled(d.tracks);
    LateFilled(d.tracks);
    ExtDFilled(d);
    Joined(Save(EarlyLines(d, cname, cversion)), Filled(t[21..]), Zeroed(TitleLines(d.tracks)[21..]),
           ExtDLine(OrEmpty(d.extData)), Save(ExtLines(d.tracks)[..21]), Filled(y[21..]),
           Zeroed(ExtLines(d.tracks)[21..]), "PLAYORDER=" + [c]);
    assert [NUL] + ("PLAYORDER=" + [c]) == ([NUL] + "PLAYORDER=") + [c];
  }

  // --- the lines of the file

  lemma SplitClean(a: seq<string>, b: seq<string>, n: int)
    requires AllClean(a + b) && AllShort(a + b, n)
    ensures AllClean(a) && AllShort(a, n) && AllClean(b) && AllShort(b, n)
  {
    forall k | 0 <= k < |a| ensures Clean(a[k]) && |a[k]| <= n { assert (a + b)[k] == a[k]; }
    forall k | 0 <= k < |b| ensures Clean(b[k]) && |b[k]| <= n { assert (a + b)[|a| + k] == b[k]; }
  }

  lemma CutAt21(s: seq<string>, rest: seq<string>)
    requires |s| > 20
    ensures s + rest == s[..21] + (s[21..] + rest)
  {
    assert s == s[..21] + s[21..];
  }

  lemma ToTheLeft(f: seq<string>, t: seq<string>, rest: seq<string>)
    ensures f + (t + rest) == (f + t) + rest
  {
  }

  lemma LinesCut(d: DiscData, cname: string, cversion: string)
    requires Writable(d) && |d.tracks| > 20
    ensures var t, y := TitleLines(d.tracks), ExtLines(d.tracks);
      Lines(d, cname, cversion) ==
        EarlyLines(d, cname, cversion)
        + (t[21..] + ([ExtDLine(OrEmpty(d.extData))] + (y[..21] + (y[21..] + ["PLAYORDER="]))))
  {
    hide OffsetLines, MiddleLines, TitleLines, ExtLines, ExtDLine;
    var f, t, y := HEAD_LINES + OffsetLines(d.tracks) + MiddleLines(d, cname, cversion), TitleLines(d.tracks),
                   ExtLines(d.tracks);
    var x, o := [ExtDLine(OrEmpty(d.extData))], ["PLAYORDER="];
    RoundTrip.Group(f, t, x, y, o);
    CutAt21(y, o);
    CutAt21(t, x + (y + o));
    ToTheLeft(f, t[..21], t[21..] + (x + (y + o)));
  }

  /** The buffer of the reader holds the longest line that every entry has, so it holds the last one and more. */
  lemma RoomForOrder(d: DiscData, cname: string, cversion: string, size: nat)
    requires Writable(d) && AllShort(Lines(d, cname, cversion), size - 2)
    ensures size >= 24
  {
    hide OffsetLines, MiddleLines, TitleLines, ExtLines, ExtDLine;
    assert Lines(d, cname, cversion)[2] == HeadingLine();
    assert |HeadingLine()| == 22;
  }

  lemma OneClean(x: string, n: int)
    requires AllClean([x]) && AllShort([x], n)
    ensures '\n' !in x && |x| <= n
  {
    assert [x][0] == x;
  }

  /** The lines read from the file: those up to the title of track 20 and the extended data of tracks 0 to 20. */
  lemma FileLines(d: DiscData, cname: string, cversion: string, buf: string, size: nat) returns (a: nat, b: nat)
    requires Writable(d) && InWidths(d) && 20 < |d.tracks| <= 30 && Total(Pieces(d, cname, cversion)) <= |buf|
    requires size >= 2 && AllClean(Lines(d, cname, cversion)) && AllShort(Lines(d, cname, cversion), size - 2)
    ensures LinesOf(FileOf(d, cname, cversion, buf), size) ==
            EarlyLines(d, cname, cversion) + (Blanks(a) + (ExtLines(d.tracks)[..21] + Blanks(b)))
  {
    hide Pieces, FileOf, Zeroed, Save, LinesOf, Total, EarlyLines, TitleLines, ExtLines, ExtDLine, Lines, AllClean,
         AllShort, Blanks;
    var front, t, y := EarlyLines(d, cname, cversion), TitleLines(d.tracks), ExtLines(d.tracks);
    var x, o, n := ExtDLine(OrEmpty(d.extData)), "PLAYORDER=", size - 2;
    LinesCut(d, cname, cversion);
    RoomForOrder(d, cname, cversion, size);
    SplitClean(front, t[21..] + ([x] + (y[..21] + (y[21..] + [o]))), n);
    SplitClean(t[21..], [x] + (y[..21] + (y[21..] + [o])), n);
    SplitClean([x], y[..21] + (y[21..] + [o]), n);
    SplitClean(y[..21], y[21..] + [o], n);
    SplitClean(y[21..], [o], n);
    var c := FileText(d, cname, cversion, buf);
    var end := ([NUL] + o) + [c];
    var late := Save(y[..21]) + (Zeroed(y[21..]) + end);
    SavedThen(front, Zeroed(t[21..]) + (([NUL] + x) + ("\n" + late)), size);
    var i := ZeroedReads(t[21..], ([NUL] + x) + ("\n" + late), size);
    OneClean(x, n);
    var j := ZeroLine(x, late, size);
    SavedThen(y[..21], Zeroed(y[21..]) + end, size);
    var k := ZeroedReads(y[21..], end, size);
    var l := ZeroLast(o, c, size);
    a, b := i + j, k + l;
    BlanksAppend(i, j);
    BlanksAppend(k, l);
    assert Blanks(i) + (Blanks(j) + (y[..21] + (Blanks(k) + Blanks(l)))) == Blanks(a) + (y[..21] + Blanks(b));
  }

  // --- what comes back

  /** An empty line ends a title, but not its section. */
  lemma BlankStep(m: Machine)
    requires m.at.state in {TrackTitle, TrackExt}
    ensures var r := Step(m, ScanLine("")); r.Go? && r.m.at.state == m.at.state && r.m.disc == m.disc
  {
  }

  lemma {:induction false} BlanksPass(m: Machine, k: nat)
    requires m.at.state in {TrackTitle, TrackExt}
    ensures var r := Splits.Steps(m, Blanks(k)); r.Some? && r.value.at.state == m.at.state && r.value.disc == m.disc
    decreases k
  {
    hide Step, ScanLine;
    if k > 0 {
      BlankStep(m);
      assert Blanks(k)[1..] == Blanks(k - 1);
      BlanksPass(Step(m, ScanLine("")).m, k - 1);
    }
  }

  /** The tracks that come back: those from 21 on have their offsets only. */
  function LostTracks(ts: seq<TrackData>): (r: seq<TrackData>)
    requires 20 < |ts| && forall i :: 0 <= i < |ts| ==> ts[i].title.Some?
    ensures |r| == |ts|
    ensures forall i :: 0 <= i <= 20 ==> r[i] == RoundTrip.RestoredTrack(ts[i])
    ensures forall i :: 20 < i < |ts| ==> r[i] == NEW_TRACK.(frameOffset := ts[i].frameOffset)
  {
    RoundTrip.WithExts(RoundTrip.WithTitles(ts, 21), ts, 21)
  }

  /** The disc that comes back into e, which keeps its own extended data. */
  function Remaining(e: DiscData, d: DiscData): DiscData
    requires Writable(d) && 20 < |d.tracks|
  {
    RoundTrip.Restored(e, d).(extData := e.extData, tracks := LostTracks(d.tracks))
  }

  lemma LateRun(m: Machine, ts: seq<TrackData>, a: nat, b: nat)
    requires 20 < |ts| && forall i :: 0 <= i < |ts| ==> ts[i].title.Some?
    requires m.at.state == TrackTitle && m.at.oldNo == -1 && m.disc.tracks == RoundTrip.WithTitles(ts, 0)
    ensures var r := Run(m, TitleLines(ts)[..21] + (Blanks(a) + (ExtLines(ts)[..21] + Blanks(b))));
      r.ok && r.disc == m.disc.(tracks := LostTracks(ts))
  {
    hide Step, ScanLine, Splits.Steps, TitleLines, ExtLines, Blanks;
    var t, y := TitleLines(ts)[..21], ExtLines(ts)[..21];
    RoundTrip.TitlesRun(m, ts, 21);
    var m1 := Splits.Steps(m, t).value;
    BlanksPass(m1, a);
    var m2 := Splits.Steps(m1, Blanks(a)).value;
    RoundTrip.ExtTsRun(m2, ts, 21);
    var m3 := Splits.Steps(m2, y).value;
    BlanksPass(m3, b);
    Splits.RunFrom(m, t, Blanks(a) + (y + Blanks(b)));
    Splits.RunFrom(m1, Blanks(a), y + Blanks(b));
    Splits.RunFrom(m2, y, Blanks(b));
    Splits.RunFrom(m3, Blanks(b), []);
    assert Blanks(b) + [] == Blanks(b);
  }

  lemma RestoredFields(e: DiscData, d: DiscData, m: Machine)
    requires Writable(d) && 20 < |d.tracks|
    requires m.disc == RoundTrip.Restored(e, d).(tracks := RoundTrip.WithTitles(d.tracks, 0), extData := e.extData)
    ensures m.disc.tracks == RoundTrip.WithTitles(d.tracks, 0)
    ensures m.disc.(tracks := LostTracks(d.tracks)) == Remaining(e, d)
  {
    hide LostTracks, RoundTrip.WithTitles, RoundTrip.RestoredTracks, GenreText, RoundTrip.ReadTitle;
  }

  lemma RecordRun(e: DiscData, d: DiscData, cname: string, cversion: string, a: nat, b: nat)
    requires e.tracks == [] && RoundTrip.OffsetsSet(d) && Writable(d) && 20 < |d.tracks|
    ensures var r := Parse(e, EarlyLines(d, cname, cversion) + (Blanks(a) + (ExtLines(d.tracks)[..21] + Blanks(b))));
      r.ok && r.disc == Remaining(e, d)
  {
    hide TitleLines, ExtLines, MiddleLines, OffsetLines, Blanks, Splits.Steps, Run, LostTracks, Remaining,
         RoundTrip.WithTitles, RoundTrip.Restored;
    var front := HEAD_LINES + OffsetLines(d.tracks) + MiddleLines(d, cname, cversion);
    var titles, tail := TitleLines(d.tracks)[..21], Blanks(a) + (ExtLines(d.tracks)[..21] + Blanks(b));
    var m := RoundTrip.SectionsRun(e, d, cname, cversion);
    RestoredFields(e, d, m);
    LateRun(m, d.tracks, a, b);
    Splits.RunFrom(Machine(INITIAL, e), front, titles + tail);
    assert front + titles + tail == front + (titles + tail);
  }

  /** What reading the file of a disc with 21 to 30 tracks leaves in a disc without tracks. */
  lemma FileParses(e: DiscData, d: DiscData, cname: string, cversion: string, buf: string, size: nat)
    requires e.tracks == [] && RoundTrip.OffsetsSet(d)
    requires Writable(d) && InWidths(d) && 20 < |d.tracks| <= 30 && Total(Pieces(d, cname, cversion)) <= |buf|
    requires size >= 2 && AllClean(Lines(d, cname, cversion)) && AllShort(Lines(d, cname, cversion), size - 2)
    ensures var r := Parse(e, LinesOf(FileOf(d, cname, cversion, buf), size));
      r.ok && r.disc == Remaining(e, d)
  {
    hide *;
    var a, b := FileLines(d, cname, cversion, buf, size);
    RecordRun(e, d, cname, cversion, a, b);
  }

  /** When it is the disc that was written. */
  lemma RemainsWhole(e: DiscData, d: DiscData, cname: string, cversion: string)
    requires e.tracks == [] && Writable(d) && RoundTrip.OffsetsSet(d) && 20 < |d.tracks|
    ensures Remaining(e, d) == RoundTrip.Normal(e, d) <==>
            RoundTrip.NamesSplitBack(d) && |d.tracks| == 21 && e.extData == RoundTrip.Present(d.extData)
  {
    hide Parse, Lines, RoundTrip.NamesSplitBack, RoundTrip.RestoredTrack, RoundTrip.ReadTitle;
    var ts := d.tracks;
    if |ts| > 21 {
      assert LostTracks(ts)[21].title == None != RoundTrip.NormalTracks(ts)[21].title;
    } else {
      assert LostTracks(ts) == RoundTrip.RestoredTracks(ts);
      RoundTrip.ParseLines(e, d, cname, cversion);
      RoundTrip.RoundTrip(e, d, cname, cversion);
    }
  }

  /** A disc with at most 30 tracks that was written to a file comes back from it exactly when all its titles split
      back and there are at most 20 tracks, or 21 and no other extended data than the disc that it is read into has. */
  lemma FileRoundTrip(e: DiscData, d: DiscData, cname: string, cversion: string, buf: string, size: nat)
    requires e.tracks == [] && RoundTrip.OffsetsSet(d)
    requires Writable(d) && InWidths(d) && |d.tracks| <= 30 && Total(Pieces(d, cname, cversion)) <= |buf|
    requires size >= 2 && AllClean(Lines(d, cname, cversion)) && AllShort(Lines(d, cname, cversion), size - 2)
    ensures var r := Parse(e, LinesOf(FileOf(d, cname, cversion, buf), size));
      && r.ok
      && (r.disc == RoundTrip.Normal(e, d) <==>
          && RoundTrip.NamesSplitBack(d)
          && (|d.tracks| <= 20 || (|d.tracks| == 21 && e.extData == RoundTrip.Present(d.extData))))
  {
    hide Pieces, FileOf, LinesOf, Total, Lines, AllClean, AllShort, Parse, RoundTrip.Normal, Remaining,
         RoundTrip.NamesSplitBack;
    if |d.tracks| <= 20 {
      FileReadsBack(d, cname, cversion, buf, size);
      RoundTrip.RoundTrip(e, d, cname, cversion);
    } else {
      FileParses(e, d, cname, cversion, buf, size);
      RemainsWhole(e, d, cname, cversion);
    }
  }
}
