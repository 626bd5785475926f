/** The record writer (cddb_write_data): each part is printed into the buffer, and the buffer pointer is
    then moved by a length that the code works out by hand. */
module Writer {
  import opened Text
  import opened Records
  import opened Discs
  import opened Streams
  import opened Format

  /** One CDDB_WRITE_APPEND: the declared length and the text that is printed. */
  datatype Piece = Piece(declared: nat, text: string)

  /** The writer follows these pointers without a check; cddb_write makes sure of them. */
  predicate Writable(d: DiscData)
  {
    d.artist.Some? && d.title.Some? && forall i :: 0 <= i < |d.tracks| ==> d.tracks[i].title.Some?
  }

  // --- the parts

  function GenreText(d: DiscData): string
  {
    if d.genre.Some? && d.genre.value != "" then d.genre.value else CategoryName(d.category)
  }

  function YearPiece(year: nat): Piece
  {
    if year != 0 then Piece(7 + 4, YearLine(Decimal(year)) + "\n") else Piece(7, YearLine("") + "\n")
  }

  function OffsetPiece(offset: int): Piece
  {
    Piece(6 + 8, OffsetLine(offset) + "\n")
  }

  /** The hand-computed width of a track index. */
  function IndexWidth(i: nat): nat { i / 10 + 1 }

  function TitlePiece(i: nat, t: TrackData): Piece
    requires t.title.Some?
  {
    match t.artist
    case Some(a) => Piece(11 + IndexWidth(i) + |a| + |t.title.value|,
                          TTitleLine(i, a + DELIMITER + t.title.value) + "\n")
    case None => Piece(8 + IndexWidth(i) + |t.title.value|, TTitleLine(i, t.title.value) + "\n")
  }

  function ExtTPiece(i: nat, t: TrackData): Piece
  {
    Piece(6 + IndexWidth(i) + |OrEmpty(t.extData)|, ExtTLine(i, OrEmpty(t.extData)) + "\n")
  }

  function OffsetPieces(ts: seq<TrackData>): (r: seq<Piece>)
    ensures |r| == |ts| && forall i :: 0 <= i < |ts| ==> r[i] == OffsetPiece(ts[i].frameOffset)
  {
    seq(|ts|, i requires 0 <= i < |ts| => OffsetPiece(ts[i].frameOffset))
  }

  function TitlePieces(ts: seq<TrackData>): (r: seq<Piece>)
    requires forall i :: 0 <= i < |ts| ==> ts[i].title.Some?
    ensures |r| == |ts| && forall i :: 0 <= i < |ts| ==> r[i] == TitlePiece(i, ts[i])
  {
    seq(|ts|, i requires 0 <= i < |ts| => TitlePiece(i, ts[i]))
  }

  function ExtTPieces(ts: seq<TrackData>): (r: seq<Piece>)
    ensures |r| == |ts| && forall i :: 0 <= i < |ts| ==> r[i] == ExtTPiece(i, ts[i])
  {
    seq(|ts|, i requires 0 <= i < |ts| => ExtTPiece(i, ts[i]))
  }

  function SubmittedLine(cname: string, cversion: string): string
  {
    "# Submitted via: " + cname + " " + cversion
  }

  function HeadPieces(): (r: seq<Piece>)
    ensures |r| == 2
  {
    [Piece(9, "# xmcd" + "\n" + "#" + "\n"), Piece(23, HeadingLine() + "\n")]
  }

  function MiddlePieces(d: DiscData, cname: string, cversion: string): (r: seq<Piece>)
    requires Writable(d)
    ensures |r| == 7
  {
    [Piece(26 + 6, "#" + "\n" + LengthLine(d.length) + "\n"),
     Piece(15 + 8, "#" + "\n" + RevisionLine(d.revision) + "\n"),
     Piece(21 + |cname| + |cversion|, SubmittedLine(cname, cversion) + "\n" + "#" + "\n"),
     Piece(8 + 8, "DISCID=" + Hex8(d.discid) + "\n"),
     Piece(11 + |d.artist.value| + |d.title.value|,
           DTitleLine(d.artist.value + DELIMITER + d.title.value) + "\n"),
     YearPiece(d.year),
     Piece(8 + |GenreText(d)|, GenreLine(GenreText(d)) + "\n")]
  }

  function ExtDPiece(d: DiscData): Piece
  {
    Piece(6 + |OrEmpty(d.extData)|, ExtDLine(OrEmpty(d.extData)) + "\n")
  }

  function OrderPiece(): Piece { Piece(11, "PLAYORDER=" + "\n") }

  function Pieces(d: DiscData, cname: string, cversion: string): seq<Piece>
    requires Writable(d)
  {
    HeadPieces() + OffsetPieces(d.tracks) + MiddlePieces(d, cname, cversion) + TitlePieces(d.tracks)
    + [ExtDPiece(d)] + ExtTPieces(d.tracks) + [OrderPiece()]
  }

  // --- printing into the buffer

  /** snprintf at a position, told how much room is left: what fits of the text, a terminating zero, and the rest as
      it was; nothing at all when there is no room. */
  function Print(s: string, pos: nat, text: string): (r: string)
    requires pos <= |s|
    ensures |r| == |s|
  {
    if pos == |s| then s
    else var t := Cut(text, |s| - pos); s[..pos] + t + [NUL] + s[pos + |t| + 1..]
  }

  function Total(ps: seq<Piece>): nat
  {
    if ps == [] then 0 else Total(ps[..|ps| - 1]) + ps[|ps| - 1].declared
  }

  /** Every part starts inside the buffer, or at its end: exactly then the writer does not print outside it. */
  predicate Inside(ps: seq<Piece>, size: nat)
  {
    forall k :: 0 <= k < |ps| ==> Total(ps[..k]) <= size
  }

  lemma InsidePrefix(ps: seq<Piece>, n: nat, size: nat)
    requires Inside(ps, size) && n <= |ps|
    ensures Inside(ps[..n], size)
  {
    forall k | 0 <= k < n ensures Total(ps[..n][..k]) <= size {
      assert ps[..n][..k] == ps[..k];
    }
  }

  lemma {:induction false} TotalGrows(ps: seq<Piece>, m: nat, n: nat)
    requires m <= n <= |ps|
    ensures Total(ps[..m]) <= Total(ps[..n])
  {
    if m < n {
      TotalGrows(ps, m, n - 1);
      assert ps[..n][..n - 1] == ps[..n - 1];
    }
  }

  /** What is declared fits, so every part starts inside. */
  lemma TotalInside(ps: seq<Piece>, size: nat)
    requires Total(ps) <= size
    ensures Inside(ps, size)
  {
    forall k | 0 <= k < |ps| ensures Total(ps[..k]) <= size {
      TotalGrows(ps, k, |ps|);
      assert ps[..|ps|] == ps;
    }
  }

  /** The buffer after all parts were printed, each where the declared lengths put it. */
  function Layout(s: string, ps: seq<Piece>): (r: string)
    requires Inside(ps, |s|)
    ensures |r| == |s|
    decreases |ps|
  {
    if ps == [] then s
    else
      var n := |ps| - 1;
      assert forall k :: 0 <= k < n ==> ps[..n][..k] == ps[..k];
      Print(Layout(s, ps[..n]), Total(ps[..n]), ps[n].text)
  }

  /** snprintf */
  method PrintInto(buf: array<char>, pos: nat, text: string)
    requires pos <= buf.Length
    modifies buf
    ensures buf[..] == Print(old(buf[..]), pos, text)
  {
    if pos < buf.Length {
      var t := Cut(text, buf.Length - pos);
      forall k | 0 <= k < |t| {
        buf[pos + k] := t[k];
      }
      buf[pos + |t|] := NUL;
    }
  }

  lemma LayoutStep(s: string, done: seq<Piece>, p: Piece)
    requires Inside(done, |s|) && Inside(done + [p], |s|)
    ensures Total(done + [p]) == Total(done) + p.declared && Total(done) <= |s|
    ensures Layout(s, done + [p]) == Print(Layout(s, done), Total(done), p.text)
  {
    var all := done + [p];
    assert all[..|all| - 1] == done && all[|done|] == p;
    assert all[..|done|] == done;
  }

  /** CDDB_WRITE_APPEND */
  method Append(buf: array<char>, pos: nat, p: Piece, ghost b0: string, ghost done: seq<Piece>)
      returns (pos': nat)
    requires |b0| == buf.Length && Inside(done + [p], buf.Length)
    requires Inside(done, buf.Length) && buf[..] == Layout(b0, done) && pos == Total(done)
    modifies buf
    ensures buf[..] == Layout(b0, done + [p]) && pos' == Total(done + [p])
  {
    LayoutStep(b0, done, p);
    PrintInto(buf, pos, p.text);
    pos' := pos + p.declared;
  }

  /** These parts stand at position n of all. */
  ghost predicate Segment(all: seq<Piece>, n: nat, ps: seq<Piece>)
  {
    n + |ps| <= |all| && all[n..n + |ps|] == ps
  }

  lemma SegmentAt(all: seq<Piece>, n: nat, ps: seq<Piece>, k: nat)
    requires Segment(all, n, ps) && k < |ps|
    ensures n + k < |all| && all[n + k] == ps[k]
  {
    assert all[n..n + |ps|][k] == all[n + k];
  }

  lemma SevenSegments(a: seq<Piece>, b: seq<Piece>, c: seq<Piece>, d: seq<Piece>, e: seq<Piece>,
                      f: seq<Piece>, g: seq<Piece>)
    ensures var all := a + b + c + d + e + f + g; var (i, j, k) := (|a| + |b|, |c| + |d|, |e| + |f|);
      && Segment(all, 0, a) && Segment(all, |a|, b) && Segment(all, i, c) && Segment(all, i + |c|, d)
      && Segment(all, i + j, e) && Segment(all, i + j + |e|, f) && Segment(all, i + j + k, g)
  {
  }

  /** Where the parts stand. */
  lemma Segments(d: DiscData, cname: string, cversion: string)
    requires Writable(d)
    ensures var all := Pieces(d, cname, cversion); var n := |d.tracks|;
      && |all| == 11 + 3 * n
      && Segment(all, 0, HeadPieces()) && Segment(all, 2, OffsetPieces(d.tracks))
      && Segment(all, 2 + n, MiddlePieces(d, cname, cversion))
      && Segment(all, 9 + n, TitlePieces(d.tracks)) && Segment(all, 9 + 2 * n, [ExtDPiece(d)])
      && Segment(all, 10 + 2 * n, ExtTPieces(d.tracks)) && Segment(all, 10 + 3 * n, [OrderPiece()])
  {
    hide HeadPieces, MiddlePieces, TitlePieces, ExtTPieces, ExtDPiece, OrderPiece, OffsetPieces, Segment;
    SevenSegments(HeadPieces(), OffsetPieces(d.tracks), MiddlePieces(d, cname, cversion),
                  TitlePieces(d.tracks), [ExtDPiece(d)], ExtTPieces(d.tracks), [OrderPiece()]);
  }

  /** The buffer holds the first n parts and the pointer stands behind them. */
  ghost predicate Written(buf: seq<char>, pos: nat, b0: string, all: seq<Piece>, n: nat)
  {
    && |buf| == |b0| && n <= |all| && Inside(all, |b0|) && Inside(all[..n], |b0|)
    && buf == Layout(b0, all[..n]) && pos == Total(all[..n])
  }

  /** One more part of all. */
  method AppendNext(buf: array<char>, pos: nat, p: Piece, ghost b0: string, ghost all: seq<Piece>,
                    ghost n: nat) returns (pos': nat)
    requires Written(buf[..], pos, b0, all, n) && n < |all| && all[n] == p
    modifies buf
    ensures Written(buf[..], pos', b0, all, n + 1)
  {
    assert all[..n + 1] == all[..n] + [p];
    InsidePrefix(all, n + 1, buf.Length);
    pos' := Append(buf, pos, p, b0, all[..n]);
  }

  method WriteOrder(buf: array<char>, pos: nat, ghost b0: string, ghost all: seq<Piece>, ghost n: nat)
      returns (pos': nat)
    requires Written(buf[..], pos, b0, all, n) && Segment(all, n, [OrderPiece()])
    modifies buf
    ensures Written(buf[..], pos', b0, all, n + 1)
  {
    hide Written;
    SegmentAt(all, n, [OrderPiece()], 0);
    pos' := AppendNext(buf, pos, Piece(11, "PLAYORDER=" + "\n"), b0, all, n);
  }

  lemma WrittenNone(b0: string, all: seq<Piece>)
    requires Inside(all, |b0|)
    ensures Written(b0, 0, b0, all, 0)
  {
    assert all[..0] == [];
  }

  lemma WrittenAll(buf: string, pos: nat, b0: string, all: seq<Piece>)
    requires Inside(all, |b0|) && Written(buf, pos, b0, all, |all|)
    ensures buf == Layout(b0, all) && pos == Total(all)
  {
    assert all[..|all|] == all;
  }

  method WriteHead(buf: array<char>, ghost b0: string, ghost all: seq<Piece>) returns (pos: nat)
    requires Written(buf[..], 0, b0, all, 0) && Segment(all, 0, HeadPieces())
    modifies buf
    ensures Written(buf[..], pos, b0, all, 2)
  {
    hide Written;
    SegmentAt(all, 0, HeadPieces(), 0);
    SegmentAt(all, 0, HeadPieces(), 1);
    pos := AppendNext(buf, 0, Piece(9, "# xmcd" + "\n" + "#" + "\n"), b0, all, 0);
    pos := AppendNext(buf, pos, Piece(23, HeadingLine() + "\n"), b0, all, 1);
  }

  method WriteExtD(buf: array<char>, pos: nat, d: Disc, ghost b0: string, ghost all: seq<Piece>,
                   ghost n: nat) returns (pos': nat)
    requires Written(buf[..], pos, b0, all, n) && Segment(all, n, [ExtDPiece(d.Value())])
    modifies buf
    ensures Written(buf[..], pos', b0, all, n + 1)
  {
    hide Written;
    SegmentAt(all, n, [ExtDPiece(d.Value())], 0);
    if d.extData != None {
      pos' := AppendNext(buf, pos, Piece(6 + |d.extData.value|, ExtDLine(d.extData.value) + "\n"), b0, all, n);
    } else {
      pos' := AppendNext(buf, pos, Piece(6, ExtDLine("") + "\n"), b0, all, n);
    }
  }

  method WriteOffsets(buf: array<char>, pos: nat, d: Disc, ghost b0: string, ghost all: seq<Piece>,
                      ghost n: nat) returns (pos': nat)
    requires d.Valid() && Written(buf[..], pos, b0, all, n) && Segment(all, n, OffsetPieces(d.contents))
    modifies buf, d`iterator_
    ensures Written(buf[..], pos', b0, all, n + |d.spine|)
  {
    hide Written, Segment, Disc.Linked, TitlePiece, ExtTPiece, OffsetPiece, OffsetPieces;
    pos' := pos;
    var track := d.GetTrackFirst();
    ghost var i := 0;
    while track != null
      invariant 0 <= i <= |d.spine| && d.Valid()
      invariant track == d.iterator_ == if i < |d.spine| then d.spine[i] else null
      invariant Written(buf[..], pos', b0, all, n + i)
      decreases |d.spine| - i
    {
      d.TrackAt(i);
      SegmentAt(all, n, OffsetPieces(d.contents), i);
      pos' := AppendNext(buf, pos', OffsetPiece(track.frameOffset), b0, all, n + i);
      track := d.GetTrackNext(i);
      i := i + 1;
    }
  }

  method WriteTitles(buf: array<char>, pos: nat, d: Disc, ghost b0: string, ghost all: seq<Piece>,
                     ghost n: nat) returns (pos': nat)
    requires d.Valid() && Written(buf[..], pos, b0, all, n)
    requires Writable(d.Value()) && Segment(all, n, TitlePieces(d.contents))
    modifies buf, d`iterator_
    ensures Written(buf[..], pos', b0, all, n + |d.spine|)
  {
    hide Written, Segment, Disc.Linked, ExtTPiece, OffsetPiece;
    pos' := pos;
    var track := d.GetTrackFirst();
    var i := 0;
    while track != null
      invariant 0 <= i <= |d.spine| && d.Valid()
      invariant track == d.iterator_ == if i < |d.spine| then d.spine[i] else null
      invariant Written(buf[..], pos', b0, all, n + i)
      decreases |d.spine| - i
    {
      d.TrackAt(i);
      SegmentAt(all, n, TitlePieces(d.contents), i);
      var p: Piece;
      if track.artist != None {
        p := Piece(11 + (i / 10 + 1) + |track.artist.value| + |track.title.value|,
                   TTitleLine(i, track.artist.value + DELIMITER + track.title.value) + "\n");
      } else {
        p := Piece(8 + (i / 10 + 1) + |track.title.value|, TTitleLine(i, track.title.value) + "\n");
      }
      assert p == TitlePiece(i, d.contents[i]);
      pos' := AppendNext(buf, pos', p, b0, all, n + i);
      track := d.GetTrackNext(i);
      i := i + 1;
    }
  }

  method WriteExts(buf: array<char>, pos: nat, d: Disc, ghost b0: string, ghost all: seq<Piece>,
                   ghost n: nat) returns (pos': nat)
    requires d.Valid() && Written(buf[..], pos, b0, all, n) && Segment(all, n, ExtTPieces(d.contents))
    modifies buf, d`iterator_
    ensures Written(buf[..], pos', b0, all, n + |d.spine|)
  {
    hide Written, Segment, Disc.Linked, TitlePiece, OffsetPiece;
    pos' := pos;
    var track := d.GetTrackFirst();
    var i := 0;
    while track != null
      invariant 0 <= i <= |d.spine| && d.Valid()
      invariant track == d.iterator_ == if i < |d.spine| then d.spine[i] else null
      invariant Written(buf[..], pos', b0, all, n + i)
      decreases |d.spine| - i
    {
      d.TrackAt(i);
      SegmentAt(all, n, ExtTPieces(d.contents), i);
      var p: Piece;
      if track.extData != None {
        p := Piece(6 + (i / 10 + 1) + |track.extData.value|, ExtTLine(i, track.extData.value) + "\n");
      } else {
        p := Piece(6 + (i / 10 + 1), ExtTLine(i, "") + "\n");
      }
      assert p == ExtTPiece(i, d.contents[i]);
      pos' := AppendNext(buf, pos', p, b0, all, n + i);
      track := d.GetTrackNext(i);
      i := i + 1;
    }
  }

  lemma MiddleAt(all: seq<Piece>, n: nat, ms: seq<Piece>)
    requires Segment(all, n, ms) && |ms| == 7
    ensures n + 7 <= |all| && all[n] == ms[0] && all[n + 1] == ms[1] && all[n + 2] == ms[2] && all[n + 3] == ms[3]
    ensures all[n + 4] == ms[4] && all[n + 5] == ms[5] && all[n + 6] == ms[6]
  {
    forall k | 0 <= k < 7 ensures n + k < |all| && all[n + k] == ms[k] { SegmentAt(all, n, ms, k); }
  }

  /** The numbers of the disc and the submission. */
  method WriteNumbers(buf: array<char>, pos: nat, d: Disc, cname: string, cversion: string,
                      ghost b0: string, ghost all: seq<Piece>, ghost n: nat) returns (pos': nat)
    requires Written(buf[..], pos, b0, all, n)
    requires Writable(d.Value()) && Segment(all, n, MiddlePieces(d.Value(), cname, cversion))
    modifies buf
    ensures Written(buf[..], pos', b0, all, n + 4)
  {
    hide Written, Segment, LengthLine, RevisionLine, SubmittedLine, DTitleLine, GenreLine, YearLine, Hex8, Decimal;
    MiddleAt(all, n, MiddlePieces(d.Value(), cname, cversion));
    pos' := AppendNext(buf, pos, Piece(26 + 6, "#" + "\n" + LengthLine(d.length) + "\n"), b0, all, n);
    pos' := AppendNext(buf, pos', Piece(15 + 8, "#" + "\n" + RevisionLine(d.revision) + "\n"), b0, all, n + 1);
    pos' := AppendNext(buf, pos', Piece(21 + |cname| + |cversion|,
                                        SubmittedLine(cname, cversion) + "\n" + "#" + "\n"), b0, all, n + 2);
    pos' := AppendNext(buf, pos', Piece(8 + 8, "DISCID=" + Hex8(d.discid) + "\n"), b0, all, n + 3);
  }

  /** Title, year and genre of the disc. */
  method WriteNames(buf: array<char>, pos: nat, d: Disc, ghost cname: string, ghost cversion: string,
                    ghost b0: string, ghost all: seq<Piece>, ghost n: nat) returns (pos': nat)
    requires Written(buf[..], pos, b0, all, n + 4)
    requires Writable(d.Value()) && Segment(all, n, MiddlePieces(d.Value(), cname, cversion))
    modifies buf
    ensures Written(buf[..], pos', b0, all, n + 7)
  {
    hide Written, Segment, LengthLine, RevisionLine, SubmittedLine, DTitleLine, GenreLine, YearLine, Hex8, Decimal;
    MiddleAt(all, n, MiddlePieces(d.Value(), cname, cversion));
    pos' := AppendNext(buf, pos, Piece(11 + |d.artist.value| + |d.title.value|,
                                       DTitleLine(d.artist.value + DELIMITER + d.title.value) + "\n"),
                       b0, all, n + 4);
    if d.year != 0 {
      pos' := AppendNext(buf, pos', Piece(7 + 4, YearLine(Decimal(d.year)) + "\n"), b0, all, n + 5);
    } else {
      pos' := AppendNext(buf, pos', Piece(7, YearLine("") + "\n"), b0, all, n + 5);
    }
    var s := CategoryName(d.category);
    if d.genre != None && d.genre.value != "" {
      s := d.genre.value;
    }
    pos' := AppendNext(buf, pos', Piece(8 + |s|, GenreLine(s) + "\n"), b0, all, n + 6);
  }

  /** The first half of cddb_write_data, up to the genre. */
  method WriteTop(buf: array<char>, d: Disc, cname: string, cversion: string, ghost b0: string,
                  ghost all: seq<Piece>) returns (pos: nat)
    requires d.Valid() && Writable(d.Value()) && Written(buf[..], 0, b0, all, 0)
    requires Segment(all, 0, HeadPieces()) && Segment(all, 2, OffsetPieces(d.contents))
    requires Segment(all, 2 + |d.spine|, MiddlePieces(d.Value(), cname, cversion))
    modifies buf, d`iterator_
    ensures Written(buf[..], pos, b0, all, 9 + |d.spine|) && d.Value() == old(d.Value())
  {
    hide Written, Segment, Writable, HeadPieces, OffsetPieces, MiddlePieces;
    ghost var v := d.Value();
    pos := WriteHead(buf, b0, all);
    pos := WriteOffsets(buf, pos, d, b0, all, 2);
    assert d.Value() == v;
    pos := WriteNumbers(buf, pos, d, cname, cversion, b0, all, 2 + |d.spine|);
    pos := WriteNames(buf, pos, d, cname, cversion, b0, all, 2 + |d.spine|);
  }

  /** The second half, from the track titles on. */
  method WriteBottom(buf: array<char>, start: nat, d: Disc, ghost b0: string, ghost all: seq<Piece>,
                     ghost n: nat) returns (pos: nat)
    requires d.Valid() && Writable(d.Value()) && Written(buf[..], start, b0, all, n)
    requires Segment(all, n, TitlePieces(d.contents))
    requires Segment(all, n + |d.spine|, [ExtDPiece(d.Value())])
    requires Segment(all, n + |d.spine| + 1, ExtTPieces(d.contents))
    requires Segment(all, n + 2 * |d.spine| + 1, [OrderPiece()])
    modifies buf, d`iterator_
    ensures Written(buf[..], pos, b0, all, n + 2 * |d.spine| + 2) && d.Value() == old(d.Value())
  {
    hide Written, Segment, TitlePieces, ExtTPieces, ExtDPiece;
    ghost var v := d.Value();
    pos := WriteTitles(buf, start, d, b0, all, n);
    assert d.Value() == v;
    pos := WriteExtD(buf, pos, d, b0, all, n + |d.spine|);
    pos := WriteExts(buf, pos, d, b0, all, n + |d.spine| + 1);
    pos := WriteOrder(buf, pos, b0, all, n + 2 * |d.spine| + 1);
  }

  lemma ValidCount(d: Disc)
    requires d.Valid()
    ensures |d.contents| == |d.spine| && d.Value().tracks == d.contents
  {
  }

  /** cddb_write_data: the buffer as the parts lay it out, and the number of bytes that the declared
      lengths add up to. */
  method WriteData(buf: array<char>, d: Disc, cname: string, cversion: string) returns (size: nat)
    requires d.Valid() && Writable(d.Value()) && Inside(Pieces(d.Value(), cname, cversion), buf.Length)
    modifies buf, d`iterator_
    ensures buf[..] == Layout(old(buf[..]), Pieces(d.Value(), cname, cversion))
    ensures size == Total(Pieces(d.Value(), cname, cversion))
  {
    hide *;
    ValidCount(d);
    ghost var v, n := d.Value(), |d.spine|;
    ghost var all, b0 := Pieces(v, cname, cversion), buf[..];
    Segments(v, cname, cversion);
    WrittenNone(b0, all);
    size := WriteTop(buf, d, cname, cversion, b0, all);
    size := WriteBottom(buf, size, d, b0, all, 9 + n);
    WrittenAll(buf[..], size, b0, all);
  }
}
