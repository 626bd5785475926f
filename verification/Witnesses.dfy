/** Inputs at which the code does not do what one would expect, one for each such result of the other modules. */
module Witnesses {
  import opened Text
  import opened Records
  import opened Patterns
  import opened Discs
  import opened Streams
  import opened Parser
  import opened Format
  import opened Writer
  import opened Entries
  import opened Protocol
  import opened Client
  import Base64
  import Cache
  import DiscId
  import ResultList
  import QueryCache
  import RoundTrip
  import Splits
  import WriterSizes

  // --- entries that do not read back

  /** A disc with n tracks and short texts. */
  function Plain(n: nat, year: nat): DiscData
  {
    DiscData(1, CAT_DATA, year, Some("g"), Some("t"), Some("a"), 100, 0, None,
             seq(n, _ => TrackData(150, -1, Some("x"), None, None)))
  }

  /** Printable characters only. */
  predicate Plainly(s: string)
  {
    forall k :: 0 <= k < |s| ==> ' ' <= s[k]
  }

  lemma PlainClean(s: string)
    requires Plainly(s)
    ensures Clean(s)
  {
    assert NUL < ' ' && '\n' < ' ' && '\r' < ' ';
  }

  lemma ShortDecimal(n: nat)
    requires n < 1_0000
    ensures |Decimal(n)| <= 4 && Plainly(Decimal(n))
  {
    WriterSizes.Powers10();
    DecimalWidth(n, 4);
  }

  lemma ShortPadded(n: nat)
    requires n < 1_0000
    ensures |Padded(8, n)| == 8 && Plainly(Padded(8, n)) && |Padded(6, n)| == 6 && Plainly(Padded(6, n))
  {
    ShortDecimal(n);
    hide Decimal;
  }

  /** A line that is clean and short. */
  predicate Modest(s: string) { Plainly(s) && |s| <= 62 }

  lemma Joined(a: string, b: string)
    requires Plainly(a) && Plainly(b)
    ensures Plainly(a + b)
  {
  }

  lemma ModestOffset()
    ensures Modest(OffsetLine(150))
  {
    ShortPadded(150);
    hide Padded;
    Joined("    ", Padded(8, 150));
    Joined("#", "    " + Padded(8, 150));
  }

  lemma ModestLength()
    ensures Modest(LengthLine(100))
  {
    ShortPadded(100);
    hide Padded;
    var p := Padded(6, 100);
    assert Plainly(LENGTH_TAG) && Plainly(SECONDS);
    Joined(p, SECONDS);
    Joined(" ", p + SECONDS);
    Joined(LENGTH_TAG, " " + (p + SECONDS));
    Joined(" ", LENGTH_TAG + (" " + (p + SECONDS)));
    Joined("#", " " + (LENGTH_TAG + (" " + (p + SECONDS))));
  }

  lemma ModestRevision()
    ensures Modest(RevisionLine(0))
  {
    ShortPadded(0);
    hide Padded;
    var p := Padded(8, 0);
    assert Plainly(REVISION_TAG);
    Joined(" ", p);
    Joined(REVISION_TAG, " " + p);
    Joined(" ", REVISION_TAG + (" " + p));
    Joined("#", " " + (REVISION_TAG + (" " + p)));
  }

  lemma ModestYear(year: nat)
    requires year < 1_0000
    ensures Modest(YearLine(YearText(year)))
  {
    ShortDecimal(year);
    hide Decimal;
    Joined("DYEAR=", YearText(year));
  }

  lemma ModestTrack(i: nat)
    requires i < 100
    ensures Modest(TTitleLine(i, "x")) && Modest(ExtTLine(i, ""))
  {
    ShortDecimal(i);
    hide Decimal;
    Joined(Decimal(i), "=" + "x");
    Joined("TTITLE", Decimal(i) + ("=" + "x"));
    Joined(Decimal(i), "=" + "");
    Joined("EXTT", Decimal(i) + ("=" + ""));
  }

  lemma ModestOthers(discid: Word)
    ensures Modest(HeadingLine()) && Modest("DISCID=" + Hex8(discid)) && Modest(SubmittedLine("c", "v"))
  {
    hide HexDigits;
    assert Plainly(Hex8(discid));
    assert Plainly(OFFSETS_TAG);
  }

  lemma PlainLines(n: nat, year: nat)
    requires n < 100 && year < 1_0000
    ensures var ls := Lines(Plain(n, year), "c", "v"); AllClean(ls) && AllShort(ls, 62)
  {
    hide OffsetLine, LengthLine, RevisionLine, YearLine, TTitleLine, ExtTLine, HeadingLine, Hex8, SubmittedLine,
         Decimal, YearText, Padded;
    var d := Plain(n, year);
    ModestOffset();
    ModestLength();
    ModestRevision();
    ModestYear(year);
    ModestOthers(d.discid);
    assert Modest("# xmcd") && Modest("#") && Modest("PLAYORDER=") && Modest("EXTD=");
    assert "a" + DELIMITER + "t" == "a / t" && Modest("DTITLE=a / t") && Modest("DGENRE=g");
    forall i | 0 <= i < n ensures Modest(TitleLines(d.tracks)[i]) && Modest(ExtLines(d.tracks)[i]) {
      ModestTrack(i);
    }
    forall k | 0 <= k < |Lines(d, "c", "v")| ensures Modest(Lines(d, "c", "v")[k]) { }
    forall k | 0 <= k < |Lines(d, "c", "v")| ensures Clean(Lines(d, "c", "v")[k]) {
      PlainClean(Lines(d, "c", "v")[k]);
    }
  }

  lemma {:induction false} TotalBound(ps: seq<Piece>, b: nat)
    requires forall k :: 0 <= k < |ps| ==> ps[k].declared <= b
    ensures Total(ps) <= |ps| * b
  {
    if ps != [] { TotalBound(ps[..|ps| - 1], b); }
  }

  lemma PlainTotal(n: nat, year: nat)
    requires n <= 21
    ensures Total(Pieces(Plain(n, year), "c", "v")) <= WRITE_BUF_SIZE
  {
    hide Total, OffsetLine, LengthLine, RevisionLine, YearLine, TTitleLine, ExtTLine, HeadingLine, Hex8, SubmittedLine,
         Decimal;
    var ps := Pieces(Plain(n, year), "c", "v");
    forall k | 0 <= k < |ps| ensures ps[k].declared <= 55 { }
    TotalBound(ps, 55);
  }

  lemma PlainWidths(n: nat, year: nat)
    ensures Writable(Plain(n, year))
    ensures WriterSizes.InWidths(Plain(n, year)) <==> year == 0 || 1000 <= year < 1_0000
  {
  }

  lemma ShortEnough(ls: seq<string>)
    requires AllShort(ls, 62)
    ensures AllShort(ls, 1024 - 2)
  {
  }

  /** An ordinary disc with 21 tracks loses the line after the title of its last track. */
  lemma TwentyOneTracks(buf: string)
    requires |buf| == WRITE_BUF_SIZE
    ensures var d := Plain(21, 2000);
      && Writable(d) && Total(Pieces(d, "c", "v")) <= |buf|
      && 55 < |LinesOf(FileOf(d, "c", "v", buf), 1024)| && LinesOf(FileOf(d, "c", "v", buf), 1024)[55] == ""
      && Lines(d, "c", "v")[55] == "EXTD="
  {
    hide FileOf, Pieces, LinesOf, Total, AllClean, AllShort, HeadingLine, OffsetLine, TTitleLine, ExtTLine;
    PlainLines(21, 2000);
    PlainTotal(21, 2000);
    PlainWidths(21, 2000);
    ShortEnough(Lines(Plain(21, 2000), "c", "v"));
    LostLine(Plain(21, 2000), "c", "v", buf, 1024);
  }

  /** The year 999 alone keeps an entry from reading back. */
  lemma YearOfThreeDigits(buf: string)
    requires |buf| == WRITE_BUF_SIZE
    ensures var d := Plain(1, 999);
      && Writable(d) && Total(Pieces(d, "c", "v")) <= |buf|
      && LinesOf(FileOf(d, "c", "v", buf), 1024) != Lines(d, "c", "v")
  {
    hide FileOf, Pieces, LinesOf, Total, AllClean, AllShort, Lines;
    PlainLines(1, 999);
    PlainTotal(1, 999);
    PlainWidths(1, 999);
    ShortEnough(Lines(Plain(1, 999), "c", "v"));
    FileReadsBack(Plain(1, 999), "c", "v", buf, 1024);
  }

  lemma ZeroEndsNone()
    ensures NextLine("ab", 3) == Some(("ab", ""))
  {
    TakenAll("ab", 2);
    assert "ab"[..2] == "ab" && "ab"[2..] == "";
    CStringClean("ab");
    assert StripEol("ab") == "ab";
  }

  /** A line that fills a buffer of three bytes is replayed as two. */
  lemma FullLine()
    ensures LinesOf("ab", 3) == ["ab"] && LinesOf(Save(["ab"]), 3) == ["ab", ""]
  {
    hide NextLine;
    ZeroEndsNone();
    SavedLongLine("ab", "", 3);
    assert ["ab"][1..] == [] && Save(["ab"]) == "ab" + ("\n" + "");
    assert "\n" + "" == "\n" && NextLine("", 3) == None;
    assert LinesOf("", 3) == [] && LinesOf("\n", 3) == [""];
  }

  // --- a record that ends in its title

  lemma NoStepsLeft(m: Machine)
    ensures Splits.Steps(m, []) == Some(m)
  {
  }

  lemma LastTitle(m: Machine)
    requires Steady(m) && m.at.state == DiscTitle && m.at.multi == NoMulti
    ensures var r := Run(m, ["DTITLE=x"]); r.ok && r.disc.artist == Some("x") && r.disc.title == None
  {
    hide Step, ScanLine;
    assert ["x"][1..] == [] && Splits.Concat(["x"]) == "x" + "" == "x";
    assert Splits.Delimiters(["x"]) == 0;
    Splits.DTitleRun(m, ["x"]);
    Splits.LoneTitle(m, ["x"], []);
    assert Splits.DTitleLines(["x"]) == [DTitleLine("x")] + [] && DTitleLine("x") == "DTITLE=" + "x" == "DTITLE=x";
    assert Splits.DTitleLines(["x"]) + [] == ["DTITLE=x"];
    Splits.RunFrom(m, ["DTITLE=x"], []);
  }

  /** A record of which DTITLE is the last line, without a delimiter, gives an artist and no title. */
  lemma TitleAtTheEnd()
    ensures var r := Parse(NEW_DISC, HEAD_LINES + ["#", LengthLine(100), "#", RevisionLine(0)] + ["DTITLE=x"]);
      r.ok && r.disc.artist == Some("x") && r.disc.title == None
  {
    hide Step, Splits.Steps, ScanLine, LengthLine, RevisionLine, HeadingLine, Run;
    var m0 := Machine(INITIAL, NEW_DISC);
    var front := ["#", LengthLine(100), "#", RevisionLine(0)];
    RoundTrip.HeadRun(NEW_DISC);
    var m1 := Machine(INITIAL.(state := TrackOffsets), NEW_DISC);
    RoundTrip.LengthRun(m1, 100, 0, []);
    assert front + [] == front;
    Splits.StepsJoin(m0, HEAD_LINES, front);
    var m2 := Machine(m1.at.(state := DiscTitle), NEW_DISC.(length := 100, revision := 0));
    NoStepsLeft(m2);
    Splits.RunFrom(m0, HEAD_LINES + front, ["DTITLE=x"]);
    LastTitle(m2);
  }

  // --- the query table

  /** In an empty directory the zero table finds an entry for the identifier 0. */
  lemma ZeroIsFound(dir: string)
    ensures QueryCache.Lookup(QueryCache.ZEROS, map[], dir, 0).found && !Cache.Cached(map[], dir, 0)
  {
  }

  // --- results of a query

  /** The second match has no artist and gets that of the first. */
  lemma EarlierArtist()
    ensures var qs := [QueryMatch("rock", "1", Both("A", "B")), QueryMatch("jazz", "2", Only("C"))];
      HexMatch(qs[0]) && HexMatch(qs[1]) &&
      var r := MergeAll(NEW_DISC, Fills(NEW_DISC, qs));
      r.title == Some("C") && r.artist == Some("A") && r != Fill(NEW_DISC, qs[1])
  {
    var q0, q1: Match := QueryMatch("rock", "1", Both("A", "B")), QueryMatch("jazz", "2", Only("C"));
    hide DiscidOf, CategoryOf, Merge;
    var rs := Fills(NEW_DISC, [q0, q1]);
    assert rs[..1][..0] == [] && rs[..2] == rs;
    assert MergeAll(NEW_DISC, rs) == Merge(Merge(NEW_DISC, rs[0]), rs[1]) by {
      MergeAllOne(NEW_DISC, rs, 0);
      MergeAllOne(NEW_DISC, rs, 1);
    }
    MergeOne(NEW_DISC, NEW_DISC, q0);
    MergeOne(NEW_DISC, Merge(NEW_DISC, rs[0]), q1);
  }

  /** The single colon does not fit. */
  lemma ColonDoesNotFit()
    ensures |Base64.Encode(":")| + 1 > 2 * (|":"| + 1)
  {
  }

  // --- an iterator on a freed element

  const LIST_LINES: seq<string> := ["210 list", "rock 1 a", "."]

  lemma Decimal210()
    ensures Decimal(210) == "210"
  {
    assert Decimal(2) == "2";
    assert Decimal(21) == Decimal(2) + "1";
    assert Decimal(210) == Decimal(21) + "0";
  }

  lemma Code210()
    ensures ResponseOf(Some("210 list")).0 == 210
  {
    hide ResponseOf, Decimal;
    Decimal210();
    ResponseReadsBack(210, "list");
    assert "210" + (" " + "list") == "210 list";
  }

  lemma RockMatches()
    ensures MatchQuery("rock 1 a").Some?
  {
    assert "rock 1 a" == "rock" + ([' '] + ("1" + ([' '] + "a")));
    QueryLineMatches("rock 1 a", "rock", ' ', "1", ' ', "a");
  }

  lemma OneMoreDigit(s: string, c: char)
    requires (forall k :: 0 <= k < |s| ==> IsHexDigit(s[k])) && IsHexDigit(c)
    ensures HexNumber(s + [c]) == 16 * HexNumber(s) + HexValue(c)
  {
    assert (s + [c])[..|s|] == s;
  }

  lemma Coffee()
    ensures HexNumber("C0fFEE") == 0xc0_ffee
  {
    assert "" + ['C'] == "C" && "C" + ['0'] == "C0" && "C0" + ['f'] == "C0f" && "C0f" + ['F'] == "C0fF"
        && "C0fF" + ['E'] == "C0fFE" && "C0fFE" + ['E'] == "C0fFEE";
    OneMoreDigit("", 'C');
    OneMoreDigit("C", '0');
    OneMoreDigit("C0", 'f');
    OneMoreDigit("C0f", 'F');
    OneMoreDigit("C0fF", 'E');
    OneMoreDigit("C0fFE", 'E');
  }

  /** Tabs separate the parts of a match as spaces do, and capitals are letters and digits of an identifier. */
  lemma CapitalsAndTabs()
    ensures var q := QueryMatch("Rock", "C0fFEE", Only("A"));
      MatchQuery("Rock\tC0fFEE\tA") == Some(q) && HexMatch(q) && DiscidOf(q.discid) == 0xc0_ffee
  {
    hide MatchQuery, HexNumber;
    Coffee();
    var s := "Rock\tC0fFEE\tA";
    assert s == "Rock" + (['\t'] + ("C0fFEE" + (['\t'] + "A")));
    QueryLineMatches(s, "Rock", '\t', "C0fFEE", '\t', "A");
    assert !HasDelimiter("A");
  }

  /** The response of a server that knows one match. */
  lemma OneMatch(c: Conn)
    requires c.bufSize == 1024
    ensures var a := AnswerOf(Save(LIST_LINES), 1024); a.code == 210 && c.ListRead(a)
  {
    hide NextLine, ScanInt, MatchQuery;
    SaveFirst(LIST_LINES, "");
    var rest := LIST_LINES[1..];
    assert rest == ["rock 1 a", "."] && Save(LIST_LINES) + "" == Save(LIST_LINES) && Save(rest) + "" == Save(rest);
    SavedLine("210 list", Save(rest), 1024);
    Code210();
    SavedLines(rest, 1024);
    RockMatches();
    assert MatchesOf(rest)[0].Some? && MatchesOf(rest)[1].None?;
    LeadingUnique(MatchesOf(rest), 1);
  }

  lemma Decimal150()
    ensures Signed(150) == "150"
  {
    assert Decimal(1) == "1";
    assert Decimal(15) == Decimal(1) + "5";
    assert Decimal(150) == Decimal(15) + "0";
  }

  lemma OneOffset(ts: seq<TrackData>)
    requires |ts| == 1 && ts[0].frameOffset == 150
    ensures DiscId.StartSum(ts) == 2 && NoneMissing(ts) && OffsetText(ts) == "150 "
  {
    hide Signed;
    Decimal150();
    assert ts[..0] == [] && DiscId.StartSum([]) == 0 && OffsetText([]) == "";
    assert DiscId.DigitSum(2) == 2;
    assert "" + "150" + " " == "150 ";
  }

  /** A disc with one track at frame 150 and a length of 100 seconds has an identifier. */
  lemma OneTrack(v: DiscData)
    requires |v.tracks| == 1 && v.tracks[0].frameOffset == 150 && v.length == 100
    ensures DiscId.IdOf(v) != 0 && NoneMissing(v.tracks) && |OffsetText(v.tracks)| == 4
  {
    hide DiscId.StartSum, DiscId.Pack, OffsetText;
    OneOffset(v.tracks);
    DiscId.PackIsSum(2, 98, 1);
  }

  method MakeDisc() returns (d: Disc)
    ensures fresh(d) && d.Valid() && fresh(d.nodes)
    ensures |d.contents| == 1 && d.contents[0].frameOffset == 150 && d.length == 100
  {
    d := new Disc();
    var t := new Track();
    t.frameOffset := 150;
    d.AddTrack(t);
    d.length := 100;
  }

  lemma CanBeAsked(c: Conn, v: DiscData)
    requires |v.tracks| == 1 && v.tracks[0].frameOffset == 150 && v.length == 100
    requires c.useCache == Cache.CacheOff && c.online && c.bufSize == 1024
    ensures var w := v.(discid := DiscId.IdOf(v)); c.Queryable(w) && c.Asks(w)
  {
    hide DiscId.IdOf, OffsetText, NoneMissing;
    OneTrack(v);
  }

  /** The first query of the example, for a disc with one track. */
  method AskOnce() returns (c: Conn)
    ensures fresh(c) && fresh(c.table) && fresh(c.queryData) && fresh(c.queryData.nodes)
    ensures c.Valid() && c.queryData.Valid() && c.queryData.it != null
  {
    hide AnswerOf, Conn.Valid, Conn.Queried, Conn.Queryable, Conn.Asks, Conn.ListRead, Disc.Valid, DiscId.IdOf,
         ResultList.List.Valid, ResultList.List.Dangling, Save;
    var d := MakeDisc();
    c := new Conn(1024, Cache.CacheOff, "", map[], Save(LIST_LINES), true, "u", "h", "c", "v");
    CanBeAsked(c, d.Value());
    OneMatch(c);
    var count := c.Query(d);
  }

  /** A query that gets a list, and then a query for a disc without tracks, which is refused: the iterator is left on
      an element of the first list, which is freed, and the next cddb_query_next would follow it. */
  method StaleIterator() returns (c: Conn)
    ensures c.queryData.Valid() && c.queryData.Dangling()
  {
    hide Conn.Valid, Conn.Queried, Conn.ListRead, Disc.Valid, DiscId.IdOf, ResultList.List.Valid;
    c := AskOnce();
    var e := new Disc();
    var count := c.Query(e);
  }
}
