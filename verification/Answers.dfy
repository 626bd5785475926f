/** What a query makes of the answers that a server gives, spelled out line by line. */
module Answers {
  import opened Text
  import opened Records
  import opened Patterns
  import opened Discs
  import opened Streams
  import opened Cache
  import opened Protocol
  import opened Commands
  import opened Client

  // --- one match

  /** A disc that the server knows. */
  datatype Found = Found(category: Category, discid: Word, artist: string, title: string)

  function FoundText(f: Found): string
  {
    CategoryName(f.category) + " " + Hex8(f.discid) + " " + f.artist + " / " + f.title
  }

  /** v, known to be f. */
  function Identified(v: DiscData, f: Found): DiscData
  {
    v.(genre := Some(CategoryName(f.category)), category := f.category, discid := f.discid, artist := Some(f.artist),
       title := Some(f.title))
  }

  lemma NameIsAlpha(c: Category)
    ensures CategoryName(c) != "" && forall k :: 0 <= k < |CategoryName(c)| ==> IsAlpha(CategoryName(c)[k])
  {
  }

  lemma Spelled(c: string, h: string, a: string, t: string)
    ensures c + " " + h + " " + a + " / " + t == c + ([' '] + (h + ([' '] + (a + DELIMITER + t))))
  {
  }

  lemma FoundMatches(f: Found)
    ensures MatchQuery(FoundText(f)) ==
            Some(QueryMatch(CategoryName(f.category), Hex8(f.discid), Split(f.artist + DELIMITER + f.title)))
  {
    hide CategoryName, HexDigits, Split, MatchQuery, IsAlpha;
    var c, h, t := CategoryName(f.category), Hex8(f.discid), f.artist + DELIMITER + f.title;
    NameIsAlpha(f.category);
    Spelled(c, h, f.artist, f.title);
    QueryLineMatches(FoundText(f), c, ' ', h, ' ', t);
  }

  /** A match that was printed fills in exactly what was printed, if the title splits back from the artist. */
  lemma FoundFills(v: DiscData, f: Found)
    ensures MatchOf(FoundText(f)).Some?
    ensures Fill(v, MatchOf(FoundText(f)).value) == Identified(v, f) <==> SplitsBack(f.title)
  {
    FoundMatches(f);
    SplitJoin(f.artist, f.title);
    DiscidReadsBack(f.discid);
    CategoryOfUnique(f.category);
    hide Split, SplitsBack, DiscidOf, CategoryOf, CategoryName, Hex8, MatchQuery, FoundText;
  }

  // --- answers of one line

  function AnswerLine(code: nat, msg: string): string
  {
    Decimal(code) + (" " + msg)
  }

  lemma AnswerRead(code: nat, msg: string, later: string, size: nat)
    requires size >= 2 && Clean(AnswerLine(code, msg)) && |AnswerLine(code, msg)| <= size - 2
    ensures AnswerOf(AnswerLine(code, msg) + ("\n" + later), size) == Answer(code, msg, later)
  {
    hide NextLine, ResponseOf, Clean;
    SavedLine(AnswerLine(code, msg), later, size);
    ResponseReadsBack(code, msg);
  }

  /** An exact match: the disc is what the line says, and the stream stands behind it. */
  lemma ExactAnswer(c: Conn, f: Found, later: string, v: DiscData, d: Disc, count: int)
    requires var line := AnswerLine(200, FoundText(f)); Clean(line) && |line| <= c.bufSize - 2
    requires c.Responded(AnswerOf(AnswerLine(200, FoundText(f)) + ("\n" + later), c.bufSize), v, d, count)
    ensures count == 1 && c.queryData.Data() == [] && (d.Value() == Identified(v, f) <==> SplitsBack(f.title))
    ensures AfterAnswer(AnswerOf(AnswerLine(200, FoundText(f)) + ("\n" + later), c.bufSize), c.bufSize) == later
  {
    hide AnswerOf, AnswerLine, FoundText, Fill, MatchQuery, SplitsBack;
    AnswerRead(200, FoundText(f), later, c.bufSize);
    FoundFills(v, f);
  }

  /** Code 202 is no match, and every other code but those of matches is a failure: both leave the disc as it is. */
  lemma OtherAnswer(c: Conn, a: Answer, v: DiscData, d: Disc, count: int)
    requires c.Responded(a, v, d, count) && a.code !in {200, 210, 211}
    ensures count == (if a.code == 202 then 0 else -1) && d.Value() == v && c.queryData.Data() == []
    ensures AfterAnswer(a, c.bufSize) == a.rest
  {
  }

  /** So a line that is no response, and the end of the stream, are failures. */
  lemma MalformedAnswer(c: Conn, net: string, v: DiscData, d: Disc, count: int)
    requires c.Responded(AnswerOf(net, c.bufSize), v, d, count)
    requires var l := NextLine(net, c.bufSize);
      l == None || ScanInt(l.value.0).None? || ' ' !in l.value.0
    ensures count == -1 && d.Value() == v && c.queryData.Data() == []
  {
    hide NextLine, ScanInt;
    var l := NextLine(net, c.bufSize);
    MalformedIsError(if l == None then None else Some(l.value.0));
    OtherAnswer(c, AnswerOf(net, c.bufSize), v, d, count);
  }

  // --- lists

  function FoundTexts(fs: seq<Found>): (r: seq<string>)
    ensures |r| == |fs| && forall i :: 0 <= i < |fs| ==> r[i] == FoundText(fs[i])
  {
    seq(|fs|, i requires 0 <= i < |fs| => FoundText(fs[i]))
  }

  function AllIdentified(v: DiscData, fs: seq<Found>): (r: seq<DiscData>)
    ensures |r| == |fs| && forall i :: 0 <= i < |fs| ==> r[i] == Identified(v, fs[i])
  {
    seq(|fs|, i requires 0 <= i < |fs| => Identified(v, fs[i]))
  }

  /** The lines of a list and whatever follows its dot. */
  lemma ListMatches(v: DiscData, fs: seq<Found>, later: seq<string>)
    requires forall i :: 0 <= i < |fs| ==> SplitsBack(fs[i].title)
    ensures var lines := FoundTexts(fs) + (["."] + later);
      MatchEnd(lines) == |fs| && Complete(lines) && Fills(v, Matches(lines)) == AllIdentified(v, fs)
  {
    hide FoundText, Fill, MatchQuery, Identified, SplitsBack;
    var lines := FoundTexts(fs) + (["."] + later);
    var os := MatchesOf(lines);
    forall i | 0 <= i < |fs|
      ensures os[i].Some? && Fill(v, os[i].value) == Identified(v, fs[i])
    {
      FoundFills(v, fs[i]);
    }
    assert lines[|fs|] == "." && StartsWithDot(".");
    LeadingUnique(os, |fs|);
    assert Fills(v, Matches(lines)) == AllIdentified(v, fs);
  }

  lemma DotIsClean()
    ensures Clean(".")
  {
  }

  lemma WithDot(lines: seq<string>, n: int)
    requires AllClean(lines) && AllShort(lines, n) && n >= 1
    ensures AllClean(lines + ["."]) && AllShort(lines + ["."], n)
  {
    hide Clean;
    assert Clean(".") by { DotIsClean(); }
  }

  lemma JoinOne(a: seq<string>, x: string, b: seq<string>)
    ensures a + [x] + b == a + ([x] + b)
  {
  }

  lemma DottedLines(lines: seq<string>, later: string, size: nat)
    requires size >= 3 && AllClean(lines) && AllShort(lines, size - 2)
    ensures LinesOf(Save(lines + ["."]) + later, size) == lines + (["."] + LinesOf(later, size))
    ensures Rest(Save(lines + ["."]) + later, size, |lines| + 1) == later
  {
    hide *;
    WithDot(lines, size - 2);
    SavedThen(lines + ["."], later, size);
    RestSaved(lines + ["."], later, size);
    JoinOne(lines, ".", LinesOf(later, size));
  }

  /** A list of n matches, exact or not, ended by a dot: n results that say what was printed, the first one merged into
      the disc, and the stream stands behind the dot; an empty list is a failure. */
  lemma ListAnswer(c: Conn, code: nat, msg: string, fs: seq<Found>, later: string, v: DiscData, d: Disc, count: int)
    requires code in {210, 211} && c.bufSize >= 3
    requires Clean(AnswerLine(code, msg)) && |AnswerLine(code, msg)| <= c.bufSize - 2
    requires AllClean(FoundTexts(fs)) && AllShort(FoundTexts(fs), c.bufSize - 2)
    requires forall i :: 0 <= i < |fs| ==> SplitsBack(fs[i].title)
    requires var net := AnswerLine(code, msg) + ("\n" + (Save(FoundTexts(fs) + ["."]) + later));
      c.Responded(AnswerOf(net, c.bufSize), v, d, count)
    ensures Holds(c.queryData.Data(), AllIdentified(v, fs), d)
    ensures if fs == [] then count == -1 && d.Value() == v
            else count == |fs| && d.Value() == Merge(v, Identified(v, fs[0]))
    ensures var net := AnswerLine(code, msg) + ("\n" + (Save(FoundTexts(fs) + ["."]) + later));
      AfterAnswer(AnswerOf(net, c.bufSize), c.bufSize) == later
  {
    hide AnswerOf, AnswerLine, FoundText, FoundTexts, Save, LinesOf, Rest, Holds, Merge, Identified, Clean, SplitsBack,
         MatchEnd, Complete, Matches, Fills;
    var s := Save(FoundTexts(fs) + ["."]) + later;
    AnswerRead(code, msg, s, c.bufSize);
    DottedLines(FoundTexts(fs), later, c.bufSize);
    ListMatches(v, fs, LinesOf(later, c.bufSize));
  }

  // --- the question

  /** What cddb_query sends, if it sends anything, asks for the identifier, the offsets in track order and the length.
      It is sent exactly when the cache does not know the disc or is off, more than the cache may be used, the server
      can be reached, all offsets are known, and their list fits the buffer; otherwise nothing is read either. */
  lemma Question(c: Conn, v: DiscData, net0: string, sent0: seq<string>, d: Disc, count: int)
    requires c.Queried(v, net0, sent0, d, count)
    ensures c.sent != sent0 ==>
      && |c.sent| == |sent0| + 1 && c.sent[..|sent0|] == sent0
      && RequestOf(c.sent[|sent0|]) == Some(Query(v.discid, |v.tracks|, Offsets(v.tracks), v.length))
    ensures c.sent != sent0 <==>
      && c.useCache != CacheOnly && !(c.useCache == CacheOn && Cached(c.files, c.cacheDir, v.discid))
      && c.online && (forall i :: 0 <= i < |v.tracks| ==> v.tracks[i].frameOffset != -1)
      && |OffsetText(v.tracks)| < c.bufSize
    ensures c.sent == sent0 ==> c.net == net0
  {
    hide QueryCommand, RequestOf, Cached, AnswerOf, Conn.Responded, AfterAnswer, OffsetText;
    QueryReadsBack(v.discid, v.tracks, v.length);
  }
}
