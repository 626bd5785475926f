/** Commands one after another: an entry that was written is found again by a disc with the same offsets and
    length, and a record that was read from the server is read from the cache the next time. */
module Sessions {
  import opened Text
  import opened Records
  import opened Discs
  import opened Streams
  import opened Parser
  import opened Cache
  import opened Protocol
  import opened Commands
  import opened Client
  import opened Answers
  import Endings
  import ResultList
  import DiscId
  import Writer
  import Entries
  import WriterSizes
  import RoundTrip

  // --- the identifier of a disc

  /** The same frame offsets and the same length. */
  predicate SameToc(a: DiscData, b: DiscData)
  {
    && a.length == b.length && |a.tracks| == |b.tracks|
    && forall i :: 0 <= i < |a.tracks| ==> a.tracks[i].frameOffset == b.tracks[i].frameOffset
  }

  lemma {:induction false} SameStartSum(a: seq<TrackData>, b: seq<TrackData>)
    requires |a| == |b| && forall i :: 0 <= i < |a| ==> a[i].frameOffset == b[i].frameOffset
    ensures DiscId.StartSum(a) == DiscId.StartSum(b)
  {
    if a != [] { SameStartSum(a[..|a| - 1], b[..|b| - 1]); }
  }

  /** The identifier depends on nothing but the offsets and the length. */
  lemma SameTocSameId(a: DiscData, b: DiscData)
    requires SameToc(a, b)
    ensures DiscId.IdOf(a) == DiscId.IdOf(b)
  {
    hide DiscId.StartSum, DiscId.Pack;
    SameStartSum(a.tracks, b.tracks);
  }

  // --- writing, finding, reading

  /** An entry that the reader gets back from the file: numbers in their columns, at most 20 tracks, and lines without
      line ends or zeros that fit the read buffer. */
  predicate Printable(v: DiscData, cname: string, cversion: string, size: nat)
    requires Writer.Writable(v)
  {
    && WriterSizes.InWidths(v) && |v.tracks| <= 20 && RoundTrip.OffsetsSet(v)
    && AllClean(Entries.Lines(v, cname, cversion)) && AllShort(Entries.Lines(v, cname, cversion), size - 2)
  }

  /** An entry for v is cached. */
  ghost predicate HasEntry(c: Conn, v: DiscData)
    reads c`files
  {
    FileName(c.cacheDir, v.category, v.discid) in c.files
  }

  /** The lines of the cached entry are those of the record of v. */
  ghost predicate HasRecord(c: Conn, v: DiscData)
    requires Writer.Writable(v)
    reads c`files
  {
    HasEntry(c, v) &&
    LinesOf(c.files[FileName(c.cacheDir, v.category, v.discid)], c.bufSize) == Entries.Lines(v, c.cname, c.cversion)
  }

  /** Writes an entry that fits the buffer. */
  method WriteIt(c: Conn, d: Disc) returns (ok: bool)
    requires c.Valid() && d.Valid() && c.useCache != CacheOff && c.Submittable(d.Value()) && Writer.Writable(d.Value())
    requires Writer.Total(Writer.Pieces(d.Value(), c.cname, c.cversion)) <= WRITE_BUF_SIZE
    modifies c`net, c`unread, c`sent, c`files, c`cacheFp, d`iterator_
    ensures c.Valid() && HasEntry(c, d.Value())
    ensures Printable(d.Value(), c.cname, c.cversion, c.bufSize) ==> HasRecord(c, d.Value())
    ensures c.useCache == CacheOnly ==> ok && c.sent == old(c.sent) && c.net == old(c.net)
  {
    hide AnswerOf, FileName, Conn.Valid, Conn.Submittable, Disc.Valid, Writer.Pieces, Writer.Total, Writer.Writable,
         Entries.FileOf, Entries.Lines, WriterSizes.InWidths, Save, LinesOf, AllClean, AllShort;
    ghost var garbage;
    ok, garbage := c.Write(d);
    if Printable(d.Value(), c.cname, c.cversion, c.bufSize) {
      Entries.FileReadsBack(d.Value(), c.cname, c.cversion, garbage, c.bufSize);
    }
  }

  lemma CachedHere(files: map<string, string>, dir: string, category: Category, discid: Word)
    requires category < CAT_INVALID && FileName(dir, category, discid) in files
    ensures Cached(files, dir, discid)
  {
  }

  /** Any disc with the same offsets and length is found in the cache, whatever else it holds and whatever the entry
      looks like. */
  method FindIt(c: Conn, q: Disc, ghost v: DiscData) returns (count: int)
    requires c.Valid() && q.Valid() && c.queryData.Valid() && c.useCache != CacheOff
    requires HasEntry(c, v) && SameToc(v, q.Value())
    requires v.discid == DiscId.IdOf(v) != 0 && v.category < CAT_INVALID && v.length != 0 && v.tracks != []
    modifies c`net, c`unread, c`sent, c`tableReady, c.table, c.queryData, c.queryData.nodes, q, q.nodes
    ensures c.Valid() && q.Valid() && c.queryData.Valid()
    ensures count == 1 && q.discid == v.discid && q.category < CAT_INVALID && c.Exists(q)
    ensures c.sent == old(c.sent) && c.net == old(c.net)
    ensures q.Value() == old(q.Value()).(discid := v.discid, category := q.category)
  {
    hide AnswerOf, FileName, Conn.Valid, Disc.Linked, DiscId.IdOf, Save, Conn.Responded, Conn.ListRead,
         ResultList.List.AtFirst, Conn.CanAsk, Conn.Exists;
    SameTocSameId(v, q.Value());
    CachedHere(c.files, c.cacheDir, v.category, v.discid);
    count := c.Query(q);
  }

  /** What a file with the lines of a record gives. */
  lemma RecordParses(e: DiscData, v: DiscData, file: string, cname: string, cversion: string, size: nat)
    requires size >= 2 && e.tracks == [] && Writer.Writable(v) && RoundTrip.OffsetsSet(v)
    requires LinesOf(file, size) == Entries.Lines(v, cname, cversion)
    ensures var p := ParseStream(e, file, size); p.ok && p.disc == RoundTrip.Restored(e, v)
  {
    hide Writer.Writable, Entries.Lines, Save, LinesOf, Run, Used, RoundTrip.Restored;
    RoundTrip.ParseLines(e, v, cname, cversion);
  }

  /** Reads the entry into a new disc. */
  method ReadIt(c: Conn, discid: Word, category: Category, ghost v: DiscData) returns (ok: bool, e: Disc)
    requires c.Valid() && c.useCache != CacheOff && Writer.Writable(v)
    requires discid == v.discid != 0 && category == v.category < CAT_INVALID
    modifies c`cacheRead, c`cacheFp, c`files, c`unread, c`net, c`sent
    ensures c.Valid() && fresh(e) && e.Valid()
    ensures old(HasRecord(c, v)) && RoundTrip.OffsetsSet(v) ==>
      ok && e.Value() == RoundTrip.Restored(NEW_DISC.(discid := v.discid, category := v.category), v)
    ensures (old(HasRecord(c, v)) && RoundTrip.OffsetsSet(v)) || c.useCache == CacheOnly ==>
      c.sent == old(c.sent) && c.net == old(c.net) && c.files == old(c.files)
  {
    hide AnswerOf, FileName, Conn.Valid, Disc.Linked, Entries.Lines, Save, ParseStream, Writer.Writable,
         RoundTrip.Restored, LinesOf, RoundTrip.OffsetsSet, Conn.Hit, Conn.Seen;
    e := new Disc();
    e.discid, e.category := discid, category;
    ghost var e0 := NEW_DISC.(discid := v.discid, category := v.category);
    if HasRecord(c, v) && RoundTrip.OffsetsSet(v) {
      RecordParses(e0, v, c.files[FileName(c.cacheDir, v.category, v.discid)], c.cname, c.cversion, c.bufSize);
      c.FileSeen(e, c.files[FileName(c.cacheDir, v.category, v.discid)]);
    }
    ok := c.Read(e);
  }

  /** Write, find and read: an entry written while caching is on is found, without the server, by every disc with the
      same offsets and length; if it is printable, reading the written category restores the record, again without
      the server (`told` is what was sent when the entry was written). In the cache-only mode nothing is ever sent. */
  method WriteFindRead(c: Conn, d: Disc, q: Disc)
      returns (ok: bool, ghost told: seq<string>, count: int, read: bool, e: Disc)
    requires c.Valid() && d.Valid() && q.Valid() && c.queryData.Valid() && c.useCache != CacheOff
    requires q != d && q.nodes !! d.nodes
    requires c.Submittable(d.Value()) && Writer.Writable(d.Value())
    requires Writer.Total(Writer.Pieces(d.Value(), c.cname, c.cversion)) <= WRITE_BUF_SIZE
    requires d.discid == DiscId.IdOf(d.Value()) && SameToc(d.Value(), q.Value())
    modifies c, c.table, c.queryData, c.queryData.nodes, q, q.nodes, d`iterator_
    ensures c.Valid() && count == 1 && q.discid == d.discid && q.category < CAT_INVALID
    ensures Printable(d.Value(), c.cname, c.cversion, c.bufSize) ==>
      read && e.Value() == RoundTrip.Restored(NEW_DISC.(discid := d.discid, category := d.category), d.Value())
    ensures Printable(d.Value(), c.cname, c.cversion, c.bufSize) || old(c.useCache) == CacheOnly ==> c.sent == told
    ensures old(c.useCache) == CacheOnly ==> ok && c.sent == old(c.sent) && c.net == old(c.net)
  {
    hide FileName, Conn.Valid, Disc.Linked, Disc.Valid, Entries.Lines, Save, Writer.Writable, DiscId.IdOf,
         RoundTrip.Restored, SameToc, HasRecord, HasEntry, Conn.Exists, AllClean, AllShort, WriterSizes.InWidths,
         RoundTrip.OffsetsSet, Writer.Pieces, Writer.Total;
    ghost var v := d.Value();
    ok := WriteIt(c, d);
    told := c.sent;
    count := FindIt(c, q, v);
    read, e := ReadIt(c, d.discid, d.category, v);
  }

  // --- two records in a row

  /** What a server sends for a record: the response, the lines, and the dot. */
  function RecordSent(v: DiscData, msg: string, cname: string, cversion: string): string
    requires Writer.Writable(v)
  {
    AnswerLine(210, msg) + ("\n" + Save(Entries.Lines(v, cname, cversion) + ["."]))
  }

  predicate Sendable(v: DiscData, msg: string, cname: string, cversion: string, size: nat)
    requires Writer.Writable(v)
  {
    var lines := Entries.Lines(v, cname, cversion) + ["."];
    && RoundTrip.OffsetsSet(v) && Clean(AnswerLine(210, msg)) && |AnswerLine(210, msg)| <= size - 2
    && AllClean(lines) && AllShort(lines, size - 2)
  }

  lemma RecordArrives(e: DiscData, v: DiscData, msg: string, cname: string, cversion: string, later: string, size: nat)
    requires Writer.Writable(v) && e.tracks == [] && size >= 2 && Sendable(v, msg, cname, cversion, size)
    ensures var a := AnswerOf(RecordSent(v, msg, cname, cversion) + later, size);
      && a.code == 210
      && ParseStream(e, a.rest, size) ==
           Parsed(true, RoundTrip.Restored(e, v), later, Save(Entries.Lines(v, cname, cversion) + ["."]))
  {
    hide AnswerOf, AnswerLine, Save, ParseStream, Entries.Lines, AllClean, AllShort, Clean, RoundTrip.Restored,
         RoundTrip.OffsetsSet;
    var s := Save(Entries.Lines(v, cname, cversion) + ["."]);
    var l := AnswerLine(210, msg);
    assert RecordSent(v, msg, cname, cversion) + later == l + ("\n" + (s + later));
    AnswerRead(210, msg, s + later, size);
    Endings.RecordOnStream(e, v, cname, cversion, ".", later, size);
  }

  /** Two records are read one after the other: each disc is the one that was sent for it, each request names its
      disc, and what the server sends after them is still to be read. */
  method ReadBoth(c: Conn, d: Disc, e: Disc, ghost v: DiscData, ghost w: DiscData, ghost msg: string,
                  ghost name: string, ghost version: string, ghost later: string) returns (first: bool, second: bool)
    requires c.Valid() && c.useCache == CacheOff && c.online
    requires d.Valid() && e.Valid() && d != e && d.nodes !! e.nodes && d.contents == [] && e.contents == []
    requires d.category != CAT_INVALID && d.discid != 0 && e.category != CAT_INVALID && e.discid != 0
    requires Writer.Writable(v) && Sendable(v, msg, name, version, c.bufSize)
    requires Writer.Writable(w) && Sendable(w, msg, name, version, c.bufSize)
    requires c.net == RecordSent(v, msg, name, version) + (RecordSent(w, msg, name, version) + later)
    modifies c`cacheRead, c`cacheFp, c`files, c`unread, c`net, c`sent, d, d.nodes, e, e.nodes
    ensures first && d.Value() == RoundTrip.Restored(old(d.Value()), v)
    ensures second && e.Value() == RoundTrip.Restored(old(e.Value()), w)
    ensures c.net == later && c.files == old(c.files) && |c.sent| == |old(c.sent)| + 2
    ensures var n := |old(c.sent)|;
      && RequestOf(c.sent[n]) == Some(Read(CategoryName(old(d.category)), old(d.discid)))
      && RequestOf(c.sent[n + 1]) == Some(Read(CategoryName(old(e.category)), old(e.discid)))
  {
    hide AnswerOf, FileName, Conn.Valid, Disc.Linked, ParseStream, ReadCommand, RecordSent, Sendable, RequestOf,
         Conn.Hit, Conn.Seen, RoundTrip.Restored, Writer.Writable;
    ReadReadsBack(d.category, d.discid);
    ReadReadsBack(e.category, e.discid);
    RecordArrives(d.Value(), v, msg, name, version, RecordSent(w, msg, name, version) + later, c.bufSize);
    RecordArrives(e.Value(), w, msg, name, version, later, c.bufSize);
    c.NothingSeen(d);
    first := c.Read(d);
    c.NothingSeen(e);
    second := c.Read(e);
  }

  // --- reading a record twice

  /** The lines of the record that the server is going to send for the disc. */
  function RecordLines(v: DiscData, s: string, size: nat): seq<string>
    requires size >= 2
  {
    var lines := LinesOf(s, size);
    lines[..Used(Machine(INITIAL, v), lines)]
  }

  /** The lines of the record that follow the response all leave room for their newline. */
  predicate AnswerShort(v: DiscData, net: string, size: nat)
    requires size >= 2
  {
    AllShort(RecordLines(v, AnswerOf(net, size).rest, size), size - 2)
  }

  lemma StreamReplays(v: DiscData, s: string, size: nat)
    requires size >= 2 && ParseStream(v, s, size).ok && AllShort(RecordLines(v, s, size), size - 2)
    ensures var p := ParseStream(v, s, size);
      ParseStream(v, p.saved, size).ok && ParseStream(v, p.saved, size).disc == p.disc
  {
    hide LinesOf, Run, Used, Save;
    CacheReplay(v, v, s, size);
  }

  /** A record that is not cached is read from the server; with caching on, reading it again into an equal disc
      gives the same disc without the server. */
  method ReadTwice(c: Conn, d: Disc, e: Disc) returns (first: bool, second: bool)
    requires c.Valid() && d.Valid() && e.Valid() && d != e && d.nodes !! e.nodes && d.Value() == e.Value()
    requires c.useCache == CacheOn && !c.Exists(d) && d.discid != 0 && d.category != CAT_INVALID
    modifies c`cacheRead, c`cacheFp, c`files, c`unread, c`net, c`sent, d, d.nodes, e, e.nodes
    ensures c.Valid() && d.Valid() && e.Valid()
    ensures first && AnswerShort(old(d.Value()), old(c.net), c.bufSize) ==>
      second && e.Value() == d.Value() && c.sent == old(c.sent) + [ReadCommand(old(d.category), old(d.discid))]
  {
    hide AnswerOf, FileName, Conn.Valid, Disc.Linked, ParseStream, ReadCommand, RecordLines, AllShort, Conn.Hit,
         Conn.Seen;
    c.NothingSeen(d);
    ghost var v, a := d.Value(), AnswerOf(c.net, c.bufSize);
    first := c.Read(d);
    if AllShort(RecordLines(v, a.rest, c.bufSize), c.bufSize - 2) && first {
      StreamReplays(v, a.rest, c.bufSize);
      c.FileSeen(e, ParseStream(v, a.rest, c.bufSize).saved);
    }
    assert forall t :: t in e.spine ==> t in old(e.nodes);
    second := c.Read(e);
    assert d.Valid();
  }
}
