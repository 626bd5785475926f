/** The connection: reading lines, the local cache, and the read, query and write commands over the
    CDDB protocol (lib/cddb_cmd.c). */
module Client {
  import opened Text
  import opened Records
  import opened Patterns
  import opened Discs
  import opened Streams
  import opened Parser
  import opened RecordReader
  import opened Cache
  import opened QueryCache
  import opened Protocol
  import ResultList
  import Writer
  import Entries
  import DiscId

  const WRITE_BUF_SIZE := 4096
  const DEFAULT_USER := "anonymous"
  const DEFAULT_HOST := "localhost"

  /** The smallest buffer that a line can be read into. */
  type BufSize = n: nat | n >= 2 witness 2

  lemma RestNone(s: string, size: nat)
    requires size >= 2
    ensures Rest(s, size, 0) == s
  {
  }

  lemma MergeAllOne(v: DiscData, vals: seq<DiscData>, k: nat)
    requires k < |vals|
    ensures MergeAll(v, vals[..k + 1]) == Merge(MergeAll(v, vals[..k]), vals[k])
    ensures vals[..0] == []
  {
    hide Merge;
    assert vals[..k + 1][..k] == vals[..k];
  }

  /** A track has what an entry needs. */
  predicate TrackReady(t: TrackData) { t.frameOffset != -1 && t.title.Some? }

  lemma RunLine(m: Machine, lines: seq<string>, k: nat)
    requires k < |lines|
    ensures var r := Run(m, lines[k..]); var u := Used(m, lines[k..]);
      match Step(m, ScanLine(lines[k]))
      case Fail(d) => !r.ok && r.disc == d && u == 1
      case Go(m') =>
        if m'.at.state == Stop then r.ok && r.disc == m'.disc && u == 1
        else r == Run(m', lines[k + 1..]) && u == 1 + Used(m', lines[k + 1..])
  {
    hide Step, ScanLine;
    assert lines[k..][0] == lines[k] && lines[k..][1..] == lines[k + 1..];
  }

  class Conn {
    const bufSize: BufSize
    const cacheDir: string
    const user: string
    const hostname: string
    const cname: string
    const cversion: string

    var useCache: CacheMode
    var cacheRead: bool
    /** The regular files below the cache directory. */
    var files: map<string, string>
    /** The cache file that is open, and what is left to read of it. */
    var cacheFp: Str
    var unread: string
    /** Whether the server can be reached, what it is going to send, and what was sent to it. */
    var online: bool
    var net: string
    var sent: seq<string>
    /** The memory cache for queries, and whether it was initialized. */
    const table: array<Entry>
    var tableReady: bool
    /** The results of the last query. */
    const queryData: ResultList.List<Disc>

    /** The memory cache as a value. */
    ghost function Memory(): Table
      reads this`tableReady, table
    {
      Table(table[..], tableReady)
    }

    ghost predicate Valid()
      reads this`cacheRead, this`files, this`tableReady, table
    {
      !cacheRead && Right(Memory(), cacheDir, files)
    }

    /** The table starts out as zeros. */
    constructor (bufSize: BufSize, useCache: CacheMode, cacheDir: string, files: map<string, string>, net: string,
                 online: bool, user: string, hostname: string, cname: string, cversion: string)
      ensures Valid() && Memory() == ZEROS && this.bufSize == bufSize && this.useCache == useCache
      ensures this.cacheDir == cacheDir && this.files == files && this.net == net && this.online == online
      ensures this.user == user && this.hostname == hostname && this.cname == cname
      ensures this.cversion == cversion && sent == []
      ensures fresh(table) && fresh(queryData) && queryData.Valid() && queryData.Data() == []
      ensures queryData.it == null && queryData.nodes == {}
    {
      this.bufSize, this.useCache, this.cacheDir, this.files := bufSize, useCache, cacheDir, files;
      this.net, this.online, this.user, this.hostname := net, online, user, hostname;
      this.cname, this.cversion := cname, cversion;
      cacheRead, cacheFp, unread, sent, tableReady := false, None, "", [], false;
      table := new Entry[QUERY_CACHE_SIZE](_ => Entry(0, CAT_DATA));
      queryData := new ResultList.List<Disc>();
      new;
      assert Memory().slots == ZEROS.slots;
      ZerosRight(cacheDir, files);
    }

    // --- reading lines

    /** The stream that lines are read from. */
    ghost function Stream(): string
      reads this`cacheRead, this`unread, this`net
    {
      if cacheRead then unread else net
    }

    /** cddb_read_line */
    method ReadLine() returns (line: Str)
      modifies this`unread, this`net
      ensures match NextLine(old(Stream()), bufSize)
        case None => line == None && Stream() == old(Stream())
        case Some((l, rest)) => line == Some(l) && Stream() == rest
      ensures if cacheRead then net == old(net) else unread == old(unread)
    {
      var s := if cacheRead then unread else net;
      var n := Taken(s, bufSize - 1);
      if n == 0 { return None; }
      var l := CString(s[..n]);
      if cacheRead { unread := s[n..]; } else { net := s[n..]; }
      ghost var whole := l;
      while l != "" && IsEol(l[|l| - 1])
        invariant StripEol(l) == StripEol(whole)
        decreases |l|
      {
        l := l[..|l| - 1];
      }
      line := Some(l);
    }

    /** The reader has just taken line k of the lines that there are, or met their end. */
    ghost predicate Reading(s0: string, lines: seq<string>, k: nat, line: Str)
      reads this`cacheRead, this`unread, this`net
    {
      && lines == LinesOf(s0, bufSize) && k <= |lines|
      && line == (if k < |lines| then Some(lines[k]) else None)
      && Stream() == Rest(s0, bufSize, if k < |lines| then k + 1 else k)
    }

    /** Reads line k. */
    method ReadAt(ghost s0: string, ghost k: nat) returns (line: Str)
      requires k <= |LinesOf(s0, bufSize)| && Stream() == Rest(s0, bufSize, k)
      modifies this`unread, this`net
      ensures Reading(s0, LinesOf(s0, bufSize), k, line)
      ensures if cacheRead then net == old(net) else unread == old(unread)
    {
      hide NextLine, LinesOf, Rest;
      LineAt(s0, bufSize, k);
      line := ReadLine();
    }

    // --- cache files

    /** The entry of the disc is cached. */
    ghost predicate Exists(d: Disc)
      reads this`files, d`category, d`discid
    {
      FileName(cacheDir, d.category, d.discid) in files
    }

    /** cddb_cache_exists */
    method CacheExists(d: Disc) returns (b: bool)
      ensures b <==> Exists(d)
    {
      var fn := CacheFileName(cacheDir, d.category, d.discid);
      b := fn in files;
    }

    /** cddb_cache_close */
    method CacheClose()
      modifies this`cacheFp
      ensures cacheFp == None
    {
      if cacheFp != None {
        cacheFp := None;
      }
    }

    /** cddb_cache_open for reading. */
    method CacheOpenRead(d: Disc)
      requires Exists(d)
      modifies this`cacheFp, this`unread
      ensures unread == files[FileName(cacheDir, d.category, d.discid)]
    {
      CacheClose();
      var fn := CacheFileName(cacheDir, d.category, d.discid);
      cacheFp := Some(fn);
      unread := files[fn];
    }

    /** cddb_cache_open for writing. */
    method CacheOpenWrite(d: Disc)
      modifies this`cacheFp, this`files
      ensures cacheFp == Some(FileName(cacheDir, d.category, d.discid))
      ensures files == old(files)[FileName(cacheDir, d.category, d.discid) := ""]
    {
      CacheClose();
      var fn := CacheFileName(cacheDir, d.category, d.discid);
      cacheFp := Some(fn);
      files := files[fn := ""];
    }

    /** `fprintf` or `fwrite` to the open cache file. */
    method CacheAppend(text: string)
      requires cacheFp.Some? && cacheFp.value in files
      modifies this`files
      ensures files == old(files)[cacheFp.value := old(files)[cacheFp.value] + text]
    {
      files := files[cacheFp.value := files[cacheFp.value] + text];
    }

    // --- cddb_parse_record

    /** The files after the given lines were saved, starting from f. */
    ghost function SavedFiles(f: map<string, string>, saving: bool, text: string): map<string, string>
      reads this`cacheFp
    {
      if saving && cacheFp.Some? then f[cacheFp.value := text] else f
    }

    /** The loop has taken k lines, and what remains to be done is the rest of the run that it began. */
    ghost predicate Underway(m0: Machine, lines: seq<string>, k: nat, at: Control, d: Disc)
      reads d
    {
      && k <= |lines|
      && Run(Machine(at, d.Value()), lines[k..]) == Run(m0, lines)
      && Used(Machine(at, d.Value()), lines[k..]) + k == Used(m0, lines)
    }

    /** The loop has come to its end, having taken `used` lines. */
    ghost predicate Ended(m0: Machine, lines: seq<string>, used: nat, ok: bool, d: Disc)
      reads d
    {
      Run(m0, lines).ok == ok && Run(m0, lines).disc == d.Value() && Used(m0, lines) == used <= |lines|
    }

    /** One round of the loop: line k is saved and given to the switch. */
    method TakeLine(d: Disc, saving: bool, at: Control, line: string, ghost f: map<string, string>,
                    ghost m0: Machine, ghost lines: seq<string>, ghost k: nat) returns (at': Control, ok: bool)
      requires d.Valid() && k < |lines| && line == lines[k] && Underway(m0, lines, k, at, d)
      requires saving ==> cacheFp.Some?
      requires files == SavedFiles(f, saving, Save(lines[..k]))
      modifies this`files, d`title, d`artist, d`year, d`genre,
               d`extData, d`revision, d`length, d`tracks, d`trackCnt, d`spine, d`nodes, d`contents, d.nodes
      ensures d.Valid() && old(d.spine) <= d.spine && fresh(d.nodes - old(d.nodes)) && old(d.nodes) <= d.nodes
      ensures files == SavedFiles(f, saving, Save(lines[..k + 1]))
      ensures if !ok || at'.state == Stop then Ended(m0, lines, k + 1, ok, d)
              else Underway(m0, lines, k + 1, at', d)
    {
      hide Step, ScanLine, Save;
      SaveMore(lines, k);
      assert Save(lines[..k + 1]) == Save(lines[..k]) + (line + "\n");
      RunLine(Machine(at, d.Value()), lines, k);
      if saving {
        CacheAppend(line + "\n");
      }
      at', ok := Switch(d, at, ScanLine(line));
    }

    lemma UnderwayFirst(d: Disc, lines: seq<string>, s0: string)
      ensures Underway(Machine(INITIAL, d.Value()), lines, 0, INITIAL, d)
      ensures Save(lines[..0]) == "" && Rest(s0, bufSize, 0) == s0
    {
      assert lines[0..] == lines && lines[..0] == [];
    }

    lemma UnderwayEnds(m0: Machine, lines: seq<string>, at: Control, d: Disc)
      requires Underway(m0, lines, |lines|, at, d)
      ensures Ended(m0, lines, |lines|, true, d)
    {
      assert lines[|lines|..] == [];
    }

    lemma EndedIsParsed(s0: string, m0: Machine, used: nat, ok: bool, d: Disc)
      requires Ended(m0, LinesOf(s0, bufSize), used, ok, d) && m0.at == INITIAL
      ensures var p := ParseStream(m0.disc, s0, bufSize);
        && ok == p.ok && d.Value() == p.disc && Rest(s0, bufSize, used) == p.rest
        && Save(LinesOf(s0, bufSize)[..used]) == p.saved
    {
      hide Run, Used, LinesOf, Rest, Save;
    }

    /** The reading loop of cddb_parse_record. */
    method ParseLoop(d: Disc, saving: bool) returns (ok: bool, at: Control)
      requires d.Valid()
      requires saving ==> cacheFp.Some? && cacheFp.value in files && files[cacheFp.value] == ""
      modifies this`files, this`unread, this`net, d`title, d`artist, d`year, d`genre,
               d`extData, d`revision, d`length, d`tracks, d`trackCnt, d`spine, d`nodes, d`contents, d.nodes
      ensures d.Valid() && old(d.spine) <= d.spine && fresh(d.nodes - old(d.nodes))
      ensures var p := ParseStream(old(d.Value()), old(Stream()), bufSize);
        && ok == p.ok && d.Value() == p.disc && Stream() == p.rest
        && files == SavedFiles(old(files), saving, p.saved)
      ensures if cacheRead then net == old(net) else unread == old(unread)
      ensures ok ==> at.state == Stop
    {
      hide Underway, Ended, LinesOf, Rest, Save, NextLine, ParseStream, Disc.Valid;
      ghost var s0, m0 := Stream(), Machine(INITIAL, d.Value());
      ghost var lines, k := LinesOf(s0, bufSize), 0;
      at, ok := INITIAL, true;
      UnderwayFirst(d, lines, s0);
      var line := ReadAt(s0, 0);
      while line != None
        invariant d.Valid() && old(d.spine) <= d.spine
        invariant fresh(d.nodes - old(d.nodes)) && old(d.nodes) <= d.nodes
        invariant Reading(s0, lines, k, line) && ok && Underway(m0, lines, k, at, d)
        invariant files == SavedFiles(old(files), saving, Save(lines[..k]))
        invariant if cacheRead then net == old(net) else unread == old(unread)
        decreases |lines| - k
      {
        at, ok := TakeLine(d, saving, at, line.value, old(files), m0, lines, k);
        k := k + 1;
        if !ok || at.state == Stop {
          EndedIsParsed(s0, m0, k, ok, d);
          return;
        }
        line := ReadAt(s0, k);
      }
      UnderwayEnds(m0, lines, at, d);
      EndedIsParsed(s0, m0, k, ok, d);
      at := at.(state := Stop);
    }

    /** Whether a record that is read now is to be saved. */
    ghost predicate Caches(d: Disc)
      reads this`cacheRead, this`useCache, this`files, d`category, d`discid
    {
      !cacheRead && useCache != CacheOff && !Exists(d)
    }

    /** The start of cddb_parse_record: opens the file to save to, if the record is to be saved. */
    method BeginSaving(d: Disc) returns (saving: bool)
      modifies this`cacheFp, this`files
      ensures saving == old(Caches(d))
      ensures saving ==> cacheFp == Some(FileName(cacheDir, d.category, d.discid))
      ensures files == if saving then old(files)[FileName(cacheDir, d.category, d.discid) := ""] else old(files)
    {
      var exists_ := CacheExists(d);
      saving := !cacheRead && useCache != CacheOff && !exists_;
      if saving {
        CacheOpenWrite(d);
      }
    }

    /** cddb_parse_record: the disc is changed as the record machine says, and the lines that it read
        are saved if nothing is cached for the disc yet. */
    method ParseRecord(d: Disc) returns (ok: bool)
      requires d.Valid()
      modifies this`cacheFp, this`files, this`unread, this`net, d`title, d`artist, d`year, d`genre,
               d`extData, d`revision, d`length, d`tracks, d`trackCnt, d`spine, d`nodes, d`contents, d.nodes
      ensures d.Valid() && old(d.spine) <= d.spine && fresh(d.nodes - old(d.nodes))
      ensures var p := ParseStream(old(d.Value()), old(Stream()), bufSize);
        && ok == p.ok && d.Value() == p.disc && Stream() == p.rest
        && files == (if old(Caches(d)) then old(files)[FileName(cacheDir, d.category, d.discid) := p.saved]
                     else old(files))
      ensures if cacheRead then net == old(net) else unread == old(unread)
    {
      hide ParseStream, FileName, Caches, LinesOf, Rest, NextLine, Disc.Valid;
      var cacheContent := BeginSaving(d);
      var at: Control;
      ok, at := ParseLoop(d, cacheContent);
      if ok {
        if cacheContent {
          CacheClose();
        }
        if at.state != Stop {
          // the source removes the cached entry here as invalid
          assert false;
        }
      }
    }

    // --- the cache as a database

    /** The disc after the cache was asked for its entry. */
    ghost function Seen(d: Disc): DiscData
      reads this`useCache, this`files, d
    {
      if useCache != CacheOff && Exists(d) then
        ParseStream(d.Value(), files[FileName(cacheDir, d.category, d.discid)], bufSize).disc
      else d.Value()
    }

    /** The cache answers. */
    ghost predicate Hit(d: Disc)
      reads this`useCache, this`files, d
    {
      useCache != CacheOff && Exists(d)
      && ParseStream(d.Value(), files[FileName(cacheDir, d.category, d.discid)], bufSize).ok
    }

    lemma NothingSeen(d: Disc)
      requires !Exists(d) || useCache == CacheOff
      ensures !Hit(d) && Seen(d) == d.Value()
    {
    }

    lemma FileSeen(d: Disc, file: string)
      requires useCache != CacheOff && Exists(d) && file == files[FileName(cacheDir, d.category, d.discid)]
      ensures var p := ParseStream(d.Value(), file, bufSize); Hit(d) == p.ok && Seen(d) == p.disc
    {
      hide ParseStream;
    }

    /** The part of cddb_cache_read that parses the file that was opened. */
    method ParseOpened(d: Disc) returns (ok: bool)
      requires d.Valid() && !cacheRead
      modifies this`cacheRead, this`cacheFp, this`files, this`unread, this`net, d`title, d`artist, d`year, d`genre,
               d`extData, d`revision, d`length, d`tracks, d`trackCnt, d`spine, d`nodes, d`contents, d.nodes
      ensures d.Valid() && old(d.spine) <= d.spine && fresh(d.nodes - old(d.nodes))
      ensures files == old(files) && net == old(net) && !cacheRead
      ensures var p := ParseStream(old(d.Value()), old(unread), bufSize); ok == p.ok && d.Value() == p.disc
    {
      hide ParseStream, FileName;
      cacheRead := true;
      ok := ParseRecord(d);
      cacheRead := false;
    }

    /** cddb_cache_read: succeeds exactly when the entry is cached and its record is accepted; the disc is then,
        as after a record that is given up, what parsing the file makes of it. */
    method CacheRead(d: Disc) returns (ok: bool)
      requires Valid() && d.Valid()
      modifies this`cacheRead, this`cacheFp, this`files, this`unread, this`net, d`title, d`artist, d`year, d`genre,
               d`extData, d`revision, d`length, d`tracks, d`trackCnt, d`spine, d`nodes, d`contents, d.nodes
      ensures Valid() && d.Valid() && old(d.spine) <= d.spine && fresh(d.nodes - old(d.nodes))
      ensures files == old(files) && net == old(net)
      ensures ok == old(Hit(d)) && d.Value() == old(Seen(d))
    {
      hide ParseStream, FileName, Right;
      ok := false;
      if useCache != CacheOff {
        var exists_ := CacheExists(d);
        if exists_ {
          CacheOpenRead(d);
          ok := ParseOpened(d);
          CacheClose();
        }
      }
    }

    /** cddb_cache_query_init */
    method CacheQueryInit()
      requires table.Length == QUERY_CACHE_SIZE
      modifies this`tableReady, table
      ensures Memory() == Initialized(old(Memory()))
    {
      if !tableReady {
        var i := 0;
        while i < 4
          invariant 0 <= i <= 4
          invariant forall h :: 0 <= h < table.Length ==>
            table[h] == if h < i then old(table[h]).(category := CAT_INVALID) else old(table[h])
        {
          table[i] := table[i].(category := CAT_INVALID);
          i := i + 1;
        }
        tableReady := true;
      }
    }

    /** cddb_cache_query_disc: finds the first category with an entry for the identifier, and remembers it. */
    method CacheQueryDisc(d: Disc) returns (found: bool)
      requires table.Length == QUERY_CACHE_SIZE
      modifies table, d`category
      ensures d.category == FirstCategory(files, cacheDir, d.discid, CAT_DATA) && found == (d.category < CAT_INVALID)
      ensures table[..] == if found then old(table[..])[Hash(d.discid) := Entry(d.discid, d.category)]
                           else old(table[..])
    {
      hide FileName, Hash;
      var cat: Category := CAT_DATA;
      while cat < CAT_INVALID
        invariant table[..] == old(table[..])
        invariant FirstCategory(files, cacheDir, d.discid, cat) == FirstCategory(files, cacheDir, d.discid, CAT_DATA)
      {
        d.category := cat;
        var exists_ := CacheExists(d);
        if exists_ {
          var hash := Hash(d.discid);
          table[hash] := Entry(d.discid, d.category);
          return true;
        }
        cat := cat + 1;
      }
      d.category := CAT_INVALID;
      return false;
    }

    /** cddb_cache_query: with the memory table in front of it, the search still finds an entry exactly when
        there is one, for every identifier but 0, and returns a category in which it exists. */
    method CacheQuery(d: Disc) returns (found: bool)
      requires Valid()
      modifies this`tableReady, table, d`category
      ensures Valid()
      ensures useCache == CacheOff ==> !found && d.category == old(d.category) && Memory() == old(Memory())
      ensures useCache != CacheOff ==>
        Answered(found, d.category, Memory()) == Lookup(old(Memory()), files, cacheDir, d.discid)
      ensures useCache != CacheOff && d.discid != 0 ==> (found <==> Cached(files, cacheDir, d.discid))
      ensures useCache != CacheOff && d.discid != 0 && found ==> d.category < CAT_INVALID && Exists(d)
      ensures useCache != CacheOff && d.discid != 0 && !found ==> d.category == CAT_INVALID
    {
      hide FileName, Hash, FirstCategory, SlotOk, Initialized;
      found := false;
      if useCache != CacheOff {
        LookupRight(Memory(), files, cacheDir, d.discid);
        LookupAgrees(Memory(), files, cacheDir, d.discid);
        FirstIsCached(files, cacheDir, d.discid);
        CacheQueryInit();
        var hash := Hash(d.discid);
        if table[hash].discid == d.discid {
          d.category := table[hash].category;
          found := true;
        } else {
          found := CacheQueryDisc(d);
        }
      }
    }

    // --- cddb_read

    /** cddb_get_response_code */
    method GetResponseCode() returns (code: int, msg: string)
      requires !cacheRead
      modifies this`net, this`unread
      ensures AnswerOf(old(net), bufSize) == Answer(code, msg, net)
    {
      hide NextLine;
      var line := ReadLine();
      code, msg := ResponseOf(line).0, ResponseOf(line).1;
    }

    /** What cddb_read does when the cache has no answer. */
    method ReadFromServer(d: Disc) returns (ok: bool)
      requires Valid() && d.Valid()
      modifies this`cacheFp, this`files, this`unread, this`net, this`sent, d`title, d`artist, d`year, d`genre,
               d`extData, d`revision, d`length, d`tracks, d`trackCnt, d`spine, d`nodes, d`contents, d.nodes
      ensures Valid() && d.Valid() && old(d.spine) <= d.spine && fresh(d.nodes - old(d.nodes))
      ensures sent == old(sent) + (if online then [ReadCommand(d.category, d.discid)] else [])
      ensures var a := AnswerOf(old(net), bufSize);
        if online && a.code == 210 then
          var p := ParseStream(old(d.Value()), a.rest, bufSize);
          && ok == p.ok && d.Value() == p.disc && net == p.rest
          && files == (if old(Caches(d)) then old(files)[FileName(cacheDir, d.category, d.discid) := p.saved]
                       else old(files))
        else
          && !ok && d.Value() == old(d.Value()) && files == old(files)
          && net == if online then a.rest else old(net)
    {
      hide ParseStream, FileName, Right, AnswerOf, Caches, ReadCommand;
      ok := false;
      if online {
        sent := sent + [ReadCommand(d.category, d.discid)];
        var code, msg := GetResponseCode();
        if code == 210 {
          ok := ParseRecord(d);
          RightKept(Memory(), cacheDir, old(files), files);
        }
      }
    }

    /** cddb_read: the cache answers if it can; the server is asked only if it cannot and the mode allows it,
        and what it answers is then cached unless an entry exists. */
    method Read(d: Disc) returns (ok: bool)
      requires Valid() && d.Valid()
      modifies this`cacheRead, this`cacheFp, this`files, this`unread, this`net, this`sent, d`title, d`artist, d`year,
               d`genre, d`extData, d`revision, d`length, d`tracks, d`trackCnt, d`spine, d`nodes, d`contents, d.nodes
      ensures Valid() && d.Valid() && old(d.spine) <= d.spine && fresh(d.nodes - old(d.nodes))
      ensures d.category == CAT_INVALID || d.discid == 0 ==>
        !ok && d.Value() == old(d.Value()) && files == old(files) && net == old(net) && sent == old(sent)
      ensures d.category != CAT_INVALID && d.discid != 0 && (old(Hit(d)) || useCache == CacheOnly) ==>
        ok == old(Hit(d)) && d.Value() == old(Seen(d))
        && files == old(files) && net == old(net) && sent == old(sent)
      ensures d.category != CAT_INVALID && d.discid != 0 && !old(Hit(d)) && useCache != CacheOnly ==>
        var a := AnswerOf(old(net), bufSize);
        && sent == old(sent) + (if online then [ReadCommand(d.category, d.discid)] else [])
        && if online && a.code == 210 then
             var p := ParseStream(old(Seen(d)), a.rest, bufSize);
             && ok == p.ok && d.Value() == p.disc && net == p.rest
             && files == (if useCache != CacheOff && !old(Exists(d))
                          then old(files)[FileName(cacheDir, d.category, d.discid) := p.saved] else old(files))
           else
             && !ok && d.Value() == old(Seen(d)) && files == old(files)
             && net == if online then a.rest else old(net)
    {
      hide ParseStream, FileName, Right, AnswerOf, ReadCommand, Hit, Seen;
      ok := false;
      if d.category != CAT_INVALID && d.discid != 0 {
        ok := CacheRead(d);
        if !ok && useCache != CacheOnly {
          ok := ReadFromServer(d);
        }
      }
    }

    // --- cddb_query

    /** cddb_parse_query_data */
    method ParseQueryData(d: Disc, line: string) returns (ok: bool)
      modifies d`genre, d`category, d`discid, d`artist, d`title
      ensures match MatchQuery(line)
        case None => !ok && d.Value() == old(d.Value())
        case Some(q) => ok && d.Value() == Fill(old(d.Value()), q)
    {
      hide MatchQuery, CategoryOf, DiscidOf;
      match MatchQuery(line)
      case None => ok := false;
      case Some(q) =>
        d.SetCategoryStr(q.category);
        d.discid := DiscidOf(q.discid);
        match q.title {
          case Both(artist, title) =>
            d.artist := Some(artist);
            d.title := Some(title);
          case Only(title) =>
            d.title := Some(title);
        }
        ok := true;
    }

    /** One round of the loop over a list of matches: a clone of the disc with line k filled in is appended. */
    method AddMatch(d: Disc, line: string) returns (ok: bool, ghost r: Disc)
      requires d.Valid() && queryData.Valid()
      modifies queryData`cnt, queryData`first, queryData`last, queryData`spine, queryData`nodes, queryData.nodes
      ensures queryData.Valid() && fresh(queryData.nodes - old(queryData.nodes))
      ensures match MatchQuery(line)
        case None => !ok && queryData.Data() == old(queryData.Data())
        case Some(q) => ok && queryData.Data() == old(queryData.Data()) + [r] && r.Value() == Fill(d.Value(), q)
                        && fresh(r) && r.Valid() && fresh(r.nodes)
    {
      hide MatchQuery, Fill, Disc.Valid, ResultList.List.Valid;
      var aux := d.Clone();
      ok := ParseQueryData(aux, line);
      if ok {
        var _ := queryData.Append(aux);
      }
      r := aux;
    }

    /** The first k lines are matches, and the results hold them, each filled into a clone of the disc. */
    ghost predicate Collected(v: DiscData, os: seq<Option<Match>>, k: nat, rs: seq<Disc>, d: Disc)
      reads d`nodes, rs, set i, j | 0 <= i < |rs| && 0 <= j < |rs[i].spine| :: rs[i].spine[j]
    {
      k <= |os| && (forall i :: 0 <= i < k ==> os[i].Some?) && Holds(rs, Fills(v, Values(os, k)), d)
    }

    lemma CollectedNone(v: DiscData, os: seq<Option<Match>>, d: Disc)
      ensures Collected(v, os, 0, [], d)
    {
    }

    lemma CollectedOne(v: DiscData, os: seq<Option<Match>>, k: nat, rs: seq<Disc>, d: Disc, r: Disc)
      requires Collected(v, os, k, rs, d) && k < |os| && os[k].Some?
      requires r.Value() == Fill(v, os[k].value)
      requires r != d && r.Valid() && r.nodes !! d.nodes
      ensures Collected(v, os, k + 1, rs + [r], d)
    {
      hide Fill, Disc.Valid;
      assert Fills(v, Values(os, k + 1)) == Fills(v, Values(os, k)) + [Fill(v, os[k].value)];
    }

    /** The reader has taken line k, which is no match, or met the end. */
    ghost predicate StopsAt(lines: seq<string>, k: nat, line: Str)
    {
      if k < |lines| then line == Some(lines[k]) && MatchOf(lines[k]).None? else line == None && k == |lines|
    }

    lemma CollectedAll(v: DiscData, lines: seq<string>, k: nat, line: Str, rs: seq<Disc>, d: Disc)
      requires Collected(v, MatchesOf(lines), k, rs, d) && StopsAt(lines, k, line)
      ensures Holds(rs, Fills(v, Matches(lines)), d)
      ensures Complete(lines) <==> line == None || StartsWithDot(line.value)
    {
      hide MatchOf, Fill, Disc.Valid;
      LeadingUnique(MatchesOf(lines), k);
    }

    /** One round of the loop, for line k. */
    method CollectLine(d: Disc, line: string, ghost v: DiscData, ghost lines: seq<string>, ghost k: nat)
        returns (ok: bool)
      requires d.Valid() && queryData.Valid() && v == d.Value()
      requires k < |lines| && line == lines[k] && Collected(v, MatchesOf(lines), k, queryData.Data(), d)
      modifies queryData`cnt, queryData`first, queryData`last, queryData`spine, queryData`nodes, queryData.nodes
      ensures queryData.Valid() && fresh(queryData.nodes - old(queryData.nodes))
      ensures ok == MatchOf(line).Some?
      ensures Collected(v, MatchesOf(lines), if ok then k + 1 else k, queryData.Data(), d)
    {
      hide Collected, MatchQuery, Fill, Disc.Valid, ResultList.List.Valid;
      ghost var rs := queryData.Data();
      ghost var r;
      ok, r := AddMatch(d, line);
      if ok {
        CollectedOne(v, MatchesOf(lines), k, rs, d, r);
      }
    }

    lemma ReadingLine(s0: string, lines: seq<string>, k: nat, line: string)
      requires Reading(s0, lines, k, Some(line))
      ensures lines == LinesOf(s0, bufSize) && k < |lines| && line == lines[k] && Stream() == Rest(s0, bufSize, k + 1)
    {
    }

    /** A line is collected, and the next one read if that went well. */
    method CollectNext(d: Disc, line: string, ghost v: DiscData, ghost s0: string, ghost lines: seq<string>,
                       ghost k: nat) returns (ok: bool, line': Str)
      requires !cacheRead && d.Valid() && queryData.Valid() && v == d.Value() && Reading(s0, lines, k, Some(line))
      requires Collected(v, MatchesOf(lines), k, queryData.Data(), d)
      modifies this`net, this`unread, queryData`cnt, queryData`first, queryData`last, queryData`spine,
               queryData`nodes, queryData.nodes
      ensures queryData.Valid() && fresh(queryData.nodes - old(queryData.nodes))
      ensures k < |lines| && line == lines[k] && ok == MatchOf(line).Some?
      ensures if ok then Reading(s0, lines, k + 1, line') else line' == Some(line) && Reading(s0, lines, k, line')
      ensures Collected(v, MatchesOf(lines), if ok then k + 1 else k, queryData.Data(), d)
    {
      hide Collected, MatchOf, MatchesOf, Values, MatchQuery, Fills, Fill, Holds, LinesOf, Rest, NextLine, Reading,
           Stream, Disc.Value, Disc.Valid, ResultList.List.Valid;
      ReadingLine(s0, lines, k, line);
      line' := Some(line);
      ok := CollectLine(d, line, v, lines, k);
      if ok {
        line' := ReadAt(s0, k + 1);
      }
    }

    lemma StopsHere(lines: seq<string>, k: nat)
      requires k < |lines| && MatchOf(lines[k]).None?
      ensures StopsAt(lines, k, Some(lines[k]))
    {
    }

    lemma ReadingStops(s0: string, lines: seq<string>, k: nat, line: Str)
      requires Reading(s0, lines, k, line) && (line == None || StartsWithDot(line.value))
      ensures StopsAt(lines, k, line)
    {
      hide MatchQuery;
    }

    /** The loop has collected the first k lines and goes on with a line, or has met one that is no match. */
    ghost predicate Collecting(s0: string, v: DiscData, lines: seq<string>, k: nat, line: Str, ok: bool, d: Disc)
      reads this`cacheRead, this`unread, this`net, queryData`spine, d`nodes, queryData.Data(),
            set i, j | 0 <= i < |queryData.Data()| && 0 <= j < |queryData.Data()[i].spine| ::
              queryData.Data()[i].spine[j]
    {
      && k <= |lines| && Collected(v, MatchesOf(lines), k, queryData.Data(), d)
      && Reading(s0, lines, k, line)
      && (!ok ==> StopsAt(lines, k, line) && line != None && !StartsWithDot(line.value))
    }

    /** One round of the loop. */
    method CollectRound(d: Disc, line: string, ghost v: DiscData, ghost s0: string, ghost lines: seq<string>,
                        ghost k: nat) returns (ok: bool, line': Str)
      requires !cacheRead && d.Valid() && queryData.Valid() && v == d.Value() && !StartsWithDot(line)
      requires Collecting(s0, v, lines, k, Some(line), true, d)
      modifies this`net, this`unread, queryData`cnt, queryData`first, queryData`last, queryData`spine,
               queryData`nodes, queryData.nodes
      ensures queryData.Valid() && fresh(queryData.nodes - old(queryData.nodes)) && k < |lines|
      ensures Collecting(s0, v, lines, if ok then k + 1 else k, line', ok, d)
    {
      hide Collected, Reading, StopsAt, MatchOf, MatchesOf, StartsWithDot, Disc.Valid, ResultList.List.Valid;
      ok, line' := CollectNext(d, line, v, s0, lines, k);
      if !ok { StopsHere(lines, k); }
    }

    /** Where the stream stands when the list was read. */
    lemma ReadingAfter(s0: string, v: DiscData, lines: seq<string>, k: nat, line: Str, d: Disc)
      requires Reading(s0, lines, k, line) && StopsAt(lines, k, line)
      requires Collected(v, MatchesOf(lines), k, queryData.Data(), d)
      ensures Stream() == AfterList(s0, bufSize)
    {
      hide MatchQuery, NextLine, Stream, Holds;
      LeadingUnique(MatchesOf(lines), k);
      RestAtEnd(s0, bufSize);
    }

    lemma CollectingEnds(s0: string, v: DiscData, lines: seq<string>, k: nat, line: Str, ok: bool, d: Disc)
      requires Collecting(s0, v, lines, k, line, ok, d)
      requires !ok || line == None || StartsWithDot(line.value)
      ensures (ok <==> Complete(lines)) && Holds(queryData.Data(), Fills(v, Matches(lines)), d)
      ensures Stream() == AfterList(s0, bufSize)
    {
      hide Collected, Reading, StopsAt, MatchOf, Complete, Fills, Holds, AfterList, Stream;
      if ok { ReadingStops(s0, lines, k, line); }
      CollectedAll(v, lines, k, line, queryData.Data(), d);
      ReadingAfter(s0, v, lines, k, line, d);
    }

    /** The loop that collects the matches of a list. */
    method ReadMatches(d: Disc) returns (ok: bool)
      requires !cacheRead && d.Valid() && queryData.Valid() && queryData.Data() == []
      modifies this`net, this`unread, queryData`cnt, queryData`first, queryData`last, queryData`spine,
               queryData`nodes, queryData.nodes
      ensures queryData.Valid() && fresh(queryData.nodes - old(queryData.nodes))
      ensures var lines := LinesOf(old(net), bufSize);
        (ok <==> Complete(lines)) && Holds(queryData.Data(), Fills(d.Value(), Matches(lines)), d)
      ensures net == AfterList(old(net), bufSize)
    {
      hide Collected, Reading, AfterList, MatchesOf, Matches, Complete, Fills, LinesOf, Rest, Holds, Disc.Valid,
           ResultList.List.Valid;
      ghost var s0, v := Stream(), d.Value();
      ghost var lines, k := LinesOf(s0, bufSize), 0;
      RestNone(s0, bufSize);
      CollectedNone(v, MatchesOf(lines), d);
      var line := ReadAt(s0, 0);
      ok := true;
      assert Collecting(s0, v, lines, k, line, ok, d);
      hide Collecting, StartsWithDot;
      while ok && line != None && !StartsWithDot(line.value)
        invariant queryData.Valid() && fresh(queryData.nodes - old(queryData.nodes)) && k <= |lines|
        invariant Collecting(s0, v, lines, k, line, ok, d)
        decreases |lines| - k, ok
      {
        ok, line := CollectRound(d, line.value, v, s0, lines, k);
        if ok { k := k + 1; }
      }
      CollectingEnds(s0, v, lines, k, line, ok, d);
    }

    /** A list that is accepted: it is not empty, and every line of it is a match. */
    predicate GoodList(lines: seq<string>)
    {
      Complete(lines) && MatchEnd(lines) > 0
    }

    /** What a list leaves. The results are the matches that it begins with; if it is accepted, the caller has the
        first of them. */
    ghost predicate Listed(lines: seq<string>, v: DiscData, d: Disc, count: int)
      reads d, queryData`spine, queryData.Data(),
            set i, j | 0 <= i < |queryData.Data()| && 0 <= j < |queryData.Data()[i].spine| ::
              queryData.Data()[i].spine[j]
    {
      var vals := Fills(v, Matches(lines));
      && Holds(queryData.Data(), vals, d)
      && if GoodList(lines) then count == MatchEnd(lines) && d.Value() == Merge(v, vals[0])
         else count == -1 && d.Value() == v
    }

    /** The part of cddb_handle_response_list that handles a list of matches. */
    method HandleList(d: Disc) returns (count: int)
      requires !cacheRead && d.Valid() && queryData.Valid() && queryData.Data() == []
      modifies this`net, this`unread, queryData`cnt, queryData`first, queryData`last, queryData`spine,
               queryData`nodes, queryData`it, queryData.nodes, d`discid, d`category, d`year, d`length, d`revision,
               d`genre, d`title, d`artist, d`extData, d`tracks, d`trackCnt, d`spine, d`nodes, d`contents, d.nodes
      ensures d.Valid() && queryData.Valid() && fresh(queryData.nodes - old(queryData.nodes))
      ensures old(d.spine) <= d.spine && fresh(d.nodes - old(d.nodes)) && old(d.nodes) <= d.nodes
      ensures Listed(LinesOf(old(net), bufSize), old(d.Value()), d, count) && net == AfterList(old(net), bufSize)
      ensures if GoodList(LinesOf(old(net), bufSize)) then queryData.AtFirst() else queryData.it == old(queryData.it)
    {
      hide Holds, Fills, MatchQuery, LinesOf, AfterList, Fill, Merge, Disc.Linked, ResultList.List.Linked, MergeAll,
           Complete;
      ghost var v, lines := d.Value(), LinesOf(net, bufSize);
      var ok := ReadMatches(d);
      count := -1;
      ghost var rs, vals := queryData.Data(), Fills(v, Matches(lines));
      HoldsCount(rs, vals, d);
      if ok && queryData.cnt != 0 {
        MergeFirst(queryData, d, rs, vals);
        count := queryData.cnt;
      }
    }

    /** What the response to a query leaves, for a disc that was v before. */
    ghost predicate Responded(a: Answer, v: DiscData, d: Disc, count: int)
      reads d, queryData`spine, queryData.Data(),
            set i, j | 0 <= i < |queryData.Data()| && 0 <= j < |queryData.Data()[i].spine| ::
              queryData.Data()[i].spine[j]
    {
      if a.code == 210 || a.code == 211 then Listed(LinesOf(a.rest, bufSize), v, d, count)
      else
        && queryData.Data() == []
        && if a.code == 200 then
             match MatchQuery(a.msg)
             case None => count == -1 && d.Value() == v
             case Some(q) => count == 1 && d.Value() == Fill(v, q)
           else count == (if a.code == 202 then 0 else -1) && d.Value() == v
    }

    /** The response is a list that is accepted. */
    predicate ListRead(a: Answer)
    {
      (a.code == 210 || a.code == 211) && GoodList(LinesOf(a.rest, bufSize))
    }

    /** cddb_handle_response_list */
    method HandleResponseList(d: Disc) returns (count: int)
      requires !cacheRead && d.Valid() && queryData.Valid() && queryData.Data() == []
      modifies this`net, this`unread, queryData`cnt, queryData`first, queryData`last, queryData`spine,
               queryData`nodes, queryData`it, queryData.nodes, d`discid, d`category, d`year, d`length, d`revision,
               d`genre, d`title, d`artist, d`extData, d`tracks, d`trackCnt, d`spine, d`nodes, d`contents, d.nodes
      ensures d.Valid() && queryData.Valid() && fresh(queryData.nodes - old(queryData.nodes))
      ensures old(d.spine) <= d.spine && fresh(d.nodes - old(d.nodes)) && old(d.nodes) <= d.nodes
      ensures Responded(AnswerOf(old(net), bufSize), old(d.Value()), d, count)
      ensures net == AfterAnswer(AnswerOf(old(net), bufSize), bufSize)
      ensures if ListRead(AnswerOf(old(net), bufSize)) then queryData.AtFirst() else queryData.it == old(queryData.it)
    {
      hide Listed, AnswerOf, AfterList, MatchQuery, Fill, LinesOf, Disc.Linked, ResultList.List.Linked, GoodList,
           ResultList.List.AtFirst;
      count := -1;
      var code, msg := GetResponseCode();
      if code == 200 {
        var ok := ParseQueryData(d, msg);
        if ok {
          count := 1;
        }
      } else if code == 210 || code == 211 {
        count := HandleList(d);
      } else if code == 202 {
        count := 0;
      }
    }

    /** The loop of cddb_query that lists the offsets, if all are known and the text fits the buffer. */
    method OffsetList(d: Disc) returns (text: Str)
      requires d.Valid()
      modifies d`iterator_
      ensures text == if NoneMissing(d.contents) && |OffsetText(d.contents)| < bufSize
                      then Some(OffsetText(d.contents)) else None
    {
      hide Signed;
      var buf := "";
      var track := d.GetTrackFirst();
      ghost var i := 0;
      while track != null
        invariant 0 <= i <= |d.contents|
        invariant track == d.iterator_ == if i < |d.spine| then d.spine[i] else null
        invariant buf == OffsetText(d.contents[..i]) && |buf| < bufSize && NoneMissing(d.contents[..i])
        decreases |d.contents| - i
      {
        assert d.Linked(i);
        assert d.contents[..i + 1][..i] == d.contents[..i];
        OffsetTextGrows(d.contents, i + 1);
        if track.frameOffset == -1 {
          assert d.contents[i].frameOffset == -1;
          return None;
        }
        var offset := Signed(track.frameOffset) + " ";
        if |buf| + |offset| >= bufSize {
          return None;
        }
        buf := buf + offset;
        track := d.GetTrackNext(i);
        i := i + 1;
      }
      assert d.contents[..i] == d.contents;
      text := Some(buf);
    }

    /** The query command can be sent. */
    ghost predicate CanAsk(v: DiscData)
      reads this`online
    {
      online && NoneMissing(v.tracks) && |OffsetText(v.tracks)| < bufSize
    }

    lemma CanAskSame(v: DiscData, w: DiscData)
      requires v.tracks == w.tracks
      ensures CanAsk(v) == CanAsk(w)
    {
    }

    /** What cddb_query does when the cache has no answer. */
    method QueryServer(d: Disc) returns (count: int)
      requires Valid() && d.Valid() && queryData.Valid() && queryData.Data() == []
      modifies this`net, this`unread, this`sent, queryData`cnt, queryData`first, queryData`last, queryData`spine,
               queryData`nodes, queryData`it, queryData.nodes, d`discid, d`category, d`year, d`length, d`revision,
               d`genre, d`title, d`artist, d`extData, d`tracks, d`trackCnt, d`spine, d`nodes, d`contents, d.nodes,
               d`iterator_
      ensures d.Valid() && queryData.Valid() && fresh(queryData.nodes - old(queryData.nodes))
      ensures old(d.spine) <= d.spine && fresh(d.nodes - old(d.nodes)) && old(d.nodes) <= d.nodes
      ensures if old(CanAsk(d.Value())) then
                && sent == old(sent + [QueryCommand(d.discid, d.contents, d.length)])
                && Responded(AnswerOf(old(net), bufSize), old(d.Value()), d, count)
                && net == AfterAnswer(AnswerOf(old(net), bufSize), bufSize)
              else
                && count == -1 && d.Value() == old(d.Value()) && sent == old(sent) && net == old(net)
                && queryData.Data() == []
      ensures if old(CanAsk(d.Value())) && ListRead(AnswerOf(old(net), bufSize)) then queryData.AtFirst()
              else queryData.it == old(queryData.it)
    {
      hide Responded, AnswerOf, AfterAnswer, Disc.Linked, ResultList.List.Linked, OffsetText, NoneMissing, Right,
           ListRead, ResultList.List.AtFirst;
      count := -1;
      var text := OffsetList(d);
      if text != None && online {
        sent := sent + ["cddb query " + Hex8(d.discid) + " " + Decimal(d.trackCnt) + " " + text.value + " "
                        + Decimal(d.length) + "\n"];
        count := HandleResponseList(d);
      }
    }

    /** An entry for the disc is cached and may be used. */
    ghost predicate Known(v: DiscData)
      reads this`useCache, this`files
    {
      useCache != CacheOff && Cached(files, cacheDir, v.discid)
    }

    /** The cache has no answer, and the server can be asked for one. */
    ghost predicate Asks(v: DiscData)
      reads this`useCache, this`files, this`online
    {
      !Known(v) && useCache != CacheOnly && CanAsk(v)
    }

    /** What cddb_query makes of a disc that was v, with the identifier in it, when the server was going to send
        net0 and had been sent sent0. */
    ghost predicate Queried(v: DiscData, net0: string, sent0: seq<string>, d: Disc, count: int)
      reads this, d, queryData`spine, queryData.Data(),
            set i, j | 0 <= i < |queryData.Data()| && 0 <= j < |queryData.Data()[i].spine| ::
              queryData.Data()[i].spine[j]
    {
      var w := v.(category := if useCache == CacheOff then v.category else CAT_INVALID);
      if Asks(v) then
        && sent == sent0 + [QueryCommand(v.discid, v.tracks, v.length)]
        && Responded(AnswerOf(net0, bufSize), w, d, count) && net == AfterAnswer(AnswerOf(net0, bufSize), bufSize)
      else
        && sent == sent0 && net == net0 && queryData.Data() == []
        && if Known(v) then
             count == 1 && d.Value() == v.(category := d.category) && d.category < CAT_INVALID && Exists(d)
           else if useCache == CacheOnly then count == 0 && d.Value() == w
           else count == -1 && d.Value() == w
    }

    /** The cache is asked, and then the server if the mode allows it. */
    method QueryBoth(d: Disc) returns (count: int)
      requires Valid() && d.Valid() && queryData.Valid() && queryData.Data() == [] && d.discid != 0
      modifies this`net, this`unread, this`sent, this`tableReady, table, queryData`cnt, queryData`first,
               queryData`last, queryData`spine, queryData`nodes, queryData`it, queryData.nodes,
               d`discid, d`category, d`year, d`length, d`revision, d`genre, d`title, d`artist, d`extData, d`tracks,
               d`trackCnt, d`spine, d`nodes, d`contents, d.nodes, d`iterator_
      ensures Valid() && d.Valid() && queryData.Valid() && fresh(queryData.nodes - old(queryData.nodes))
      ensures old(d.spine) <= d.spine && fresh(d.nodes - old(d.nodes)) && old(d.nodes) <= d.nodes
      ensures Queried(old(d.Value()), old(net), old(sent), d, count)
      ensures if old(Asks(d.Value())) && ListRead(AnswerOf(old(net), bufSize)) then queryData.AtFirst()
              else queryData.it == old(queryData.it)
    {
      hide Responded, AnswerOf, AfterAnswer, Disc.Valid, ResultList.List.Valid, CanAsk, Exists, Valid, QueryCommand,
           Cached, Memory, Lookup, ListRead, ResultList.List.AtFirst;
      ghost var v := d.Value();
      var found := CacheQuery(d);
      if found {
        count := 1;
      } else if useCache == CacheOnly {
        count := 0;
      } else {
        CanAskSame(v, d.Value());
        count := QueryServer(d);
      }
    }

    /** A disc with what a query needs. */
    predicate Queryable(v: DiscData)
    {
      v.discid != 0 && v.length != 0 && v.tracks != []
    }

    /** cddb_query: with the identifier worked out anew, the cache answers exactly when it holds an entry for it in any
        category; otherwise the server is asked, if the mode allows it. The iterator over the results is left on a
        freed element exactly when it was not past the end and no new list was accepted. */
    method Query(d: Disc) returns (count: int)
      requires Valid() && d.Valid() && queryData.Valid()
      modifies this`net, this`unread, this`sent, this`tableReady, table, queryData`cnt, queryData`first,
               queryData`last, queryData`spine, queryData`nodes, queryData`it, queryData`freed, queryData.nodes,
               d`discid, d`category, d`year, d`length, d`revision, d`genre, d`title, d`artist, d`extData, d`tracks,
               d`trackCnt, d`spine, d`nodes, d`contents, d.nodes, d`iterator_
      ensures Valid() && d.Valid() && queryData.Valid() && fresh(queryData.nodes - old(queryData.nodes))
      ensures old(d.spine) <= d.spine && fresh(d.nodes - old(d.nodes)) && old(d.nodes) <= d.nodes
      ensures var v := old(d.Value()).(discid := DiscId.IdOf(old(d.Value())));
        if Queryable(v) then Queried(v, old(net), old(sent), d, count)
        else count == -1 && d.Value() == v && sent == old(sent) && net == old(net) && queryData.Data() == []
      ensures DiscId.IdOf(old(d.Value())) == 0 || old(d.length) == 0 || old(d.contents) == [] ==>
        count == -1 && sent == old(sent) && net == old(net) && queryData.Data() == []
      ensures var v := old(d.Value()).(discid := DiscId.IdOf(old(d.Value())));
        var listed := Queryable(v) && old(Asks(v)) && ListRead(AnswerOf(old(net), bufSize));
        && (listed ==> queryData.AtFirst() && queryData.it != null)
        && (queryData.Dangling() <==> old(queryData.it) != null && !listed)
    {
      hide Queried, Disc.Linked, ResultList.List.Linked, DiscId.IdOf, Valid, Asks, ListRead;
      queryData.Flush();
      DiscId.CalcDiscid(d);
      count := -1;
      if d.discid != 0 && d.length != 0 && d.trackCnt != 0 {
        count := QueryBoth(d);
        queryData.AtIsSafe();
      }
    }

    // --- cddb_query_next

    /** The disc holds the first k + 1 results merged one by one into v, and the iterator stands on result k. */
    ghost predicate Stepped(v: DiscData, vals: seq<DiscData>, k: nat, d: Disc)
      reads d, queryData`spine, queryData`it, queryData.Data(),
            set i, j | 0 <= i < |queryData.Data()| && 0 <= j < |queryData.Data()[i].spine| ::
              queryData.Data()[i].spine[j]
    {
      k < |vals| && Holds(queryData.Data(), vals, d) && queryData.At(k) && d.Value() == MergeAll(v, vals[..k + 1])
    }

    lemma ListedIsStepped(lines: seq<string>, v: DiscData, d: Disc, count: int)
      requires Listed(lines, v, d, count) && count > 0 && queryData.AtFirst()
      ensures count == MatchEnd(lines) && Stepped(v, Fills(v, Matches(lines)), 0, d)
    {
      hide Holds, MatchQuery, Fill, Merge;
      MergeAllOne(v, Fills(v, Matches(lines)), 0);
      assert MergeAll(v, []) == v;
    }

    /** cddb_query_next, with the iterator on result k. */
    method QueryNext(d: Disc, ghost k: nat, ghost vals: seq<DiscData>) returns (ok: bool)
      requires d.Valid() && queryData.Valid() && Holds(queryData.Data(), vals, d) && queryData.At(k)
      modifies queryData`it, d`discid, d`category, d`year, d`length, d`revision, d`genre, d`title, d`artist, d`extData,
               d`tracks, d`trackCnt, d`spine, d`nodes, d`contents, d.nodes
      ensures d.Valid() && queryData.Valid() && Holds(queryData.Data(), vals, d)
      ensures old(d.spine) <= d.spine && fresh(d.nodes - old(d.nodes)) && old(d.nodes) <= d.nodes
      ensures ok <==> k + 1 < |vals|
      ensures if ok then d.Value() == Merge(old(d.Value()), vals[k + 1]) && queryData.At(k + 1)
              else d.Value() == old(d.Value()) && queryData.At(|vals|)
    {
      hide Holds, Merge, Disc.Linked, ResultList.List.Linked;
      ghost var rs := queryData.Data();
      HoldsCount(rs, vals, d);
      var aux := queryData.Next(k);
      ok := aux != null;
      if ok {
        d.CopyResult(aux.data, k + 1, rs, vals);
      }
    }

    /** The disc holds all results merged in order, and the iterator is past the end. */
    ghost predicate SteppedOut(v: DiscData, vals: seq<DiscData>, d: Disc)
      reads d, queryData`spine, queryData`it, queryData.Data(),
            set i, j | 0 <= i < |queryData.Data()| && 0 <= j < |queryData.Data()[i].spine| ::
              queryData.Data()[i].spine[j]
    {
      Holds(queryData.Data(), vals, d) && queryData.At(|vals|) && d.Value() == MergeAll(v, vals)
    }

    /** One call on the way through the results. */
    method QueryStep(d: Disc, ghost v: DiscData, ghost vals: seq<DiscData>, ghost k: nat) returns (ok: bool)
      requires d.Valid() && queryData.Valid() && Stepped(v, vals, k, d)
      modifies queryData`it, d`discid, d`category, d`year, d`length, d`revision, d`genre, d`title, d`artist, d`extData,
               d`tracks, d`trackCnt, d`spine, d`nodes, d`contents, d.nodes
      ensures d.Valid() && queryData.Valid() && k < |vals| && (ok <==> k + 1 < |vals|)
      ensures old(d.spine) <= d.spine && fresh(d.nodes - old(d.nodes)) && old(d.nodes) <= d.nodes
      ensures if ok then Stepped(v, vals, k + 1, d) else SteppedOut(v, vals, d)
    {
      hide Holds, Merge, Disc.Linked, ResultList.List.Valid, ResultList.List.At, MergeAll;
      MergeAllOne(v, vals, if k + 1 < |vals| then k + 1 else k);
      assert vals[..|vals|] == vals;
      ok := QueryNext(d, k, vals);
    }

    /** A caller who has the first of n results and calls cddb_query_next until it fails has called it n - 1 times
        with success and holds all results merged in order; further calls keep failing and change nothing. */
    method NextAll(d: Disc, ghost v: DiscData, ghost vals: seq<DiscData>) returns (steps: nat)
      requires d.Valid() && queryData.Valid() && Stepped(v, vals, 0, d)
      modifies queryData`it, d`discid, d`category, d`year, d`length, d`revision, d`genre, d`title, d`artist, d`extData,
               d`tracks, d`trackCnt, d`spine, d`nodes, d`contents, d.nodes
      ensures d.Valid() && queryData.Valid() && fresh(d.nodes - old(d.nodes))
      ensures steps == |vals| - 1 && SteppedOut(v, vals, d)
    {
      hide Disc.Valid, ResultList.List.Valid, Stepped, SteppedOut;
      steps := 0;
      var ok := true;
      while ok
        invariant d.Valid() && queryData.Valid()
        invariant fresh(d.nodes - old(d.nodes)) && old(d.nodes) <= d.nodes
        invariant if ok then Stepped(v, vals, steps, d) else steps == |vals| - 1 && SteppedOut(v, vals, d)
        invariant steps <= |vals|
        decreases |vals| - steps, ok
      {
        ok := QueryStep(d, v, vals, steps);
        if ok { steps := steps + 1; }
      }
    }

    /** Once past the end, the iterator stays there. */
    method NextFails(d: Disc, ghost v: DiscData, ghost vals: seq<DiscData>) returns (ok: bool)
      requires d.Valid() && queryData.Valid() && SteppedOut(v, vals, d)
      modifies queryData`it, d`discid, d`category, d`year, d`length, d`revision, d`genre, d`title, d`artist, d`extData,
               d`tracks, d`trackCnt, d`spine, d`nodes, d`contents, d.nodes
      ensures !ok && d.Valid() && queryData.Valid() && SteppedOut(v, vals, d)
    {
      hide Holds, Merge, Disc.Linked, ResultList.List.Valid, ResultList.List.At, MergeAll;
      ok := QueryNext(d, |vals|, vals);
    }

    // --- cddb_write

    /** The check of the tracks in cddb_write. */
    method TracksReady(d: Disc) returns (ok: bool)
      requires d.Valid()
      modifies d`iterator_
      ensures ok <==> forall i :: 0 <= i < |d.contents| ==> TrackReady(d.contents[i])
    {
      var track := d.GetTrackFirst();
      ghost var i := 0;
      while track != null
        invariant 0 <= i <= |d.contents|
        invariant track == d.iterator_ == if i < |d.spine| then d.spine[i] else null
        invariant forall j :: 0 <= j < i ==> TrackReady(d.contents[j])
        decreases |d.contents| - i
      {
        assert d.Linked(i);
        if track.frameOffset == -1 || track.title == None {
          assert !TrackReady(d.contents[i]);
          return false;
        }
        track := d.GetTrackNext(i);
        i := i + 1;
      }
      ok := true;
    }

    /** The entry of the disc, in a buffer that held `garbage` before. */
    method MakeEntry(d: Disc) returns (data: string, ghost garbage: string)
      requires d.Valid() && Writer.Writable(d.Value())
      requires Writer.Total(Writer.Pieces(d.Value(), cname, cversion)) <= WRITE_BUF_SIZE
      modifies d`iterator_
      ensures |garbage| == WRITE_BUF_SIZE && data == Entries.FileOf(d.Value(), cname, cversion, garbage)
    {
      hide Disc.Valid, Writer.Pieces, Writer.Inside, Writer.Layout, Writer.Total, Writer.Writable;
      var buf := new char[WRITE_BUF_SIZE];
      garbage := buf[..];
      ghost var v := d.Value();
      Writer.TotalInside(Writer.Pieces(v, cname, cversion), WRITE_BUF_SIZE);
      var size := Writer.WriteData(buf, d, cname, cversion);
      data := buf[..size];
    }

    /** The part of cddb_write that caches the entry. */
    method StoreEntry(d: Disc, data: string)
      requires Valid()
      modifies this`files, this`cacheFp
      ensures Valid() && files == old(files)[FileName(cacheDir, d.category, d.discid) := data]
    {
      hide FileName, Right;
      CacheOpenWrite(d);
      assert "" + data == data;
      CacheAppend(data);
      CacheClose();
      RightKept(Memory(), cacheDir, old(files), files);
    }

    /** The part of cddb_write that submits the entry. */
    method SendEntry(d: Disc, data: string) returns (ok: bool)
      requires Valid()
      modifies this`net, this`unread, this`sent
      ensures var a := AnswerOf(old(net), bufSize); var command := WriteCommand(d.category, d.discid);
        if !online then !ok && sent == old(sent) && net == old(net)
        else if a.code != 320 then !ok && sent == old(sent) + [command] && net == a.rest
        else
          && ok == (AnswerOf(a.rest, bufSize).code == 200) && net == AnswerOf(a.rest, bufSize).rest
          && sent == old(sent) + [command, data + ".\n"]
    {
      hide AnswerOf, WriteCommand;
      ok := false;
      if online {
        sent := sent + [WriteCommand(d.category, d.discid)];
        var code, msg := GetResponseCode();
        if code == 320 {
          sent := sent + [data + ".\n"];
          code, msg := GetResponseCode();
          ok := code == 200;
        }
      }
    }

    /** The submitter has set an e-mail address, and the disc has what an entry needs. */
    ghost predicate Submittable(v: DiscData)
    {
      && user != DEFAULT_USER && hostname != DEFAULT_HOST
      && v.discid != 0 && v.category != CAT_INVALID && v.length != 0 && v.tracks != []
      && v.artist.Some? && v.title.Some? && forall i :: 0 <= i < |v.tracks| ==> TrackReady(v.tracks[i])
    }

    /** What an entry is refused for, one by one. */
    lemma RefusedExactly(v: DiscData)
      ensures !Submittable(v) <==>
        || user == "anonymous" || hostname == "localhost" || v.discid == 0 || v.category == CAT_INVALID
        || v.length == 0 || v.tracks == [] || v.artist == None || v.title == None
        || exists i :: 0 <= i < |v.tracks| && (v.tracks[i].frameOffset == -1 || v.tracks[i].title == None)
    {
      if Submittable(v) {
        forall i | 0 <= i < |v.tracks| ensures v.tracks[i].frameOffset != -1 && v.tracks[i].title != None {
          assert TrackReady(v.tracks[i]);
        }
      }
    }

    /** The checks of cddb_write. */
    method CheckEntry(d: Disc) returns (ok: bool)
      requires d.Valid()
      modifies d`iterator_
      ensures ok <==> Submittable(d.Value())
      ensures ok ==> Writer.Writable(d.Value())
    {
      if user == DEFAULT_USER || hostname == DEFAULT_HOST { return false; }
      if d.discid == 0 || d.category == CAT_INVALID || d.length == 0 { return false; }
      if d.trackCnt == 0 || d.artist == None || d.title == None { return false; }
      ok := TracksReady(d);
    }

    /** cddb_write: the entry goes to the cache unless that is off, and to the server unless that may not be
        used. The disc is not changed. */
    method Write(d: Disc) returns (ok: bool, ghost garbage: string)
      requires Valid() && d.Valid()
      requires Submittable(d.Value()) && Writer.Writable(d.Value()) ==>
        Writer.Total(Writer.Pieces(d.Value(), cname, cversion)) <= WRITE_BUF_SIZE
      modifies this`net, this`unread, this`sent, this`files, this`cacheFp, d`iterator_
      ensures Valid() && |garbage| == WRITE_BUF_SIZE == 4096
      ensures !Submittable(d.Value()) ==> !ok && files == old(files) && sent == old(sent) && net == old(net)
      ensures Submittable(d.Value()) ==>
        Writer.Writable(d.Value()) && Writer.Total(Writer.Pieces(d.Value(), cname, cversion)) <= WRITE_BUF_SIZE
      ensures Submittable(d.Value()) ==>
        var data := Entries.FileOf(d.Value(), cname, cversion, garbage);
        && files == (if useCache == CacheOff then old(files)
                     else old(files)[FileName(cacheDir, d.category, d.discid) := data])
        && var a := AnswerOf(old(net), bufSize); var command := WriteCommand(d.category, d.discid);
           if useCache == CacheOnly then ok && sent == old(sent) && net == old(net)
           else if !online then !ok && sent == old(sent) && net == old(net)
           else if a.code != 320 then !ok && sent == old(sent) + [command] && net == a.rest
           else
             && ok == (AnswerOf(a.rest, bufSize).code == 200) && net == AnswerOf(a.rest, bufSize).rest
             && sent == old(sent) + [command, data + ".\n"]
    {
      hide AnswerOf, WriteCommand, FileName, Submittable, Valid, Disc.Valid, Writer.Pieces, Writer.Total,
           Writer.Writable, Entries.FileOf;
      ok := CheckEntry(d);
      if ok {
        var data;
        data, garbage := MakeEntry(d);
        if useCache != CacheOff {
          StoreEntry(d, data);
        }
        if useCache != CacheOnly {
          ok := SendEntry(d, data);
        }
      } else {
        garbage := Spaces(WRITE_BUF_SIZE);
      }
    }
  }
}
