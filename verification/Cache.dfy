/** Names of cached entries, and what a cached entry replays. */
module Cache {
  import opened Text
  import opened Records
  import opened Streams
  import opened Parser
  import opened Patterns
  import opened ParserRuns

  datatype CacheMode = CacheOff | CacheOn | CacheOnly

  function FileName(dir: string, category: Category, discid: Word): string
  {
    dir + "/" + CategoryName(category) + "/" + Hex8(discid)
  }

  /** cddb_cache_file_name: the buffer it reserves is large enough, so the name is never cut. */
  method CacheFileName(dir: string, category: Category, discid: Word) returns (fn: string)
    ensures fn == FileName(dir, category, discid)
  {
    var len := |dir| + |CATEGORIES[category]| + 11;
    fn := Cut(dir + "/" + CATEGORIES[category] + "/" + Hex8(discid), len + 1);
  }

  /** The directory of the cache, that of the category, and the identifier, with slashes between them. */
  lemma NameParts(dir: string, c: Category, id: Word)
    ensures var f := FileName(dir, c, id);
      && |f| == |dir| + |CategoryName(c)| + 10 && dir <= f && f[|dir|] == f[|f| - 9] == '/'
      && f[|f| - 8..] == Hex8(id) && f[|dir| + 1..|f| - 9] == CategoryName(c)
  {
    hide CategoryName, Hex8;
  }

  /** Different entries have different names. */
  lemma FileNamesDiffer(dir: string, c1: Category, id1: Word, c2: Category, id2: Word)
    requires FileName(dir, c1, id1) == FileName(dir, c2, id2)
    ensures c1 == c2 && id1 == id2
  {
    var f1, f2 := FileName(dir, c1, id1), FileName(dir, c2, id2);
    var n1, n2 := CategoryName(c1), CategoryName(c2);
    hide FileName, CategoryName, Hex8;
    NameParts(dir, c1, id1);
    NameParts(dir, c2, id2);
    CategoryNamesDiffer(c1, c2);
    Hex8Injective(id1, id2);
  }

  /** An entry of some real category is cached under this identifier. */
  ghost predicate Cached(files: map<string, string>, dir: string, discid: Word)
  {
    exists c: Category :: c < CAT_INVALID && FileName(dir, c, discid) in files
  }

  // --- replay

  /** A run depends only on the lines it reads. */
  lemma {:induction false} RunUsed(m: Machine, lines: seq<string>)
    requires m.at.state != Stop
    ensures Run(m, lines).ok ==> Run(m, lines[..Used(m, lines)]) == Run(m, lines)
    decreases |lines|
  {
    hide Step, ScanLine;
    var u := Used(m, lines);
    if lines != [] && Step(m, ScanLine(lines[0])).Go? {
      assert lines[..u][0] == lines[0];
      var m' := Step(m, ScanLine(lines[0])).m;
      if m'.at.state != Stop {
        assert lines[..u][1..] == lines[1..][..u - 1];
        RunUsed(m', lines[1..]);
      }
    }
  }

  /** The record that a successful parse of a stream saves, read back from the cache: into an equal disc
      it gives the same result, and into any other disc, if that succeeds, the same value for every
      field it mentions. */
  lemma CacheReplay(d: DiscData, e: DiscData, s: string, size: nat)
    requires size >= 2 && Parse(d, LinesOf(s, size)).ok
    requires AllShort(LinesOf(s, size)[..Used(Machine(INITIAL, d), LinesOf(s, size))], size - 2)
    ensures var lines := LinesOf(s, size);
      var saved := LinesOf(Save(lines[..Used(Machine(INITIAL, d), lines)]), size);
      && Parse(d, saved) == Parse(d, lines)
      && (Parse(e, saved).ok ==>
            SameOn(MentionedIn(d, saved), Parse(d, lines).disc, Parse(e, saved).disc))
  {
    hide SameOn, Run, LinesOf;
    var lines := LinesOf(s, size);
    var u := Used(Machine(INITIAL, d), lines);
    ReplayExact(s, size, u);
    RunUsed(Machine(INITIAL, d), lines);
    if Parse(e, lines[..u]).ok { ParseIndependent(d, e, lines[..u]); }
  }
}
