/** The memory cache for queries: a table of 256 slots in front of the search over the category directories, and what
    holds of it over every run of commands. */
module QueryCache {
  import opened Text
  import opened Records
  import opened Cache
  import DiscId

  const QUERY_CACHE_SIZE := 256

  datatype Entry = Entry(discid: Word, category: Category)

  datatype Table = Table(slots: seq<Entry>, ready: bool)

  /** Static memory starts out as zeros. */
  const ZEROS := Table(seq(QUERY_CACHE_SIZE, _ => Entry(0, CAT_DATA)), false)

  /** The upper eight bits of the identifier. */
  function Hash(discid: Word): (h: nat)
    ensures h < QUERY_CACHE_SIZE
  {
    discid / 0x100_0000
  }

  /** For the identifier of a disc that fits its bits, the slot is the digit sum of the howto. */
  lemma HashIsDigitSum(d: DiscData)
    requires d.tracks != [] && forall i :: 0 <= i < |d.tracks| ==> d.tracks[i].frameOffset >= 0
    requires 0 <= DiscId.Span(d) < 0x1_0000 && |d.tracks| < 0x100
    ensures Hash(DiscId.IdOf(d)) == DiscId.StartSum(d.tracks) % 255
  {
    hide DiscId.IdOf;
    DiscId.IdUnpacks(d);
  }

  // --- what a query does

  /** cddb_cache_query_init marks as many slots as `sizeof(QUERY_CACHE_SIZE)` says, which is four. */
  function Initialized(t: Table): (r: Table)
    ensures |r.slots| == |t.slots|
  {
    if t.ready then t
    else Table(seq(|t.slots|, i requires 0 <= i < |t.slots| =>
                 if i < 4 then t.slots[i].(category := CAT_INVALID) else t.slots[i]), true)
  }

  /** Of the 256 slots of the static table, the first four are marked and the others left as they were. */
  lemma FourAreMarked(h: nat)
    requires h < 256
    ensures var t := Initialized(ZEROS);
      |t.slots| == 256 && t.slots[h] == Entry(0, if h < 4 then CAT_INVALID else CAT_DATA)
  {
  }

  /** The first category from c on that has an entry for the identifier. */
  function FirstCategory(files: map<string, string>, dir: string, discid: Word, c: Category): Category
    decreases CAT_INVALID - c
  {
    if c == CAT_INVALID || FileName(dir, c, discid) in files then c else FirstCategory(files, dir, discid, c + 1)
  }

  datatype Answered = Answered(found: bool, category: Category, table: Table)

  function Lookup(t: Table, files: map<string, string>, dir: string, discid: Word): Answered
    requires |t.slots| == QUERY_CACHE_SIZE
  {
    var u := Initialized(t);
    var h := Hash(discid);
    if u.slots[h].discid == discid then Answered(true, u.slots[h].category, u)
    else
      var c := FirstCategory(files, dir, discid, CAT_DATA);
      if c < CAT_INVALID then Answered(true, c, u.(slots := u.slots[h := Entry(discid, c)]))
      else Answered(false, CAT_INVALID, u)
  }

  // --- the table is right

  /** A filled slot holds an identifier that belongs there and an entry that exists. */
  predicate SlotOk(e: Entry, h: nat, dir: string, files: map<string, string>)
  {
    e.discid == 0 ||
    (Hash(e.discid) == h && e.category < CAT_INVALID && FileName(dir, e.category, e.discid) in files)
  }

  /** Every slot is empty or right, and all are empty as long as none was marked. */
  predicate Right(t: Table, dir: string, files: map<string, string>)
  {
    && |t.slots| == QUERY_CACHE_SIZE
    && (forall h :: 0 <= h < |t.slots| ==> SlotOk(t.slots[h], h, dir, files))
    && (!t.ready ==> forall h :: 0 <= h < |t.slots| ==> t.slots[h].discid == 0)
  }

  lemma ZerosRight(dir: string, files: map<string, string>)
    ensures Right(ZEROS, dir, files)
  {
  }

  /** More files keep the table right. */
  lemma RightKept(t: Table, dir: string, before: map<string, string>, after: map<string, string>)
    requires Right(t, dir, before) && before.Keys <= after.Keys
    ensures Right(t, dir, after)
  {
    hide FileName, Hash;
    forall h | 0 <= h < |t.slots| ensures SlotOk(t.slots[h], h, dir, after) {
      assert SlotOk(t.slots[h], h, dir, before);
    }
  }

  lemma {:induction false} FirstFinds(files: map<string, string>, dir: string, discid: Word, c: Category)
    ensures var r := FirstCategory(files, dir, discid, c);
      && c <= r && (r < CAT_INVALID ==> FileName(dir, r, discid) in files)
      && forall k: Category :: c <= k < r ==> FileName(dir, k, discid) !in files
    decreases CAT_INVALID - c
  {
    hide FileName;
    if c < CAT_INVALID && FileName(dir, c, discid) !in files { FirstFinds(files, dir, discid, c + 1); }
  }

  lemma LookupRight(t: Table, files: map<string, string>, dir: string, discid: Word)
    requires Right(t, dir, files)
    ensures Right(Lookup(t, files, dir, discid).table, dir, files)
  {
    hide FileName, Hash;
    FirstFinds(files, dir, discid, CAT_DATA);
    var r := Lookup(t, files, dir, discid).table;
    forall h | 0 <= h < |r.slots| ensures SlotOk(r.slots[h], h, dir, files) {
      assert SlotOk(t.slots[h], h, dir, files);
    }
  }

  /** The table finds what the search would find, and an entry that exists. */
  predicate Agrees(t: Table, files: map<string, string>, dir: string, discid: Word)
    requires |t.slots| == QUERY_CACHE_SIZE
  {
    var a := Lookup(t, files, dir, discid);
    && (a.found <==> FirstCategory(files, dir, discid, CAT_DATA) < CAT_INVALID)
    && if a.found then a.category < CAT_INVALID && FileName(dir, a.category, discid) in files
       else a.category == CAT_INVALID
  }

  /** It does so for every identifier but 0; for 0, which an empty slot holds as well, only if slot 0 is filled or
      happens to name a category with such an entry. */
  lemma LookupAgrees(t: Table, files: map<string, string>, dir: string, discid: Word)
    requires Right(t, dir, files)
    ensures Agrees(t, files, dir, discid) <==>
      discid != 0 || t.slots[0].discid != 0 ||
      (Initialized(t).slots[0].category < CAT_INVALID && FileName(dir, Initialized(t).slots[0].category, 0) in files)
  {
    hide FileName;
    FirstFinds(files, dir, discid, CAT_DATA);
    assert SlotOk(t.slots[Hash(discid)], Hash(discid), dir, files);
  }

  /** An answer is remembered: the next query for the same identifier gives it again without looking at the files. */
  lemma LookupRemembers(t: Table, files: map<string, string>, dir: string, discid: Word, later: map<string, string>)
    requires |t.slots| == QUERY_CACHE_SIZE && Lookup(t, files, dir, discid).found
    ensures var a := Lookup(t, files, dir, discid); Lookup(a.table, later, dir, discid) == a
  {
    hide FileName, FirstCategory;
  }

  // --- runs

  /** What commands do to the cache: queries look an identifier up, reads and writes store entries. */
  datatype Event = Asked(discid: Word) | Stored(category: Category, discid: Word, text: string)

  datatype State = State(files: map<string, string>, table: Table)

  function Next(s: State, dir: string, e: Event): (n: State)
    requires |s.table.slots| == QUERY_CACHE_SIZE
    ensures |n.table.slots| == QUERY_CACHE_SIZE
  {
    match e
    case Asked(discid) => s.(table := Lookup(s.table, s.files, dir, discid).table)
    case Stored(category, discid, text) => s.(files := s.files[FileName(dir, category, discid) := text])
  }

  function After(s: State, dir: string, events: seq<Event>): (n: State)
    requires |s.table.slots| == QUERY_CACHE_SIZE
    ensures |n.table.slots| == QUERY_CACHE_SIZE
  {
    if events == [] then s else Next(After(s, dir, events[..|events| - 1]), dir, events[|events| - 1])
  }

  lemma {:induction false} RunRight(s: State, dir: string, events: seq<Event>)
    requires Right(s.table, dir, s.files)
    ensures var n := After(s, dir, events); Right(n.table, dir, n.files) && s.files.Keys <= n.files.Keys
  {
    hide FileName, Lookup;
    if events != [] {
      var before := After(s, dir, events[..|events| - 1]);
      RunRight(s, dir, events[..|events| - 1]);
      match events[|events| - 1]
      case Asked(discid) => LookupRight(before.table, before.files, dir, discid);
      case Stored(c, discid, text) => RightKept(before.table, dir, before.files, After(s, dir, events).files);
    }
  }

  /** After every run from a directory with any files, the table agrees with the search for every identifier
      that a query can ask for. */
  lemma RunAgrees(files: map<string, string>, dir: string, events: seq<Event>, discid: Word)
    requires discid != 0
    ensures var n := After(State(files, ZEROS), dir, events); Agrees(n.table, n.files, dir, discid)
  {
    hide Right, Lookup, After, Agrees, FileName;
    ZerosRight(dir, files);
    RunRight(State(files, ZEROS), dir, events);
    var n := After(State(files, ZEROS), dir, events);
    LookupAgrees(n.table, n.files, dir, discid);
  }

  /** The search finds something exactly when an entry is cached. */
  lemma FirstIsCached(files: map<string, string>, dir: string, discid: Word)
    ensures FirstCategory(files, dir, discid, CAT_DATA) < CAT_INVALID <==> Cached(files, dir, discid)
  {
    FirstFinds(files, dir, discid, CAT_DATA);
    hide FileName;
  }
}
