/** Discs and tracks as values: what the structures of the library hold, with the merge that
    cddb_disc_copy performs and its algebra. */
module Records {
  import opened Text

  // --- categories

  type Category = c: nat | c <= 11

  const CAT_DATA: Category := 0
  const CAT_FOLK: Category := 1
  const CAT_JAZZ: Category := 2
  const CAT_MISC: Category := 3
  const CAT_ROCK: Category := 4
  const CAT_COUNTRY: Category := 5
  const CAT_BLUES: Category := 6
  const CAT_NEWAGE: Category := 7
  const CAT_REGGAE: Category := 8
  const CAT_CLASSICAL: Category := 9
  const CAT_SOUNDTRACK: Category := 10
  const CAT_INVALID: Category := 11

  const CATEGORIES: seq<string> :=
    ["data", "folk", "jazz", "misc", "rock", "country", "blues", "newage",
     "reggae", "classical", "soundtrack", "invalid"]

  function CategoryName(c: Category): string
  {
    CATEGORIES[c]
  }

  lemma CategoryNamesDiffer(a: Category, b: Category)
    requires CategoryName(a) == CategoryName(b)
    ensures a == b
  {
    var x, y := CategoryName(a), CategoryName(b);
    assert |x| == |y| && x[0] == y[0] && x[1] == y[1];
    assert |x| > 3 ==> x[3] == y[3];
  }

  /** The names stand at the places that the enumeration gives to the categories. */
  lemma CategoryNames()
    ensures CategoryName(CAT_DATA) == "data" && CategoryName(CAT_FOLK) == "folk" && CategoryName(CAT_JAZZ) == "jazz"
    ensures CategoryName(CAT_MISC) == "misc" && CategoryName(CAT_ROCK) == "rock"
    ensures CategoryName(CAT_COUNTRY) == "country" && CategoryName(CAT_BLUES) == "blues"
    ensures CategoryName(CAT_NEWAGE) == "newage" && CategoryName(CAT_REGGAE) == "reggae"
    ensures CategoryName(CAT_CLASSICAL) == "classical" && CategoryName(CAT_SOUNDTRACK) == "soundtrack"
    ensures |CATEGORIES| == 12 && CategoryName(CAT_INVALID) == "invalid"
  {
  }

  // --- tracks and discs

  datatype TrackData = TrackData(frameOffset: int, length: int, title: Str, artist: Str, extData: Str)

  datatype DiscData = DiscData(discid: Word, category: Category, year: nat, genre: Str, title: Str,
                               artist: Str, length: nat, revision: nat, extData: Str,
                               tracks: seq<TrackData>)

  const NEW_TRACK := TrackData(-1, -1, None, None, None)

  const NEW_DISC := DiscData(0, CAT_INVALID, 0, None, None, None, 0, 0, None, [])

  /** s followed by t, where a NULL string counts as empty; the result is never NULL. */
  function Append(s: Str, t: string): (r: Str)
    ensures r.Some?
  {
    match s case None => Some(t) case Some(v) => Some(v + t)
  }

  // --- merging: a field of the source wins unless it holds its "not set" value

  function MergeStr(dst: Str, src: Str): Str
  {
    if src.Some? then src else dst
  }

  function MergeInt(unset: int, dst: int, src: int): int
  {
    if src != unset then src else dst
  }

  function MergeTrack(dst: TrackData, src: TrackData): TrackData
  {
    TrackData(MergeInt(-1, dst.frameOffset, src.frameOffset), MergeInt(-1, dst.length, src.length),
              MergeStr(dst.title, src.title), MergeStr(dst.artist, src.artist),
              MergeStr(dst.extData, src.extData))
  }

  /** Track by track over the longer of the two lists. */
  function MergeTracks(dst: seq<TrackData>, src: seq<TrackData>): (r: seq<TrackData>)
    ensures |r| == if |dst| < |src| then |src| else |dst|
    ensures forall i :: 0 <= i < |r| ==>
      r[i] == if i >= |src| then dst[i] else if i >= |dst| then src[i] else MergeTrack(dst[i], src[i])
  {
    seq(if |dst| < |src| then |src| else |dst|, i requires 0 <= i =>
      if i < |src| then MergeTrack(if i < |dst| then dst[i] else NEW_TRACK, src[i])
      else if i < |dst| then dst[i] else NEW_TRACK)
  }

  /** The fields of a disc other than its tracks. */
  function MergeFields(dst: DiscData, src: DiscData): DiscData
  {
    DiscData(if src.discid != 0 then src.discid else dst.discid,
             if src.category != CAT_INVALID then src.category else dst.category,
             if src.year != 0 then src.year else dst.year,
             MergeStr(dst.genre, src.genre), MergeStr(dst.title, src.title),
             MergeStr(dst.artist, src.artist),
             if src.length != 0 then src.length else dst.length,
             if src.revision != 0 then src.revision else dst.revision,
             MergeStr(dst.extData, src.extData), dst.tracks)
  }

  function Merge(dst: DiscData, src: DiscData): DiscData
  {
    MergeFields(dst, src).(tracks := MergeTracks(dst.tracks, src.tracks))
  }

  // --- which side wins

  /** m has the value of b wherever b has one, and that of a elsewhere. */
  predicate TakesStr(m: Str, a: Str, b: Str)
  {
    (b.Some? ==> m == b) && (b.None? ==> m == a)
  }

  predicate TakesInt(unset: int, m: int, a: int, b: int)
  {
    (b != unset ==> m == b) && (b == unset ==> m == a)
  }

  predicate TakesTrack(m: TrackData, a: TrackData, b: TrackData)
  {
    && TakesInt(-1, m.frameOffset, a.frameOffset, b.frameOffset) && TakesInt(-1, m.length, a.length, b.length)
    && TakesStr(m.title, a.title, b.title) && TakesStr(m.artist, a.artist, b.artist)
    && TakesStr(m.extData, a.extData, b.extData)
  }

  predicate TakesFields(m: DiscData, a: DiscData, b: DiscData)
  {
    && TakesInt(0, m.discid, a.discid, b.discid) && TakesInt(CAT_INVALID, m.category, a.category, b.category)
    && TakesInt(0, m.year, a.year, b.year) && TakesInt(0, m.length, a.length, b.length)
    && TakesInt(0, m.revision, a.revision, b.revision)
    && TakesStr(m.genre, a.genre, b.genre) && TakesStr(m.title, a.title, b.title)
    && TakesStr(m.artist, a.artist, b.artist) && TakesStr(m.extData, a.extData, b.extData)
  }

  /** m is a with b copied over it: as many tracks as the longer list, and in every field of the disc and of every
      track the value of b if that is set, or else the value of a. A track that one disc lacks is unset there. */
  predicate Takes(m: DiscData, a: DiscData, b: DiscData)
  {
    && TakesFields(m, a, b)
    && |m.tracks| == (if |a.tracks| < |b.tracks| then |b.tracks| else |a.tracks|)
    && forall i :: 0 <= i < |m.tracks| ==>
         TakesTrack(m.tracks[i], if i < |a.tracks| then a.tracks[i] else NEW_TRACK,
                    if i < |b.tracks| then b.tracks[i] else NEW_TRACK)
  }

  lemma SourceWinsTrack(a: TrackData, b: TrackData, m: TrackData)
    ensures m == MergeTrack(a, b) <==> TakesTrack(m, a, b)
  {
  }

  /** The source wins wherever it has a value, the destination is kept elsewhere, and nothing else is the merge. */
  lemma SourceWins(a: DiscData, b: DiscData, m: DiscData)
    ensures m == Merge(a, b) <==> Takes(m, a, b)
  {
    var r := Merge(a, b);
    assert Takes(r, a, b);
    if Takes(m, a, b) {
      forall i | 0 <= i < |m.tracks| ensures m.tracks[i] == r.tracks[i] {
        assert TakesTrack(r.tracks[i], if i < |a.tracks| then a.tracks[i] else NEW_TRACK,
                          if i < |b.tracks| then b.tracks[i] else NEW_TRACK);
      }
      assert m.tracks == r.tracks;
    }
  }

  /** What was copied over a disc stays when the disc is copied over something again. */
  lemma MergeAbsorbs(a: DiscData, b: DiscData)
    ensures Merge(a, Merge(b, a)) == Merge(b, a)
  {
    var r := MergeTracks(b.tracks, a.tracks);
    assert MergeTracks(a.tracks, r) == r;
  }

  // --- the algebra of the merge

  lemma MergeAssociative(a: DiscData, b: DiscData, c: DiscData)
    ensures Merge(Merge(a, b), c) == Merge(a, Merge(b, c))
  {
    var l, r := MergeTracks(MergeTracks(a.tracks, b.tracks), c.tracks),
                MergeTracks(a.tracks, MergeTracks(b.tracks, c.tracks));
    assert |l| == |r|;
    forall i | 0 <= i < |l| ensures l[i] == r[i] { }
    assert l == r;
  }

  lemma MergeIdentity(a: DiscData)
    ensures Merge(a, NEW_DISC) == a && Merge(NEW_DISC, a) == a
  {
    assert MergeTracks(a.tracks, []) == a.tracks;
    assert MergeTracks([], a.tracks) == a.tracks;
  }

  lemma MergeIdempotent(a: DiscData)
    ensures Merge(a, a) == a
  {
    assert MergeTracks(a.tracks, a.tracks) == a.tracks;
  }

  predicate CompatibleStr(a: Str, b: Str)
  {
    a == b || a.None? || b.None?
  }

  predicate CompatibleTrack(a: TrackData, b: TrackData)
  {
    && (a.frameOffset == b.frameOffset || a.frameOffset == -1 || b.frameOffset == -1)
    && (a.length == b.length || a.length == -1 || b.length == -1)
    && CompatibleStr(a.title, b.title) && CompatibleStr(a.artist, b.artist)
    && CompatibleStr(a.extData, b.extData)
  }

  /** The merge commutes exactly when the two discs agree wherever both have something set. */
  predicate Compatible(a: DiscData, b: DiscData)
  {
    && (a.discid == b.discid || a.discid == 0 || b.discid == 0)
    && (a.category == b.category || a.category == CAT_INVALID || b.category == CAT_INVALID)
    && (a.year == b.year || a.year == 0 || b.year == 0)
    && CompatibleStr(a.genre, b.genre) && CompatibleStr(a.title, b.title)
    && CompatibleStr(a.artist, b.artist) && CompatibleStr(a.extData, b.extData)
    && (a.length == b.length || a.length == 0 || b.length == 0)
    && (a.revision == b.revision || a.revision == 0 || b.revision == 0)
    && forall i :: 0 <= i < |a.tracks| && i < |b.tracks| ==> CompatibleTrack(a.tracks[i], b.tracks[i])
  }

  lemma MergeCommutes(a: DiscData, b: DiscData)
    ensures Merge(a, b) == Merge(b, a) <==> Compatible(a, b)
  {
    var l, r := MergeTracks(a.tracks, b.tracks), MergeTracks(b.tracks, a.tracks);
    assert |l| == |r|;
    if Compatible(a, b) {
      forall i | 0 <= i < |l| ensures l[i] == r[i] { }
      assert l == r;
    }
    if Merge(a, b) == Merge(b, a) {
      assert l == r;
      forall i | 0 <= i < |a.tracks| && i < |b.tracks|
        ensures CompatibleTrack(a.tracks[i], b.tracks[i])
      {
        assert l[i] == r[i];
      }
    }
  }
}
