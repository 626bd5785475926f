/** The disc and track structures (lib/cddb_disc.c, lib/cddb_track.c): a disc owns a doubly linked
    list of tracks, each of which points back at its disc. */
module Discs {
  import opened Text
  import opened Records

  class Track {
    var num: int
    var frameOffset: int
    var length: int
    var title: Str
    var artist: Str
    var extData: Str
    var prev: Track?
    var next: Track?
    var disc: Disc?

    constructor ()
      ensures Value() == NEW_TRACK && num == -1
      ensures prev == null && next == null && disc == null
    {
      num, frameOffset, length := -1, -1, -1;
      title, artist, extData := None, None, None;
      prev, next, disc := null, null, null;
    }

    ghost function Value(): TrackData
      reads this
    {
      TrackData(frameOffset, length, title, artist, extData)
    }

    /** cddb_track_clone: a copy that belongs to no disc. */
    method Clone() returns (clone: Track)
      ensures fresh(clone) && clone.Value() == Value() && clone.num == num
      ensures clone.prev == null && clone.next == null && clone.disc == null
    {
      clone := new Track();
      clone.num := num;
      clone.frameOffset := frameOffset;
      clone.length := length;
      clone.title := title;
      clone.artist := artist;
      clone.extData := extData;
      clone.disc := null;
    }

    /** cddb_track_set_artist and cddb_track_set_title with NULL. */
    method ClearNames()
      modifies this`title, this`artist
      ensures title == None && artist == None
    {
      artist := None;
      title := None;
    }

    /** cddb_track_append_title */
    method AppendTitle(s: string)
      modifies this`title
      ensures title == Append(old(title), s)
    {
      title := match title case None => Some(s) case Some(v) => Some(v + s);
    }

    /** cddb_track_append_artist */
    method AppendArtist(s: string)
      modifies this`artist
      ensures artist == Append(old(artist), s)
    {
      artist := match artist case None => Some(s) case Some(v) => Some(v + s);
    }

    /** cddb_track_append_ext_data */
    method AppendExtData(s: string)
      modifies this`extData
      ensures extData == Append(old(extData), s)
    {
      extData := match extData case None => Some(s) case Some(v) => Some(v + s);
    }

    /** cddb_track_copy, called on the destination. */
    method Copy(src: Track)
      requires src != this
      modifies this
      ensures prev == old(prev) && next == old(next) && disc == old(disc)
      ensures Value() == MergeTrack(old(Value()), src.Value()) && TakesTrack(Value(), old(Value()), src.Value())
      ensures num == if src.num != -1 then src.num else old(num)
    {
      hide TakesTrack;
      SourceWinsTrack(old(Value()), src.Value(), MergeTrack(old(Value()), src.Value()));
      if src.num != -1 { num := src.num; }
      if src.frameOffset != -1 { frameOffset := src.frameOffset; }
      if src.length != -1 { length := src.length; }
      if src.title != None { title := src.title; }
      if src.artist != None { artist := src.artist; }
      if src.extData != None { extData := src.extData; }
    }
  }

  /** The category a name stands for; a name that is none of them counts as miscellaneous. */
  ghost function CategoryOf(name: string): (c: Category)
    ensures (exists k: Category :: CategoryName(k) == name) ==> CategoryName(c) == name
    ensures (forall k: Category :: CategoryName(k) != name) ==> c == CAT_MISC
  {
    if exists k: Category :: CategoryName(k) == name then
      var k: Category :| CategoryName(k) == name; k
    else CAT_MISC
  }

  lemma CategoryOfUnique(c: Category)
    ensures CategoryOf(CategoryName(c)) == c
  {
    CategoryNamesDiffer(CategoryOf(CategoryName(c)), c);
  }

  /** A name that is no category is filed under "misc". */
  lemma UnknownIsMisc(name: string)
    requires forall k: Category :: CategoryName(k) != name
    ensures CategoryName(CategoryOf(name)) == "misc"
  {
    CategoryNames();
    hide CategoryName;
  }

  /** These discs hold these values, and share nothing with d. */
  ghost predicate Holds(rs: seq<Disc>, vals: seq<DiscData>, d: Disc)
    reads d`nodes, rs, set i, j | 0 <= i < |rs| && 0 <= j < |rs[i].spine| :: rs[i].spine[j]
  {
    |rs| == |vals| && forall i :: 0 <= i < |rs| ==>
      rs[i] != d && rs[i].Valid() && rs[i].nodes !! d.nodes && rs[i].Value() == vals[i]
  }

  class Disc {
    var revision: nat
    var discid: Word
    var category: Category
    var genre: Str
    var title: Str
    var artist: Str
    var length: nat
    var year: nat
    var extData: Str
    var trackCnt: int
    var tracks: Track?
    var iterator_: Track?

    /** The tracks of the list, first to last. */
    ghost var spine: seq<Track>
    /** The same tracks as a set: the memory the list occupies. */
    ghost var nodes: set<Track>
    /** What the tracks hold, first to last. */
    ghost var contents: seq<TrackData>

    ghost predicate Linked(i: nat)
      requires i < |spine| == |contents|
      reads this`spine, this`contents, spine
    {
      && spine[i].num == i + 1
      && spine[i].disc == this
      && spine[i].Value() == contents[i]
      && spine[i].next == (if i + 1 < |spine| then spine[i + 1] else null)
      && spine[i].prev == (if i > 0 then spine[i - 1] else null)
    }

    /** The list is well formed: the count is its length, numbers are positions, the links mirror
        each other and every track knows this disc. */
    ghost predicate Valid()
      reads this`spine, this`nodes, this`contents, this`trackCnt, this`tracks, spine
    {
      && trackCnt == |spine| == |contents|
      && tracks == (if spine == [] then null else spine[0])
      && nodes == (set t | t in spine)
      && (forall i :: 0 <= i < |spine| ==> Linked(i))
    }

    /** Everything but the tracks. */
    ghost function Fields(): DiscData
      reads this`discid, this`category, this`year, this`genre, this`title, this`artist, this`length,
            this`revision, this`extData
    {
      DiscData(discid, category, year, genre, title, artist, length, revision, extData, [])
    }

    ghost function Value(): DiscData
      reads this
    {
      Fields().(tracks := contents)
    }

    constructor ()
      ensures Valid() && Value() == NEW_DISC && spine == [] && nodes == {} && iterator_ == null
    {
      revision, discid, length, year, trackCnt := 0, 0, 0, 0, 0;
      category := CAT_INVALID;
      genre, title, artist, extData := None, None, None, None;
      tracks, iterator_ := null, null;
      spine, nodes, contents := [], {}, [];
    }

    lemma Distinct()
      requires Valid()
      ensures forall a, b :: 0 <= a < b < |spine| ==> spine[a] != spine[b]
    {
      forall a, b | 0 <= a < b < |spine| ensures spine[a] != spine[b] {
        assert Linked(a) && Linked(b);
      }
    }

    /** The track at position i holds what the contents say, and links to the next one. */
    lemma TrackAt(i: nat)
      requires Valid() && i < |spine|
      ensures |contents| == |spine| && spine[i].Value() == contents[i]
      ensures spine[i].next == if i + 1 < |spine| then spine[i + 1] else null
    {
      assert Linked(i);
    }

    /** The end of the list, as cddb_disc_add_track walks to it. */
    method LastTrack() returns (t: Track)
      requires Valid() && spine != []
      ensures t == spine[|spine| - 1] && t.next == null
    {
      t := tracks;
      ghost var i := 0;
      while t.next != null
        invariant 0 <= i < |spine| && t == spine[i]
        decreases |spine| - i
      {
        assert Linked(i);
        t := t.next;
        i := i + 1;
      }
      assert Linked(i);
    }

    /** cddb_disc_add_track */
    method AddTrack(track: Track)
      requires Valid() && track !in nodes
      requires track.prev == null && track.next == null
      modifies this`tracks, this`trackCnt, this`spine, this`nodes, this`contents, nodes, track
      ensures Valid() && spine == old(spine) + [track] && nodes == old(nodes) + {track}
      ensures contents == old(contents) + [old(track.Value())]
      ensures track.num == |spine|
    {
      Distinct();
      ghost var n := |spine|;
      if tracks == null {
        tracks := track;
      } else {
        var t := LastTrack();
        t.next := track;
        track.prev := t;
      }
      trackCnt := trackCnt + 1;
      track.num := trackCnt;
      track.disc := this;
      spine, nodes, contents := spine + [track], nodes + {track}, contents + [track.Value()];
      forall k | 0 <= k < n ensures Linked(k) {
        assert old(Linked(k));
      }
      assert Linked(n);
    }

    /** cddb_disc_get_track; a negative number finds the first track. */
    method GetTrack(trackNo: int) returns (track: Track?)
      requires Valid()
      ensures track == if trackNo >= |spine| then null
                       else if trackNo >= 0 then spine[trackNo]
                       else if spine == [] then null else spine[0]
    {
      if trackNo >= trackCnt { return null; }
      track := tracks;
      var n := trackNo;
      while n > 0
        invariant trackNo > 0 ==> 0 <= n <= trackNo && track == spine[trackNo - n]
        invariant trackNo <= 0 ==> n == trackNo && track == tracks
      {
        assert Linked(trackNo - n);
        n, track := n - 1, track.next;
      }
    }

    /** cddb_disc_get_track_first */
    method GetTrackFirst() returns (track: Track?)
      requires Valid()
      modifies this`iterator_
      ensures track == iterator_ == if spine == [] then null else spine[0]
    {
      iterator_ := tracks;
      return iterator_;
    }

    /** cddb_disc_get_track_next, for an iterator that stands on track k (or past the end). */
    method GetTrackNext(ghost k: nat) returns (track: Track?)
      requires Valid()
      requires iterator_ == if k < |spine| then spine[k] else null
      modifies this`iterator_
      ensures track == iterator_ == if k + 1 < |spine| then spine[k + 1] else null
    {
      if iterator_ != null {
        assert Linked(k);
        iterator_ := iterator_.next;
      }
      return iterator_;
    }

    /** A whole walk with first/next visits every track once, in order. */
    method Walk() returns (ghost visited: seq<Track>)
      requires Valid()
      modifies this`iterator_
      ensures visited == spine && iterator_ == null
    {
      visited := [];
      var track := GetTrackFirst();
      while track != null
        invariant |visited| <= |spine| && visited == spine[..|visited|]
        invariant track == iterator_ == if |visited| < |spine| then spine[|visited|] else null
        decreases |spine| - |visited|
      {
        visited := visited + [track];
        track := GetTrackNext(|visited| - 1);
      }
    }

    /** Brings the ghost contents up to date after the track at position i was changed. */
    ghost method Refresh(i: nat, track: Track)
      requires |spine| == |contents| == trackCnt && i < |spine| && track == spine[i]
      requires tracks == spine[0] && nodes == (set t | t in spine)
      requires forall k :: 0 <= k < |spine| && k != i ==> Linked(k)
      requires track.num == i + 1 && track.disc == this
      requires track.next == (if i + 1 < |spine| then spine[i + 1] else null)
      requires track.prev == (if i > 0 then spine[i - 1] else null)
      modifies this`contents
      ensures Valid() && contents == old(contents)[i := track.Value()]
    {
      contents := contents[i := track.Value()];
      forall k | 0 <= k < |spine| ensures Linked(k) {
        assert k != i ==> old(Linked(k));
      }
    }

    /** cddb_disc_append_artist */
    method AppendArtist(s: string)
      modifies this`artist
      ensures artist == Append(old(artist), s)
    {
      artist := match artist case None => Some(s) case Some(v) => Some(v + s);
    }

    /** cddb_disc_append_title */
    method AppendTitle(s: string)
      modifies this`title
      ensures title == Append(old(title), s)
    {
      title := match title case None => Some(s) case Some(v) => Some(v + s);
    }

    /** cddb_disc_append_ext_data */
    method AppendExtData(s: string)
      modifies this`extData
      ensures extData == Append(old(extData), s)
    {
      extData := match extData case None => Some(s) case Some(v) => Some(v + s);
    }

    /** cddb_disc_set_category_str */
    method SetCategoryStr(cat: string)
      modifies this`genre, this`category
      ensures genre == Some(cat) && category == CategoryOf(cat)
    {
      genre := Some(cat);
      category := CAT_MISC;
      var i := 0;
      while i < |CATEGORIES|
        invariant 0 <= i <= |CATEGORIES| && category == CAT_MISC
        invariant forall k: Category :: k < i ==> CategoryName(k) != cat
      {
        if cat == CATEGORIES[i] {
          category := i;
          CategoryOfUnique(i);
          return;
        }
        i := i + 1;
      }
    }

    /** The part of cddb_disc_clone that copies the fields. */
    method TakeFields(src: Disc)
      requires src != this
      modifies this`discid, this`category, this`year, this`length, this`revision,
               this`genre, this`title, this`artist, this`extData
      ensures Fields() == src.Fields()
    {
      discid := src.discid;
      category := src.category;
      year := src.year;
      genre := src.genre;
      title := src.title;
      artist := src.artist;
      length := src.length;
      revision := src.revision;
      extData := src.extData;
    }

    /** Adds a clone of a track of another disc. */
    method AddClone(track: Track)
      requires Valid() && track !in nodes
      modifies this`tracks, this`trackCnt, this`spine, this`nodes, this`contents, nodes
      ensures Valid() && old(spine) <= spine && |spine| == |old(spine)| + 1
      ensures fresh(nodes - old(nodes))
      ensures contents == old(contents) + [old(track.Value())]
    {
      var c := track.Clone();
      AddTrack(c);
    }

    /** The track loop of cddb_disc_clone. */
    method AddClones(src: Disc)
      requires Valid() && spine == [] && src.Valid() && src != this
      modifies this`tracks, this`trackCnt, this`spine, this`nodes, this`contents
      ensures Valid() && fresh(nodes)
      ensures contents == src.contents
    {
      var track := src.tracks;
      ghost var i := 0;
      while track != null
        invariant 0 <= i <= |src.spine| && i == |spine|
        invariant track == if i < |src.spine| then src.spine[i] else null
        invariant Valid() && fresh(nodes)
        invariant contents == src.contents[..i]
        decreases |src.spine| - i
      {
        assert src.Linked(i);
        AddClone(track);
        track := track.next;
        i := i + 1;
      }
    }

    /** cddb_disc_clone */
    method Clone() returns (clone: Disc)
      requires Valid()
      ensures fresh(clone) && clone.Valid() && clone.Value() == Value()
      ensures fresh(clone.nodes)
      ensures clone.iterator_ == null
    {
      clone := new Disc();
      clone.TakeFields(this);
      clone.AddClones(this);
    }

    /** The numbers of cddb_disc_copy; called on the destination. */
    method CopyNumbers(src: Disc)
      requires src != this
      modifies this`discid, this`category, this`year, this`length, this`revision
      ensures discid == if src.discid != 0 then src.discid else old(discid)
      ensures category == if src.category != CAT_INVALID then src.category else old(category)
      ensures year == if src.year != 0 then src.year else old(year)
      ensures length == if src.length != 0 then src.length else old(length)
      ensures revision == if src.revision != 0 then src.revision else old(revision)
    {
      if src.discid != 0 { discid := src.discid; }
      if src.category != CAT_INVALID { category := src.category; }
      if src.year != 0 { year := src.year; }
      if src.length != 0 { length := src.length; }
      if src.revision != 0 { revision := src.revision; }
    }

    /** The strings of cddb_disc_copy; called on the destination. */
    method CopyStrings(src: Disc)
      requires src != this
      modifies this`genre, this`title, this`artist, this`extData
      ensures genre == MergeStr(old(genre), src.genre)
      ensures title == MergeStr(old(title), src.title)
      ensures artist == MergeStr(old(artist), src.artist)
      ensures extData == MergeStr(old(extData), src.extData)
    {
      if src.genre != None { genre := src.genre; }
      if src.title != None { title := src.title; }
      if src.artist != None { artist := src.artist; }
      if src.extData != None { extData := src.extData; }
    }

    method CopyFields(src: Disc)
      requires src != this
      modifies this`discid, this`category, this`year, this`length, this`revision,
               this`genre, this`title, this`artist, this`extData
      ensures Fields() == MergeFields(old(Fields()), src.Fields())
    {
      CopyNumbers(src);
      CopyStrings(src);
    }

    /** cddb_track_copy on the track at position i of this disc. */
    method CopyTrack(ghost i: nat, dstTrack: Track, srcTrack: Track)
      requires Valid() && i < |spine| && dstTrack == spine[i] && srcTrack !in nodes
      requires srcTrack.num == i + 1
      modifies dstTrack, this`contents
      ensures Valid()
      ensures contents == old(contents)[i := MergeTrack(old(contents[i]), srcTrack.Value())]
    {
      assert Linked(i);
      dstTrack.Copy(srcTrack);
      contents := contents[i := dstTrack.Value()];
      forall k | 0 <= k < |spine| ensures Linked(k) && (k != i ==> spine[k] != dstTrack) {
        assert old(Linked(k));
      }
    }

    /** One round of the track loop of cddb_disc_copy, for position i. */
    method CopyAt(src: Disc, ghost i: nat, at: Track?, srcTrack: Track) returns (dstTrack: Track)
      requires Valid() && i <= |spine| && at == (if i < |spine| then spine[i] else null)
      requires src != this && src.Valid() && i < |src.spine| && srcTrack == src.spine[i]
      requires nodes !! src.nodes
      modifies this`tracks, this`trackCnt, this`spine, this`nodes, this`contents, nodes
      ensures Valid() && old(spine) <= spine && i < |spine| && dstTrack == spine[i]
      ensures fresh(nodes - old(nodes)) && old(nodes) <= nodes
      ensures contents ==
        if i < |old(spine)| then
          old(contents)[i := MergeTrack(old(contents[i]), old(srcTrack.Value()))]
        else old(contents) + [old(srcTrack.Value())]
      ensures src.Valid() && src.contents == old(src.contents)
      ensures nodes !! src.nodes
    {
      assert src.Linked(i);
      if at == null {
        dstTrack := new Track();
        AddTrack(dstTrack);
      } else {
        dstTrack := at;
      }
      CopyTrack(i, dstTrack, srcTrack);
    }

    /** The track loop of cddb_disc_copy. */
    method CopyTracks(src: Disc)
      requires Valid() && src.Valid() && src != this
      requires nodes !! src.nodes
      modifies this`tracks, this`trackCnt, this`spine, this`nodes, this`contents, nodes
      ensures Valid()
      ensures contents == MergeTracks(old(contents), src.contents)
      ensures old(spine) <= spine
      ensures fresh(nodes - old(nodes)) && old(nodes) <= nodes
    {
      hide Linked, MergeTrack, MergeTracks;
      ghost var before := contents;
      ghost var merged := MergeTracks(before, src.contents);
      var srcTrack, dstTrack := src.tracks, tracks;
      ghost var i := 0;
      while srcTrack != null
        invariant 0 <= i <= |src.spine|
        invariant srcTrack == if i < |src.spine| then src.spine[i] else null
        invariant dstTrack == if i < |spine| then spine[i] else null
        invariant Valid() && old(spine) <= spine
        invariant fresh(nodes - old(nodes)) && old(nodes) <= nodes && nodes !! src.nodes
        invariant src.Valid() && src.contents == old(src.contents)
        invariant |spine| == if i < |before| then |before| else i
        invariant forall k :: 0 <= k < |spine| ==> contents[k] == if k < i then merged[k] else before[k]
        decreases |src.spine| - i
      {
        src.TrackAt(i);
        dstTrack := CopyAt(src, i, dstTrack, srcTrack);
        TrackAt(i);
        src.TrackAt(i);
        srcTrack := srcTrack.next;
        dstTrack := dstTrack.next;
        i := i + 1;
      }
      assert contents == merged;
    }

    /** cddb_disc_copy, called on the destination: the right-biased merge, in place. */
    method Copy(src: Disc)
      requires Valid() && src.Valid() && src != this
      requires nodes !! src.nodes
      modifies this`discid, this`category, this`year, this`length, this`revision, this`genre, this`title,
               this`artist, this`extData, this`tracks, this`trackCnt, this`spine, this`nodes,
               this`contents, nodes
      ensures Valid() && Value() == Merge(old(Value()), src.Value()) && Takes(Value(), old(Value()), src.Value())
      ensures old(spine) <= spine
      ensures fresh(nodes - old(nodes)) && old(nodes) <= nodes
    {
      hide Takes, MergeTracks, Linked;
      CopyFields(src);
      CopyTracks(src);
      SourceWins(old(Value()), src.Value(), Value());
    }

    /** cddb_disc_copy from result k of several, which leaves all of them as they are. */
    method CopyResult(r: Disc, ghost k: nat, ghost rs: seq<Disc>, ghost vals: seq<DiscData>)
      requires Valid() && Holds(rs, vals, this) && k < |vals| && r == rs[k]
      modifies this`discid, this`category, this`year, this`length, this`revision, this`genre, this`title,
               this`artist, this`extData, this`tracks, this`trackCnt, this`spine, this`nodes,
               this`contents, nodes
      ensures Valid() && Value() == Merge(old(Value()), vals[k]) && Holds(rs, vals, this)
      ensures old(spine) <= spine && fresh(nodes - old(nodes)) && old(nodes) <= nodes
    {
      hide Merge;
      Copy(r);
      forall i | 0 <= i < |rs|
        ensures rs[i].Valid() && rs[i].nodes !! nodes && rs[i].Value() == vals[i]
      {
        assert old(rs[i].Valid());
        assert forall t :: t in rs[i].spine ==> t in old(rs[i].nodes);
      }
    }
  }

  lemma HoldsCount(rs: seq<Disc>, vals: seq<DiscData>, d: Disc)
    requires Holds(rs, vals, d)
    ensures |rs| == |vals|
  {
  }
}
