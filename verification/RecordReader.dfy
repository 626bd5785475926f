/** The case labels of cddb_parse_record as they run: each changes the disc in place, and either takes
    the line, falls through to the next label, or gives up. Each is proved to do what the function of
    the same name in module Parser says. */
module RecordReader {
  import opened Text
  import opened Patterns
  import opened Records
  import opened Discs
  import opened Parser

  /** The state after a line: `ok` is false when the parser returned FALSE. */
  ghost predicate Agrees(o: Outcome, at: Control, d: DiscData, ok: bool)
  {
    o == if ok then Go(Machine(at, d)) else Fail(d)
  }

  method CaseDot(d: Disc, at: Control, s: Scan) returns (at': Control, ok: bool)
    requires d.Valid()
    ensures Agrees(FromDot(Machine(at, d.Value()), s), at', d.Value(), ok)
  {
    at', ok := at, true;
    if s.dot {
      at' := at.(state := Stop);
    }
  }

  method CasePlayOrder(d: Disc, at: Control, s: Scan) returns (at': Control, ok: bool)
    requires d.Valid()
    ensures Agrees(FromPlayOrder(Machine(at, d.Value()), s), at', d.Value(), ok)
  {
    if s.order {
      return at.(state := EndDot), true;
    }
    at', ok := CaseDot(d, at, s);
  }

  method CaseTrackExt(d: Disc, at: Control, s: Scan) returns (at': Control, ok: bool)
    requires d.Valid()
    modifies d`contents, d.nodes
    ensures d.Valid()
    ensures Agrees(FromTrackExt(Machine(at, old(d.Value())), s), at', d.Value(), ok)
  {
    if s.extt.Some? {
      var (n, v) := s.extt.value;
      var track := d.GetTrack(n);
      if track == null {
        return at, false;
      }
      d.Distinct();
      assert d.Linked(n);
      if n != at.oldNo {
        track.extData := None;
      }
      if v != "" {
        track.AppendExtData(v);
      }
      forall k | 0 <= k < |d.spine| && k != n ensures d.Linked(k) {
        assert old(d.Linked(k));
      }
      d.Refresh(n, track);
      return at.(state := TrackExt, trackNo := n, oldNo := n), true;
    }
    at', ok := CasePlayOrder(d, at, s);
  }

  method CaseDiscExt(d: Disc, at: Control, s: Scan) returns (at': Control, ok: bool)
    requires d.Valid()
    modifies d`extData, d`contents, d.nodes
    ensures d.Valid()
    ensures Agrees(FromDiscExt(Machine(at, old(d.Value())), s), at', d.Value(), ok)
  {
    if s.extd.Some? {
      at' := at.(state := DiscExt);
      if at.multi == NoMulti {
        d.extData := None;
        at' := at'.(multi := MultiExt);
      }
      if s.extd.value != "" {
        d.AppendExtData(s.extd.value);
      }
      return at', true;
    }
    at', ok := CaseTrackExt(d, at.(multi := NoMulti), s);
  }

  /** The part of the track title label that changes the track. */
  method TakeTitle(track: Track, multi: Multi, v: Titled) returns (multi': Multi)
    modifies track`title, track`artist
    ensures (track.Value(), multi') == AddTrackTitle(old(track.Value()), multi, v)
  {
    multi' := multi;
    match v
    case Only(x) =>
      track.AppendTitle(x);
    case Both(a, x) =>
      track.artist := track.title;
      track.title := None;
      track.AppendArtist(a);
      track.AppendTitle(x);
      multi' := MultiTitle;
  }

  method CaseTrackTitle(d: Disc, at: Control, s: Scan) returns (at': Control, ok: bool)
    requires d.Valid()
    modifies d`extData, d`contents, d.nodes
    ensures d.Valid()
    ensures Agrees(FromTrackTitle(Machine(at, old(d.Value())), s), at', d.Value(), ok)
  {
    if s.ttitle.Some? {
      var (n, v) := s.ttitle.value;
      var track := d.GetTrack(n);
      if track == null {
        return at, false;
      }
      d.Distinct();
      assert d.Linked(n);
      var multi := at.multi;
      if n != at.oldNo {
        multi := MultiArtist;
        track.ClearNames();
      }
      multi := TakeTitle(track, multi, v);
      forall k | 0 <= k < |d.spine| && k != n ensures d.Linked(k) {
        assert old(d.Linked(k));
      }
      d.Refresh(n, track);
      return Control(TrackTitle, multi, n, n), true;
    }
    at', ok := CaseDiscExt(d, at.(multi := NoMulti, oldNo := -1), s);
  }

  method CaseGenre(d: Disc, at: Control, s: Scan) returns (at': Control, ok: bool)
    requires d.Valid()
    modifies d`genre, d`extData, d`contents, d.nodes
    ensures d.Valid()
    ensures Agrees(FromGenre(Machine(at, old(d.Value())), s), at', d.Value(), ok)
  {
    if s.genre.Some? {
      d.genre := s.genre;
      return at.(state := TrackTitle), true;
    }
    at', ok := CaseTrackTitle(d, at, s);
  }

  method CaseYear(d: Disc, at: Control, s: Scan) returns (at': Control, ok: bool)
    requires d.Valid()
    modifies d`year, d`genre, d`extData, d`contents, d.nodes
    ensures d.Valid()
    ensures Agrees(FromYear(Machine(at, old(d.Value())), s), at', d.Value(), ok)
  {
    if s.year.Some? {
      d.year := s.year.value;
      return at.(state := DiscGenre), true;
    }
    at', ok := CaseGenre(d, at, s);
  }

  /** The part of the disc title label that changes the disc. */
  method TakeDiscTitle(d: Disc, multi: Multi, v: Titled) returns (multi': Multi)
    modifies d`title, d`artist
    ensures (d.Value(), multi') == AddDiscTitle(old(d.Value()), multi, v)
  {
    match v
    case Both(a, x) =>
      d.AppendArtist(a);
      d.AppendTitle(x);
      multi' := MultiTitle;
    case Only(x) =>
      if multi != MultiTitle {
        d.AppendArtist(x);
        multi' := MultiArtist;
      } else {
        d.AppendTitle(x);
        multi' := multi;
      }
  }

  method CaseDiscTitle(d: Disc, at: Control, s: Scan) returns (at': Control, ok: bool)
    requires d.Valid()
    modifies d`title, d`artist, d`year, d`genre, d`extData, d`contents, d.nodes
    ensures d.Valid()
    ensures Agrees(FromDiscTitle(Machine(at, old(d.Value())), s), at', d.Value(), ok)
  {
    if s.dtitle.Some? {
      if at.multi == NoMulti {
        d.artist := None;
        d.title := None;
      }
      var multi := TakeDiscTitle(d, at.multi, s.dtitle.value);
      return at.(multi := multi), true;
    }
    if at.multi == NoMulti {
      return at, true;
    }
    if d.artist != None && d.title == None {
      d.title := d.artist;
    }
    at', ok := CaseYear(d, at.(multi := NoMulti), s);
  }

  method CaseRevision(d: Disc, at: Control, s: Scan) returns (at': Control, ok: bool)
    requires d.Valid()
    modifies d`revision
    ensures Agrees(FromRevision(Machine(at, old(d.Value())), s), at', d.Value(), ok)
  {
    at', ok := at, true;
    if s.revision.Some? {
      d.revision := s.revision.value;
      at' := at.(state := DiscTitle);
    }
  }

  method CaseLength(d: Disc, at: Control, s: Scan) returns (at': Control, ok: bool)
    requires d.Valid()
    modifies d`length
    ensures Agrees(FromLength(Machine(at, old(d.Value())), s), at', d.Value(), ok)
  {
    at', ok := at, true;
    if s.length.Some? {
      d.length := s.length.value;
      at' := at.(state := DiscRevision);
    }
  }

  method ChangeOffset(d: Disc, ghost i: nat, track: Track, offset: int)
    requires d.Valid() && i < |d.spine| && track == d.spine[i]
    modifies track`frameOffset, d`contents
    ensures d.Valid() && d.contents == old(d.contents)[i := old(d.contents[i]).(frameOffset := offset)]
  {
    d.Distinct();
    assert d.Linked(i);
    track.frameOffset := offset;
    forall k | 0 <= k < |d.spine| && k != i ensures d.Linked(k) {
      assert old(d.Linked(k));
    }
    d.Refresh(i, track);
  }

  /** Finds or makes the track at a position and sets its offset. */
  method PutOffset(d: Disc, n: nat, offset: int)
    requires d.Valid()
    modifies d`tracks, d`trackCnt, d`spine, d`nodes, d`contents, d.nodes
    ensures d.Valid() && old(d.spine) <= d.spine && fresh(d.nodes - old(d.nodes)) && old(d.nodes) <= d.nodes
    ensures d.contents == SetOffset(old(d.contents), n, offset)
  {
    var track := d.GetTrack(n);
    ghost var i := n;
    if track == null {
      track := new Track();
      d.AddTrack(track);
      i := |d.spine| - 1;
    }
    ChangeOffset(d, i, track, offset);
  }

  method CaseOffsets(d: Disc, at: Control, s: Scan) returns (at': Control, ok: bool)
    requires d.Valid()
    modifies d`length, d`tracks, d`trackCnt, d`spine, d`nodes, d`contents, d.nodes
    ensures d.Valid() && old(d.spine) <= d.spine && fresh(d.nodes - old(d.nodes)) && old(d.nodes) <= d.nodes
    ensures Agrees(FromOffsets(Machine(at, old(d.Value())), s), at', d.Value(), ok)
  {
    if s.offset.Some? {
      PutOffset(d, at.trackNo, s.offset.value);
      return at.(trackNo := at.trackNo + 1), true;
    }
    at', ok := CaseLength(d, at.(state := DiscLength), s);
  }

  method CaseStart(d: Disc, at: Control, s: Scan) returns (at': Control, ok: bool)
    requires d.Valid()
    ensures Agrees(FromStart(Machine(at, d.Value()), s), at', d.Value(), ok)
  {
    at', ok := at, true;
    if s.heading {
      at' := at.(state := TrackOffsets);
    }
  }

  /** One pass through the switch. */
  method Switch(d: Disc, at: Control, s: Scan) returns (at': Control, ok: bool)
    requires d.Valid()
    modifies d`title, d`artist, d`year, d`genre, d`extData, d`revision, d`length, d`tracks, d`trackCnt,
             d`spine, d`nodes, d`contents, d.nodes
    ensures d.Valid() && old(d.spine) <= d.spine && fresh(d.nodes - old(d.nodes)) && old(d.nodes) <= d.nodes
    ensures Agrees(Step(Machine(at, old(d.Value())), s), at', d.Value(), ok)
  {
    match at.state
    case Start => at', ok := CaseStart(d, at, s);
    case TrackOffsets => at', ok := CaseOffsets(d, at, s);
    case DiscLength => at', ok := CaseLength(d, at, s);
    case DiscRevision => at', ok := CaseRevision(d, at, s);
    case DiscTitle => at', ok := CaseDiscTitle(d, at, s);
    case DiscYear => at', ok := CaseYear(d, at, s);
    case DiscGenre => at', ok := CaseGenre(d, at, s);
    case TrackTitle => at', ok := CaseTrackTitle(d, at, s);
    case DiscExt => at', ok := CaseDiscExt(d, at, s);
    case TrackExt => at', ok := CaseTrackExt(d, at, s);
    case PlayOrder => at', ok := CasePlayOrder(d, at, s);
    case EndDot => at', ok := CaseDot(d, at, s);
    case Stop => at', ok := at, true;
  }
}
