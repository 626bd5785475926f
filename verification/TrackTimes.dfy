/** Track lengths and frame offsets (lib/cddb_track.c), and the loop that builds a disc from either of
    them (examples/cd_access.c). */
module TrackTimes {
  import opened CArith
  import opened Records
  import opened Discs

  // --- cddb_track_get_length

  /** The length reported for track i: the stored one, or else the distance to the next track or to the
      end of the disc; -1 if that is not positive. */
  function LengthOf(d: DiscData, i: nat): int
    requires i < |d.tracks|
  {
    var t := d.tracks[i];
    if t.length != -1 then t.length
    else if i + 1 < |d.tracks| then
      var end := d.tracks[i + 1].frameOffset;
      if end > t.frameOffset then FramesToSeconds(end - t.frameOffset) else -1
    else
      var start := FramesToSeconds(t.frameOffset);
      if d.length > start then d.length - start else -1
  }

  /** cddb_track_get_length, for a track of a disc: the answer is remembered in the track. */
  method GetLength(d: Disc, track: Track, ghost i: nat) returns (len: int)
    requires d.Valid() && i < |d.spine| && track == d.spine[i]
    modifies track`length, d`contents
    ensures d.Valid() && len == LengthOf(old(d.Value()), i)
    ensures d.contents == old(d.contents)[i := old(d.contents)[i].(length := len)]
  {
    assert d.Linked(i);
    d.Distinct();
    if track.length == -1 {
      var start := track.frameOffset;
      var next := track.next;
      if next != null {
        assert d.Linked(i + 1);
        var end := next.frameOffset;
        if end > start {
          track.length := FramesToSeconds(end - start);
        }
      } else {
        if track.disc != null {
          start := FramesToSeconds(start);
          var end := track.disc.length;
          if end > start {
            track.length := end - start;
          }
        }
      }
    }
    forall k | 0 <= k < |d.spine| && k != i ensures d.Linked(k) {
      assert old(d.Linked(k));
    }
    d.Refresh(i, track);
    len := track.length;
  }

  /** The lengths of the first n tracks added up. */
  function LengthSum(d: DiscData, n: nat): int
    requires n <= |d.tracks|
  {
    if n == 0 then 0 else LengthSum(d, n - 1) + LengthOf(d, n - 1)
  }

  /** Asking every track for its length, in order. */
  method TotalLength(d: Disc) returns (sum: int)
    requires d.Valid()
    modifies d`iterator_, d`contents, d.nodes
    ensures d.Valid() && sum == LengthSum(old(d.Value()), |old(d.contents)|)
    ensures |d.contents| == |old(d.contents)|
    ensures forall k :: 0 <= k < |d.contents| ==>
      d.contents[k] == old(d.contents)[k].(length := LengthOf(old(d.Value()), k))
  {
    sum := 0;
    ghost var was := d.Value();
    var track := d.GetTrackFirst();
    ghost var i := 0;
    while track != null
      invariant 0 <= i <= |d.spine| && d.Valid()
      invariant d.spine == old(d.spine) && d.nodes == old(d.nodes)
      invariant track == d.iterator_ == if i < |d.spine| then d.spine[i] else null
      invariant sum == LengthSum(was, i)
      invariant |d.contents| == |was.tracks|
      invariant forall k :: i <= k < |d.contents| ==> d.contents[k] == was.tracks[k]
      invariant forall k :: 0 <= k < i ==> d.contents[k] == was.tracks[k].(length := LengthOf(was, k))
      decreases |d.spine| - i
    {
      var len := GetLength(d, track, i);
      sum := sum + len;
      track := d.GetTrackNext(i);
      i := i + 1;
    }
  }

  // --- what the lengths add up to

  /** A disc read from a table of contents: offsets grow, the end lies beyond the last track's first
      second, and no length is known yet. */
  predicate FromToc(d: DiscData)
  {
    && d.tracks != []
    && d.tracks[0].frameOffset >= 0
    && (forall i :: 0 <= i < |d.tracks| ==> d.tracks[i].length == -1)
    && (forall i :: 0 < i < |d.tracks| ==> d.tracks[i - 1].frameOffset < d.tracks[i].frameOffset)
    && d.length > d.tracks[|d.tracks| - 1].frameOffset / 75
  }

  /** How many of the first n tracks (after the first) start at a smaller frame within their second than
      the track before: at each of them a second is lost to truncation. */
  function Carries(ts: seq<TrackData>, n: nat): (c: nat)
    requires n <= |ts|
    ensures c <= if n == 0 then 0 else n - 1
  {
    if n <= 1 then 0
    else Carries(ts, n - 1) +
         if ts[n - 1].frameOffset % 75 < ts[n - 2].frameOffset % 75 then 1 else 0
  }

  lemma {:induction false} OffsetsNat(d: DiscData, i: nat)
    requires FromToc(d) && i < |d.tracks|
    ensures d.tracks[i].frameOffset >= 0
  {
    if i > 0 { OffsetsNat(d, i - 1); }
  }

  lemma {:induction false} PartialSum(d: DiscData, n: nat)
    requires FromToc(d) && n < |d.tracks|
    ensures LengthSum(d, n) == d.tracks[n].frameOffset / 75 - d.tracks[0].frameOffset / 75
                               - Carries(d.tracks, n + 1)
  {
    if n > 0 {
      PartialSum(d, n - 1);
      OffsetsNat(d, n - 1);
      OffsetsNat(d, n);
    }
  }

  /** The lengths of all tracks add up to the playing time that the disc identifier counts, less one
      second for every carry; so they miss it by at most one second per track after the first. */
  lemma LengthsAddUp(d: DiscData)
    requires FromToc(d)
    ensures var n := |d.tracks|; var span := d.length - FramesToSeconds(d.tracks[0].frameOffset);
      && LengthSum(d, n) == span - Carries(d.tracks, n)
      && span - (n - 1) <= LengthSum(d, n) <= span
  {
    var n := |d.tracks|;
    PartialSum(d, n - 1);
    OffsetsNat(d, n - 1);
  }

  // --- cd_create

  /** Track i after cddb_track_set_length. */
  function WithLength(ts: seq<TrackData>, i: nat, length: int): TrackData
    requires i < |ts|
  {
    var t := ts[i].(length := length);
    if length < 0 then ts[i]
    else if ts[i].frameOffset != -1 then t
    else if i == 0 then t.(frameOffset := 150)
    else if ts[i - 1].frameOffset == -1 || ts[i - 1].length == -1 then t
    else t.(frameOffset := ts[i - 1].frameOffset + ts[i - 1].length * FRAMES_PER_SECOND)
  }

  /** A negative length changes nothing, a known offset stays, and an unknown one becomes that where the track before
      ends: frame 150 for the first track, and nothing if the track before is not known itself. */
  lemma LengthSets(ts: seq<TrackData>, i: nat, length: int)
    requires i < |ts|
    ensures var t, r := ts[i], WithLength(ts, i, length);
      && r == t.(length := r.length, frameOffset := r.frameOffset)
      && (length < 0 ==> r == t) && (length >= 0 ==> r.length == length)
      && (t.frameOffset != -1 ==> r.frameOffset == t.frameOffset)
      && (t.frameOffset == -1 && length >= 0 ==>
            && (i == 0 ==> r.frameOffset == 150)
            && (i > 0 && ts[i - 1].frameOffset != -1 && ts[i - 1].length != -1 ==>
                  r.frameOffset == ts[i - 1].frameOffset + 75 * ts[i - 1].length)
            && (i > 0 && (ts[i - 1].frameOffset == -1 || ts[i - 1].length == -1) ==> r.frameOffset == -1))
  {
  }

  /** cddb_track_set_length on the last track of a disc. */
  method SetLength(d: Disc, track: Track, ghost i: nat, length: int)
    requires d.Valid() && i + 1 == |d.spine| && track == d.spine[i]
    modifies track`length, track`frameOffset, d`contents
    ensures d.Valid() && d.contents == old(d.contents)[i := WithLength(old(d.contents), i, length)]
  {
    assert d.Linked(i);
    assert i > 0 ==> d.Linked(i - 1);
    d.Distinct();
    if length >= 0 {
      track.length := length;
      if track.disc != null && track.frameOffset == -1 {
        var prev := track.prev;
        if prev != null {
          if prev.frameOffset != -1 && prev.length != -1 {
            track.frameOffset := prev.frameOffset + prev.length * FRAMES_PER_SECOND;
          }
        } else {
          track.frameOffset := 150;
        }
      }
    }
    forall k | 0 <= k < |d.spine| && k != i ensures d.Linked(k) {
      assert old(d.Linked(k));
    }
    d.Refresh(i, track);
  }

  /** The tracks that cd_create makes out of the first n numbers. */
  function Created(numbers: seq<int>, n: nat, useTime: bool): (ts: seq<TrackData>)
    requires n <= |numbers|
    ensures |ts| == n
  {
    if n == 0 then [] else
      var ts := Created(numbers, n - 1, useTime) + [NEW_TRACK];
      var t := if useTime then WithLength(ts, n - 1, numbers[n - 1])
               else NEW_TRACK.(frameOffset := numbers[n - 1]);
      ts[n - 1 := t]
  }

  /** cddb_track_set_frame_offset */
  method SetFrameOffset(d: Disc, track: Track, ghost i: nat, offset: int)
    requires d.Valid() && i < |d.spine| && track == d.spine[i]
    modifies track`frameOffset, d`contents
    ensures d.Valid() && d.contents == old(d.contents)[i := old(d.contents[i]).(frameOffset := offset)]
  {
    assert d.Linked(i);
    d.Distinct();
    track.frameOffset := offset;
    forall k | 0 <= k < |d.spine| && k != i ensures d.Linked(k) {
      assert old(d.Linked(k));
    }
    d.Refresh(i, track);
  }

  method AddNewTrack(d: Disc) returns (track: Track)
    requires d.Valid()
    modifies d`tracks, d`trackCnt, d`spine, d`nodes, d`contents, d.nodes
    ensures d.Valid() && fresh(d.nodes - old(d.nodes)) && |d.spine| == |old(d.spine)| + 1
    ensures track == d.spine[|old(d.spine)|] && d.contents == old(d.contents) + [NEW_TRACK]
  {
    track := new Track();
    d.AddTrack(track);
  }

  /** One round of cd_create. */
  method AddNumber(disc: Disc, ghost numbers: seq<int>, i: nat, number: int, useTime: bool)
    requires disc.Valid() && i < |numbers| && number == numbers[i]
    requires disc.contents == Created(numbers, i, useTime)
    modifies disc`tracks, disc`trackCnt, disc`spine, disc`nodes, disc`contents, disc.nodes
    ensures disc.Valid() && fresh(disc.nodes - old(disc.nodes))
    ensures disc.contents == Created(numbers, i + 1, useTime)
  {
    hide Disc.Linked, WithLength;
    var track := AddNewTrack(disc);
    if useTime {
      SetLength(disc, track, i, number);
    } else {
      SetFrameOffset(disc, track, i, number);
    }
  }

  /** cd_create */
  method Create(dlength: nat, tcount: nat, foffset: array<int>, useTime: bool) returns (disc: Disc)
    requires tcount <= foffset.Length
    ensures fresh(disc) && disc.Valid()
    ensures disc.Value() == NEW_DISC.(length := dlength, tracks := Created(foffset[..], tcount, useTime))
  {
    hide Disc.Linked;
    disc := new Disc();
    disc.length := dlength;
    for i := 0 to tcount
      invariant disc.Valid() && fresh(disc.nodes)
      invariant disc.Fields() == NEW_DISC.(length := dlength)
      invariant disc.contents == Created(foffset[..], i, useTime)
    {
      AddNumber(disc, foffset[..], i, foffset[i], useTime);
    }
  }

  // --- lengths that are known

  /** A length that is stored is the one that is reported, whatever the offsets and the disc length are. */
  lemma StoredIsReported(d: DiscData, i: nat)
    requires i < |d.tracks| && d.tracks[i].length != -1
    ensures LengthOf(d, i) == d.tracks[i].length
  {
  }

  /** Once a length was reported, no later change of offsets or of the disc length changes it. */
  method LengthStays(d: Disc, i: nat, changes: seq<(nat, int)>, length: nat) returns (len: int, again: int)
    requires d.Valid() && i < |d.spine| && forall c :: c in changes ==> c.0 < |d.spine|
    modifies d`length, d`contents, d.nodes
    ensures d.Valid() && d.length == length && |d.contents| == |old(d.contents)|
    ensures len == LengthOf(old(d.Value()), i)
    ensures len != -1 ==> again == len
    ensures forall k :: 0 <= k < |changes| && (forall l :: k < l < |changes| ==> changes[l].0 != changes[k].0) ==>
      d.contents[changes[k].0].frameOffset == changes[k].1
  {
    hide Disc.Linked;
    var track := d.GetTrack(i);
    len := GetLength(d, track, i);
    for k := 0 to |changes|
      invariant d.Valid() && d.spine == old(d.spine) && d.nodes == old(d.nodes) && d.contents[i].length == len
      invariant |d.contents| == |old(d.contents)|
      invariant forall j :: 0 <= j < k && (forall l :: j < l < k ==> changes[l].0 != changes[j].0) ==>
        d.contents[changes[j].0].frameOffset == changes[j].1
    {
      assert changes[k] in changes;
      var other := d.GetTrack(changes[k].0);
      SetFrameOffset(d, other, changes[k].0, changes[k].1);
    }
    d.length := length;
    again := GetLength(d, track, i);
  }

  // --- times to offsets and back

  function Sum(times: seq<int>, n: nat): int
    requires n <= |times|
  {
    if n == 0 then 0 else Sum(times, n - 1) + times[n - 1]
  }

  predicate Times(times: seq<int>)
  {
    forall i :: 0 <= i < |times| ==> times[i] >= 0
  }

  /** One more time: the tracks so far stay, and the new one starts where the last one ends. */
  lemma OneMoreTime(times: seq<int>, n: nat)
    requires n < |times| && times[n] >= 0
    ensures var before, after := Created(times, n, true), Created(times, n + 1, true);
      && after[..n] == before && after[n].length == times[n]
      && (n == 0 ==> after[n].frameOffset == 150)
      && (n > 0 && before[n - 1].frameOffset >= 0 && before[n - 1].length >= 0 ==>
            after[n].frameOffset == before[n - 1].frameOffset + 75 * before[n - 1].length)
  {
    var before := Created(times, n, true);
    var ts := before + [NEW_TRACK];
    assert ts[..n] == before && (n > 0 ==> ts[n - 1] == before[n - 1]);
  }

  lemma {:induction false} SumNat(times: seq<int>, n: nat)
    requires n <= |times| && Times(times)
    ensures Sum(times, n) >= 0
  {
    if n > 0 { SumNat(times, n - 1); }
  }

  /** The first track starts at frame 150, and every other one where the ones before it end. */
  lemma {:induction false} TimesGiveOffsets(times: seq<int>, n: nat)
    requires n <= |times| && Times(times)
    ensures forall i :: 0 <= i < n ==>
      && Created(times, n, true)[i].length == times[i]
      && Created(times, n, true)[i].frameOffset == 150 + 75 * Sum(times, i)
  {
    hide Created;
    if n > 0 {
      TimesGiveOffsets(times, n - 1);
      OneMoreTime(times, n - 1);
      var before, after := Created(times, n - 1, true), Created(times, n, true);
      forall i | 0 <= i < n
        ensures after[i].length == times[i] && after[i].frameOffset == 150 + 75 * Sum(times, i)
      {
        SumNat(times, if i == 0 then 0 else i - 1);
        if i < n - 1 { assert after[..n - 1][i] == before[i]; }
      }
    }
  }

  /** A disc made from times reports each of them, whatever its length is. */
  lemma TimesReported(times: seq<int>, n: nat, d: DiscData, i: nat)
    requires n <= |times| && Times(times) && d.tracks == Created(times, n, true) && i < n
    ensures LengthOf(d, i) == times[i]
  {
    TimesGiveOffsets(times, n);
    hide Created;
    StoredIsReported(d, i);
  }

  /** The offsets of a disc that cd_create made from offsets. */
  lemma {:induction false} CreatedOffsets(offsets: seq<int>, n: nat)
    requires n <= |offsets|
    ensures forall i :: 0 <= i < n ==>
      Created(offsets, n, false)[i] == NEW_TRACK.(frameOffset := offsets[i])
  {
    if n > 0 { CreatedOffsets(offsets, n - 1); }
  }

  lemma WholeSeconds(t: int)
    ensures FramesToSeconds(75 * t) == t
    ensures t >= 0 ==> FramesToSeconds(150 + 75 * t) == 2 + t
  {
  }

  /** The length that follows from offsets which follow from times. */
  lemma OneTimeBack(d: DiscData, i: nat, start: int, time: nat)
    requires i < |d.tracks| && start >= 0 && d.tracks[i] == NEW_TRACK.(frameOffset := 150 + 75 * start)
    requires i + 1 < |d.tracks| ==> d.tracks[i + 1].frameOffset == 150 + 75 * (start + time)
    requires i + 1 == |d.tracks| ==> d.length == 2 + start + time
    ensures LengthOf(d, i) == time <==> time > 0
  {
    WholeSeconds(time);
    WholeSeconds(start);
    assert 150 + 75 * (start + time) - (150 + 75 * start) == 75 * time;
    hide FramesToSeconds;
  }

  /** Where the tracks of a disc start that was made from the offsets of one made from times. */
  lemma OffsetsOfTimes(times: seq<int>, offsets: seq<int>, i: nat)
    requires Times(times) && |offsets| == |times| && i < |times|
    requires forall k :: 0 <= k < |times| ==> offsets[k] == Created(times, |times|, true)[k].frameOffset
    ensures Created(offsets, |offsets|, false)[i] == NEW_TRACK.(frameOffset := 150 + 75 * Sum(times, i))
  {
    hide Created, Sum;
    TimesGiveOffsets(times, |times|);
    CreatedOffsets(offsets, |offsets|);
  }

  /** A disc made from times, and one made from nothing but the offsets of the first and its length:
      a track of the second reports the time it was given exactly when that time is not zero. */
  lemma TimesComeBack(times: seq<int>, offsets: seq<int>, d: DiscData, i: nat)
    requires Times(times) && |offsets| == |times| && i < |times|
    requires forall k :: 0 <= k < |times| ==>
      offsets[k] == Created(times, |times|, true)[k].frameOffset
    requires d.tracks == Created(offsets, |offsets|, false)
    requires d.length == 2 + Sum(times, |times|)
    ensures LengthOf(d, i) == times[i] <==> times[i] > 0
  {
    hide LengthOf, Created;
    var n := |times|;
    SumNat(times, i);
    assert Sum(times, i + 1) == Sum(times, i) + times[i];
    OffsetsOfTimes(times, offsets, i);
    if i + 1 < n { OffsetsOfTimes(times, offsets, i + 1); }
    OneTimeBack(d, i, Sum(times, i), times[i]);
  }
}
