/** The disc identifier (cddb_disc_calc_discid) against the algorithm of Appendix A of the freedb
    howto. */
module DiscId {
  import opened Text
  import opened CArith
  import opened Records
  import opened Discs

  /** The decimal digits of t added up, as the do-while loop does it. */
  function DigitSum(t: int): int
    decreases if t < 0 then -t else t
  {
    var rest := Div(t, 10);
    Mod(t, 10) + if rest == 0 then 0 else DigitSum(rest)
  }

  /** The digit sums of the starting seconds of all tracks. */
  function StartSum(ts: seq<TrackData>): int
  {
    if ts == [] then 0
    else StartSum(ts[..|ts| - 1]) + DigitSum(FramesToSeconds(ts[|ts| - 1].frameOffset))
  }

  /** Playing time from the start of the first track, as the identifier counts it. */
  function Span(d: DiscData): int
    requires d.tracks != []
  {
    d.length - FramesToSeconds(d.tracks[0].frameOffset)
  }

  /** `sum % 0xff << 24 | span << 8 | count`, cut to 32 bits. */
  function Pack(sum: int, span: int, count: nat): Word
  {
    Wrap(Or(Or(Wrap(Mod(sum, 255) * 0x100_0000), Wrap(span * 0x100)), count))
  }

  function IdOf(d: DiscData): Word
  {
    if d.tracks == [] then 0 else Pack(StartSum(d.tracks), Span(d), |d.tracks|)
  }

  /** The inner loop of cddb_disc_calc_discid: the digits of a starting second. */
  method AddDigits(result: int, start: int) returns (sum: int)
    ensures sum == result + DigitSum(start)
  {
    sum := result + Mod(start, 10);
    var tmp := Div(start, 10);
    while tmp != 0
      invariant sum + (if tmp == 0 then 0 else DigitSum(tmp)) == result + DigitSum(start)
      decreases if tmp < 0 then -tmp else tmp
    {
      sum := sum + Mod(tmp, 10);
      tmp := Div(tmp, 10);
    }
  }

  /** cddb_disc_calc_discid */
  method CalcDiscid(d: Disc)
    requires d.Valid()
    modifies d`discid, d`iterator_
    ensures d.Value() == old(d.Value()).(discid := IdOf(old(d.Value())))
  {
    hide DigitSum, Pack, Disc.Linked;
    var result := 0;
    var track := d.GetTrackFirst();
    var first := track;
    ghost var i := 0;
    while track != null
      invariant 0 <= i <= |d.spine|
      invariant track == d.iterator_ == if i < |d.spine| then d.spine[i] else null
      invariant first == if d.spine == [] then null else d.spine[0]
      invariant result == StartSum(d.contents[..i])
      decreases |d.spine| - i
    {
      d.TrackAt(i);
      result := AddDigits(result, FramesToSeconds(track.frameOffset));
      assert d.contents[..i + 1][..i] == d.contents[..i];
      track := d.GetTrackNext(i);
      i := i + 1;
    }
    assert d.contents[..i] == d.contents;
    if first == null {
      d.discid := 0;
    } else {
      d.TrackAt(0);
      d.discid := Pack(result, d.length - FramesToSeconds(first.frameOffset), d.trackCnt);
    }
  }

  // --- what the packed fields hold

  lemma {:induction false} DigitSumNat(t: nat)
    ensures DigitSum(t) >= 0
  {
    if t >= 10 { DigitSumNat(t / 10); }
  }

  lemma {:induction false} StartSumNat(ts: seq<TrackData>)
    requires forall i :: 0 <= i < |ts| ==> ts[i].frameOffset >= 0
    ensures StartSum(ts) >= 0
  {
    if ts != [] {
      StartSumNat(ts[..|ts| - 1]);
      DigitSumNat(FramesToSeconds(ts[|ts| - 1].frameOffset));
    }
  }

  /** Fields that fit their bits are laid side by side. */
  lemma PackIsSum(sum: nat, span: nat, count: nat)
    requires span < 0x1_0000 && count < 0x100
    ensures Pack(sum, span, count) == sum % 255 * 0x100_0000 + span * 0x100 + count
  {
    hide Or;
    var a := sum % 255;
    assert Mod(sum, 255) == a;
    OrFields(a, span, count);
  }

  lemma FieldsReadBack(a: nat, b: nat, c: nat)
    requires a < 0x100 && b < 0x1_0000 && c < 0x100
    ensures var id := a * 0x100_0000 + b * 0x100 + c;
      id / 0x100_0000 == a && id / 0x100 % 0x1_0000 == b && id % 0x100 == c
  {
    var id := a * 0x100_0000 + b * 0x100 + c;
    assert id == 0x100_0000 * a + (b * 0x100 + c);
    assert id == 0x100 * (a * 0x1_0000 + b) + c;
  }

  /** The three fields can be read back from the identifier exactly when the span and the number of
      tracks fit their bits. */
  lemma IdUnpacks(d: DiscData)
    requires d.tracks != []
    requires forall i :: 0 <= i < |d.tracks| ==> d.tracks[i].frameOffset >= 0
    ensures var id := IdOf(d);
      (id / 0x100_0000 == StartSum(d.tracks) % 255 && id / 0x100 % 0x1_0000 == Span(d)
        && id % 0x100 == |d.tracks|)
      <==> 0 <= Span(d) < 0x1_0000 && |d.tracks| < 0x100
  {
    hide Pack;
    StartSumNat(d.tracks);
    var sum, span, count := StartSum(d.tracks), Span(d), |d.tracks|;
    if 0 <= span < 0x1_0000 && count < 0x100 {
      PackIsSum(sum, span, count);
      FieldsReadBack(sum % 255, span, count);
    }
  }

  // --- Appendix A of the howto

  /** An entry of the table of contents. */
  datatype Msf = Msf(min: nat, sec: nat, frame: nat)

  predicate IsMsf(e: Msf) { e.sec < 60 && e.frame < 75 }

  /** cddb_sum */
  function CddbSum(n: nat): nat
  {
    if n == 0 then 0 else n % 10 + CddbSum(n / 10)
  }

  function TocSum(toc: seq<Msf>): nat
  {
    if toc == [] then 0 else CddbSum(toc[0].min * 60 + toc[0].sec) + TocSum(toc[1..])
  }

  /** cddb_discid: the last entry is the lead-out. */
  function CddbDiscid(toc: seq<Msf>): Word
    requires |toc| >= 2
  {
    var n := TocSum(toc[..|toc| - 1]);
    var t := toc[|toc| - 1].min * 60 + toc[|toc| - 1].sec - (toc[0].min * 60 + toc[0].sec);
    Wrap(Or(Or(n % 255 * 0x100_0000, Wrap(t * 0x100)), |toc| - 1))
  }

  function FrameOf(e: Msf): nat
  {
    (e.min * 60 + e.sec) * 75 + e.frame
  }

  lemma {:induction false} DigitSumIsCddbSum(n: nat)
    ensures DigitSum(n) == CddbSum(n)
  {
    if n >= 10 { DigitSumIsCddbSum(n / 10); } else { assert CddbSum(n / 10) == 0; }
  }

  /** d is the disc that a table of contents describes. */
  ghost predicate Describes(toc: seq<Msf>, d: DiscData)
  {
    && |toc| == |d.tracks| + 1 >= 2
    && (forall i :: 0 <= i < |toc| ==> IsMsf(toc[i]))
    && (forall i :: 0 <= i < |d.tracks| ==> d.tracks[i].frameOffset == FrameOf(toc[i]))
    && d.length == FrameOf(toc[|toc| - 1]) / 75
  }

  lemma {:induction false} TocSumLast(toc: seq<Msf>, e: Msf)
    ensures TocSum(toc + [e]) == TocSum(toc) + CddbSum(e.min * 60 + e.sec)
  {
    if toc == [] {
      assert toc + [e] == [e];
    } else {
      assert (toc + [e])[1..] == toc[1..] + [e];
      TocSumLast(toc[1..], e);
    }
  }

  lemma {:induction false} StartSumIsTocSum(toc: seq<Msf>, ts: seq<TrackData>)
    requires |toc| == |ts|
    requires forall i :: 0 <= i < |ts| ==> IsMsf(toc[i]) && ts[i].frameOffset == FrameOf(toc[i])
    ensures StartSum(ts) == TocSum(toc)
  {
    if ts != [] {
      var n := |ts| - 1;
      StartSumIsTocSum(toc[..n], ts[..n]);
      TocSumLast(toc[..n], toc[n]);
      assert toc == toc[..n] + [toc[n]];
      assert FramesToSeconds(FrameOf(toc[n])) == toc[n].min * 60 + toc[n].sec;
      DigitSumIsCddbSum(toc[n].min * 60 + toc[n].sec);
    }
  }

  lemma StartSecond(e: Msf)
    requires IsMsf(e)
    ensures FramesToSeconds(FrameOf(e)) == FrameOf(e) / 75 == e.min * 60 + e.sec
  {
  }

  lemma PackNat(sum: nat, span: int, count: nat)
    ensures Pack(sum, span, count) == Wrap(Or(Or(sum % 255 * 0x100_0000, Wrap(span * 0x100)), count))
  {
    hide Or;
    assert Mod(sum, 255) == sum % 255;
  }

  /** The library computes the identifier of the howto, for every table of contents. */
  lemma IdIsCddbDiscid(toc: seq<Msf>, d: DiscData)
    requires Describes(toc, d)
    ensures IdOf(d) == CddbDiscid(toc)
  {
    hide Or, Wrap, Pack, DigitSum, CddbSum, StartSum, TocSum, FrameOf, FramesToSeconds;
    var n := |d.tracks|;
    StartSumIsTocSum(toc[..n], d.tracks);
    StartSecond(toc[0]);
    StartSecond(toc[n]);
    PackNat(TocSum(toc[..n]), Span(d), n);
  }
}
