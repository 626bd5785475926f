/** When the hand-computed lengths of the writer are right. */
module WriterSizes {
  import opened Text
  import opened Records
  import opened Writer

  predicate Exact(p: Piece) { p.declared == |p.text| }

  predicate AllExact(ps: seq<Piece>)
  {
    forall k :: 0 <= k < |ps| ==> Exact(ps[k])
  }

  /** Every number fits the columns that its length allows for. */
  predicate InWidths(d: DiscData)
  {
    && (forall i :: 0 <= i < |d.tracks| ==> -1000_0000 < d.tracks[i].frameOffset < 1_0000_0000)
    && d.length < 100_0000 && d.revision < 1_0000_0000
    && (d.year == 0 || 1000 <= d.year < 1_0000)
  }

  lemma Powers10()
    ensures Pow10(3) == 1000 && Pow10(4) == 1_0000 && Pow10(6) == 100_0000
    ensures Pow10(7) == 1000_0000 && Pow10(8) == 1_0000_0000
  {
    assert Pow10(3) == 10 * Pow10(2) == 100 * Pow10(1);
    assert Pow10(6) == 10 * Pow10(5) == 100 * Pow10(4);
  }

  lemma OffsetExact(offset: int)
    ensures Exact(OffsetPiece(offset)) <==> -1000_0000 < offset < 1_0000_0000
  {
    Powers10();
    if offset >= 0 { DecimalWidth(offset, 8); } else { DecimalWidth(-offset, 7); }
  }

  lemma LengthExact(length: nat)
    ensures |Padded(6, length)| == 6 <==> length < 100_0000
  {
    Powers10();
    DecimalWidth(length, 6);
  }

  lemma RevisionExact(revision: nat)
    ensures |Padded(8, revision)| == 8 <==> revision < 1_0000_0000
  {
    Powers10();
    DecimalWidth(revision, 8);
  }

  lemma YearExact(year: nat)
    ensures Exact(YearPiece(year)) <==> year == 0 || 1000 <= year < 1_0000
  {
    Powers10();
    DecimalWidth(year, 4);
    DecimalWidth(year, 3);
  }

  lemma {:induction false} FewDigits(m: nat)
    requires m >= 2
    ensures |Decimal(m)| < m
  {
    if m >= 20 { FewDigits(m / 10); }
  }

  /** The width of an index is right up to 19 and too large from 20 on. */
  lemma IndexExact(i: nat)
    ensures IndexWidth(i) >= |Decimal(i)|
    ensures IndexWidth(i) == |Decimal(i)| <==> i < 20
    ensures 20 <= i < 30 ==> IndexWidth(i) == |Decimal(i)| + 1
  {
    if i >= 10 {
      assert |Decimal(i)| == |Decimal(i / 10)| + 1;
      if i >= 20 { FewDigits(i / 10); }
    }
  }

  lemma TitleExact(i: nat, t: TrackData)
    requires t.title.Some?
    ensures TitlePiece(i, t).declared - |TitlePiece(i, t).text| == IndexWidth(i) - |Decimal(i)|
  {
  }

  lemma ExtTExact(i: nat, t: TrackData)
    ensures ExtTPiece(i, t).declared - |ExtTPiece(i, t).text| == IndexWidth(i) - |Decimal(i)|
  {
  }

  lemma MiddleExact(d: DiscData, cname: string, cversion: string)
    requires Writable(d)
    ensures AllExact(MiddlePieces(d, cname, cversion)) <==>
            d.length < 100_0000 && d.revision < 1_0000_0000 && (d.year == 0 || 1000 <= d.year < 1_0000)
  {
    LengthExact(d.length);
    RevisionExact(d.revision);
    YearExact(d.year);
    var ms := MiddlePieces(d, cname, cversion);
    hide YearPiece, Padded, Hex8, GenreText;
    assert Exact(ms[0]) <==> |Padded(6, d.length)| == 6;
    assert Exact(ms[1]) <==> |Padded(8, d.revision)| == 8;
    assert Exact(ms[2]) && Exact(ms[3]) && Exact(ms[4]) && Exact(ms[6]);
    assert ms[5] == YearPiece(d.year);
  }

  lemma ExactAppend(a: seq<Piece>, b: seq<Piece>)
    ensures AllExact(a + b) <==> AllExact(a) && AllExact(b)
  {
    if AllExact(a + b) {
      forall k | 0 <= k < |a| ensures Exact(a[k]) { assert (a + b)[k] == a[k]; }
      forall k | 0 <= k < |b| ensures Exact(b[k]) { assert (a + b)[|a| + k] == b[k]; }
    }
  }

  lemma TracksExact(ts: seq<TrackData>)
    requires forall i :: 0 <= i < |ts| ==> ts[i].title.Some?
    ensures AllExact(TitlePieces(ts)) <==> |ts| <= 20
    ensures AllExact(ExtTPieces(ts)) <==> |ts| <= 20
    ensures AllExact(OffsetPieces(ts)) <==>
            forall i :: 0 <= i < |ts| ==> -1000_0000 < ts[i].frameOffset < 1_0000_0000
  {
    var a, b, c := TitlePieces(ts), ExtTPieces(ts), OffsetPieces(ts);
    hide TitlePiece, ExtTPiece, OffsetPiece, TitlePieces, ExtTPieces, OffsetPieces, IndexWidth;
    forall i | 0 <= i < |ts|
      ensures (Exact(a[i]) <==> i < 20) && (Exact(b[i]) <==> i < 20)
      ensures Exact(c[i]) <==> -1000_0000 < ts[i].frameOffset < 1_0000_0000
    {
      IndexExact(i);
      TitleExact(i, ts[i]);
      ExtTExact(i, ts[i]);
      OffsetExact(ts[i].frameOffset);
    }
    if |ts| > 20 { assert !Exact(a[20]) && !Exact(b[20]); }
  }

  /** Every declared length equals the printed length exactly when the numbers fit their columns and
      there are at most 20 tracks. */
  lemma SizesExact(d: DiscData, cname: string, cversion: string)
    requires Writable(d)
    ensures AllExact(Pieces(d, cname, cversion)) <==> InWidths(d) && |d.tracks| <= 20
  {
    var a, b, c, e := HeadPieces(), OffsetPieces(d.tracks), MiddlePieces(d, cname, cversion), TitlePieces(d.tracks);
    var f, g, h := [ExtDPiece(d)], ExtTPieces(d.tracks), [OrderPiece()];
    assert AllExact(a) && AllExact(f) && AllExact(h);
    MiddleExact(d, cname, cversion);
    TracksExact(d.tracks);
    hide AllExact;
    ExactAppend(a, b);
    ExactAppend(a + b, c);
    ExactAppend(a + b + c, e);
    ExactAppend(a + b + c + e, f);
    ExactAppend(a + b + c + e + f, g);
    ExactAppend(a + b + c + e + f + g, h);
  }
}
