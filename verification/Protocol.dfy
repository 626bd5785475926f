/** What the commands of lib/cddb_cmd.c make of the lines they read: records taken from a stream, response
    codes, and the lists of matches that a query returns. */
module Protocol {
  import opened Text
  import opened Records
  import opened Patterns
  import opened Discs
  import opened Streams
  import opened Parser
  import opened CArith
  import ResultList

  // --- records

  /** A record taken from a stream: whether it was accepted, the disc it makes, what is left of the
      stream, and the lines that were read, as they are saved. */
  datatype Parsed = Parsed(ok: bool, disc: DiscData, rest: string, saved: string)

  function ParseStream(d: DiscData, s: string, size: nat): Parsed
    requires size >= 2
  {
    var lines, m := LinesOf(s, size), Machine(INITIAL, d);
    var u := Used(m, lines);
    Parsed(Run(m, lines).ok, Run(m, lines).disc, Rest(s, size, u), Save(lines[..u]))
  }

  // --- response codes

  predicate IsSpace(c: char) { c == ' ' || '\t' <= c <= '\r' }

  function DropSpaces(s: string): string
  {
    if s != "" && IsSpace(s[0]) then DropSpaces(s[1..]) else s
  }

  /** The number that `sscanf(s, "%d", ...)` finds. */
  function ScanInt(s: string): Option<int>
  {
    var t := DropSpaces(s);
    var signed := t != "" && (t[0] == '-' || t[0] == '+');
    var d := TakeDigits(if signed then t[1..] else t);
    if d == "" then None
    else
      var n: int := DecimalValue(d);
      Some(if signed && t[0] == '-' then -n else n)
  }

  /** What follows the first space. */
  function AfterSpace(s: string): Str
  {
    if s == "" then None else if s[0] == ' ' then Some(s[1..]) else AfterSpace(s[1..])
  }

  /** The code of a response and its message; -1 when there is no proper response. */
  function ResponseOf(line: Str): (int, string)
  {
    match line
    case None => (-1, "")
    case Some(l) =>
      if ScanInt(l).None? || AfterSpace(l).None? then (-1, "") else (ScanInt(l).value, AfterSpace(l).value)
  }

  /** One response read from a stream: its code, its message and what is left. */
  datatype Answer = Answer(code: int, msg: string, rest: string)

  function AnswerOf(s: string, size: nat): Answer
    requires size >= 2
  {
    match NextLine(s, size)
    case None => Answer(-1, "", s)
    case Some((l, rest)) => Answer(ResponseOf(Some(l)).0, ResponseOf(Some(l)).1, rest)
  }

  lemma {:induction false} AfterSpaceExact(s: string, before: string, msg: string)
    requires s == before + (" " + msg) && ' ' !in before
    ensures AfterSpace(s) == Some(msg)
  {
    if before == "" {
      assert s[1..] == msg;
    } else {
      assert s[1..] == before[1..] + (" " + msg);
      AfterSpaceExact(s[1..], before[1..], msg);
    }
  }

  /** A code and a message with a space between them are taken apart again. */
  lemma ResponseReadsBack(code: nat, msg: string)
    ensures ResponseOf(Some(Decimal(code) + (" " + msg))) == (code, msg)
  {
    var d := Decimal(code);
    var s := d + (" " + msg);
    assert s[0] == d[0];
    TakeDigitsOf(d, " " + msg);
    DecimalReadsBack(code);
    AfterSpaceExact(s, d, msg);
  }

  /** Nothing but white space. */
  ghost predicate White(s: string)
  {
    forall k :: 0 <= k < |s| ==> s[k] in " \t\n\U{0B}\U{0C}\r"
  }

  /** A number in a response: white space, a sign, and digits as far as they go. */
  ghost predicate NumberText(s: string, white: string, sign: string, digits: string, rest: string)
  {
    && White(white) && sign in {"", "+", "-"}
    && digits != "" && AllDigits(digits) && (rest != "" ==> !IsDigit(rest[0]))
    && s == white + (sign + (digits + rest))
  }

  lemma SpaceClass(c: char)
    ensures IsSpace(c) <==> c in " \t\n\U{0B}\U{0C}\r"
  {
  }

  lemma AllSpaces(s: string)
    ensures White(s) <==> forall k :: 0 <= k < |s| ==> IsSpace(s[k])
  {
    forall k | 0 <= k < |s| ensures IsSpace(s[k]) <==> s[k] in " \t\n\U{0B}\U{0C}\r" {
      SpaceClass(s[k]);
    }
  }

  lemma {:induction false} SpacesDropped(s: string) returns (white: string)
    ensures (forall k :: 0 <= k < |white| ==> IsSpace(white[k])) && s == white + DropSpaces(s)
    ensures DropSpaces(s) != "" ==> !IsSpace(DropSpaces(s)[0])
  {
    if s != "" && IsSpace(s[0]) {
      var w := SpacesDropped(s[1..]);
      white := [s[0]] + w;
      assert s == [s[0]] + s[1..];
    } else {
      white := "";
    }
  }

  lemma {:induction false} DropSpacesOf(white: string, rest: string)
    requires (forall k :: 0 <= k < |white| ==> IsSpace(white[k])) && (rest != "" ==> !IsSpace(rest[0]))
    ensures DropSpaces(white + rest) == rest
  {
    if white == "" {
      assert white + rest == rest;
    } else {
      assert (white + rest)[1..] == white[1..] + rest;
      DropSpacesOf(white[1..], rest);
    }
  }

  function IntOf(sign: string, digits: string): int
    requires AllDigits(digits)
  {
    var n: int := DecimalValue(digits);
    if sign == "-" then -n else n
  }

  lemma NumberMatches(s: string, white: string, sign: string, digits: string, rest: string)
    requires NumberText(s, white, sign, digits, rest)
    ensures ScanInt(s) == Some(IntOf(sign, digits))
  {
    hide DecimalValue, DropSpaces, TakeDigits, White;
    var u := digits + rest;
    var t := sign + u;
    AllSpaces(white);
    assert t[0] == if sign == "" then digits[0] else sign[0];
    DropSpacesOf(white, t);
    TakeDigitsOf(digits, rest);
    if sign == "" {
      assert t == u;
    } else {
      assert t[1..] == u;
    }
  }

  lemma SignFound(t: string) returns (sign: string, u: string)
    ensures sign in {"", "+", "-"} && t == sign + u
    ensures u == if t != "" && (t[0] == '-' || t[0] == '+') then t[1..] else t
    ensures sign == "-" <==> t != "" && t[0] == '-'
  {
    sign := if t != "" && t[0] == '-' then "-" else if t != "" && t[0] == '+' then "+" else "";
    u := if t != "" && (t[0] == '-' || t[0] == '+') then t[1..] else t;
  }

  lemma InThree(s: string, white: string, sign: string, u: string, digits: string, rest: string)
    requires s == white + (sign + u) && u == digits + rest
    ensures s == white + (sign + (digits + rest))
  {
  }

  lemma NumberFound(s: string) returns (white: string, sign: string, digits: string, rest: string)
    requires ScanInt(s).Some?
    ensures NumberText(s, white, sign, digits, rest) && ScanInt(s) == Some(IntOf(sign, digits))
  {
    hide DecimalValue, DropSpaces, TakeDigits, IsSpace, White, AllDigits, IsDigit;
    white := SpacesDropped(s);
    var u;
    sign, u := SignFound(DropSpaces(s));
    digits := TakeDigits(u);
    rest := u[|digits|..];
    AllSpaces(white);
    CutAt(u, digits);
    InThree(s, white, sign, u, digits, rest);
  }

  /** A number is found exactly where there is one, with its sign. */
  lemma ScanIntExact(s: string, n: int)
    ensures ScanInt(s) == Some(n) <==>
            exists white, sign, digits, rest ::
              NumberText(s, white, sign, digits, rest) && n == IntOf(sign, digits)
  {
    hide ScanInt, IntOf;
    if ScanInt(s) == Some(n) {
      var white, sign, digits, rest := NumberFound(s);
      assert NumberText(s, white, sign, digits, rest);
    }
    if white, sign, digits, rest :| NumberText(s, white, sign, digits, rest) && n == IntOf(sign, digits) {
      NumberMatches(s, white, sign, digits, rest);
    }
  }

  lemma {:induction false} AfterSpaceNone(s: string)
    ensures AfterSpace(s).None? <==> ' ' !in s
  {
    if s != "" && s[0] != ' ' {
      AfterSpaceNone(s[1..]);
      assert s == [s[0]] + s[1..];
    }
  }

  /** A line without a number at its start, or without a space, is an error and not an answer; so is the end of the
      stream. */
  lemma MalformedIsError(line: Str)
    ensures line == None || ScanInt(line.value).None? || ' ' !in line.value ==> ResponseOf(line) == (-1, "")
    ensures line.Some? && ScanInt(line.value).Some? && ' ' in line.value ==>
      ResponseOf(line).0 == ScanInt(line.value).value
  {
    if line.Some? { AfterSpaceNone(line.value); }
    hide ScanInt;
  }

  // --- lists of matches

  predicate StartsWithDot(line: string) { line != "" && line[0] == '.' }

  const MAX_LONG_LONG := 0x7fff_ffff_ffff_ffff

  /** `strtoll` stops at its largest value; the identifier keeps the low 32 bits. */
  function DiscidOf(digits: string): Word
    requires forall k :: 0 <= k < |digits| ==> IsHexDigit(digits[k])
  {
    Wrap(if HexNumber(digits) < MAX_LONG_LONG then HexNumber(digits) else MAX_LONG_LONG)
  }

  /** An identifier that was printed is read again. */
  lemma DiscidReadsBack(id: Word)
    ensures DiscidOf(Hex8(id)) == id
  {
    hide HexDigits, HexNumber;
    Hex8Reads(id);
  }

  lemma Shift16(x: nat, p: nat, y: nat, v: nat)
    ensures (x * p + y) * 16 + v == x * (16 * p) + (y * 16 + v)
  {
  }

  lemma {:induction false} HexNumberJoin(a: string, b: string)
    requires forall k :: 0 <= k < |a| ==> IsHexDigit(a[k])
    requires forall k :: 0 <= k < |b| ==> IsHexDigit(b[k])
    ensures HexNumber(a + b) == HexNumber(a) * Pow16(|b|) + HexNumber(b)
    decreases |b|
  {
    if b == [] {
      assert a + b == a;
    } else {
      var n := |b| - 1;
      assert (a + b)[..|a + b| - 1] == a + b[..n] && (a + b)[|a + b| - 1] == b[n];
      HexNumberJoin(a, b[..n]);
      hide HexValue, IsHexDigit;
      Shift16(HexNumber(a), Pow16(n), HexNumber(b[..n]), HexValue(b[n]));
    }
  }

  lemma LowWord(n: nat, id: Word)
    ensures var x := n * 0x1_0000_0000 + id;
      Wrap(if x < MAX_LONG_LONG then x else MAX_LONG_LONG) == if n < 0x8000_0000 then id else 0xffff_ffff
  {
  }

  /** Of a longer number the last eight digits count, unless it is too large: then all bits are set. */
  lemma DiscidIsLow(front: string, id: Word)
    requires forall k :: 0 <= k < |front| ==> IsHexDigit(front[k])
    ensures DiscidOf(front + Hex8(id)) == if HexNumber(front) < 0x8000_0000 then id else 0xffff_ffff
  {
    hide HexNumber, HexDigits, Wrap, Pow16, IsHexDigit;
    HexNumberJoin(front, Hex8(id));
    PowersOf16();
    Hex8Reads(id);
    LowWord(HexNumber(front), id);
  }

  predicate HexMatch(q: QueryMatch)
  {
    forall k :: 0 <= k < |q.discid| ==> IsHexDigit(q.discid[k])
  }

  type Match = q: QueryMatch | HexMatch(q) witness QueryMatch("", "", Only(""))

  /** A disc with the data of one match filled in. */
  ghost function Fill(d: DiscData, q: Match): DiscData
  {
    var named := match q.title
      case Both(a, t) => d.(artist := Some(a), title := Some(t))
      case Only(t) => d.(title := Some(t));
    named.(genre := Some(q.category), category := CategoryOf(q.category), discid := DiscidOf(q.discid))
  }

  ghost function Fills(d: DiscData, qs: seq<Match>): (r: seq<DiscData>)
    ensures |r| == |qs| && forall i :: 0 <= i < |qs| ==> r[i] == Fill(d, qs[i])
  {
    seq(|qs|, i requires 0 <= i < |qs| => Fill(d, qs[i]))
  }

  /** How many options come before the first one that is None. */
  function Leading<T>(os: seq<Option<T>>): (n: nat)
    ensures n <= |os| && (forall i :: 0 <= i < n ==> os[i].Some?) && (n < |os| ==> os[n].None?)
  {
    if os == [] || os[0].None? then 0 else 1 + Leading(os[1..])
  }

  function Values<T>(os: seq<Option<T>>, n: nat): (r: seq<T>)
    requires n <= |os| && forall i :: 0 <= i < n ==> os[i].Some?
    ensures |r| == n && forall i :: 0 <= i < n ==> os[i] == Some(r[i])
  {
    seq(n, i requires 0 <= i < n => os[i].value)
  }

  /** The match that a line is, if it is one; a line that starts with a dot is none. */
  function MatchOf(line: string): (q: Option<Match>)
    ensures MatchQuery(line).None? <==> q.None?
    ensures q.Some? ==> MatchQuery(line) == Some(q.value)
    ensures StartsWithDot(line) ==> q.None?
  {
    match MatchQuery(line) case None => None case Some(q) => Some(q)
  }

  function MatchesOf(lines: seq<string>): (os: seq<Option<Match>>)
    ensures |os| == |lines| && forall i :: 0 <= i < |os| ==> os[i] == MatchOf(lines[i])
  {
    seq(|lines|, i requires 0 <= i < |lines| => MatchOf(lines[i]))
  }

  /** The number of matches that a list begins with. */
  function MatchEnd(lines: seq<string>): (n: nat)
    ensures n <= |lines|
  {
    Leading(MatchesOf(lines))
  }

  /** The matches that a list begins with. */
  function Matches(lines: seq<string>): (r: seq<Match>)
    ensures |r| == MatchEnd(lines)
  {
    Values(MatchesOf(lines), MatchEnd(lines))
  }

  /** They are the whole list: what follows them is its dot, or the end of the stream. */
  predicate Complete(lines: seq<string>)
  {
    MatchEnd(lines) < |lines| ==> StartsWithDot(lines[MatchEnd(lines)])
  }

  /** What is left of a stream that began with a list: its matches were read, and the line that ends them. */
  function AfterList(s: string, size: nat): string
    requires size >= 2
  {
    Rest(s, size, MatchEnd(LinesOf(s, size)) + 1)
  }

  /** What is left when a query has read its answer. */
  function AfterAnswer(a: Answer, size: nat): string
    requires size >= 2
  {
    if a.code == 210 || a.code == 211 then AfterList(a.rest, size) else a.rest
  }

  /** At the end of the stream there is nothing left to read. */
  lemma RestAtEnd(s: string, size: nat)
    requires size >= 2
    ensures var n := |LinesOf(s, size)|; Rest(s, size, n) == Rest(s, size, n + 1)
  {
    hide NextLine;
    var n := |LinesOf(s, size)|;
    LineAt(s, size, n);
    RestOneMore(s, size, n);
  }

  lemma LeadingUnique<T>(os: seq<Option<T>>, n: nat)
    requires n <= |os| && (forall i :: 0 <= i < n ==> os[i].Some?) && (n < |os| ==> os[n].None?)
    ensures n == Leading(os)
  {
  }

  /** A disc after the given results were merged into it one by one. */
  function MergeAll(d: DiscData, rs: seq<DiscData>): DiscData
  {
    if rs == [] then d else Merge(MergeAll(d, rs[..|rs| - 1]), rs[|rs| - 1])
  }

  /** The end of a query or a search that found something: the iterator is put on the first result, and that is merged
      into the caller's disc. */
  method MergeFirst(results: ResultList.List<Disc>, d: Disc, ghost rs: seq<Disc>, ghost vals: seq<DiscData>)
    requires d.Valid() && results.Valid() && rs == results.Data() != [] && Holds(rs, vals, d) && vals != []
    modifies results`it, d`discid, d`category, d`year, d`length, d`revision, d`genre, d`title, d`artist, d`extData,
             d`tracks, d`trackCnt, d`spine, d`nodes, d`contents, d.nodes
    ensures d.Valid() && d.Value() == Merge(old(d.Value()), vals[0]) && Holds(rs, vals, d)
    ensures old(d.spine) <= d.spine && fresh(d.nodes - old(d.nodes)) && old(d.nodes) <= d.nodes
    ensures results.Valid() && results.AtFirst()
  {
    hide Holds, Merge, Disc.Linked, ResultList.List.Linked;
    var first := results.First();
    d.CopyResult(first.data, 0, rs, vals);
  }

  // --- what the caller holds after stepping through the matches

  predicate HasArtist(q: Match) { q.title.Both? }

  predicate HasDiscid(q: Match) { DiscidOf(q.discid) != 0 }

  ghost predicate HasCategory(q: Match) { CategoryOf(q.category) != CAT_INVALID }

  /** One more match merged into a disc that began as d. */
  lemma MergeOne(d: DiscData, p: DiscData, q: Match)
    requires p == d.(discid := p.discid, category := p.category, genre := p.genre, title := p.title, artist := p.artist)
    ensures var m := Merge(p, Fill(d, q));
      && m == d.(discid := m.discid, category := m.category, genre := Some(q.category), title := Fill(d, q).title,
                 artist := m.artist)
      && m.artist == (if HasArtist(q) || d.artist.Some? then Fill(d, q).artist else p.artist)
      && m.discid == (if HasDiscid(q) then DiscidOf(q.discid) else p.discid)
      && m.category == (if HasCategory(q) then CategoryOf(q.category) else p.category)
  {
    hide DiscidOf, CategoryOf;
    assert MergeTracks(d.tracks, d.tracks) == d.tracks;
  }

  lemma FillFields(d: DiscData, q: Match)
    ensures var f := Fill(d, q);
      && f == d.(discid := DiscidOf(q.discid), category := CategoryOf(q.category), genre := Some(q.category),
                 title := f.title, artist := f.artist)
      && (f.artist.Some? <==> d.artist.Some? || HasArtist(q))
      && (HasDiscid(q) <==> DiscidOf(q.discid) != 0) && (HasCategory(q) <==> CategoryOf(q.category) != CAT_INVALID)
  {
    hide DiscidOf, CategoryOf;
  }

  /** What the first k matches have left in the caller's disc. */
  lemma {:induction false} MergedFields(d: DiscData, qs: seq<Match>, k: nat)
    requires k <= |qs|
    ensures var m := MergeAll(d, Fills(d, qs)[..k]);
      && m == d.(discid := m.discid, category := m.category, genre := m.genre, title := m.title, artist := m.artist)
      && (m.artist.Some? <==> d.artist.Some? || exists i :: 0 <= i < k && HasArtist(qs[i]))
      && (m.discid != 0 <==> d.discid != 0 || exists i :: 0 <= i < k && HasDiscid(qs[i]))
      && (m.category != CAT_INVALID <==> d.category != CAT_INVALID || exists i :: 0 <= i < k && HasCategory(qs[i]))
  {
    hide Fill, Merge, HasCategory, HasDiscid;
    var rs := Fills(d, qs);
    if k > 0 {
      var p := MergeAll(d, rs[..k - 1]);
      MergedFields(d, qs, k - 1);
      assert rs[..k][..k - 1] == rs[..k - 1];
      MergeOne(d, p, qs[k - 1]);
      FillFields(d, qs[k - 1]);
    }
  }

  /** The last match stands alone: nothing that it leaves open was set by an earlier one. */
  ghost predicate Settled(d: DiscData, qs: seq<Match>)
    requires qs != []
  {
    var n := |qs| - 1;
    && (HasArtist(qs[n]) || d.artist.Some? || forall i :: 0 <= i < n ==> !HasArtist(qs[i]))
    && (HasDiscid(qs[n]) || (d.discid == 0 && forall i :: 0 <= i < n ==> !HasDiscid(qs[i])))
    && (HasCategory(qs[n]) || (d.category == CAT_INVALID && forall i :: 0 <= i < n ==> !HasCategory(qs[i])))
  }

  /** A caller who has stepped to a match holds exactly that match when it is settled; otherwise an artist,
      an identifier or a category of an earlier match is still there. */
  lemma LatestMatch(d: DiscData, qs: seq<Match>)
    requires qs != []
    ensures MergeAll(d, Fills(d, qs)) == Fill(d, qs[|qs| - 1]) <==> Settled(d, qs)
  {
    hide Fill, Merge, HasCategory, HasDiscid, HasArtist;
    var n := |qs| - 1;
    var rs := Fills(d, qs);
    MergedFields(d, qs, n);
    MergeOne(d, MergeAll(d, rs[..n]), qs[n]);
    FillFields(d, qs[n]);
  }

  // --- commands

  /** The offsets of all tracks as the query command lists them. */
  function OffsetText(ts: seq<TrackData>): string
  {
    if ts == [] then "" else OffsetText(ts[..|ts| - 1]) + Signed(ts[|ts| - 1].frameOffset) + " "
  }

  predicate NoneMissing(ts: seq<TrackData>)
  {
    forall i :: 0 <= i < |ts| ==> ts[i].frameOffset != -1
  }

  lemma {:induction false} OffsetTextGrows(ts: seq<TrackData>, k: nat)
    requires k <= |ts|
    ensures |OffsetText(ts[..k])| <= |OffsetText(ts)|
  {
    if k == |ts| {
      assert ts[..k] == ts;
    } else {
      OffsetTextGrows(ts[..|ts| - 1], k);
      assert ts[..|ts| - 1][..k] == ts[..k];
    }
  }

  function ReadCommand(category: Category, discid: Word): string
  {
    "cddb read " + CategoryName(category) + " " + Hex8(discid) + "\n"
  }

  function QueryCommand(discid: Word, tracks: seq<TrackData>, length: nat): string
  {
    "cddb query " + Hex8(discid) + " " + Decimal(|tracks|) + " " + OffsetText(tracks) + " " + Decimal(length) + "\n"
  }

  function WriteCommand(category: Category, discid: Word): string
  {
    "cddb write " + CategoryName(category) + " " + Hex8(discid) + "\n"
  }
}
