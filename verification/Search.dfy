/** The results of a text search (cddb_parse_search_data and the loop of cddb_search), for result pages whose lines
    are given as the links they hold. */
module Search {
  import opened Text
  import opened Records
  import opened Discs
  import opened Protocol
  import ResultList

  /** What a link shows: both names, one text for both of them, or the number of a duplicate. */
  datatype Label = Named(artist: string, title: string) | Single(text: string) | Duplicate

  datatype Link = Link(category: string, discid: string, shown: Label)

  type HexLink = l: Link | (forall k :: 0 <= k < |l.discid| ==> IsHexDigit(l.discid[k]))
    witness Link("", "", Duplicate)

  /** A disc with the data of one link filled in. */
  ghost function FillLink(d: DiscData, l: HexLink): DiscData
  {
    var named := match l.shown
      case Named(a, t) => d.(artist := Some(a), title := Some(t))
      case Single(x) => d.(artist := Some(x), title := Some(x))
      case Duplicate => d;
    named.(genre := Some(l.category), category := CategoryOf(l.category), discid := DiscidOf(l.discid))
  }

  /** The results as a scan from left to right makes them, each starting from the one before it. */
  ghost function Scanned(d: DiscData, links: seq<HexLink>): (r: seq<DiscData>)
    ensures |r| == |links|
  {
    if links == [] then []
    else
      var before := Scanned(d, links[..|links| - 1]);
      before + [FillLink(if before == [] then d else before[|before| - 1], links[|links| - 1])]
  }

  lemma {:induction false} ScannedMore(d: DiscData, a: seq<HexLink>, b: seq<HexLink>)
    ensures var s := Scanned(d, a);
      Scanned(d, a + b) == s + Scanned(if s == [] then d else s[|s| - 1], b)
  {
    hide FillLink;
    var s := Scanned(d, a);
    if b == [] {
      assert a + b == a;
    } else {
      var n := |b| - 1;
      ScannedMore(d, a, b[..n]);
      assert (a + b)[..|a| + n] == a + b[..n];
    }
  }

  /** The last link before position k that shows a name, or -1. */
  function LastNamed(links: seq<HexLink>, k: nat): (j: int)
    requires k <= |links|
    ensures -1 <= j < k
    ensures j >= 0 ==> !links[j].shown.Duplicate?
    ensures forall i :: j < i < k ==> links[i].shown.Duplicate?
  {
    if k == 0 then -1 else if !links[k - 1].shown.Duplicate? then k - 1 else LastNamed(links, k - 1)
  }

  /** The names that link j gives, or those of d for -1. */
  function NamesOf(d: DiscData, links: seq<HexLink>, j: int): (Str, Str)
    requires -1 <= j < |links|
  {
    if j < 0 then (d.artist, d.title)
    else match links[j].shown
      case Named(a, t) => (Some(a), Some(t))
      case Single(x) => (Some(x), Some(x))
      case Duplicate => (None, None)
  }

  /** d with the category and the identifier of a link, and these names. */
  ghost function Labelled(d: DiscData, l: HexLink, names: (Str, Str)): DiscData
  {
    d.(discid := DiscidOf(l.discid), category := CategoryOf(l.category), genre := Some(l.category),
       artist := names.0, title := names.1)
  }

  lemma FillIsLabel(d: DiscData, last: DiscData, l: HexLink, l0: HexLink, names: (Str, Str))
    requires last == d || last == Labelled(d, l0, names)
    ensures FillLink(last, l) ==
      Labelled(d, l, if l.shown.Duplicate? then (last.artist, last.title) else NamesOf(d, [l], 0))
  {
    hide CategoryOf, DiscidOf;
  }

  lemma LabelNames(d: DiscData, l: HexLink, names: (Str, Str))
    ensures (Labelled(d, l, names).artist, Labelled(d, l, names).title) == names
  {
  }

  lemma {:induction false} LastNamedPrefix(links: seq<HexLink>, n: nat, k: nat)
    requires k <= n <= |links|
    ensures LastNamed(links[..n], k) == LastNamed(links, k)
  {
    if k > 0 { LastNamedPrefix(links, n, k - 1); }
  }

  /** Each result has the category and the identifier of its own link, and the names of the nearest link up to it
      that shows any. */
  lemma {:induction false} NamesInherited(d: DiscData, links: seq<HexLink>, i: nat)
    requires i < |links|
    ensures Scanned(d, links)[i] == Labelled(d, links[i], NamesOf(d, links, LastNamed(links, i + 1)))
    decreases |links|, i
  {
    hide FillLink, Labelled;
    var n := |links| - 1;
    var before := Scanned(d, links[..n]);
    if i < n {
      NamesInherited(d, links[..n], i);
      LastNamedPrefix(links, n, i + 1);
    } else if n > 0 {
      NamesInherited(d, links[..n], n - 1);
      LastNamedPrefix(links, n, n);
      var names := NamesOf(d, links, LastNamed(links, n));
      LabelNames(d, links[n - 1], names);
      FillIsLabel(d, before[n - 1], links[n], links[n - 1], names);
    } else {
      FillIsLabel(d, d, links[0], links[0], (None, None));
    }
  }

  /** What a link says for itself is in its result, and a duplicate repeats the names of the result before it. */
  lemma ResultSays(d: DiscData, links: seq<HexLink>, i: nat, c: Category, id: Word)
    requires i < |links|
    ensures var r, l := Scanned(d, links)[i], links[i];
      && r.genre == Some(l.category)
      && (l.category == CategoryName(c) ==> r.category == c) && (l.discid == Hex8(id) ==> r.discid == id)
      && match l.shown
         case Named(artist, title) => r.artist == Some(artist) && r.title == Some(title)
         case Single(text) => r.artist == Some(text) && r.title == Some(text)
         case Duplicate =>
           var before := if i == 0 then d else Scanned(d, links)[i - 1];
           r.artist == before.artist && r.title == before.title
  {
    NamesInherited(d, links, i);
    if i > 0 { NamesInherited(d, links, i - 1); }
    CategoryOfUnique(c);
    DiscidReadsBack(id);
    hide DiscidOf, CategoryOf, Scanned, Hex8, CategoryName;
  }

  // --- cddb_parse_search_data

  /** Fills the data of one link in. */
  method FillResult(r: Disc, l: HexLink)
    modifies r`genre, r`category, r`discid, r`artist, r`title
    ensures r.Value() == FillLink(old(r.Value()), l)
  {
    hide CategoryOf, DiscidOf;
    r.SetCategoryStr(l.category);
    r.discid := DiscidOf(l.discid);
    match l.shown
    case Named(a, t) =>
      r.artist := Some(a);
      r.title := Some(t);
    case Single(x) =>
      r.artist := Some(x);
      r.title := Some(x);
    case Duplicate =>
  }

  /** What the last result holds; a search starts from a new disc. */
  ghost function LastValue(last: Disc?): DiscData
    reads last
  {
    if last == null then NEW_DISC else last.Value()
  }

  /** The disc for one link: a clone of the last result, with the link filled in. */
  method MakeResult(last: Disc?, l: HexLink) returns (r: Disc)
    requires last != null ==> last.Valid()
    ensures fresh(r) && r.Valid() && fresh(r.nodes) && r.Value() == FillLink(LastValue(last), l)
  {
    hide FillLink, Disc.Linked;
    if last != null {
      r := last.Clone();
    } else {
      r := new Disc();
    }
    FillResult(r, l);
  }

  method AddResult(results: ResultList.List<Disc>, last: Disc?, l: HexLink) returns (disc: Disc)
    requires results.Valid() && (last != null ==> last.Valid())
    modifies results`cnt, results`first, results`last, results`spine, results`nodes, results.nodes
    ensures results.Valid() && fresh(results.nodes - old(results.nodes))
    ensures results.Data() == old(results.Data()) + [disc]
    ensures fresh(disc) && disc.Valid() && fresh(disc.nodes) && disc.Value() == FillLink(old(LastValue(last)), l)
  {
    hide FillLink, ResultList.List.Linked, Disc.Linked;
    disc := MakeResult(last, l);
    var _ := results.Append(disc);
  }

  // The results are discs apart from the one of the caller.

  lemma HoldsNone(d: DiscData, links: seq<HexLink>, caller: Disc)
    requires links == []
    ensures Holds([], Scanned(d, links), caller)
  {
  }

  lemma HoldsOne(made: seq<Disc>, d: DiscData, links: seq<HexLink>, n: nat, disc: Disc, caller: Disc)
    requires n == |links| - 1 && Holds(made, Scanned(d, links[..n]), caller) && disc.Valid()
    requires disc != caller && disc.nodes !! caller.nodes
    requires disc.Value() == FillLink(if n == 0 then d else Scanned(d, links[..n])[n - 1], links[n])
    ensures Holds(made + [disc], Scanned(d, links), caller)
  {
    hide FillLink;
  }

  lemma HoldsLast(made: seq<Disc>, vals: seq<DiscData>, caller: Disc)
    requires Holds(made, vals, caller) && made != []
    ensures |vals| == |made| && made[|made| - 1].Valid() && made[|made| - 1].Value() == vals[|made| - 1]
  {
  }

  /** cddb_parse_search_data: the expression finds the last link of a line first, so the text in front of it is
      searched before that link is added. The results are those of the scan from left to right. */
  method ParseSearchData(results: ResultList.List<Disc>, last: Disc?, links: seq<HexLink>, ghost caller: Disc)
      returns (disc: Disc, ghost made: seq<Disc>)
    requires results.Valid() && links != [] && (last != null ==> last.Valid())
    modifies results`cnt, results`first, results`last, results`spine, results`nodes, results.nodes
    ensures results.Valid() && fresh(results.nodes - old(results.nodes))
    ensures results.Data() == old(results.Data()) + made
    ensures Holds(made, Scanned(old(LastValue(last)), links), caller)
    ensures |made| == |links| && disc == made[|made| - 1] && disc.Valid()
    decreases |links|
  {
    hide FillLink, ResultList.List.Valid, Disc.Valid, Holds;
    var n := |links| - 1;
    var before := last;
    made := [];
    ghost var d := LastValue(last);
    if n > 0 {
      before, made := ParseSearchData(results, last, links[..n], caller);
      HoldsLast(made, Scanned(d, links[..n]), caller);
    } else {
      HoldsNone(d, links[..n], caller);
    }
    disc := AddResult(results, before, links[n]);
    HoldsOne(made, d, links, n, disc, caller);
    made := made + [disc];
  }

  // --- cddb_search

  function Flat(lines: seq<seq<HexLink>>): seq<HexLink>
  {
    if lines == [] then [] else Flat(lines[..|lines| - 1]) + lines[|lines| - 1]
  }

  /** The results so far are those of these links, and aux is the last of them. */
  ghost predicate Found(made: seq<Disc>, links: seq<HexLink>, aux: Disc?, caller: Disc)
    reads caller`nodes, made, set i, j | 0 <= i < |made| && 0 <= j < |made[i].spine| :: made[i].spine[j]
  {
    Holds(made, Scanned(NEW_DISC, links), caller) && aux == if made == [] then null else made[|made| - 1]
  }

  lemma FoundLast(made: seq<Disc>, links: seq<HexLink>, aux: Disc?, caller: Disc)
    requires Found(made, links, aux, caller)
    ensures var vals := Scanned(NEW_DISC, links);
      && |made| == |links| && (aux != null ==> aux.Valid())
      && LastValue(aux) == if vals == [] then NEW_DISC else vals[|vals| - 1]
  {
    hide FillLink, Disc.Valid;
  }

  lemma FoundMore(made: seq<Disc>, links: seq<HexLink>, more: seq<Disc>, new_: seq<HexLink>, before: Disc?, aux: Disc,
                  caller: Disc)
    requires Found(made, links, before, caller) && more != [] && aux == more[|more| - 1]
    requires var vals := Scanned(NEW_DISC, links);
      Holds(more, Scanned(if vals == [] then NEW_DISC else vals[|vals| - 1], new_), caller)
    ensures Found(made + more, links + new_, aux, caller)
  {
    hide FillLink, Scanned, Disc.Valid;
    ScannedMore(NEW_DISC, links, new_);
  }

  /** One line of the page. */
  method SearchLine(results: ResultList.List<Disc>, aux: Disc?, links: seq<HexLink>, ghost made: seq<Disc>,
                    ghost before: seq<HexLink>, ghost caller: Disc) returns (aux': Disc?, ghost made': seq<Disc>)
    requires results.Valid() && results.Data() == made && Found(made, before, aux, caller)
    modifies results`cnt, results`first, results`last, results`spine, results`nodes, results.nodes
    ensures results.Valid() && fresh(results.nodes - old(results.nodes))
    ensures results.Data() == made' && Found(made', before + links, aux', caller)
  {
    hide FillLink, ResultList.List.Valid, Disc.Valid, Holds, Found, Scanned;
    aux', made' := aux, made;
    if links != [] {
      ghost var more;
      FoundLast(made, before, aux, caller);
      aux', more := ParseSearchData(results, aux, links, caller);
      FoundMore(made, before, more, links, aux, aux', caller);
      made' := made + more;
    } else {
      assert before + links == before;
    }
  }

  /** The loop over the lines of the page: the last result is carried from line to line, so that the results are
      those of one scan over all links of the page. */
  method SearchPage(results: ResultList.List<Disc>, lines: seq<seq<HexLink>>, ghost caller: Disc)
    requires results.Valid() && results.Data() == []
    modifies results`cnt, results`first, results`last, results`spine, results`nodes, results.nodes
    ensures results.Valid() && fresh(results.nodes - old(results.nodes))
    ensures Holds(results.Data(), Scanned(NEW_DISC, Flat(lines)), caller)
  {
    hide FillLink, ResultList.List.Valid, Disc.Valid, Holds, Scanned;
    ghost var made := [];
    var aux: Disc? := null;
    HoldsNone(NEW_DISC, [], caller);
    var k := 0;
    while k < |lines|
      invariant 0 <= k <= |lines| && results.Valid() && fresh(results.nodes - old(results.nodes))
      invariant results.Data() == made && Found(made, Flat(lines[..k]), aux, caller)
    {
      assert lines[..k + 1][..k] == lines[..k];
      aux, made := SearchLine(results, aux, lines[k], made, Flat(lines[..k]), caller);
      k := k + 1;
    }
    assert lines[..k] == lines;
  }

  /** cddb_search from the flush on, for a page with these links: as many results as links, and if there are any, the
      first one is merged into the caller's disc and the iterator stands on it. If there are none, the iterator is
      left on a freed element exactly when it was not past the end. */
  method Search(results: ResultList.List<Disc>, d: Disc, lines: seq<seq<HexLink>>) returns (count: int)
    requires results.Valid() && d.Valid()
    modifies results`cnt, results`first, results`last, results`it, results`spine, results`nodes, results`freed,
             results.nodes, d`discid, d`category, d`year, d`length, d`revision, d`genre, d`title, d`artist, d`extData,
             d`tracks, d`trackCnt, d`spine, d`nodes, d`contents, d.nodes
    ensures results.Valid() && d.Valid()
    ensures var vals := Scanned(NEW_DISC, Flat(lines));
      && count == |Flat(lines)| && Holds(results.Data(), vals, d)
      && d.Value() == (if count > 0 then Merge(old(d.Value()), vals[0]) else old(d.Value()))
      && (count > 0 ==> results.AtFirst()) && (results.Dangling() <==> old(results.it) != null && count == 0)
  {
    hide FillLink, ResultList.List.Linked, Disc.Linked, Holds, Merge, Scanned, Flat, ResultList.List.AtFirst;
    results.Flush();
    SearchPage(results, lines, d);
    ghost var rs, vals := results.Data(), Scanned(NEW_DISC, Flat(lines));
    HoldsCount(rs, vals, d);
    count := results.cnt;
    if count != 0 {
      MergeFirst(results, d, rs, vals);
      results.AtIsSafe();
    }
  }
}
