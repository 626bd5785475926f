/** The commands that are sent, read from left to right as a server reads them. */
module Commands {
  import opened Text
  import opened Records
  import opened Protocol

  // --- numbers

  predicate IsNumber(w: string)
  {
    var d := if w != "" && w[0] == '-' then w[1..] else w;
    d != "" && AllDigits(d)
  }

  function NumberOf(w: string): int
    requires IsNumber(w)
  {
    if w[0] == '-' then -(DecimalValue(w[1..]) as int) else DecimalValue(w)
  }

  lemma NumberWord(n: int)
    ensures var w := Signed(n); IsNumber(w) && NumberOf(w) == n && ' ' !in w
  {
    var m := if n < 0 then -n else n;
    DecimalReadsBack(m);
    hide Decimal, DecimalValue;
    assert n < 0 ==> ("-" + Decimal(m))[1..] == Decimal(m);
  }

  // --- requests

  datatype Request =
    | Query(discid: Word, count: nat, offsets: seq<int>, length: int)
    | Read(category: string, discid: Word)
    | Write(category: string, discid: Word)

  /** The numbers that the words are, if all of them are numbers. */
  function NumbersOf(ws: seq<string>): Option<seq<int>>
  {
    if exists k :: 0 <= k < |ws| && !IsNumber(ws[k]) then None
    else Some(seq(|ws|, i requires 0 <= i < |ws| => NumberOf(ws[i])))
  }

  /** `cddb query <id> <count> <offset> ... <offset>  <length>`: the list of offsets ends in a space of its own. */
  function QueryOf(ws: seq<string>): Option<Request>
  {
    var n := |ws|;
    if n < 4 || !IsHex8(ws[0]) || !IsNumber(ws[1]) || ws[n - 2] != "" || !IsNumber(ws[n - 1]) then None
    else
      match NumbersOf(ws[2..n - 2])
      case None => None
      case Some(offsets) =>
        if NumberOf(ws[1]) != |offsets| then None
        else Some(Query(HexNumber(ws[0]) % 0x1_0000_0000, |offsets|, offsets, NumberOf(ws[n - 1])))
  }

  /** The words of a line that ends in a newline. */
  function LineWords(command: string): seq<string>
  {
    if command == "" || command[|command| - 1] != '\n' then [] else Words(command[..|command| - 1])
  }

  /** The request that a command line is. */
  function RequestOf(command: string): Option<Request>
  {
    var ws := LineWords(command);
    if |ws| < 2 || ws[0] != "cddb" then None
    else if ws[1] == "query" then QueryOf(ws[2..])
    else if |ws| != 4 || !IsHex8(ws[3]) then None
    else if ws[1] == "read" then Some(Read(ws[2], HexNumber(ws[3]) % 0x1_0000_0000))
    else if ws[1] == "write" then Some(Write(ws[2], HexNumber(ws[3]) % 0x1_0000_0000))
    else None
  }

  // --- what was asked is what is read

  function Offsets(ts: seq<TrackData>): (r: seq<int>)
    ensures |r| == |ts| && forall i :: 0 <= i < |ts| ==> r[i] == ts[i].frameOffset
  {
    seq(|ts|, i requires 0 <= i < |ts| => ts[i].frameOffset)
  }

  function Printed(ns: seq<int>): (r: seq<string>)
    ensures |r| == |ns| && forall i :: 0 <= i < |ns| ==> r[i] == Signed(ns[i])
  {
    seq(|ns|, i requires 0 <= i < |ns| => Signed(ns[i]))
  }

  lemma {:induction false} OffsetTextFirst(ts: seq<TrackData>)
    requires ts != []
    ensures OffsetText(ts) == Signed(ts[0].frameOffset) + (" " + OffsetText(ts[1..]))
  {
    hide Signed;
    var n := |ts| - 1;
    if n == 0 {
      assert ts[1..] == [] && ts[..0] == [];
    } else {
      OffsetTextFirst(ts[..n]);
      assert ts[..n][1..] == ts[1..][..n - 1] && ts[1..][n - 1] == ts[n];
      var a, b, c := Signed(ts[0].frameOffset), OffsetText(ts[1..][..n - 1]), Signed(ts[n].frameOffset);
      assert a + (" " + b) + c + " " == a + (" " + (b + c + " "));
    }
  }

  lemma PrintedFirst(ts: seq<TrackData>)
    requires ts != []
    ensures Printed(Offsets(ts)) == [Signed(ts[0].frameOffset)] + Printed(Offsets(ts[1..]))
  {
    hide Signed;
  }

  /** The words of the list are the offsets in the order of the tracks. */
  lemma {:induction false} OffsetWords(ts: seq<TrackData>)
    ensures Words(OffsetText(ts)) == Printed(Offsets(ts)) + [""]
  {
    hide Signed, Printed, Offsets;
    if ts == [] {
      assert Printed(Offsets(ts)) == [];
    } else {
      hide Words, OffsetText, IsNumber, NumberOf;
      OffsetTextFirst(ts);
      NumberWord(ts[0].frameOffset);
      FirstWord(Signed(ts[0].frameOffset), OffsetText(ts[1..]));
      OffsetWords(ts[1..]);
      PrintedFirst(ts);
    }
  }

  lemma WordsOfSix(a: string, b: string, c: string, d: string, o: string, l: string)
    requires ' ' !in a && ' ' !in b && ' ' !in c && ' ' !in d && ' ' !in l
    ensures Words(a + (" " + (b + (" " + (c + (" " + (d + (" " + (o + (" " + l)))))))))) ==
            [a, b, c, d] + Words(o) + [l]
  {
    hide Words;
    var s4 := o + (" " + l);
    var s3 := d + (" " + s4);
    var s2 := c + (" " + s3);
    var s1 := b + (" " + s2);
    OneWord(l);
    WordsJoin(o, l);
    FirstWord(d, s4);
    FirstWord(c, s3);
    FirstWord(b, s2);
    FirstWord(a, s1);
  }

  lemma QuerySpelled(h: string, n: string, o: string, l: string)
    ensures "cddb query " + h + " " + n + " " + o + " " + l + "\n" ==
            "cddb" + (" " + ("query" + (" " + (h + (" " + (n + (" " + (o + (" " + l))))))))) + "\n"
  {
  }

  lemma LineOfWords(s: string)
    ensures LineWords(s + "\n") == Words(s)
  {
    assert (s + "\n")[..|s|] == s;
  }

  lemma QueryWords(id: Word, ts: seq<TrackData>, length: nat)
    ensures LineWords(QueryCommand(id, ts, length)) ==
            ["cddb", "query", Hex8(id), Signed(|ts|)] + (Printed(Offsets(ts)) + [""]) + [Signed(length)]
  {
    hide Words, LineWords, Hex8, Decimal, OffsetText, Printed, Offsets;
    var h, n, o, l := Hex8(id), Decimal(|ts|), OffsetText(ts), Decimal(length);
    QuerySpelled(h, n, o, l);
    LineOfWords("cddb" + (" " + ("query" + (" " + (h + (" " + (n + (" " + (o + (" " + l))))))))));
    Hex8Word(id);
    NumberWord(|ts|);
    NumberWord(length);
    WordsOfSix("cddb", "query", h, n, o, l);
    OffsetWords(ts);
  }

  lemma NumbersRead(ns: seq<int>)
    ensures NumbersOf(Printed(ns)) == Some(ns)
  {
    hide Signed, IsNumber, NumberOf;
    forall i | 0 <= i < |ns| ensures IsNumber(Printed(ns)[i]) && NumberOf(Printed(ns)[i]) == ns[i] {
      NumberWord(ns[i]);
    }
    assert NumbersOf(Printed(ns)).value == ns;
  }

  lemma QueryOfWords(id: Word, ns: seq<int>, length: nat)
    ensures QueryOf([Hex8(id), Signed(|ns|)] + (Printed(ns) + [""]) + [Signed(length)]) ==
            Some(Query(id, |ns|, ns, length))
  {
    hide Hex8, Signed, IsHex8, IsNumber, NumberOf, HexNumber, Printed, NumbersOf;
    var ws := [Hex8(id), Signed(|ns|)] + (Printed(ns) + [""]) + [Signed(length)];
    Hex8Word(id);
    Hex8Reads(id);
    NumberWord(|ns|);
    NumberWord(length);
    NumbersRead(ns);
    assert ws[2..|ws| - 2] == Printed(ns);
  }

  /** A query names the identifier, the number of tracks, every offset in track order, and the length. */
  lemma QueryReadsBack(id: Word, ts: seq<TrackData>, length: nat)
    ensures RequestOf(QueryCommand(id, ts, length)) == Some(Query(id, |ts|, Offsets(ts), length))
  {
    hide LineWords, QueryOf, QueryCommand, Hex8, Signed, Printed, IsHex8;
    QueryWords(id, ts, length);
    QueryOfWords(id, Offsets(ts), length);
    var ws := LineWords(QueryCommand(id, ts, length));
    assert ws[2..] == [Hex8(id), Signed(|ts|)] + (Printed(Offsets(ts)) + [""]) + [Signed(length)];
  }

  lemma NameIsWord(c: Category)
    ensures ' ' !in CategoryName(c)
  {
  }

  lemma EntryWords(verb: string, c: Category, id: Word)
    requires ' ' !in verb
    ensures LineWords("cddb" + (" " + (verb + (" " + (CategoryName(c) + (" " + Hex8(id)))))) + "\n") ==
            ["cddb", verb, CategoryName(c), Hex8(id)]
  {
    hide Words, Hex8, CategoryName;
    var n, h := CategoryName(c), Hex8(id);
    var s := "cddb" + (" " + (verb + (" " + (n + (" " + h)))));
    assert (s + "\n")[..|s|] == s;
    NameIsWord(c);
    Hex8Word(id);
    OneWord(h);
    FirstWord(n, h);
    FirstWord(verb, n + (" " + h));
    FirstWord("cddb", verb + (" " + (n + (" " + h))));
  }

  /** The other commands name the category and then the identifier. */
  lemma ReadReadsBack(c: Category, id: Word)
    ensures RequestOf(ReadCommand(c, id)) == Some(Read(CategoryName(c), id))
  {
    hide LineWords, Hex8, CategoryName, IsHex8, QueryOf, HexNumber;
    EntryWords("read", c, id);
    Hex8Word(id);
    Hex8Reads(id);
    assert ReadCommand(c, id) ==
           "cddb" + (" " + ("read" + (" " + (CategoryName(c) + (" " + Hex8(id)))))) + "\n";
  }

  lemma WriteReadsBack(c: Category, id: Word)
    ensures RequestOf(WriteCommand(c, id)) == Some(Write(CategoryName(c), id))
  {
    hide LineWords, Hex8, CategoryName, IsHex8, QueryOf, HexNumber;
    EntryWords("write", c, id);
    Hex8Word(id);
    Hex8Reads(id);
    assert WriteCommand(c, id) ==
           "cddb" + (" " + ("write" + (" " + (CategoryName(c) + (" " + Hex8(id)))))) + "\n";
  }
}
