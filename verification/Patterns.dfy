/** The regular expressions of the record format (lib/cddb_regex.c) as matchers written out by
    hand, each proved to accept exactly the lines its expression describes. */
module Patterns {
  import opened Text

  // --- scanning helpers

  /** s without its leading blanks. */
  function DropBlanks(s: string): (r: string)
    ensures |r| <= |s|
    ensures r != "" ==> !IsBlank(r[0])
  {
    if s != "" && IsBlank(s[0]) then DropBlanks(s[1..]) else s
  }

  lemma {:induction false} BlanksDropped(s: string) returns (b: string)
    ensures AllBlank(b) && s == b + DropBlanks(s)
  {
    if s != "" && IsBlank(s[0]) {
      var b' := BlanksDropped(s[1..]);
      b := [s[0]] + b';
      assert s == [s[0]] + s[1..];
    } else {
      b := "";
    }
  }

  /** The leading digits of s. */
  function TakeDigits(s: string): (d: string)
    ensures d <= s && AllDigits(d)
    ensures |d| < |s| ==> !IsDigit(s[|d|])
  {
    if s != "" && IsDigit(s[0]) then [s[0]] + TakeDigits(s[1..]) else ""
  }

  lemma {:induction false} DropBlanksOf(b: string, r: string)
    requires AllBlank(b) && (r != "" ==> !IsBlank(r[0]))
    ensures DropBlanks(b + r) == r
  {
    if b == "" {
      assert b + r == r;
    } else {
      assert (b + r)[1..] == b[1..] + r;
      DropBlanksOf(b[1..], r);
    }
  }

  lemma {:induction false} TakeDigitsOf(d: string, r: string)
    requires AllDigits(d) && (r != "" ==> !IsDigit(r[0]))
    ensures TakeDigits(d + r) == d && (d + r)[|d|..] == r
  {
    if d == "" {
      assert d + r == r;
    } else {
      assert (d + r)[1..] == d[1..] + r;
      TakeDigitsOf(d[1..], r);
    }
  }

  /** The rest of s after the given prefix. */
  function After(prefix: string, s: string): (r: Option<string>)
    ensures r.Some? ==> s == prefix + r.value
  {
    if prefix <= s then Some(s[|prefix|..]) else None
  }

  lemma AfterOf(prefix: string, r: string)
    ensures After(prefix, prefix + r) == Some(r)
  {
    assert (prefix + r)[|prefix|..] == r;
  }

  // --- comment lines: `^#[[:blank:]]*<tag>...`

  const SECONDS := " seconds"

  /** s without the ` seconds` units it starts with. */
  function DropSeconds(s: string): string
  {
    if SECONDS <= s then DropSeconds(s[|SECONDS|..]) else s
  }

  function Repeat(unit: string, k: nat): string
  {
    if k == 0 then "" else unit + Repeat(unit, k - 1)
  }

  lemma {:induction false} DropSecondsOf(units: nat, b: string)
    requires AllBlank(b)
    ensures DropSeconds(Repeat(SECONDS, units) + b) == b
  {
    if units == 0 {
      assert Repeat(SECONDS, units) + b == b;
      assert !IsBlank(SECONDS[1]);
    } else {
      var tail := Repeat(SECONDS, units - 1) + b;
      assert Repeat(SECONDS, units) + b == SECONDS + tail;
      assert (SECONDS + tail)[|SECONDS|..] == tail;
      DropSecondsOf(units - 1, b);
    }
  }

  lemma {:induction false} SecondsDropped(s: string) returns (units: nat)
    ensures s == Repeat(SECONDS, units) + DropSeconds(s)
  {
    if SECONDS <= s {
      var u := SecondsDropped(s[|SECONDS|..]);
      units := u + 1;
      assert s == SECONDS + (Repeat(SECONDS, u) + DropSeconds(s));
    } else {
      units := 0;
    }
  }

  /** `^#[[:blank:]]*<tag>[[:blank:]]*$` */
  predicate MatchHeading(tag: string, line: string)
  {
    && |line| > 0 && line[0] == '#'
    && var r := After(tag, DropBlanks(line[1..]));
       r.Some? && DropBlanks(r.value) == ""
  }

  /** `([0-9]+)[[:blank:]]*$`, with `( seconds)*` allowed after the number. */
  function MatchValue(unit: bool, t: string): Option<nat>
  {
    var d := TakeDigits(t);
    var u := if unit then DropSeconds(t[|d|..]) else t[|d|..];
    if d == "" || DropBlanks(u) != "" then None else Some(DecimalValue(d))
  }

  /** `^#[[:blank:]]*<tag>[[:blank:]]+` and then MatchValue; an empty tag needs no blank after it. */
  function MatchNumber(tag: string, unit: bool, line: string): Option<nat>
  {
    if |line| == 0 || line[0] != '#' then None else
      match After(tag, DropBlanks(line[1..]))
      case None => None
      case Some(r) =>
        var t := DropBlanks(r);
        if tag != "" && t == r then None else MatchValue(unit, t)
  }

  /** The language of `([0-9]+)( seconds)*[[:blank:]]*$`. */
  ghost predicate ValueText(unit: bool, t: string, digits: string, units: nat, b: string)
  {
    && digits != "" && AllDigits(digits) && AllBlank(b)
    && (!unit ==> units == 0)
    && t == digits + (Repeat(SECONDS, units) + b)
  }

  /** The language of the expression that MatchNumber stands for. */
  ghost predicate NumberLine(tag: string, unit: bool, line: string, b1: string, b2: string,
                             digits: string, units: nat, b3: string)
  {
    && AllBlank(b1) && AllBlank(b2)
    && (if tag == "" then b2 == "" else b2 != "")
    && ValueText(unit, digits + (Repeat(SECONDS, units) + b3), digits, units, b3)
    && line == "#" + (b1 + (tag + (b2 + (digits + (Repeat(SECONDS, units) + b3)))))
  }

  /** A tag starts with neither a blank nor a digit. */
  predicate IsTag(tag: string)
  {
    tag != "" ==> !IsBlank(tag[0]) && !IsDigit(tag[0])
  }

  lemma ValueMatches(unit: bool, t: string, digits: string, units: nat, b: string)
    requires ValueText(unit, t, digits, units, b)
    ensures MatchValue(unit, t) == Some(DecimalValue(digits))
  {
    var u := Repeat(SECONDS, units) + b;
    if units > 0 { assert u[0] == SECONDS[0]; } else { assert u == b; }
    TakeDigitsOf(digits, u);
    DropSecondsOf(units, b);
    DropBlanksOf(b, "");
    assert b + "" == b;
  }

  lemma ValueFound(unit: bool, t: string) returns (digits: string, units: nat, b: string)
    requires MatchValue(unit, t).Some?
    ensures ValueText(unit, t, digits, units, b)
    ensures MatchValue(unit, t) == Some(DecimalValue(digits))
  {
    hide TakeDigits, DropSeconds, DropBlanks, DecimalValue, AllDigits, IsDigit;
    digits, units := TakeDigits(t), 0;
    var e := t[|digits|..];
    if unit { units := SecondsDropped(e); }
    var u := if unit then DropSeconds(e) else e;
    b := BlanksDropped(u);
    assert u == b + "" == b;
    assert e == Repeat(SECONDS, units) + u by {
      if !unit { assert Repeat(SECONDS, 0) + u == u; }
    }
    assert t == digits + e;
  }

  lemma HeadMatches(tag: string, unit: bool, b1: string, b2: string, t: string)
    requires IsTag(tag) && AllBlank(b1) && AllBlank(b2) && (if tag == "" then b2 == "" else b2 != "")
    requires t != "" && IsDigit(t[0])
    ensures MatchNumber(tag, unit, "#" + (b1 + (tag + (b2 + t)))) == MatchValue(unit, t)
  {
    var r := b2 + t;
    assert ("#" + (b1 + (tag + r)))[1..] == b1 + (tag + r);
    assert tag == "" ==> tag + r == t;
    DropBlanksOf(b1, tag + r);
    AfterOf(tag, r);
    DropBlanksOf(b2, t);
    assert |r| == |b2| + |t|;
  }

  lemma HeadFound(tag: string, unit: bool, line: string) returns (b1: string, b2: string, t: string)
    requires IsTag(tag) && MatchNumber(tag, unit, line).Some?
    ensures AllBlank(b1) && AllBlank(b2) && (if tag == "" then b2 == "" else b2 != "")
    ensures line == "#" + (b1 + (tag + (b2 + t))) && MatchValue(unit, t) == MatchNumber(tag, unit, line)
  {
    hide DropBlanks, AllBlank, MatchValue, IsBlank, IsDigit, After;
    var l := line[1..];
    b1 := BlanksDropped(l);
    var r := After(tag, DropBlanks(l)).value;
    t := DropBlanks(r);
    b2 := BlanksDropped(r);
    assert line == "#" + l;
  }

  lemma NumberLineMatches(tag: string, unit: bool, line: string, b1: string, b2: string,
                          digits: string, units: nat, b3: string)
    requires IsTag(tag) && NumberLine(tag, unit, line, b1, b2, digits, units, b3)
    ensures MatchNumber(tag, unit, line) == Some(DecimalValue(digits))
  {
    var t := digits + (Repeat(SECONDS, units) + b3);
    assert t[0] == digits[0];
    HeadMatches(tag, unit, b1, b2, t);
    ValueMatches(unit, t, digits, units, b3);
  }

  /** The matcher accepts exactly the lines of the expression, and captures the digits. */
  lemma MatchNumberExact(tag: string, unit: bool, line: string, n: nat)
    requires IsTag(tag)
    ensures MatchNumber(tag, unit, line) == Some(n) <==>
            exists b1, b2, digits, units, b3 ::
              NumberLine(tag, unit, line, b1, b2, digits, units, b3) && n == DecimalValue(digits)
  {
    if MatchNumber(tag, unit, line) == Some(n) {
      var b1, b2, t := HeadFound(tag, unit, line);
      var digits, units, b3 := ValueFound(unit, t);
      assert NumberLine(tag, unit, line, b1, b2, digits, units, b3);
    }
    if b1, b2, digits, units, b3 :|
      NumberLine(tag, unit, line, b1, b2, digits, units, b3) && n == DecimalValue(digits) {
      NumberLineMatches(tag, unit, line, b1, b2, digits, units, b3);
    }
  }

  /** The language of the expression that MatchHeading stands for. */
  ghost predicate TaggedLine(tag: string, line: string, b1: string, b2: string)
  {
    AllBlank(b1) && AllBlank(b2) && line == "#" + (b1 + (tag + b2))
  }

  lemma TaggedLineMatches(tag: string, line: string, b1: string, b2: string)
    requires tag != "" && IsTag(tag) && TaggedLine(tag, line, b1, b2)
    ensures MatchHeading(tag, line)
  {
    assert line[1..] == b1 + (tag + b2);
    DropBlanksOf(b1, tag + b2);
    AfterOf(tag, b2);
    assert b2 + "" == b2;
    DropBlanksOf(b2, "");
  }

  /** The matcher accepts exactly a number sign, blanks, the tag and blanks. */
  lemma MatchHeadingExact(tag: string, line: string)
    requires tag != "" && IsTag(tag)
    ensures MatchHeading(tag, line) <==> exists b1, b2 :: TaggedLine(tag, line, b1, b2)
  {
    if MatchHeading(tag, line) {
      var b1 := BlanksDropped(line[1..]);
      var r := After(tag, DropBlanks(line[1..])).value;
      var b2 := BlanksDropped(r);
      assert r == b2 + "" == b2;
      assert line == "#" + line[1..];
      assert TaggedLine(tag, line, b1, b2);
    }
    if b1, b2 :| TaggedLine(tag, line, b1, b2) {
      TaggedLineMatches(tag, line, b1, b2);
    }
  }

  // --- keyword lines

  /** `^<key>([0-9]*)$` */
  function MatchDigits(key: string, line: string): Option<nat>
  {
    match After(key, line)
    case None => None
    case Some(v) => if AllDigits(v) then Some(DecimalValue(v)) else None
  }

  /** The matcher accepts exactly the key and digits, or the key alone. */
  lemma MatchDigitsExact(key: string, line: string, n: nat)
    ensures MatchDigits(key, line) == Some(n) <==>
            exists digits :: AllDigits(digits) && line == key + digits && n == DecimalValue(digits)
  {
    if MatchDigits(key, line) == Some(n) {
      var v := After(key, line).value;
      assert AllDigits(v) && line == key + v && n == DecimalValue(v);
    }
    if digits :| AllDigits(digits) && line == key + digits && n == DecimalValue(digits) {
      AfterOf(key, digits);
    }
  }

  /** `^<key>([0-9]+)=(.*)$` */
  function MatchIndexed(key: string, line: string): Option<(nat, string)>
  {
    match After(key, line)
    case None => None
    case Some(r) =>
      var d := TakeDigits(r);
      if d == "" || |d| == |r| || r[|d|] != '=' then None
      else Some((DecimalValue(d), r[|d| + 1..]))
  }

  /** The language of the expression that MatchIndexed stands for. */
  ghost predicate IndexedLine(key: string, line: string, digits: string, v: string)
  {
    digits != "" && AllDigits(digits) && line == key + (digits + ("=" + v))
  }

  lemma IndexedLineMatches(key: string, line: string, digits: string, v: string)
    requires IndexedLine(key, line, digits, v)
    ensures MatchIndexed(key, line) == Some((DecimalValue(digits), v))
  {
    AfterOf(key, digits + ("=" + v));
    TakeDigitsOf(digits, "=" + v);
    var r := digits + ("=" + v);
    assert r[|digits|..] == "=" + v;
    assert r[|digits| + 1..] == v;
  }

  /** The matcher accepts exactly key, digits, an equals sign and any text. */
  lemma MatchIndexedExact(key: string, line: string, n: nat, v: string)
    ensures MatchIndexed(key, line) == Some((n, v)) <==>
            exists digits :: IndexedLine(key, line, digits, v) && n == DecimalValue(digits)
  {
    if MatchIndexed(key, line) == Some((n, v)) {
      var r := After(key, line).value;
      var d := TakeDigits(r);
      assert r == d + ("=" + v);
      assert IndexedLine(key, line, d, v);
    }
    if digits :| IndexedLine(key, line, digits, v) && n == DecimalValue(digits) {
      IndexedLineMatches(key, line, digits, v);
    }
  }

  // --- all expressions of the record parser, applied to one line

  /** What each expression of the record parser finds in one line. */
  datatype Scan = Scan(heading: bool, offset: Option<nat>, length: Option<nat>, revision: Option<nat>,
                       dtitle: Option<Titled>, year: Option<nat>, genre: Str,
                       ttitle: Option<(nat, Titled)>, extd: Str,
                       extt: Option<(nat, string)>, order: bool, dot: bool)

  const OFFSETS_TAG := "Track frame offsets:"
  const LENGTH_TAG := "Disc length:"
  const REVISION_TAG := "Revision:"

  function SplitText(v: Str): Option<Titled>
  {
    match v case None => None case Some(s) => Some(Split(s))
  }

  function SplitIndexed(v: Option<(nat, string)>): Option<(nat, Titled)>
  {
    match v case None => None case Some((n, s)) => Some((n, Split(s)))
  }

  function ScanLine(line: string): Scan
  {
    Scan(
      MatchHeading(OFFSETS_TAG, line),
      MatchNumber("", false, line),
      MatchNumber(LENGTH_TAG, true, line),
      MatchNumber(REVISION_TAG, false, line),
      SplitText(After("DTITLE=", line)),
      MatchDigits("DYEAR=", line),
      After("DGENRE=", line),
      SplitIndexed(MatchIndexed("TTITLE", line)),
      After("EXTD=", line),
      MatchIndexed("EXTT", line),
      "PLAYORDER=" <= line,
      |line| > 0 && line[0] == '.')
  }

  /** What the expressions for comment lines accept and capture. */
  lemma ScanComments(line: string, n: nat)
    ensures ScanLine(line).heading <==> exists b1, b2 :: TaggedLine("Track frame offsets:", line, b1, b2)
    ensures ScanLine(line).offset == Some(n) <==>
            exists b1, b2, digits, units, b3 ::
              NumberLine("", false, line, b1, b2, digits, units, b3) && n == DecimalValue(digits)
    ensures ScanLine(line).length == Some(n) <==>
            exists b1, b2, digits, units, b3 ::
              NumberLine("Disc length:", true, line, b1, b2, digits, units, b3) && n == DecimalValue(digits)
    ensures ScanLine(line).revision == Some(n) <==>
            exists b1, b2, digits, units, b3 ::
              NumberLine("Revision:", false, line, b1, b2, digits, units, b3) && n == DecimalValue(digits)
    ensures SECONDS == " seconds"
  {
    hide MatchHeading, MatchNumber, NumberLine, TaggedLine, MatchDigits, MatchIndexed, After;
    MatchHeadingExact("Track frame offsets:", line);
    MatchNumberExact("", false, line, n);
    MatchNumberExact("Disc length:", true, line, n);
    MatchNumberExact("Revision:", false, line, n);
  }

  lemma AfterExact(prefix: string, line: string, v: string)
    ensures After(prefix, line) == Some(v) <==> line == prefix + v
    ensures After(prefix, line).None? <==> !(prefix <= line)
  {
    AfterOf(prefix, v);
  }

  /** What the expressions for keyword lines accept and capture. */
  lemma ScanKeywords(line: string, n: nat, v: string)
    ensures SplitText(Some(v)) == ScanLine("DTITLE=" + v).dtitle
    ensures ScanLine(line).dtitle.Some? <==> "DTITLE=" <= line
    ensures ScanLine(line).year == Some(n) <==>
            exists digits :: AllDigits(digits) && line == "DYEAR=" + digits && n == DecimalValue(digits)
    ensures ScanLine(line).genre == Some(v) <==> line == "DGENRE=" + v
    ensures ScanLine(line).extd == Some(v) <==> line == "EXTD=" + v
    ensures ScanLine(line).extt == Some((n, v)) <==>
            exists digits :: IndexedLine("EXTT", line, digits, v) && n == DecimalValue(digits)
    ensures ScanLine(line).order <==> "PLAYORDER=" <= line
  {
    hide MatchHeading, MatchNumber, MatchDigits, MatchIndexed, After, IndexedLine, Split;
    AfterExact("DTITLE=", line, v);
    AfterExact("DTITLE=", "DTITLE=" + v, v);
    AfterExact("DGENRE=", line, v);
    AfterExact("EXTD=", line, v);
    MatchDigitsExact("DYEAR=", line, n);
    MatchIndexedExact("EXTT", line, n, v);
  }

  /** A title of a track is split as that of a disc is. */
  lemma ScanTrackTitles(line: string, n: nat, t: Titled)
    ensures ScanLine(line).ttitle == Some((n, t)) <==>
            exists digits, v :: IndexedLine("TTITLE", line, digits, v) && n == DecimalValue(digits) && t == Split(v)
  {
    hide MatchHeading, MatchNumber, MatchDigits, MatchIndexed, After, Split;
    var r := MatchIndexed("TTITLE", line);
    if ScanLine(line).ttitle == Some((n, t)) {
      var v := r.value.1;
      MatchIndexedExact("TTITLE", line, n, v);
    }
    if digits, v :| IndexedLine("TTITLE", line, digits, v) && n == DecimalValue(digits) && t == Split(v) {
      MatchIndexedExact("TTITLE", line, n, v);
    }
  }

  /** A line that starts with a dot is nothing else, and no other line counts as one. */
  lemma ScanDot(line: string)
    ensures ScanLine(line).dot <==> line != "" && line[0] == '.'
    ensures line != "" && line[0] == '.' ==>
      ScanLine(line) == Scan(false, None, None, None, None, None, None, None, None, None, false, true)
  {
  }

  /** `^([[:alpha:]]+)[[:blank:]]([[:xdigit:]]+)[[:blank:]]((.*) / (.*)|(.*))$` */
  datatype QueryMatch = QueryMatch(category: string, discid: string, title: Titled)

  predicate IsAlpha(c: char) { 'a' <= c <= 'z' || 'A' <= c <= 'Z' }

  function TakeAlpha(s: string): (d: string)
    ensures d <= s && (forall k :: 0 <= k < |d| ==> IsAlpha(d[k]))
    ensures |d| < |s| ==> !IsAlpha(s[|d|])
  {
    if s != "" && IsAlpha(s[0]) then [s[0]] + TakeAlpha(s[1..]) else ""
  }

  function TakeHex(s: string): (d: string)
    ensures d <= s && (forall k :: 0 <= k < |d| ==> IsHexDigit(d[k]))
    ensures |d| < |s| ==> !IsHexDigit(s[|d|])
  {
    if s != "" && IsHexDigit(s[0]) then [s[0]] + TakeHex(s[1..]) else ""
  }

  function MatchQuery(line: string): (q: Option<QueryMatch>)
    ensures q.Some? ==> forall k :: 0 <= k < |q.value.discid| ==> IsHexDigit(q.value.discid[k])
  {
    var c := TakeAlpha(line);
    var r := line[|c|..];
    if c == "" || r == "" || !IsBlank(r[0]) then None else
      var h := TakeHex(r[1..]);
      var t := r[1..][|h|..];
      if h == "" || t == "" || !IsBlank(t[0]) then None
      else Some(QueryMatch(c, h, Split(t[1..])))
  }

  /** The language of the expression that MatchQuery stands for. */
  ghost predicate QueryLine(line: string, category: string, b1: char, discid: string, b2: char, t: string)
  {
    && category != "" && (forall k :: 0 <= k < |category| ==> IsAlpha(category[k]))
    && discid != "" && (forall k :: 0 <= k < |discid| ==> IsHexDigit(discid[k]))
    && IsBlank(b1) && IsBlank(b2)
    && line == category + ([b1] + (discid + ([b2] + t)))
  }

  lemma {:induction false} TakeAlphaOf(d: string, b: char, r: string)
    requires (forall k :: 0 <= k < |d| ==> IsAlpha(d[k])) && IsBlank(b)
    ensures TakeAlpha(d + ([b] + r)) == d && (d + ([b] + r))[|d|..] == [b] + r
  {
    if d == "" {
      assert d + ([b] + r) == [b] + r;
    } else {
      assert (d + ([b] + r))[1..] == d[1..] + ([b] + r);
      TakeAlphaOf(d[1..], b, r);
    }
  }

  lemma {:induction false} TakeHexOf(d: string, b: char, r: string)
    requires (forall k :: 0 <= k < |d| ==> IsHexDigit(d[k])) && IsBlank(b)
    ensures TakeHex(d + ([b] + r)) == d && (d + ([b] + r))[|d|..] == [b] + r
  {
    if d == "" {
      assert d + ([b] + r) == [b] + r;
    } else {
      assert (d + ([b] + r))[1..] == d[1..] + ([b] + r);
      TakeHexOf(d[1..], b, r);
    }
  }

  lemma QueryLineMatches(line: string, category: string, b1: char, discid: string, b2: char, t: string)
    requires QueryLine(line, category, b1, discid, b2, t)
    ensures MatchQuery(line) == Some(QueryMatch(category, discid, Split(t)))
  {
    hide Split;
    var r := discid + ([b2] + t);
    TakeAlphaOf(category, b1, r);
    assert ([b1] + r)[1..] == r;
    TakeHexOf(discid, b2, t);
    assert ([b2] + t)[1..] == t;
  }

  lemma CutAt(s: string, front: string)
    requires front <= s
    ensures s == front + s[|front|..]
  {
  }

  lemma FirstOff(s: string)
    requires s != ""
    ensures s == [s[0]] + s[1..]
  {
  }

  lemma QueryLineFound(line: string, q: QueryMatch) returns (b1: char, b2: char, t: string)
    requires MatchQuery(line) == Some(q)
    ensures QueryLine(line, q.category, b1, q.discid, b2, t) && q.title == Split(t)
  {
    hide Split, TakeAlpha, TakeHex, HasDelimiter;
    CutAt(line, q.category);
    var r := line[|q.category|..];
    FirstOff(r);
    CutAt(r[1..], q.discid);
    var e := r[1..][|q.discid|..];
    FirstOff(e);
    b1, b2, t := r[0], e[0], e[1..];
  }

  /** The matcher accepts exactly a word, a blank, hexadecimal digits, a blank and any text, and captures them. */
  lemma MatchQueryExact(line: string, q: QueryMatch)
    ensures MatchQuery(line) == Some(q) <==>
            exists b1, b2, t :: QueryLine(line, q.category, b1, q.discid, b2, t) && q.title == Split(t)
  {
    hide Split, MatchQuery, QueryLine;
    if MatchQuery(line) == Some(q) {
      var b1, b2, t := QueryLineFound(line, q);
      assert QueryLine(line, q.category, b1, q.discid, b2, t);
    }
    if b1, b2, t :| QueryLine(line, q.category, b1, q.discid, b2, t) && q.title == Split(t) {
      QueryLineMatches(line, q.category, b1, q.discid, b2, t);
    }
  }
}
