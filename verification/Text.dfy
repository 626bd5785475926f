/** Character strings as the C library prints and reads them: optional strings, decimal and
    hexadecimal numbers, padding, and the " / " delimiter between an artist and a title. */
module Text {

  datatype Option<+T> = None | Some(value: T)

  /** A NULL `char *` is None. */
  type Str = Option<string>

  /** An unsigned 32-bit quantity. */
  type Word = n: nat | n < 0x1_0000_0000

  /** A NULL string counts as empty. */
  function OrEmpty(s: Str): string
  {
    match s case None => "" case Some(v) => v
  }

  /** What snprintf leaves of a text in a buffer of that size. */
  function Cut(text: string, size: nat): (r: string)
    requires size > 0
    ensures r <= text && |r| < size
  {
    if |text| < size then text else text[..size - 1]
  }

  // --- characters and runs of characters

  predicate IsDigit(c: char) { '0' <= c <= '9' }

  predicate IsBlank(c: char) { c == ' ' || c == '\t' }

  predicate AllDigits(s: string) { forall k :: 0 <= k < |s| ==> IsDigit(s[k]) }

  predicate AllBlank(s: string) { forall k :: 0 <= k < |s| ==> IsBlank(s[k]) }

  function Spaces(n: nat): (s: string)
    ensures |s| == n && AllBlank(s)
    ensures forall k :: 0 <= k < n ==> s[k] == ' '
  {
    seq(n, _ => ' ')
  }

  // --- decimal numbers

  function DigitValue(c: char): (v: nat)
    requires IsDigit(c)
    ensures v < 10
  {
    c as int - '0' as int
  }

  function DigitChar(v: nat): (c: char)
    requires v < 10
    ensures IsDigit(c) && DigitValue(c) == v
  {
    (v + '0' as int) as char
  }

  /** The digits `%d` prints for a number that is not negative. */
  function Decimal(n: nat): (s: string)
    ensures |s| > 0 && AllDigits(s)
  {
    if n < 10 then [DigitChar(n)] else Decimal(n / 10) + [DigitChar(n % 10)]
  }

  /** The number `atoi` reads from a run of digits; the empty run reads as 0. */
  function DecimalValue(s: string): nat
    requires AllDigits(s)
  {
    if s == [] then 0 else DecimalValue(s[..|s| - 1]) * 10 + DigitValue(s[|s| - 1])
  }

  function Pow10(k: nat): (p: nat)
    ensures p > 0
  {
    if k == 0 then 1 else 10 * Pow10(k - 1)
  }

  lemma {:induction false} DecimalReadsBack(n: nat)
    ensures DecimalValue(Decimal(n)) == n
  {
    var s := Decimal(n);
    if n >= 10 {
      DecimalReadsBack(n / 10);
      assert s[..|s| - 1] == Decimal(n / 10);
    } else {
      assert s[..|s| - 1] == [];
    }
  }

  /** A decimal fits k columns exactly when it is below 10 to the k. */
  lemma {:induction false} DecimalWidth(n: nat, k: nat)
    requires k > 0
    ensures |Decimal(n)| <= k <==> n < Pow10(k)
  {
    if k == 1 {
      assert Pow10(1) == 10 * Pow10(0);
    } else if n >= 10 {
      DecimalWidth(n / 10, k - 1);
      assert n / 10 < Pow10(k - 1) <==> n < 10 * Pow10(k - 1);
    } else {
      assert Pow10(k) == 10 * Pow10(k - 1);
    }
  }

  /** The text of `%d`. */
  function Signed(n: int): (s: string)
    ensures |s| > 0
  {
    if n < 0 then "-" + Decimal(-n) else Decimal(n)
  }

  /** The text of `%<w>d`: padded with spaces on the left, never cut. */
  function Padded(w: nat, n: int): (s: string)
    ensures |s| >= w
  {
    var d := Signed(n);
    if |d| < w then Spaces(w - |d|) + d else d
  }

  // --- hexadecimal numbers

  predicate IsHexDigit(c: char) { IsDigit(c) || 'a' <= c <= 'f' || 'A' <= c <= 'F' }

  function HexChar(v: nat): (c: char)
    requires v < 16
  {
    if v < 10 then DigitChar(v) else (v - 10 + 'a' as int) as char
  }

  function HexValue(c: char): (v: nat)
    requires IsHexDigit(c)
    ensures v < 16
  {
    if IsDigit(c) then DigitValue(c)
    else if 'a' <= c <= 'f' then c as int - 'a' as int + 10
    else c as int - 'A' as int + 10
  }

  /** The number `strtoll(s, NULL, 16)` reads from a run of hexadecimal digits. */
  function HexNumber(s: string): nat
    requires forall k :: 0 <= k < |s| ==> IsHexDigit(s[k])
  {
    if s == [] then 0 else HexNumber(s[..|s| - 1]) * 16 + HexValue(s[|s| - 1])
  }

  /** The low k hexadecimal digits of n, most significant first. */
  function HexDigits(n: nat, k: nat): (s: string)
    ensures |s| == k
    ensures forall j :: 0 <= j < k ==> IsHexDigit(s[j])
  {
    if k == 0 then [] else HexDigits(n / 16, k - 1) + [HexChar(n % 16)]
  }

  function Pow16(k: nat): nat
  {
    if k == 0 then 1 else 16 * Pow16(k - 1)
  }

  /** The text of `%08x`. */
  function Hex8(n: Word): (s: string)
    ensures |s| == 8
  {
    HexDigits(n, 8)
  }

  lemma {:induction false} HexReadsBack(n: nat, k: nat)
    requires n < Pow16(k)
    ensures HexNumber(HexDigits(n, k)) == n
  {
    if k > 0 {
      HexReadsBack(n / 16, k - 1);
      var s := HexDigits(n, k);
      assert s[..|s| - 1] == HexDigits(n / 16, k - 1);
      assert s[|s| - 1] == HexChar(n % 16);
    }
  }

  lemma PowersOf16()
    ensures Pow16(8) == 0x1_0000_0000
  {
    assert Pow16(4) == 0x1_0000;
  }

  /** `%08x` prints small letters. */
  lemma {:induction false} HexIsLower(n: nat, k: nat)
    ensures forall j :: 0 <= j < k ==> '0' <= HexDigits(n, k)[j] <= '9' || 'a' <= HexDigits(n, k)[j] <= 'f'
  {
    if k > 0 { HexIsLower(n / 16, k - 1); }
  }

  /** The digits count as they stand in the alphabet, and capitals as small letters do. */
  lemma HexDigitValues(v: nat)
    requires v < 16
    ensures HexChar(v) == "0123456789abcdef"[v] && HexValue(HexChar(v)) == v
    ensures var c := "0123456789ABCDEF"[v]; IsHexDigit(c) && HexValue(c) == v
    ensures v < 10 ==> DigitChar(v) == "0123456789"[v]
  {
  }

  /** Which characters are digits, blanks and hexadecimal digits. */
  lemma CharacterClasses(c: char)
    ensures IsDigit(c) <==> c in "0123456789"
    ensures IsBlank(c) <==> c in " \t"
    ensures IsHexDigit(c) <==> c in "0123456789abcdefABCDEF"
  {
  }

  /** Eight small hexadecimal digits. */
  predicate IsHex8(w: string): (b: bool)
    ensures b ==> forall k :: 0 <= k < |w| ==> IsHexDigit(w[k])
  {
    |w| == 8 && forall k :: 0 <= k < 8 ==> w[k] in "0123456789abcdef"
  }

  lemma Hex8Word(id: Word)
    ensures IsHex8(Hex8(id)) && ' ' !in Hex8(id)
  {
    var h := Hex8(id);
    HexIsLower(id, 8);
    hide HexDigits;
    forall k | 0 <= k < 8 ensures h[k] in "0123456789abcdef" && h[k] != ' ' {
      CharacterClasses(h[k]);
    }
  }

  lemma Hex8Reads(id: Word)
    ensures HexNumber(Hex8(id)) == id
  {
    PowersOf16();
    HexReadsBack(id, 8);
  }

  /** Two identifiers print alike only if they are the same identifier. */
  lemma Hex8Injective(a: Word, b: Word)
    requires Hex8(a) == Hex8(b)
    ensures a == b
  {
    Hex8Reads(a);
    Hex8Reads(b);
  }

  // --- words

  /** The pieces between single spaces. */
  function Words(s: string): (ws: seq<string>)
    ensures |ws| > 0
  {
    if s == "" then [""]
    else
      var rest := Words(s[1..]);
      if s[0] == ' ' then [""] + rest else [[s[0]] + rest[0]] + rest[1..]
  }

  lemma {:induction false} OneWord(w: string)
    requires ' ' !in w
    ensures Words(w) == [w]
  {
    if w != "" {
      assert w == [w[0]] + w[1..];
      OneWord(w[1..]);
    }
  }

  lemma WordsStep(c: char, s: string)
    ensures var rest := Words(s);
      Words([c] + s) == if c == ' ' then [""] + rest else [[c] + rest[0]] + rest[1..]
  {
    assert ([c] + s)[1..] == s;
  }

  lemma FirstChar(a: string, s: string)
    requires a != ""
    ensures a == [a[0]] + a[1..] && a + s == [a[0]] + (a[1..] + s)
  {
  }

  lemma ConsJoin(c: char, x: seq<string>, y: seq<string>)
    requires x != []
    ensures [""] + (x + y) == ([""] + x) + y
    ensures [[c] + (x + y)[0]] + (x + y)[1..] == ([[c] + x[0]] + x[1..]) + y
  {
  }

  lemma {:induction false} WordsJoin(a: string, b: string)
    ensures Words(a + (" " + b)) == Words(a) + Words(b)
  {
    hide Words;
    if a == "" {
      WordsStep(' ', b);
      OneWord("");
      assert a + (" " + b) == [' '] + b;
    } else {
      WordsJoin(a[1..], b);
      WordsStep(a[0], a[1..]);
      WordsStep(a[0], a[1..] + (" " + b));
      FirstChar(a, " " + b);
      ConsJoin(a[0], Words(a[1..]), Words(b));
    }
  }

  /** A word in front of the others. */
  lemma FirstWord(w: string, s: string)
    requires ' ' !in w
    ensures Words(w + (" " + s)) == [w] + Words(s)
  {
    OneWord(w);
    WordsJoin(w, s);
  }

  // --- the delimiter between artist and title

  const DELIMITER := " / "

  predicate DelimiterAt(s: string, i: int)
  {
    0 <= i && i + 3 <= |s| && s[i] == ' ' && s[i + 1] == '/' && s[i + 2] == ' '
  }

  predicate HasDelimiter(s: string)
  {
    exists i :: 0 <= i < |s| && DelimiterAt(s, i)
  }

  /** What the group `((.*) / (.*)|(.*))` captures. */
  datatype Titled = Both(artist: string, title: string) | Only(text: string)

  /** The last position below k at which a delimiter starts, or -1. */
  function LastDelimiter(s: string, k: nat): (i: int)
    requires k <= |s|
    ensures -1 <= i < k
    ensures i >= 0 ==> DelimiterAt(s, i)
    ensures forall j :: i < j < k ==> !DelimiterAt(s, j)
  {
    if k == 0 then -1
    else if DelimiterAt(s, k - 1) then k - 1
    else LastDelimiter(s, k - 1)
  }

  /** The first `(.*)` takes as much as it can, so the text is cut at the last delimiter. */
  function Split(s: string): (t: Titled)
    ensures t.Both? ==> s == t.artist + DELIMITER + t.title
    ensures t.Both? <==> HasDelimiter(s)
    ensures t.Only? ==> t.text == s
  {
    var i := LastDelimiter(s, |s|);
    if i < 0 then Only(s) else
      assert s[i..i + 3] == DELIMITER;
      assert s == s[..i] + s[i..i + 3] + s[i + 3..];
      Both(s[..i], s[i + 3..])
  }

  /** A title that survives being joined to an artist: it holds no delimiter, and does not turn
      the delimiter's own last space into the start of a later one. */
  predicate SplitsBack(title: string)
  {
    !HasDelimiter(title) && !("/ " <= title)
  }

  lemma JoinDelimiters(artist: string, title: string, i: int)
    ensures var s := artist + DELIMITER + title;
      && DelimiterAt(s, |artist|)
      && (DelimiterAt(s, |artist| + 2) <==> "/ " <= title)
      && (i >= 0 ==> (DelimiterAt(s, |artist| + 3 + i) <==> DelimiterAt(title, i)))
      && !DelimiterAt(s, |artist| + 1)
  {
    var s := artist + DELIMITER + title;
    assert s[|artist|] == ' ' && s[|artist| + 1] == '/' && s[|artist| + 2] == ' ';
    assert s[|artist| + 3..] == title;
    if |title| >= 2 {
      assert s[|artist| + 3] == title[0] && s[|artist| + 4] == title[1];
      assert title[..2] == [title[0], title[1]];
    }
    if i >= 0 && i + 3 <= |title| {
      assert s[|artist| + 3 + i] == title[i] && s[|artist| + 3 + i + 1] == title[i + 1]
          && s[|artist| + 3 + i + 2] == title[i + 2];
    }
  }

  /** Joining with the delimiter and splitting again gives both parts back for every artist, and
      for exactly the titles that split back. */
  lemma SplitJoin(artist: string, title: string)
    ensures Split(artist + DELIMITER + title) == Both(artist, title) <==> SplitsBack(title)
    ensures Split(artist + DELIMITER + title).Both?
  {
    var s := artist + DELIMITER + title;
    var i := LastDelimiter(s, |s|);
    JoinDelimiters(artist, title, 0);
    assert i >= |artist|;
    if SplitsBack(title) {
      if i > |artist| {
        JoinDelimiters(artist, title, i - |artist| - 3);
        assert false;
      }
      assert s[..i] == artist && s[i + 3..] == title;
    } else {
      if HasDelimiter(title) {
        var j :| 0 <= j < |title| && DelimiterAt(title, j);
        JoinDelimiters(artist, title, j);
      }
      assert i > |artist|;
      assert |s[..i]| != |artist|;
    }
  }
}
