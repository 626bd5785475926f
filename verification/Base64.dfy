/** The Base64 encoder (cddb_b64_encode) and its one use: the proxy credentials of a connection. */
module Base64 {
  import opened Text
  import opened Streams

  const UPPER := "ABCDEFGHIJKLMNOPQRSTUVWXYZ"
  const LOWER := "abcdefghijklmnopqrstuvwxyz"
  const DIGITS := "0123456789"

  /** b64_vec */
  const ALPHABET := UPPER + LOWER + DIGITS + "+/="

  /** A C string of characters that a signed `char` holds without a sign. */
  predicate SevenBit(s: string)
  {
    forall k :: 0 <= k < |s| ==> NUL < s[k] < 128 as char
  }

  // --- the encoding of section 4 of RFC 4648

  function LetterValue(c: char): int
  {
    if 'A' <= c <= 'Z' then c as int - 'A' as int
    else if 'a' <= c <= 'z' then c as int - 'a' as int + 26
    else if '0' <= c <= '9' then c as int - '0' as int + 52
    else if c == '+' then 62
    else if c == '/' then 63
    else -1
  }

  function Letter(v: nat): (c: char)
    requires v < 64
    ensures c != '=' && LetterValue(c) == v
  {
    if v < 26 then (v + 'A' as int) as char
    else if v < 52 then (v - 26 + 'a' as int) as char
    else if v < 62 then (v - 52 + '0' as int) as char
    else if v == 62 then '+' else '/'
  }

  /** The table of the source holds the letters in order, and then the padding. */
  lemma AlphabetIsLetters(v: nat)
    requires v < 64
    ensures ALPHABET[v] == Letter(v)
  {
    assert |UPPER| == |LOWER| == 26 && |DIGITS| == 10;
    if v < 26 {
      assert ALPHABET[v] == UPPER[v];
    } else if v < 52 {
      assert ALPHABET[v] == LOWER[v - 26];
    } else if v < 62 {
      assert ALPHABET[v] == DIGITS[v - 52];
    } else {
      assert ALPHABET[v] == "+/="[v - 62];
    }
  }

  predicate Byte(x: int) { 0 <= x < 256 }

  /** The four letters of three bytes: six bits each. */
  function Quad(x: nat, y: nat, z: nat): (q: string)
    requires Byte(x) && Byte(y) && Byte(z)
    ensures |q| == 4
  {
    [Letter(x / 4), Letter(x % 4 * 16 + y / 16), Letter(y % 16 * 4 + z / 64), Letter(z % 64)]
  }

  /** One or two bytes at the end, with padding in the place of the missing letters. */
  function Single(x: nat): (q: string)
    requires Byte(x)
    ensures |q| == 4
  {
    Quad(x, 0, 0)[..2] + "=="
  }

  function Pair(x: nat, y: nat): (q: string)
    requires Byte(x) && Byte(y)
    ensures |q| == 4
  {
    Quad(x, y, 0)[..3] + "="
  }

  lemma EncodedLength(n: nat)
    ensures n >= 3 ==> (n + 2) / 3 * 4 == 4 + (n - 3 + 2) / 3 * 4
  {
  }

  function Encode(s: string): (e: string)
    requires SevenBit(s)
    ensures |e| == (|s| + 2) / 3 * 4
  {
    if |s| == 0 then ""
    else if |s| == 1 then Single(s[0] as int)
    else if |s| == 2 then Pair(s[0] as int, s[1] as int)
    else
      EncodedLength(|s|);
      Quad(s[0] as int, s[1] as int, s[2] as int) + Encode(s[3..])
  }

  // --- the decoder of section 4 of RFC 4648

  /** The bytes of four letters, of which the last two may be padding. */
  function DecodeQuad(q: string): Option<seq<nat>>
    requires |q| == 4
  {
    var a, b, c, d := LetterValue(q[0]), LetterValue(q[1]), LetterValue(q[2]), LetterValue(q[3]);
    if a < 0 || b < 0 then None
    else if q[2] == '=' && q[3] == '=' then
      if b % 16 == 0 then Some([a * 4 + b / 16]) else None
    else if c < 0 then None
    else if q[3] == '=' then
      if c % 4 == 0 then Some([a * 4 + b / 16, b % 16 * 16 + c / 4]) else None
    else if d < 0 then None
    else Some([a * 4 + b / 16, b % 16 * 16 + c / 4, c % 4 * 64 + d])
  }

  /** Padding may only end the text. */
  function Decode(e: string): Option<seq<nat>>
  {
    if e == "" then Some([])
    else if |e| < 4 then None
    else
      match DecodeQuad(e[..4])
      case None => None
      case Some(bytes) =>
        if |e| > 4 && |bytes| < 3 then None
        else match Decode(e[4..]) case None => None case Some(more) => Some(bytes + more)
  }

  function Bytes(s: string): (b: seq<nat>)
    ensures |b| == |s|
  {
    seq(|s|, i requires 0 <= i < |s| => s[i] as int)
  }

  lemma AtLeastOne(k: nat, d: int)
    ensures d >= 1 ==> k * d >= k
    ensures d <= -1 ==> k * d <= 0 - k
  {
    if d >= 1 {
      assert k * d == k * (d - 1) + k;
    } else if d <= -1 {
      assert k * d == k * (d + 1) - k;
    }
  }

  /** Quotient and remainder are unique. */
  lemma Parts(t: nat, k: nat, q: nat, r: nat)
    requires k > 0 && t == k * q + r && r < k
    ensures t / k == q && t % k == r
  {
    AtLeastOne(k, t / k - q);
    assert k * (t / k - q) + t % k == r;
  }

  /** What the decoder makes of letters. */
  lemma DecodeLetters(a: nat, b: nat, c: nat, d: nat)
    requires a < 64 && b < 64 && c < 64 && d < 64
    ensures var q := [Letter(a), Letter(b), Letter(c), Letter(d)];
      && DecodeQuad(q) == Some([a * 4 + b / 16, b % 16 * 16 + c / 4, c % 4 * 64 + d])
      && (c % 4 == 0 ==> DecodeQuad(q[..3] + "=") == Some([a * 4 + b / 16, b % 16 * 16 + c / 4]))
      && (b % 16 == 0 ==> DecodeQuad(q[..2] + "==") == Some([a * 4 + b / 16]))
  {
    hide Letter, LetterValue;
  }

  lemma QuadReadsBack(x: nat, y: nat, z: nat)
    requires Byte(x) && Byte(y) && Byte(z)
    ensures var q := Quad(x, y, z);
      && DecodeQuad(q) == Some([x, y, z])
      && (z == 0 ==> DecodeQuad(q[..3] + "=") == Some([x, y]))
      && (y == 0 && z == 0 ==> DecodeQuad(q[..2] + "==") == Some([x]))
  {
    hide Letter, LetterValue, DecodeQuad;
    var a, b, c := x / 4, x % 4 * 16 + y / 16, y % 16 * 4 + z / 64;
    Parts(b, 16, x % 4, y / 16);
    Parts(c, 4, y % 16, z / 64);
    DecodeLetters(a, b, c, z % 64);
  }

  lemma DecodeStep(q: string, e: string, bytes: seq<nat>, more: seq<nat>)
    requires |q| == 4 && DecodeQuad(q) == Some(bytes) && Decode(e) == Some(more)
    requires e == "" || |bytes| == 3
    ensures Decode(q + e) == Some(bytes + more)
  {
    assert (q + e)[..4] == q && (q + e)[4..] == e;
  }

  /** Decoding gives back every seven-bit string. */
  lemma {:induction false} DecodeEncode(s: string)
    requires SevenBit(s)
    ensures Decode(Encode(s)) == Some(Bytes(s))
  {
    hide Quad, DecodeQuad;
    if |s| == 0 {
    } else if |s| == 1 {
      QuadReadsBack(s[0] as int, 0, 0);
      assert Bytes(s) == [s[0] as int] == [s[0] as int] + [];
      DecodeStep(Encode(s), "", Bytes(s), []);
      assert Encode(s) + "" == Encode(s);
    } else if |s| == 2 {
      QuadReadsBack(s[0] as int, s[1] as int, 0);
      assert Bytes(s) == [s[0] as int, s[1] as int] == [s[0] as int, s[1] as int] + [];
      DecodeStep(Encode(s), "", Bytes(s), []);
      assert Encode(s) + "" == Encode(s);
    } else {
      QuadReadsBack(s[0] as int, s[1] as int, s[2] as int);
      DecodeEncode(s[3..]);
      var bytes := [s[0] as int, s[1] as int, s[2] as int];
      var q := Quad(s[0] as int, s[1] as int, s[2] as int);
      DecodeStep(q, Encode(s[3..]), bytes, Bytes(s[3..]));
      assert Bytes(s) == bytes + Bytes(s[3..]);
    }
  }

  // --- the encoder, writing into a buffer

  /** Bytes shifted together eight bits at a time, as the loop collects them. */
  function Shifted(t: string): (n: nat)
    ensures t == "" ==> n == 0
  {
    if t == "" then 0 else Shifted(t[..|t| - 1]) * 0x100 + t[|t| - 1] as int
  }

  lemma ShiftedStep(s: string, from: nat, to: nat)
    requires from <= to < |s|
    ensures Shifted(s[from..to + 1]) == Shifted(s[from..to]) * 0x100 + s[to] as int
  {
    assert s[from..to + 1][..to - from] == s[from..to];
  }

  lemma ShiftedOne(t: string)
    requires |t| == 1
    ensures Shifted(t) == t[0] as int
  {
    ShiftedStep(t, 0, 0);
    assert t[0..1] == t;
  }

  lemma ShiftedTwo(t: string)
    requires |t| == 2
    ensures Shifted(t) == t[0] as int * 0x100 + t[1] as int
  {
    ShiftedStep(t, 0, 1);
    ShiftedStep(t, 0, 0);
    assert t[0..2] == t;
  }

  lemma ShiftedThree(t: string)
    requires |t| == 3
    ensures Shifted(t) == t[0] as int * 0x1_0000 + t[1] as int * 0x100 + t[2] as int
  {
    ShiftedStep(t, 0, 2);
    ShiftedStep(t, 0, 1);
    ShiftedStep(t, 0, 0);
    assert t[0..3] == t;
  }

  /** The sextets of one, two and three bytes, as the source takes them out of the shifted bytes. */
  lemma OneByteSextets(x: nat)
    requires Byte(x)
    ensures x / 4 < 64 && x * 16 % 64 == x % 4 * 16
  {
    assert x * 16 == 64 * (x / 4) + x % 4 * 16;
  }

  lemma TwoByteSextets(x: nat, y: nat)
    requires Byte(x) && Byte(y)
    ensures var t := x * 0x100 + y;
      t / 0x400 == x / 4 && t / 16 % 64 == x % 4 * 16 + y / 16 && t * 4 % 64 == y % 16 * 4
  {
    var t := x * 0x100 + y;
    var a, b, c, e := x / 4, x % 4, y / 16, y % 16;
    Parts(t, 0x400, a, b * 0x100 + y);
    Parts(t, 16, x * 16 + c, e);
    Parts(x * 16 + c, 64, a, b * 16 + c);
    Parts(t * 4, 64, x * 16 + c, e * 4);
  }

  lemma ThreeByteSextets(x: nat, y: nat, z: nat)
    requires Byte(x) && Byte(y) && Byte(z)
    ensures var t := x * 0x1_0000 + y * 0x100 + z;
      && t / 0x4_0000 == x / 4 && t / 0x1000 % 64 == x % 4 * 16 + y / 16
      && t / 64 % 64 == y % 16 * 4 + z / 64 && t % 64 == z % 64
  {
    var t := x * 0x1_0000 + y * 0x100 + z;
    var a, b, c, e, f, g := x / 4, x % 4, y / 16, y % 16, z / 64, z % 64;
    Parts(t, 0x4_0000, a, b * 0x1_0000 + y * 0x100 + z);
    Parts(t, 0x1000, x * 16 + c, e * 0x100 + z);
    Parts(x * 16 + c, 64, a, b * 16 + c);
    Parts(t, 64, x * 0x400 + y * 4 + f, g);
    Parts(x * 0x400 + y * 4 + f, 64, x * 16 + c, e * 4 + f);
  }

  /** The table, looked up. */
  function Look(v: nat): (c: char)
    requires v < 64
    ensures c == Letter(v)
  {
    AlphabetIsLetters(v);
    ALPHABET[v]
  }

  /** Four writes through the moving destination. */
  method Put(dst: array<char>, d: nat, q: string)
    requires |q| == 4 && d + 4 <= dst.Length
    modifies dst
    ensures dst[..d + 4] == old(dst[..d]) + q
    ensures forall k :: d + 4 <= k < dst.Length ==> dst[k] == old(dst[k])
  {
    dst[d] := q[0];
    dst[d + 1] := q[1];
    dst[d + 2] := q[2];
    dst[d + 3] := q[3];
  }

  /** The terminating zero. */
  method PutEnd(dst: array<char>, d: nat)
    requires d < dst.Length
    modifies dst
    ensures dst[..] == old(dst[..d]) + [NUL] + old(dst[d + 1..])
  {
    dst[d] := NUL;
  }

  lemma FourLetters(a: nat, b: nat, c: nat, d: nat, x: nat, y: nat, z: nat)
    requires Byte(x) && Byte(y) && Byte(z)
    requires a == x / 4 && b == x % 4 * 16 + y / 16 && c == y % 16 * 4 + z / 64 && d == z % 64
    ensures a < 64 && b < 64 && c < 64 && [Letter(a), Letter(b), Letter(c), Letter(d)] == Quad(x, y, z)
  {
    hide Letter;
  }

  /** The letters of three bytes, taken out of the shifted bytes. */
  lemma ThreeLetters(x: nat, y: nat, z: nat)
    requires Byte(x) && Byte(y) && Byte(z)
    ensures var t := x * 0x1_0000 + y * 0x100 + z;
      t / 0x4_0000 < 64 &&
      [Letter(t / 0x4_0000), Letter(t / 0x1000 % 64), Letter(t / 64 % 64), Letter(t % 64)] == Quad(x, y, z)
  {
    hide Letter, Quad;
    var t := x * 0x1_0000 + y * 0x100 + z;
    ThreeByteSextets(x, y, z);
    FourLetters(t / 0x4_0000, t / 0x1000 % 64, t / 64 % 64, t % 64, x, y, z);
  }

  /** Those of two bytes, of which the last letter gives way to padding. */
  lemma TwoLetters(x: nat, y: nat)
    requires Byte(x) && Byte(y)
    ensures var t := x * 0x100 + y;
      t / 0x400 < 64 &&
      [Letter(t / 0x400), Letter(t / 16 % 64), Letter(t * 4 % 64), '='] == Quad(x, y, 0)[..3] + "="
  {
    hide Letter;
    TwoByteSextets(x, y);
    var q := Quad(x, y, 0);
    assert q[..3] == [q[0], q[1], q[2]];
  }

  lemma OneLetters(x: nat)
    requires Byte(x)
    ensures x / 4 < 64 && [Letter(x / 4), Letter(x * 16 % 64), '=', '='] == Quad(x, 0, 0)[..2] + "=="
  {
    hide Letter;
    OneByteSextets(x);
    var q := Quad(x, 0, 0);
    assert q[..2] == [q[0], q[1]];
  }

  method TripleLetters(triplet: nat, ghost s: string) returns (q: string)
    requires SevenBit(s) && |s| == 3 && triplet == Shifted(s)
    ensures q == Quad(s[0] as int, s[1] as int, s[2] as int)
  {
    hide Letter, Shifted, Quad;
    ShiftedThree(s);
    ThreeLetters(s[0] as int, s[1] as int, s[2] as int);
    q := [Look(triplet / 0x4_0000), Look(triplet / 0x1000 % 64), Look(triplet / 64 % 64),
          Look(triplet % 64)];
  }

  /** The switch after the loop: the letters of one or two bytes that are left over. */
  method RestLetters(triplet: nat, i: nat, ghost s: string) returns (q: string)
    requires SevenBit(s) && 0 < |s| == i < 3 && triplet == Shifted(s)
    ensures q == Encode(s)
  {
    hide Letter, Shifted, Quad, LetterValue;
    if i == 1 {
      ShiftedOne(s);
      OneLetters(s[0] as int);
      q := [Look(triplet / 4), Look(triplet * 16 % 64), '=', '='];
    } else {
      ShiftedTwo(s);
      TwoLetters(s[0] as int, s[1] as int);
      q := [Look(triplet / 0x400), Look(triplet / 16 % 64), Look(triplet * 4 % 64), '='];
    }
  }

  /** What was written encodes the front of the text. */
  ghost predicate Progress(src: string, from: nat, out: string)
    requires SevenBit(src)
  {
    from <= |src| && out + Encode(src[from..]) == Encode(src)
  }

  lemma NoProgress(src: string)
    requires SevenBit(src)
    ensures Progress(src, 0, "")
  {
    assert src[0..] == src;
  }

  lemma EndProgress(src: string, from: nat, out: string)
    requires SevenBit(src) && Progress(src, from, out)
    ensures from <= |src| && out + Encode(src[from..]) == Encode(src)
    ensures from == |src| ==> out == Encode(src)
  {
  }

  /** One round of the encoding, taken off the front. */
  lemma EncodeRound(src: string, from: nat, out: string) returns (quad: string)
    requires SevenBit(src) && from + 3 <= |src| && Progress(src, from, out)
    ensures quad == Quad(src[from] as int, src[from + 1] as int, src[from + 2] as int)
    ensures Progress(src, from + 3, out + quad) && |out| + 4 <= |Encode(src)|
  {
    hide Quad;
    assert src[from..][3..] == src[from + 3..];
    quad := Quad(src[from] as int, src[from + 1] as int, src[from + 2] as int);
  }

  /** cddb_b64_encode: the text and its terminating zero fill the front of the buffer, and nothing
      behind them is touched. */
  method EncodeInto(dst: array<char>, src: string)
    requires SevenBit(src) && |Encode(src)| + 1 <= dst.Length
    modifies dst
    ensures dst[..] == Encode(src) + [NUL] + old(dst[|Encode(src)| + 1..])
  {
    hide Quad, Encode, Shifted, Progress;
    NoProgress(src);
    ghost var out := "";
    ghost var from := 0;
    var triplet, i := 0, 0;
    var s, d := 0, 0;
    while s < |src|
      invariant from <= s <= |src| && i == s - from < 3
      invariant triplet == Shifted(src[from..s])
      invariant Progress(src, from, out) && d == |out| <= |Encode(src)|
      invariant dst[..d] == out && forall k :: d <= k < dst.Length ==> dst[k] == old(dst[k])
    {
      ShiftedStep(src, from, s);
      triplet := triplet * 0x100 + src[s] as int;
      s := s + 1;
      i := i + 1;
      if i < 3 { continue; }
      ghost var quad := EncodeRound(src, from, out);
      var q := TripleLetters(triplet, src[from..s]);
      Put(dst, d, q);
      out := out + quad;
      d := d + 4;
      i := 0;
      triplet := 0;
      from := s;
    }
    EndProgress(src, from, out);
    assert src[from..] == src[from..s];
    if i > 0 {
      var q := RestLetters(triplet, i, src[from..]);
      Put(dst, d, q);
      out, d := out + q, d + 4;
    }
    assert out == Encode(src);
    assert dst[d + 1..] == old(dst[d + 1..]);
    PutEnd(dst, d);
  }

  // --- the proxy credentials

  /** The buffer of twice the length with its terminator holds the encoding with its terminator for
      every text but that of one character, the lone colon. */
  lemma BufferFits(n: nat)
    requires n >= 1
    ensures (n + 2) / 3 * 4 + 1 <= 2 * (n + 1) <==> n != 1
  {
    assert (n + 2) / 3 * 3 <= n + 2;
  }

  lemma {:induction false} LettersNotNul(s: string)
    requires SevenBit(s)
    ensures forall k :: 0 <= k < |Encode(s)| ==> Encode(s)[k] != NUL
  {
    if |s| >= 3 { LettersNotNul(s[3..]); }
  }

  lemma JoinedSeven(username: string, password: string)
    requires SevenBit(username) && SevenBit(password)
    ensures SevenBit(username + ":" + password)
  {
  }

  /** The buffers of cddb_set_http_proxy_auth, for a text and its length with the terminator. */
  method EncodeAuth(plain: string, len: nat) returns (auth: string)
    requires SevenBit(plain) && len == |plain| + 1 > 2
    ensures auth == Encode(plain)
  {
    hide Encode, CString, SevenBit;
    BufferFits(|plain|);
    var b64 := new char[len * 2];
    ghost var code, rest := Encode(plain), b64[|Encode(plain)| + 1..];
    EncodeInto(b64, plain);
    LettersNotNul(plain);
    CStringUntil(code, rest);
    assert code + [NUL] + rest == code + ([NUL] + rest);
    auth := CString(b64[..]);
  }

  /** cddb_set_http_proxy_auth, for a user name and a password that are not both empty. */
  method SetHttpProxyAuth(username: Str, password: Str) returns (auth: string)
    requires SevenBit(OrEmpty(username)) && SevenBit(OrEmpty(password))
    requires OrEmpty(username) != "" || OrEmpty(password) != ""
    ensures auth == Encode(OrEmpty(username) + ":" + OrEmpty(password))
    ensures Decode(auth) == Some(Bytes(OrEmpty(username) + ":" + OrEmpty(password)))
  {
    hide Encode, Decode, Bytes, CString, SevenBit;
    JoinedSeven(OrEmpty(username), OrEmpty(password));
    var len := 0;
    if username.Some? { len := len + |username.value|; }
    if password.Some? { len := len + |password.value|; }
    len := len + 2;
    var plain := OrEmpty(username) + ":" + OrEmpty(password);
    DecodeEncode(plain);
    auth := EncodeAuth(plain, len);
  }
}
