/** Lines as cddb_read_line takes them out of a stream of bytes with a buffer of a given size, and
    what becomes of lines that are written to a file and read again. */
module Streams {
  import opened Text

  const NUL := '\0'

  predicate IsEol(c: char) { c == '\r' || c == '\n' }

  /** How many bytes fgets takes when there is room for that many: it stops after a newline. */
  function Taken(s: string, room: nat): (n: nat)
    ensures n <= |s| && n <= room
    ensures n == 0 <==> room == 0 || s == ""
  {
    if room == 0 || s == "" then 0
    else if s[0] == '\n' then 1
    else 1 + Taken(s[1..], room - 1)
  }

  /** The part of a byte array that C sees as a string. */
  function CString(s: string): (r: string)
    ensures r <= s && NUL !in r
  {
    if s == "" || s[0] == NUL then "" else [s[0]] + CString(s[1..])
  }

  /** s without the carriage returns and newlines at its end. */
  function StripEol(s: string): (r: string)
    ensures r <= s
    ensures r != "" ==> !IsEol(r[|r| - 1])
  {
    if s != "" && IsEol(s[|s| - 1]) then StripEol(s[..|s| - 1]) else s
  }

  /** One call of cddb_read_line: the line and what is left, or None at the end of the stream. */
  function NextLine(s: string, size: nat): (r: Option<(string, string)>)
    requires size >= 2
    ensures r.None? <==> s == ""
    ensures r.Some? ==> |r.value.1| < |s|
  {
    var n := Taken(s, size - 1);
    if n == 0 then None else Some((StripEol(CString(s[..n])), s[n..]))
  }

  /** All lines until the stream ends. */
  function LinesOf(s: string, size: nat): (r: seq<string>)
    requires size >= 2
    decreases |s|
  {
    match NextLine(s, size)
    case None => []
    case Some((line, rest)) => [line] + LinesOf(rest, size)
  }

  /** What is left of the stream after k lines. */
  function Rest(s: string, size: nat, k: nat): string
    requires size >= 2
    decreases |s|
  {
    if k == 0 then s
    else match NextLine(s, size) case None => "" case Some((_, rest)) => Rest(rest, size, k - 1)
  }

  /** `fprintf(f, "%s\n", line)` for every line. */
  function Save(lines: seq<string>): string
  {
    if lines == [] then "" else lines[0] + "\n" + Save(lines[1..])
  }

  /** A line that a newline can end: no NUL, no newline inside, no carriage return at the end. */
  predicate Clean(line: string)
  {
    NUL !in line && '\n' !in line && (line != "" ==> line[|line| - 1] != '\r')
  }

  lemma {:induction false} TakenLine(line: string, rest: string, room: nat)
    requires '\n' !in line
    ensures Taken(line + ("\n" + rest), room) == if |line| + 1 <= room then |line| + 1 else room
  {
    var s := line + ("\n" + rest);
    if room > 0 && line != "" {
      assert s[1..] == line[1..] + ("\n" + rest);
      TakenLine(line[1..], rest, room - 1);
    } else if room > 0 {
      assert s[0] == '\n';
    }
  }

  lemma {:induction false} CStringClean(s: string)
    requires NUL !in s
    ensures CString(s) == s
  {
    if s != "" {
      CStringClean(s[1..]);
      assert s == [s[0]] + s[1..];
    }
  }

  lemma StripOne(line: string)
    requires Clean(line)
    ensures StripEol(line + "\n") == line == StripEol(line)
    ensures NUL !in line + "\n"
  {
    assert (line + "\n")[..|line|] == line;
  }

  lemma CutAfter(line: string, rest: string)
    ensures var s := line + ("\n" + rest);
      |s| > |line| && s[..|line| + 1] == line + "\n" && s[|line| + 1..] == rest
      && s[..|line|] == line && s[|line|..] == "\n" + rest
  {
  }

  /** A clean line that fits with its newline is read back as it was written. */
  lemma SavedLine(line: string, rest: string, size: nat)
    requires Clean(line) && size >= 2 && |line| <= size - 2
    ensures NextLine(line + ("\n" + rest), size) == Some((line, rest))
  {
    hide Taken, CString, StripEol;
    var s := line + ("\n" + rest);
    TakenLine(line, rest, size - 1);
    CutAfter(line, rest);
    StripOne(line);
    CStringClean(line + "\n");
  }

  /** A carriage return in front of the newline is stripped as well. */
  lemma ReturnedLine(line: string, rest: string, size: nat)
    requires Clean(line) && size >= 3 && |line| <= size - 3
    ensures NextLine(line + ("\r" + ("\n" + rest)), size) == Some((line, rest))
  {
    hide Taken, CString;
    var l := line + "\r";
    assert line + ("\r" + ("\n" + rest)) == l + ("\n" + rest);
    TakenLine(l, rest, size - 1);
    CutAfter(l, rest);
    StripOne(line);
    assert NUL !in l + "\n";
    CStringClean(l + "\n");
    assert StripEol(l + "\n") == StripEol(l) by { assert (l + "\n")[..|l|] == l; }
    assert StripEol(l) == StripEol(line) by { assert l[..|line|] == line; }
  }

  /** One that fills the buffer leaves its newline behind, to be read as an empty line. */
  lemma SavedLongLine(line: string, rest: string, size: nat)
    requires Clean(line) && size >= 2 && |line| == size - 1
    ensures NextLine(line + ("\n" + rest), size) == Some((line, "\n" + rest))
    ensures NextLine("\n" + rest, size) == Some(("", rest))
  {
    hide Taken, CString, StripEol;
    TakenLine(line, rest, size - 1);
    CutAfter(line, rest);
    StripOne(line);
    CStringClean(line);
    SavedLine("", rest, size);
    assert "" + ("\n" + rest) == "\n" + rest;
  }

  lemma {:induction false} StripPast(s: string, i: nat)
    requires i < |s| && !IsEol(s[i])
    ensures |StripEol(s)| > i
  {
    if IsEol(s[|s| - 1]) { StripPast(s[..|s| - 1], i); }
  }

  lemma {:induction false} CStringPast(front: string, c: char, rest: string)
    requires NUL !in front && c != NUL
    ensures front + [c] <= CString(front + ([c] + rest))
  {
    if front == "" {
      assert front + ([c] + rest) == [c] + rest;
    } else {
      assert (front + ([c] + rest))[1..] == front[1..] + ([c] + rest);
      CStringPast(front[1..], c, rest);
      assert front + [c] == [front[0]] + (front[1..] + [c]);
    }
  }

  lemma {:induction false} TakenPast(front: string, c: char, rest: string, room: nat)
    requires '\n' !in front && |front| + 1 <= room
    ensures Taken(front + ([c] + rest), room) > |front|
  {
    if front != "" {
      assert (front + ([c] + rest))[1..] == front[1..] + ([c] + rest);
      TakenPast(front[1..], c, rest, room - 1);
    }
  }

  /** A line that does not end where the buffer would allow it goes on with the next character. */
  lemma ReadsPast(front: string, c: char, rest: string, size: nat)
    requires NUL !in front && '\n' !in front && |front| + 2 <= size && c != NUL && !IsEol(c)
    ensures var r := NextLine(front + ([c] + rest), size);
      r.Some? && |r.value.0| > |front| && r.value.0[|front|] == c
  {
    var s := front + ([c] + rest);
    var n := Taken(s, size - 1);
    TakenPast(front, c, rest, size - 1);
    CStringPast(front, c, s[|front| + 1..n]);
    assert s[..n] == front + ([c] + s[|front| + 1..n]);
    StripPast(CString(s[..n]), |front|);
  }

  /** A zero where a line should begin reads as an empty line. */
  lemma ZeroReadsEmpty(rest: string, size: nat)
    requires size >= 2
    ensures LinesOf([NUL] + rest, size) != [] && LinesOf([NUL] + rest, size)[0] == ""
  {
    var s := [NUL] + rest;
    var n := Taken(s, size - 1);
    assert n >= 1 && s[..n][0] == NUL;
    assert CString(s[..n]) == "";
  }

  /** A byte array is the string up to its first zero. */
  lemma {:induction false} CStringUntil(front: string, rest: string)
    requires NUL !in front
    ensures CString(front + ([NUL] + rest)) == front
  {
    if front == "" {
      assert front + ([NUL] + rest) == [NUL] + rest;
    } else {
      assert (front + ([NUL] + rest))[1..] == front[1..] + ([NUL] + rest);
      CStringUntil(front[1..], rest);
    }
  }

  lemma {:induction false} TakenAll(s: string, room: nat)
    requires '\n' !in s && |s| <= room
    ensures Taken(s, room) == |s|
  {
    if s != "" { TakenAll(s[1..], room - 1); }
  }

  lemma ZeroEndsNext(line: string, size: nat)
    requires Clean(line) && |line| + 2 <= size
    ensures NextLine(line + [NUL], size) == Some((line, ""))
  {
    hide Taken, CString, StripEol;
    var s := line + [NUL];
    TakenAll(s, size - 1);
    assert s[..|s|] == s && s[|s|..] == "";
    CStringUntil(line, "");
    assert line + ([NUL] + "") == s;
    StripOne(line);
  }

  /** A last line that ends in a zero instead of a newline. */
  lemma ZeroEndsLine(line: string, size: nat)
    requires Clean(line) && |line| + 2 <= size
    ensures LinesOf(line + [NUL], size) == [line]
  {
    hide NextLine;
    ZeroEndsNext(line, size);
    assert NextLine("", size) == None;
  }

  lemma {:induction false} TakenInner(s: string, room: nat)
    ensures forall k :: 0 <= k < Taken(s, room) - 1 ==> s[k] != '\n'
  {
    if room > 0 && s != "" && s[0] != '\n' {
      TakenInner(s[1..], room - 1);
      forall k | 0 <= k < Taken(s, room) - 1 ensures s[k] != '\n' {
        if k > 0 { assert s[k] == s[1..][k - 1]; }
      }
    }
  }

  /** Every line read is clean and shorter than the buffer. */
  lemma LineRead(s: string, size: nat)
    requires size >= 2 && NextLine(s, size).Some?
    ensures var line := NextLine(s, size).value.0; Clean(line) && |line| <= size - 1
  {
    var n := Taken(s, size - 1);
    var c := CString(s[..n]);
    var line := StripEol(c);
    TakenInner(s, size - 1);
    forall k | 0 <= k < |line| ensures line[k] != '\n' {
      assert line[k] == c[k] == s[k];
    }
  }

  lemma {:induction false} LinesRead(s: string, size: nat)
    requires size >= 2
    ensures forall k :: 0 <= k < |LinesOf(s, size)| ==>
      Clean(LinesOf(s, size)[k]) && |LinesOf(s, size)[k]| <= size - 1
    decreases |s|
  {
    match NextLine(s, size)
    case None =>
    case Some((line, rest)) =>
      LineRead(s, size);
      LinesRead(rest, size);
  }

  predicate AllClean(lines: seq<string>)
  {
    forall k :: 0 <= k < |lines| ==> Clean(lines[k])
  }

  predicate AllShort(lines: seq<string>, n: int)
  {
    forall k :: 0 <= k < |lines| ==> |lines[k]| <= n
  }

  /** Reading saved lines yields at least as many lines, and more if one of them fills the buffer. */
  lemma {:induction false} SavedCount(lines: seq<string>, size: nat)
    requires size >= 2 && AllClean(lines) && AllShort(lines, size - 1)
    ensures |LinesOf(Save(lines), size)| >= |lines|
    ensures |LinesOf(Save(lines), size)| == |lines| ==> AllShort(lines, size - 2)
  {
    if lines != [] {
      var rest := Save(lines[1..]);
      assert Save(lines) == lines[0] + ("\n" + rest);
      SavedCount(lines[1..], size);
      if |lines[0]| == size - 1 {
        SavedLongLine(lines[0], rest, size);
        assert |LinesOf("\n" + rest, size)| == 1 + |LinesOf(rest, size)|;
      } else {
        SavedLine(lines[0], rest, size);
        if AllShort(lines[1..], size - 2) {
          forall k | 0 <= k < |lines| ensures |lines[k]| <= size - 2 {
            if k > 0 { assert lines[k] == lines[1..][k - 1]; }
          }
        }
      }
    }
  }

  lemma SaveFirst(lines: seq<string>, rest: string)
    requires lines != []
    ensures Save(lines) + rest == lines[0] + ("\n" + (Save(lines[1..]) + rest))
  {
  }

  /** Short saved lines are read back one by one, whatever follows them. */
  lemma {:induction false} SavedThen(lines: seq<string>, rest: string, size: nat)
    requires size >= 2 && AllClean(lines) && AllShort(lines, size - 2)
    ensures LinesOf(Save(lines) + rest, size) == lines + LinesOf(rest, size)
  {
    hide NextLine, Clean;
    if lines == [] {
      assert Save(lines) + rest == rest;
      assert lines + LinesOf(rest, size) == LinesOf(rest, size);
    } else {
      var tail := Save(lines[1..]) + rest;
      SaveFirst(lines, rest);
      SavedLine(lines[0], tail, size);
      SavedThen(lines[1..], rest, size);
      assert lines + LinesOf(rest, size) == [lines[0]] + (lines[1..] + LinesOf(rest, size));
    }
  }

  lemma {:induction false} SaveAppend(a: seq<string>, b: seq<string>)
    ensures Save(a + b) == Save(a) + Save(b)
  {
    if a == [] {
      assert a + b == b;
    } else {
      assert (a + b)[1..] == a[1..] + b;
      SaveAppend(a[1..], b);
    }
  }

  lemma SavedLines(lines: seq<string>, size: nat)
    requires size >= 2 && AllClean(lines) && AllShort(lines, size - 2)
    ensures LinesOf(Save(lines), size) == lines
  {
    SavedThen(lines, "", size);
    assert Save(lines) + "" == Save(lines);
  }

  /** Lines taken from a stream and written to a file read back as the same lines exactly when
      each of them leaves room for its newline. */
  lemma ReplayExact(s: string, size: nat, k: nat)
    requires size >= 2 && k <= |LinesOf(s, size)|
    ensures LinesOf(Save(LinesOf(s, size)[..k]), size) == LinesOf(s, size)[..k] <==>
            AllShort(LinesOf(s, size)[..k], size - 2)
  {
    LinesRead(s, size);
    var lines := LinesOf(s, size)[..k];
    SavedCount(lines, size);
    if AllShort(lines, size - 2) { SavedLines(lines, size); }
  }

  // --- reading line after line

  /** Where a reader stands after k lines. */
  lemma {:induction false} LineAt(s: string, size: nat, k: nat)
    requires size >= 2 && k <= |LinesOf(s, size)|
    ensures NextLine(Rest(s, size, k), size) ==
            if k < |LinesOf(s, size)| then Some((LinesOf(s, size)[k], Rest(s, size, k + 1))) else None
    decreases k
  {
    hide NextLine;
    match NextLine(s, size)
    case None =>
    case Some((line, rest)) =>
      assert Rest(rest, size, 0) == rest;
      if k > 0 { LineAt(rest, size, k - 1); }
  }

  /** One more line taken off the stream. */
  lemma {:induction false} RestOneMore(s: string, size: nat, k: nat)
    requires size >= 2
    ensures Rest(s, size, k + 1) == Rest(Rest(s, size, k), size, 1)
    ensures NextLine(Rest(s, size, k), size) == None ==> Rest(s, size, k + 1) == Rest(s, size, k)
    decreases k
  {
    hide NextLine;
    match NextLine(s, size)
    case None =>
    case Some((_, rest)) =>
      if k > 0 { RestOneMore(rest, size, k - 1); }
  }

  /** Short saved lines are taken off a stream one by one. */
  lemma {:induction false} RestSaved(lines: seq<string>, rest: string, size: nat)
    requires size >= 2 && AllClean(lines) && AllShort(lines, size - 2)
    ensures Rest(Save(lines) + rest, size, |lines|) == rest
    decreases |lines|
  {
    hide NextLine, Clean;
    if lines == [] {
      assert Save(lines) + rest == rest;
    } else {
      var tail := Save(lines[1..]) + rest;
      SaveFirst(lines, rest);
      SavedLine(lines[0], tail, size);
      RestSaved(lines[1..], rest, size);
    }
  }

  lemma SaveMore(lines: seq<string>, k: nat)
    requires k < |lines|
    ensures Save(lines[..k + 1]) == Save(lines[..k]) + lines[k] + "\n"
  {
    assert lines[..k + 1] == lines[..k] + [lines[k]];
    SaveAppend(lines[..k], [lines[k]]);
    assert [lines[k]][1..] == [];
  }
}
