/** The JSONL tail reader: seek into the last bytes, decode, split into lines, drop the first. */
module EventsTail {
  import opened Text
  import opened Utf8

  // ---- lines ----------------------------------------------------------------------------------

  /** The line boundaries of str.splitlines. */
  predicate IsBreak(c: char) {
    '\U{0A}' <= c <= '\U{0D}' || '\U{1C}' <= c <= '\U{1E}' || c == '\U{85}' || c == '\U{2028}' || c == '\U{2029}'
  }

  /** Length of the first line, without its break. */
  function Head(text: string): (n: nat)
    ensures n <= |text| && (n < |text| ==> IsBreak(text[n]))
    ensures forall i :: 0 <= i < n ==> !IsBreak(text[i])
  {
    if text == "" || IsBreak(text[0]) then 0 else 1 + Head(text[1..])
  }

  /** Length of the first line with its break; a carriage return and line feed break once. */
  function FullHead(text: string): (n: nat)
    ensures Head(text) <= n <= |text|
    ensures text != "" ==> n > 0
  {
    var n := Head(text);
    if n == |text| then n
    else if text[n] == '\r' && n + 1 < |text| && text[n + 1] == '\n' then n + 2
    else n + 1
  }

  function FirstLine(text: string): string {
    text[..Head(text)]
  }

  function Rest(text: string): (r: string)
    ensures |r| <= |text| && (text != "" ==> |r| < |text|)
  {
    text[FullHead(text)..]
  }

  function Lines(text: string): seq<string>
    decreases |text|
  {
    if text == "" then [] else [FirstLine(text)] + Lines(Rest(text))
  }

  function NonBlank(lines: seq<string>): seq<string> {
    if lines == [] then []
    else if Blank(lines[0]) then NonBlank(lines[1..])
    else [lines[0]] + NonBlank(lines[1..])
  }

  /** _read_tail_bytes on a file holding `bytes`. */
  function ReadTail(bytes: seq<Byte>, maxBytes: nat): seq<string> {
    var size := |bytes|;
    if size == 0 then []
    else
      var chunk := Chars(Decode(bytes[if size > maxBytes then size - maxBytes else 0..]));
      var lines := NonBlank(Lines(chunk));
      if size > maxBytes && lines != [] then lines[1..] else lines
  }

  // ---- what it should return ---------------------------------------------------------------------

  /** How many characters, and how many bytes, the first line takes with its break. */
  function FirstCount(units: seq<Unit>): (n: nat)
    ensures n <= |units| && (units != [] ==> n > 0)
  {
    FullHead(Chars(units))
  }

  function FirstWidth(units: seq<Unit>): nat {
    Total(units[..FirstCount(units)])
  }

  /** The lines of a decoded file that begin at or after byte `skip`. */
  function LinesInside(units: seq<Unit>, skip: int): seq<string>
    decreases |units|
  {
    if skip <= 0 then Lines(Chars(units))
    else if units == [] then []
    else LinesInside(units[FirstCount(units)..], skip - FirstWidth(units))
  }

  ghost predicate IsSuffix(s: seq<string>, of: seq<string>) {
    |s| <= |of| && s == of[|of| - |s|..]
  }

  // ---- helpers -------------------------------------------------------------------------------------

  function Junk(n: nat): (r: string)
    ensures |r| == n && forall i :: 0 <= i < n ==> r[i] == REPLACEMENT
  {
    seq(n, _ => REPLACEMENT)
  }

  lemma CharsOfCut(units: seq<Unit>, j: nat, junk: nat)
    requires j <= |units|
    ensures Chars(Replacements(junk) + units[j..]) == Junk(junk) + Chars(units)[j..]
    ensures Chars(units[j..]) == Chars(units)[j..]
  {}

  lemma {:induction false} HeadAfter(prefix: string, text: string)
    requires forall i :: 0 <= i < |prefix| ==> !IsBreak(prefix[i])
    ensures Head(prefix + text) == |prefix| + Head(text)
    decreases |prefix|
  {
    if prefix == "" {
      assert prefix + text == text;
    } else {
      assert (prefix + text)[1..] == prefix[1..] + text;
      HeadAfter(prefix[1..], text);
    }
  }

  /** Text without breaks in front joins the first line and leaves the others alone. */
  lemma FirstLineAfter(prefix: string, text: string)
    requires forall i :: 0 <= i < |prefix| ==> !IsBreak(prefix[i])
    ensures FirstLine(prefix + text) == prefix + FirstLine(text)
    ensures FullHead(prefix + text) == |prefix| + FullHead(text) && Rest(prefix + text) == Rest(text)
  {
    HeadAfter(prefix, text);
    var all, n := prefix + text, |prefix| + Head(text);
    assert n < |all| ==> all[n] == text[Head(text)];
    assert n + 1 < |all| ==> all[n + 1] == text[Head(text) + 1];
  }

  /** Cutting between a carriage return and its line feed leaves an empty line. */
  lemma CutInBreak(text: string, j: nat)
    requires Head(text) < j < FullHead(text)
    ensures Rest(text[j..]) == Rest(text)
  {
    var t := text[j..];
    assert t[0] == '\n' && j + 1 == FullHead(text);
    assert Head(t) == 0 && FullHead(t) == 1;
    assert t[1..] == text[j + 1..];
  }

  function Tail(lines: seq<string>): seq<string> {
    if lines == [] then [] else lines[1..]
  }

  /** What dropping the first nonblank line of a chunk leaves. */
  lemma DroppedFirst(junk: nat, text: string)
    ensures var got := Tail(NonBlank(Lines(Junk(junk) + text)));
      if junk > 0 then got == NonBlank(Lines(Rest(text))) else got == Tail(NonBlank(Lines(text)))
  {
    var prefix := Junk(junk);
    if junk == 0 {
      assert prefix + text == text;
    } else {
      FirstLineAfter(prefix, text);
      var first, rest := prefix + FirstLine(text), Lines(Rest(text));
      assert first[0] == REPLACEMENT && !IsSpace(first[0]);
      assert Lines(prefix + text) == [first] + rest;
      assert ([first] + rest)[1..] == rest;
    }
  }

  // ---- the theorem -----------------------------------------------------------------------------------

  /** `got` is `inside`, or misses just its first element. */
  ghost predicate AllButOne(got: seq<string>, inside: seq<string>) {
    got == inside || (inside != [] && got == inside[1..])
  }

  /** A cut that leaves part of the first line, or part of its break, leaves the other lines alone. */
  lemma RestOfCut(text: string, j: nat)
    requires j < FullHead(text)
    ensures Rest(text[j..]) == Rest(text)
  {
    if j <= Head(text) {
      FirstLineAfter(text[..j], text[j..]);
      assert text == text[..j] + text[j..];
    } else {
      CutInBreak(text, j);
    }
  }

  lemma CutInFirstLine(text: string, j: nat, junk: nat)
    requires text != "" && j <= FullHead(text) && (j == FullHead(text) ==> junk > 0)
    ensures AllButOne(Tail(NonBlank(Lines(Junk(junk) + text[j..]))), NonBlank(Lines(Rest(text))))
  {
    DroppedFirst(junk, text[j..]);
    if j < FullHead(text) {
      RestOfCut(text, j);
      DropOne(text[j..]);
    } else {
      DropFirst(Rest(text));
    }
  }

  /** Dropping the first nonblank line drops the first line, unless that one is blank. */
  lemma DropOne(text: string)
    requires text != ""
    ensures AllButOne(Tail(NonBlank(Lines(text))), NonBlank(Lines(Rest(text))))
  {
    assert Lines(text)[1..] == Lines(Rest(text));
  }

  lemma DropFirst(text: string)
    ensures AllButOne(NonBlank(Lines(Rest(text))), NonBlank(Lines(text)))
  {
    if text != "" { assert Lines(text)[1..] == Lines(Rest(text)); }
  }

  lemma FirstWidthAdds(units: seq<Unit>)
    ensures Total(units) == FirstWidth(units) + Total(units[FirstCount(units)..])
  {
    var n := FirstCount(units);
    assert units == units[..n] + units[n..];
    TotalAppend(units[..n], units[n..]);
  }

  /** What is left of a chunk without its first nonblank line. */
  function Trimmed(chunk: seq<Unit>): seq<string> {
    Tail(NonBlank(Lines(Chars(chunk))))
  }

  /** Where a cut that begins before the second line does, and one that begins later, lands. */
  lemma CutPosition(units: seq<Unit>, cut: seq<Unit>, skip: nat, j: nat, junk: nat)
    requires CutsAt(units, cut, skip, j, junk) && units != []
    ensures var n := FirstCount(units);
      if skip < FirstWidth(units) then j <= n && (j == n ==> junk > 0)
      else j >= n && CutsAt(units[n..], cut, skip - FirstWidth(units), j - n, junk)
  {
    var n := FirstCount(units);
    if j > 0 { TotalOfPrefix(units, j); }
    if skip < FirstWidth(units) {
      if j > n { TotalGrows(units, n, j - 1); }
    } else {
      if j < n { TotalGrows(units, j, n); }
      CutOfRest(units, cut, skip, j, junk, n);
    }
  }

  lemma CutOfRest(units: seq<Unit>, cut: seq<Unit>, skip: nat, j: nat, junk: nat, n: nat)
    requires CutsAt(units, cut, skip, j, junk) && n <= j && Total(units[..n]) <= skip
    ensures CutsAt(units[n..], cut, skip - Total(units[..n]), j - n, junk)
  {
    assert units[..j] == units[..n] + units[n..][..j - n];
    TotalAppend(units[..n], units[n..][..j - n]);
    assert units[n..][j - n..] == units[j..];
    if junk > 0 {
      TotalOfPrefix(units, j);
      assert j > n;
    }
  }

  lemma CutFirst(units: seq<Unit>, cut: seq<Unit>, skip: nat, j: nat, junk: nat)
    requires CutsAt(units, cut, skip, j, junk) && units != [] && skip < FirstWidth(units)
    ensures AllButOne(Trimmed(cut), NonBlank(Lines(Chars(units[FirstCount(units)..]))))
  {
    CharsOfCut(units, j, junk);
    CharsOfCut(units, FirstCount(units), 0);
    CutPosition(units, cut, skip, j, junk);
    CutInFirstLine(Chars(units), j, junk);
  }

  /** What the reader makes of a chunk cut out at byte `skip`. */
  lemma {:induction false} CutAnywhere(units: seq<Unit>, cut: seq<Unit>, skip: nat, j: nat, junk: nat)
    requires CutsAt(units, cut, skip, j, junk) && 0 < skip <= Total(units)
    ensures AllButOne(Trimmed(cut), NonBlank(LinesInside(units, skip)))
    decreases |units|
  {
    var rest, later := units[FirstCount(units)..], skip - FirstWidth(units);
    assert LinesInside(units, skip) == LinesInside(rest, later);
    if later < 0 {
      CutFirst(units, cut, skip, j, junk);
    } else {
      FirstWidthAdds(units);
      CutPosition(units, cut, skip, j, junk);
      if later > 0 {
        CutAnywhere(rest, cut, later, j - FirstCount(units), junk);
      } else {
        CutAtStart(rest, cut, j - FirstCount(units), junk);
      }
    }
  }

  lemma CutAtStart(units: seq<Unit>, cut: seq<Unit>, j: nat, junk: nat)
    requires CutsAt(units, cut, 0, j, junk)
    ensures cut == units
  {
    if j > 0 { TotalOfPrefix(units, j); }
    assert Replacements(0) + units[0..] == units;
  }

  lemma {:induction false} NonBlankAppend(a: seq<string>, b: seq<string>)
    ensures NonBlank(a + b) == NonBlank(a) + NonBlank(b)
  {
    if a == [] {
      assert a + b == b;
    } else {
      assert (a + b)[1..] == a[1..] + b;
      NonBlankAppend(a[1..], b);
    }
  }

  lemma SuffixOfMore(got: seq<string>, more: seq<string>, all: seq<string>)
    requires IsSuffix(got, all)
    ensures IsSuffix(got, more + all)
  {
    assert (more + all)[|more + all| - |got|..] == all[|all| - |got|..];
  }

  lemma {:induction false} InsideIsSuffix(units: seq<Unit>, skip: int)
    ensures IsSuffix(NonBlank(LinesInside(units, skip)), NonBlank(Lines(Chars(units))))
    decreases |units|
  {
    if skip > 0 && units != [] {
      var n, text := FirstCount(units), Chars(units);
      InsideIsSuffix(units[n..], skip - FirstWidth(units));
      CharsOfCut(units, n, 0);
      NonBlankAppend([FirstLine(text)], Lines(Rest(text)));
      SuffixOfMore(NonBlank(LinesInside(units, skip)), NonBlank([FirstLine(text)]), NonBlank(Lines(Rest(text))));
    }
  }

  lemma ReadTailLong(bytes: seq<Byte>, maxBytes: nat)
    requires |bytes| > maxBytes
    ensures ReadTail(bytes, maxBytes) == Trimmed(Decode(bytes[|bytes| - maxBytes..]))
  {}

  lemma SuffixOfSuffix(got: seq<string>, inside: seq<string>, all: seq<string>)
    requires AllButOne(got, inside) && IsSuffix(inside, all)
    ensures IsSuffix(got, all)
  {}

  lemma CutFile(bytes: seq<Byte>, skip: nat)
    requires 0 < skip <= |bytes|
    ensures AllButOne(Trimmed(Decode(bytes[skip..])), NonBlank(LinesInside(Decode(bytes), skip)))
  {
    WidthsAddUp(bytes);
    var j, junk := DecodeCut(bytes, skip);
    CutAnywhere(Decode(bytes), Decode(bytes[skip..]), skip, j, junk);
  }

  lemma TailOfLongFile(bytes: seq<Byte>, maxBytes: nat)
    requires |bytes| > maxBytes
    ensures AllButOne(ReadTail(bytes, maxBytes), NonBlank(LinesInside(Decode(bytes), |bytes| - maxBytes)))
  {
    CutFile(bytes, |bytes| - maxBytes);
    ReadTailLong(bytes, maxBytes);
  }

  lemma TailOfShortFile(bytes: seq<Byte>, maxBytes: nat)
    requires |bytes| <= maxBytes
    ensures ReadTail(bytes, maxBytes) == NonBlank(Lines(Chars(Decode(bytes))))
  {
    assert bytes[0..] == bytes;
  }

  /** For every file, well-formed UTF-8 or not, and every byte limit: when the file is longer than the
      limit, the reader returns the nonblank lines that begin inside the last `maxBytes` bytes, except
      possibly the first of them; otherwise all nonblank lines. Either way the result is a suffix of
      the file's nonblank lines, so no line is partial. */
  lemma TailIsExactButOne(bytes: seq<Byte>, maxBytes: nat)
    ensures IsSuffix(ReadTail(bytes, maxBytes), NonBlank(Lines(Chars(Decode(bytes)))))
    ensures |bytes| <= maxBytes ==> ReadTail(bytes, maxBytes) == NonBlank(Lines(Chars(Decode(bytes))))
    ensures |bytes| > maxBytes ==>
      AllButOne(ReadTail(bytes, maxBytes), NonBlank(LinesInside(Decode(bytes), |bytes| - maxBytes)))
  {
    if |bytes| > maxBytes {
      var units, skip := Decode(bytes), |bytes| - maxBytes;
      TailOfLongFile(bytes, maxBytes);
      InsideIsSuffix(units, skip);
      SuffixOfSuffix(ReadTail(bytes, maxBytes), NonBlank(LinesInside(units, skip)), NonBlank(Lines(Chars(units))));
    } else {
      TailOfShortFile(bytes, maxBytes);
    }
  }

  /** In particular a file that holds the encoding of a text is read as that text. */
  lemma TailOfText(text: string, maxBytes: nat)
    ensures IsSuffix(ReadTail(Encode(text), maxBytes), NonBlank(Lines(text)))
  {
    TailIsExactButOne(Encode(text), maxBytes);
    DecodeUndoesEncode(text);
  }

  // ---- JSON lines ---------------------------------------------------------------------------------

  const BREAKS := "\U{0A}\U{0B}\U{0C}\U{0D}\U{1C}\U{1D}\U{1E}\U{85}\U{2028}\U{2029}"

  /** The line boundaries, character by character. */
  lemma BreaksAre(c: char)
    ensures IsBreak(c) <==> c in BREAKS
  {
    if IsBreak(c) {
      assert BREAKS[0] == '\U{0A}' && BREAKS[1] == '\U{0B}' && BREAKS[2] == '\U{0C}' && BREAKS[3] == '\U{0D}';
      assert BREAKS[4] == '\U{1C}' && BREAKS[5] == '\U{1D}' && BREAKS[6] == '\U{1E}' && BREAKS[7] == '\U{85}';
      assert BREAKS[8] == '\U{2028}' && BREAKS[9] == '\U{2029}';
    }
  }

  /** Every line followed by `end`. */
  function Ended(lines: seq<string>, end: string): string {
    if lines == [] then "" else lines[0] + (end + Ended(lines[1..], end))
  }

  /** Lines that hold no boundary, each ended by a line feed or by carriage return and line feed, are read
      back as themselves. */
  lemma {:induction false} LinesOfEnded(lines: seq<string>, end: string)
    requires end == "\n" || end == "\r\n"
    requires forall i, j :: 0 <= i < |lines| && 0 <= j < |lines[i]| ==> lines[i][j] !in BREAKS
    ensures Lines(Ended(lines, end)) == lines
  {
    if lines != [] {
      var line, rest := lines[0], Ended(lines[1..], end);
      forall j | 0 <= j < |line| ensures !IsBreak(line[j]) { BreaksAre(line[j]); }
      LinesOfEnded(lines[1..], end);
      EndedFirst(line, end, rest);
      assert lines == [line] + lines[1..];
    }
  }

  lemma EndedFirst(line: string, end: string, rest: string)
    requires (end == "\n" || end == "\r\n") && forall j :: 0 <= j < |line| ==> !IsBreak(line[j])
    ensures Lines(line + (end + rest)) == [line] + Lines(rest)
  {
    var tail := end + rest;
    FirstLineAfter(line, tail);
    assert Head(tail) == 0 && FullHead(tail) == |end|;
    assert tail[|end|..] == rest && tail[..0] == "" && line + "" == line;
  }

  lemma {:induction false} NonBlankHolds(lines: seq<string>, line: string)
    ensures line in NonBlank(lines) <==> line in lines && !Blank(line)
  {
    if lines != [] { NonBlankHolds(lines[1..], line); }
  }

  /** So a JSON lines file is read as its own nonblank lines, or a suffix of them when it is too long. */
  lemma TailOfJsonLines(lines: seq<string>, end: string, maxBytes: nat)
    requires end == "\n" || end == "\r\n"
    requires forall i, j :: 0 <= i < |lines| && 0 <= j < |lines[i]| ==> lines[i][j] !in BREAKS
    ensures var file := Encode(Ended(lines, end));
      && IsSuffix(ReadTail(file, maxBytes), NonBlank(lines))
      && (|file| <= maxBytes ==> ReadTail(file, maxBytes) == NonBlank(lines))
  {
    LinesOfEnded(lines, end);
    DecodeUndoesEncode(Ended(lines, end));
    TailIsExactButOne(Encode(Ended(lines, end)), maxBytes);
  }
}
