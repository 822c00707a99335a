/** nmcli's terse output: splitting a line on unescaped colons. */
module WifiTerse {

  // ---- the parser ---------------------------------------------------------------------

  datatype Scan = Scan(fields: seq<string>, cur: string, esc: bool)

  function Feed(st: Scan, ch: char): Scan {
    if st.esc then st.(cur := st.cur + [ch], esc := false)
    else if ch == '\\' then st.(esc := true)
    else if ch == ':' then Scan(st.fields + [st.cur], "", false)
    else st.(cur := st.cur + [ch])
  }

  function FeedAll(st: Scan, text: string): Scan
    decreases |text|
  {
    if text == "" then st else FeedAll(Feed(st, text[0]), text[1..])
  }

  const START := Scan([], "", false)

  function Split(line: string): seq<string> {
    var st := FeedAll(START, line);
    st.fields + [st.cur]
  }

  /** _split_terse. */
  method SplitTerse(line: string) returns (fields: seq<string>)
    ensures fields == Split(line)
  {
    fields := [];
    var cur, esc := "", false;
    for i := 0 to |line|
      invariant FeedAll(START, line) == FeedAll(Scan(fields, cur, esc), line[i..])
    {
      var ch := line[i];
      if esc {
        cur, esc := cur + [ch], false;
      } else if ch == '\\' {
        esc := true;
      } else if ch == ':' {
        fields, cur := fields + [cur], "";
      } else {
        cur := cur + [ch];
      }
    }
    fields := fields + [cur];
  }

  // ---- the writer ------------------------------------------------------------------------

  /** nmcli writes a backslash before every colon and backslash. */
  function Escape(field: string): string {
    if field == "" then ""
    else (if field[0] == ':' || field[0] == '\\' then ['\\', field[0]] else [field[0]]) + Escape(field[1..])
  }

  function Join(fields: seq<string>): string
    requires fields != []
  {
    if |fields| == 1 then Escape(fields[0]) else Escape(fields[0]) + ":" + Join(fields[1..])
  }

  lemma {:induction false} FeedAppend(st: Scan, a: string, b: string)
    ensures FeedAll(st, a + b) == FeedAll(FeedAll(st, a), b)
    decreases |a|
  {
    if a == "" {
      assert a + b == b;
    } else {
      assert (a + b)[1..] == a[1..] + b;
      FeedAppend(Feed(st, a[0]), a[1..], b);
    }
  }

  lemma FeedShort(st: Scan, text: string)
    requires 1 <= |text| <= 2
    ensures FeedAll(st, text) == if |text| == 1 then Feed(st, text[0]) else Feed(Feed(st, text[0]), text[1])
  {
    var rest := text[1..];
    if |text| == 2 {
      assert rest[0] == text[1] && rest[1..] == "";
      var st' := Feed(st, text[0]);
      assert FeedAll(st', rest) == FeedAll(Feed(st', rest[0]), rest[1..]);
    }
  }

  lemma {:induction false} FeedEscaped(st: Scan, field: string)
    requires !st.esc
    ensures FeedAll(st, Escape(field)) == st.(cur := st.cur + field)
    decreases |field|
  {
    if field != "" {
      var head := if field[0] == ':' || field[0] == '\\' then ['\\', field[0]] else [field[0]];
      FeedAppend(st, head, Escape(field[1..]));
      FeedShort(st, head);
      FeedEscaped(st.(cur := st.cur + [field[0]]), field[1..]);
      assert st.cur + [field[0]] + field[1..] == st.cur + field;
    } else {
      assert st.cur + field == st.cur;
    }
  }

  lemma {:induction false} FeedJoined(st: Scan, fields: seq<string>)
    requires fields != [] && !st.esc && st.cur == ""
    ensures var r := FeedAll(st, Join(fields)); r.fields + [r.cur] == st.fields + fields && !r.esc
    decreases |fields|
  {
    FeedEscaped(st, fields[0]);
    assert "" + fields[0] == fields[0];
    if |fields| > 1 {
      var rest := Join(fields[1..]);
      FeedAppend(st, Escape(fields[0]) + ":", rest);
      FeedAppend(st, Escape(fields[0]), ":");
      FeedShort(st.(cur := fields[0]), ":");
      FeedJoined(Scan(st.fields + [fields[0]], "", false), fields[1..]);
      assert st.fields + [fields[0]] + fields[1..] == st.fields + fields;
    } else {
      assert fields == [fields[0]];
    }
  }

  /** Splitting undoes escaping and joining, whatever colons and backslashes the fields hold. */
  lemma SplitUndoesJoin(fields: seq<string>)
    requires fields != []
    ensures Split(Join(fields)) == fields
  {
    FeedJoined(START, fields);
  }

  // ---- how many fields ------------------------------------------------------------------------

  /** A character is escaped when an unescaped backslash precedes it. */
  predicate Escaped(line: string, i: nat)
    requires i <= |line|
  {
    i > 0 && line[i - 1] == '\\' && !Escaped(line, i - 1)
  }

  function UnescapedColons(line: string, n: nat): set<int>
    requires n <= |line|
  {
    set i: nat | i < n && line[i] == ':' && !Escaped(line, i)
  }

  lemma {:induction false} ScanTracksEscapes(line: string, n: nat)
    requires n <= |line|
    ensures var st := FeedAll(START, line[..n]);
      st.esc == Escaped(line, n) && |st.fields| == |UnescapedColons(line, n)|
  {
    if n > 0 {
      ScanTracksEscapes(line, n - 1);
      FeedAppend(START, line[..n - 1], [line[n - 1]]);
      assert line[..n - 1] + [line[n - 1]] == line[..n];
      assert UnescapedColons(line, n) == UnescapedColons(line, n - 1)
        + if line[n - 1] == ':' && !Escaped(line, n - 1) then {n - 1} else {};
    }
  }

  /** Every line, well formed or not, gives one field more than it has unescaped colons. */
  lemma FieldCount(line: string)
    ensures |Split(line)| == 1 + |UnescapedColons(line, |line|)|
  {
    ScanTracksEscapes(line, |line|);
    assert line[..|line|] == line;
  }

  // ---- lines no writer made ----------------------------------------------------------------

  /** A line, character by character: a plain one, an escaped one, or a separator. */
  datatype Token = Plain(c: char) | Quoted(c: char) | Separator

  predicate Writable(tokens: seq<Token>) {
    forall i :: 0 <= i < |tokens| && tokens[i].Plain? ==> tokens[i].c != ':' && tokens[i].c != '\\'
  }

  function Spelled(t: Token): string {
    match t
    case Plain(c) => [c]
    case Quoted(c) => ['\\', c]
    case Separator => ":"
  }

  function SpelledOut(tokens: seq<Token>): string {
    if tokens == [] then "" else SpelledOut(tokens[..|tokens| - 1]) + Spelled(tokens[|tokens| - 1])
  }

  /** Separators end fields; every other token, escaped or not, stands for its character. */
  function Meant(tokens: seq<Token>): (fields: seq<string>)
    ensures fields != []
  {
    if tokens == [] then [""]
    else
      var front, last := Meant(tokens[..|tokens| - 1]), tokens[|tokens| - 1];
      var n := |front| - 1;
      if last.Separator? then front + [""] else front[..n] + [front[n] + [last.c]]
  }

  lemma {:induction false} FeedTokens(tokens: seq<Token>)
    requires Writable(tokens)
    ensures var n := |Meant(tokens)| - 1;
      FeedAll(START, SpelledOut(tokens)) == Scan(Meant(tokens)[..n], Meant(tokens)[n], false)
  {
    if tokens != [] {
      var front, last := tokens[..|tokens| - 1], tokens[|tokens| - 1];
      FeedTokens(front);
      FeedAppend(START, SpelledOut(front), Spelled(last));
      FeedShort(FeedAll(START, SpelledOut(front)), Spelled(last));
    }
  }

  /** Every line is read as its tokens mean; a backslash at the very end is dropped. */
  lemma SplitReads(tokens: seq<Token>)
    requires Writable(tokens)
    ensures Split(SpelledOut(tokens)) == Meant(tokens) && Split(SpelledOut(tokens) + "\\") == Meant(tokens)
  {
    FeedTokens(tokens);
    FeedAppend(START, SpelledOut(tokens), "\\");
    FeedShort(FeedAll(START, SpelledOut(tokens)), "\\");
  }

  /** And every line has such tokens. */
  lemma {:induction false} TokensOf(line: string) returns (tokens: seq<Token>, dangling: bool)
    ensures Writable(tokens) && line == if dangling then SpelledOut(tokens) + "\\" else SpelledOut(tokens)
    decreases |line|
  {
    tokens, dangling := [], false;
    if line != "" {
      var front, c := line[..|line| - 1], line[|line| - 1];
      tokens, dangling := TokensOf(front);
      assert line == front + [c];
      if !dangling && c == '\\' {
        dangling := true;
      } else {
        var t := if dangling then Quoted(c) else if c == ':' then Separator else Plain(c);
        assert (tokens + [t])[..|tokens|] == tokens;
        tokens, dangling := tokens + [t], false;
      }
    }
  }
}
