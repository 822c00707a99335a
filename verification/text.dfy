/** Python's notion of white space, as `str.strip` and its relatives use it. */
module Text {

  predicate IsSpace(c: char) {
    || '\U{09}' <= c <= '\U{0D}' || '\U{1C}' <= c <= '\U{20}' || c == '\U{85}' || c == '\U{A0}' || c == '\U{1680}'
    || '\U{2000}' <= c <= '\U{200A}' || c == '\U{2028}' || c == '\U{2029}' || c == '\U{202F}' || c == '\U{205F}'
    || c == '\U{3000}'
  }

  predicate Blank(text: string) {
    forall i :: 0 <= i < |text| ==> IsSpace(text[i])
  }

  /** `str.strip` */
  function Strip(text: string): (r: string)
    ensures r != "" ==> !IsSpace(r[0]) && !IsSpace(r[|r| - 1])
    decreases |text|
  {
    if text == "" then ""
    else if IsSpace(text[0]) then Strip(text[1..])
    else if IsSpace(text[|text| - 1]) then Strip(text[..|text| - 1])
    else text
  }

  const SPACES := "\U{09}\U{0A}\U{0B}\U{0C}\U{0D}\U{1C}\U{1D}\U{1E}\U{1F}\U{20}\U{85}\U{A0}\U{1680}"
    + "\U{2000}\U{2001}\U{2002}\U{2003}\U{2004}\U{2005}\U{2006}\U{2007}\U{2008}\U{2009}\U{200A}"
    + "\U{2028}\U{2029}\U{202F}\U{205F}\U{3000}"

  /** The white space, character by character. */
  lemma SpacesAre(c: char)
    ensures IsSpace(c) <==> c in SPACES
  {
    if IsSpace(c) {
      assert SPACES[0] == '\U{09}' && SPACES[1] == '\U{0A}' && SPACES[2] == '\U{0B}';
      assert SPACES[3] == '\U{0C}' && SPACES[4] == '\U{0D}' && SPACES[5] == '\U{1C}';
      assert SPACES[6] == '\U{1D}' && SPACES[7] == '\U{1E}' && SPACES[8] == '\U{1F}';
      assert SPACES[9] == '\U{20}' && SPACES[10] == '\U{85}' && SPACES[11] == '\U{A0}';
      assert SPACES[12] == '\U{1680}' && SPACES[13] == '\U{2000}' && SPACES[14] == '\U{2001}';
      assert SPACES[15] == '\U{2002}' && SPACES[16] == '\U{2003}' && SPACES[17] == '\U{2004}';
      assert SPACES[18] == '\U{2005}' && SPACES[19] == '\U{2006}' && SPACES[20] == '\U{2007}';
      assert SPACES[21] == '\U{2008}' && SPACES[22] == '\U{2009}' && SPACES[23] == '\U{200A}';
      assert SPACES[24] == '\U{2028}' && SPACES[25] == '\U{2029}' && SPACES[26] == '\U{202F}';
      assert SPACES[27] == '\U{205F}' && SPACES[28] == '\U{3000}';
    }
  }

  lemma AfterSpace(text: string, i: nat, j: nat)
    requires text != "" && IsSpace(text[0]) && i <= j <= |text[1..]| && Blank(text[1..][..i]) && Blank(text[1..][j..])
    ensures text[1..][i..j] == text[i + 1..j + 1] && Blank(text[..i + 1]) && Blank(text[j + 1..])
  {
    assert text[1..][j..] == text[j + 1..];
    forall k | 0 <= k < i + 1 ensures IsSpace(text[k]) {
      if k > 0 { assert text[1..][..i][k - 1] == text[k]; }
    }
  }

  lemma BeforeSpace(text: string, i: nat, j: nat)
    requires text != "" && IsSpace(text[|text| - 1])
    requires var front := text[..|text| - 1]; i <= j <= |front| && Blank(front[..i]) && Blank(front[j..])
    ensures text[..|text| - 1][i..j] == text[i..j] && Blank(text[..i]) && Blank(text[j..])
  {
    var front := text[..|text| - 1];
    assert front[..i] == text[..i];
    forall k | j <= k < |text| ensures IsSpace(text[k]) {
      if k < |front| { assert front[j..][k - j] == text[k]; }
    }
  }

  /** Stripping takes away white space at both ends and nothing else. */
  lemma {:induction false} StripIs(text: string) returns (i: nat, j: nat)
    ensures i <= j <= |text| && Strip(text) == text[i..j] && Blank(text[..i]) && Blank(text[j..])
    decreases |text|
  {
    if text == "" {
      i, j := 0, 0;
    } else if IsSpace(text[0]) {
      i, j := StripIs(text[1..]);
      AfterSpace(text, i, j);
      i, j := i + 1, j + 1;
    } else if IsSpace(text[|text| - 1]) {
      i, j := StripIs(text[..|text| - 1]);
      BeforeSpace(text, i, j);
    } else {
      i, j := 0, |text|;
      assert text[0..|text|] == text;
    }
  }
}
