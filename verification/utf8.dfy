/** Decoding bytes as UTF-8 with `errors="replace"`: every byte sequence has a decoding, and what a cut
    leaves of a character decodes to replacement characters. */
module Utf8 {

  type Byte = b: int | 0 <= b < 256

  type Width = n: nat | n > 0 witness 1

  /** A decoded character and how many bytes it came from. */
  datatype Unit = Unit(c: char, width: Width)

  const REPLACEMENT := '\U{FFFD}'

  predicate Continues(b: Byte) {
    0x80 <= b < 0xC0
  }

  /** How many bytes a first byte announces; 1 if it stands alone or cannot stand first. */
  function Announced(lead: Byte): nat {
    if 0xC2 <= lead < 0xE0 then 2 else if 0xE0 <= lead < 0xF0 then 3 else if 0xF0 <= lead < 0xF5 then 4 else 1
  }

  /** Second bytes that neither spell a shorter character at length, nor a surrogate, nor too large a one. */
  predicate SecondOk(lead: Byte, b: Byte) {
    Continues(b) && (lead == 0xE0 ==> b >= 0xA0) && (lead == 0xED ==> b < 0xA0)
    && (lead == 0xF0 ==> b >= 0x90) && (lead == 0xF4 ==> b < 0x90)
  }

  /** The longest beginning of a character at the front, at least one byte. */
  function Extent(bytes: seq<Byte>): (n: nat)
    requires bytes != []
    ensures 1 <= n <= |bytes| && n <= Announced(bytes[0])
    ensures forall i :: 1 <= i < n ==> Continues(bytes[i])
    ensures n > 1 ==> SecondOk(bytes[0], bytes[1])
  {
    var announced := Announced(bytes[0]);
    if announced == 1 || |bytes| < 2 || !SecondOk(bytes[0], bytes[1]) then 1
    else if announced == 2 || |bytes| < 3 || !Continues(bytes[2]) then 2
    else if announced == 3 || |bytes| < 4 || !Continues(bytes[3]) then 3
    else 4
  }

  /** The character at the front: the encoded one if it is complete, else a replacement. */
  function FirstChar(bytes: seq<Byte>): char
    requires bytes != []
  {
    var n := Extent(bytes);
    if n < Announced(bytes[0]) || (n == 1 && bytes[0] >= 0x80) then REPLACEMENT
    else if n == 1 then bytes[0] as char
    else if n == 2 then Joined2(bytes[0], bytes[1]) as char
    else if n == 3 then Joined3(bytes[0], bytes[1], bytes[2]) as char
    else Joined4(bytes[0], bytes[1], bytes[2], bytes[3]) as char
  }

  /** The code point that the payload bits of a complete character spell. */
  function Joined2(a: int, b: int): int {
    (a - 0xC0) * 0x40 + b - 0x80
  }

  function Joined3(a: int, b: int, c: int): int {
    ((a - 0xE0) * 0x40 + b - 0x80) * 0x40 + c - 0x80
  }

  function Joined4(a: int, b: int, c: int, d: int): int {
    (((a - 0xF0) * 0x40 + b - 0x80) * 0x40 + c - 0x80) * 0x40 + d - 0x80
  }

  function Decode(bytes: seq<Byte>): seq<Unit> {
    if bytes == [] then [] else [Unit(FirstChar(bytes), Extent(bytes))] + Decode(bytes[Extent(bytes)..])
  }

  function Chars(units: seq<Unit>): (text: string)
    ensures |text| == |units|
  {
    seq(|units|, i requires 0 <= i < |units| => units[i].c)
  }

  function Total(units: seq<Unit>): nat {
    if units == [] then 0 else units[0].width + Total(units[1..])
  }

  // ---- widths -------------------------------------------------------------------------------

  lemma {:induction false} TotalAppend(a: seq<Unit>, b: seq<Unit>)
    ensures Total(a + b) == Total(a) + Total(b)
  {
    if a == [] {
      assert a + b == b;
    } else {
      assert (a + b)[1..] == a[1..] + b;
      TotalAppend(a[1..], b);
    }
  }

  lemma TotalOfPrefix(units: seq<Unit>, j: nat)
    requires 0 < j <= |units|
    ensures Total(units[..j]) == Total(units[..j - 1]) + units[j - 1].width
  {
    assert units[..j] == units[..j - 1] + [units[j - 1]];
    TotalAppend(units[..j - 1], [units[j - 1]]);
    assert [units[j - 1]][1..] == [];
  }

  /** A longer prefix is strictly wider. */
  lemma {:induction false} TotalGrows(units: seq<Unit>, i: nat, j: nat)
    requires i <= j <= |units|
    ensures Total(units[..j]) >= Total(units[..i]) + (j - i)
  {
    if i < j {
      TotalGrows(units, i, j - 1);
      TotalOfPrefix(units, j);
    }
  }

  /** The widths of a decoding add up to the bytes decoded. */
  lemma {:induction false} WidthsAddUp(bytes: seq<Byte>)
    ensures Total(Decode(bytes)) == |bytes|
  {
    if bytes != [] {
      var first, rest := Unit(FirstChar(bytes), Extent(bytes)), Decode(bytes[Extent(bytes)..]);
      WidthsAddUp(bytes[Extent(bytes)..]);
      assert ([first] + rest)[1..] == rest;
    }
  }

  // ---- cuts ---------------------------------------------------------------------------------

  function Replacements(n: nat): (r: seq<Unit>)
    ensures |r| == n && forall i :: 0 <= i < n ==> r[i] == Unit(REPLACEMENT, 1)
  {
    seq(n, _ => Unit(REPLACEMENT, 1))
  }

  lemma OneMoreReplacement(k: nat, rest: seq<Unit>)
    requires k > 0
    ensures [Unit(REPLACEMENT, 1)] + (Replacements(k - 1) + rest) == Replacements(k) + rest
  {}

  lemma OrphanFirst(bytes: seq<Byte>)
    requires bytes != [] && Continues(bytes[0])
    ensures Decode(bytes) == [Unit(REPLACEMENT, 1)] + Decode(bytes[1..])
  {
    assert Extent(bytes) == 1 && FirstChar(bytes) == REPLACEMENT;
  }

  /** Continuation bytes with no first byte before them decode to one replacement each. */
  lemma {:induction false} OrphansDecode(bytes: seq<Byte>, k: nat)
    requires k <= |bytes| && forall i :: 0 <= i < k ==> Continues(bytes[i])
    ensures Decode(bytes) == Replacements(k) + Decode(bytes[k..])
    decreases k
  {
    if k == 0 {
      assert bytes[0..] == bytes;
    } else {
      OrphansDecode(bytes[1..], k - 1);
      OrphanFirst(bytes);
      assert bytes[1..][k - 1..] == bytes[k..];
      OneMoreReplacement(k, Decode(bytes[k..]));
    }
  }

  /** A decoded chunk `cut` is `junk` replacements, fewer than the bytes of the character they are left
      of, and then `units` from `j` on; together they begin at byte `skip`. */
  ghost predicate CutsAt(units: seq<Unit>, cut: seq<Unit>, skip: nat, j: nat, junk: nat) {
    && j <= |units| && cut == Replacements(junk) + units[j..]
    && Total(units[..j]) == skip + junk
    && (junk > 0 ==> j > 0 && junk < units[j - 1].width)
  }

  lemma CutInside(bytes: seq<Byte>, skip: nat)
    requires bytes != [] && 0 < skip < Extent(bytes)
    ensures CutsAt(Decode(bytes), Decode(bytes[skip..]), skip, 1, Extent(bytes) - skip)
  {
    var n := Extent(bytes);
    var first, rest := Unit(FirstChar(bytes), n), Decode(bytes[n..]);
    OrphansDecode(bytes[skip..], n - skip);
    assert bytes[skip..][n - skip..] == bytes[n..];
    CutAfterFirst(first, rest, 0);
  }

  lemma CutLater(first: Unit, rest: seq<Unit>, cut: seq<Unit>, skip: nat, j: nat, junk: nat)
    requires CutsAt(rest, cut, skip, j, junk)
    ensures CutsAt([first] + rest, cut, first.width + skip, j + 1, junk)
  {
    CutAfterFirst(first, rest, j);
    assert junk > 0 ==> ([first] + rest)[j] == rest[j - 1];
  }

  /** A cut at any byte: the decoding from there on is some replacements, fewer than the bytes of the
      character cut, and then the whole characters that follow it. */
  lemma {:induction false} DecodeCut(bytes: seq<Byte>, skip: nat) returns (j: nat, junk: nat)
    requires skip <= |bytes|
    ensures CutsAt(Decode(bytes), Decode(bytes[skip..]), skip, j, junk)
    decreases |bytes|
  {
    if skip == 0 {
      j, junk := 0, 0;
      assert bytes[0..] == bytes;
    } else if skip < Extent(bytes) {
      j, junk := 1, Extent(bytes) - skip;
      CutInside(bytes, skip);
    } else {
      var n := Extent(bytes);
      j, junk := DecodeCut(bytes[n..], skip - n);
      assert bytes[n..][skip - n..] == bytes[skip..];
      CutLater(Unit(FirstChar(bytes), n), Decode(bytes[n..]), Decode(bytes[skip..]), skip - n, j, junk);
      j := j + 1;
    }
  }

  lemma CutAfterFirst(first: Unit, rest: seq<Unit>, j: nat)
    requires j <= |rest|
    ensures ([first] + rest)[j + 1..] == rest[j..]
    ensures Total(([first] + rest)[..j + 1]) == first.width + Total(rest[..j])
  {
    assert ([first] + rest)[..j + 1][1..] == rest[..j];
  }

  // ---- encoding -----------------------------------------------------------------------------

  function EncodeChar(c: char): (bytes: seq<Byte>)
    ensures bytes != []
  {
    var n := c as int;
    if n < 0x80 then [n]
    else if n < 0x800 then [0xC0 + n / 0x40, 0x80 + n % 0x40]
    else if n < 0x1_0000 then [0xE0 + n / 0x1000, 0x80 + n / 0x40 % 0x40, 0x80 + n % 0x40]
    else [0xF0 + n / 0x4_0000, 0x80 + n / 0x1000 % 0x40, 0x80 + n / 0x40 % 0x40, 0x80 + n % 0x40]
  }

  function Encode(text: string): seq<Byte> {
    if text == "" then [] else EncodeChar(text[0]) + Encode(text[1..])
  }

  lemma Encoded3(n: nat)
    requires n < 0x1_0000
    ensures Joined3(0xE0 + n / 0x1000, 0x80 + n / 0x40 % 0x40, 0x80 + n % 0x40) == n
  {
    assert n / 0x1000 == n / 0x40 / 0x40;
  }

  lemma Encoded4(n: nat)
    requires n < 0x11_0000
    ensures Joined4(0xF0 + n / 0x4_0000, 0x80 + n / 0x1000 % 0x40, 0x80 + n / 0x40 % 0x40, 0x80 + n % 0x40) == n
  {
    assert n / 0x1000 == n / 0x40 / 0x40 && n / 0x4_0000 == n / 0x1000 / 0x40;
  }

  /** The bytes of one character announce their number and are of the right shape. */
  lemma CharShape(c: char)
    ensures var one := EncodeChar(c); |one| == Announced(one[0]) && (|one| > 1 ==> SecondOk(one[0], one[1]))
    ensures forall i :: 2 <= i < |EncodeChar(c)| ==> Continues(EncodeChar(c)[i])
  {}

  lemma ExtentOf(bytes: seq<Byte>, n: nat)
    requires 0 < n <= |bytes| && n == Announced(bytes[0]) && (n > 1 ==> SecondOk(bytes[0], bytes[1]))
    requires forall i :: 2 <= i < n ==> Continues(bytes[i])
    ensures Extent(bytes) == n
  {}

  lemma EncodedExtent(c: char, more: seq<Byte>)
    ensures Extent(EncodeChar(c) + more) == |EncodeChar(c)| == Announced(EncodeChar(c)[0])
  {
    var one := EncodeChar(c);
    CharShape(c);
    ExtentOf(one + more, |one|);
  }

  lemma EncodedChar(c: char, more: seq<Byte>)
    ensures FirstChar(EncodeChar(c) + more) == c
  {
    EncodedExtent(c, more);
    var bytes, n := EncodeChar(c) + more, c as int;
    if n < 0x800 {
    } else if n < 0x1_0000 {
      Encoded3(n);
      assert bytes[..3] == EncodeChar(c);
    } else {
      Encoded4(n);
      assert bytes[..4] == EncodeChar(c);
    }
  }

  /** Decoding undoes encoding, for every text. */
  lemma {:induction false} DecodeUndoesEncode(text: string)
    ensures Chars(Decode(Encode(text))) == text
  {
    if text != "" {
      var bytes, more := Encode(text), Encode(text[1..]);
      EncodedChar(text[0], more);
      EncodedExtent(text[0], more);
      assert bytes[Extent(bytes)..] == more;
      DecodeUndoesEncode(text[1..]);
      assert Decode(bytes) == [Unit(text[0], Extent(bytes))] + Decode(more);
    }
  }

  /** The front is a whole character exactly when it is the encoding of one; otherwise it is replaced. */
  lemma WholeOrReplaced(bytes: seq<Byte>)
    requires bytes != []
    ensures FirstChar(bytes) == REPLACEMENT || bytes[..Extent(bytes)] == EncodeChar(FirstChar(bytes))
  {
    var n := Extent(bytes);
    if n == Announced(bytes[0]) && (n > 1 || bytes[0] < 0x80) {
      Whole(bytes[..n]);
      assert FirstChar(bytes[..n]) == FirstChar(bytes);
    }
  }

  lemma Encoding2(n: int)
    requires 0x80 <= n < 0x800
    ensures EncodeChar(n as char) == [0xC0 + n / 0x40, 0x80 + n % 0x40]
  {}

  lemma Encoding3(n: int)
    requires 0x800 <= n < 0x1_0000 && !(0xD800 <= n < 0xE000)
    ensures EncodeChar(n as char) == [0xE0 + n / 0x1000, 0x80 + n / 0x40 % 0x40, 0x80 + n % 0x40]
  {}

  lemma Encoding4(n: int)
    requires 0x1_0000 <= n < 0x11_0000
    ensures EncodeChar(n as char)
         == [0xF0 + n / 0x4_0000, 0x80 + n / 0x1000 % 0x40, 0x80 + n / 0x40 % 0x40, 0x80 + n % 0x40]
  {}

  lemma WholeIn2(bytes: seq<Byte>)
    requires |bytes| == 2 == Extent(bytes) == Announced(bytes[0])
    ensures bytes == EncodeChar(FirstChar(bytes))
  {
    Whole2(bytes[0], bytes[1]);
    Encoding2(Joined2(bytes[0], bytes[1]));
    assert bytes == [bytes[0], bytes[1]];
  }

  lemma WholeIn3(bytes: seq<Byte>)
    requires |bytes| == 3 == Extent(bytes) == Announced(bytes[0])
    ensures bytes == EncodeChar(FirstChar(bytes))
  {
    Whole3(bytes[0], bytes[1], bytes[2]);
    Encoding3(Joined3(bytes[0], bytes[1], bytes[2]));
    assert bytes == [bytes[0], bytes[1], bytes[2]];
  }

  lemma WholeIn4(bytes: seq<Byte>)
    requires |bytes| == 4 == Extent(bytes) == Announced(bytes[0])
    ensures bytes == EncodeChar(FirstChar(bytes))
  {
    Whole4(bytes[0], bytes[1], bytes[2], bytes[3]);
    Encoding4(Joined4(bytes[0], bytes[1], bytes[2], bytes[3]));
    assert bytes == [bytes[0], bytes[1], bytes[2], bytes[3]];
  }

  lemma Whole(bytes: seq<Byte>)
    requires bytes != [] && Extent(bytes) == |bytes| == Announced(bytes[0]) && (|bytes| > 1 || bytes[0] < 0x80)
    ensures bytes == EncodeChar(FirstChar(bytes))
  {
    if |bytes| == 2 {
      WholeIn2(bytes);
    } else if |bytes| == 3 {
      WholeIn3(bytes);
    } else if |bytes| == 4 {
      WholeIn4(bytes);
    }
  }

  lemma Digits(high: int, low: int)
    requires 0 <= high && 0 <= low < 0x40
    ensures (high * 0x40 + low) / 0x40 == high && (high * 0x40 + low) % 0x40 == low
  {}

  lemma Whole2(a: int, b: int)
    requires 0xC2 <= a < 0xE0 && 0x80 <= b < 0xC0
    ensures var n := Joined2(a, b); 0x80 <= n < 0x800 && 0xC0 + n / 0x40 == a && 0x80 + n % 0x40 == b
  {
    Digits(a - 0xC0, b - 0x80);
  }

  lemma Whole3(a: int, b: int, c: int)
    requires 0xE0 <= a < 0xF0 && 0x80 <= b < 0xC0 && 0x80 <= c < 0xC0
    ensures var n := Joined3(a, b, c); 0xE0 + n / 0x1000 == a && 0x80 + n / 0x40 % 0x40 == b && 0x80 + n % 0x40 == c
  {
    var high := (a - 0xE0) * 0x40 + b - 0x80;
    Digits(high, c - 0x80);
    Digits(a - 0xE0, b - 0x80);
    assert Joined3(a, b, c) / 0x1000 == Joined3(a, b, c) / 0x40 / 0x40;
  }

  lemma Whole4(a: int, b: int, c: int, d: int)
    requires 0xF0 <= a < 0xF5 && 0x80 <= b < 0xC0 && 0x80 <= c < 0xC0 && 0x80 <= d < 0xC0
    ensures var n := Joined4(a, b, c, d);
      && 0xF0 + n / 0x4_0000 == a && 0x80 + n / 0x1000 % 0x40 == b
      && 0x80 + n / 0x40 % 0x40 == c && 0x80 + n % 0x40 == d
  {
    var top := (a - 0xF0) * 0x40 + b - 0x80;
    var high := top * 0x40 + c - 0x80;
    var n := Joined4(a, b, c, d);
    Digits(high, d - 0x80);
    Digits(top, c - 0x80);
    Digits(a - 0xF0, b - 0x80);
    assert n / 0x1000 == n / 0x40 / 0x40 && n / 0x4_0000 == n / 0x1000 / 0x40;
  }

  /** Some character's encoding begins this way. */
  ghost predicate BeginsChar(bytes: seq<Byte>) {
    exists c: char :: bytes <= EncodeChar(c)
  }

  /** A beginning of the right shape, completed. */
  function Completed(bytes: seq<Byte>): (full: seq<Byte>)
    requires bytes != [] && (bytes[0] < 0x80 || Announced(bytes[0]) > 1) && Extent(bytes) == |bytes|
    ensures bytes <= full && |full| == Announced(bytes[0]) == Extent(full)
    decreases Announced(bytes[0]) - |bytes|
  {
    if |bytes| == Announced(bytes[0]) then bytes
    else if |bytes| == 1 then
      Completed(bytes + [if bytes[0] == 0xE0 then 0xA0 else if bytes[0] == 0xF0 then 0x90 else 0x80])
    else Completed(bytes + [0x80])
  }

  lemma DiffersFrom(bytes: seq<Byte>, c: char)
    requires bytes != [] && Extent(bytes) < |bytes|
    ensures |EncodeChar(c)| <= Extent(bytes) || exists i :: 0 <= i <= Extent(bytes) && EncodeChar(c)[i] != bytes[i]
  {
    EncodedExtent(c, []);
    assert EncodeChar(c) + [] == EncodeChar(c);
  }

  /** A unit takes the longest beginning of some character that is there, and one byte if there is none. */
  lemma ExtentIsLongest(bytes: seq<Byte>)
    requires bytes != []
    ensures Extent(bytes) > 1 ==> BeginsChar(bytes[..Extent(bytes)])
    ensures Extent(bytes) < |bytes| ==> !BeginsChar(bytes[..Extent(bytes) + 1])
  {
    var n := Extent(bytes);
    if n > 1 {
      assert Extent(bytes[..n]) == n;
      var full := Completed(bytes[..n]);
      Whole(full);
      assert bytes[..n] <= EncodeChar(FirstChar(full));
    }
    if n < |bytes| {
      forall c: char ensures !(bytes[..n + 1] <= EncodeChar(c)) {
        DiffersFrom(bytes, c);
      }
    }
  }
}
