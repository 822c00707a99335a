/** The joined GOOSE publisher key "mac|appid|gocb_ref" and when it identifies its parts. */
module GooseKey {

  function Digit(d: nat): char
    requires d < 10
  {
    "0123456789"[d]
  }

  /** Decimal rendering, as an f-string prints an int. */
  function Decimal(n: nat): (s: string)
    ensures s != "" && '|' !in s
  {
    if n < 10 then [Digit(n)] else Decimal(n / 10) + [Digit(n % 10)]
  }

  function LowerChar(c: char): char {
    if 'A' <= c <= 'Z' then (c as int + 32) as char else c
  }

  /** `str.lower` on ASCII text. */
  function Lower(s: string): (r: string)
    ensures |r| == |s| && forall i :: 0 <= i < |s| ==> r[i] == LowerChar(s[i])
  {
    seq(|s|, i requires 0 <= i < |s| => LowerChar(s[i]))
  }

  function Joined(mac: string, appid: nat, gocbRef: string): string {
    mac + "|" + Decimal(appid) + "|" + gocbRef
  }

  /** How sensor MACs look: lower case, and never holding the separator. */
  predicate PlainMac(mac: string) {
    Lower(mac) == mac && '|' !in mac
  }

  lemma {:induction false} DecimalInjective(m: nat, n: nat)
    requires Decimal(m) == Decimal(n)
    ensures m == n
  {
    var s, t := Decimal(m), Decimal(n);
    assert m >= 10 ==> Decimal(m / 10) == s[..|s| - 1];
    assert n >= 10 ==> Decimal(n / 10) == t[..|t| - 1];
    assert s[|s| - 1] == Digit(m % 10) && t[|t| - 1] == Digit(n % 10);
    if m >= 10 && n >= 10 {
      DecimalInjective(m / 10, n / 10);
    }
  }

  /** Text before the first separator is determined by the whole. */
  lemma CutAtSeparator(a: string, x: string, b: string, y: string)
    requires '|' !in a && '|' !in b && a + "|" + x == b + "|" + y
    ensures a == b && x == y
  {
    var s, t := a + "|" + x, b + "|" + y;
    assert s[|a|] == '|' && t[|b|] == '|';
    assert |a| == |b|;
    assert a == s[..|a|] && b == t[..|b|];
    assert x == s[|a| + 1..] && y == t[|b| + 1..];
  }

  /** The joined key is injective as long as no MAC holds the separator. */
  lemma JoinedInjective(mac: string, appid: nat, gocbRef: string, mac': string, appid': nat, gocbRef': string)
    requires '|' !in mac && '|' !in mac'
    ensures Joined(mac, appid, gocbRef) == Joined(mac', appid', gocbRef')
       <==> mac == mac' && appid == appid' && gocbRef == gocbRef'
  {
    if Joined(mac, appid, gocbRef) == Joined(mac', appid', gocbRef') {
      var rest, rest' := Decimal(appid) + "|" + gocbRef, Decimal(appid') + "|" + gocbRef';
      assert Joined(mac, appid, gocbRef) == mac + "|" + rest;
      assert Joined(mac', appid', gocbRef') == mac' + "|" + rest';
      CutAtSeparator(mac, rest, mac', rest');
      CutAtSeparator(Decimal(appid), gocbRef, Decimal(appid'), gocbRef');
      DecimalInjective(appid, appid');
    }
  }

  /** Two characters that are the same letter, or the same character. */
  predicate SameLetter(c: char, d: char) {
    c == d || ('A' <= c <= 'Z' && d as int == c as int + 32) || ('A' <= d <= 'Z' && c as int == d as int + 32)
  }

  /** Lowering identifies texts exactly when they differ at most in the case of letters. */
  lemma LowerIgnoresCase(s: string, t: string)
    ensures Lower(s) == Lower(t) <==> |s| == |t| && forall i :: 0 <= i < |s| ==> SameLetter(s[i], t[i])
  {
    if Lower(s) == Lower(t) {
      forall i | 0 <= i < |s| ensures SameLetter(s[i], t[i]) {
        assert Lower(s)[i] == LowerChar(s[i]) && Lower(t)[i] == LowerChar(t[i]);
      }
    }
  }
}
