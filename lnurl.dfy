/**
 * The script's conversion of a Lightning address `name@domain` into the value
 * of the zap request's `lnurl` tag (`getLnurl`): the LUD-16 well-known URL,
 * its UTF-8 bytes, `btoa` (base64 with `=` padding), the three replacements
 * that make it URL-safe, lower case, and the prefix `lnurl`.
 *
 * This is not the bech32 encoding LUD-01 describes; lower-casing base64
 * destroys information, so the tag cannot be decoded back in general. The
 * model proves what does hold: the URL-safe step is exactly unpadded base64url,
 * base64url decodes back to the bytes, and the tag is made of lower-case
 * letters, digits, `-` and `_` only.
 */
module Lnurl {
  import opened Wrappers
  import opened Strings

  type Byte = x: int | 0 <= x < 256
  type Sextet = x: int | 0 <= x < 64

  // ----- the Lightning address -----

  /** `https://<domain>/.well-known/lnurlp/<name>`, the LUD-16 pay endpoint. */
  function WellKnownUrl(name: string, domain: string): string {
    "https://" + domain + "/.well-known/lnurlp/" + name
  }

  /**
   * `const [name, domain] = address.split('@')` followed by the URL template:
   * the name is the text before the first `@`, the domain the text between the
   * first and the second; anything after a second `@` is ignored. None when
   * there is no `@` (the script then leaves its endpoint `undefined`).
   */
  function AddressUrl(address: string): (r: Option<string>)
    ensures r.Some? <==> '@' in address
  {
    if '@' in address then
      var parts := Split(address, '@');
      SplitHasTwoParts(address, '@');
      Some(WellKnownUrl(parts[0], parts[1]))
    else None
  }

  /** A string holding the separator splits into at least two pieces. */
  lemma {:induction false} SplitHasTwoParts(s: string, sep: char)
    requires sep in s
    ensures |Split(s, sep)| >= 2
  {
    SplitPieces(s, sep);
    CountZero(s, sep);
  }

  /** For an address with one `@`, name and domain are read back from the URL. */
  lemma {:induction false} AddressUrlParts(name: string, domain: string)
    requires '@' !in name && '@' !in domain
    ensures AddressUrl(name + "@" + domain) == Some(WellKnownUrl(name, domain))
  {
    assert name + "@" + domain == name + ['@'] + domain;
    SplitFirst(name, '@', domain);
    SplitWithout(domain, '@');
  }

  /** Text after a second `@` is ignored: the domain stops at it. */
  lemma {:induction false} AddressUrlIgnoresLaterParts(name: string, domain: string, rest: string)
    requires '@' !in name && '@' !in domain
    ensures AddressUrl(name + "@" + domain + "@" + rest) == Some(WellKnownUrl(name, domain))
  {
    var address := name + "@" + domain + "@" + rest;
    assert address == name + ['@'] + (domain + ['@'] + rest);
    SplitFirst(name, '@', domain + ['@'] + rest);
    SplitFirst(domain, '@', rest);
  }

  // ----- UTF-8 -----

  /** The UTF-8 encoding of one character (`TextEncoder`). */
  function Utf8Char(c: char): (r: seq<Byte>)
    ensures 1 <= |r| <= 4
    ensures (c as int < 0x80) <==> |r| == 1
  {
    var n := c as int;
    if n < 0x80 then [n]
    else if n < 0x800 then [0xC0 + n / 64, 0x80 + n % 64]
    else if n < 0x10000 then [0xE0 + n / 4096, 0x80 + (n / 64) % 64, 0x80 + n % 64]
    else [0xF0 + n / 262144, 0x80 + (n / 4096) % 64, 0x80 + (n / 64) % 64, 0x80 + n % 64]
  }

  function Utf8(s: string): seq<Byte> {
    if s == [] then [] else Utf8Char(s[0]) + Utf8(s[1..])
  }

  lemma {:induction false} Utf8Concat(a: string, b: string)
    ensures Utf8(a + b) == Utf8(a) + Utf8(b)
  {
    if a == [] {
      assert a + b == b;
    } else {
      assert (a + b)[1..] == a[1..] + b;
      Utf8Concat(a[1..], b);
    }
  }

  /** An ASCII string encodes to its character codes, one byte each. */
  lemma {:induction false} Utf8Ascii(s: string)
    requires forall i :: 0 <= i < |s| ==> s[i] as int < 0x80
    ensures |Utf8(s)| == |s|
    ensures forall i :: 0 <= i < |s| ==> Utf8(s)[i] == s[i] as int
  {
    if s != [] {
      Utf8Ascii(s[1..]);
    }
  }

  // ----- base64 -----

  /**
   * The bytes cut into six-bit groups, three bytes to four sextets; a last
   * group of one or two bytes gives two or three sextets, the low bits padded
   * with zeros.
   */
  function Sextets(b: seq<Byte>): (xs: seq<Sextet>)
    ensures |xs| == (4 * |b| + 2) / 3
  {
    if |b| == 0 then []
    else if |b| == 1 then [b[0] / 4, (b[0] % 4) * 16]
    else if |b| == 2 then [b[0] / 4, (b[0] % 4) * 16 + b[1] / 16, (b[1] % 16) * 4]
    else [b[0] / 4, (b[0] % 4) * 16 + b[1] / 16, (b[1] % 16) * 4 + b[2] / 64, b[2] % 64] + Sextets(b[3..])
  }

  /** The digit for a sextet: `A-Z a-z 0-9` then `+ /`, or `- _` in the URL-safe alphabet. */
  function Digit(v: Sextet, urlSafe: bool): char {
    if v < 26 then ('A' as int + v) as char
    else if v < 52 then ('a' as int + v - 26) as char
    else if v < 62 then ('0' as int + v - 52) as char
    else if v == 62 then (if urlSafe then '-' else '+')
    else (if urlSafe then '_' else '/')
  }

  function Digits(xs: seq<Sextet>, urlSafe: bool): (s: string)
    ensures |s| == |xs|
    ensures forall i :: 0 <= i < |xs| ==> s[i] == Digit(xs[i], urlSafe)
  {
    if xs == [] then [] else [Digit(xs[0], urlSafe)] + Digits(xs[1..], urlSafe)
  }

  /** The `=` characters that round the output up to a multiple of four. */
  function Padding(n: nat): string {
    if n % 3 == 1 then "==" else if n % 3 == 2 then "=" else ""
  }

  /** `btoa(String.fromCharCode(...bytes))`: standard base64 with padding. */
  function Btoa(b: seq<Byte>): (s: string)
    ensures |s| % 4 == 0
  {
    PaddedLength(|b|);
    Digits(Sextets(b), false) + Padding(|b|)
  }

  lemma {:induction false} PaddedLength(n: nat)
    ensures ((4 * n + 2) / 3 + |Padding(n)|) % 4 == 0
  {
    var q, r := n / 3, n % 3;
    assert 4 * n + 2 == 3 * (4 * q) + (4 * r + 2);
    assert (4 * n + 2) / 3 == 4 * q + (4 * r + 2) / 3;
  }

  /** Unpadded base64 over the URL-safe alphabet (RFC 4648, section 5). */
  function Base64Url(b: seq<Byte>): string {
    Digits(Sextets(b), true)
  }

  /** `.replace(/\+/g, '-').replace(/\//g, '_').replace(/=/g, '')`. */
  function UrlSafe(s: string): string {
    ReplaceAll(ReplaceAll(ReplaceAll(s, '+', "-"), '/', "_"), '=', "")
  }

  lemma {:induction false} UrlSafeConcat(a: string, b: string)
    ensures UrlSafe(a + b) == UrlSafe(a) + UrlSafe(b)
  {
    ReplaceAllConcat(a, b, '+', "-");
    var a1, b1 := ReplaceAll(a, '+', "-"), ReplaceAll(b, '+', "-");
    ReplaceAllConcat(a1, b1, '/', "_");
    var a2, b2 := ReplaceAll(a1, '/', "_"), ReplaceAll(b1, '/', "_");
    ReplaceAllConcat(a2, b2, '=', "");
  }

  lemma {:induction false} UrlSafeDigit(v: Sextet)
    ensures UrlSafe([Digit(v, false)]) == [Digit(v, true)]
  {
    var c := Digit(v, false);
    ReplaceAllSingle(c, '+', "-");
    var c1 := if c == '+' then '-' else c;
    ReplaceAllSingle(c1, '/', "_");
    var c2 := if c1 == '/' then '_' else c1;
    ReplaceAllSingle(c2, '=', "");
  }

  lemma {:induction false} UrlSafeDigits(xs: seq<Sextet>)
    ensures UrlSafe(Digits(xs, false)) == Digits(xs, true)
  {
    if xs != [] {
      var d := Digits(xs, false);
      assert d == [Digit(xs[0], false)] + Digits(xs[1..], false);
      UrlSafeConcat([Digit(xs[0], false)], Digits(xs[1..], false));
      UrlSafeDigit(xs[0]);
      UrlSafeDigits(xs[1..]);
    }
  }

  lemma {:induction false} UrlSafePadding(n: nat)
    ensures UrlSafe(Padding(n)) == ""
  {
    if n % 3 == 1 {
      assert UrlSafe("==") == "";
    } else if n % 3 == 2 {
      assert UrlSafe("=") == "";
    }
  }

  /**
   * The script's three replacements turn `btoa`'s output into unpadded
   * base64url: `+` and `/` only ever stand for sextets 62 and 63, and `=`
   * only pads the end.
   */
  lemma {:induction false} UrlSafeBtoa(b: seq<Byte>)
    ensures UrlSafe(Btoa(b)) == Base64Url(b)
  {
    UrlSafeConcat(Digits(Sextets(b), false), Padding(|b|));
    UrlSafeDigits(Sextets(b));
    UrlSafePadding(|b|);
  }

  // ----- decoding base64url -----

  /** The sextet a URL-safe digit stands for; None for any other character. */
  function SextetOf(c: char): Option<Sextet> {
    if 'A' <= c <= 'Z' then Some(c as int - 'A' as int)
    else if 'a' <= c <= 'z' then Some(c as int - 'a' as int + 26)
    else if '0' <= c <= '9' then Some(c as int - '0' as int + 52)
    else if c == '-' then Some(62)
    else if c == '_' then Some(63)
    else None
  }

  function SextetsOf(s: string): Option<seq<Sextet>> {
    if s == [] then Some([])
    else match (SextetOf(s[0]), SextetsOf(s[1..]))
      case (Some(v), Some(rest)) => Some([v] + rest)
      case _ => None
  }

  function First(x0: Sextet, x1: Sextet): Byte {
    x0 * 4 + x1 / 16
  }

  function Second(x1: Sextet, x2: Sextet): Byte {
    (x1 % 16) * 16 + x2 / 4
  }

  function Third(x2: Sextet, x3: Sextet): Byte {
    (x2 % 4) * 64 + x3
  }

  /** Four sextets back to three bytes; a trailing two or three give one or two. */
  function Bytes(xs: seq<Sextet>): seq<Byte> {
    if |xs| < 2 then []
    else if |xs| == 2 then [First(xs[0], xs[1])]
    else if |xs| == 3 then [First(xs[0], xs[1]), Second(xs[1], xs[2])]
    else [First(xs[0], xs[1]), Second(xs[1], xs[2]), Third(xs[2], xs[3])] + Bytes(xs[4..])
  }

  function DecodeBase64Url(s: string): Option<seq<Byte>> {
    match SextetsOf(s)
    case Some(xs) => Some(Bytes(xs))
    case None => None
  }

  lemma {:induction false} SextetsOfDigits(xs: seq<Sextet>)
    ensures SextetsOf(Digits(xs, true)) == Some(xs)
  {
    if xs != [] {
      var d := Digits(xs, true);
      assert d[1..] == Digits(xs[1..], true);
      SextetsOfDigits(xs[1..]);
      assert [xs[0]] + xs[1..] == xs;
    }
  }

  lemma {:induction false} ByteGroup(b0: Byte, b1: Byte, b2: Byte)
    ensures (b0 / 4) * 4 + ((b0 % 4) * 16 + b1 / 16) / 16 == b0
    ensures (((b0 % 4) * 16 + b1 / 16) % 16) * 16 + ((b1 % 16) * 4 + b2 / 64) / 4 == b1
    ensures (((b1 % 16) * 4 + b2 / 64) % 4) * 64 + b2 % 64 == b2
  {
    assert b1 / 16 < 16 && b2 / 64 < 4;
  }

  lemma {:induction false} BytesSextets(b: seq<Byte>)
    ensures Bytes(Sextets(b)) == b
  {
    if |b| >= 3 {
      ByteGroup(b[0], b[1], b[2]);
      var xs := Sextets(b);
      assert xs[4..] == Sextets(b[3..]);
      BytesSextets(b[3..]);
      assert b == b[..3] + b[3..];
    } else if |b| == 2 {
      ByteGroup(b[0], b[1], 0);
    } else if |b| == 1 {
      ByteGroup(b[0], 0, 0);
    }
  }

  /** base64url loses nothing: decoding gives back the bytes. */
  lemma {:induction false} Base64UrlRoundTrip(b: seq<Byte>)
    ensures DecodeBase64Url(Base64Url(b)) == Some(b)
  {
    SextetsOfDigits(Sextets(b));
    BytesSextets(b);
  }

  // ----- the tag -----

  /** `getLnurl`: an address without `@` is returned as it is. */
  function GetLnurl(address: string): (r: string)
    ensures '@' !in address ==> r == address
    ensures '@' in address ==> r == "lnurl" + Lower(Base64Url(Utf8(AddressUrl(address).value)))
  {
    match AddressUrl(address)
    case None => address
    case Some(url) =>
      var encoded := UrlSafe(Btoa(Utf8(url)));
      UrlSafeBtoa(Utf8(url));
      "lnurl" + Lower(encoded)
  }

  predicate IsTagChar(c: char) {
    'a' <= c <= 'z' || '0' <= c <= '9' || c == '-' || c == '_'
  }

  lemma {:induction false} LowerDigit(v: Sextet)
    ensures IsTagChar(LowerChar(Digit(v, true)))
  {
  }

  /**
   * An address with `@` becomes `lnurl` followed by lower-case letters,
   * digits, `-` and `_` only: no `+`, `/`, `=` and no upper-case letter.
   */
  lemma {:induction false} GetLnurlAlphabet(address: string)
    requires '@' in address
    ensures var r := GetLnurl(address);
      |r| >= 5 && r[..5] == "lnurl" && forall i :: 5 <= i < |r| ==> IsTagChar(r[i])
  {
    var xs := Sextets(Utf8(AddressUrl(address).value));
    var body := Lower(Digits(xs, true));
    forall i | 0 <= i < |body| ensures IsTagChar(body[i]) {
      LowerDigit(xs[i]);
    }
  }

  // ----- two addresses, one tag -----

  lemma {:induction false} SextetsConcat(p: seq<Byte>, q: seq<Byte>)
    requires |p| % 3 == 0
    ensures Sextets(p + q) == Sextets(p) + Sextets(q)
  {
    if p == [] {
      assert p + q == q;
    } else {
      assert (p + q)[3..] == p[3..] + q;
      assert (p + q)[..3] == p[..3];
      SextetsConcat(p[3..], q);
    }
  }

  lemma {:induction false} DigitsConcat(xs: seq<Sextet>, ys: seq<Sextet>, urlSafe: bool)
    ensures Digits(xs + ys, urlSafe) == Digits(xs, urlSafe) + Digits(ys, urlSafe)
  {
  }

  lemma {:induction false} LowerConcat(a: string, b: string)
    ensures Lower(a + b) == Lower(a) + Lower(b)
  {
  }

  predicate IsAscii(s: string) {
    forall i :: 0 <= i < |s| ==> s[i] as int < 0x80
  }

  /** Encoding a byte string that fills whole groups, then more bytes, encodes each part on its own. */
  lemma {:induction false} LowerBase64UrlConcat(a: seq<Byte>, b: seq<Byte>, ab: seq<Byte>)
    requires |a| % 3 == 0 && ab == a + b
    ensures Lower(Base64Url(ab)) == Lower(Base64Url(a)) + Lower(Base64Url(b))
  {
    SextetsConcat(a, b);
    DigitsConcat(Sextets(a), Sextets(b), true);
    LowerConcat(Base64Url(a), Base64Url(b));
  }

  lemma {:induction false} Utf8AsciiTail(p: string, x: char, y: char, z: char)
    requires IsAscii(p) && x as int < 0x80 && y as int < 0x80 && z as int < 0x80
    ensures Utf8(p + [x, y, z]) == Utf8(p) + [x as int, y as int, z as int]
    ensures |Utf8(p)| == |p|
  {
    Utf8Ascii(p);
    Utf8Concat(p, [x, y, z]);
    Utf8Ascii([x, y, z]);
  }

  /** The tag of `p` followed by three ASCII characters, when `p` fills whole base64 groups. */
  lemma {:induction false} TailTag(p: string, x: char, y: char, z: char)
    requires IsAscii(p) && |p| % 3 == 0 && x as int < 0x80 && y as int < 0x80 && z as int < 0x80
    ensures Lower(Base64Url(Utf8(p + [x, y, z]))) == Lower(Base64Url(Utf8(p))) + Lower(Base64Url([x as int, y as int, z as int]))
  {
    Utf8AsciiTail(p, x, y, z);
    LowerBase64UrlConcat(Utf8(p), [x as int, y as int, z as int], Utf8(p + [x, y, z]));
  }

  /** The tag of an address with exactly one `@`. */
  lemma {:induction false} AddressTag(name: string, domain: string, address: string)
    requires '@' !in name && '@' !in domain && address == name + "@" + domain
    ensures GetLnurl(address) == "lnurl" + Lower(Base64Url(Utf8(WellKnownUrl(name, domain))))
  {
    AddressUrlParts(name, domain);
  }

  lemma {:induction false} LastGroups()
    ensures Lower(Base64Url([112, 47, 71])) == "cc9h"
    ensures Lower(Base64Url([112, 47, 97])) == "cc9h"
  {
    UpperGroup();
    LowerGroup();
  }

  /** `p/G` encodes as `cC9H`. */
  lemma {:induction false} UpperGroup()
    ensures Base64Url([112, 47, 71]) == "cC9H"
  {
    var g: seq<Byte> := [112, 47, 71];
    assert g[3..] == [];
    assert Sextets(g) == [28, 2, 61, 7];
  }

  /** `p/a` encodes as `cC9h`. */
  lemma {:induction false} LowerGroup()
    ensures Base64Url([112, 47, 97]) == "cC9h"
  {
    var a: seq<Byte> := [112, 47, 97];
    assert a[3..] == [];
    assert Sextets(a) == [28, 2, 61, 33];
  }

  /**
   * Lower-casing base64 merges distinct addresses: at any ASCII domain whose
   * length is one more than a multiple of three, the names `G` and `a` fall in
   * the last sextet of a group, where they encode as `H` and `h`, so
   * `G@domain` and `a@domain` yield the same tag.
   */
  lemma {:induction false} NameCaseCollides(domain: string)
    requires '@' !in domain && IsAscii(domain) && |domain| % 3 == 1
    ensures GetLnurl("G@" + domain) == GetLnurl("a@" + domain)
  {
    OneLetterTag(domain, 'G', "G@" + domain);
    OneLetterTag(domain, 'a', "a@" + domain);
    LastGroups();
  }

  lemma {:induction false} AsciiConcat(a: string, b: string)
    requires IsAscii(a) && IsAscii(b)
    ensures IsAscii(a + b)
  {
    assert forall i :: |a| <= i < |a + b| ==> (a + b)[i] == b[i - |a|];
  }

  /** The well-known URL of a one-letter name, cut just before the `p/` that ends its path. */
  lemma WellKnownStem(c: char, domain: string)
    ensures WellKnownUrl([c], domain) == ("https://" + domain + "/.well-known/lnurl") + ['p', '/', c]
  {
    assert "/.well-known/lnurlp/" == "/.well-known/lnurl" + ['p', '/'];
  }

  /** The URL before `p/` is ASCII and, for these domains, fills whole base64 groups. */
  lemma {:induction false} StemGroups(domain: string)
    requires IsAscii(domain) && |domain| % 3 == 1
    ensures var p := "https://" + domain + "/.well-known/lnurl"; IsAscii(p) && |p| % 3 == 0
  {
    var head, tail := "https://", "/.well-known/lnurl";
    assert |head| == 8 && |tail| == 18;
    assert IsAscii(head) && IsAscii(tail);
    AsciiConcat(head, domain);
    AsciiConcat(head + domain, tail);
    var q := |domain| / 3;
    assert |head + domain + tail| == 3 * (q + 9);
  }

  /** The tag of a one-letter name's URL: the URL up to `lnurl` fills whole groups, `p/` and the letter one more. */
  lemma {:induction false} OneLetterUrlTag(domain: string, c: char)
    requires IsAscii(domain) && |domain| % 3 == 1 && c as int < 0x80
    ensures Lower(Base64Url(Utf8(WellKnownUrl([c], domain)))) ==
      Lower(Base64Url(Utf8("https://" + domain + "/.well-known/lnurl"))) + Lower(Base64Url([112, 47, c as int]))
  {
    WellKnownStem(c, domain);
    StemGroups(domain);
    TailTag("https://" + domain + "/.well-known/lnurl", 'p', '/', c);
  }

  /** The tag of a one-letter name. */
  lemma {:induction false} OneLetterTag(domain: string, c: char, address: string)
    requires '@' !in domain && IsAscii(domain) && |domain| % 3 == 1
    requires c != '@' && c as int < 0x80 && address == [c] + "@" + domain
    ensures GetLnurl(address) ==
      "lnurl" + Lower(Base64Url(Utf8("https://" + domain + "/.well-known/lnurl"))) + Lower(Base64Url([112, 47, c as int]))
  {
    AddressTag([c], domain, address);
    OneLetterUrlTag(domain, c);
  }

  /** Two different addresses, one tag. */
  lemma {:induction false} GetLnurlNotInjective()
    ensures GetLnurl("G@a") == GetLnurl("a@a")
  {
    NameCaseCollides("a");
    assert "G@" + "a" == "G@a" && "a@" + "a" == "a@a";
  }
}
