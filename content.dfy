/**
 * The post-content sanitiser of the feed script (`processContent`): escape the
 * five markup characters, pull the image URLs out of the text, turn the other
 * URLs into links and the newlines into `<br>`.
 *
 * The two global regular-expression replacements are modelled as a left-to-right
 * scan that, at each position, either matches the pattern there (and jumps past
 * the match) or keeps one character: that is how a global `replace` walks its
 * input, and neither pattern looks behind the position where it starts.
 */
module Content {
  import opened Wrappers
  import opened Strings

  // ----- escaping -----

  function EscapeChar(c: char): string {
    if c == '&' then "&amp;"
    else if c == '<' then "&lt;"
    else if c == '>' then "&gt;"
    else if c == '"' then "&quot;"
    else if c == '\'' then "&#039;"
    else [c]
  }

  predicate IsMarkupChar(c: char) {
    c == '<' || c == '>' || c == '"' || c == '\''
  }

  /** Every character escaped on its own: the escaped text holds no raw `<`, `>`, `"` or `'`. */
  function Escape(s: string): (r: string)
    ensures forall i :: 0 <= i < |r| ==> !IsMarkupChar(r[i])
  {
    if s == [] then [] else EscapeChar(s[0]) + Escape(s[1..])
  }

  /** The five global replacements in the order the script runs them, `&` first. */
  function EscapeInSourceOrder(s: string): string {
    var a := ReplaceAll(s, '&', "&amp;");
    var b := ReplaceAll(a, '<', "&lt;");
    var c := ReplaceAll(b, '>', "&gt;");
    var d := ReplaceAll(c, '"', "&quot;");
    ReplaceAll(d, '\'', "&#039;")
  }

  lemma EscapeInSourceOrderChar(c: char)
    ensures EscapeInSourceOrder([c]) == EscapeChar(c)
  {
    if c == '&' {
      AmpersandEscaped(c);
    } else if c == '<' {
      LessThanEscaped(c);
    } else if c == '>' {
      GreaterThanEscaped(c);
    } else if c == '"' {
      QuoteEscaped(c);
    } else if c == '\'' {
      ApostropheEscaped(c);
    } else {
      PlainCharUnescaped(c);
    }
  }

  /** The four replacements after the first leave a text without markup characters alone. */
  lemma LaterStepsKeep(t: string)
    requires '<' !in t && '>' !in t && '"' !in t && '\'' !in t
    ensures ReplaceAll(ReplaceAll(ReplaceAll(ReplaceAll(t, '<', "&lt;"), '>', "&gt;"), '"', "&quot;"), '\'', "&#039;") == t
  {
    ReplaceAllAbsent(t, '<', "&lt;");
    ReplaceAllAbsent(t, '>', "&gt;");
    ReplaceAllAbsent(t, '"', "&quot;");
    ReplaceAllAbsent(t, '\'', "&#039;");
  }

  lemma AmpersandEscaped(c: char)
    requires c == '&'
    ensures EscapeInSourceOrder([c]) == "&amp;"
  {
    var a := ReplaceAll([c], '&', "&amp;");
    ReplaceAllSingle(c, '&', "&amp;");
    LaterStepsKeep(a);
  }

  lemma LessThanEscaped(c: char)
    requires c == '<'
    ensures EscapeInSourceOrder([c]) == "&lt;"
  {
    var a := ReplaceAll([c], '&', "&amp;");
    ReplaceAllSingle(c, '&', "&amp;");
    ReplaceAllSingle(c, '<', "&lt;");
    assert ReplaceAll("&lt;", '>', "&gt;") == "&lt;";
    assert ReplaceAll("&lt;", '"', "&quot;") == "&lt;";
    assert ReplaceAll("&lt;", '\'', "&#039;") == "&lt;";
  }

  lemma GreaterThanEscaped(c: char)
    requires c == '>'
    ensures EscapeInSourceOrder([c]) == "&gt;"
  {
    ReplaceAllSingle(c, '&', "&amp;");
    ReplaceAllSingle(c, '<', "&lt;");
    var d := ReplaceAll([c], '>', "&gt;");
    ReplaceAllSingle(c, '>', "&gt;");
    ReplaceAllAbsent(d, '"', "&quot;");
    ReplaceAllAbsent(d, '\'', "&#039;");
  }

  lemma QuoteEscaped(c: char)
    requires c == '"'
    ensures EscapeInSourceOrder([c]) == "&quot;"
  {
    ReplaceAllSingle(c, '&', "&amp;");
    ReplaceAllSingle(c, '<', "&lt;");
    ReplaceAllSingle(c, '>', "&gt;");
    var e := ReplaceAll([c], '"', "&quot;");
    ReplaceAllSingle(c, '"', "&quot;");
    ReplaceAllAbsent(e, '\'', "&#039;");
  }

  lemma ApostropheEscaped(c: char)
    requires c == '\''
    ensures EscapeInSourceOrder([c]) == "&#039;"
  {
    ReplaceAllSingle(c, '&', "&amp;");
    ReplaceAllSingle(c, '<', "&lt;");
    ReplaceAllSingle(c, '>', "&gt;");
    ReplaceAllSingle(c, '"', "&quot;");
    ReplaceAllSingle(c, '\'', "&#039;");
  }

  lemma PlainCharUnescaped(c: char)
    requires c != '&' && c != '<' && c != '>' && c != '"' && c != '\''
    ensures EscapeInSourceOrder([c]) == [c]
  {
    ReplaceAllSingle(c, '&', "&amp;");
    ReplaceAllSingle(c, '<', "&lt;");
    ReplaceAllSingle(c, '>', "&gt;");
    ReplaceAllSingle(c, '"', "&quot;");
    ReplaceAllSingle(c, '\'', "&#039;");
  }

  /**
   * Because `&` is replaced first and no replacement text holds a character a
   * later step replaces, the chain of replacements is the per-character map:
   * no character is escaped twice.
   */
  lemma {:induction false} EscapeInSourceOrderIsPerChar(s: string)
    ensures EscapeInSourceOrder(s) == Escape(s)
  {
    if s != [] {
      var h, t := [s[0]], s[1..];
      assert s == h + t;
      var a := ReplaceAll(s, '&', "&amp;");
      var b := ReplaceAll(a, '<', "&lt;");
      var c := ReplaceAll(b, '>', "&gt;");
      var d := ReplaceAll(c, '"', "&quot;");
      ReplaceAllConcat(h, t, '&', "&amp;");
      ReplaceAllConcat(ReplaceAll(h, '&', "&amp;"), ReplaceAll(t, '&', "&amp;"), '<', "&lt;");
      var hb, tb := ReplaceAll(ReplaceAll(h, '&', "&amp;"), '<', "&lt;"), ReplaceAll(ReplaceAll(t, '&', "&amp;"), '<', "&lt;");
      assert b == hb + tb;
      ReplaceAllConcat(hb, tb, '>', "&gt;");
      var hc, tc := ReplaceAll(hb, '>', "&gt;"), ReplaceAll(tb, '>', "&gt;");
      assert c == hc + tc;
      ReplaceAllConcat(hc, tc, '"', "&quot;");
      var hd, td := ReplaceAll(hc, '"', "&quot;"), ReplaceAll(tc, '"', "&quot;");
      assert d == hd + td;
      ReplaceAllConcat(hd, td, '\'', "&#039;");
      EscapeInSourceOrderChar(s[0]);
      EscapeInSourceOrderIsPerChar(t);
    }
  }

  /** The inverse of `Escape`: each of the five entities back to its character. */
  function Unescape(s: string): string {
    if s == [] then []
    else if StartsWith(s, "&amp;") then "&" + Unescape(s[5..])
    else if StartsWith(s, "&lt;") then "<" + Unescape(s[4..])
    else if StartsWith(s, "&gt;") then ">" + Unescape(s[4..])
    else if StartsWith(s, "&quot;") then "\"" + Unescape(s[6..])
    else if StartsWith(s, "&#039;") then "'" + Unescape(s[6..])
    else [s[0]] + Unescape(s[1..])
  }

  lemma UnescapeStep(c: char, rest: string)
    ensures Unescape(EscapeChar(c) + rest) == [c] + Unescape(rest)
  {
    var e := EscapeChar(c) + rest;
    assert e[..|EscapeChar(c)|] == EscapeChar(c);
    assert e[|EscapeChar(c)|..] == rest;
    if c != '&' && c != '<' && c != '>' && c != '"' && c != '\'' {
      assert e[0] == c;
      assert !StartsWith(e, "&amp;") && !StartsWith(e, "&lt;") && !StartsWith(e, "&gt;");
      assert !StartsWith(e, "&quot;") && !StartsWith(e, "&#039;");
    } else if c == '<' {
      assert e[1] == 'l';
      assert !StartsWith(e, "&amp;");
    } else if c == '>' {
      assert e[1] == 'g';
      assert !StartsWith(e, "&amp;") && !StartsWith(e, "&lt;");
    } else if c == '"' {
      assert e[1] == 'q';
      assert !StartsWith(e, "&amp;") && !StartsWith(e, "&lt;") && !StartsWith(e, "&gt;");
    } else if c == '\'' {
      assert e[1] == '#';
      assert !StartsWith(e, "&amp;") && !StartsWith(e, "&lt;") && !StartsWith(e, "&gt;");
      assert !StartsWith(e, "&quot;");
    }
  }

  /** Escaping loses nothing: unescaping the escaped text gives back the post. */
  lemma {:induction false} UnescapeEscape(s: string)
    ensures Unescape(Escape(s)) == s
  {
    if s != [] {
      UnescapeStep(s[0], Escape(s[1..]));
      UnescapeEscape(s[1..]);
    }
  }

  // ----- the two URL patterns -----

  predicate MatchesAt(s: string, p: string, ignoreCase: bool) {
    if ignoreCase then StartsWithIgnoreCase(s, p) else StartsWith(s, p)
  }

  /** Length of the `https?://` that `s` starts with, 0 if it starts with neither. */
  function SchemeLength(s: string, ignoreCase: bool): (h: nat)
    ensures h == 0 || h == 7 || h == 8
    ensures h <= |s|
  {
    if MatchesAt(s, "https://", ignoreCase) then 8
    else if MatchesAt(s, "http://", ignoreCase) then 7
    else 0
  }

  /** The alternatives of `(?:jpg|jpeg|gif|png|webp)`, in the pattern's order. */
  const Extensions: seq<string> := ["jpg", "jpeg", "gif", "png", "webp"]

  /** The index of the first word of `words` that `s` starts with, in any case. */
  function WordIndex(s: string, words: seq<string>): (r: Option<nat>)
    ensures r.Some? ==> r.value < |words| && StartsWithIgnoreCase(s, words[r.value])
  {
    if words == [] then None
    else if StartsWithIgnoreCase(s, words[0]) then Some(0)
    else match WordIndex(s, words[1..])
      case Some(j) => Some(j + 1)
      case None => None
  }

  /** Length of the image extension `s` starts with, the alternatives tried in the pattern's order; 0 if none. */
  function ExtensionLength(s: string): (n: nat)
    ensures n <= |s|
  {
    match WordIndex(s, Extensions)
    case Some(j) => |Extensions[j]|
    case None => 0
  }

  /** The end of the run of non-whitespace characters that starts at `i`. */
  function RunEnd(s: string, i: nat): (e: nat)
    requires i <= |s|
    ensures i <= e <= |s|
    decreases |s| - i
  {
    if i < |s| && !IsJsSpace(s[i]) then RunEnd(s, i + 1) else i
  }

  lemma {:induction false} RunEndNoSpace(s: string, i: nat, k: nat)
    requires i <= |s| && i <= k < RunEnd(s, i)
    ensures !IsJsSpace(s[k])
    decreases |s| - i
  {
    if k > i {
      RunEndNoSpace(s, i + 1, k);
    }
  }

  /**
   * The backtracking of the greedy `[^\s]+` in `[^\s]+\.(?:jpg|jpeg|gif|png|webp)`:
   * the candidate dots are tried from position `d` down to just after `h`, and
   * the first that is followed by an extension ends the match.
   */
  function LastDot(s: string, h: nat, d: nat): (r: Option<nat>)
    requires h <= d <= |s|
    decreases d
  {
    if d == h then None
    else if d < |s| && s[d] == '.' && ExtensionLength(s[d + 1..]) > 0 then Some(d + 1 + ExtensionLength(s[d + 1..]))
    else LastDot(s, h, d - 1)
  }

  /** The dot `LastDot` settles on. */
  lemma {:induction false} LastDotFound(s: string, h: nat, d: nat) returns (k: nat)
    requires h <= d <= |s| && LastDot(s, h, d).Some?
    ensures h < k <= d && k < |s| && s[k] == '.' && ExtensionLength(s[k + 1..]) > 0
    ensures LastDot(s, h, d).value == k + 1 + ExtensionLength(s[k + 1..])
    decreases d
  {
    if d < |s| && s[d] == '.' && ExtensionLength(s[d + 1..]) > 0 {
      k := d;
    } else {
      k := LastDotFound(s, h, d - 1);
    }
  }

  /** Which of the script's two URL patterns is being scanned for. */
  datatype Pattern =
    | ImagePattern  // /(https?:\/\/[^\s]+\.(?:jpg|jpeg|gif|png|webp))/gi
    | LinkPattern   // /(https?:\/\/[^\s]+)/g

  /** The length of the match of `p` that starts at `s[0]`, if any. */
  function MatchAt(p: Pattern, s: string): (r: Option<nat>)
    ensures r.Some? ==> 0 < r.value <= |s|
  {
    match p
    case ImagePattern =>
      var h := SchemeLength(s, true);
      if h == 0 then None
      else
        var m := LastDot(s, h, RunEnd(s, h));
        if m.Some? && 0 < m.value <= |s| then m else None
    case LinkPattern =>
      var h := SchemeLength(s, false);
      if h == 0 then None
      else
        var e := RunEnd(s, h);
        if e > h then Some(e) else None
  }

  // ----- the scan -----

  datatype Piece = Kept(c: char) | Matched(text: string)

  /** The input cut into the matches of `p`, left to right, and the characters between them. */
  function Scan(p: Pattern, s: string): seq<Piece>
    decreases |s|
  {
    if s == [] then []
    else match MatchAt(p, s)
      case Some(n) => [Matched(s[..n])] + Scan(p, s[n..])
      case None => [Kept(s[0])] + Scan(p, s[1..])
  }

  function Flatten(ps: seq<Piece>): string {
    if ps == [] then []
    else (match ps[0] case Kept(c) => [c] case Matched(t) => t) + Flatten(ps[1..])
  }

  /** The text with every match taken out. */
  function KeptText(ps: seq<Piece>): string {
    if ps == [] then []
    else (match ps[0] case Kept(c) => [c] case Matched(_) => []) + KeptText(ps[1..])
  }

  /** The matches, in the order they occur. */
  function MatchedTexts(ps: seq<Piece>): seq<string> {
    if ps == [] then []
    else (match ps[0] case Kept(_) => [] case Matched(t) => [t]) + MatchedTexts(ps[1..])
  }

  /** How far the scan moves from the start of `s`: past the match, or one character. */
  function Step(p: Pattern, s: string): (n: nat)
    requires s != []
    ensures 0 < n <= |s|
  {
    match MatchAt(p, s)
    case Some(n) => n
    case None => 1
  }

  /** One step of the scan, as seen by `KeptText` and `MatchedTexts`. */
  lemma ScanStep(p: Pattern, s: string)
    requires s != []
    ensures MatchAt(p, s).Some? ==>
      KeptText(Scan(p, s)) == KeptText(Scan(p, s[Step(p, s)..]))
      && MatchedTexts(Scan(p, s)) == [s[..Step(p, s)]] + MatchedTexts(Scan(p, s[Step(p, s)..]))
    ensures MatchAt(p, s).None? ==>
      KeptText(Scan(p, s)) == [s[0]] + KeptText(Scan(p, s[1..]))
      && MatchedTexts(Scan(p, s)) == MatchedTexts(Scan(p, s[1..]))
  {
    var ps := Scan(p, s);
    assert ps[1..] == Scan(p, s[Step(p, s)..]);
  }

  /** The first piece of the scan: the match at the start of `s`, or its first character. */
  function Head(p: Pattern, s: string): (h: Piece)
    requires s != []
    ensures h.Matched? <==> MatchAt(p, s).Some?
  {
    if MatchAt(p, s).Some? then Matched(s[..Step(p, s)]) else Kept(s[0])
  }

  /** The text a piece stands for. */
  function PieceText(x: Piece): string {
    match x
    case Kept(c) => [c]
    case Matched(t) => t
  }

  /** The scan takes off its first piece, which covers the first `Step` characters. */
  lemma ScanUnfold(p: Pattern, s: string)
    requires s != []
    ensures Scan(p, s)[0] == Head(p, s) && Scan(p, s)[1..] == Scan(p, s[Step(p, s)..])
    ensures PieceText(Head(p, s)) == s[..Step(p, s)]
  {
  }

  /** The scan only cuts: the pieces put back together are the input. */
  lemma {:induction false} ScanLossless(p: Pattern, s: string)
    ensures Flatten(Scan(p, s)) == s
    decreases |s|
  {
    if s != [] {
      var n := Step(p, s);
      ScanUnfold(p, s);
      ScanLossless(p, s[n..]);
      assert Flatten(Scan(p, s)) == PieceText(Head(p, s)) + Flatten(Scan(p, s[n..]));
      assert s == s[..n] + s[n..];
    }
  }

  /** Every character of a match is a character of the input. */
  lemma {:induction false} MatchedChars(p: Pattern, s: string, i: nat, c: char)
    requires i < |MatchedTexts(Scan(p, s))| && c in MatchedTexts(Scan(p, s))[i]
    ensures c in s
    decreases |s|
  {
    if s != [] {
      var n := Step(p, s);
      ScanUnfold(p, s);
      var rest := MatchedTexts(Scan(p, s[n..]));
      if Head(p, s).Matched? {
        assert MatchedTexts(Scan(p, s)) == [s[..n]] + rest;
        if i == 0 {
          assert c in s[..n];
        } else {
          MatchedChars(p, s[n..], i - 1, c);
          assert c in s[n..];
        }
      } else {
        assert MatchedTexts(Scan(p, s)) == rest;
        MatchedChars(p, s[n..], i, c);
        assert c in s[n..];
      }
    }
  }

  // ----- what a match looks like -----

  predicate NoSpace(u: string) {
    forall i :: 0 <= i < |u| ==> !IsJsSpace(u[i])
  }

  /** `t` is a dot and one of the five extensions, in any case. */
  predicate IsImageExtension(t: string) {
    |t| >= 1 && t[0] == '.' && Lower(t[1..]) in Extensions
  }

  /** `u` ends in `.jpg`, `.jpeg`, `.gif`, `.png` or `.webp`, in any case. */
  predicate HasImageExtension(u: string) {
    (|u| >= 4 && IsImageExtension(u[|u| - 4..])) || (|u| >= 5 && IsImageExtension(u[|u| - 5..]))
  }

  /**
   * An image URL: `http://` or `https://` in any case, at least one character,
   * then `.jpg`, `.jpeg`, `.gif`, `.png` or `.webp` in any case, and no
   * whitespace anywhere.
   */
  predicate IsImageUrl(u: string) {
    var h := SchemeLength(u, true);
    h > 0 && NoSpace(u) && h + 1 <= |u| && HasImageExtension(u[h + 1..])
  }

  /** A link URL: `http://` or `https://` in lower case, then at least one character, no whitespace. */
  predicate IsLinkUrl(u: string) {
    var h := SchemeLength(u, false);
    h > 0 && |u| > h && NoSpace(u)
  }

  /** The extension word a positive `ExtensionLength` stands for. */
  lemma ExtensionWord(s: string) returns (j: nat)
    requires ExtensionLength(s) > 0
    ensures j < |Extensions| && |Extensions[j]| == ExtensionLength(s) && StartsWithIgnoreCase(s, Extensions[j])
  {
    j := WordIndex(s, Extensions).value;
  }

  /** The extension words have three or four letters. */
  lemma ExtensionSize(j: nat)
    requires j < |Extensions|
    ensures |Extensions[j]| == 3 || |Extensions[j]| == 4
  {
    assert j == 0 || j == 1 || j == 2 || j == 3 || j == 4;
  }

  /** The extension words are written in lower-case letters. */
  lemma ExtensionLetters(j: nat, i: nat)
    requires j < |Extensions| && i < |Extensions[j]|
    ensures 'a' <= Extensions[j][i] <= 'z'
  {
    assert j == 0 || j == 1 || j == 2 || j == 3 || j == 4;
  }



  /** What the scheme test says depends only on the first eight characters. */
  lemma SchemeLengthPrefix(s: string, n: nat, ignoreCase: bool)
    requires 8 <= n <= |s|
    ensures SchemeLength(s[..n], ignoreCase) == SchemeLength(s, ignoreCase)
  {
    var u := s[..n];
    StartsWithIgnoreCaseChars(u, "https://");
    StartsWithIgnoreCaseChars(s, "https://");
    StartsWithIgnoreCaseChars(u, "http://");
    StartsWithIgnoreCaseChars(s, "http://");
    assert u[..8] == s[..8] && u[..7] == s[..7];
  }

  /** The scheme's characters are not whitespace. */
  lemma SchemeNoSpace(s: string, ignoreCase: bool, i: nat)
    requires i < SchemeLength(s, ignoreCase)
    ensures !IsJsSpace(s[i])
  {
    var h := SchemeLength(s, ignoreCase);
    var p := if h == 8 then "https://" else "http://";
    if ignoreCase {
      StartsWithIgnoreCaseChars(s, p);
      assert LowerChar(s[i]) == LowerChar(p[i]);
    } else {
      assert s[..h] == p;
      assert s[i] == p[i];
    }
  }

  /** A dot followed by one of the extension words, in any case, is an image extension. */
  lemma DotExtension(s: string, k: nat, j: nat)
    requires j < |Extensions| && k < |s| && s[k] == '.' && StartsWithIgnoreCase(s[k + 1..], Extensions[j])
    ensures IsImageExtension(s[k..k + 1 + |Extensions[j]|])
  {
    var w := Extensions[j];
    var x := s[k + 1..];
    var t := s[k..k + 1 + |w|];
    StartsWithIgnoreCaseChars(x, w);
    forall i | 0 <= i < |w| ensures Lower(t[1..])[i] == w[i] {
      ExtensionLetters(j, i);
      assert t[1..][i] == x[i];
    }
    assert Lower(t[1..]) == w;
  }

  /** An extension word read in any case holds no whitespace. */
  lemma WordNoSpace(x: string, j: nat, i: nat)
    requires j < |Extensions| && StartsWithIgnoreCase(x, Extensions[j]) && i < |Extensions[j]|
    ensures !IsJsSpace(x[i])
  {
    StartsWithIgnoreCaseChars(x, Extensions[j]);
    ExtensionLetters(j, i);
    assert LowerChar(x[i]) == LowerChar(Extensions[j][i]);
  }

  /** The text up to the end of the extension word after the dot at `k` holds no whitespace. */
  lemma ImageMatchNoSpace(s: string, h: nat, k: nat, j: nat)
    requires h < k < |s| && k <= RunEnd(s, h) && s[k] == '.'
    requires forall i :: 0 <= i < h ==> !IsJsSpace(s[i])
    requires j < |Extensions| && StartsWithIgnoreCase(s[k + 1..], Extensions[j]) && k + 1 + |Extensions[j]| <= |s|
    ensures NoSpace(s[..k + 1 + |Extensions[j]|])
  {
    var x := s[k + 1..];
    forall i | 0 <= i < k + 1 + |Extensions[j]| ensures !IsJsSpace(s[i]) {
      if h <= i < k {
        RunEndNoSpace(s, h, i);
      } else if i > k {
        assert s[i] == x[i - k - 1];
        WordNoSpace(x, j, i - k - 1);
      }
    }
  }

  /** A text whose last four or five characters are an image extension has one. */
  lemma EndsWithExtension(v: string, t: string)
    requires |t| <= |v| && v[|v| - |t|..] == t && (|t| == 4 || |t| == 5) && IsImageExtension(t)
    ensures HasImageExtension(v)
  {
  }

  /** Cut after the dot at `k` and its extension word, the text ends in an image extension. */
  lemma ImageMatchExtension(s: string, h: nat, k: nat, j: nat)
    requires h < k < |s| && s[k] == '.'
    requires j < |Extensions| && StartsWithIgnoreCase(s[k + 1..], Extensions[j]) && k + 1 + |Extensions[j]| <= |s|
    ensures HasImageExtension(s[..k + 1 + |Extensions[j]|][h + 1..])
  {
    var n := k + 1 + |Extensions[j]|;
    var v := s[..n][h + 1..];
    ExtensionSize(j);
    DotExtension(s, k, j);
    assert v[|v| - (n - k)..] == s[k..n];
    EndsWithExtension(v, s[k..n]);
  }

  /** Every match of the image pattern is an image URL. */
  lemma ImageMatchIsImageUrl(s: string)
    requires MatchAt(ImagePattern, s).Some?
    ensures IsImageUrl(s[..MatchAt(ImagePattern, s).value])
  {
    var h := SchemeLength(s, true);
    var n := MatchAt(ImagePattern, s).value;
    var k := LastDotFound(s, h, RunEnd(s, h));
    var j := ExtensionWord(s[k + 1..]);
    var u := s[..n];
    assert n == k + 1 + |Extensions[j]|;
    assert SchemeLength(u, true) == h by {
      SchemeLengthPrefix(s, n, true);
    }
    assert NoSpace(u) by {
      forall i | 0 <= i < h ensures !IsJsSpace(s[i]) {
        SchemeNoSpace(s, true, i);
      }
      ImageMatchNoSpace(s, h, k, j);
    }
    assert HasImageExtension(u[h + 1..]) by {
      ImageMatchExtension(s, h, k, j);
    }
  }

  /** Every match of the link pattern is a link URL. */
  lemma LinkMatchIsLinkUrl(s: string)
    requires MatchAt(LinkPattern, s).Some?
    ensures IsLinkUrl(s[..MatchAt(LinkPattern, s).value])
  {
    var h := SchemeLength(s, false);
    var n := MatchAt(LinkPattern, s).value;
    var u := s[..n];
    SchemeLengthPrefix(s, n, false);
    forall i | 0 <= i < |u| ensures !IsJsSpace(u[i]) {
      if i < h {
        SchemeNoSpace(s, false, i);
      } else {
        RunEndNoSpace(s, h, i);
      }
    }
  }

  lemma {:induction false} ScanMatches(p: Pattern, s: string)
    ensures forall i :: 0 <= i < |MatchedTexts(Scan(p, s))| ==>
      (if p == ImagePattern then IsImageUrl(MatchedTexts(Scan(p, s))[i]) else IsLinkUrl(MatchedTexts(Scan(p, s))[i]))
  {
    if s != [] {
      ScanMatches(p, s[1..]);
      match MatchAt(p, s)
      case Some(n) =>
        ScanMatches(p, s[n..]);
        if p == ImagePattern { ImageMatchIsImageUrl(s); } else { LinkMatchIsLinkUrl(s); }
      case None =>
    }
  }

  // ----- the rest of the pipeline -----

  function Anchor(u: string): string {
    "<a href=\"" + u + "\" target=\"_blank\" rel=\"noopener noreferrer\">" + u + "</a>"
  }

  /** The pieces with every match turned into a link to itself. */
  function RenderLinks(ps: seq<Piece>): string {
    if ps == [] then []
    else (match ps[0] case Kept(c) => [c] case Matched(u) => Anchor(u)) + RenderLinks(ps[1..])
  }

  /** The remaining URLs turned into links. */
  function Linkify(s: string): string {
    RenderLinks(Scan(LinkPattern, s))
  }

  /** The images of a post: the image URLs of its escaped text, in order. */
  function PostImages(content: string): seq<string> {
    MatchedTexts(Scan(ImagePattern, Escape(content)))
  }

  /** The body of a post: its escaped text without the images, linked, newlines as `<br>`. */
  function PostHtml(content: string): string {
    ReplaceAll(Linkify(KeptText(Scan(ImagePattern, Escape(content)))), '\n', "<br>")
  }

  /** The images cut out of the escaped text leave exactly the text the links are made from. */
  lemma ImagesCutFromEscapedText(content: string)
    ensures Flatten(Scan(ImagePattern, Escape(content))) == Escape(content)
    ensures forall i :: 0 <= i < |PostImages(content)| ==> IsImageUrl(PostImages(content)[i])
  {
    ScanLossless(ImagePattern, Escape(content));
    ScanMatches(ImagePattern, Escape(content));
  }

  /**
   * The image URLs come out of the escaped text, so they hold no raw `<`, `>`,
   * `"` or `'` and cannot close the `src="..."` attribute they are put in.
   */
  lemma PostImagesAttributeSafe(content: string, i: nat, j: nat)
    requires i < |PostImages(content)| && j < |PostImages(content)[i]|
    ensures !IsMarkupChar(PostImages(content)[i][j])
  {
    MatchedChars(ImagePattern, Escape(content), i, PostImages(content)[i][j]);
  }

  /**
   * `processContent`: the five replacements in order, then the image pattern's
   * global replace, whose callback pushes each match onto `images` and puts
   * nothing in its place, then the link and newline replacements.
   */
  method ProcessContent(content: string) returns (html: string, images: seq<string>)
    ensures html == PostHtml(content)
    ensures images == PostImages(content)
    ensures forall i :: 0 <= i < |images| ==> IsImageUrl(images[i])
  {
    var text := ReplaceAll(content, '&', "&amp;");
    text := ReplaceAll(text, '<', "&lt;");
    text := ReplaceAll(text, '>', "&gt;");
    text := ReplaceAll(text, '"', "&quot;");
    text := ReplaceAll(text, '\'', "&#039;");
    EscapeInSourceOrderIsPerChar(content);
    assert text == Escape(content);

    var rest;
    rest, images := CutImages(text);
    html := Linkify(rest);
    html := ReplaceAll(html, '\n', "<br>");
    ImagesCutFromEscapedText(content);
  }

  /**
   * The image pattern's global replace with a callback that pushes each match
   * onto `images` and puts nothing in its place.
   */
  method CutImages(text: string) returns (rest: string, images: seq<string>)
    ensures rest == KeptText(Scan(ImagePattern, text))
    ensures images == MatchedTexts(Scan(ImagePattern, text))
  {
    images := [];
    rest := "";
    var tail := text;
    while tail != []
      invariant KeptText(Scan(ImagePattern, text)) == rest + KeptText(Scan(ImagePattern, tail))
      invariant MatchedTexts(Scan(ImagePattern, text)) == images + MatchedTexts(Scan(ImagePattern, tail))
      decreases |tail|
    {
      var m := MatchAt(ImagePattern, tail);
      ScanStep(ImagePattern, tail);
      if m.Some? {
        images := images + [tail[..m.value]];
        tail := tail[m.value..];
      } else {
        rest := rest + [tail[0]];
        tail := tail[1..];
      }
    }
  }
}
