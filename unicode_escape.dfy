/**
 * `DecodeUnicodeEscape` of the TCP server: a regular-expression replacement that turns every
 * `\uXXXX` escape (backslash, `u`, four hexadecimal digits, the escape form of section 7 of
 * RFC 8259) of the serialised text into the character with that code point.
 *
 * The regex engine scans left to right; a match consumes six characters, the replacement is
 * never rescanned, and a position where no match starts is copied through. The replacement
 * callback converts the code with `char.ConvertFromUtf32`, which throws for the surrogate
 * range D800-DFFF; a throw aborts the whole replacement, modelled as `None`.
 */
module UnicodeEscape {
  import opened Wrappers

  /** The character class `[0-9a-fA-F]`. */
  predicate IsHexDigit(c: char) {
    '0' <= c <= '9' || 'a' <= c <= 'f' || 'A' <= c <= 'F'
  }

  function HexValue(c: char): (v: nat)
    requires IsHexDigit(c)
    ensures v < 16
  {
    if '0' <= c <= '9' then c as int - '0' as int
    else if 'a' <= c <= 'f' then c as int - 'a' as int + 10
    else c as int - 'A' as int + 10
  }

  /** The pattern `\\u([0-9a-fA-F]{4})` matches at position `i` of `s`. */
  predicate EscapeAt(s: string, i: nat)
    ensures i <= |s| ==> (EscapeAt(s, i) <==> EscapeAt(s[i..], 0))
  {
    i + 6 <= |s| && s[i] == '\\' && s[i + 1] == 'u' &&
    IsHexDigit(s[i + 2]) && IsHexDigit(s[i + 3]) && IsHexDigit(s[i + 4]) && IsHexDigit(s[i + 5])
  }

  /** The code point that the match at `i` denotes (`int.Parse` with `HexNumber`). */
  function CodeAt(s: string, i: nat): (cp: nat)
    requires EscapeAt(s, i)
    ensures cp < 0x1_0000
  {
    HexValue(s[i + 2]) * 0x1000 + HexValue(s[i + 3]) * 0x100 + HexValue(s[i + 4]) * 0x10 + HexValue(s[i + 5])
  }

  /** Code points that `char.ConvertFromUtf32` rejects (four hex digits never exceed 0x10FFFF). */
  predicate IsSurrogate(cp: int) {
    0xD800 <= cp <= 0xDFFF
  }

  /** No position of `s` starts a match. */
  predicate NoEscapes(s: string) {
    forall i: nat :: i < |s| ==> !EscapeAt(s, i)
  }

  /**
   * The codes of the matches the regex engine enumerates, in order: a left-to-right scan
   * that resumes after each match, so matches never overlap.
   */
  function ScannedCodes(s: string): (codes: seq<nat>)
    ensures |codes| * 6 <= |s|
    decreases |s|
  {
    if s == [] then []
    else if EscapeAt(s, 0) then [CodeAt(s, 0)] + ScannedCodes(s[6..])
    else ScannedCodes(s[1..])
  }

  /**
   * `Regex.Replace(input, @"\\u([0-9a-fA-F]{4})", m => char.ConvertFromUtf32(...))`: `None`
   * when the conversion of some match throws. Each replaced match shrinks the text by five.
   */
  function DecodeUnicodeEscape(s: string): (r: Option<string>)
    ensures r.Some? ==> |r.value| + 5 * |ScannedCodes(s)| == |s|
    decreases |s|
  {
    if s == [] then Some([])
    else if EscapeAt(s, 0) then
      var cp := CodeAt(s, 0);
      if IsSurrogate(cp) then None
      else
        match DecodeUnicodeEscape(s[6..])
        case None => None
        case Some(rest) => Some([cp as char] + rest)
    else
      match DecodeUnicodeEscape(s[1..])
      case None => None
      case Some(rest) => Some([s[0]] + rest)
  }

  /** Some code of `codes` is a surrogate. */
  predicate AnySurrogate(codes: seq<nat>) {
    exists k :: 0 <= k < |codes| && IsSurrogate(codes[k])
  }

  lemma AnySurrogateCons(code: nat, codes: seq<nat>)
    ensures AnySurrogate([code] + codes) <==> IsSurrogate(code) || AnySurrogate(codes)
  {
    var all := [code] + codes;
    if AnySurrogate(codes) {
      var k :| 0 <= k < |codes| && IsSurrogate(codes[k]);
      assert all[k + 1] == codes[k];
    }
    if IsSurrogate(code) {
      assert all[0] == code;
    }
    if AnySurrogate(all) {
      var k :| 0 <= k < |all| && IsSurrogate(all[k]);
      if k > 0 {
        assert codes[k - 1] == all[k];
      }
    }
  }

  /** The replacement throws exactly when one of the enumerated matches is a surrogate. */
  lemma {:induction false} DecodeFailsIffSurrogateMatch(s: string)
    ensures DecodeUnicodeEscape(s).None? <==> AnySurrogate(ScannedCodes(s))
    decreases |s|
  {
    if s == [] {
    } else if EscapeAt(s, 0) {
      DecodeFailsIffSurrogateMatch(s[6..]);
      assert ScannedCodes(s) == [CodeAt(s, 0)] + ScannedCodes(s[6..]);
      AnySurrogateCons(CodeAt(s, 0), ScannedCodes(s[6..]));
      if !IsSurrogate(CodeAt(s, 0)) {
        assert DecodeUnicodeEscape(s).None? == DecodeUnicodeEscape(s[6..]).None?;
      }
    } else {
      DecodeFailsIffSurrogateMatch(s[1..]);
      assert ScannedCodes(s) == ScannedCodes(s[1..]);
      assert DecodeUnicodeEscape(s).None? == DecodeUnicodeEscape(s[1..]).None?;
    }
  }

  /** The scan finds no match exactly when no position of the text starts one. */
  lemma {:induction false} NoMatchesIffNoEscapes(s: string)
    ensures ScannedCodes(s) == [] <==> NoEscapes(s)
    decreases |s|
  {
    if s == [] {
    } else if EscapeAt(s, 0) {
    } else {
      NoMatchesIffNoEscapes(s[1..]);
      if NoEscapes(s[1..]) {
        forall i: nat | i < |s| ensures !EscapeAt(s, i) {
          if i > 0 {
            assert !EscapeAt(s[1..], i - 1);
          }
        }
      }
      if NoEscapes(s) {
        forall i: nat | i < |s[1..]| ensures !EscapeAt(s[1..], i) {
          assert !EscapeAt(s, i + 1);
        }
      }
    }
  }

  /** A text without escapes passes through unchanged. */
  lemma {:induction false} DecodeWithoutEscapes(s: string)
    requires NoEscapes(s)
    ensures DecodeUnicodeEscape(s) == Some(s)
    decreases |s|
  {
    if s != [] {
      assert !EscapeAt(s, 0);
      forall i: nat | i < |s[1..]| ensures !EscapeAt(s[1..], i) {
        assert !EscapeAt(s, i + 1);
      }
      DecodeWithoutEscapes(s[1..]);
      assert s == [s[0]] + s[1..];
    }
  }

  /** The text comes back unchanged if and only if it holds no escape at all. */
  lemma DecodeIsIdentityIffNoEscapes(s: string)
    ensures DecodeUnicodeEscape(s) == Some(s) <==> NoEscapes(s)
  {
    NoMatchesIffNoEscapes(s);
    if NoEscapes(s) {
      DecodeWithoutEscapes(s);
    }
  }

  /** A text with no backslash before a surrogate escape makes the whole replacement throw. */
  lemma {:induction false} DecodeFailsOnSurrogateAfterPlainText(prefix: string, s: string)
    requires forall i :: 0 <= i < |prefix| ==> prefix[i] != '\\'
    requires EscapeAt(s, 0) && IsSurrogate(CodeAt(s, 0))
    ensures DecodeUnicodeEscape(prefix + s) == None
    decreases |prefix|
  {
    if prefix != [] {
      var t := prefix + s;
      assert t[0] == prefix[0] && !EscapeAt(t, 0);
      assert t[1..] == prefix[1..] + s;
      DecodeFailsOnSurrogateAfterPlainText(prefix[1..], s);
    } else {
      assert prefix + s == s;
    }
  }

  /**
   * An emoji, which a JSON writer escapes as the surrogate pair `\uD83D\uDE00`, makes the
   * replacement throw instead of being decoded.
   */
  lemma SurrogatePairEscapeFails(rest: string)
    ensures DecodeUnicodeEscape("\\uD83D\\uDE00" + rest) == None
  {
    var s := "\\uD83D\\uDE00" + rest;
    assert EscapeAt(s, 0);
    assert CodeAt(s, 0) == 0xD83D;
  }

  /** A replacement is not rescanned: `\u005C` yields a backslash that starts no new escape. */
  lemma ReplacementIsNotRescanned()
    ensures DecodeUnicodeEscape("\\u005Cu0041") == Some("\\u0041")
  {
    var s := "\\u005Cu0041";
    assert EscapeAt(s, 0) && CodeAt(s, 0) == 0x5C;
    var t := s[6..];
    assert t == "u0041";
    assert NoEscapes(t);
    DecodeWithoutEscapes(t);
    assert 0x5C as char == '\\';
    assert ['\\'] + t == "\\u0041";
  }

  /**
   * A JSON-escaped backslash (`\\`) followed by `u` and four hex digits still contains a match
   * at its second backslash, so the literal text `A` of a string value comes out as `\A`.
   */
  lemma EscapedBackslashIsDecoded()
    ensures DecodeUnicodeEscape("\\\\u0041") == Some("\\A")
  {
    var s := "\\\\u0041";
    assert !EscapeAt(s, 0);
    var t := s[1..];
    assert EscapeAt(t, 0) && CodeAt(t, 0) == 0x41;
    assert t[6..] == [];
    assert DecodeUnicodeEscape(t[6..]) == Some([]);
    assert DecodeUnicodeEscape(t) == Some([0x41 as char] + []);
    assert [0x41 as char] + [] == ['A'];
    assert [s[0]] + ['A'] == "\\A";
  }

  /** Upper-case hexadecimal digit, as a JSON writer emits it. */
  function HexDigit(d: nat): (c: char)
    requires d < 16
    ensures IsHexDigit(c) && HexValue(c) == d
  {
    if d < 10 then ('0' as int + d) as char else ('A' as int + d - 10) as char
  }

  /** Four hexadecimal digits of a code below 0x10000 give the code back. */
  lemma HexDigitsRecompose(n: nat)
    requires n < 0x1_0000
    ensures (n / 0x1000) * 0x1000 + (n / 0x100 % 0x10) * 0x100 + (n / 0x10 % 0x10) * 0x10 + n % 0x10 == n
  {
    assert n == (n / 0x10) * 0x10 + n % 0x10;
    assert n / 0x10 == (n / 0x100) * 0x10 + n / 0x10 % 0x10;
    assert n / 0x100 == (n / 0x1000) * 0x10 + n / 0x100 % 0x10;
  }

  /** The six-character escape `\uXXXX` of a character of the Basic Multilingual Plane. */
  function EscapeChar(c: char): (e: string)
    requires c as int < 0x1_0000
    ensures |e| == 6 && EscapeAt(e, 0) && CodeAt(e, 0) == c as int
  {
    var n := c as int;
    HexDigitsRecompose(n);
    ['\\', 'u', HexDigit(n / 0x1000), HexDigit(n / 0x100 % 0x10), HexDigit(n / 0x10 % 0x10), HexDigit(n % 0x10)]
  }

  /** What a writer emits for text `t` when it escapes exactly the characters `escape` selects. */
  function EscapeText(t: string, escape: char -> bool): (e: string)
    requires forall i :: 0 <= i < |t| && escape(t[i]) ==> t[i] as int < 0x1_0000
    decreases |t|
  {
    if t == [] then []
    else (if escape(t[0]) then EscapeChar(t[0]) else [t[0]]) + EscapeText(t[1..], escape)
  }

  /**
   * Every backslash of `t` that is written as itself is not followed, in the written text, by a
   * `u`: the next character is escaped (so it is written starting with a backslash) or is not
   * `u`. Such a backslash cannot start a match; an escaped backslash (`\u005C`) is allowed
   * anywhere, and its replacement is not rescanned.
   */
  predicate PlainBackslashes(t: string, escape: char -> bool) {
    forall i :: 0 <= i < |t| && t[i] == '\\' && !escape(t[i]) ==>
      (i + 1 < |t| ==> escape(t[i + 1]) || t[i + 1] != 'u')
  }

  /** An escaped character at the front decodes to the character itself. */
  lemma DecodeEscapedHead(c: char, rest: string, decoded: string)
    requires c as int < 0x1_0000
    requires DecodeUnicodeEscape(rest) == Some(decoded)
    ensures DecodeUnicodeEscape(EscapeChar(c) + rest) == Some([c] + decoded)
  {
    var e := EscapeChar(c) + rest;
    assert e[..6] == EscapeChar(c);
    assert EscapeAt(e, 0) && CodeAt(e, 0) == c as int;
    assert e[6..] == rest;
  }

  /** The written text of a non-empty `t` starts with a backslash if `t[0]` is escaped, else with `t[0]`. */
  lemma EscapeTextHead(t: string, escape: char -> bool)
    requires t != []
    requires forall i :: 0 <= i < |t| && escape(t[i]) ==> t[i] as int < 0x1_0000
    ensures |EscapeText(t, escape)| > 0
    ensures EscapeText(t, escape)[0] == if escape(t[0]) then '\\' else t[0]
  {
    if escape(t[0]) {
      assert EscapeChar(t[0])[0] == '\\';
    }
  }

  /** A backslash of `t` written as itself starts no match in the written text. */
  lemma PlainBackslashStartsNoMatch(t: string, escape: char -> bool)
    requires t != [] && PlainBackslashes(t, escape) && !escape(t[0])
    requires forall i :: 0 <= i < |t| && escape(t[i]) ==> t[i] as int < 0x1_0000
    ensures !EscapeAt(EscapeText(t, escape), 0)
  {
    var rest := EscapeText(t[1..], escape);
    var e := EscapeText(t, escape);
    assert e == [t[0]] + rest;
    if t[0] == '\\' && |t| > 1 {
      assert escape(t[1]) || t[1] != 'u';
      EscapeTextHead(t[1..], escape);
      assert e[1] == rest[0];
    }
  }

  /**
   * Decoding undoes the writer's escaping: every character the writer wrote as `\uXXXX` comes
   * back as the character itself, and every other character, backslashes included, is copied,
   * provided no unescaped backslash is followed by a `u`.
   */
  lemma {:induction false} DecodeUndoesEscaping(t: string, escape: char -> bool)
    requires PlainBackslashes(t, escape)
    requires forall i :: 0 <= i < |t| && escape(t[i]) ==> t[i] as int < 0x1_0000
    ensures DecodeUnicodeEscape(EscapeText(t, escape)) == Some(t)
    decreases |t|
  {
    if t != [] {
      var rest := EscapeText(t[1..], escape);
      assert PlainBackslashes(t[1..], escape) by {
        forall i | 0 <= i < |t[1..]| && t[1..][i] == '\\' && !escape(t[1..][i])
          ensures i + 1 < |t[1..]| ==> escape(t[1..][i + 1]) || t[1..][i + 1] != 'u'
        {
          assert t[1..][i] == t[i + 1];
        }
      }
      DecodeUndoesEscaping(t[1..], escape);
      if escape(t[0]) {
        DecodeEscapedHead(t[0], rest, t[1..]);
      } else {
        var e := EscapeText(t, escape);
        PlainBackslashStartsNoMatch(t, escape);
        assert e == [t[0]] + rest;
        assert e[1..] == rest;
      }
      assert t == [t[0]] + t[1..];
    }
  }
}
