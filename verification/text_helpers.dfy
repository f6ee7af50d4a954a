/**
  String-level helpers of the converter: attribute escaping, the hyperlink
  field command, the image extension rule, decimal rendering of numbers and
  the page-setup injection into the serialized section body.
 */
module TextHelpers {
  import opened Wrappers

  /** Every occurrence of character `c` in `s` replaced by `rep`, left to right. */
  function ReplaceAll(s: string, c: char, rep: string): (r: string)
    ensures c !in rep ==> c !in r
    decreases |s|
  {
    if s == [] then ""
    else (if s[0] == c then rep else [s[0]]) + ReplaceAll(s[1..], c, rep)
  }

  lemma {:induction false} ReplaceAllAppend(a: string, b: string, c: char, rep: string)
    ensures ReplaceAll(a + b, c, rep) == ReplaceAll(a, c, rep) + ReplaceAll(b, c, rep)
    decreases |a|
  {
    if a == [] {
      assert a + b == b;
    } else {
      assert (a + b)[0] == a[0];
      assert (a + b)[1..] == a[1..] + b;
      ReplaceAllAppend(a[1..], b, c, rep);
    }
  }

  lemma ReplaceAllSingle(ch: char, c: char, rep: string)
    ensures ReplaceAll([ch], c, rep) == if ch == c then rep else [ch]
  {
    assert [ch][1..] == [];
  }

  lemma {:induction false} ReplaceAllAbsent(s: string, c: char, rep: string)
    requires c !in s
    ensures ReplaceAll(s, c, rep) == s
    decreases |s|
  {
    if s != [] {
      assert s == [s[0]] + s[1..];
      ReplaceAllAbsent(s[1..], c, rep);
    }
  }

  // ---------------------------------------------------------------------
  // Attribute escaping

  /**
    The escaping of an attribute value: ampersand first, then the two angle
    brackets, then the double and single quote, each pass over the result of
    the previous one.
   */
  function EscapeChain(s: string): string
  {
    ReplaceAll(ReplaceAll(ReplaceAll(ReplaceAll(ReplaceAll(
      s, '&', "&amp;"), '>', "&gt;"), '<', "&lt;"), '"', "&quot;"), '\'', "&apos;")
  }

  /** Attribute escaping of an optional value: a missing value becomes the empty string. */
  function EscapeAttr(value: Option<string>): string
  {
    if value.None? then "" else EscapeChain(value.value)
  }

  /** Reference definition: each character escaped on its own. */
  function EscapeAttrChar(ch: char): string
  {
    if ch == '&' then "&amp;"
    else if ch == '>' then "&gt;"
    else if ch == '<' then "&lt;"
    else if ch == '"' then "&quot;"
    else if ch == '\'' then "&apos;"
    else [ch]
  }

  function EscapeAttrChars(s: string): string
    decreases |s|
  {
    if s == [] then "" else EscapeAttrChar(s[0]) + EscapeAttrChars(s[1..])
  }

  lemma EscapeChainAppend(a: string, b: string)
    ensures EscapeChain(a + b) == EscapeChain(a) + EscapeChain(b)
  {
    var s1a, s1b := ReplaceAll(a, '&', "&amp;"), ReplaceAll(b, '&', "&amp;");
    ReplaceAllAppend(a, b, '&', "&amp;");
    var s2a, s2b := ReplaceAll(s1a, '>', "&gt;"), ReplaceAll(s1b, '>', "&gt;");
    ReplaceAllAppend(s1a, s1b, '>', "&gt;");
    var s3a, s3b := ReplaceAll(s2a, '<', "&lt;"), ReplaceAll(s2b, '<', "&lt;");
    ReplaceAllAppend(s2a, s2b, '<', "&lt;");
    var s4a, s4b := ReplaceAll(s3a, '"', "&quot;"), ReplaceAll(s3b, '"', "&quot;");
    ReplaceAllAppend(s3a, s3b, '"', "&quot;");
    ReplaceAllAppend(s4a, s4b, '\'', "&apos;");
  }

  /** On a single character the chain of passes produces that character's entity. */
  lemma EscapeTailAbsent(t: string)
    requires '>' !in t && '<' !in t && '"' !in t && '\'' !in t
    ensures ReplaceAll(ReplaceAll(ReplaceAll(ReplaceAll(t, '>', "&gt;"), '<', "&lt;"), '"', "&quot;"), '\'', "&apos;") == t
  {
    ReplaceAllAbsent(t, '>', "&gt;");
    ReplaceAllAbsent(t, '<', "&lt;");
    ReplaceAllAbsent(t, '"', "&quot;");
    ReplaceAllAbsent(t, '\'', "&apos;");
  }

  lemma EscapeChainAmp()
    ensures EscapeChain("&") == "&amp;"
  {
    ReplaceAllSingle('&', '&', "&amp;");
    EscapeTailAbsent("&amp;");
  }

  /** The passes after the angle-bracket pass leave a string without the characters they replace unchanged. */
  lemma QuotePassesAbsent(t: string)
    requires '<' !in t && '"' !in t && '\'' !in t
    ensures ReplaceAll(ReplaceAll(ReplaceAll(t, '<', "&lt;"), '"', "&quot;"), '\'', "&apos;") == t
  {
    ReplaceAllAbsent(t, '<', "&lt;");
    ReplaceAllAbsent(t, '"', "&quot;");
    ReplaceAllAbsent(t, '\'', "&apos;");
  }

  lemma EscapeChainGt()
    ensures EscapeChain(">") == "&gt;"
  {
    ReplaceAllSingle('>', '&', "&amp;");
    ReplaceAllSingle('>', '>', "&gt;");
    assert "&gt;" == ['&', 'g', 't', ';'];
    QuotePassesAbsent("&gt;");
  }

  lemma EscapeChainLt()
    ensures EscapeChain("<") == "&lt;"
  {
    ReplaceAllSingle('<', '&', "&amp;");
    ReplaceAllSingle('<', '>', "&gt;");
    ReplaceAllSingle('<', '<', "&lt;");
    QuotesAbsent("&lt;");
  }

  /** The two quote passes leave a string without quotes unchanged. */
  lemma QuotesAbsent(t: string)
    requires '"' !in t && '\'' !in t
    ensures ReplaceAll(ReplaceAll(t, '"', "&quot;"), '\'', "&apos;") == t
  {
    ReplaceAllAbsent(t, '"', "&quot;");
    ReplaceAllAbsent(t, '\'', "&apos;");
  }

  lemma EscapeChainQuot()
    ensures EscapeChain("\"") == "&quot;"
  {
    ReplaceAllSingle('"', '&', "&amp;");
    ReplaceAllSingle('"', '>', "&gt;");
    ReplaceAllSingle('"', '<', "&lt;");
    ReplaceAllSingle('"', '"', "&quot;");
    assert "&quot;" == ['&', 'q', 'u', 'o', 't', ';'];
    ReplaceAllAbsent("&quot;", '\'', "&apos;");
  }

  lemma EscapeChainApos()
    ensures EscapeChain("'") == "&apos;"
  {
    ReplaceAllSingle('\'', '&', "&amp;");
    ReplaceAllSingle('\'', '>', "&gt;");
    ReplaceAllSingle('\'', '<', "&lt;");
    ReplaceAllSingle('\'', '"', "&quot;");
    ReplaceAllSingle('\'', '\'', "&apos;");
  }

  lemma EscapeChainOther(ch: char)
    requires ch !in "&<>\"'"
    ensures EscapeChain([ch]) == [ch]
  {
    ReplaceAllSingle(ch, '&', "&amp;");
    ReplaceAllSingle(ch, '>', "&gt;");
    ReplaceAllSingle(ch, '<', "&lt;");
    ReplaceAllSingle(ch, '"', "&quot;");
    ReplaceAllSingle(ch, '\'', "&apos;");
  }

  /** On a single character the chain of passes produces that character's entity. */
  lemma EscapeChainChar(ch: char)
    ensures EscapeChain([ch]) == EscapeAttrChar(ch)
  {
    if ch == '&' {
      EscapeChainAmp();
    } else if ch == '>' {
      EscapeChainGt();
    } else if ch == '<' {
      EscapeChainLt();
    } else if ch == '"' {
      EscapeChainQuot();
    } else if ch == '\'' {
      EscapeChainApos();
    } else {
      EscapeChainOther(ch);
    }
  }

  /** The chained passes escape each character independently (no entity is escaped twice). */
  lemma {:induction false} EscapeChainIsCharwise(s: string)
    ensures EscapeChain(s) == EscapeAttrChars(s)
    decreases |s|
  {
    if s == [] {
    } else {
      assert s == [s[0]] + s[1..];
      EscapeChainAppend([s[0]], s[1..]);
      EscapeChainChar(s[0]);
      EscapeChainIsCharwise(s[1..]);
    }
  }

  /** Decoder of the five entities, used to state that escaping loses nothing. */
  function UnescapeAttr(s: string): string
    decreases |s|
  {
    if s == [] then ""
    else if |s| >= 5 && s[..5] == "&amp;" then "&" + UnescapeAttr(s[5..])
    else if |s| >= 4 && s[..4] == "&gt;" then ">" + UnescapeAttr(s[4..])
    else if |s| >= 4 && s[..4] == "&lt;" then "<" + UnescapeAttr(s[4..])
    else if |s| >= 6 && s[..6] == "&quot;" then "\"" + UnescapeAttr(s[6..])
    else if |s| >= 6 && s[..6] == "&apos;" then "'" + UnescapeAttr(s[6..])
    else [s[0]] + UnescapeAttr(s[1..])
  }

  lemma {:induction false} UnescapeEscapeChars(s: string)
    ensures UnescapeAttr(EscapeAttrChars(s)) == s
    decreases |s|
  {
    if s != [] {
      UnescapeEscapeChars(s[1..]);
      UnescapeOne(s[0], EscapeAttrChars(s[1..]));
      assert s == [s[0]] + s[1..];
    }
  }

  /** The decoder turns one escaped character back into that character and goes on with the rest. */
  lemma UnescapeOne(c: char, rest: string)
    ensures UnescapeAttr(EscapeAttrChar(c) + rest) == [c] + UnescapeAttr(rest)
  {
    var e := EscapeAttrChar(c);
    var t := e + rest;
    assert t[|e|..] == rest;
    if c == '&' {
      assert t[..5] == "&amp;";
    } else if c == '>' {
      UnescapeGtLt(t, rest, 'g', ">");
    } else if c == '<' {
      UnescapeGtLt(t, rest, 'l', "<");
    } else if c == '"' {
      UnescapeQuote(t, rest, 'q', "\"");
    } else if c == '\'' {
      UnescapeQuote(t, rest, 'a', "'");
    } else {
      UnescapePlain(c, rest);
    }
  }

  lemma UnescapeGtLt(t: string, rest: string, k: char, d: string)
    requires k == 'g' || k == 'l'
    requires d == if k == 'g' then ">" else "<"
    requires t == ['&', k, 't', ';'] + rest
    ensures UnescapeAttr(t) == d + UnescapeAttr(rest)
  {
    assert t[4..] == rest;
    assert |t| >= 5 ==> t[..5][1] == k;
    assert t[..4][1] == k;
  }

  lemma UnescapeQuote(t: string, rest: string, k: char, d: string)
    requires k == 'q' || k == 'a'
    requires d == if k == 'q' then "\"" else "'"
    requires t == (if k == 'q' then "&quot;" else "&apos;") + rest
    ensures UnescapeAttr(t) == d + UnescapeAttr(rest)
  {
    assert t[6..] == rest;
    assert t[..5][2] == (if k == 'q' then 'u' else 'p') && t[..4][1] == k;
    assert t[..6] == if k == 'q' then "&quot;" else "&apos;";
  }

  lemma UnescapePlain(c: char, rest: string)
    requires c !in "&<>\"'"
    ensures UnescapeAttr([c] + rest) == [c] + UnescapeAttr(rest)
  {
    var t := [c] + rest;
    assert t[0] == c && t[1..] == rest;
    assert |t| >= 4 ==> t[..4][0] == c;
    assert |t| >= 5 ==> t[..5][0] == c;
    assert |t| >= 6 ==> t[..6][0] == c;
  }

  /** Escaping an attribute value is lossless: the decoder recovers the value. */
  lemma EscapeAttrRoundTrip(s: string)
    ensures UnescapeAttr(EscapeAttr(Some(s))) == s
  {
    EscapeChainIsCharwise(s);
    UnescapeEscapeChars(s);
  }

  lemma {:induction false} EscapeAttrCharsSafe(s: string)
    ensures '<' !in EscapeAttrChars(s) && '>' !in EscapeAttrChars(s)
    ensures '"' !in EscapeAttrChars(s) && '\'' !in EscapeAttrChars(s)
    decreases |s|
  {
    if s != [] {
      EscapeAttrCharsSafe(s[1..]);
      EscapeAttrCharSafe(s[0]);
      assert EscapeAttrChars(s) == EscapeAttrChar(s[0]) + EscapeAttrChars(s[1..]);
    }
  }

  lemma EscapeAttrCharSafe(ch: char)
    ensures '<' !in EscapeAttrChar(ch) && '>' !in EscapeAttrChar(ch)
    ensures '"' !in EscapeAttrChar(ch) && '\'' !in EscapeAttrChar(ch)
  {
    if ch == '&' {
      assert EscapeAttrChar(ch) == ['&', 'a', 'm', 'p', ';'];
    } else if ch == '>' {
      assert EscapeAttrChar(ch) == ['&', 'g', 't', ';'];
    } else if ch == '<' {
      assert EscapeAttrChar(ch) == ['&', 'l', 't', ';'];
    } else if ch == '"' {
      assert EscapeAttrChar(ch) == ['&', 'q', 'u', 'o', 't', ';'];
    } else if ch == '\'' {
      assert EscapeAttrChar(ch) == ['&', 'a', 'p', 'o', 's', ';'];
    }
  }

  /** An escaped value never contains a raw angle bracket or quote, so it cannot end its attribute. */
  lemma EscapeAttrSafe(value: Option<string>)
    ensures '<' !in EscapeAttr(value) && '>' !in EscapeAttr(value)
    ensures '"' !in EscapeAttr(value) && '\'' !in EscapeAttr(value)
  {
    if value.Some? {
      EscapeChainIsCharwise(value.value);
      EscapeAttrCharsSafe(value.value);
    }
  }

  // ---------------------------------------------------------------------
  // Hyperlink field command

  const CommandSuffix := ";1;5;-1;"

  /** The hyperlink field's Command parameter: colons and question marks backslash-escaped, then the fixed suffix. */
  function LinkCommand(url: string): string
  {
    ReplaceAll(ReplaceAll(url, ':', "\\:"), '?', "\\?") + CommandSuffix
  }

  function CommandEscapeChar(ch: char): string
  {
    if ch == ':' then "\\:" else if ch == '?' then "\\?" else [ch]
  }

  function CommandEscapeChars(s: string): (r: string)
    ensures r == [] || (r[0] != ':' && r[0] != '?')
    decreases |s|
  {
    if s == [] then "" else CommandEscapeChar(s[0]) + CommandEscapeChars(s[1..])
  }

  lemma {:induction false} CommandEscapeIsCharwise(s: string)
    ensures ReplaceAll(ReplaceAll(s, ':', "\\:"), '?', "\\?") == CommandEscapeChars(s)
    decreases |s|
  {
    if s != [] {
      var h := ReplaceAll([s[0]], ':', "\\:");
      assert s == [s[0]] + s[1..];
      ReplaceAllAppend([s[0]], s[1..], ':', "\\:");
      ReplaceAllAppend(h, ReplaceAll(s[1..], ':', "\\:"), '?', "\\?");
      if s[0] == ':' {
        assert h == "\\:";
        ReplaceAllAbsent(h, '?', "\\?");
      } else {
        assert h == [s[0]];
      }
      CommandEscapeIsCharwise(s[1..]);
    }
  }

  /** Reads back the URL from an escaped command prefix. */
  function CommandUnescape(s: string): string
    decreases |s|
  {
    if s == [] then ""
    else if |s| >= 2 && s[0] == '\\' && (s[1] == ':' || s[1] == '?') then [s[1]] + CommandUnescape(s[2..])
    else [s[0]] + CommandUnescape(s[1..])
  }

  lemma {:induction false} CommandUnescapeEscape(s: string)
    ensures CommandUnescape(CommandEscapeChars(s)) == s
    decreases |s|
  {
    if s != [] {
      var e, rest := CommandEscapeChar(s[0]), CommandEscapeChars(s[1..]);
      var t := e + rest;
      assert CommandEscapeChars(s) == t;
      CommandUnescapeEscape(s[1..]);
      if s[0] == ':' || s[0] == '?' {
        assert t[0] == '\\' && t[1] == s[0] && t[2..] == rest;
      } else {
        assert t[0] == s[0] && t[1..] == rest;
        if s[0] == '\\' && |t| >= 2 {
          assert t[1] == rest[0];
        }
      }
    }
  }

  /** Parses a Command parameter back into its URL; None when the fixed suffix is missing. */
  function ParseLinkCommand(cmd: string): Option<string>
  {
    if |cmd| >= |CommandSuffix| && cmd[|cmd| - |CommandSuffix|..] == CommandSuffix
    then Some(CommandUnescape(cmd[..|cmd| - |CommandSuffix|]))
    else None
  }

  /** The command carries the link target without loss. */
  lemma LinkCommandRoundTrip(url: string)
    ensures ParseLinkCommand(LinkCommand(url)) == Some(url)
  {
    CommandEscapeIsCharwise(url);
    CommandUnescapeEscape(url);
    var p := CommandEscapeChars(url);
    var cmd := p + CommandSuffix;
    assert LinkCommand(url) == cmd;
    assert cmd[|cmd| - |CommandSuffix|..] == CommandSuffix;
    assert cmd[..|cmd| - |CommandSuffix|] == p;
  }

  /** Distinct targets give distinct commands. */
  lemma LinkCommandInjective(u1: string, u2: string)
    requires LinkCommand(u1) == LinkCommand(u2)
    ensures u1 == u2
  {
    LinkCommandRoundTrip(u1);
    LinkCommandRoundTrip(u2);
  }

  // ---------------------------------------------------------------------
  // Image extension

  function AsciiLowerChar(ch: char): char
  {
    if 'A' <= ch <= 'Z' then (ch as int + 32) as char else ch
  }

  function AsciiLower(s: string): (r: string)
    ensures |r| == |s|
    ensures forall k :: 0 <= k < |s| ==> r[k] == AsciiLowerChar(s[k])
  {
    seq(|s|, k requires 0 <= k < |s| => AsciiLowerChar(s[k]))
  }

  function AsciiUpperChar(ch: char): char
  {
    if 'a' <= ch <= 'z' then (ch as int - 32) as char else ch
  }

  function AsciiUpper(s: string): (r: string)
    ensures |r| == |s|
    ensures forall k :: 0 <= k < |s| ==> r[k] == AsciiUpperChar(s[k])
  {
    seq(|s|, k requires 0 <= k < |s| => AsciiUpperChar(s[k]))
  }

  predicate EndsWith(s: string, suffix: string)
  {
    |suffix| <= |s| && s[|s| - |suffix|..] == suffix
  }

  /** The extension recorded for an embedded image, chosen from the lower-cased target. */
  function ImageExt(url: string): (r: string)
    ensures r in ["jpg", "gif", "bmp", "png"]
    ensures r == "png" <==> !(EndsWith(AsciiLower(url), ".jpg") || EndsWith(AsciiLower(url), ".jpeg")
                              || EndsWith(AsciiLower(url), ".gif") || EndsWith(AsciiLower(url), ".bmp"))
  {
    var lower := AsciiLower(url);
    if EndsWith(lower, ".jpg") || EndsWith(lower, ".jpeg") then "jpg"
    else if EndsWith(lower, ".gif") then "gif"
    else if EndsWith(lower, ".bmp") then "bmp"
    else "png"
  }

  /** The extension rule ignores letter case. */
  lemma ImageExtCaseInsensitive(url: string)
    ensures ImageExt(AsciiLower(url)) == ImageExt(url)
  {
    assert AsciiLower(AsciiLower(url)) == AsciiLower(url);
  }

  /** A target whose lower-cased suffix is a known image suffix gets that suffix's extension. */
  lemma ImageExtBySuffix(stem: string, suffix: string)
    ensures AsciiLower(suffix) in [".jpg", ".jpeg"] ==> ImageExt(stem + suffix) == "jpg"
    ensures AsciiLower(suffix) == ".gif" ==> ImageExt(stem + suffix) == "gif"
    ensures AsciiLower(suffix) == ".bmp" ==> ImageExt(stem + suffix) == "bmp"
  {
    var lower, ls := AsciiLower(stem + suffix), AsciiLower(suffix);
    assert lower[|lower| - |suffix|..] == ls;
    if |suffix| > 0 {
      EndsWithLast(lower, ls);
      if EndsWith(lower, ".jpg") { EndsWithLast(lower, ".jpg"); }
      if EndsWith(lower, ".jpeg") { EndsWithLast(lower, ".jpeg"); }
      if EndsWith(lower, ".gif") { EndsWithLast(lower, ".gif"); }
    }
  }

  lemma EndsWithLast(s: string, t: string)
    requires EndsWith(s, t) && |t| > 0
    ensures s[|s| - 1] == t[|t| - 1]
  {
    assert s[|s| - |t|..][|t| - 1] == s[|s| - 1];
  }

  // ---------------------------------------------------------------------
  // Decimal rendering

  function DigitChar(d: nat): char
    requires d < 10
  {
    "0123456789"[d]
  }

  function NatToDecimal(n: nat): (r: string)
    ensures |r| >= 1
    ensures forall k :: 0 <= k < |r| ==> '0' <= r[k] <= '9'
    decreases n
  {
    if n < 10 then [DigitChar(n)] else NatToDecimal(n / 10) + [DigitChar(n % 10)]
  }

  /** The number a string of decimal digits denotes, most significant digit first. */
  function DecimalValue(s: string): nat
    requires forall k :: 0 <= k < |s| ==> '0' <= s[k] <= '9'
  {
    if s == [] then 0 else DecimalValue(s[..|s| - 1]) * 10 + (s[|s| - 1] as int - '0' as int)
  }

  /** The decimal rendering reads back as the number rendered. */
  lemma {:induction false} NatToDecimalValue(n: nat)
    ensures DecimalValue(NatToDecimal(n)) == n
    decreases n
  {
    var r := NatToDecimal(n);
    if n >= 10 {
      NatToDecimalValue(n / 10);
      assert r[..|r| - 1] == NatToDecimal(n / 10);
    }
  }

  /** Decimal rendering of an integer, with a leading minus sign when negative. */
  function IntToDecimal(i: int): string
  {
    if i < 0 then "-" + NatToDecimal(-i) else NatToDecimal(i)
  }

  // ---------------------------------------------------------------------
  // Page-setup injection

  const RunTagOpen := "<hp:run "

  /** Does `pat` occur in `s` at position `k`? */
  predicate OccursAt(s: string, pat: string, k: nat)
  {
    k + |pat| <= |s| && s[k..k + |pat|] == pat
  }

  /** The first position at or after `from` where `pat` occurs in `s`. */
  function IndexOf(s: string, pat: string, from: nat): (r: Option<nat>)
    requires from <= |s|
    ensures r.Some? ==> from <= r.value && OccursAt(s, pat, r.value)
    ensures r.Some? ==> forall k: nat :: from <= k < r.value ==> !OccursAt(s, pat, k)
    ensures r.None? ==> forall k: nat :: from <= k ==> !OccursAt(s, pat, k)
    decreases |s| - from
  {
    if from + |pat| > |s| then None
    else if s[from..from + |pat|] == pat then Some(from)
    else IndexOf(s, pat, from + 1)
  }

  /** The first position at or after `from` holding character `ch`. */
  function IndexOfChar(s: string, ch: char, from: nat): (r: Option<nat>)
    requires from <= |s|
    ensures r.Some? ==> from <= r.value < |s| && s[r.value] == ch
    ensures r.Some? ==> ch !in s[from..r.value]
    ensures r.None? ==> ch !in s[from..]
    decreases |s| - from
  {
    if from == |s| then None
    else if s[from] == ch then Some(from)
    else IndexOfChar(s, ch, from + 1)
  }

  /**
    End of the leftmost match of an opening run tag (`<hp:run ` followed by
    any characters other than `>` and then `>`), or None when there is none.
   */
  function RunTagEnd(s: string): Option<nat>
  {
    match IndexOf(s, RunTagOpen, 0)
    case None => None
    case Some(i) =>
      match IndexOfChar(s, '>', i + |RunTagOpen|)
      case None => None
      case Some(j) => Some(j + 1)
  }

  /** Does a complete opening run tag occupy `s[i..e]`? */
  predicate RunTagAt(s: string, i: nat, e: nat)
  {
    i + |RunTagOpen| < e <= |s| && OccursAt(s, RunTagOpen, i)
    && s[e - 1] == '>' && '>' !in s[i + |RunTagOpen|..e - 1]
  }

  /** RunTagEnd finds the leftmost complete opening run tag, and there is one exactly when it finds one. */
  lemma RunTagEndIsLeftmost(s: string)
    ensures RunTagEnd(s).Some? ==> exists i: nat :: RunTagAt(s, i, RunTagEnd(s).value)
    ensures forall i: nat, e: nat :: RunTagAt(s, i, e) ==>
      && RunTagEnd(s).Some? && IndexOf(s, RunTagOpen, 0).Some?
      && IndexOf(s, RunTagOpen, 0).value <= i
      && (IndexOf(s, RunTagOpen, 0).value == i ==> e == RunTagEnd(s).value)
  {
    var n := |RunTagOpen|;
    match IndexOf(s, RunTagOpen, 0) {
      case None =>
      case Some(i0) =>
        match IndexOfChar(s, '>', i0 + n) {
          case None =>
          case Some(j) =>
            assert RunTagAt(s, i0, j + 1) by {
              assert s[i0 + n..j + 1 - 1] == s[i0 + n..j];
            }
        }
    }
    forall i: nat, e: nat | RunTagAt(s, i, e)
      ensures RunTagEnd(s).Some? && IndexOf(s, RunTagOpen, 0).Some?
      ensures IndexOf(s, RunTagOpen, 0).value <= i
      ensures IndexOf(s, RunTagOpen, 0).value == i ==> e == RunTagEnd(s).value
    {
      RunTagNotBeforeFirst(s, i, e);
    }
  }

  /** A complete tag starts no earlier than the first tag name, and a tag starting there ends where RunTagEnd says. */
  lemma RunTagNotBeforeFirst(s: string, i: nat, e: nat)
    requires RunTagAt(s, i, e)
    ensures RunTagEnd(s).Some? && IndexOf(s, RunTagOpen, 0).Some?
    ensures IndexOf(s, RunTagOpen, 0).value <= i
    ensures IndexOf(s, RunTagOpen, 0).value == i ==> e == RunTagEnd(s).value
  {
    assert OccursAt(s, RunTagOpen, i);
    var i0 := IndexOf(s, RunTagOpen, 0).value;
    RunTagCloseFound(s, i0 + |RunTagOpen|, i, e);
  }

  /** The scan for '>' from the end of a tag's name, or any earlier point, stops no later than the tag's own '>'. */
  lemma RunTagCloseFound(s: string, from: nat, i: nat, e: nat)
    requires RunTagAt(s, i, e) && from <= i + |RunTagOpen|
    ensures IndexOfChar(s, '>', from).Some? && IndexOfChar(s, '>', from).value <= e - 1
    ensures from == i + |RunTagOpen| ==> IndexOfChar(s, '>', from) == Some(e - 1)
  {
    var r := IndexOfChar(s, '>', from);
    InSlice(s, from, |s|, e - 1);
    InSlice(s, from, r.value, e - 1);
    InSlice(s, from, e - 1, r.value);
  }

  lemma InSlice(s: string, lo: nat, hi: nat, k: nat)
    ensures lo <= k < hi <= |s| ==> s[k] in s[lo..hi]
  {
    if lo <= k < hi <= |s| {
      assert s[lo..hi][k - lo] == s[k];
    }
  }

  /**
    Injection of the page-setup markup right after the first opening run tag
    of the body. A missing or empty setup, or a body without a run tag,
    leaves the body unchanged.
   */
  function InjectPageSetup(body: string, setup: Option<string>): (r: string)
    ensures setup.None? || setup == Some("") || RunTagEnd(body).None? ==> r == body
    ensures setup.Some? && setup.value != "" && RunTagEnd(body).Some? ==>
      var e, v := RunTagEnd(body).value, setup.value;
      e <= |body| && r == body[..e] + v + body[e..]
  {
    if setup.None? || setup.value == "" then body
    else
      match RunTagEnd(body)
      case None => body
      case Some(e) => body[..e] + setup.value + body[e..]
  }

  /** Cutting the injected markup back out gives the original body. */
  lemma InjectPageSetupRemovable(body: string, setup: string)
    requires setup != "" && RunTagEnd(body).Some?
    ensures var e, r := RunTagEnd(body).value, InjectPageSetup(body, Some(setup));
      r[..e] + r[e + |setup|..] == body && r[e..e + |setup|] == setup
  {
    var e, r := RunTagEnd(body).value, InjectPageSetup(body, Some(setup));
    assert r == body[..e] + setup + body[e..];
    assert r[..e] == body[..e];
    assert r[e + |setup|..] == body[e..];
    assert r[e..e + |setup|] == setup;
    assert body[..e] + body[e..] == body;
  }
}
