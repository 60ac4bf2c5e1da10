/** Python's `repr()` of a string and `str()` of a list of strings, with
    decoders proving that neither loses information. */
module PyRepr {
  import opened Wrappers
  import opened Text
  import opened Seqs

  function HexDigit(d: nat): char
    requires d < 16
  {
    if d < 10 then (48 + d) as char else (87 + d) as char
  }

  function HexValue(c: char): Option<nat>
  {
    if '0' <= c <= '9' then Some(c as int - 48)
    else if 'a' <= c <= 'f' then Some(c as int - 87)
    else None
  }

  lemma HexRoundTrip(d: nat)
    requires d < 16
    ensures HexValue(HexDigit(d)) == Some(d)
  {
  }

  /** The quote `repr` picks: double quotes only when the text holds a single quote and no double quote. */
  function QuoteFor(s: string): char
  {
    if '\'' in s && '"' !in s then '"' else '\''
  }

  predicate IsQuote(q: char)
  {
    q == '\'' || q == '"'
  }

  /** How `repr` writes one character inside quotes `q` (ASCII rules). */
  function EscapeChar(c: char, q: char): string
  {
    if c == q || c == '\\' then ['\\', c]
    else if c == '\t' then "\\t"
    else if c == '\n' then "\\n"
    else if c == '\r' then "\\r"
    else if c < ' ' || c == '\U{7F}' then ['\\', 'x', HexDigit(c as int / 16), HexDigit(c as int % 16)]
    else [c]
  }

  function Escape(s: string, q: char): string
  {
    if |s| == 0 then "" else EscapeChar(s[0], q) + Escape(s[1..], q)
  }

  /** `repr(s)` */
  function ReprStr(s: string): (r: string)
    ensures |r| >= 2 && IsQuote(r[0])
  {
    var q := QuoteFor(s);
    [q] + Escape(s, q) + [q]
  }

  /** Reads one escape sequence after a backslash: the character and how many characters it took. */
  function ReadEscape(t: string): Option<(char, nat)>
  {
    if |t| == 0 then None
    else if t[0] == 't' then Some(('\t', 1))
    else if t[0] == 'n' then Some(('\n', 1))
    else if t[0] == 'r' then Some(('\r', 1))
    else if t[0] == 'x' then
      if |t| < 3 then None
      else match (HexValue(t[1]), HexValue(t[2]))
        case (Some(h), Some(l)) => Some(((16 * h + l) as char, 3))
        case _ => None
    else Some((t[0], 1))
  }

  /** Reads the inside of a literal quoted by `q` up to its closing quote: the text and what follows. */
  function Unescape(t: string, q: char): Option<(string, string)>
    decreases |t|
  {
    if |t| == 0 then None
    else if t[0] == q then Some(("", t[1..]))
    else if t[0] == '\\' then
      match ReadEscape(t[1..])
      case None => None
      case Some((c, n)) =>
        if n > |t| - 1 then None
        else match Unescape(t[1 + n..], q)
          case None => None
          case Some((s, rest)) => Some(([c] + s, rest))
    else
      match Unescape(t[1..], q)
      case None => None
      case Some((s, rest)) => Some(([t[0]] + s, rest))
  }

  /** Reads one string literal as `repr` writes it. */
  function DecodeRepr(t: string): Option<(string, string)>
  {
    if |t| > 0 && IsQuote(t[0]) then Unescape(t[1..], t[0]) else None
  }

  lemma EscapeCharDecodes(c: char, q: char, rest: string)
    requires IsQuote(q)
    ensures var e := EscapeChar(c, q);
      && |e| > 0 && e[0] != q
      && (e[0] == '\\' ==> |e| >= 2 && ReadEscape(e[1..] + rest) == Some((c, |e| - 1)))
      && (e[0] != '\\' ==> e == [c])
  {
    var e := EscapeChar(c, q);
    if c < ' ' || c == '\U{7F}' {
      if c != '\t' && c != '\n' && c != '\r' {
        var h, l := c as int / 16, c as int % 16;
        HexRoundTrip(h);
        HexRoundTrip(l);
        assert (e[1..] + rest)[1] == HexDigit(h);
        assert (e[1..] + rest)[2] == HexDigit(l);
        assert (16 * h + l) as char == c;
      }
    }
  }

  /** Decoding one escaped character in front of already-decodable text. */
  lemma UnescapeStep(c: char, q: char, tail: string, s: string, rest: string)
    requires IsQuote(q)
    requires Unescape(tail, q) == Some((s, rest))
    ensures Unescape(EscapeChar(c, q) + tail, q) == Some(([c] + s, rest))
  {
    var e := EscapeChar(c, q);
    var t := e + tail;
    EscapeCharDecodes(c, q, tail);
    if e[0] == '\\' {
      assert t[1..] == e[1..] + tail;
      assert t[1 + (|e| - 1)..] == tail;
    } else {
      assert t[1..] == tail;
    }
  }

  lemma {:induction false} UnescapeEscape(s: string, q: char, rest: string)
    requires IsQuote(q)
    ensures Unescape(Escape(s, q) + [q] + rest, q) == Some((s, rest))
  {
    if |s| == 0 {
      assert Escape(s, q) + [q] + rest == [q] + rest;
    } else {
      var tail := Escape(s[1..], q) + [q] + rest;
      assert Escape(s, q) + [q] + rest == EscapeChar(s[0], q) + tail;
      UnescapeEscape(s[1..], q, rest);
      UnescapeStep(s[0], q, tail, s[1..], rest);
      assert [s[0]] + s[1..] == s;
    }
  }

  /** `repr` is decodable: the literal reads back as the original text, leaving what followed it. */
  lemma ReprRoundTrip(s: string, rest: string)
    ensures DecodeRepr(ReprStr(s) + rest) == Some((s, rest))
  {
    var q := QuoteFor(s);
    assert ReprStr(s) + rest == [q] + (Escape(s, q) + [q] + rest);
    UnescapeEscape(s, q, rest);
  }

  // --------------------------------------------------------- lists of strings

  /** `", ".join(repr(c) for c in row)` */
  function ReprItems(row: seq<string>): string
  {
    if |row| == 0 then ""
    else if |row| == 1 then ReprStr(row[0])
    else ReprStr(row[0]) + ", " + ReprItems(row[1..])
  }

  /** `str(row)` for a list of strings. */
  function RowRepr(row: seq<string>): (r: string)
    ensures |r| >= 2 && r[0] == '['
  {
    "[" + ReprItems(row) + "]"
  }

  /** Reads `repr, repr, ... ]`, the items of a non-empty list and what follows the bracket. */
  function DecodeItems(t: string): Option<(seq<string>, string)>
    decreases |t|
  {
    match DecodeRepr(t)
    case None => None
    case Some((x, after)) =>
      if |after| < |t| then
        if |after| >= 1 && after[0] == ']' then Some(([x], after[1..]))
        else if |after| >= 2 && after[..2] == ", " then
          match DecodeItems(after[2..])
          case None => None
          case Some((xs, rest)) => Some(([x] + xs, rest))
        else None
      else None
  }

  /** Reads one `str()` of a list of strings. */
  function DecodeRow(t: string): Option<(seq<string>, string)>
  {
    if |t| >= 2 && t[..2] == "[]" then Some(([], t[2..]))
    else if |t| >= 1 && t[0] == '[' then DecodeItems(t[1..])
    else None
  }

  lemma UnescapeShrinks(t: string, q: char)
    ensures Unescape(t, q).Some? ==> |Unescape(t, q).value.1| < |t|
    decreases |t|
  {
  }

  lemma {:induction false} DecodeItemsRoundTrip(row: seq<string>, rest: string)
    requires |row| > 0
    ensures DecodeItems(ReprItems(row) + "]" + rest) == Some((row, rest))
  {
    if |row| == 1 {
      OneItemRoundTrip(row, rest);
    } else {
      DecodeItemsRoundTrip(row[1..], rest);
      DecodeItemsStep(row, rest);
    }
  }

  lemma OneItemRoundTrip(row: seq<string>, rest: string)
    requires |row| == 1
    ensures DecodeItems(ReprItems(row) + "]" + rest) == Some((row, rest))
  {
    var t := ReprItems(row) + "]" + rest;
    assert t == ReprStr(row[0]) + ("]" + rest);
    ReprRoundTrip(row[0], "]" + rest);
    assert DecodeRepr(t) == Some((row[0], "]" + rest));
    assert ("]" + rest)[1..] == rest;
    assert row == [row[0]];
  }

  /** The first item reads back in front of whatever the other items read back as. */
  lemma DecodeItemsStep(row: seq<string>, rest: string)
    requires |row| > 1
    requires DecodeItems(ReprItems(row[1..]) + "]" + rest) == Some((row[1..], rest))
    ensures DecodeItems(ReprItems(row) + "]" + rest) == Some((row, rest))
  {
    var t := ReprItems(row) + "]" + rest;
    var more := ReprItems(row[1..]) + "]" + rest;
    Regroup5(ReprStr(row[0]), ", ", ReprItems(row[1..]), "]", rest);
    assert t == ReprStr(row[0]) + (", " + more);
    ReprRoundTrip(row[0], ", " + more);
    assert (", " + more)[2..] == more;
    assert [row[0]] + row[1..] == row;
  }

  /** `str()` of a list of strings is decodable: the text reads back as the same list. */
  lemma RowRoundTrip(row: seq<string>, rest: string)
    ensures DecodeRow(RowRepr(row) + rest) == Some((row, rest))
  {
    var t := RowRepr(row) + rest;
    if |row| == 0 {
      assert t[..2] == "[]";
    } else {
      assert t[1..] == ReprItems(row) + "]" + rest;
      var r0 := ReprStr(row[0]);
      assert ReprItems(row)[0] == r0[0];
      assert t[1] == r0[0];
      assert t[..2] != "[]";
      DecodeItemsRoundTrip(row, rest);
    }
  }

  lemma {:induction false} DecodeItemsShrinks(t: string)
    ensures DecodeItems(t).Some? ==> |DecodeItems(t).value.1| < |t|
    decreases |t|
  {
    match DecodeRepr(t)
    case None =>
    case Some((x, after)) =>
      if |after| < |t| && |after| >= 2 && after[..2] == ", " && !(|after| >= 1 && after[0] == ']') {
        DecodeItemsShrinks(after[2..]);
      }
  }

  /** Reading a list consumes at least one character, so list readers can be chained. */
  lemma DecodeRowShrinks(t: string)
    ensures DecodeRow(t).Some? ==> |DecodeRow(t).value.1| < |t|
  {
    if |t| >= 1 && t[0] == '[' && !(|t| >= 2 && t[..2] == "[]") {
      DecodeItemsShrinks(t[1..]);
    }
  }
}
