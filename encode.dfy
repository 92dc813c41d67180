/**
 * `json.dumps` for the values of `JsonValue`, in the variants the tools use, and the
 * canonical byte form every hash is computed over:
 *
 *   json.dumps(o, sort_keys=True, separators=(",", ":"), ensure_ascii=False).encode("utf-8")
 *
 * String escaping follows section 7 of RFC 8259 the way Python writes it: `"` and `\`
 * are escaped, as are all characters below U+0020 (with the short forms \b \f \n \r \t);
 * with `ensure_ascii=True` everything outside U+0020..U+007E is written as \uXXXX, using
 * a surrogate pair above U+FFFF. Hex digits are lower case.
 */
module JsonText {
  import opened Basics
  import opened JsonValue
  import Text
  import Sorting

  /** `separators=(",", ":")` with no indentation, or `indent=2` with Python's `(",", ": ")`. */
  datatype Layout = Minimal | Indented

  datatype Style = Style(sortKeys: bool, layout: Layout, ensureAscii: bool)

  /** `sort_keys=True, separators=(",", ":"), ensure_ascii=False`: the form every content hash is taken over. */
  const CANONICAL := Style(true, Minimal, false)
  /** `json.dump(o, f, indent=2, ensure_ascii=False)`, the layout of the files the tools write. */
  const FILE_LAYOUT := Style(false, Indented, false)
  /** `json.dump(o, f, indent=2)` with the default `ensure_ascii=True`. */
  const ASCII_FILE_LAYOUT := Style(false, Indented, true)
  /** `json.dumps(o, sort_keys=True, indent=2, ensure_ascii=False)`. */
  const SORTED_PRETTY := Style(true, Indented, false)

  // ---------------------------------------------------------------- strings

  predicate IsHexDigit(c: char)
  {
    Text.IsDigit(c) || ('a' <= c <= 'f')
  }

  /** The value of a lower-case hexadecimal digit. */
  function HexDigitValue(c: char): nat
  {
    if Text.IsDigit(c) then c as int - '0' as int
    else if 'a' <= c <= 'f' then c as int - 'a' as int + 10
    else 0
  }

  /** The value of a string of hexadecimal digits, most significant first. */
  function HexValue(s: string): nat
  {
    if |s| == 0 then 0 else HexValue(s[..|s| - 1]) * 16 + HexDigitValue(s[|s| - 1])
  }

  function HexDigit(n: nat): (c: char)
    requires n < 16
    ensures IsHexDigit(c) && HexDigitValue(c) == n
  {
    if n < 10 then Text.DigitChar(n) else ('a' as int + (n - 10)) as char
  }

  /** `'{0:04x}'.format(n)`: four lower-case hex digits whose value is `n`. */
  function Hex4(n: nat): (r: string)
    requires n < 0x10000
    ensures |r| == 4 && forall i :: 0 <= i < 4 ==> IsHexDigit(r[i])
    ensures HexValue(r) == n
  {
    var r := [HexDigit(n / 0x1000), HexDigit(n / 0x100 % 16), HexDigit(n / 16 % 16), HexDigit(n % 16)];
    assert HexValue(r) == n by {
      var q1 := n / 16;
      var q2 := q1 / 16;
      var q3 := q2 / 16;
      assert n / 0x100 == q2 && n / 0x1000 == q3;
      var r1, r2, r3 := r[..1], r[..2], r[..3];
      assert r1[..0] == [] && r2[..1] == r1 && r3[..2] == r2 && r[..3] == r3;
      assert HexValue(r1) == q3;
      assert HexValue(r2) == q3 * 16 + q2 % 16 == q2;
      assert HexValue(r3) == q2 * 16 + q1 % 16 == q1;
      assert HexValue(r) == q1 * 16 + n % 16 == n;
    }
    r
  }

  /** Printable ASCII, the characters `ensure_ascii=True` leaves alone (apart from `"` and `\`). */
  predicate IsPrintableAscii(c: char)
  {
    ' ' <= c <= '~'
  }

  /** How Python's encoder writes one character of a string. */
  function EscapeChar(c: char, ensureAscii: bool): (r: string)
    ensures |r| >= 1
    ensures forall i :: 0 <= i < |r| ==> r[i] >= ' '
    ensures ensureAscii ==> forall i :: 0 <= i < |r| ==> IsPrintableAscii(r[i])
    ensures IsPlain(c, ensureAscii) ==> r == [c]
  {
    if c == '"' then "\\\""
    else if c == '\\' then "\\\\"
    else if c == '\n' then "\\n"
    else if c == '\r' then "\\r"
    else if c == '\t' then "\\t"
    else if c == '\U{8}' then "\\b"
    else if c == '\U{C}' then "\\f"
    else if c < ' ' then "\\u" + Hex4(c as int)
    else if !ensureAscii || IsPrintableAscii(c) then [c]
    else if c as int < 0x10000 then "\\u" + Hex4(c as int)
    else
      var n := c as int - 0x10000;
      "\\u" + Hex4(0xD800 + n / 0x400) + "\\u" + Hex4(0xDC00 + n % 0x400)
  }

  /** A character the encoder writes as itself. */
  predicate IsPlain(c: char, ensureAscii: bool)
  {
    c != '"' && c != '\\' && c >= ' ' && (ensureAscii ==> IsPrintableAscii(c))
  }

  /** The escaped text of a string: each character written as `EscapeChar` says, in order. */
  function EscapeString(s: string, ensureAscii: bool): (r: string)
    ensures |r| >= |s|
    ensures forall i :: 0 <= i < |r| ==> r[i] >= ' '
    ensures ensureAscii ==> forall i :: 0 <= i < |r| ==> IsPrintableAscii(r[i])
    ensures (forall i :: 0 <= i < |s| ==> IsPlain(s[i], ensureAscii)) ==> r == s
  {
    if |s| == 0 then "" else
      var t := EscapeString(s[1..], ensureAscii);
      assert (forall i :: 0 <= i < |s| ==> IsPlain(s[i], ensureAscii)) ==> t == s[1..] by {
        if forall i :: 0 <= i < |s| ==> IsPlain(s[i], ensureAscii) {
          assert forall i :: 0 <= i < |s[1..]| ==> s[1..][i] == s[i + 1];
        }
      }
      assert (forall i :: 0 <= i < |s| ==> IsPlain(s[i], ensureAscii)) ==> [s[0]] + s[1..] == s;
      EscapeChar(s[0], ensureAscii) + t
  }

  /** Escaping works piece by piece: the escaped text of `s + t` is that of `s` followed by that of `t`. */
  lemma {:induction false} EscapeStringConcat(s: string, t: string, ensureAscii: bool)
    ensures EscapeString(s + t, ensureAscii) == EscapeString(s, ensureAscii) + EscapeString(t, ensureAscii)
    decreases |s|
  {
    if |s| > 0 {
      assert (s + t)[0] == s[0] && (s + t)[1..] == s[1..] + t;
      EscapeStringConcat(s[1..], t, ensureAscii);
      calc {
        EscapeString(s + t, ensureAscii);
        EscapeChar(s[0], ensureAscii) + EscapeString(s[1..] + t, ensureAscii);
        EscapeChar(s[0], ensureAscii) + (EscapeString(s[1..], ensureAscii) + EscapeString(t, ensureAscii));
        (EscapeChar(s[0], ensureAscii) + EscapeString(s[1..], ensureAscii)) + EscapeString(t, ensureAscii);
      }
    } else {
      assert s + t == t;
    }
  }

  /** The escaped text of a single character is what `EscapeChar` writes. */
  lemma EscapeStringChar(c: char, ensureAscii: bool)
    ensures EscapeString([c], ensureAscii) == EscapeChar(c, ensureAscii)
  {
    assert [c][1..] == [];
  }

  /** A JSON string literal: the escaped text between double quotes; a plain string is quoted as it is. */
  function Quote(s: string, ensureAscii: bool): (r: string)
    ensures |r| >= 2 && r[0] == '"' && r[|r| - 1] == '"'
    ensures r[1..|r| - 1] == EscapeString(s, ensureAscii)
    ensures (forall i :: 0 <= i < |s| ==> IsPlain(s[i], ensureAscii)) ==> r == "\"" + s + "\""
  {
    var e := EscapeString(s, ensureAscii);
    assert ("\"" + e + "\"")[1..|e| + 1] == e;
    "\"" + e + "\""
  }

  // ---------------------------------------------------------------- documents

  /** A character that may appear in output of style `st`: no control character (not even a line break) on one line, nothing beyond ASCII under `ensure_ascii`. */
  predicate FitsChar(c: char, st: Style)
  {
    (st.layout == Minimal ==> c >= ' ') && (st.ensureAscii ==> c as int < 0x80)
  }

  predicate Fits(s: string, st: Style)
  {
    forall i :: 0 <= i < |s| ==> FitsChar(s[i], st)
  }

  lemma FitsConcat(a: string, b: string, st: Style)
    requires Fits(a, st) && Fits(b, st)
    ensures Fits(a + b, st)
  {
    forall i | 0 <= i < |a + b| ensures FitsChar((a + b)[i], st) {
      if i >= |a| {
        assert (a + b)[i] == b[i - |a|];
      }
    }
  }

  /** A quoted string fits every style: escaping leaves no control character, and nothing beyond ASCII under `ensure_ascii`. */
  lemma QuoteFits(s: string, st: Style)
    ensures Fits(Quote(s, st.ensureAscii), st)
  {
    var r := Quote(s, st.ensureAscii);
    forall i | 0 <= i < |r| ensures FitsChar(r[i], st) {
      if 0 < i < |r| - 1 {
        assert r[i] == r[1..|r| - 1][i - 1];
      }
    }
  }

  /** `sep.join(parts)`. */
  function Join(parts: seq<string>, sep: string): string
  {
    if |parts| == 0 then ""
    else if |parts| == 1 then parts[0]
    else parts[0] + sep + Join(parts[1..], sep)
  }

  /** A line break followed by two spaces of indentation per nesting level. */
  function Newline(level: nat): string
  {
    "\n" + seq(2 * level, _ => ' ')
  }

  function KeySeparator(layout: Layout): string
  {
    match layout
    case Minimal => ":"
    case Indented => ": "
  }

  /** The non-empty list or object whose rendered items are `parts`, at nesting depth `level`. */
  function Bracket(open: string, close: string, parts: seq<string>, layout: Layout, level: nat): (r: string)
    ensures |r| >= |open| + |close|
    ensures |open| > 0 ==> r[0] == open[0]
    ensures |close| > 0 ==> r[|r| - 1] == close[|close| - 1]
  {
    match layout
    case Minimal => open + Join(parts, ",") + close
    case Indented => open + Newline(level + 1) + Join(parts, "," + Newline(level + 1)) + Newline(level) + close
  }

  lemma {:induction false} JoinFits(parts: seq<string>, sep: string, st: Style)
    requires Fits(sep, st) && forall i :: 0 <= i < |parts| ==> Fits(parts[i], st)
    ensures Fits(Join(parts, sep), st)
    decreases |parts|
  {
    if |parts| > 1 {
      JoinFits(parts[1..], sep, st);
      FitsConcat(parts[0], sep, st);
      FitsConcat(parts[0] + sep, Join(parts[1..], sep), st);
    }
  }

  /** Brackets around fitting items fit: the indented layout only adds line breaks and spaces. */
  lemma BracketFits(open: string, close: string, parts: seq<string>, st: Style, level: nat)
    requires Fits(open, st) && Fits(close, st) && forall i :: 0 <= i < |parts| ==> Fits(parts[i], st)
    ensures Fits(Bracket(open, close, parts, st.layout, level), st)
  {
    match st.layout
    case Minimal =>
      JoinFits(parts, ",", st);
      FitsConcat(open, Join(parts, ","), st);
      FitsConcat(open + Join(parts, ","), close, st);
    case Indented =>
      var nl, nl1 := Newline(level), Newline(level + 1);
      var sep := "," + nl1;
      JoinFits(parts, sep, st);
      FitsConcat(open, nl1, st);
      FitsConcat(open + nl1, Join(parts, sep), st);
      FitsConcat(open + nl1 + Join(parts, sep), nl, st);
      FitsConcat(open + nl1 + Join(parts, sep) + nl, close, st);
  }

  function EntryKey(p: (string, string)): string
  {
    p.0
  }

  /** Each member's key paired with its rendered value, in insertion order. */
  function RenderedEntries(ms: Members, st: Style, level: nat): (r: seq<(string, string)>)
    ensures |r| == |ms|
    ensures forall i :: 0 <= i < |ms| ==> r[i] == (ms[i].0, Dumps(ms[i].1, st, level))
    decreases Obj(ms), 0
  {
    seq(|ms|, i requires 0 <= i < |ms| => (ms[i].0, Dumps(ms[i].1, st, level)))
  }

  /** `json.dumps` of `j` in style `st`, as it is written at nesting depth `level`. */
  function Dumps(j: Json, st: Style, level: nat): (r: string)
    ensures |r| > 0 && Fits(r, st)
    ensures j.Str? <==> r[0] == '"'
    ensures j.Arr? <==> r[0] == '['
    ensures j.Obj? <==> r[0] == '{'
    ensures j.Str? ==> r[|r| - 1] == '"'
    ensures j.Arr? ==> r[|r| - 1] == ']'
    ensures j.Obj? ==> r[|r| - 1] == '}'
    decreases j, 2
  {
    match j
    case Null => "null"
    case Bool(b) => if b then "true" else "false"
    case Int(i) => Text.IntText(i)
    case Str(s) => QuoteFits(s, st); Quote(s, st.ensureAscii)
    case Arr(xs) => if |xs| == 0 then "[]" else DumpsArray(xs, st, level)
    case Obj(ms) => if |ms| == 0 then "{}" else DumpsObject(ms, st, level)
  }

  /** A non-empty list: its items in order, one nesting level deeper. */
  function DumpsArray(xs: seq<Json>, st: Style, level: nat): (r: string)
    ensures |r| > 0 && Fits(r, st) && r[0] == '[' && r[|r| - 1] == ']'
    decreases Arr(xs), 1
  {
    var parts := seq(|xs|, i requires 0 <= i < |xs| => Dumps(xs[i], st, level + 1));
    BracketFits("[", "]", parts, st, level);
    Bracket("[", "]", parts, st.layout, level)
  }

  /** A non-empty object: its members in insertion order, or sorted by key under `sort_keys`. */
  function DumpsObject(ms: Members, st: Style, level: nat): (r: string)
    ensures |r| > 0 && Fits(r, st) && r[0] == '{' && r[|r| - 1] == '}'
    decreases Obj(ms), 1
  {
    var entries := RenderedEntries(ms, st, level + 1);
    var ordered := if st.sortKeys then Sorting.SortBy(entries, EntryKey) else entries;
    var parts := seq(|ordered|, i requires 0 <= i < |ordered| =>
      Quote(ordered[i].0, st.ensureAscii) + KeySeparator(st.layout) + ordered[i].1);
    assert forall i :: 0 <= i < |parts| ==> Fits(parts[i], st) by {
      forall i | 0 <= i < |parts| ensures Fits(parts[i], st) {
        if st.sortKeys {
          Sorting.SortByElements(entries, EntryKey, ordered[i]);
        }
        assert ordered[i] in entries;
        QuoteFits(ordered[i].0, st);
        FitsConcat(Quote(ordered[i].0, st.ensureAscii), KeySeparator(st.layout), st);
        FitsConcat(Quote(ordered[i].0, st.ensureAscii) + KeySeparator(st.layout), ordered[i].1, st);
      }
    }
    BracketFits("{", "}", parts, st, level);
    Bracket("{", "}", parts, st.layout, level)
  }

  // ---------------------------------------------------------------- bytes

  /**
   * The code point a UTF-8 sequence of one to four bytes stands for: the payload bits of the
   * lead byte, then six bits from each continuation byte.
   */
  function Utf8Decode(r: seq<byte>): int
    requires 1 <= |r| <= 4
  {
    if |r| == 1 then r[0] as int
    else if |r| == 2 then (r[0] as int - 0xC0) * 0x40 + (r[1] as int - 0x80)
    else if |r| == 3 then (r[0] as int - 0xE0) * 0x1000 + (r[1] as int - 0x80) * 0x40 + (r[2] as int - 0x80)
    else (r[0] as int - 0xF0) * 0x40000 + (r[1] as int - 0x80) * 0x1000 + (r[2] as int - 0x80) * 0x40 + (r[3] as int - 0x80)
  }

  /**
   * The UTF-8 encoding of one Unicode scalar value (section 3 of RFC 3629): the shortest
   * form, a lead byte that announces the length, continuation bytes `10xxxxxx`, and
   * payload bits that decode back to the code point.
   */
  function Utf8Char(c: char): (r: seq<byte>)
    ensures 1 <= |r| <= 4
    ensures |r| == 1 <==> c as int < 0x80
    ensures |r| == 2 <==> 0x80 <= c as int < 0x800
    ensures |r| == 3 <==> 0x800 <= c as int < 0x10000
    ensures |r| == 1 ==> r[0] < 0x80
    ensures |r| == 2 ==> 0xC2 <= r[0] < 0xE0
    ensures |r| == 3 ==> 0xE0 <= r[0] < 0xF0
    ensures |r| == 4 ==> 0xF0 <= r[0] < 0xF5
    ensures forall i :: 1 <= i < |r| ==> 0x80 <= r[i] < 0xC0
    ensures Utf8Decode(r) == c as int
  {
    var n := c as int;
    if n < 0x80 then [n as byte]
    else if n < 0x800 then Utf8Two(n)
    else if n < 0x10000 then Utf8Three(n)
    else Utf8Four(n)
  }

  function Utf8Two(n: int): (r: seq<byte>)
    requires 0x80 <= n < 0x800
    ensures |r| == 2 && 0xC2 <= r[0] < 0xE0 && 0x80 <= r[1] < 0xC0 && Utf8Decode(r) == n
  {
    var hi, lo := n / 0x40, n % 0x40;
    assert hi * 0x40 + lo == n;
    [(0xC0 + hi) as byte, (0x80 + lo) as byte]
  }

  function Utf8Three(n: int): (r: seq<byte>)
    requires 0x800 <= n < 0x10000
    ensures |r| == 3 && 0xE0 <= r[0] < 0xF0 && 0x80 <= r[1] < 0xC0 && 0x80 <= r[2] < 0xC0
    ensures Utf8Decode(r) == n
  {
    var q, lo := n / 0x40, n % 0x40;
    var hi, mid := q / 0x40, q % 0x40;
    assert n / 0x1000 == hi && n / 0x40 % 0x40 == mid;
    assert (hi * 0x40 + mid) * 0x40 + lo == n;
    [(0xE0 + n / 0x1000) as byte, (0x80 + n / 0x40 % 0x40) as byte, (0x80 + n % 0x40) as byte]
  }

  function Utf8Four(n: int): (r: seq<byte>)
    requires 0x10000 <= n < 0x110000
    ensures |r| == 4 && 0xF0 <= r[0] < 0xF5 && 0x80 <= r[1] < 0xC0 && 0x80 <= r[2] < 0xC0 && 0x80 <= r[3] < 0xC0
    ensures Utf8Decode(r) == n
  {
    var q1, b3 := n / 0x40, n % 0x40;
    var q2, b2 := q1 / 0x40, q1 % 0x40;
    var b0, b1 := q2 / 0x40, q2 % 0x40;
    assert n / 0x40000 == b0 && n / 0x1000 % 0x40 == b1 && n / 0x40 % 0x40 == b2;
    assert ((b0 * 0x40 + b1) * 0x40 + b2) * 0x40 + b3 == n;
    [(0xF0 + n / 0x40000) as byte, (0x80 + n / 0x1000 % 0x40) as byte,
     (0x80 + n / 0x40 % 0x40) as byte, (0x80 + n % 0x40) as byte]
  }

  /** `s.encode("utf-8")`. */
  function Utf8(s: string): (r: seq<byte>)
    ensures |r| >= |s|
    ensures (forall i :: 0 <= i < |s| ==> s[i] as int < 0x80) ==>
      |r| == |s| && forall i :: 0 <= i < |s| ==> r[i] as int == s[i] as int
    ensures |s| > 0 && s[0] as int < 0x80 ==> r[0] as int == s[0] as int
  {
    if |s| == 0 then [] else
      var h := Utf8Char(s[0]);
      var t := Utf8(s[1..]);
      assert (forall i :: 0 <= i < |s| ==> s[i] as int < 0x80) ==>
        forall i :: 1 <= i < |s| ==> (h + t)[i] as int == s[i] as int by {
        if forall i :: 0 <= i < |s| ==> s[i] as int < 0x80 {
          forall i | 1 <= i < |s| ensures (h + t)[i] as int == s[i] as int {
            assert s[1..][i - 1] == s[i];
          }
        }
      }
      h + t
  }

  /** Text with no control character encodes to bytes with none either: multi-byte sequences lie at 0x80 and above. */
  lemma {:induction false} Utf8NoControl(s: string)
    requires forall i :: 0 <= i < |s| ==> s[i] >= ' '
    ensures forall i :: 0 <= i < |Utf8(s)| ==> Utf8(s)[i] >= 0x20
    decreases |s|
  {
    if |s| > 0 {
      Utf8NoControl(s[1..]);
      var h, t := Utf8Char(s[0]), Utf8(s[1..]);
      assert Utf8(s) == h + t;
      forall i | 0 <= i < |h + t| ensures (h + t)[i] >= 0x20 {
        if i >= |h| {
          assert (h + t)[i] == t[i - |h|];
        }
      }
    }
  }

  /** Encoding works piece by piece: `(s + t).encode() == s.encode() + t.encode()`. */
  lemma {:induction false} Utf8Concat(s: string, t: string)
    ensures Utf8(s + t) == Utf8(s) + Utf8(t)
    decreases |s|
  {
    if |s| > 0 {
      assert (s + t)[0] == s[0] && (s + t)[1..] == s[1..] + t;
      Utf8Concat(s[1..], t);
      calc {
        Utf8(s + t);
        Utf8Char(s[0]) + Utf8(s[1..] + t);
        Utf8Char(s[0]) + (Utf8(s[1..]) + Utf8(t));
        (Utf8Char(s[0]) + Utf8(s[1..])) + Utf8(t);
      }
    } else {
      assert s + t == t;
    }
  }

  /** The canonical bytes of a JSON value: sorted keys at every depth, no whitespace, UTF-8. */
  function Canon(j: Json): (r: seq<byte>)
    ensures |r| > 0 && forall i :: 0 <= i < |r| ==> r[i] >= 0x20
    ensures j.Obj? <==> r[0] == '{' as byte
    ensures j.Arr? <==> r[0] == '[' as byte
  {
    var d := Dumps(j, CANONICAL, 0);
    Utf8NoControl(d);
    Utf8(d)
  }

  // ---------------------------------------------------------------- order independence

  /** With `sort_keys=True` the text depends only on the value, not on the insertion order of any object. */
  lemma {:induction false} DumpsEquiv(a: Json, b: Json, st: Style, level: nat)
    requires Valid(a) && Valid(b) && Equiv(a, b) && st.sortKeys
    ensures Dumps(a, st, level) == Dumps(b, st, level)
    decreases a, 1
  {
    match a
    case Arr(xs) =>
      var ys := b.items;
      forall i | 0 <= i < |xs| ensures Dumps(xs[i], st, level + 1) == Dumps(ys[i], st, level + 1) {
        DumpsEquiv(xs[i], ys[i], st, level + 1);
      }
      assert seq(|xs|, i requires 0 <= i < |xs| => Dumps(xs[i], st, level + 1))
          == seq(|ys|, i requires 0 <= i < |ys| => Dumps(ys[i], st, level + 1));
    case Obj(ms) =>
      var ns := b.members;
      if |ms| > 0 {
        assert Get(ns, ms[0].0).Some?;
      }
      if |ns| > 0 {
        assert HasKey(ms, ns[0].0);
      }
      var em := RenderedEntries(ms, st, level + 1);
      var en := RenderedEntries(ns, st, level + 1);
      EntriesIncluded(ms, ns, st, level + 1);
      EntriesIncludedBack(ms, ns, st, level + 1);
      EntriesDistinct(ms, st, level + 1);
      EntriesDistinct(ns, st, level + 1);
      Sorting.SortByUnique(em, en, EntryKey);
    case _ =>
  }

  /** Each rendered member of an object appears among the rendered members of an equal object. */
  lemma {:induction false} EntriesIncluded(ms: Members, ns: Members, st: Style, level: nat)
    requires Valid(Obj(ms)) && Valid(Obj(ns)) && Equiv(Obj(ms), Obj(ns)) && st.sortKeys
    ensures forall x :: x in RenderedEntries(ms, st, level) ==> x in RenderedEntries(ns, st, level)
    decreases Obj(ms), 0
  {
    var em := RenderedEntries(ms, st, level);
    var en := RenderedEntries(ns, st, level);
    forall x | x in em ensures x in en {
      var i :| 0 <= i < |em| && em[i] == x;
      var v := Get(ns, ms[i].0).value;
      var j :| 0 <= j < |ns| && ns[j] == (ms[i].0, v);
      DumpsEquiv(ms[i].1, v, st, level);
      assert en[j] == x;
    }
  }

  /** Each rendered member of the second object appears among those of the first. */
  lemma {:induction false} EntriesIncludedBack(ms: Members, ns: Members, st: Style, level: nat)
    requires Valid(Obj(ms)) && Valid(Obj(ns)) && Equiv(Obj(ms), Obj(ns)) && st.sortKeys
    ensures forall x :: x in RenderedEntries(ns, st, level) ==> x in RenderedEntries(ms, st, level)
    decreases Obj(ms), 0
  {
    var em := RenderedEntries(ms, st, level);
    var en := RenderedEntries(ns, st, level);
    forall x | x in en ensures x in em {
      var j :| 0 <= j < |en| && en[j] == x;
      var i :| 0 <= i < |ms| && ms[i].0 == ns[j].0;
      GetAt(ns, j);
      DumpsEquiv(ms[i].1, ns[j].1, st, level);
      assert em[i] == x;
    }
  }

  lemma EntriesDistinct(ms: Members, st: Style, level: nat)
    requires DistinctKeys(ms)
    ensures Sorting.DistinctBy(RenderedEntries(ms, st, level), EntryKey)
  {
  }

  /** The canonical bytes do not depend on the insertion order of members, at any depth. */
  lemma CanonEquiv(a: Json, b: Json)
    requires Valid(a) && Valid(b) && Equiv(a, b)
    ensures Canon(a) == Canon(b)
  {
    DumpsEquiv(a, b, CANONICAL, 0);
  }
}
