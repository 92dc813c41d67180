/**
 * Python `str` operations the tools rely on, over Dafny strings (sequences of Unicode
 * scalar values): ordering, `strip`, `startswith`, `split(sep, 1)`, `replace`,
 * ASCII case mapping and decimal text.
 */
module Text {
  import opened Basics

  // ---------------------------------------------------------------- ordering

  /** Python's `<` on `str`: lexicographic by code point (also the order of `sorted`). */
  predicate Less(a: string, b: string)
  {
    if |a| == 0 then |b| > 0
    else if |b| == 0 then false
    else a[0] < b[0] || (a[0] == b[0] && Less(a[1..], b[1..]))
  }

  lemma {:induction false} LessIrreflexive(a: string)
    ensures !Less(a, a)
  {
    if |a| > 0 {
      LessIrreflexive(a[1..]);
    }
  }

  lemma {:induction false} LessTransitive(a: string, b: string, c: string)
    requires Less(a, b) && Less(b, c)
    ensures Less(a, c)
  {
    if |a| > 0 && |b| > 0 && |c| > 0 && a[0] == b[0] == c[0] {
      LessTransitive(a[1..], b[1..], c[1..]);
    }
  }

  lemma {:induction false} LessTotal(a: string, b: string)
    requires a != b
    ensures Less(a, b) || Less(b, a)
  {
    if |a| > 0 && |b| > 0 && a[0] == b[0] {
      assert a == [a[0]] + a[1..] && b == [b[0]] + b[1..];
      LessTotal(a[1..], b[1..]);
    }
  }

  lemma {:induction false} LessAsymmetric(a: string, b: string)
    requires Less(a, b)
    ensures !Less(b, a)
  {
    if |a| > 0 && |b| > 0 && a[0] == b[0] {
      LessAsymmetric(a[1..], b[1..]);
    }
  }

  // ---------------------------------------------------------------- whitespace and strip

  /** Python's `str.isspace()` for a single character. */
  predicate IsSpace(c: char)
  {
    c == ' ' || ('\t' <= c <= '\r') || ('\U{1C}' <= c <= '\U{1F}') ||
    c == '\U{85}' || c == '\U{A0}' || c == '\U{1680}' || ('\U{2000}' <= c <= '\U{200A}') ||
    c == '\U{2028}' || c == '\U{2029}' || c == '\U{202F}' || c == '\U{205F}' || c == '\U{3000}'
  }

  /**
   * Among ASCII characters, whitespace is exactly space, tab, line feed, vertical tab, form
   * feed, carriage return and the four separators U+001C..U+001F; no digit or ASCII letter is.
   */
  lemma IsSpaceAscii(c: char)
    ensures c as int < 0x80 ==> (IsSpace(c) <==> c in " \t\n\U{B}\U{C}\r\U{1C}\U{1D}\U{1E}\U{1F}")
    ensures IsSpace(c) ==> !IsDigit(c) && !IsAsciiLower(c) && !IsAsciiUpper(c)
  {
  }

  /** Where the run of whitespace that starts at `i` ends. */
  function SpacesFrom(s: string, i: nat): (j: nat)
    requires i <= |s|
    ensures i <= j <= |s| && (j < |s| ==> !IsSpace(s[j]))
    ensures forall k :: i <= k < j ==> IsSpace(s[k])
    decreases |s| - i
  {
    if i < |s| && IsSpace(s[i]) then SpacesFrom(s, i + 1) else i
  }

  /** Where the run of whitespace that ends at `j` starts, going back no further than `lo`. */
  function SpacesBefore(s: string, lo: nat, j: nat): (k: nat)
    requires lo <= j <= |s|
    ensures lo <= k <= j && (k > lo ==> !IsSpace(s[k - 1]))
    ensures forall m :: k <= m < j ==> IsSpace(s[m])
    decreases j - lo
  {
    if j > lo && IsSpace(s[j - 1]) then SpacesBefore(s, lo, j - 1) else j
  }

  /**
   * Python's `str.strip()`: the slice of `s` between its leading and its trailing
   * whitespace, with no whitespace at either end.
   */
  function Strip(s: string): (r: string)
    ensures |r| <= |s|
    ensures |r| > 0 ==> !IsSpace(r[0]) && !IsSpace(r[|r| - 1])
    ensures var i := SpacesFrom(s, 0);
      i + |r| <= |s| && r == s[i..i + |r|] &&
      (forall k :: 0 <= k < i ==> IsSpace(s[k])) && (forall k :: i + |r| <= k < |s| ==> IsSpace(s[k]))
  {
    var i := SpacesFrom(s, 0);
    s[i..SpacesBefore(s, i, |s|)]
  }

  /** A string with no leading or trailing whitespace is left alone by `strip()`. */
  lemma StripStripped(s: string)
    requires |s| > 0 ==> !IsSpace(s[0]) && !IsSpace(s[|s| - 1])
    ensures Strip(s) == s
  {
  }

  // ---------------------------------------------------------------- prefixes and searching

  predicate StartsWith(s: string, p: string)
  {
    |p| <= |s| && s[..|p|] == p
  }

  predicate EndsWith(s: string, p: string)
  {
    |p| <= |s| && s[|s| - |p|..] == p
  }

  predicate OccursAt(s: string, p: string, i: nat)
  {
    i + |p| <= |s| && s[i..i + |p|] == p
  }

  /** Python's `s.find(p)`, with None for -1. */
  function Find(s: string, p: string): (r: Option<nat>)
    ensures r.Some? ==> OccursAt(s, p, r.value) && forall j :: 0 <= j < r.value ==> !OccursAt(s, p, j)
    ensures r.None? ==> forall j :: 0 <= j <= |s| ==> !OccursAt(s, p, j)
    decreases |s|
  {
    if StartsWith(s, p) then Some(0)
    else if |s| == 0 then None
    else
      match Find(s[1..], p)
      case None => assert forall j :: 1 <= j <= |s| ==> (OccursAt(s, p, j) <==> OccursAt(s[1..], p, j - 1)); None
      case Some(k) => assert forall j :: 1 <= j <= k ==> (OccursAt(s, p, j) <==> OccursAt(s[1..], p, j - 1)); Some(k + 1)
  }

  /** Python's `s.split(sep, 1)[-1]`: the text after the first `sep`, or all of `s` if it has none. */
  function AfterFirst(s: string, sep: string): (r: string)
    ensures Find(s, sep).None? ==> r == s
    ensures Find(s, sep).Some? ==> s == s[..Find(s, sep).value] + sep + r
  {
    match Find(s, sep)
    case None => s
    case Some(i) => s[i + |sep|..]
  }

  /** When `s` starts with `sep`, `s.split(sep, 1)[1]` is just `s` without that prefix. */
  lemma AfterFirstOfPrefixed(s: string, sep: string)
    requires StartsWith(s, sep)
    ensures AfterFirst(s, sep) == s[|sep|..]
  {
  }

  /** An occurrence in the tail of `s` is an occurrence in `s`, one place further on. */
  lemma OccursInTail(s: string, p: string, j: nat)
    requires |s| > 0
    ensures OccursAt(s[1..], p, j) ==> OccursAt(s, p, j + 1)
  {
    if j + |p| <= |s[1..]| {
      assert s[1..][j..j + |p|] == s[j + 1..j + 1 + |p|];
    }
  }

  /** Python's `s.replace(target, repl)`: every non-overlapping occurrence, scanning left to right. */
  function Replace(s: string, target: string, repl: string): (r: string)
    requires |target| > 0
    ensures |repl| == |target| ==> |r| == |s|
    ensures |repl| <= |target| ==> |r| <= |s|
    decreases |s|
  {
    if |s| == 0 then s
    else if StartsWith(s, target) then repl + Replace(s[|target|..], target, repl)
    else [s[0]] + Replace(s[1..], target, repl)
  }

  /** An occurrence at the start is replaced, and the scan goes on right after it. */
  lemma ReplaceAtStart(s: string, target: string, repl: string)
    requires |target| > 0 && StartsWith(s, target)
    ensures Replace(s, target, repl) == repl + Replace(s[|target|..], target, repl)
  {
  }

  /**
   * `replace` read through `find`: without an occurrence nothing changes; otherwise the text
   * before the first occurrence is kept, the occurrence becomes `repl`, and the scan goes on
   * after it.
   */
  lemma ReplaceFirst(s: string, target: string, repl: string)
    requires |target| > 0
    ensures Find(s, target).None? ==> Replace(s, target, repl) == s
    ensures Find(s, target).Some? ==>
      var i := Find(s, target).value;
      i + |target| <= |s| &&
      Replace(s, target, repl) == s[..i] + repl + Replace(s[i + |target|..], target, repl)
  {
    if Find(s, target).None? {
      assert Replace(s, target, repl) == s by {
        ReplaceKeepsPrefix(s, target, repl, |s|);
        assert s[..|s|] == s;
      }
    } else {
      ReplaceAtFirst(s, target, repl, Find(s, target).value);
    }
  }

  /** The step of `ReplaceFirst` at the first occurrence, found at `i`. */
  lemma ReplaceAtFirst(s: string, target: string, repl: string, i: nat)
    requires |target| > 0 && OccursAt(s, target, i)
    requires forall j :: 0 <= j < i ==> !OccursAt(s, target, j)
    ensures Replace(s, target, repl) == s[..i] + repl + Replace(s[i + |target|..], target, repl)
  {
    ReplaceKeepsPrefix(s, target, repl, i);
    ReplaceAt(s, target, repl, i);
    ConcatAssoc(s[..i], repl, Replace(s[i + |target|..], target, repl));
  }

  /** An occurrence at `i` is replaced, and the scan goes on right after it. */
  lemma ReplaceAt(s: string, target: string, repl: string, i: nat)
    requires |target| > 0 && OccursAt(s, target, i)
    ensures Replace(s[i..], target, repl) == repl + Replace(s[i + |target|..], target, repl)
  {
    assert s[i..][..|target|] == s[i..i + |target|];
    ReplaceAtStart(s[i..], target, repl);
    assert s[i..][|target|..] == s[i + |target|..];
  }

  lemma ConcatAssoc(a: string, b: string, c: string)
    ensures a + (b + c) == a + b + c
  {
  }

  /** Before the first occurrence `replace` copies the text as it is. */
  lemma {:induction false} ReplaceKeepsPrefix(s: string, target: string, repl: string, i: nat)
    requires |target| > 0 && i <= |s|
    requires forall j :: 0 <= j < i ==> !OccursAt(s, target, j)
    ensures Replace(s, target, repl) == s[..i] + Replace(s[i..], target, repl)
  {
    if i > 0 {
      assert !StartsWith(s, target) by {
        assert !OccursAt(s, target, 0);
        if |target| <= |s| {
          assert s[..|target|] == s[0..|target|];
        }
      }
      ReplacePastStart(s, target, repl);
      forall j | 0 <= j < i - 1
        ensures !OccursAt(s[1..], target, j)
      {
        OccursInTail(s, target, j);
      }
      ReplaceKeepsPrefix(s[1..], target, repl, i - 1);
      assert s[1..][i - 1..] == s[i..];
      assert [s[0]] + s[1..][..i - 1] == s[..i];
    }
  }

  /** Without an occurrence at the start, the first character is kept and `replace` goes on at the next. */
  lemma ReplacePastStart(s: string, target: string, repl: string)
    requires |target| > 0 && |s| > 0 && !StartsWith(s, target)
    ensures Replace(s, target, repl) == [s[0]] + Replace(s[1..], target, repl)
  {
  }

  /** `s.startswith(p)` exactly when `s.find(p) == 0`. */
  lemma StartsWithFind(s: string, p: string)
    ensures StartsWith(s, p) <==> Find(s, p) == Some(0)
  {
    if Find(s, p) == Some(0) {
      assert OccursAt(s, p, 0);
    }
  }

  /** A string without the first character of `target` holds no occurrence to replace. */
  lemma {:induction false} ReplaceAbsent(s: string, target: string, repl: string)
    requires |target| > 0 && forall i :: 0 <= i < |s| ==> s[i] != target[0]
    ensures Replace(s, target, repl) == s
    decreases |s|
  {
    if |s| > 0 {
      ReplaceAbsent(s[1..], target, repl);
      assert [s[0]] + s[1..] == s;
    }
  }

  // ---------------------------------------------------------------- ASCII classes and case

  predicate IsAsciiUpper(c: char) { 'A' <= c <= 'Z' }
  predicate IsAsciiLower(c: char) { 'a' <= c <= 'z' }
  predicate IsDigit(c: char) { '0' <= c <= '9' }
  predicate IsLowerAlnum(c: char) { IsAsciiLower(c) || IsDigit(c) }

  /**
   * The characters other than `a`..`z` whose upper case (Python's full case mapping) holds an
   * ASCII letter: sharp s, dotless i, `ŉ`, long s, `ǰ`, `ẖ` `ẗ` `ẘ` `ẙ` `ẚ` and the Latin
   * ligatures U+FB00..U+FB06.
   */
  const UPPER_SPECIAL: set<char> := {
    '\U{00DF}', '\U{0131}', '\U{0149}', '\U{017F}', '\U{01F0}', '\U{1E96}', '\U{1E97}', '\U{1E98}',
    '\U{1E99}', '\U{1E9A}', '\U{FB00}', '\U{FB01}', '\U{FB02}', '\U{FB03}', '\U{FB04}', '\U{FB05}', '\U{FB06}'}

  /**
   * Python's `str.upper()` on one character, for the characters whose upper case holds an
   * ASCII letter: one letter for `a`..`z`, dotless i and long s, and two or three characters
   * for the others in `UPPER_SPECIAL` (`ß` becomes `SS`, `ﬃ` becomes `FFI`). Every other
   * character is kept.
   */
  function UpperChar(c: char): (u: string)
    ensures 1 <= |u| <= 3
    ensures forall i :: 0 <= i < |u| ==> !IsAsciiLower(u[i])
    ensures IsAsciiLower(c) ==> u == [(c as int - 32) as char]
    ensures |u| == 1 && IsAsciiUpper(u[0]) <==> IsAsciiUpper(c) || IsAsciiLower(c) || c == '\U{0131}' || c == '\U{017F}'
    ensures c in UPPER_SPECIAL ==> IsAsciiUpper(u[0]) || (|u| > 1 && IsAsciiUpper(u[1]))
    ensures u != [c] ==> forall i :: 0 <= i < |u| ==> !IsDigit(u[i]) && u[i] != '\n'
    ensures !IsAsciiLower(c) && c !in UPPER_SPECIAL ==> u == [c]
  {
    if IsAsciiLower(c) then [(c as int - 32) as char]
    else if c == '\U{00DF}' then "SS"
    else if c == '\U{0131}' then "I"
    else if c == '\U{0149}' then "\U{02BC}N"
    else if c == '\U{017F}' then "S"
    else if c == '\U{01F0}' then "J\U{030C}"
    else if c == '\U{1E96}' then "H\U{0331}"
    else if c == '\U{1E97}' then "T\U{0308}"
    else if c == '\U{1E98}' then "W\U{030A}"
    else if c == '\U{1E99}' then "Y\U{030A}"
    else if c == '\U{1E9A}' then "A\U{02BE}"
    else if c == '\U{FB00}' then "FF"
    else if c == '\U{FB01}' then "FI"
    else if c == '\U{FB02}' then "FL"
    else if c == '\U{FB03}' then "FFI"
    else if c == '\U{FB04}' then "FFL"
    else if c == '\U{FB05}' then "ST"
    else if c == '\U{FB06}' then "ST"
    else [c]
  }

  /** Python's `str.upper()`: the upper case of each character in turn, as `UpperChar` says. */
  function Upper(s: string): (r: string)
    ensures |r| >= |s|
    ensures forall i :: 0 <= i < |r| ==> !IsAsciiLower(r[i])
  {
    if |s| == 0 then "" else
      var h := UpperChar(s[0]);
      var t := Upper(s[1..]);
      assert forall i :: |h| <= i < |h + t| ==> (h + t)[i] == t[i - |h|];
      h + t
  }

  /** Upper-casing works piece by piece: `(s + t).upper() == s.upper() + t.upper()`. */
  lemma {:induction false} UpperConcat(s: string, t: string)
    ensures Upper(s + t) == Upper(s) + Upper(t)
    decreases |s|
  {
    if |s| > 0 {
      assert (s + t)[0] == s[0] && (s + t)[1..] == s[1..] + t;
      UpperConcat(s[1..], t);
      calc {
        Upper(s + t);
        UpperChar(s[0]) + Upper(s[1..] + t);
        UpperChar(s[0]) + (Upper(s[1..]) + Upper(t));
        (UpperChar(s[0]) + Upper(s[1..])) + Upper(t);
      }
    } else {
      assert s + t == t;
    }
  }

  /** Where no character expands, upper-casing maps the characters one for one. */
  lemma {:induction false} UpperOneForOne(s: string)
    requires forall i :: 0 <= i < |s| ==> |UpperChar(s[i])| == 1
    ensures |Upper(s)| == |s| && forall i :: 0 <= i < |s| ==> [Upper(s)[i]] == UpperChar(s[i])
  {
    if |s| > 0 {
      assert |UpperChar(s[0])| == 1;
      assert forall i :: 1 <= i < |s| ==> s[1..][i - 1] == s[i];
      UpperOneForOne(s[1..]);
    }
  }

  /** Digits and newlines are their own upper case. */
  lemma {:induction false} UpperPlain(t: string)
    requires forall i :: 0 <= i < |t| ==> IsDigit(t[i]) || t[i] == '\n'
    ensures Upper(t) == t
  {
    if |t| > 0 {
      UpperPlain(t[1..]);
      assert [t[0]] + t[1..] == t;
    }
  }

  /** Only digits and newlines upper-case to a string of digits and newlines. */
  lemma {:induction false} UpperOfPlain(t: string)
    requires forall i :: 0 <= i < |Upper(t)| ==> IsDigit(Upper(t)[i]) || Upper(t)[i] == '\n'
    ensures Upper(t) == t
  {
    if |t| > 0 {
      var h := UpperChar(t[0]);
      var u := Upper(t);
      assert u[0] == h[0];
      assert h == [t[0]];
      assert forall i :: 0 <= i < |Upper(t[1..])| ==> Upper(t[1..])[i] == u[i + 1];
      UpperOfPlain(t[1..]);
      assert [t[0]] + t[1..] == t;
    }
  }

  /**
   * Python's `str.lower()` on one character, for the characters whose lower case holds an
   * ASCII letter: the ASCII capitals, the Kelvin sign (U+212A, to `k`) and capital I with
   * dot above (U+0130, to `i` and a combining dot). Every other character is kept.
   */
  function LowerChar(c: char): (r: string)
    ensures 1 <= |r| <= 2 && (|r| == 2 <==> c == '\U{0130}')
    ensures forall i :: 0 <= i < |r| ==> !IsAsciiUpper(r[i])
    ensures IsAsciiUpper(c) ==> r == [(c as int + 32) as char]
    ensures c == '\U{212A}' ==> r == "k"
    ensures c == '\U{0130}' ==> r == "i\U{0307}"
    ensures !IsAsciiUpper(c) && c != '\U{212A}' && c != '\U{0130}' ==> r == [c]
  {
    if IsAsciiUpper(c) then [(c as int + 32) as char]
    else if c == '\U{212A}' then "k"
    else if c == '\U{0130}' then "i\U{0307}"
    else [c]
  }

  /** Python's `str.lower()`, character by character as `LowerChar` says. */
  function Lower(s: string): (r: string)
    ensures |r| >= |s|
    ensures forall i :: 0 <= i < |r| ==> !IsAsciiUpper(r[i])
  {
    if |s| == 0 then "" else
      var h := LowerChar(s[0]);
      var t := Lower(s[1..]);
      assert forall i :: |h| <= i < |h + t| ==> (h + t)[i] == t[i - |h|];
      h + t
  }

  /** Lower-casing works piece by piece: `(s + t).lower() == s.lower() + t.lower()`. */
  lemma {:induction false} LowerConcat(s: string, t: string)
    ensures Lower(s + t) == Lower(s) + Lower(t)
    decreases |s|
  {
    if |s| > 0 {
      assert (s + t)[0] == s[0] && (s + t)[1..] == s[1..] + t;
      LowerConcat(s[1..], t);
      calc {
        Lower(s + t);
        LowerChar(s[0]) + Lower(s[1..] + t);
        LowerChar(s[0]) + (Lower(s[1..]) + Lower(t));
        (LowerChar(s[0]) + Lower(s[1..])) + Lower(t);
      }
    } else {
      assert s + t == t;
    }
  }

  /** Without a capital I with dot above, lower-casing maps the characters one for one. */
  lemma {:induction false} LowerOneForOne(s: string)
    requires forall i :: 0 <= i < |s| ==> s[i] != '\U{0130}'
    ensures |Lower(s)| == |s| && forall i :: 0 <= i < |s| ==> [Lower(s)[i]] == LowerChar(s[i])
  {
    if |s| > 0 {
      assert |LowerChar(s[0])| == 1;
      assert forall i :: 1 <= i < |s| ==> s[1..][i - 1] == s[i];
      LowerOneForOne(s[1..]);
    }
  }

  /** Lower-casing leaves a string without capitals of either kind alone. */
  lemma {:induction false} LowerFixed(s: string)
    requires forall i :: 0 <= i < |s| ==> !IsAsciiUpper(s[i]) && s[i] != '\U{212A}' && s[i] != '\U{0130}'
    ensures Lower(s) == s
  {
    if |s| > 0 {
      LowerFixed(s[1..]);
      assert [s[0]] + s[1..] == s;
    }
  }

  // ---------------------------------------------------------------- character-class runs

  /** The length of the run of characters in class `p` that `s` starts with. */
  function RunLength(s: string, p: char -> bool): (n: nat)
    ensures n <= |s|
    ensures forall i :: 0 <= i < n ==> p(s[i])
    ensures n < |s| ==> !p(s[n])
  {
    if |s| == 0 || !p(s[0]) then 0 else 1 + RunLength(s[1..], p)
  }

  /** The characters of `s` in class `p`, in order. */
  function Filter(s: string, p: char -> bool): (r: string)
    ensures |r| <= |s| && forall i :: 0 <= i < |r| ==> p(r[i])
  {
    if |s| == 0 then "" else (if p(s[0]) then [s[0]] else "") + Filter(s[1..], p)
  }

  /** A prefix of class characters survives filtering as it is. */
  lemma {:induction false} FilterRun(s: string, p: char -> bool, n: nat)
    requires n <= |s| && forall i :: 0 <= i < n ==> p(s[i])
    ensures Filter(s, p) == s[..n] + Filter(s[n..], p)
  {
    if n > 0 {
      FilterRun(s[1..], p, n - 1);
      assert s[1..][n - 1..] == s[n..];
      assert [s[0]] + s[1..][..n - 1] == s[..n];
    }
  }

  /** A prefix of characters outside the class disappears. */
  lemma {:induction false} FilterSkip(s: string, p: char -> bool, n: nat)
    requires n <= |s| && forall i :: 0 <= i < n ==> !p(s[i])
    ensures Filter(s, p) == Filter(s[n..], p)
  {
    if n > 0 {
      FilterSkip(s[1..], p, n - 1);
      assert s[1..][n - 1..] == s[n..];
    }
  }

  /** The strings of `ws` one after the other. */
  function Concat(ws: seq<string>): string
  {
    if |ws| == 0 then "" else ws[0] + Concat(ws[1..])
  }

  /**
   * `re.findall(r"[...]+", s)` for the class `p`: the maximal runs of characters in the
   * class, left to right. With `p` "not whitespace" it is `s.split()`. Read one after the
   * other the runs are exactly the class characters of `s`, in order.
   */
  function Runs(s: string, p: char -> bool): (r: seq<string>)
    ensures forall w :: w in r ==> |w| > 0 && forall i :: 0 <= i < |w| ==> p(w[i]) && w[i] in s
    ensures Concat(r) == Filter(s, p)
    decreases |s|
  {
    if |s| == 0 then []
    else if !p(s[0]) then Runs(s[1..], p)
    else
      var n := RunLength(s, p);
      var rest := Runs(s[n..], p);
      RunsCons(s, p, n, rest);
      assert Concat([s[..n]] + rest) == Filter(s, p) by {
        FilterRun(s, p, n);
        assert ([s[..n]] + rest)[1..] == rest;
      }
      [s[..n]] + rest
  }

  /** The run `s[..n]` put before runs taken from `s[n..]` gives runs taken from `s`. */
  lemma RunsCons(s: string, p: char -> bool, n: nat, rest: seq<string>)
    requires 0 < n <= |s| && forall i :: 0 <= i < n ==> p(s[i])
    requires forall w :: w in rest ==> |w| > 0 && forall i :: 0 <= i < |w| ==> p(w[i]) && w[i] in s[n..]
    ensures forall w :: w in [s[..n]] + rest ==> |w| > 0 && forall i :: 0 <= i < |w| ==> p(w[i]) && w[i] in s
  {
    forall w, i | w in rest && 0 <= i < |w| ensures w[i] in s {
      var k :| 0 <= k < |s[n..]| && s[n..][k] == w[i];
      assert s[n + k] == w[i];
    }
    forall i | 0 <= i < n ensures s[..n][i] in s {
      assert s[..n][i] == s[i];
    }
  }

  /** `s` cut at every character outside the class: `re.split(r"[^...]", s)`. */
  function Pieces(s: string, p: char -> bool): (r: seq<string>)
    ensures |r| >= 1
  {
    if |s| == 0 then [""]
    else
      var rest := Pieces(s[1..], p);
      if !p(s[0]) then [""] + rest else [[s[0]] + rest[0]] + rest[1..]
  }

  /** The non-empty strings of `ws`, in order. */
  function NonEmpty(ws: seq<string>): seq<string>
  {
    if |ws| == 0 then [] else (if ws[0] == "" then [] else [ws[0]]) + NonEmpty(ws[1..])
  }

  /** The first piece is the run `s` starts with; the rest are the pieces after the character ending it. */
  lemma {:induction false} PiecesAfterRun(s: string, p: char -> bool)
    ensures var n := RunLength(s, p);
      Pieces(s, p) == [s[..n]] + (if n == |s| then [] else Pieces(s[n + 1..], p))
  {
    if |s| > 0 && p(s[0]) {
      var m := RunLength(s[1..], p);
      PiecesAfterRun(s[1..], p);
      assert [s[0]] + s[1..][..m] == s[..m + 1];
      if m < |s| - 1 {
        assert s[1..][m + 1..] == s[m + 2..];
      }
    }
  }

  /**
   * The runs are the maximal ones, in order: `re.findall(r"[...]+", s)` is the list of
   * non-empty pieces of `re.split(r"[^...]", s)`.
   */
  lemma {:induction false} RunsArePieces(s: string, p: char -> bool)
    ensures Runs(s, p) == NonEmpty(Pieces(s, p))
    decreases |s|
  {
    if |s| > 0 {
      if !p(s[0]) {
        RunsArePieces(s[1..], p);
        assert ([""] + Pieces(s[1..], p))[1..] == Pieces(s[1..], p);
      } else {
        var n := RunLength(s, p);
        PiecesAfterRun(s, p);
        var tail := if n == |s| then [] else Pieces(s[n + 1..], p);
        assert ([s[..n]] + tail)[1..] == tail;
        if n < |s| {
          assert s[n..][1..] == s[n + 1..];
          RunsArePieces(s[n + 1..], p);
        }
      }
    }
  }

  /**
   * `re.sub(r"[^...]+", repl, s)` where `keep` is the class: each maximal run of characters
   * outside the class becomes one `repl`. With `repl` outside the class, deleting the
   * `repl`s gives back the class characters of `s`, in order.
   */
  function SubRuns(s: string, keep: char -> bool, repl: char): (r: string)
    ensures forall i :: 0 <= i < |r| ==> keep(r[i]) || r[i] == repl
    ensures forall i :: 0 <= i < |r| - 1 && r[i] == repl ==> keep(r[i + 1])
    ensures |s| > 0 ==> |r| > 0 && (keep(s[0]) ==> r[0] == s[0])
    ensures !keep(repl) ==> Filter(r, keep) == Filter(s, keep)
    decreases |s|
  {
    if |s| == 0 then ""
    else if keep(s[0]) then
      var t := SubRuns(s[1..], keep, repl);
      assert ([s[0]] + t)[1..] == t;
      [s[0]] + t
    else
      var n := RunLength(s, c => !keep(c));
      var t := SubRuns(s[n..], keep, repl);
      FilterSkip(s, keep, n);
      assert ([repl] + t)[1..] == t;
      [repl] + t
  }

  /** The first and last characters: a class character of `s` stays, a run outside the class ends in `repl`. */
  lemma {:induction false} SubRunsEnds(s: string, keep: char -> bool, repl: char)
    requires |s| > 0
    ensures var r := SubRuns(s, keep, repl);
      |r| > 0 &&
      r[0] == (if keep(s[0]) then s[0] else repl) &&
      r[|r| - 1] == (if keep(s[|s| - 1]) then s[|s| - 1] else repl)
    decreases |s|
  {
    if keep(s[0]) {
      SubRunsKeepHead(s, keep, repl);
      if |s| > 1 {
        SubRunsEnds(s[1..], keep, repl);
        assert s[1..][|s| - 2] == s[|s| - 1];
      }
    } else {
      var m := RunLength(s, c => !keep(c));
      SubRunsSkipHead(s, keep, repl, m);
      if m < |s| {
        SubRunsEnds(s[m..], keep, repl);
        assert s[m..][|s| - m - 1] == s[|s| - 1];
      }
    }
  }

  /** A leading run of `m` characters outside the class becomes one `repl`. */
  lemma SubRunsSkipHead(s: string, keep: char -> bool, repl: char, m: nat)
    requires 0 < m <= |s| && forall i :: 0 <= i < m ==> !keep(s[i])
    requires m < |s| ==> keep(s[m])
    ensures SubRuns(s, keep, repl) == [repl] + SubRuns(s[m..], keep, repl)
  {
    assert RunLength(s, c => !keep(c)) == m;
  }

  /** A leading run of class characters is copied as it is. */
  lemma {:induction false} SubRunsKeepRun(s: string, keep: char -> bool, repl: char, n: nat)
    requires n <= |s| && forall i :: 0 <= i < n ==> keep(s[i])
    ensures SubRuns(s, keep, repl) == s[..n] + SubRuns(s[n..], keep, repl)
  {
    if n > 0 {
      SubRunsKeepRun(s[1..], keep, repl, n - 1);
      SubRunsKeepHead(s, keep, repl);
      assert s[1..][n - 1..] == s[n..];
      assert [s[0]] + s[1..][..n - 1] == s[..n];
      ConcatAssoc([s[0]], s[1..][..n - 1], SubRuns(s[n..], keep, repl));
    }
  }

  /** A leading class character is copied. */
  lemma SubRunsKeepHead(s: string, keep: char -> bool, repl: char)
    requires |s| > 0 && keep(s[0])
    ensures SubRuns(s, keep, repl) == [s[0]] + SubRuns(s[1..], keep, repl)
  {
  }

  /** A leading run of characters outside the class holds no run. */
  lemma {:induction false} RunsSkip(s: string, p: char -> bool, n: nat)
    requires n <= |s| && forall i :: 0 <= i < n ==> !p(s[i])
    ensures Runs(s, p) == Runs(s[n..], p)
  {
    if n > 0 {
      RunsSkip(s[1..], p, n - 1);
      assert s[1..][n - 1..] == s[n..];
    }
  }

  /** A leading run of class characters, ended by the end of `s` or by a character outside the class, is the first run. */
  lemma RunsLeadingRun(s: string, p: char -> bool, n: nat)
    requires 0 < n <= |s| && forall i :: 0 <= i < n ==> p(s[i])
    requires n < |s| ==> !p(s[n])
    ensures Runs(s, p) == [s[..n]] + Runs(s[n..], p)
  {
    var k := RunLength(s, p);
    assert k == n;
  }

  /** A run of class characters followed by a character outside the class is the first run. */
  lemma RunsAfterRun(x: string, t: string, p: char -> bool)
    requires |x| > 0 && forall i :: 0 <= i < |x| ==> p(x[i])
    requires |t| > 0 ==> !p(t[0])
    ensures Runs(x + t, p) == [x] + Runs(t, p)
  {
    var s := x + t;
    RunsLeadingRun(s, p, |x|);
    assert s[..|x|] == x && s[|x|..] == t;
  }

  /** One step of `SubRunsRuns` at a leading run of class characters. */
  lemma SubRunsKeepStep(s: string, keep: char -> bool, repl: char, n: nat)
    requires !keep(repl) && 0 < n <= |s|
    requires forall i :: 0 <= i < n ==> keep(s[i])
    requires n < |s| ==> !keep(s[n])
    requires Runs(SubRuns(s[n..], keep, repl), keep) == Runs(s[n..], keep)
    ensures Runs(SubRuns(s, keep, repl), keep) == Runs(s, keep)
  {
    var t := SubRuns(s[n..], keep, repl);
    SubRunsKeepRun(s, keep, repl, n);
    if n < |s| {
      SubRunsEnds(s[n..], keep, repl);
    }
    RunsAfterRun(s[..n], t, keep);
    RunsLeadingRun(s, keep, n);
  }

  /** One step of `SubRunsRuns` at a leading run outside the class: it becomes one `repl`, which holds no run. */
  lemma SubRunsSkipStep(s: string, keep: char -> bool, repl: char, m: nat)
    requires !keep(repl) && 0 < m <= |s|
    requires forall i :: 0 <= i < m ==> !keep(s[i])
    requires m < |s| ==> keep(s[m])
    requires Runs(SubRuns(s[m..], keep, repl), keep) == Runs(s[m..], keep)
    ensures Runs(SubRuns(s, keep, repl), keep) == Runs(s, keep)
  {
    SubRunsSkipHead(s, keep, repl, m);
    assert SubRuns(s, keep, repl)[1..] == SubRuns(s[m..], keep, repl);
    RunsSkip(s, keep, m);
  }

  /**
   * With `repl` outside the class, the runs of class characters are the same before and
   * after: each replacement lands exactly where a run outside the class was.
   */
  lemma {:induction false} SubRunsRuns(s: string, keep: char -> bool, repl: char)
    requires !keep(repl)
    ensures Runs(SubRuns(s, keep, repl), keep) == Runs(s, keep)
    decreases |s|
  {
    if |s| > 0 {
      if keep(s[0]) {
        var n := RunLength(s, keep);
        SubRunsRuns(s[n..], keep, repl);
        SubRunsKeepStep(s, keep, repl, n);
      } else {
        var m := RunLength(s, c => !keep(c));
        SubRunsRuns(s[m..], keep, repl);
        SubRunsSkipStep(s, keep, repl, m);
      }
    }
  }

  /** A string already in that shape — class characters and single `repl`s — is left alone. */
  lemma {:induction false} SubRunsFixed(s: string, keep: char -> bool, repl: char)
    requires !keep(repl)
    requires forall i :: 0 <= i < |s| ==> keep(s[i]) || s[i] == repl
    requires forall i :: 0 <= i < |s| - 1 && s[i] == repl ==> keep(s[i + 1])
    ensures SubRuns(s, keep, repl) == s
    decreases |s|
  {
    if |s| > 0 {
      SubRunsFixed(s[1..], keep, repl);
      if !keep(s[0]) {
        assert RunLength(s, c => !keep(c)) == 1 by {
          if |s| > 1 {
            assert keep(s[1]);
          }
        }
      }
      assert [s[0]] + s[1..] == s;
    }
  }

  // ---------------------------------------------------------------- decimal text

  function DigitChar(d: nat): (c: char)
    requires d < 10
    ensures IsDigit(c) && c as int - '0' as int == d
  {
    ('0' as int + d) as char
  }

  /** Python's `str(n)` for a natural number: decimal digits, no leading zeros. */
  function DecimalText(n: nat): (r: string)
    ensures |r| > 0 && forall i :: 0 <= i < |r| ==> IsDigit(r[i])
    ensures r[0] == '0' <==> n == 0
  {
    if n < 10 then [DigitChar(n)] else DecimalText(n / 10) + [DigitChar(n % 10)]
  }

  /** Python's `str(i)` / `repr(i)` for any integer. */
  function IntText(i: int): (r: string)
    ensures |r| > 0 && (r[0] == '-' <==> i < 0)
    ensures i < 0 ==> |r| > 1 && forall k :: 1 <= k < |r| ==> IsDigit(r[k])
    ensures i >= 0 ==> forall k :: 0 <= k < |r| ==> IsDigit(r[k])
  {
    if i < 0 then "-" + DecimalText(-i) else DecimalText(i)
  }

  /** Python's `int(s)` on a non-empty run of ASCII digits. */
  function DigitsValue(s: string): nat
    requires forall i :: 0 <= i < |s| ==> IsDigit(s[i])
  {
    if |s| == 0 then 0
    else
      assert IsDigit(s[|s| - 1]);
      DigitsValue(s[..|s| - 1]) * 10 + (s[|s| - 1] as int - '0' as int)
  }

  /** `f"{n:06d}"`: the decimal text of `n`, left-padded with zeros to at least six characters. */
  function Pad6(n: nat): (r: string)
    ensures forall i :: 0 <= i < |r| ==> IsDigit(r[i])
  {
    var d := DecimalText(n);
    if |d| >= 6 then d else seq(6 - |d|, _ => '0') + d
  }

  lemma {:induction false} DecimalTextValue(n: nat)
    ensures DigitsValue(DecimalText(n)) == n
  {
    if n >= 10 {
      var s := DecimalText(n);
      assert s[..|s| - 1] == DecimalText(n / 10);
      DecimalTextValue(n / 10);
    }
  }

  /** `int(str(i)) == i`: the sign, then the digits' value. */
  lemma IntTextValue(i: int)
    ensures i < 0 ==> DigitsValue(IntText(i)[1..]) == -i
    ensures i >= 0 ==> DigitsValue(IntText(i)) == i
  {
    if i < 0 {
      assert IntText(i)[1..] == DecimalText(-i);
      DecimalTextValue(-i);
    } else {
      DecimalTextValue(i);
    }
  }

  lemma {:induction false} DecimalTextLongEnough(n: nat, k: nat)
    requires n >= Pow10(k)
    ensures |DecimalText(n)| > k
  {
    if k > 0 {
      DecimalTextLongEnough(n / 10, k - 1);
    }
  }

  lemma {:induction false} DecimalTextLength(n: nat, k: nat)
    requires n < Pow10(k) && k > 0
    ensures |DecimalText(n)| <= k
  {
    if n >= 10 {
      DecimalTextLength(n / 10, k - 1);
    }
  }

  function Pow10(k: nat): nat
  {
    if k == 0 then 1 else 10 * Pow10(k - 1)
  }

  lemma {:induction false} LeadingZerosValue(z: nat, s: string)
    requires forall i :: 0 <= i < |s| ==> IsDigit(s[i])
    ensures DigitsValue(seq(z, _ => '0') + s) == DigitsValue(s)
    decreases |s|
  {
    var t := seq(z, _ => '0') + s;
    if |s| == 0 {
      assert t == seq(z, _ => '0');
      ZerosValue(z);
    } else {
      assert t[..|t| - 1] == seq(z, _ => '0') + s[..|s| - 1];
      LeadingZerosValue(z, s[..|s| - 1]);
    }
  }

  lemma {:induction false} ZerosValue(z: nat)
    ensures DigitsValue(seq(z, _ => '0')) == 0
  {
    if z > 0 {
      assert seq(z, _ => '0')[..z - 1] == seq(z - 1, _ => '0');
      ZerosValue(z - 1);
    }
  }

  /** Six-digit zero padding round-trips through `int()`, and stays six characters below a million. */
  lemma Pad6Value(n: nat)
    ensures DigitsValue(Pad6(n)) == n
    ensures n < 1000000 ==> |Pad6(n)| == 6
    ensures n >= 1000000 ==> Pad6(n) == DecimalText(n)
  {
    var d := DecimalText(n);
    DecimalTextValue(n);
    if |d| < 6 {
      LeadingZerosValue(6 - |d|, d);
    }
    assert Pow10(6) == 1000000;
    if n < 1000000 {
      DecimalTextLength(n, 6);
    } else {
      DecimalTextLongEnough(n, 6);
    }
  }
}
