/** The handful of Python string operations the stream manager relies on:
    `str.strip`, `str.lower`, `in` on strings, `str.split`, a join with a
    separator (what the writer's f-string spells out field by field),
    `readlines` and the decimal rendering of an `int` in an f-string. */
module Text {

  /** Python's `str.isspace`: the code points `str.strip()` removes. */
  predicate IsWhitespace(c: char)
  {
    || c == ' ' || c == '\t' || c == '\n' || c == '\r'
    || c == '\U{0B}' || c == '\U{0C}'
    || ('\U{1C}' <= c <= '\U{1F}')
    || c == '\U{85}' || c == '\U{A0}' || c == '\U{1680}'
    || ('\U{2000}' <= c <= '\U{200A}')
    || c == '\U{2028}' || c == '\U{2029}' || c == '\U{202F}' || c == '\U{205F}'
    || c == '\U{3000}'
  }

  /** A string that holds nothing but whitespace (the empty string included). */
  predicate IsBlank(s: string)
  {
    forall i | 0 <= i < |s| :: IsWhitespace(s[i])
  }

  /** Drops the leading characters `ws` holds. */
  function TrimLeft(s: string, ws: char -> bool): string
    decreases |s|
  {
    if |s| > 0 && ws(s[0]) then TrimLeft(s[1..], ws) else s
  }

  /** Drops the trailing characters `ws` holds. */
  function TrimRight(s: string, ws: char -> bool): string
    decreases |s|
  {
    if |s| > 0 && ws(s[|s| - 1]) then TrimRight(s[..|s| - 1], ws) else s
  }

  /** What `TrimLeft` leaves is a suffix of the input, everything it cut off
      is in `ws`, and it starts with a character outside `ws`. */
  lemma {:induction false} TrimLeftIsSuffix(s: string, ws: char -> bool)
    ensures var r := TrimLeft(s, ws);
      && |r| <= |s| && r == s[|s| - |r|..]
      && (forall i | 0 <= i < |s| - |r| :: ws(s[i]))
      && (r != "" ==> !ws(r[0]))
    decreases |s|
  {
    if |s| > 0 && ws(s[0]) {
      TrimLeftIsSuffix(s[1..], ws);
      var r := TrimLeft(s[1..], ws);
      forall i | 1 <= i < |s| - |r|
        ensures ws(s[i])
      {
        assert s[i] == s[1..][i - 1];
      }
    }
  }

  /** What `TrimRight` leaves is a prefix of the input, everything it cut off
      is in `ws`, and it ends with a character outside `ws`. */
  lemma {:induction false} TrimRightIsPrefix(s: string, ws: char -> bool)
    ensures var r := TrimRight(s, ws);
      && |r| <= |s| && r == s[..|r|]
      && (forall i | |r| <= i < |s| :: ws(s[i]))
      && (r != "" ==> !ws(r[|r| - 1]))
    decreases |s|
  {
    if |s| > 0 && ws(s[|s| - 1]) {
      TrimRightIsPrefix(s[..|s| - 1], ws);
      var r := TrimRight(s[..|s| - 1], ws);
      forall i | |r| <= i < |s| - 1
        ensures ws(s[i])
      {
        assert s[i] == s[..|s| - 1][i];
      }
    }
  }

  /** Python's `str.strip()` with no argument. */
  function Strip(s: string): string
  {
    TrimRight(TrimLeft(s, IsWhitespace), IsWhitespace)
  }

  /** `not s.strip()` holds exactly of the blank strings. */
  lemma StripEmptyIffBlank(s: string)
    ensures Strip(s) == "" <==> IsBlank(s)
  {
    var t := TrimLeft(s, IsWhitespace);
    TrimLeftIsSuffix(s, IsWhitespace);
    TrimRightIsPrefix(t, IsWhitespace);
    if t == "" {
      assert forall i | 0 <= i < |s| :: IsWhitespace(s[i]);
    } else {
      assert !IsWhitespace(t[0]) && t[0] == s[|s| - |t|];
      var r := TrimRight(t, IsWhitespace);
      assert IsWhitespace(t[0]) || |r| > 0;
    }
  }

  /** `str.lower()` on the ASCII letters. */
  function LowerChar(c: char): char
  {
    if 'A' <= c <= 'Z' then (c as int + 32) as char else c
  }

  function Lower(s: string): string
  {
    seq(|s|, i requires 0 <= i < |s| => LowerChar(s[i]))
  }

  predicate StartsWith(s: string, prefix: string)
  {
    |prefix| <= |s| && s[..|prefix|] == prefix
  }

  /** Python's `sub in s` on strings, written as a scan from the left. */
  function Contains(s: string, sub: string): bool
    decreases |s|
  {
    StartsWith(s, sub) || (|s| > 0 && Contains(s[1..], sub))
  }

  /** `sub` occurs in `s` starting at position `i`. */
  ghost predicate OccursAt(s: string, sub: string, i: int)
  {
    0 <= i <= |s| - |sub| && s[i..i + |sub|] == sub
  }

  /** The scan finds `sub` exactly when `sub` occurs at some position of `s`. */
  lemma ContainsIffOccurs(s: string, sub: string)
    ensures Contains(s, sub) <==> exists i :: OccursAt(s, sub, i)
  {
    if Contains(s, sub) {
      var i := ContainsWitness(s, sub);
    } else {
      forall i | OccursAt(s, sub, i)
        ensures false
      {
        OccursContains(s, sub, i);
      }
    }
  }

  /** A position where the scan succeeds. */
  lemma {:induction false} ContainsWitness(s: string, sub: string) returns (i: int)
    requires Contains(s, sub)
    ensures OccursAt(s, sub, i)
    decreases |s|
  {
    if StartsWith(s, sub) {
      i := 0;
      assert s[0..0 + |sub|] == s[..|sub|];
    } else {
      var j := ContainsWitness(s[1..], sub);
      assert s[j + 1..j + 1 + |sub|] == s[1..][j..j + |sub|];
      i := j + 1;
    }
  }

  /** An occurrence is found by the scan. */
  lemma {:induction false} OccursContains(s: string, sub: string, i: int)
    requires OccursAt(s, sub, i)
    ensures Contains(s, sub)
    decreases i
  {
    if i == 0 {
      assert s[..|sub|] == s[0..0 + |sub|];
    } else {
      assert s[1..][i - 1..i - 1 + |sub|] == s[i..i + |sub|];
      OccursContains(s[1..], sub, i - 1);
    }
  }

  /** A string that contains `sub` contains every character of `sub`. */
  lemma ContainsHasChars(s: string, sub: string, c: char)
    requires Contains(s, sub) && c in sub
    ensures c in s
  {
    ContainsIffOccurs(s, sub);
    var i :| OccursAt(s, sub, i);
    var k :| 0 <= k < |sub| && sub[k] == c;
    assert s[i..i + |sub|][k] == c;
  }

  /** The position of the first `c` in `s`. */
  function IndexOf(s: string, c: char): (i: nat)
    requires c in s
    ensures i < |s| && s[i] == c && c !in s[..i]
    ensures forall k | 0 <= k < i :: s[k] != c
  {
    if s[0] == c then 0
    else
      var j := IndexOf(s[1..], c);
      assert s[..j + 1] == [s[0]] + s[1..][..j];
      j + 1
  }

  /** The first `c` is the one with no `c` before it. */
  lemma IndexOfIsFirst(s: string, c: char, j: nat)
    requires j < |s| && s[j] == c
    requires forall k | 0 <= k < j :: s[k] != c
    ensures c in s && IndexOf(s, c) == j
  {
    assert s[j] in s;
  }

  /** Python's `s.split(c)` for a one-character separator: the pieces between
      the separators, always at least one. */
  function Split(s: string, c: char): (parts: seq<string>)
    ensures |parts| >= 1
    ensures forall k | 0 <= k < |parts| :: c !in parts[k]
    decreases |s|
  {
    if c !in s then [s]
    else
      var i := IndexOf(s, c);
      [s[..i]] + Split(s[i + 1..], c)
  }

  /** Python's `c.join(parts)`. */
  function Join(parts: seq<string>, c: char): string
  {
    if |parts| == 0 then ""
    else if |parts| == 1 then parts[0]
    else parts[0] + [c] + Join(parts[1..], c)
  }

  /** Splitting at the first separator. */
  lemma SplitAtFirst(a: string, c: char, b: string)
    requires c !in a
    ensures Split(a + [c] + b, c) == [a] + Split(b, c)
  {
    var s := a + [c] + b;
    forall k | 0 <= k < |a|
      ensures s[k] != c
    {
      assert s[k] == a[k];
    }
    IndexOfIsFirst(s, c, |a|);
    var i := IndexOf(s, c);
    assert s[..i] == a;
    assert s[i + 1..] == b;
  }

  /** Joining the pieces of a split gives the string back. */
  lemma {:induction false} JoinSplit(s: string, c: char)
    ensures Join(Split(s, c), c) == s
    decreases |s|
  {
    if c in s {
      var i := IndexOf(s, c);
      var rest := s[i + 1..];
      JoinSplit(rest, c);
      var parts := Split(s, c);
      assert parts[0] == s[..i];
      assert parts[1..] == Split(rest, c);
      assert Join(parts, c) == s[..i] + [c] + Join(Split(rest, c), c);
      assert s == s[..i] + [c] + rest;
    }
  }

  /** Splitting a join gives the pieces back when no piece holds the separator. */
  lemma {:induction false} SplitJoin(parts: seq<string>, c: char)
    requires |parts| >= 1
    requires forall k | 0 <= k < |parts| :: c !in parts[k]
    ensures Split(Join(parts, c), c) == parts
  {
    if |parts| > 1 {
      var tail := parts[1..];
      forall k | 0 <= k < |tail|
        ensures c !in tail[k]
      {
        assert tail[k] == parts[k + 1];
      }
      SplitJoin(tail, c);
      assert Join(parts, c) == parts[0] + [c] + Join(tail, c);
      SplitAtFirst(parts[0], c, Join(tail, c));
      assert parts == [parts[0]] + tail;
    }
  }

  /** One line as `readlines` returns it: exactly one newline, at its end. */
  predicate IsLine(l: string)
  {
    |l| >= 1 && l[|l| - 1] == '\n' && '\n' !in l[..|l| - 1]
  }

  /** Python's `f.readlines()` on a file opened in text mode, after newline
      translation: the text cut after each `\n`, the last piece kept even
      when no newline ends it. */
  function ReadLines(text: string): (lines: seq<string>)
    decreases |text|
  {
    if text == "" then []
    else if '\n' !in text then [text]
    else
      var i := IndexOf(text, '\n');
      [text[..i + 1]] + ReadLines(text[i + 1..])
  }

  /** The text of a file written line by line. */
  function Concat(lines: seq<string>): string
  {
    if |lines| == 0 then "" else lines[0] + Concat(lines[1..])
  }

  /** Writing lines and reading them back loses nothing ... */
  lemma {:induction false} ReadLinesConcat(lines: seq<string>)
    requires forall k | 0 <= k < |lines| :: IsLine(lines[k])
    ensures ReadLines(Concat(lines)) == lines
  {
    if |lines| > 0 {
      var tail := lines[1..];
      forall k | 0 <= k < |tail|
        ensures IsLine(tail[k])
      {
        assert tail[k] == lines[k + 1];
      }
      ReadLinesConcat(tail);
      assert Concat(lines) == lines[0] + Concat(tail);
      ReadLinesCons(lines[0], Concat(tail));
      assert lines == [lines[0]] + tail;
    }
  }

  /** A line followed by more text is read as that line, then the rest. */
  lemma ReadLinesCons(l: string, rest: string)
    requires IsLine(l)
    ensures ReadLines(l + rest) == [l] + ReadLines(rest)
  {
    var t := l + rest;
    var j := |l| - 1;
    FirstNewline(l, rest);
    assert t[..j + 1] == l;
    assert t[j + 1..] == rest;
  }

  /** The first newline of a line followed by anything is the line's last
      character. */
  lemma FirstNewline(l: string, rest: string)
    requires IsLine(l)
    ensures '\n' in l + rest && IndexOf(l + rest, '\n') == |l| - 1
  {
    var t := l + rest;
    var j := |l| - 1;
    forall k | 0 <= k < j
      ensures t[k] != '\n'
    {
      assert t[k] == l[..j][k];
    }
    IndexOfIsFirst(t, '\n', j);
  }

  /** ... and reading a text and writing its lines gives the text back. */
  lemma {:induction false} ConcatReadLines(text: string)
    ensures Concat(ReadLines(text)) == text
    decreases |text|
  {
    if text != "" && '\n' in text {
      var i := IndexOf(text, '\n');
      ConcatReadLines(text[i + 1..]);
      assert text == text[..i + 1] + text[i + 1..];
    }
  }

  /** The newline translation of a file opened for reading in text mode:
      `\r\n` and a lone `\r` both become `\n`. */
  function UniversalNewlines(text: string): string
    decreases |text|
  {
    if |text| == 0 then []
    else if text[0] == '\r' then
      var rest := if |text| > 1 && text[1] == '\n' then text[2..] else text[1..];
      ['\n'] + UniversalNewlines(rest)
    else [text[0]] + UniversalNewlines(text[1..])
  }

  /** No carriage return survives the translation. */
  lemma {:induction false} UniversalNewlinesDropsCr(text: string)
    ensures '\r' !in UniversalNewlines(text)
    decreases |text|
  {
    if text != "" {
      var k := if text[0] == '\r' && |text| > 1 && text[1] == '\n' then 2 else 1;
      UniversalNewlinesDropsCr(text[k..]);
      var head := if text[0] == '\r' then ['\n'] else [text[0]];
      assert UniversalNewlines(text) == head + UniversalNewlines(text[k..]);
    }
  }

  /** Two texts translate separately unless the first ends in `\r` and the
      second starts with `\n`, the one pair the translation joins. */
  lemma {:induction false} UniversalNewlinesConcat(a: string, c: string)
    requires a == "" || c == "" || a[|a| - 1] != '\r' || c[0] != '\n'
    ensures UniversalNewlines(a + c) == UniversalNewlines(a) + UniversalNewlines(c)
    decreases |a|
  {
    if a == "" {
      assert a + c == c;
    } else if a[0] == '\r' && |a| > 1 && a[1] == '\n' {
      UniversalNewlinesConcat(a[2..], c);
      CrLfStep(a);
      FrontCrLf(a, c);
      Reassociate(UniversalNewlines(a + c), ['\n'], UniversalNewlines(a[2..]), UniversalNewlines(c), UniversalNewlines(a));
    } else if a[0] == '\r' {
      UniversalNewlinesConcat(a[1..], c);
      LoneCrStep(a);
      FrontCr(a, c);
      Reassociate(UniversalNewlines(a + c), ['\n'], UniversalNewlines(a[1..]), UniversalNewlines(c), UniversalNewlines(a));
    } else {
      UniversalNewlinesConcat(a[1..], c);
      PlainStep(a);
      FrontPlain(a, c);
      Reassociate(UniversalNewlines(a + c), [a[0]], UniversalNewlines(a[1..]), UniversalNewlines(c), UniversalNewlines(a));
    }
  }

  /** The sequence algebra that closes each step of `UniversalNewlinesConcat`. */
  lemma Reassociate(whole: string, head: string, x: string, y: string, first: string)
    requires whole == head + (x + y) && first == head + x
    ensures whole == first + y
  {
  }

  /** Reading a `\r\n` pair at the front yields one `\n`. */
  lemma CrLfStep(t: string)
    requires |t| > 1 && t[0] == '\r' && t[1] == '\n'
    ensures UniversalNewlines(t) == ['\n'] + UniversalNewlines(t[2..])
  {
  }

  /** Reading a lone `\r` at the front yields one `\n`. */
  lemma LoneCrStep(t: string)
    requires t != "" && t[0] == '\r' && (|t| == 1 || t[1] != '\n')
    ensures UniversalNewlines(t) == ['\n'] + UniversalNewlines(t[1..])
  {
  }

  /** Any other first character is read as itself. */
  lemma PlainStep(t: string)
    requires t != "" && t[0] != '\r'
    ensures UniversalNewlines(t) == [t[0]] + UniversalNewlines(t[1..])
  {
  }

  /** A `\r\n` at the front of `a` is read the same way in `a + c`. */
  lemma FrontCrLf(a: string, c: string)
    requires |a| > 1 && a[0] == '\r' && a[1] == '\n'
    ensures UniversalNewlines(a + c) == ['\n'] + UniversalNewlines(a[2..] + c)
  {
    var t := a + c;
    assert t[0] == '\r' && t[1] == '\n';
    assert t[2..] == a[2..] + c;
    CrLfStep(t);
  }

  /** A lone `\r` at the front of `a` stays lone in `a + c`, unless `a` is
      that `\r` alone and `c` starts with `\n`. */
  lemma FrontCr(a: string, c: string)
    requires a != "" && a[0] == '\r' && (|a| == 1 || a[1] != '\n')
    requires |a| > 1 || c == "" || c[0] != '\n'
    ensures UniversalNewlines(a + c) == ['\n'] + UniversalNewlines(a[1..] + c)
  {
    var t := a + c;
    assert t[0] == '\r';
    assert t[1..] == a[1..] + c;
    assert |t| == 1 || t[1] != '\n' by {
      if |a| > 1 {
        assert t[1] == a[1];
      } else if |t| > 1 {
        assert t[1] == c[0];
      }
    }
    LoneCrStep(t);
  }

  /** Any other first character of `a` is read as itself in `a + c`. */
  lemma FrontPlain(a: string, c: string)
    requires a != "" && a[0] != '\r'
    ensures UniversalNewlines(a + c) == [a[0]] + UniversalNewlines(a[1..] + c)
  {
    var t := a + c;
    assert t[0] == a[0];
    assert t[1..] == a[1..] + c;
    PlainStep(t);
  }

  /** A `\r\n` pair anywhere in the text reads as one `\n` ... */
  lemma CrLfReadsAsNewline(a: string, b: string)
    ensures UniversalNewlines(a + "\r\n" + b) == UniversalNewlines(a) + "\n" + UniversalNewlines(b)
  {
    var c := "\r\n" + b;
    assert a + "\r\n" + b == a + c;
    UniversalNewlinesConcat(a, c);
    assert c[2..] == b;
    CrLfStep(c);
  }

  /** ... and so does a `\r` that no `\n` follows. */
  lemma LoneCrReadsAsNewline(a: string, b: string)
    requires b == "" || b[0] != '\n'
    ensures UniversalNewlines(a + "\r" + b) == UniversalNewlines(a) + "\n" + UniversalNewlines(b)
  {
    var c := "\r" + b;
    assert a + "\r" + b == a + c;
    UniversalNewlinesConcat(a, c);
    assert c[1..] == b;
    assert |c| == 1 || c[1] == b[0];
    LoneCrStep(c);
  }

  /** A text with no carriage return reads back unchanged. */
  lemma {:induction false} UniversalNewlinesKeeps(text: string)
    requires '\r' !in text
    ensures UniversalNewlines(text) == text
    decreases |text|
  {
    if text != "" {
      assert text[0] != '\r';
      assert '\r' !in text[1..] by {
        forall i | 0 <= i < |text[1..]|
          ensures text[1..][i] != '\r'
        {
          assert text[1..][i] == text[i + 1];
        }
      }
      UniversalNewlinesKeeps(text[1..]);
      assert text == [text[0]] + text[1..];
    }
  }

  /** The translation of a text-mode write: every `\n` is written as
      `newline`, the platform's line separator (`\r\n` on Windows, `\n`
      elsewhere). */
  function WriteNewlines(text: string, newline: string): string
    decreases |text|
  {
    if |text| == 0 then []
    else (if text[0] == '\n' then newline else [text[0]]) + WriteNewlines(text[1..], newline)
  }

  /** Text without a carriage return, written in text mode on either kind of
      platform and read back in text mode, is the text itself. */
  lemma {:induction false} WrittenNewlinesReadBack(text: string, newline: string)
    requires newline == "\n" || newline == "\r\n"
    requires '\r' !in text
    ensures UniversalNewlines(WriteNewlines(text, newline)) == text
    decreases |text|
  {
    if text != "" {
      assert '\r' !in text[1..] by {
        forall i | 0 <= i < |text[1..]|
          ensures text[1..][i] != '\r'
        {
          assert text[1..][i] == text[i + 1];
        }
      }
      WrittenNewlinesReadBack(text[1..], newline);
      var rest := WriteNewlines(text[1..], newline);
      var t := WriteNewlines(text, newline);
      if text[0] == '\n' && newline == "\r\n" {
        assert t == "\r\n" + rest;
        assert t[2..] == rest;
        CrLfStep(t);
      } else {
        assert t == [text[0]] + rest;
        assert t[1..] == rest;
        PlainStep(t);
      }
      assert text == [text[0]] + text[1..];
    }
  }

  /** A character in none of the lines is not in their concatenation. */
  lemma {:induction false} ConcatExcludes(lines: seq<string>, c: char)
    requires forall k | 0 <= k < |lines| :: c !in lines[k]
    ensures c !in Concat(lines)
  {
    if |lines| > 0 {
      var tail := lines[1..];
      forall k | 0 <= k < |tail|
        ensures c !in tail[k]
      {
        assert tail[k] == lines[k + 1];
      }
      ConcatExcludes(tail, c);
    }
  }

  predicate IsDigit(c: char)
  {
    '0' <= c <= '9'
  }

  /** The number a string of decimal digits denotes. */
  function DigitsValue(d: string): nat
    requires forall i | 0 <= i < |d| :: IsDigit(d[i])
  {
    if |d| == 0 then 0
    else
      assert IsDigit(d[|d| - 1]);
      DigitsValue(d[..|d| - 1]) * 10 + (d[|d| - 1] as int - '0' as int)
  }

  /** The decimal digits of `n`, as an f-string renders an `int`: they denote
      `n`, with no leading zero. */
  function Decimal(n: nat): (r: string)
    ensures |r| >= 1
    ensures forall i | 0 <= i < |r| :: IsDigit(r[i])
    ensures DigitsValue(r) == n
    ensures r[0] == '0' ==> r == "0"
  {
    if n < 10 then ["0123456789"[n]]
    else
      var init := Decimal(n / 10);
      var r := init + ["0123456789"[n % 10]];
      assert r[..|r| - 1] == init;
      r
  }
}
