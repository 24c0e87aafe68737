// The few string operations the policy code relies on, and how they undo each other.
module Strings {
  import opened Common

  function Split(s: string, c: char): (parts: seq<string>)
    ensures parts != []
  {
    if s == "" then [""]
    else
      var rest := Split(s[1..], c);
      if s[0] == c then [""] + rest else [[s[0]] + rest[0]] + rest[1..]
  }

  function Join(parts: seq<string>, c: char): string
    requires parts != []
  {
    if |parts| == 1 then parts[0] else parts[0] + [c] + Join(parts[1..], c)
  }

  lemma {:induction false} JoinOfSplit(s: string, c: char)
    ensures Join(Split(s, c), c) == s
  {
    if s != "" {
      JoinOfSplit(s[1..], c);
      var rest := Split(s[1..], c);
      if s[0] == c {
        assert ([""] + rest)[1..] == rest;
        assert "" + [c] + s[1..] == s;
      } else {
        var parts := [[s[0]] + rest[0]] + rest[1..];
        assert parts[1..] == rest[1..];
        assert Join(parts, c) == [s[0]] + Join(rest, c);
      }
    }
  }

  // A part holds no separator.
  lemma {:induction false} SplitParts(s: string, c: char, part: string)
    requires part in Split(s, c)
    ensures c !in part
    ensures forall x :: x in part ==> x in s
  {
    if s != "" {
      var rest := Split(s[1..], c);
      if part in rest {
        SplitParts(s[1..], c, part);
      } else if s[0] != c {
        SplitParts(s[1..], c, rest[0]);
      }
    }
  }

  lemma {:induction false} SplitSingle(s: string, c: char)
    requires c !in s
    ensures Split(s, c) == [s]
  {
    if s != "" {
      SplitSingle(s[1..], c);
      assert [s[0]] + s[1..] == s;
    }
  }

  lemma {:induction false} SplitHead(p: string, c: char, s: string)
    requires c !in p
    ensures Split(p + [c] + s, c) == [p] + Split(s, c)
  {
    var t := p + [c] + s;
    if p == "" {
      assert t[1..] == s;
    } else {
      SplitHead(p[1..], c, s);
      assert t[1..] == p[1..] + [c] + s;
      assert [p[0]] + p[1..] == p;
    }
  }

  lemma {:induction false} SplitOfJoin(parts: seq<string>, c: char)
    requires parts != [] && forall p :: p in parts ==> c !in p
    ensures Split(Join(parts, c), c) == parts
    decreases |parts|
  {
    if |parts| == 1 {
      SplitSingle(parts[0], c);
    } else {
      SplitOfJoin(parts[1..], c);
      SplitHead(parts[0], c, Join(parts[1..], c));
    }
  }

  // `split_once`: before and after the first separator.
  function SplitOnce(s: string, c: char): Option<(string, string)> {
    if s == "" then None
    else if s[0] == c then Some(("", s[1..]))
    else match SplitOnce(s[1..], c)
      case None => None
      case Some(pair) => Some(([s[0]] + pair.0, pair.1))
  }

  lemma {:induction false} SplitOnceAt(p: string, c: char, s: string)
    requires c !in p
    ensures SplitOnce(p + [c] + s, c) == Some((p, s))
  {
    var t := p + [c] + s;
    if p == "" {
      assert t[1..] == s;
    } else {
      SplitOnceAt(p[1..], c, s);
      assert t[1..] == p[1..] + [c] + s;
      assert [p[0]] + p[1..] == p;
    }
  }

  lemma {:induction false} SplitOnceNone(s: string, c: char)
    ensures SplitOnce(s, c).None? <==> c !in s
    ensures match SplitOnce(s, c)
      case Some(pair) => s == pair.0 + [c] + pair.1 && c !in pair.0
      case None => true
  {
    if s != "" && s[0] != c {
      SplitOnceNone(s[1..], c);
    }
  }

  predicate StartsWith(s: string, prefix: string) {
    |prefix| <= |s| && s[..|prefix|] == prefix
  }

  function StripPrefix(s: string, prefix: string): Option<string> {
    if StartsWith(s, prefix) then Some(s[|prefix|..]) else None
  }

  lemma StripOwnPrefix(prefix: string, s: string)
    ensures StripPrefix(prefix + s, prefix) == Some(s)
  {
    assert (prefix + s)[..|prefix|] == prefix;
    assert (prefix + s)[|prefix|..] == s;
  }

  // ---------------------------------------------------------------- text lines

  // The text a printer writes for these lines.
  function Text(lines: seq<string>): string {
    if lines == [] then "" else lines[0] + "\n" + Text(lines[1..])
  }

  lemma {:induction false} TextConcat(a: seq<string>, b: seq<string>)
    ensures Text(a + b) == Text(a) + Text(b)
  {
    if a == [] {
      assert a + b == b;
    } else {
      TextConcat(a[1..], b);
      assert (a + b)[1..] == a[1..] + b;
    }
  }

  // Lines as Rust reads them: at '\n', with one '\r' before it dropped; an empty
  // last line does not count.
  function Lines(text: string): seq<string>
    decreases |text|
  {
    if text == "" then []
    else match SplitOnce(text, '\n')
      case None => [text]
      case Some(pair) =>
        SplitOnceNone(text, '\n');
        [DropReturn(pair.0)] + Lines(pair.1)
  }

  function DropReturn(line: string): string {
    if line != "" && line[|line| - 1] == '\r' then line[..|line| - 1] else line
  }

  // Characters at which Python's `splitlines` breaks a line.
  predicate Breaks(c: char) {
    c == '\n' || c == '\r' || c == '\U{0B}' || c == '\U{0C}' || c == '\U{1C}' || c == '\U{1D}' || c == '\U{1E}'
    || c == '\U{85}' || c == '\U{2028}' || c == '\U{2029}'
  }

  // Lines as Python's `splitlines` reads them; "\r\n" is one break.
  function SplitLines(text: string): seq<string>
    decreases |text|
  {
    var n := LineLength(text);
    if text == "" then []
    else if n == |text| then [text]
    else
      var skip := if text[n] == '\r' && n + 1 < |text| && text[n + 1] == '\n' then 2 else 1;
      [text[..n]] + SplitLines(text[n + skip..])
  }

  function LineLength(text: string): (n: nat)
    ensures n <= |text|
  {
    if text == "" || Breaks(text[0]) then 0 else 1 + LineLength(text[1..])
  }

  // Printable ASCII: what every line of a rendered policy consists of.
  predicate Plain(s: string) {
    forall c :: c in s ==> ' ' <= c <= '~'
  }

  lemma {:induction false} PlainLineLength(line: string, rest: string)
    requires Plain(line)
    ensures LineLength(line + "\n" + rest) == |line|
  {
    var t := line + "\n" + rest;
    if line != "" {
      assert line[0] in line;
      assert forall c :: c in line[1..] ==> c in line;
      assert t[1..] == line[1..] + "\n" + rest;
      PlainLineLength(line[1..], rest);
    }
  }

  // Both readers see exactly the lines that were printed.
  lemma {:induction false} LinesOfText(lines: seq<string>)
    requires forall l :: l in lines ==> Plain(l)
    ensures Lines(Text(lines)) == lines && SplitLines(Text(lines)) == lines
  {
    if lines != [] {
      var line, rest := lines[0], Text(lines[1..]);
      assert line in lines;
      LinesOfText(lines[1..]);
      var text := line + "\n" + rest;
      assert text == line + ['\n'] + rest;
      assert '\n' !in line;
      SplitOnceAt(line, '\n', rest);
      PlainLineLength(line, rest);
      assert text[..|line|] == line && text[|line| + 1..] == rest;
      assert line != "" ==> line[|line| - 1] in line;
    }
  }

  // ----------------------------------------------------------------- trimming

  function TrimEnd(s: string, c: char): string {
    if s != "" && s[|s| - 1] == c then TrimEnd(s[..|s| - 1], c) else s
  }

  function Repeat(c: char, n: nat): (s: string)
    ensures |s| == n && forall i :: 0 <= i < n ==> s[i] == c
  {
    if n == 0 then "" else Repeat(c, n - 1) + [c]
  }

  lemma {:induction false} TrimEndRepeat(s: string, c: char, n: nat)
    ensures TrimEnd(s + Repeat(c, n), c) == TrimEnd(s, c)
  {
    if n == 0 {
      assert s + "" == s;
    } else {
      var t := s + Repeat(c, n);
      assert t[..|t| - 1] == s + Repeat(c, n - 1);
      TrimEndRepeat(s, c, n - 1);
    }
  }

  // White space as Unicode lists it.
  predicate IsSpace(c: char) {
    c == ' ' || '\t' <= c <= '\r' || c == '\U{85}' || c == '\U{A0}' || c == '\U{1680}'
    || '\U{2000}' <= c <= '\U{200A}' || c == '\U{2028}' || c == '\U{2029}' || c == '\U{202F}'
    || c == '\U{205F}' || c == '\U{3000}'
  }

  // `trim` on both sides.
  function Trim(s: string): string
    decreases |s|
  {
    if s != "" && IsSpace(s[0]) then Trim(s[1..])
    else if s != "" && IsSpace(s[|s| - 1]) then Trim(s[..|s| - 1])
    else s
  }

  lemma TrimNothing(s: string)
    requires forall c :: c in s ==> !IsSpace(c)
    ensures Trim(s) == s
  {
    if s != "" {
      assert s[0] in s && s[|s| - 1] in s;
    }
  }
}
