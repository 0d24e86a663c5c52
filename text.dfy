/** The JavaScript string operations the pages rely on: `trim`,
    `startsWith`, `includes`, `toLowerCase` and `split` on one character. */
module Text {

  /** `String.prototype.trim` strips the ECMAScript WhiteSpace and
      LineTerminator characters: tab, line tab, form feed, space, no-break
      space, byte order mark, the other space separators (category Zs),
      line feed, carriage return, line and paragraph separators. */
  predicate IsWhitespace(c: char)
  {
    || c == '\t' || c == '\U{B}' || c == '\U{C}' || c == ' '
    || c == '\U{A0}' || c == '\U{FEFF}' || c == '\U{1680}'
    || ('\U{2000}' <= c <= '\U{200A}') || c == '\U{202F}' || c == '\U{205F}' || c == '\U{3000}'
    || c == '\n' || c == '\r' || c == '\U{2028}' || c == '\U{2029}'
  }

  predicate AllWhitespace(s: string)
  {
    forall k :: 0 <= k < |s| ==> IsWhitespace(s[k])
  }

  /** How many whitespace characters `s` starts with. */
  function LeadCount(s: string): (n: nat)
    ensures n <= |s|
  {
    if s != [] && IsWhitespace(s[0]) then 1 + LeadCount(s[1..]) else 0
  }

  /** How many whitespace characters `s` ends with. */
  function TrailCount(s: string): (n: nat)
    ensures n <= |s|
  {
    if s != [] && IsWhitespace(s[|s| - 1]) then 1 + TrailCount(s[..|s| - 1]) else 0
  }

  /** The leading run is all whitespace and stops at a character that is not. */
  lemma {:induction false} LeadCountStops(s: string)
    ensures AllWhitespace(s[..LeadCount(s)])
    ensures LeadCount(s) < |s| ==> !IsWhitespace(s[LeadCount(s)])
  {
    if s != [] && IsWhitespace(s[0]) {
      var rest := s[1..];
      LeadCountStops(rest);
      assert s[..LeadCount(s)] == [s[0]] + rest[..LeadCount(rest)];
      if LeadCount(s) < |s| {
        assert s[LeadCount(s)] == rest[LeadCount(rest)];
      }
    }
  }

  /** The trailing run is all whitespace and stops at a character that is not. */
  lemma {:induction false} TrailCountStops(s: string)
    ensures AllWhitespace(s[|s| - TrailCount(s)..])
    ensures TrailCount(s) < |s| ==> !IsWhitespace(s[|s| - TrailCount(s) - 1])
  {
    if s != [] && IsWhitespace(s[|s| - 1]) {
      var init := s[..|s| - 1];
      TrailCountStops(init);
      assert s[|s| - TrailCount(s)..] == init[|init| - TrailCount(init)..] + [s[|s| - 1]];
      if TrailCount(s) < |s| {
        assert s[|s| - TrailCount(s) - 1] == init[|init| - TrailCount(init) - 1];
      }
    }
  }

  /** `trimStart`: drops the leading whitespace. */
  function TrimStart(s: string): string
  {
    s[LeadCount(s)..]
  }

  /** `trimEnd`: drops the trailing whitespace. */
  function TrimEnd(s: string): string
  {
    s[..|s| - TrailCount(s)]
  }

  /** `trim`. */
  function Trim(s: string): string
  {
    TrimEnd(TrimStart(s))
  }

  /** `trim` keeps a contiguous slice of its input, and neither end of
      that slice is whitespace. */
  lemma TrimSlice(s: string)
    ensures var lead := LeadCount(s);
      && lead + |Trim(s)| <= |s|
      && Trim(s) == s[lead..lead + |Trim(s)|]
    ensures Trim(s) != [] ==> !IsWhitespace(Trim(s)[0]) && !IsWhitespace(Trim(s)[|Trim(s)| - 1])
  {
    var lead := LeadCount(s);
    var t := TrimStart(s);
    var r := Trim(s);
    LeadCountStops(s);
    TrailCountStops(t);
    if r != [] {
      assert r[0] == s[lead];
      assert r[|r| - 1] == t[|t| - TrailCount(t) - 1];
    }
  }

  /** What `trim` strips on either side of that slice is whitespace. */
  lemma TrimStripsWhitespace(s: string)
    ensures var lead := LeadCount(s);
      && AllWhitespace(s[..lead])
      && (lead + |Trim(s)| <= |s| ==> AllWhitespace(s[lead + |Trim(s)|..]))
  {
    var lead := LeadCount(s);
    var t := TrimStart(s);
    LeadCountStops(s);
    TrailCountStops(t);
    assert s[lead + |Trim(s)|..] == t[|t| - TrailCount(t)..];
  }

  /** Trimming the end never empties a string whose first character is
      not whitespace. */
  lemma {:induction false} TrailCountKeepsFirst(t: string)
    requires t != [] && !IsWhitespace(t[0])
    ensures TrailCount(t) < |t|
  {
    if IsWhitespace(t[|t| - 1]) {
      TrailCountKeepsFirst(t[..|t| - 1]);
    }
  }

  /** A string trims to nothing exactly when it is all whitespace. */
  lemma TrimEmptyIff(s: string)
    ensures Trim(s) == [] <==> AllWhitespace(s)
  {
    var lead := LeadCount(s);
    LeadCountStops(s);
    if lead == |s| {
      assert s[..lead] == s;
    } else {
      TrailCountKeepsFirst(TrimStart(s));
    }
  }

  /** Trimming twice is the same as trimming once. */
  lemma TrimIdempotent(s: string)
    ensures Trim(Trim(s)) == Trim(s)
  {
    var r := Trim(s);
    TrimSlice(s);
    if r != [] {
      assert LeadCount(r) == 0;
      assert TrimStart(r) == r;
      assert TrailCount(r) == 0;
      assert TrimEnd(r) == r;
    }
  }

  /** `s.startsWith(p)`. */
  predicate StartsWith(s: string, p: string)
  {
    p <= s
  }

  /** `s.includes(t)`: `t` occurs somewhere in `s` as a contiguous slice. */
  predicate Contains(s: string, t: string)
    decreases |s|
  {
    t <= s || (s != [] && Contains(s[1..], t))
  }

  /** `includes` holds exactly when some position of `s` starts a copy of `t`. */
  lemma {:induction false} ContainsIff(s: string, t: string)
    ensures Contains(s, t) <==> exists i :: 0 <= i <= |s| - |t| && t <= s[i..]
    decreases |s|
  {
    if t <= s {
      assert t <= s[0..];
    } else if s == [] {
    } else {
      ContainsIff(s[1..], t);
      if Contains(s[1..], t) {
        var i :| 0 <= i <= |s[1..]| - |t| && t <= s[1..][i..];
        assert s[1..][i..] == s[i + 1..];
      }
      if exists i :: 0 <= i <= |s| - |t| && t <= s[i..] {
        var i :| 0 <= i <= |s| - |t| && t <= s[i..];
        assert i != 0 by { assert s[0..] == s; }
        assert s[1..][i - 1..] == s[i..];
      }
    }
  }

  /** Lower-cases the ASCII letters A-Z, leaving every other character. */
  function LowerChar(c: char): (d: char)
    ensures 'A' <= c <= 'Z' ==> d as int == c as int + 32
    ensures !('A' <= c <= 'Z') ==> d == c
  {
    if 'A' <= c <= 'Z' then (c as int + 32) as char else c
  }

  /** `s.toLowerCase()`, restricted to the ASCII letters. */
  function ToLower(s: string): (r: string)
    ensures |r| == |s|
    ensures forall k :: 0 <= k < |s| ==> r[k] == LowerChar(s[k])
  {
    seq(|s|, k requires 0 <= k < |s| => LowerChar(s[k]))
  }

  /** Lower-casing leaves no upper-case ASCII letter, so doing it again
      changes nothing. */
  lemma ToLowerIdempotent(s: string)
    ensures ToLower(ToLower(s)) == ToLower(s)
  {
  }

  /** `s.split(sep)` for a one-character separator: the pieces between the
      separators, always at least one. */
  function Split(s: string, sep: char): (parts: seq<string>)
    ensures |parts| >= 1
    ensures forall k :: 0 <= k < |parts| ==> sep !in parts[k]
  {
    if s == [] then [[]]
    else
      var rest := Split(s[1..], sep);
      if s[0] == sep then [[]] + rest
      else [[s[0]] + rest[0]] + rest[1..]
  }

  /** Joins pieces with the separator between them. */
  function Join(parts: seq<string>, sep: char): string
    requires |parts| >= 1
  {
    if |parts| == 1 then parts[0] else parts[0] + [sep] + Join(parts[1..], sep)
  }

  /** Splitting loses nothing: joining the pieces gives back the string. */
  lemma {:induction false} JoinSplit(s: string, sep: char)
    ensures Join(Split(s, sep), sep) == s
  {
    if s != [] {
      JoinSplit(s[1..], sep);
      var rest := Split(s[1..], sep);
      if s[0] == sep {
        assert Split(s, sep)[1..] == rest;
      } else {
        var parts := Split(s, sep);
        if |rest| == 1 {
          assert parts == [[s[0]] + rest[0]];
        } else {
          assert parts[1..] == rest[1..];
          assert Join(rest, sep) == rest[0] + [sep] + Join(rest[1..], sep);
        }
      }
    }
  }

  /** A string without the separator splits into itself alone. */
  lemma {:induction false} SplitNoSeparator(s: string, sep: char)
    requires sep !in s
    ensures Split(s, sep) == [s]
  {
    if s != [] {
      SplitNoSeparator(s[1..], sep);
      assert [s[0]] + s[1..] == s;
    }
  }

  /** Splitting `a + sep + b` where `a` has no separator yields `a` first,
      then the pieces of `b`. */
  lemma {:induction false} SplitAfterFirst(a: string, b: string, sep: char)
    requires sep !in a
    ensures Split(a + [sep] + b, sep) == [a] + Split(b, sep)
  {
    if a == [] {
      assert a + [sep] + b == [sep] + b;
      assert ([sep] + b)[1..] == b;
    } else {
      var s := a + [sep] + b;
      assert s[1..] == a[1..] + [sep] + b;
      SplitAfterFirst(a[1..], b, sep);
      assert [a[0]] + a[1..] == a;
    }
  }

  /** The part of `s` before the first `sep` (`s.split(sep)[0]`). */
  function BeforeFirst(s: string, sep: char): (r: string)
    ensures sep !in r
  {
    Split(s, sep)[0]
  }

  /** `BeforeFirst` cuts at the first separator exactly: it returns `a` for
      `a + sep + b` whenever `a` holds no separator. */
  lemma BeforeFirstCut(a: string, b: string, sep: char)
    requires sep !in a
    ensures BeforeFirst(a + [sep] + b, sep) == a
  {
    SplitAfterFirst(a, b, sep);
  }
}
