/** The JavaScript string operations the core relies on, over `seq<char>`.
    A Dafny `char` is a Unicode code point, so lengths and offsets count code
    points where JavaScript counts UTF-16 code units; the two agree on text
    inside the Basic Multilingual Plane. */
module Text {

  /** `s.startsWith(p)`. */
  predicate StartsWith(s: string, p: string) {
    |p| <= |s| && s[..|p|] == p
  }

  /** `p` occurs in `s` at index `i`. */
  predicate OccursAt(s: string, p: string, i: nat) {
    i + |p| <= |s| && s[i..i + |p|] == p
  }

  /** `s.includes(p)`. */
  predicate Contains(s: string, p: string) {
    exists i: nat :: i <= |s| && OccursAt(s, p, i)
  }

  /** `s.slice(n)` for `n >= 0`: past the end it is the empty string. */
  function Slice(s: string, n: nat): (r: string)
    ensures n <= |s| ==> s == s[..n] + r
    ensures n >= |s| ==> r == ""
  {
    if n <= |s| then s[n..] else ""
  }

  /** `s.split(sep)` for a non-empty separator: the pieces between the
      occurrences of `sep`, scanning from the left without overlap. */
  function Split(s: string, sep: string): (r: seq<string>)
    requires |sep| > 0
    ensures |r| >= 1
    decreases |s|
  {
    if |s| < |sep| then [s]
    else if s[..|sep|] == sep then [""] + Split(s[|sep|..], sep)
    else
      var rest := Split(s[1..], sep);
      [[s[0]] + rest[0]] + rest[1..]
  }

  /** `parts.join(sep)`. */
  function Join(parts: seq<string>, sep: string): string
    requires |parts| >= 1
  {
    if |parts| == 1 then parts[0] else parts[0] + sep + Join(parts[1..], sep)
  }

  /** The pieces glued together with nothing in between. */
  function Concat(parts: seq<string>): string {
    if parts == [] then "" else parts[0] + Concat(parts[1..])
  }

  /** `s` with every occurrence of `sep` removed, scanning as Split does. */
  function RemoveAll(s: string, sep: string): string
    requires |sep| > 0
    decreases |s|
  {
    if |s| < |sep| then s
    else if s[..|sep|] == sep then RemoveAll(s[|sep|..], sep)
    else [s[0]] + RemoveAll(s[1..], sep)
  }

  lemma JoinCons(head: string, parts: seq<string>, sep: string)
    requires |parts| >= 1
    ensures Join([head + parts[0]] + parts[1..], sep) == head + Join(parts, sep)
  {
    var r := [head + parts[0]] + parts[1..];
    assert r[1..] == parts[1..];
  }

  /** Joining the pieces of a split with its separator gives back the string. */
  lemma {:induction false} JoinSplit(s: string, sep: string)
    requires |sep| > 0
    ensures Join(Split(s, sep), sep) == s
    decreases |s|
  {
    if |s| < |sep| {
    } else if s[..|sep|] == sep {
      var rest := Split(s[|sep|..], sep);
      JoinSplit(s[|sep|..], sep);
      assert ([""] + rest)[1..] == rest;
      assert s == sep + s[|sep|..];
    } else {
      var rest := Split(s[1..], sep);
      JoinSplit(s[1..], sep);
      JoinCons([s[0]], rest, sep);
      assert s == [s[0]] + s[1..];
    }
  }

  lemma ConcatCons(head: string, parts: seq<string>)
    requires |parts| >= 1
    ensures Concat([head + parts[0]] + parts[1..]) == head + Concat(parts)
  {
    var r := [head + parts[0]] + parts[1..];
    assert r[1..] == parts[1..];
  }

  /** Gluing the pieces of a split together drops exactly the separators. */
  lemma {:induction false} ConcatSplit(s: string, sep: string)
    requires |sep| > 0
    ensures Concat(Split(s, sep)) == RemoveAll(s, sep)
    decreases |s|
  {
    if |s| < |sep| {
      assert Concat([s]) == s + Concat([]);
    } else if s[..|sep|] == sep {
      ConcatSplit(s[|sep|..], sep);
      var r := [""] + Split(s[|sep|..], sep);
      assert r[1..] == Split(s[|sep|..], sep);
    } else {
      ConcatSplit(s[1..], sep);
      ConcatCons([s[0]], Split(s[1..], sep));
    }
  }

  /** A string splits into more than one piece exactly when it contains the
      separator. */
  lemma {:induction false} SplitCountsOccurrence(s: string, sep: string)
    requires |sep| > 0
    ensures Contains(s, sep) <==> |Split(s, sep)| > 1
    decreases |s|
  {
    if |s| < |sep| {
    } else if s[..|sep|] == sep {
      assert OccursAt(s, sep, 0);
    } else {
      SplitCountsOccurrence(s[1..], sep);
      if Contains(s, sep) {
        var i: nat :| i <= |s| && OccursAt(s, sep, i);
        assert i != 0;
        assert s[1..][i - 1..i - 1 + |sep|] == s[i..i + |sep|];
        assert OccursAt(s[1..], sep, i - 1);
      }
      if Contains(s[1..], sep) {
        var i: nat :| i <= |s[1..]| && OccursAt(s[1..], sep, i);
        assert s[i + 1..i + 1 + |sep|] == s[1..][i..i + |sep|];
        assert OccursAt(s, sep, i + 1);
      }
    }
  }

  function LowerChar(c: char): char {
    if 'A' <= c <= 'Z' then (c as int + 32) as char else c
  }

  /** `s.toLowerCase()` on the ASCII letters. */
  function ToLower(s: string): (r: string)
    ensures |r| == |s|
    ensures forall i :: 0 <= i < |s| ==> r[i] == LowerChar(s[i])
  {
    seq(|s|, i requires 0 <= i < |s| => LowerChar(s[i]))
  }

  /** Lower-casing twice changes nothing more than lower-casing once. */
  lemma ToLowerIdempotent(s: string)
    ensures ToLower(ToLower(s)) == ToLower(s)
  {
  }

  /** A code unit that `String.prototype.trim` removes: the ECMAScript
      WhiteSpace and LineTerminator code points. */
  predicate IsJsWhitespace(c: char) {
    c == '\t' || c == '\n' || c == '\U{000B}' || c == '\U{000C}' || c == '\r' || c == ' '
    || c == '\U{00A0}' || c == '\U{1680}' || ('\U{2000}' <= c <= '\U{200A}')
    || c == '\U{2028}' || c == '\U{2029}' || c == '\U{202F}' || c == '\U{205F}'
    || c == '\U{3000}' || c == '\U{FEFF}'
  }

  predicate IsBlank(s: string) {
    forall i :: 0 <= i < |s| ==> IsJsWhitespace(s[i])
  }

  function TrimStart(s: string): string {
    if s != [] && IsJsWhitespace(s[0]) then TrimStart(s[1..]) else s
  }

  function TrimEnd(s: string): string {
    if s != [] && IsJsWhitespace(s[|s| - 1]) then TrimEnd(s[..|s| - 1]) else s
  }

  /** `s.trim()`. */
  function Trim(s: string): string {
    TrimEnd(TrimStart(s))
  }

  lemma {:induction false} TrimStartBlank(s: string)
    ensures TrimStart(s) == "" <==> IsBlank(s)
  {
    if s != [] && IsJsWhitespace(s[0]) {
      TrimStartBlank(s[1..]);
      assert IsBlank(s) <==> IsBlank(s[1..]) by {
        assert forall i :: 1 <= i < |s| ==> s[i] == s[1..][i - 1];
      }
    }
  }

  lemma {:induction false} TrimStartKeepsHead(s: string)
    ensures TrimStart(s) != "" ==> !IsJsWhitespace(TrimStart(s)[0])
  {
    if s != [] && IsJsWhitespace(s[0]) {
      TrimStartKeepsHead(s[1..]);
    }
  }

  lemma {:induction false} TrimEndEmpty(s: string)
    requires s == [] || !IsJsWhitespace(s[0])
    ensures TrimEnd(s) == "" <==> s == ""
  {
    if s != [] && IsJsWhitespace(s[|s| - 1]) {
      assert |s| > 1;
      TrimEndEmpty(s[..|s| - 1]);
    }
  }

  /** `!s.trim()` holds exactly when `s` is made of white space only. */
  lemma TrimEmptyIffBlank(s: string)
    ensures Trim(s) == "" <==> IsBlank(s)
  {
    TrimStartBlank(s);
    TrimStartKeepsHead(s);
    TrimEndEmpty(TrimStart(s));
  }

  function DigitChar(d: nat): char
    requires d < 10
  {
    ('0' as int + d) as char
  }

  /** `n.toString()` for a non-negative integer: its decimal digits. */
  function DecimalString(n: nat): (r: string)
    ensures |r| >= 1
    ensures forall i :: 0 <= i < |r| ==> '0' <= r[i] <= '9'
  {
    if n < 10 then [DigitChar(n)] else DecimalString(n / 10) + [DigitChar(n % 10)]
  }
}
