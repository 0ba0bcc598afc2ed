/** The character-level primitives of the XML reader (src/ticpp/src/tinyxmlparser.cpp, tinyxml.h).

    A `const char*` into NUL-terminated text is modelled by the text that is left to read: `p[0]` is the
    character under the cursor, the empty string is a cursor standing on the NUL, advancing drops the
    first character, and a null pointer is `None`. Every character is one byte. The encoding is UTF-8,
    which is what the declaration written by Iris selects. */
module XmlBase {
  import opened Wrappers

  type Cursor = Option<string>

  /** isspace in the C locale. */
  predicate IsWhiteSpace(c: char)
  {
    c == ' ' || 9 <= c as int <= 13
  }

  predicate IsAlpha(c: char)
  {
    'a' <= c <= 'z' || 'A' <= c <= 'Z' || 127 <= c as int
  }

  predicate IsAlphaNum(c: char)
  {
    IsAlpha(c) || '0' <= c <= '9'
  }

  predicate IsNameStart(c: char)
  {
    IsAlpha(c) || c == '_'
  }

  predicate IsNameChar(c: char)
  {
    IsAlphaNum(c) || c == '_' || c == '-' || c == '.' || c == ':'
  }

  function ToLower(c: char): (r: char)
    ensures !('A' <= c <= 'Z') ==> r == c
  {
    if 'A' <= c <= 'Z' then (c as int + 32) as char else c
  }

  /** One of the byte order marks EF BB BF, EF BF BE and EF BF BF. */
  predicate StartsWithByteOrderMark(p: string)
  {
    |p| >= 3 && p[0] as int == 0xEF &&
    ((p[1] as int == 0xBB && p[2] as int == 0xBF) || (p[1] as int == 0xBF && 0xBE <= p[2] as int <= 0xBF))
  }

  /** The text after the white space and byte order marks at its start. */
  function AfterSpace(p: string): (q: string)
    ensures |q| <= |p|
    ensures q != "" ==> !IsWhiteSpace(q[0]) && !StartsWithByteOrderMark(q)
  {
    if p == "" then p
    else if StartsWithByteOrderMark(p) then AfterSpace(p[3..])
    else if IsWhiteSpace(p[0]) then AfterSpace(p[1..])
    else p
  }

  function Skipped(p: string): (q: Cursor)
    ensures q.Some? ==> |q.value| <= |p|
  {
    if p == "" then None else Some(AfterSpace(p))
  }

  method SkipWhiteSpace(p: Cursor) returns (q: Cursor)
    ensures q == if p == None then None else Skipped(p.value)
  {
    if p == None || p.value == "" {
      return None;
    }
    var r := p.value;
    while r != ""
      invariant AfterSpace(r) == AfterSpace(p.value)
      decreases |r|
    {
      if StartsWithByteOrderMark(r) {
        r := r[3..];
        continue;
      }
      if IsWhiteSpace(r[0]) || r[0] == '\n' || r[0] == '\r' {
        r := r[1..];
      } else {
        break;
      }
    }
    q := Some(r);
  }

  /** The length of the longest prefix made of name characters. */
  function NameLength(p: string): (n: nat)
    ensures n <= |p|
    ensures forall i :: 0 <= i < n ==> IsNameChar(p[i])
    ensures n < |p| ==> !IsNameChar(p[n])
  {
    if p != "" && IsNameChar(p[0]) then 1 + NameLength(p[1..]) else 0
  }

  function NameAt(p: string): (r: Option<(string, string)>)
    ensures r.Some? ==> r.value.0 != "" && r.value.0 + r.value.1 == p
  {
    if p != "" && IsNameStart(p[0]) then Some((p[..NameLength(p)], p[NameLength(p)..])) else None
  }

  /** ReadName: the name and what follows it, or null when no name starts here. */
  method ReadName(p: string) returns (r: Option<(string, string)>)
    ensures r == NameAt(p)
  {
    if p != "" && IsNameStart(p[0]) {
      var n := 0;
      while n < |p| && IsNameChar(p[n])
        invariant 0 <= n <= |p|
        invariant n + NameLength(p[n..]) == NameLength(p)
      {
        assert p[n..][1..] == p[n + 1..];
        n := n + 1;
      }
      return Some((p[..n], p[n..]));
    }
    return None;
  }

  /** A name that the reader takes back whole: it starts like a name and continues like one. */
  predicate IsName(s: string)
  {
    s != "" && IsNameStart(s[0]) && forall i :: 0 <= i < |s| ==> IsNameChar(s[i])
  }

  lemma {:induction false} NameLengthOfPrefix(s: string, rest: string)
    requires forall i :: 0 <= i < |s| ==> IsNameChar(s[i])
    requires rest == "" || !IsNameChar(rest[0])
    ensures NameLength(s + rest) == |s|
  {
    if s == "" {
      assert s + rest == rest;
    } else {
      assert (s + rest)[1..] == s[1..] + rest;
      NameLengthOfPrefix(s[1..], rest);
    }
  }

  lemma NameReadBack(s: string, rest: string)
    requires IsName(s)
    requires rest == "" || !IsNameChar(rest[0])
    ensures NameAt(s + rest) == Some((s, rest))
  {
    NameLengthOfPrefix(s, rest);
    assert (s + rest)[..|s|] == s && (s + rest)[|s|..] == rest;
  }

  /** StringEqual with the case kept: does the text start with the tag? Text at its end never does. */
  predicate StringEqual(p: string, tag: string)
  {
    p != "" && tag <= p
  }

  function Lower(s: string): (r: string)
    ensures |r| == |s|
    ensures forall i :: 0 <= i < |s| ==> r[i] == ToLower(s[i])
  {
    seq(|s|, i requires 0 <= i < |s| => ToLower(s[i]))
  }

  method MatchTag(p: string, tag: string, ignoreCase: bool) returns (b: bool)
    ensures b == if ignoreCase then StringEqual(Lower(p), Lower(tag)) else StringEqual(p, tag)
  {
    if p == "" {
      return false;
    }
    var i := 0;
    if ignoreCase {
      while i < |p| && i < |tag| && ToLower(p[i]) == ToLower(tag[i])
        invariant 0 <= i <= |p| && i <= |tag|
        invariant forall k :: 0 <= k < i ==> Lower(p)[k] == Lower(tag)[k]
      {
        i := i + 1;
      }
      if i < |tag| && i < |p| {
        assert Lower(p)[i] != Lower(tag)[i];
      }
    } else {
      while i < |p| && i < |tag| && p[i] == tag[i]
        invariant 0 <= i <= |p| && i <= |tag|
        invariant forall k :: 0 <= k < i ==> p[k] == tag[k]
      {
        i := i + 1;
      }
    }
    b := i == |tag|;
  }
}
