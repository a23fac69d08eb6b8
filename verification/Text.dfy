/** The few Python string operations that the modelled code relies on. */
module Text {

  /** The characters that `str.strip`, `str.isspace` and the regex class `\s` treat as blank. */
  predicate IsSpace(c: char) {
    var n := c as int;
    || 9 <= n <= 13
    || 28 <= n <= 32
    || n == 0x85 || n == 0xA0 || n == 0x1680
    || 0x2000 <= n <= 0x200A
    || n == 0x2028 || n == 0x2029 || n == 0x202F || n == 0x205F || n == 0x3000
  }

  function StripStart(s: string): string {
    if s == [] || !IsSpace(s[0]) then s else StripStart(s[1..])
  }

  function StripEnd(s: string): string {
    if s == [] || !IsSpace(s[|s| - 1]) then s else StripEnd(s[..|s| - 1])
  }

  /** `s.strip()` */
  function Strip(s: string): string {
    StripEnd(StripStart(s))
  }

  /** `s.lstrip("@")` */
  function DropAts(s: string): string {
    if s == [] || s[0] != '@' then s else DropAts(s[1..])
  }

  function LowerChar(c: char): char {
    if 'A' <= c <= 'Z' then (c as int + 32) as char else c
  }

  /** `s.lower()`, on the ASCII letters. */
  function Lower(s: string): (r: string)
    ensures |r| == |s|
    ensures forall i :: 0 <= i < |s| ==> r[i] == LowerChar(s[i])
  {
    if s == [] then [] else [LowerChar(s[0])] + Lower(s[1..])
  }

  // -----------------------------------------------------------------------
  // What these operations do, by characters

  /** The blanks of Python's `str.isspace`, by code point. */
  lemma IsSpaceExactly(c: char)
    ensures IsSpace(c)
       <==> c as int in {9, 10, 11, 12, 13, 28, 29, 30, 31, 32, 0x85, 0xA0, 0x1680, 0x2000, 0x2001, 0x2002, 0x2003,
                         0x2004, 0x2005, 0x2006, 0x2007, 0x2008, 0x2009, 0x200A, 0x2028, 0x2029, 0x202F, 0x205F,
                         0x3000}
  {
  }

  /** Only blanks are cut off, all of them at both ends, and nothing else is changed. */
  lemma StripExactly(s: string) returns (i: nat, j: nat)
    ensures i <= j <= |s| && Strip(s) == s[i..j]
    ensures forall k :: 0 <= k < i || j <= k < |s| ==> IsSpace(s[k])
    ensures i < j ==> !IsSpace(s[i]) && !IsSpace(s[j - 1])
  {
    hide IsSpace;
    i := StripStartExactly(s);
    var n := StripEndExactly(s[i..]);
    j := i + n;
    assert s[i..][..n] == s[i..j];
    forall k | j <= k < |s| ensures IsSpace(s[k]) {
      assert s[k] == s[i..][k - i];
    }
    if i < j {
      assert s[i] == s[i..][0] && s[j - 1] == s[i..][n - 1];
    }
  }

  lemma {:induction false} StripStartExactly(s: string) returns (i: nat)
    ensures i <= |s| && StripStart(s) == s[i..] && (forall k :: 0 <= k < i ==> IsSpace(s[k]))
    ensures i < |s| ==> !IsSpace(s[i])
  {
    hide IsSpace;
    if s == [] || !IsSpace(s[0]) {
      i := 0;
    } else {
      var rest := StripStartExactly(s[1..]);
      i := rest + 1;
      assert s[1..][rest..] == s[i..];
      forall k | 0 <= k < i ensures IsSpace(s[k]) {
        assert k == 0 || s[k] == s[1..][k - 1];
      }
    }
  }

  lemma {:induction false} StripEndExactly(s: string) returns (j: nat)
    ensures j <= |s| && StripEnd(s) == s[..j] && (forall k :: j <= k < |s| ==> IsSpace(s[k]))
    ensures 0 < j ==> !IsSpace(s[j - 1])
  {
    hide IsSpace;
    if s == [] || !IsSpace(s[|s| - 1]) {
      j := |s|;
      assert s == s[..j];
    } else {
      j := StripEndExactly(s[..|s| - 1]);
      assert s[..|s| - 1][..j] == s[..j];
      forall k | j <= k < |s| ensures IsSpace(s[k]) {
        assert k == |s| - 1 || s[k] == s[..|s| - 1][k];
      }
    }
  }

  /** All leading "@" are dropped, and nothing else. */
  lemma {:induction false} DropAtsExactly(s: string) returns (i: nat)
    ensures i <= |s| && DropAts(s) == s[i..] && (forall k :: 0 <= k < i ==> s[k] == '@')
    ensures i < |s| ==> s[i] != '@'
  {
    if s == [] || s[0] != '@' {
      i := 0;
    } else {
      var rest := DropAtsExactly(s[1..]);
      i := rest + 1;
      assert s[1..][rest..] == s[i..];
      forall k | 0 <= k < i ensures s[k] == '@' {
        assert k == 0 || s[k] == s[1..][k - 1];
      }
    }
  }

  /** ASCII capitals become small, by code point; every other character stays. */
  lemma LowerExactly(s: string, i: nat)
    requires i < |s|
    ensures |Lower(s)| == |s|
    ensures 64 < s[i] as int < 91 ==> Lower(s)[i] as int == s[i] as int + 32
    ensures !(64 < s[i] as int < 91) ==> Lower(s)[i] == s[i]
  {
  }

  /** A pattern is found exactly when the text can be cut around it. */
  lemma ContainsExactly(text: string, pattern: string)
    ensures Contains(text, pattern) <==> exists before, after :: text == before + pattern + after
  {
    if Contains(text, pattern) {
      var i :| 0 <= i <= |text| && OccursAt(text, pattern, i);
      assert text == text[..i] + pattern + text[i + |pattern|..];
    }
    if before, after :| text == before + pattern + after {
      assert text[|before|..|before| + |pattern|] == pattern;
      assert OccursAt(text, pattern, |before|);
    }
  }

  predicate OccursAt(text: string, pattern: string, i: int) {
    0 <= i && i + |pattern| <= |text| && text[i..i + |pattern|] == pattern
  }

  /** `pattern in text` */
  predicate Contains(text: string, pattern: string) {
    exists i :: 0 <= i <= |text| && OccursAt(text, pattern, i)
  }

  /** `" ".join(parts)` */
  function Join(parts: seq<string>): string {
    if parts == [] then ""
    else if |parts| == 1 then parts[0]
    else parts[0] + " " + Join(parts[1..])
  }

  predicate SpaceFree(s: string) {
    ' ' !in s
  }

  /** `any(pattern in text for pattern in patterns)` */
  predicate ContainsAny(text: string, patterns: seq<string>) {
    exists k :: 0 <= k < |patterns| && Contains(text, patterns[k])
  }

  // -----------------------------------------------------------------------
  // Searching a joined text is searching its parts.

  /** An occurrence in `a + b` lies in `a`, lies in `b`, or crosses the seam. */
  lemma ContainsConcat(a: string, b: string, p: string)
    ensures Contains(a, p) ==> Contains(a + b, p)
    ensures Contains(b, p) ==> Contains(a + b, p)
  {
    if Contains(a, p) {
      var i :| 0 <= i <= |a| && OccursAt(a, p, i);
      assert (a + b)[i..i + |p|] == a[i..i + |p|];
      assert OccursAt(a + b, p, i);
    }
    if Contains(b, p) {
      var i :| 0 <= i <= |b| && OccursAt(b, p, i);
      assert (a + b)[|a| + i..|a| + i + |p|] == b[i..i + |p|];
      assert OccursAt(a + b, p, |a| + i);
    }
  }

  /** A pattern without a blank never crosses the blank that `Join` inserts. */
  lemma ContainsAcrossBlank(a: string, b: string, p: string)
    requires p != "" && SpaceFree(p)
    ensures Contains(a + " " + b, p) <==> Contains(a, p) || Contains(b, p)
  {
    var t := a + " " + b;
    ContainsConcat(a, " " + b, p);
    ContainsConcat(a + " ", b, p);
    assert t == a + (" " + b);
    if Contains(t, p) {
      var i :| 0 <= i <= |t| && OccursAt(t, p, i);
      assert t[|a|] == ' ' && forall k :: 0 <= k < |p| ==> t[i..i + |p|][k] == p[k] == t[i + k];
      if i + |p| <= |a| {
        assert a[i..i + |p|] == t[i..i + |p|];
        assert OccursAt(a, p, i);
      } else if i > |a| {
        var j := i - |a| - 1;
        assert b[j..j + |p|] == t[i..i + |p|];
        assert OccursAt(b, p, j);
      } else {
        assert false;
      }
    }
  }

  /** For a non-empty, blank-free pattern, `p in " ".join(parts)` looks at each part alone. */
  lemma {:induction false} JoinContains(parts: seq<string>, p: string)
    requires p != "" && SpaceFree(p)
    ensures Contains(Join(parts), p) <==> exists k :: 0 <= k < |parts| && Contains(parts[k], p)
  {
    if parts == [] {
    } else if |parts| == 1 {
      assert parts[0] == Join(parts);
    } else {
      var rest := parts[1..];
      JoinContains(rest, p);
      ContainsAcrossBlank(parts[0], Join(rest), p);
      if Contains(Join(rest), p) {
        var k :| 0 <= k < |rest| && Contains(rest[k], p);
        assert parts[k + 1] == rest[k];
      }
      if k :| 0 <= k < |parts| && Contains(parts[k], p) {
        if k > 0 {
          assert rest[k - 1] == parts[k];
        }
      }
    }
  }
}
