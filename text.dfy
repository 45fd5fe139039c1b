/** String primitives the components rely on: JavaScript's white-space class (used
    by `String.prototype.trim` and by the regular-expression class `\s`), `trim`,
    `toLowerCase` (ASCII letters only), `includes`, and `replace(/\s+/g, c)`. */
module Text {

  /** The ECMAScript WhiteSpace and LineTerminator code points: TAB, LF, VT, FF, CR,
      the space separators of Unicode category Zs, LS, PS and the byte order mark. */
  predicate IsWhitespace(c: char) {
    var n := c as int;
    (9 <= n <= 13) || n == 0x20 || n == 0xA0 || n == 0x1680 || (0x2000 <= n <= 0x200A)
    || n == 0x2028 || n == 0x2029 || n == 0x202F || n == 0x205F || n == 0x3000 || n == 0xFEFF
  }

  predicate NoWhitespace(s: string) {
    forall i :: 0 <= i < |s| ==> !IsWhitespace(s[i])
  }

  predicate AllWhitespace(s: string) {
    forall i :: 0 <= i < |s| ==> IsWhitespace(s[i])
  }

  /** No white space at either end: what `trim` leaves. */
  predicate IsTrimmed(s: string) {
    s == [] || (!IsWhitespace(s[0]) && !IsWhitespace(s[|s| - 1]))
  }

  /** Drops the leading white space. */
  function TrimStart(s: string): (r: string)
    ensures |r| <= |s| && r == s[|s| - |r|..]
    ensures AllWhitespace(s[..|s| - |r|])
    ensures r == [] || !IsWhitespace(r[0])
  {
    if s != [] && IsWhitespace(s[0]) then
      var r := TrimStart(s[1..]);
      assert AllWhitespace(s[..|s| - |r|]) by {
        var dropped := s[..|s| - |r|];
        forall i | 0 <= i < |dropped| ensures IsWhitespace(dropped[i]) {
          if i > 0 {
            assert dropped[i] == s[1..][..|s| - 1 - |r|][i - 1];
          }
        }
      }
      r
    else s
  }

  /** Drops the trailing white space. */
  function TrimEnd(s: string): (r: string)
    ensures |r| <= |s| && r == s[..|r|]
    ensures AllWhitespace(s[|r|..])
    ensures r == [] || !IsWhitespace(r[|r| - 1])
  {
    if s != [] && IsWhitespace(s[|s| - 1]) then
      var r := TrimEnd(s[..|s| - 1]);
      assert AllWhitespace(s[|r|..]) by {
        var dropped := s[|r|..];
        forall i | 0 <= i < |dropped| ensures IsWhitespace(dropped[i]) {
          if i < |dropped| - 1 {
            assert dropped[i] == s[..|s| - 1][|r|..][i];
          }
        }
      }
      r
    else s
  }

  /** `s.trim()`: the leading white space is dropped one character at a time, then
      the trailing white space. */
  function Trim(s: string): (r: string)
    ensures |r| <= |s|
    ensures IsTrimmed(r)
    ensures r == [] <==> AllWhitespace(s)
  {
    if s != [] && IsWhitespace(s[0]) then Trim(s[1..])
    else
      var r := TrimEnd(s);
      assert r == [] ==> AllWhitespace(s) by {
        if r == [] {
          assert s[|r|..] == s;
        }
      }
      r
  }

  /** A string that is already trimmed is left alone. */
  lemma TrimOfTrimmed(s: string)
    requires IsTrimmed(s)
    ensures Trim(s) == s
  {
  }

  /** Trimming is idempotent. */
  lemma TrimIdempotent(s: string)
    ensures Trim(Trim(s)) == Trim(s)
  {
    TrimOfTrimmed(Trim(s));
  }

  lemma {:induction false} TrimStartPadding(lead: string, s: string)
    requires AllWhitespace(lead)
    requires s == [] || !IsWhitespace(s[0])
    ensures TrimStart(lead + s) == s
  {
    if lead != [] {
      assert (lead + s)[1..] == lead[1..] + s;
      TrimStartPadding(lead[1..], s);
    } else {
      assert lead + s == s;
    }
  }

  lemma {:induction false} TrimEndPadding(s: string, tail: string)
    requires AllWhitespace(tail)
    requires s == [] || !IsWhitespace(s[|s| - 1])
    ensures TrimEnd(s + tail) == s
  {
    if tail != [] {
      var t := tail[..|tail| - 1];
      assert (s + tail)[..|s + tail| - 1] == s + t;
      TrimEndPadding(s, t);
    } else {
      assert s + tail == s;
    }
  }

  lemma {:induction false} TrimLeadingPadding(lead: string, s: string)
    requires AllWhitespace(lead)
    requires s == [] || !IsWhitespace(s[0])
    ensures Trim(lead + s) == TrimEnd(s)
  {
    if lead != [] {
      assert (lead + s)[1..] == lead[1..] + s;
      TrimLeadingPadding(lead[1..], s);
    } else {
      assert lead + s == s;
    }
  }

  /** `trim` strips exactly the white-space padding around a trimmed core: it is the
      inverse of padding a trimmed string with white space on both sides. */
  lemma TrimPadding(lead: string, core: string, tail: string)
    requires AllWhitespace(lead) && AllWhitespace(tail)
    requires core != [] && IsTrimmed(core)
    ensures Trim(lead + core + tail) == core
  {
    assert lead + core + tail == lead + (core + tail);
    TrimLeadingPadding(lead, core + tail);
    TrimEndPadding(core, tail);
  }

  /** `toLowerCase` restricted to ASCII letters. */
  function LowerChar(c: char): (d: char)
    ensures IsWhitespace(d) <==> IsWhitespace(c)
    ensures !('A' <= d <= 'Z')
  {
    if 'A' <= c <= 'Z' then (c as int + 32) as char else c
  }

  /** `s.toLowerCase()`, position by position. */
  function Lower(s: string): (r: string)
    ensures |r| == |s|
    ensures forall i :: 0 <= i < |s| ==> r[i] == LowerChar(s[i])
  {
    seq(|s|, i requires 0 <= i < |s| => LowerChar(s[i]))
  }

  /** Lower-casing twice is lower-casing once. */
  lemma LowerIdempotent(s: string)
    ensures Lower(Lower(s)) == Lower(s)
  {
  }

  ghost predicate OccursAt(s: string, q: string, i: int) {
    0 <= i && i + |q| <= |s| && s[i..i + |q|] == q
  }

  /** `s.includes(q)`: `q` occurs somewhere in `s`. */
  function Includes(s: string, q: string): (b: bool)
    ensures b <==> exists i :: OccursAt(s, q, i)
    decreases |s|
  {
    if |q| > |s| then false
    else if s[..|q|] == q then (assert OccursAt(s, q, 0); true)
    else
      var b := Includes(s[1..], q);
      assert b ==> exists i :: OccursAt(s, q, i) by {
        if b {
          var i :| OccursAt(s[1..], q, i);
          assert s[i + 1..i + 1 + |q|] == s[1..][i..i + |q|];
          assert OccursAt(s, q, i + 1);
        }
      }
      assert (exists i :: OccursAt(s, q, i)) ==> b by {
        if exists i :: OccursAt(s, q, i) {
          var i :| OccursAt(s, q, i);
          assert i != 0;
          assert s[1..][i - 1..i - 1 + |q|] == s[i..i + |q|];
          assert OccursAt(s[1..], q, i - 1);
        }
      }
      b
  }

  /** `s.replace(/\s+/g, sep)`: every maximal run of white space becomes one `sep`. */
  function ReplaceWhitespaceRuns(s: string, sep: char): (r: string)
    ensures !IsWhitespace(sep) ==> NoWhitespace(r)
    ensures |r| <= |s|
    ensures NoWhitespace(s) ==> r == s
    decreases |s|
  {
    if s == [] then []
    else if IsWhitespace(s[0]) then [sep] + ReplaceWhitespaceRuns(TrimStart(s), sep)
    else [s[0]] + ReplaceWhitespaceRuns(s[1..], sep)
  }

  /** A white-space run followed by a non-white-space character (or by nothing)
      becomes exactly one `sep`. */
  lemma RunBecomesOne(run: string, rest: string, sep: char)
    requires run != [] && AllWhitespace(run)
    requires rest == [] || !IsWhitespace(rest[0])
    ensures ReplaceWhitespaceRuns(run + rest, sep) == [sep] + ReplaceWhitespaceRuns(rest, sep)
  {
    TrimStartPadding(run, rest);
  }

  lemma {:induction false} TrimStartConcat(a: string, b: string)
    requires !AllWhitespace(a)
    ensures TrimStart(a + b) == TrimStart(a) + b
  {
    if IsWhitespace(a[0]) {
      assert (a + b)[1..] == a[1..] + b;
      TrimStartConcat(a[1..], b);
    }
  }

  /** The replacement works piecewise across a boundary where the right-hand part
      does not start with white space. */
  lemma {:induction false} ReplaceRunsConcat(a: string, b: string, sep: char)
    requires b == [] || !IsWhitespace(b[0])
    ensures ReplaceWhitespaceRuns(a + b, sep) == ReplaceWhitespaceRuns(a, sep) + ReplaceWhitespaceRuns(b, sep)
    decreases |a|
  {
    if a == [] {
      assert a + b == b;
    } else if !IsWhitespace(a[0]) {
      assert (a + b)[0] == a[0];
      assert (a + b)[1..] == a[1..] + b;
      ReplaceRunsConcat(a[1..], b, sep);
    } else if AllWhitespace(a) {
      TrimStartPadding(a, b);
      TrimStartPadding(a, []);
      assert a + [] == a;
    } else {
      assert (a + b)[0] == a[0];
      TrimStartConcat(a, b);
      ReplaceRunsConcat(TrimStart(a), b, sep);
    }
  }

  /** One character that is not white space is copied through. */
  lemma ReplaceRunsStep(c: char, s: string, sep: char)
    requires !IsWhitespace(c)
    ensures ReplaceWhitespaceRuns([c] + s, sep) == [c] + ReplaceWhitespaceRuns(s, sep)
  {
    assert ([c] + s)[1..] == s;
  }

  /** A prefix without white space goes through the replacement unchanged. */
  lemma {:induction false} ReplaceRunsCleanPrefix(a: string, s: string, sep: char)
    requires NoWhitespace(a)
    ensures ReplaceWhitespaceRuns(a + s, sep) == a + ReplaceWhitespaceRuns(s, sep)
    decreases |a|
  {
    if a == [] {
      assert a + s == s;
    } else {
      var tail := a[1..];
      var rest := ReplaceWhitespaceRuns(s, sep);
      assert ReplaceWhitespaceRuns(a + s, sep) == [a[0]] + ReplaceWhitespaceRuns(tail + s, sep) by {
        assert a + s == [a[0]] + (tail + s);
        ReplaceRunsStep(a[0], tail + s, sep);
      }
      assert ReplaceWhitespaceRuns(tail + s, sep) == tail + rest by {
        assert NoWhitespace(tail) by {
          forall i | 0 <= i < |tail| ensures !IsWhitespace(tail[i]) {
            assert tail[i] == a[i + 1];
          }
        }
        ReplaceRunsCleanPrefix(tail, s, sep);
      }
      assert [a[0]] + (tail + rest) == a + rest;
    }
  }

  /** Lower-casing works position by position, so it distributes over
      concatenation. */
  lemma LowerConcat(a: string, b: string)
    ensures Lower(a + b) == Lower(a) + Lower(b)
  {
    assert |Lower(a + b)| == |Lower(a) + Lower(b)|;
    forall i | 0 <= i < |a + b|
      ensures Lower(a + b)[i] == (Lower(a) + Lower(b))[i]
    {
      if i < |a| {
        assert (a + b)[i] == a[i];
      } else {
        assert (a + b)[i] == b[i - |a|];
      }
    }
  }
}
