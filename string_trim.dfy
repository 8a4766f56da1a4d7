/**
 * `String.prototype.trim`: strip the white space and line terminators at both
 * ends of a string, keep everything between.
 */
module StringTrim {

  /**
   * The characters ECMAScript lets `trim` strip: TAB, VT, FF, SPACE, NBSP,
   * ZWNBSP, the other space separators of category Zs, and the line
   * terminators LF, CR, LS and PS.
   */
  predicate IsWhitespace(c: char)
    ensures IsWhitespace(c) ==> c as int < 0x1_0000
  {
    var n := c as int;
    || n == 0x09 || n == 0x0A || n == 0x0B || n == 0x0C || n == 0x0D
    || n == 0x20 || n == 0xA0 || n == 0x1680
    || (0x2000 <= n <= 0x200A)
    || n == 0x2028 || n == 0x2029 || n == 0x202F || n == 0x205F
    || n == 0x3000 || n == 0xFEFF
  }

  ghost predicate AllWhitespace(s: string) {
    forall k :: 0 <= k < |s| ==> IsWhitespace(s[k])
  }

  /** Neither end of `s` is white space: a string trimming leaves as it is. */
  ghost predicate TrimmedEnds(s: string) {
    |s| > 0 ==> !IsWhitespace(s[0]) && !IsWhitespace(s[|s| - 1])
  }

  /** `r` is the stretch of `s` starting at `i` with only white space around it. */
  ghost predicate StripsTo(s: string, i: int, r: string) {
    && 0 <= i && i + |r| <= |s|
    && s[i..i + |r|] == r
    && (forall k :: 0 <= k < i ==> IsWhitespace(s[k]))
    && (forall k :: i + |r| <= k < |s| ==> IsWhitespace(s[k]))
  }

  /** The leading white space removed. */
  function TrimStart(s: string): (r: string)
    ensures |r| <= |s| && r == s[|s| - |r|..]
    ensures forall k :: 0 <= k < |s| - |r| ==> IsWhitespace(s[k])
    ensures |r| > 0 ==> !IsWhitespace(r[0])
  {
    if |s| > 0 && IsWhitespace(s[0]) then TrimStart(s[1..]) else s
  }

  /** The trailing white space removed. */
  function TrimEnd(s: string): (r: string)
    ensures |r| <= |s| && r == s[..|r|]
    ensures forall k :: |r| <= k < |s| ==> IsWhitespace(s[k])
    ensures |r| > 0 ==> !IsWhitespace(r[|r| - 1])
  {
    if |s| > 0 && IsWhitespace(s[|s| - 1]) then TrimEnd(s[..|s| - 1]) else s
  }

  /** Both ends stripped: a stretch of `s` with white space only around it and at neither end. */
  function Trim(s: string): (r: string)
    ensures |r| == 0 <==> AllWhitespace(s)
    ensures TrimmedEnds(r)
    ensures exists i :: StripsTo(s, i, r)
  {
    var start := TrimStart(s);
    var r := TrimEnd(start);
    var i := |s| - |start|;
    assert StripsTo(s, i, r) by {
      forall k | i + |r| <= k < |s| ensures IsWhitespace(s[k]) {
        assert s[k] == start[k - i];
      }
    }
    assert |r| == 0 <==> AllWhitespace(s) by {
      if |r| == 0 {
        assert |start| == 0;
        forall k | 0 <= k < |s| ensures IsWhitespace(s[k]) {
          assert k < |s| - |start|;
        }
      } else {
        assert s[i] == r[0];
      }
    }
    r
  }

  /** Two stretches of that shape, neither starting with white space, start at the same place. */
  lemma SameStart(s: string, i: int, a: string, j: int, b: string)
    requires StripsTo(s, i, a) && StripsTo(s, j, b)
    requires |a| > 0 && |b| > 0 && !IsWhitespace(a[0]) && !IsWhitespace(b[0])
    ensures i == j
  {
    assert s[i] == a[0] && s[j] == b[0];
  }

  /** Two stretches of that shape, neither ending with white space, end at the same place. */
  lemma SameEnd(s: string, i: int, a: string, j: int, b: string)
    requires StripsTo(s, i, a) && StripsTo(s, j, b)
    requires |a| > 0 && |b| > 0 && !IsWhitespace(a[|a| - 1]) && !IsWhitespace(b[|b| - 1])
    ensures i + |a| == j + |b|
  {
    assert s[i + |a| - 1] == a[|a| - 1] && s[j + |b| - 1] == b[|b| - 1];
  }

  /**
   * Trim is the only stretch with white space around it and at neither end:
   * any `r` of that shape is `Trim(s)`.
   */
  lemma TrimUnique(s: string, i: int, r: string)
    requires StripsTo(s, i, r) && TrimmedEnds(r)
    ensures r == Trim(s)
  {
    var t := Trim(s);
    var j :| StripsTo(s, j, t);
    if |r| == 0 {
      assert AllWhitespace(s) by {
        forall k | 0 <= k < |s| ensures IsWhitespace(s[k]) {
          assert k < i || i <= k;
        }
      }
    } else {
      assert s[i] == r[0];
      SameStart(s, i, r, j, t);
      SameEnd(s, i, r, j, t);
    }
  }

  /** Trimming twice is trimming once. */
  lemma TrimIdempotent(s: string)
    ensures Trim(Trim(s)) == Trim(s)
  {
    var t := Trim(s);
    assert t[0..|t|] == t;
    assert StripsTo(t, 0, t);
    TrimUnique(t, 0, t);
  }

  /** Submitting "  Buy milk  " forwards "Buy milk". */
  lemma TrimScenario()
    ensures Trim("  Buy milk  ") == "Buy milk"
  {
    var s := "  Buy milk  ";
    assert s[2..10] == "Buy milk";
    assert StripsTo(s, 2, "Buy milk");
    TrimUnique(s, 2, "Buy milk");
  }
}
