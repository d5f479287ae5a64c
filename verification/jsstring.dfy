/** The three JavaScript string operations the dashboard relies on: `trim`, `toLowerCase`
    and `includes`. Strings are sequences of code points. */
module JsString {
  import opened Seqs

  /** The code points ECMAScript's `String.prototype.trim` strips: the WhiteSpace
      characters (tab, vertical tab, form feed, space, no-break space, byte order mark and
      the space separators) and the LineTerminator characters. */
  predicate IsWhitespace(c: char) {
    var n := c as int;
    || n == 0x09 || n == 0x0A || n == 0x0B || n == 0x0C || n == 0x0D || n == 0x20
    || n == 0xA0 || n == 0x1680 || (0x2000 <= n <= 0x200A)
    || n == 0x2028 || n == 0x2029 || n == 0x202F || n == 0x205F || n == 0x3000
    || n == 0xFEFF
  }

  predicate AllWhitespace(s: string) {
    forall k :: 0 <= k < |s| ==> IsWhitespace(s[k])
  }

  /** Neither the first nor the last character of `t` is whitespace. */
  predicate NoEdgeWhitespace(t: string) {
    |t| > 0 ==> !IsWhitespace(t[0]) && !IsWhitespace(t[|t| - 1])
  }

  /** `t` is the part of `s` starting at `i`, and all of `s` outside that part is whitespace. */
  predicate TrimmedAt(t: string, s: string, i: int) {
    && 0 <= i && i + |t| <= |s|
    && (forall k :: 0 <= k < |t| ==> s[i + k] == t[k])
    && (forall k :: 0 <= k < i ==> IsWhitespace(s[k]))
    && (forall k :: i + |t| <= k < |s| ==> IsWhitespace(s[k]))
  }

  /** `t` is what remains of `s` after deleting whitespace at its two ends (not necessarily all of it). */
  ghost predicate TrimmedFrom(t: string, s: string) {
    exists i :: TrimmedAt(t, s, i)
  }

  /** Number of whitespace characters at the start of `s`. */
  function LeadingWhitespace(s: string): (n: nat)
    ensures n <= |s|
    ensures forall k :: 0 <= k < n ==> IsWhitespace(s[k])
    ensures n < |s| ==> !IsWhitespace(s[n])
    decreases |s|
  {
    if |s| > 0 && IsWhitespace(s[0]) then 1 + LeadingWhitespace(s[1..]) else 0
  }

  /** Where the whitespace at the end of `s` begins, looking no further left than `lo`. */
  function TrailingStart(s: string, lo: nat): (e: nat)
    requires lo <= |s|
    ensures lo <= e <= |s|
    ensures forall k :: e <= k < |s| ==> IsWhitespace(s[k])
    ensures e > lo ==> !IsWhitespace(s[e - 1])
    decreases |s|
  {
    if |s| > lo && IsWhitespace(s[|s| - 1]) then TrailingStart(s[..|s| - 1], lo) else |s|
  }

  /** `String.prototype.trim`: the result is a part of `s` with no whitespace at either
      end, and everything removed was whitespace. */
  function Trim(s: string): (t: string)
    ensures TrimmedFrom(t, s)
    ensures NoEdgeWhitespace(t)
  {
    var i := LeadingWhitespace(s);
    var e := TrailingStart(s, i);
    assert TrimmedAt(s[i..e], s, i);
    s[i..e]
  }

  /** A non-empty trimming without edge whitespace starts after the leading whitespace
      and ends where the trailing whitespace begins. */
  lemma TrimmedAtBounds(t: string, s: string, i: int)
    requires TrimmedAt(t, s, i) && NoEdgeWhitespace(t) && |t| > 0
    ensures i == LeadingWhitespace(s)
    ensures i + |t| == TrailingStart(s, i)
  {
    assert s[i + 0] == t[0];
    assert s[i + (|t| - 1)] == t[|t| - 1];
  }

  /** `Trim` is the only trimming of `s` with no whitespace left at its ends. */
  lemma TrimUnique(t: string, s: string)
    requires TrimmedFrom(t, s) && NoEdgeWhitespace(t)
    ensures t == Trim(s)
  {
    var u := Trim(s);
    var i :| TrimmedAt(t, s, i);
    var i' :| TrimmedAt(u, s, i');
    if |t| > 0 {
      assert s[i + 0] == t[0];
    }
    if |u| > 0 {
      assert s[i' + 0] == u[0];
    }
    if |t| > 0 && |u| > 0 {
      TrimmedAtBounds(t, s, i);
      TrimmedAtBounds(u, s, i');
      forall k | 0 <= k < |t| ensures t[k] == u[k] {
        assert s[i + k] == t[k];
      }
    }
  }

  /** Trimming twice is trimming once. */
  lemma TrimIdempotent(s: string)
    ensures Trim(Trim(s)) == Trim(s)
  {
    var t := Trim(s);
    assert TrimmedAt(t, t, 0);
    TrimUnique(t, t);
  }

  /** A string trims to the empty string exactly when it is whitespace only. */
  lemma TrimEmptyIffWhitespace(s: string)
    ensures Trim(s) == "" <==> AllWhitespace(s)
  {
    var t := Trim(s);
    var i :| TrimmedAt(t, s, i);
    if |t| > 0 {
      assert s[i + 0] == t[0];
    }
  }

  /** ASCII part of `String.prototype.toLowerCase`. */
  function LowerChar(c: char): char {
    if 'A' <= c <= 'Z' then (c as int + 32) as char else c
  }

  /** `String.prototype.toLowerCase`, restricted to ASCII letters: same length, each
      character lower-cased in place. */
  function Lower(s: string): (r: string)
    ensures |r| == |s|
    ensures forall k :: 0 <= k < |s| ==> r[k] == LowerChar(s[k])
    decreases |s|
  {
    if |s| == 0 then [] else [LowerChar(s[0])] + Lower(s[1..])
  }

  /** Lower-casing twice is lower-casing once. */
  lemma LowerIdempotent(s: string)
    ensures Lower(Lower(s)) == Lower(s)
  {
  }

  /** Lower-casing commutes with slicing. */
  lemma LowerSlice(s: string, i: int, j: int)
    requires 0 <= i <= j <= |s|
    ensures Lower(s[i..j]) == Lower(s)[i..j]
  {
  }

  /** Lower-casing neither creates nor removes whitespace. */
  lemma LowerKeepsWhitespace(c: char)
    ensures IsWhitespace(LowerChar(c)) <==> IsWhitespace(c)
  {
  }

  /** Lower-casing a trimming of `s` gives a trimming of `Lower(s)` at the same position. */
  lemma LowerTrimmedAt(t: string, s: string, i: int)
    requires TrimmedAt(t, s, i)
    ensures TrimmedAt(Lower(t), Lower(s), i)
  {
    forall k | 0 <= k < |s| ensures IsWhitespace(Lower(s)[k]) <==> IsWhitespace(s[k]) {
      LowerKeepsWhitespace(s[k]);
    }
  }

  /** Trimming and lower-casing can be done in either order. */
  lemma TrimLowerCommute(s: string)
    ensures Trim(Lower(s)) == Lower(Trim(s))
  {
    var t := Trim(s);
    var i :| TrimmedAt(t, s, i);
    LowerTrimmedAt(t, s, i);
    if |t| > 0 {
      LowerKeepsWhitespace(t[0]);
      LowerKeepsWhitespace(t[|t| - 1]);
    }
    TrimUnique(Lower(t), Lower(s));
  }

  /** `s` holds `t` starting at position `i`. */
  predicate OccursAt(s: string, t: string, i: int) {
    0 <= i && i + |t| <= |s| && s[i..i + |t|] == t
  }

  /** `String.prototype.includes`: `t` occurs somewhere in `s`. */
  predicate Includes(s: string, t: string)
    decreases |s|
  {
    IsPrefix(t, s) || (|s| > 0 && Includes(s[1..], t))
  }

  /** `Includes` holds exactly when `t` occurs at some position of `s`. */
  lemma {:induction false} IncludesIffOccurs(s: string, t: string)
    ensures Includes(s, t) <==> exists i :: OccursAt(s, t, i)
    decreases |s|
  {
    if Includes(s, t) {
      if IsPrefix(t, s) {
        assert OccursAt(s, t, 0);
      } else {
        IncludesIffOccurs(s[1..], t);
        var i :| OccursAt(s[1..], t, i);
        assert s[1..][i..i + |t|] == s[i + 1..i + 1 + |t|];
        assert OccursAt(s, t, i + 1);
      }
    }
    if exists i :: OccursAt(s, t, i) {
      var i :| OccursAt(s, t, i);
      if i > 0 {
        assert s[1..][i - 1..i - 1 + |t|] == s[i..i + |t|];
        assert OccursAt(s[1..], t, i - 1);
        IncludesIffOccurs(s[1..], t);
      } else {
        assert IsPrefix(t, s);
      }
    }
  }
}
