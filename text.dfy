/**
  The string operations the core relies on: Python's `str.isspace`,
  `str.strip`, `str.split` on one separator character and the `in`
  operator between two strings, together with PostgreSQL's `LOWER`
  restricted to the ASCII letters.
 */
module Text {

  /**
    The characters for which Python's `str.isspace()` holds: the ASCII
    tab, line feed, vertical tab, form feed, carriage return, the four
    information separators and space, then the Unicode spaces and line
    and paragraph separators.
   */
  const Whitespace: set<char> := {'\U{9}', '\U{A}', '\U{B}', '\U{C}', '\U{D}', '\U{1C}', '\U{1D}', '\U{1E}', '\U{1F}', '\U{20}', '\U{85}', '\U{A0}', '\U{1680}', '\U{2000}', '\U{2001}', '\U{2002}', '\U{2003}', '\U{2004}', '\U{2005}', '\U{2006}', '\U{2007}', '\U{2008}', '\U{2009}', '\U{200A}', '\U{2028}', '\U{2029}', '\U{202F}', '\U{205F}', '\U{3000}'}

  /** Python's `str.isspace()` for a single character. */
  predicate IsSpace(c: char) {
    c in Whitespace
  }

  /** No visible ASCII character (`!` to `~`) is whitespace. */
  lemma VisibleNotSpace(c: char)
    requires '!' <= c <= '~'
    ensures !IsSpace(c)
  {
  }

  predicate AllSpace(s: string) {
    forall i :: 0 <= i < |s| ==> IsSpace(s[i])
  }

  /** `s.lstrip()`: the suffix left after dropping the leading whitespace. */
  function TrimStart(s: string): (r: string)
    ensures |r| <= |s| && r == s[|s| - |r|..]
    ensures r == [] || !IsSpace(r[0])
  {
    if s != [] && IsSpace(s[0]) then TrimStart(s[1..]) else s
  }

  /** What `lstrip()` drops is whitespace. */
  lemma {:induction false} TrimStartDropsSpace(s: string)
    ensures AllSpace(s[..|s| - |TrimStart(s)|])
    decreases |s|
  {
    if s != [] && IsSpace(s[0]) {
      TrimStartDropsSpace(s[1..]);
      var k := |s| - |TrimStart(s)|;
      assert forall i :: 1 <= i < k ==> s[..k][i] == s[1..][..k - 1][i - 1];
    }
  }

  /** `s.rstrip()`: the prefix left after dropping the trailing whitespace. */
  function TrimEnd(s: string): (r: string)
    ensures |r| <= |s| && r == s[..|r|]
    ensures r == [] || !IsSpace(r[|r| - 1])
  {
    if s != [] && IsSpace(s[|s| - 1]) then TrimEnd(s[..|s| - 1]) else s
  }

  /** What `rstrip()` drops is whitespace. */
  lemma {:induction false} TrimEndDropsSpace(s: string)
    ensures AllSpace(s[|TrimEnd(s)|..])
    decreases |s|
  {
    if s != [] && IsSpace(s[|s| - 1]) {
      var n := |s| - 1;
      TrimEndDropsSpace(s[..n]);
      var k := |TrimEnd(s)|;
      assert forall i :: k <= i < n ==> s[i] == s[..n][i];
    }
  }

  /** Neither the first nor the last character is whitespace: what `strip()` leaves. */
  predicate Trimmed(s: string) {
    s == [] || (!IsSpace(s[0]) && !IsSpace(s[|s| - 1]))
  }

  /** The number of leading whitespace characters that `s.strip()` removes. */
  function StripOffset(s: string): (k: nat)
    ensures k <= |s|
  {
    |s| - |TrimStart(s)|
  }

  /**
    `s.strip()`: the slice of `s` that starts after its leading whitespace
    and stops before its trailing whitespace; it neither starts nor ends
    with whitespace, and everything cut away on either side is whitespace.
   */
  function Strip(s: string): (r: string)
    ensures Trimmed(r)
  {
    TrimEnd(TrimStart(s))
  }

  /**
    What `strip()` keeps is the slice of `s` after its leading whitespace,
    and everything it cuts away, on either side, is whitespace.
   */
  lemma StripSlice(s: string)
    ensures StripOffset(s) + |Strip(s)| <= |s|
    ensures Strip(s) == s[StripOffset(s)..StripOffset(s) + |Strip(s)|]
    ensures AllSpace(s[..StripOffset(s)]) && AllSpace(s[StripOffset(s) + |Strip(s)|..])
  {
    var t := TrimStart(s);
    var r := TrimEnd(t);
    var k := StripOffset(s);
    TrimStartDropsSpace(s);
    TrimEndDropsSpace(t);
    assert s[k..] == t;
    assert r == t[..|r|];
    assert s[k + |r|..] == t[|r|..];
  }

  /** Stripping a string that has no whitespace at either end changes nothing. */
  lemma StripUnchanged(s: string)
    requires Trimmed(s)
    ensures Strip(s) == s
  {
    assert TrimStart(s) == s;
    assert TrimEnd(s) == s;
  }

  predicate IsUpper(c: char) {
    'A' <= c <= 'Z'
  }

  /** PostgreSQL's LOWER on one character, for the ASCII letters. */
  function LowerChar(c: char): (r: char)
    ensures !IsUpper(r)
    ensures !IsUpper(c) ==> r == c
  {
    if IsUpper(c) then (c as int + 32) as char else c
  }

  /** LOWER(s): every character mapped on its own, the length kept. */
  function Lower(s: string): (r: string)
    ensures |r| == |s|
    ensures forall i :: 0 <= i < |s| ==> r[i] == LowerChar(s[i])
  {
    if s == [] then [] else [LowerChar(s[0])] + Lower(s[1..])
  }

  /** Lowering twice is lowering once. */
  lemma LowerIdempotent(s: string)
    ensures Lower(Lower(s)) == Lower(s)
  {
    var l := Lower(s);
    forall i | 0 <= i < |s|
      ensures Lower(l)[i] == l[i]
    {
      assert !IsUpper(l[i]);
    }
  }

  /** A string is its own lower-case form exactly when it has no upper-case letter. */
  lemma LowerFixedPoint(s: string)
    ensures Lower(s) == s <==> forall i :: 0 <= i < |s| ==> !IsUpper(s[i])
  {
    if forall i :: 0 <= i < |s| ==> !IsUpper(s[i]) {
      assert forall i :: 0 <= i < |s| ==> Lower(s)[i] == s[i];
    } else {
      var i :| 0 <= i < |s| && IsUpper(s[i]);
      assert Lower(s)[i] != s[i];
    }
  }

  /** Python's `s.split(sep)` for a one-character separator. */
  function Split(s: string, sep: char): (r: seq<string>)
    ensures |r| >= 1
    ensures forall i :: 0 <= i < |r| ==> sep !in r[i]
  {
    if s == [] then [[]]
    else
      var rest := Split(s[1..], sep);
      if s[0] == sep then [[]] + rest else [[s[0]] + rest[0]] + rest[1..]
  }

  /** Python's `sep.join(pieces)` for a one-character separator. */
  function Join(pieces: seq<string>, sep: char): string {
    if |pieces| == 0 then []
    else if |pieces| == 1 then pieces[0]
    else pieces[0] + [sep] + Join(pieces[1..], sep)
  }

  /** The number of occurrences of `c` in `s` (`s.count(c)`). */
  function Count(s: string, c: char): nat {
    if s == [] then 0 else (if s[0] == c then 1 else 0) + Count(s[1..], c)
  }

  /** `s.replace(c, "")`: `s` with every occurrence of `c` dropped and the other characters kept in order. */
  function Remove(s: string, c: char): (r: string)
    ensures c !in r
    ensures |r| == |s| - Count(s, c)
  {
    if s == [] then [] else (if s[0] == c then [] else [s[0]]) + Remove(s[1..], c)
  }

  /** A character survives `Remove` exactly when it occurs and is not the one removed. */
  lemma {:induction false} RemoveMembers(s: string, c: char, x: char)
    ensures x in Remove(s, c) <==> x in s && x != c
  {
    if s != [] {
      RemoveMembers(s[1..], c, x);
      assert s == [s[0]] + s[1..];
    }
  }

  /** Removing a character that does not occur changes nothing. */
  lemma {:induction false} RemoveAbsent(s: string, c: char)
    requires c !in s
    ensures Remove(s, c) == s
  {
    if s != [] {
      assert c !in s[1..];
      RemoveAbsent(s[1..], c);
      assert s == [s[0]] + s[1..];
    }
  }

  /** `Remove` works piece by piece. */
  lemma {:induction false} RemoveConcat(a: string, b: string, c: char)
    ensures Remove(a + b, c) == Remove(a, c) + Remove(b, c)
  {
    if a == [] {
      assert a + b == b;
    } else {
      var x, tail := a[0], a[1..];
      var head := if x == c then [] else [x];
      assert a == [x] + tail && a + b == [x] + (tail + b);
      calc {
        Remove(a + b, c);
        { RemoveCons(x, tail + b, c); }
        head + Remove(tail + b, c);
        { RemoveConcat(tail, b, c); }
        head + (Remove(tail, c) + Remove(b, c));
        (head + Remove(tail, c)) + Remove(b, c);
        { RemoveCons(x, tail, c); }
        Remove(a, c) + Remove(b, c);
      }
    }
  }

  lemma RemoveCons(x: char, s: string, c: char)
    ensures Remove([x] + s, c) == (if x == c then [] else [x]) + Remove(s, c)
  {
    assert ([x] + s)[0] == x && ([x] + s)[1..] == s;
  }

  /** A first character other than the removed one stays first. */
  lemma RemoveHead(s: string, c: char)
    requires s != [] && s[0] != c
    ensures Remove(s, c) != [] && Remove(s, c)[0] == s[0]
  {
  }

  /** Joining the pieces of a split with the same separator gives back the string. */
  lemma {:induction false} JoinSplit(s: string, sep: char)
    ensures Join(Split(s, sep), sep) == s
  {
    if s != [] {
      var rest := Split(s[1..], sep);
      JoinSplit(s[1..], sep);
      if s[0] == sep {
        assert Split(s, sep) == [[]] + rest;
        assert Join(Split(s, sep), sep) == [] + [sep] + Join(rest, sep);
        assert s == [sep] + s[1..];
      } else if |rest| == 1 {
        assert Split(s, sep) == [[s[0]] + rest[0]];
        assert s == [s[0]] + s[1..];
      } else {
        var first := [s[0]] + rest[0];
        assert Split(s, sep) == [first] + rest[1..];
        assert Join(rest, sep) == rest[0] + [sep] + Join(rest[1..], sep);
        assert Join(Split(s, sep), sep) == first + [sep] + Join(rest[1..], sep);
        assert s == [s[0]] + s[1..];
      }
    }
  }

  lemma {:induction false} SplitWithoutSeparator(a: string, sep: char)
    requires sep !in a
    ensures Split(a, sep) == [a]
  {
    if a != [] {
      SplitWithoutSeparator(a[1..], sep);
      assert a == [a[0]] + a[1..];
    }
  }

  lemma {:induction false} SplitAtSeparator(a: string, b: string, sep: char)
    requires sep !in a
    ensures Split(a + [sep] + b, sep) == [a] + Split(b, sep)
  {
    var s := a + [sep] + b;
    if a == [] {
      assert s[1..] == b;
    } else {
      assert s[1..] == a[1..] + [sep] + b;
      SplitAtSeparator(a[1..], b, sep);
      assert a == [a[0]] + a[1..];
    }
  }

  /** Splitting a join of separator-free pieces gives back the pieces. */
  lemma {:induction false} SplitJoin(pieces: seq<string>, sep: char)
    requires |pieces| >= 1
    requires forall i :: 0 <= i < |pieces| ==> sep !in pieces[i]
    ensures Split(Join(pieces, sep), sep) == pieces
  {
    if |pieces| == 1 {
      SplitWithoutSeparator(pieces[0], sep);
    } else {
      SplitJoin(pieces[1..], sep);
      SplitAtSeparator(pieces[0], Join(pieces[1..], sep), sep);
      assert pieces == [pieces[0]] + pieces[1..];
    }
  }

  /** A split yields one more piece than there are separators. */
  lemma {:induction false} SplitLength(s: string, sep: char)
    ensures |Split(s, sep)| == Count(s, sep) + 1
  {
    if s != [] {
      SplitLength(s[1..], sep);
    }
  }

  predicate StartsWith(s: string, prefix: string) {
    |prefix| <= |s| && s[..|prefix|] == prefix
  }

  /** `needle` occurs in `hay` at index `k`. */
  predicate OccursAt(hay: string, needle: string, k: int) {
    0 <= k <= |hay| - |needle| && hay[k..k + |needle|] == needle
  }

  /** Python's `needle in hay` for two strings, scanning `hay` from the left. */
  predicate Contains(hay: string, needle: string)
    decreases |hay|
  {
    StartsWith(hay, needle) || (hay != [] && Contains(hay[1..], needle))
  }

  /** The scan finds `needle` exactly when it occurs at some index of `hay`. */
  lemma {:induction false} ContainsOccurs(hay: string, needle: string)
    ensures Contains(hay, needle) <==> exists k :: OccursAt(hay, needle, k)
    decreases |hay|
  {
    if hay != [] {
      ContainsOccurs(hay[1..], needle);
      forall k | OccursAt(hay[1..], needle, k)
        ensures OccursAt(hay, needle, k + 1)
      {
        assert hay[k + 1..k + 1 + |needle|] == hay[1..][k..k + |needle|];
      }
      forall k | OccursAt(hay, needle, k) && k > 0
        ensures OccursAt(hay[1..], needle, k - 1)
      {
        assert hay[k..k + |needle|] == hay[1..][k - 1..k - 1 + |needle|];
      }
    }
    if StartsWith(hay, needle) {
      assert OccursAt(hay, needle, 0);
    }
  }
}
