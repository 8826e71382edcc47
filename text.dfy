/** String helpers with Python's semantics: str.strip, str.lower, str.join. */
module Text {

  /** The characters Python 2's str.strip() removes. */
  predicate IsSpace(c: char) {
    c == ' ' || c == '\t' || c == '\n' || c == '\r' || c == '\U{B}' || c == '\U{C}'
  }

  predicate AllSpace(s: string) {
    forall i :: 0 <= i < |s| ==> IsSpace(s[i])
  }

  /** Drops leading whitespace: the result is the suffix that starts at the first non-space. */
  function TrimLeft(s: string): (r: string)
    ensures |r| <= |s| && r == s[|s| - |r|..]
    ensures AllSpace(s[..|s| - |r|])
    ensures r == [] || !IsSpace(r[0])
  {
    if s != [] && IsSpace(s[0]) then
      var r := TrimLeft(s[1..]);
      assert s[1..][..|s| - 1 - |r|] == s[1..|s| - |r|];
      r
    else s
  }

  /** Drops trailing whitespace: the result is the prefix that ends at the last non-space. */
  function TrimRight(s: string): (r: string)
    ensures |r| <= |s| && r == s[..|r|]
    ensures AllSpace(s[|r|..])
    ensures r == [] || !IsSpace(r[|r| - 1])
  {
    if s != [] && IsSpace(s[|s| - 1]) then
      var r := TrimRight(s[..|s| - 1]);
      assert s[..|s| - 1][|r|..] + [s[|s| - 1]] == s[|r|..];
      r
    else s
  }

  /** Python's str.strip(): the slice of `s` without leading and trailing whitespace. */
  function Strip(s: string): (r: string)
    ensures |r| <= |s|
    ensures r == [] || (!IsSpace(r[0]) && !IsSpace(r[|r| - 1]))
  {
    TrimRight(TrimLeft(s))
  }

  /** strip() removes only whitespace, and only at the two ends. */
  lemma StripIsSlice(s: string) returns (i: nat)
    ensures i + |Strip(s)| <= |s| && Strip(s) == s[i..i + |Strip(s)|]
    ensures AllSpace(s[..i]) && AllSpace(s[i + |Strip(s)|..])
  {
    var l := TrimLeft(s);
    var r := TrimRight(l);
    i := |s| - |l|;
    assert r == s[i..i + |r|];
    assert s[i + |r|..] == l[|r|..];
  }

  /** strip() is idempotent. */
  lemma StripIdempotent(s: string)
    ensures Strip(Strip(s)) == Strip(s)
  {
  }

  /** A string that neither starts nor ends with whitespace is its own strip(). */
  lemma StripUnpadded(s: string)
    requires s != [] && !IsSpace(s[0]) && !IsSpace(s[|s| - 1])
    ensures Strip(s) == s
  {
    assert TrimLeft(s) == s;
  }

  function LowerChar(c: char): (r: char)
    ensures 'A' <= c <= 'Z' ==> 'a' <= r <= 'z'
    ensures !('A' <= c <= 'Z') ==> r == c
  {
    if 'A' <= c <= 'Z' then (c as int - 'A' as int + 'a' as int) as char else c
  }

  /** Python's str.lower() restricted to ASCII letters. */
  function Lower(s: string): (r: string)
    ensures |r| == |s|
    ensures forall i :: 0 <= i < |s| ==> r[i] == LowerChar(s[i])
  {
    seq(|s|, i requires 0 <= i < |s| => LowerChar(s[i]))
  }

  /** Python's sep.join(parts). */
  function Join(parts: seq<string>, sep: string): string {
    if |parts| == 0 then []
    else if |parts| == 1 then parts[0]
    else parts[0] + sep + Join(parts[1..], sep)
  }

  lemma JoinCons(head: string, tail: seq<string>, sep: string)
    requires |tail| >= 1
    ensures Join([head] + tail, sep) == head + sep + Join(tail, sep)
  {
    assert ([head] + tail)[1..] == tail;
  }

  /** Python's s.startswith(prefix). */
  predicate StartsWith(s: string, prefix: string) {
    |prefix| <= |s| && s[..|prefix|] == prefix
  }

  /** Plain splitting on every occurrence of the delimiter (Python's s.split(d)). */
  function SplitOn(s: string, delimiter: char): (parts: seq<string>)
    ensures |parts| >= 1
    ensures forall i :: 0 <= i < |parts| ==> delimiter !in parts[i]
  {
    if s == [] then [[]]
    else
      var rest := SplitOn(s[1..], delimiter);
      if s[0] == delimiter then [[]] + rest
      else [[s[0]] + rest[0]] + rest[1..]
  }

  lemma {:induction false} JoinGlueHead(c: char, parts: seq<string>, sep: string)
    requires |parts| >= 1
    ensures Join([[c] + parts[0]] + parts[1..], sep) == [c] + Join(parts, sep)
  {
    var glued := [[c] + parts[0]] + parts[1..];
    assert glued[1..] == parts[1..];
  }

  /** Splitting and re-joining with the delimiter gives the line back. */
  lemma {:induction false} JoinSplitOn(s: string, delimiter: char)
    ensures Join(SplitOn(s, delimiter), [delimiter]) == s
  {
    if s != [] {
      var rest := SplitOn(s[1..], delimiter);
      JoinSplitOn(s[1..], delimiter);
      if s[0] == delimiter {
        assert ([[]] + rest)[1..] == rest;
        assert s == [delimiter] + s[1..];
      } else {
        JoinGlueHead(s[0], rest, [delimiter]);
        assert s == [s[0]] + s[1..];
      }
    }
  }

  /** Splitting a text that has no delimiter gives the text alone. */
  lemma {:induction false} SplitOnAbsent(s: string, delimiter: char)
    requires delimiter !in s
    ensures SplitOn(s, delimiter) == [s]
  {
    if s != [] {
      assert delimiter !in s[1..] by { assert forall x :: x in s[1..] ==> x in s; }
      SplitOnAbsent(s[1..], delimiter);
      assert s[0] != delimiter;
      assert [s[0]] + s[1..] == s;
    }
  }

  /** A part followed by the delimiter splits off as one part. */
  lemma {:induction false} SplitOnGlued(a: string, delimiter: char, rest: string)
    requires delimiter !in a
    ensures SplitOn(a + [delimiter] + rest, delimiter) == [a] + SplitOn(rest, delimiter)
  {
    var s := a + [delimiter] + rest;
    if a != [] {
      assert s[1..] == a[1..] + [delimiter] + rest;
      assert delimiter !in a[1..] by { assert forall x :: x in a[1..] ==> x in a; }
      SplitOnGlued(a[1..], delimiter, rest);
      assert s[0] == a[0] != delimiter;
      assert [a[0]] + a[1..] == a;
    } else {
      assert s[1..] == rest;
    }
  }

  /** Joining parts free of the delimiter and splitting again gives the parts back. */
  lemma {:induction false} SplitOnJoin(parts: seq<string>, delimiter: char)
    requires |parts| >= 1
    requires forall i :: 0 <= i < |parts| ==> delimiter !in parts[i]
    ensures SplitOn(Join(parts, [delimiter]), delimiter) == parts
  {
    if |parts| == 1 {
      SplitOnAbsent(parts[0], delimiter);
    } else {
      SplitOnJoin(parts[1..], delimiter);
      SplitOnGlued(parts[0], delimiter, Join(parts[1..], [delimiter]));
      assert [parts[0]] + parts[1..] == parts;
    }
  }
}
