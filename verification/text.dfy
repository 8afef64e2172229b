/** The handful of Python `str` operations the core relies on, over `string`
    (a sequence of `char`). */
module Text {

  /** `str.lower()` restricted to ASCII letters; HTTP method names are ASCII. */
  function LowerChar(c: char): char {
    if 'A' <= c <= 'Z' then (c as int - 'A' as int + 'a' as int) as char else c
  }

  function Lower(s: string): (r: string)
    ensures |r| == |s|
    ensures forall i :: 0 <= i < |s| ==> r[i] == LowerChar(s[i])
  {
    seq(|s|, i requires 0 <= i < |s| => LowerChar(s[i]))
  }

  /** `s.endswith(suffix)`. */
  predicate EndsWith(s: string, suffix: string) {
    |suffix| <= |s| && s[|s| - |suffix|..] == suffix
  }

  /** `s.startswith(prefix)`. */
  predicate StartsWith(s: string, prefix: string) {
    |prefix| <= |s| && s[..|prefix|] == prefix
  }

  /** `sub in s` for strings: `sub` starts at some position of `s`. */
  predicate Contains(s: string, sub: string)
    decreases |s|
  {
    StartsWith(s, sub) || (|s| > 0 && Contains(s[1..], sub))
  }

  /** `s.lstrip(c)`: drops the leading run of `c`. */
  function TrimStart(s: string, c: char): (r: string)
    ensures |r| <= |s| && r == s[|s| - |r|..]
    ensures forall i :: 0 <= i < |s| - |r| ==> s[i] == c
    ensures r == [] || r[0] != c
    decreases |s|
  {
    if |s| > 0 && s[0] == c then TrimStart(s[1..], c) else s
  }

  /** `s.rstrip(c)`: drops the trailing run of `c`. */
  function TrimEnd(s: string, c: char): (r: string)
    ensures |r| <= |s| && r == s[..|r|]
    ensures forall i :: |r| <= i < |s| ==> s[i] == c
    ensures r == [] || r[|r| - 1] != c
    decreases |s|
  {
    if |s| > 0 && s[|s| - 1] == c then TrimEnd(s[..|s| - 1], c) else s
  }

  /** `s.strip(c)`. */
  function Strip(s: string, c: char): string {
    TrimEnd(TrimStart(s, c), c)
  }

  /** Where the stripped block starts in `s`. */
  function StripOffset(s: string, c: char): nat
    requires |TrimStart(s, c)| <= |s|
  {
    |s| - |TrimStart(s, c)|
  }

  /** The stripped string is the block of `s` that starts at `StripOffset`. */
  lemma StripBlock(s: string, c: char)
    ensures StripOffset(s, c) + |Strip(s, c)| <= |s|
    ensures Strip(s, c) == s[StripOffset(s, c)..StripOffset(s, c) + |Strip(s, c)|]
  {
    var t := TrimStart(s, c);
    var r := TrimEnd(t, c);
    var k := |s| - |t|;
    assert t == s[k..] && r == t[..|r|];
  }

  /** Everything of `s` around the stripped block is `c`. */
  lemma StripAround(s: string, c: char)
    ensures forall i :: 0 <= i < StripOffset(s, c) ==> s[i] == c
    ensures forall i :: StripOffset(s, c) + |Strip(s, c)| <= i < |s| ==> s[i] == c
  {
    var t := TrimStart(s, c);
    var r := TrimEnd(t, c);
    var k := |s| - |t|;
    assert t == s[k..];
    forall i | k + |r| <= i < |s|
      ensures s[i] == c
    {
      assert s[i] == t[i - k];
    }
  }

  /** The stripped string neither starts nor ends with `c`. */
  lemma StripEnds(s: string, c: char)
    ensures Strip(s, c) == [] || (Strip(s, c)[0] != c && Strip(s, c)[|Strip(s, c)| - 1] != c)
  {
    var t := TrimStart(s, c);
    var r := TrimEnd(t, c);
    assert r == t[..|r|];
    assert r != [] ==> r[0] == t[0];
  }

  /** A string with exactly one `c` at each end strips to what lies between. */
  lemma StripOneEach(s: string, c: char)
    requires |s| >= 3 && s[0] == c && s[1] != c && s[|s| - 2] != c && s[|s| - 1] == c
    ensures Strip(s, c) == s[1..|s| - 1]
  {
    var t := s[1..];
    assert TrimStart(s, c) == TrimStart(t, c) == t;
    assert t[..|t| - 1] == s[1..|s| - 1];
  }

  /** The stripped string is a contiguous block of `s`, everything around it
      is `c`, and it neither starts nor ends with `c`. */
  lemma StripSpec(s: string, c: char)
    ensures StripOffset(s, c) + |Strip(s, c)| <= |s|
    ensures Strip(s, c) == s[StripOffset(s, c)..StripOffset(s, c) + |Strip(s, c)|]
    ensures forall i :: 0 <= i < StripOffset(s, c) ==> s[i] == c
    ensures forall i :: StripOffset(s, c) + |Strip(s, c)| <= i < |s| ==> s[i] == c
    ensures Strip(s, c) == [] || (Strip(s, c)[0] != c && Strip(s, c)[|Strip(s, c)| - 1] != c)
  {
    StripBlock(s, c);
    StripAround(s, c);
    StripEnds(s, c);
  }

  /** `s.split(sep)`: always at least one piece (`"".split("/") == [""]`), and no
      piece contains the separator. Exactly one piece when `sep` is absent. */
  function Split(s: string, sep: char): (r: seq<string>)
    ensures |r| >= 1
    ensures forall i :: 0 <= i < |r| ==> sep !in r[i]
    ensures |r| == 1 <==> sep !in s
    decreases |s|
  {
    if s == [] then [[]]
    else
      var rest := Split(s[1..], sep);
      if s[0] == sep then [[]] + rest
      else [[s[0]] + rest[0]] + rest[1..]
  }

  /** `sep.join(parts)`, the inverse of `Split`. */
  function Join(parts: seq<string>, sep: char): string
    decreases |parts|
  {
    if |parts| == 0 then []
    else if |parts| == 1 then parts[0]
    else parts[0] + [sep] + Join(parts[1..], sep)
  }

  lemma {:induction false} JoinSplit(s: string, sep: char)
    ensures Join(Split(s, sep), sep) == s
  {
    if s != [] {
      var rest := Split(s[1..], sep);
      JoinSplit(s[1..], sep);
      if s[0] == sep {
        assert ([[]] + rest)[1..] == rest;
      } else if |rest| > 1 {
        var parts := [[s[0]] + rest[0]] + rest[1..];
        assert parts[1..] == rest[1..];
        assert Join(rest, sep) == rest[0] + [sep] + Join(rest[1..], sep);
      }
    }
  }

  /** The last piece of `s.split(sep)`, as `s.split(sep)[-1]`. */
  function LastPiece(s: string, sep: char): string {
    var parts := Split(s, sep);
    parts[|parts| - 1]
  }

  /** Without a separator the last piece is the whole string. */
  lemma LastPieceWhole(s: string, sep: char)
    requires sep !in s
    ensures LastPiece(s, sep) == s
  {
    JoinSplit(s, sep);
  }

  /** With a separator somewhere, dropping the first character keeps the last piece. */
  lemma LastPieceTail(s: string, sep: char)
    requires sep in s
    ensures LastPiece(s, sep) == LastPiece(s[1..], sep)
  {
    var rest := Split(s[1..], sep);
    if s[0] != sep {
      assert sep in s[1..] by {
        assert s == [s[0]] + s[1..];
      }
      assert |rest| > 1;
    }
  }

  /** A character other than the separator is in the last piece exactly when it
      occurs in `s` with no separator after it. */
  lemma {:induction false} LastPieceHas(s: string, sep: char, c: char)
    requires c != sep
    ensures c in LastPiece(s, sep) <==> exists i :: 0 <= i < |s| && s[i] == c && sep !in s[i..]
  {
    if sep !in s {
      LastPieceWhole(s, sep);
      if c in s {
        var i :| 0 <= i < |s| && s[i] == c;
        assert sep !in s[i..];
      }
    } else {
      var t := s[1..];
      LastPieceTail(s, sep);
      LastPieceHas(t, sep, c);
      assert s[0..] == s;
      if exists i :: 0 <= i < |s| && s[i] == c && sep !in s[i..] {
        var i :| 0 <= i < |s| && s[i] == c && sep !in s[i..];
        assert s[i..] == t[i - 1..];
      }
      if exists i :: 0 <= i < |t| && t[i] == c && sep !in t[i..] {
        var i :| 0 <= i < |t| && t[i] == c && sep !in t[i..];
        assert s[i + 1..] == t[i..];
      }
    }
  }
}
