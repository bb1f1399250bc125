/**
 * The PHP string primitives the adapter relies on: `explode`, `join`
 * (`implode`), `trim` with a character list, `strtolower` on one character
 * and the prefix test `strpos(...) === 0`. PHP strings are byte strings; here
 * each byte is a `char`.
 */
module Text {

  /** `explode(sep, s)`: the pieces of `s` between occurrences of `sep`; never empty. */
  function Explode(sep: char, s: string): (parts: seq<string>)
    ensures |parts| >= 1
    decreases |s|
  {
    if s == [] then [[]]
    else
      var rest := Explode(sep, s[1..]);
      if s[0] == sep then [[]] + rest
      else [[s[0]] + rest[0]] + rest[1..]
  }

  /** No piece of `explode` holds the separator. */
  lemma {:induction false} ExplodePieces(sep: char, s: string)
    ensures forall i :: 0 <= i < |Explode(sep, s)| ==> sep !in Explode(sep, s)[i]
    decreases |s|
  {
    if s != [] {
      ExplodePieces(sep, s[1..]);
      var rest := Explode(sep, s[1..]);
      var parts := Explode(sep, s);
      if s[0] != sep {
        assert parts == [[s[0]] + rest[0]] + rest[1..];
        assert forall i :: 1 <= i < |parts| ==> parts[i] == rest[i];
      }
    }
  }

  /** `explode` gives more than one piece exactly when `s` holds the separator. */
  lemma {:induction false} ExplodeCount(sep: char, s: string)
    ensures |Explode(sep, s)| == 1 <==> sep !in s
    decreases |s|
  {
    if s != [] {
      ExplodeCount(sep, s[1..]);
      assert s == [s[0]] + s[1..];
    }
  }

  /** In particular the last piece holds no separator. */
  lemma LastPieceNoSep(sep: char, s: string)
    ensures sep !in Explode(sep, s)[|Explode(sep, s)| - 1]
  {
    ExplodePieces(sep, s);
  }

  /** `join(sep, parts)`: the pieces glued back with `sep`; "" for no pieces. */
  function Implode(sep: char, parts: seq<string>): string
  {
    if |parts| == 0 then []
    else if |parts| == 1 then parts[0]
    else parts[0] + [sep] + Implode(sep, parts[1..])
  }

  /** Joining the pieces of `explode` gives back the original string. */
  lemma {:induction false} ImplodeExplode(sep: char, s: string)
    ensures Implode(sep, Explode(sep, s)) == s
    decreases |s|
  {
    if s != [] {
      var rest := Explode(sep, s[1..]);
      ImplodeExplode(sep, s[1..]);
      if s[0] == sep {
        assert Explode(sep, s) == [[]] + rest;
        assert s == [] + [sep] + s[1..];
      } else {
        var parts := Explode(sep, s);
        assert parts == [[s[0]] + rest[0]] + rest[1..];
        if |rest| == 1 {
          assert parts == [[s[0]] + rest[0]];
        } else {
          assert parts[1..] == rest[1..];
          assert Implode(sep, rest) == rest[0] + [sep] + Implode(sep, rest[1..]);
        }
      }
    }
  }

  /** Exploding pieces that do not contain the separator, after joining them, gives the pieces back. */
  lemma {:induction false} ExplodeImplode(sep: char, parts: seq<string>)
    requires |parts| >= 1
    requires forall i :: 0 <= i < |parts| ==> sep !in parts[i]
    ensures Explode(sep, Implode(sep, parts)) == parts
    decreases |parts|
  {
    if |parts| == 1 {
      ExplodeNoSep(sep, parts[0]);
    } else {
      ExplodeImplode(sep, parts[1..]);
      ExplodeAfterPiece(sep, parts[0], Implode(sep, parts[1..]));
    }
  }

  /** A string without the separator explodes to itself alone. */
  lemma {:induction false} ExplodeNoSep(sep: char, s: string)
    requires sep !in s
    ensures Explode(sep, s) == [s]
    decreases |s|
  {
    if s != [] {
      ExplodeNoSep(sep, s[1..]);
      assert [s[0]] + s[1..] == s;
    }
  }

  /** Exploding `a + sep + b`, where `a` holds no separator, yields `a` and then the pieces of `b`. */
  lemma {:induction false} ExplodeAfterPiece(sep: char, a: string, b: string)
    requires sep !in a
    ensures Explode(sep, a + [sep] + b) == [a] + Explode(sep, b)
    decreases |a|
  {
    var s := a + [sep] + b;
    if a == [] {
      assert s[1..] == b;
    } else {
      assert s[1..] == a[1..] + [sep] + b;
      ExplodeAfterPiece(sep, a[1..], b);
      assert [a[0]] + a[1..] == a;
    }
  }

  /** Exploding `q + sep + leaf`, where `leaf` holds no separator, yields the pieces of `q` and then `leaf`. */
  lemma {:induction false} ExplodeSnoc(sep: char, s: string, q: string, leaf: string)
    requires sep !in leaf && s == q + [sep] + leaf
    ensures Explode(sep, s) == Explode(sep, q) + [leaf]
    decreases |q|
  {
    if q == [] {
      assert s[1..] == leaf;
      ExplodeNoSep(sep, leaf);
    } else {
      assert s[1..] == q[1..] + [sep] + leaf;
      ExplodeSnoc(sep, s[1..], q[1..], leaf);
      var e := Explode(sep, q[1..]);
      if q[0] != sep {
        assert (e + [leaf])[1..] == e[1..] + [leaf];
      }
    }
  }

  /** Joining splits off the last piece: `join(p) == join(init(p)) + sep + last(p)`. */
  lemma {:induction false} ImplodeSnoc(sep: char, parts: seq<string>)
    requires |parts| >= 2
    ensures Implode(sep, parts) == Implode(sep, parts[..|parts| - 1]) + [sep] + parts[|parts| - 1]
    decreases |parts|
  {
    if |parts| > 2 {
      ImplodeSnoc(sep, parts[1..]);
      assert parts[1..][..|parts| - 2] == parts[..|parts| - 1][1..];
    }
  }

  /**
   * The last piece of `explode` is what follows the last separator, and the
   * other pieces joined are what precedes it.
   */
  lemma LastPiece(sep: char, s: string)
    requires sep in s
    ensures var parts := Explode(sep, s);
      var leaf := parts[|parts| - 1];
      |parts| >= 2 && |leaf| < |s| && s == Implode(sep, parts[..|parts| - 1]) + [sep] + leaf
  {
    var parts := Explode(sep, s);
    ExplodeCount(sep, s);
    ImplodeExplode(sep, s);
    ImplodeSnoc(sep, parts);
  }

  /** Removes leading characters from `cs` (PHP `ltrim` with a character list). */
  function TrimLeft(s: string, cs: set<char>): (r: string)
    ensures |r| <= |s| && r == s[|s| - |r|..]
    ensures r == [] || r[0] !in cs
    ensures forall i :: 0 <= i < |s| - |r| ==> s[i] in cs
    decreases |s|
  {
    if s != [] && s[0] in cs then TrimLeft(s[1..], cs) else s
  }

  /** Removes trailing characters from `cs` (PHP `rtrim` with a character list). */
  function TrimRight(s: string, cs: set<char>): (r: string)
    ensures |r| <= |s| && r == s[..|r|]
    ensures r == [] || r[|r| - 1] !in cs
    ensures forall i :: |r| <= i < |s| ==> s[i] in cs
    decreases |s|
  {
    if s != [] && s[|s| - 1] in cs then TrimRight(s[..|s| - 1], cs) else s
  }

  /** Nothing is trimmed from a string that does not start with a listed character. */
  lemma TrimLeftKeeps(s: string, cs: set<char>)
    requires s != [] ==> s[0] !in cs
    ensures TrimLeft(s, cs) == s
  {
  }

  /** Nothing is trimmed from a string that does not end with a listed character. */
  lemma TrimRightKeeps(s: string, cs: set<char>)
    requires s != [] ==> s[|s| - 1] !in cs
    ensures TrimRight(s, cs) == s
  {
  }

  /** Trimming the right end removes exactly a tail of listed characters behind an unlisted one. */
  lemma {:induction false} TrimRightDrops(core: string, tail: string, cs: set<char>)
    requires core != [] && core[|core| - 1] !in cs
    requires forall i :: 0 <= i < |tail| ==> tail[i] in cs
    ensures TrimRight(core + tail, cs) == core
    decreases |tail|
  {
    if tail != [] {
      var s := core + tail;
      assert s[|s| - 1] == tail[|tail| - 1];
      assert s[..|s| - 1] == core + tail[..|tail| - 1];
      TrimRightDrops(core, tail[..|tail| - 1], cs);
    } else {
      assert core + tail == core;
    }
  }

  /** PHP `trim(s, cs)`: both ends. */
  function Trim(s: string, cs: set<char>): string
  {
    TrimRight(TrimLeft(s, cs), cs)
  }

  /** `strtolower` on one character (ASCII letters only, as PHP 8 does). */
  function LowerChar(c: char): (l: char)
    ensures 'A' <= c <= 'Z' ==> l as int == c as int + 32
    ensures !('A' <= c <= 'Z') ==> l == c
  {
    if 'A' <= c <= 'Z' then (c as int + 32) as char else c
  }

  /** `strpos(s, prefix) === 0`. */
  predicate StartsWith(s: string, prefix: string) {
    |prefix| <= |s| && s[..|prefix|] == prefix
  }
}
