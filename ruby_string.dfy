/**
 * The parts of Ruby's String class that the transaction code relies on:
 * `split("\r\n")` (which drops trailing empty pieces), `split("=", 2)`
 * (which splits at the first separator only) and `upcase`.
 */
module RubyString {

  const CR: char := '\r'
  const LF: char := '\n'

  /** s holds a CR immediately followed by an LF somewhere. */
  predicate ContainsCrlf(s: string)
  {
    exists i :: 0 <= i < |s| - 1 && s[i] == CR && s[i + 1] == LF
  }

  /** A string with no carriage return cannot hold a line break. */
  lemma NoCrNoCrlf(s: string)
    requires CR !in s
    ensures !ContainsCrlf(s)
  {
  }

  /** Gluing two strings creates no CRLF unless the first ends in CR. */
  lemma ConcatNoCrlf(a: string, b: string)
    requires !ContainsCrlf(a) && !ContainsCrlf(b)
    requires a == [] || a[|a| - 1] != CR
    ensures !ContainsCrlf(a + b)
  {
    var s := a + b;
    forall i | 0 <= i < |s| - 1 ensures !(s[i] == CR && s[i + 1] == LF) {
      if i + 1 < |a| {
        assert s[i] == a[i] && s[i + 1] == a[i + 1];
      } else if i + 1 == |a| {
        assert s[i] == a[|a| - 1];
      } else {
        assert s[i] == b[i - |a|] && s[i + 1] == b[i + 1 - |a|];
      }
    }
  }

  // ---------------------------------------------------------------------
  // Upper-casing

  /** `String#upcase` on one character: the ASCII letters a-z. */
  function UpChar(c: char): (u: char)
    ensures !('a' <= u <= 'z')
    ensures !('a' <= c <= 'z') ==> u == c
  {
    if 'a' <= c <= 'z' then (c as int - 32) as char else c
  }

  /** `String#upcase`: every character upper-cased, the length kept. */
  function Upcase(s: string): (r: string)
    ensures |r| == |s|
    ensures forall i :: 0 <= i < |s| ==> r[i] == UpChar(s[i])
  {
    if s == [] then [] else [UpChar(s[0])] + Upcase(s[1..])
  }

  /** An upper-cased string holds no lower-case ASCII letter. */
  lemma UpcaseHasNoLower(s: string, i: int)
    requires 0 <= i < |s|
    ensures !('a' <= Upcase(s)[i] <= 'z')
  {
  }

  // ---------------------------------------------------------------------
  // Splitting on CRLF

  /**
   * Every piece of s between CRLF separators, empty ones included, from
   * the left: the first CRLF found closes the first piece.
   */
  function Pieces(s: string): (r: seq<string>)
    ensures |r| >= 1
    ensures r[0] <= s
    ensures forall i :: 0 <= i < |r| ==> !ContainsCrlf(r[i])
    decreases |s|
  {
    if |s| == 0 then [""]
    else if |s| >= 2 && s[0] == CR && s[1] == LF then
      var rest := Pieces(s[2..]);
      assert forall i :: 1 <= i < |rest| + 1 ==> ([""] + rest)[i] == rest[i - 1];
      [""] + rest
    else
      var rest := Pieces(s[1..]);
      PrependNoCrlf(s[0], rest[0]);
      var first := [s[0]] + rest[0];
      assert forall i :: 1 <= i < |rest| ==> ([first] + rest[1..])[i] == rest[i];
      [first] + rest[1..]
  }

  /** Putting c in front of b creates a CRLF only if c is CR and b starts with LF. */
  lemma PrependNoCrlf(c: char, b: string)
    requires !ContainsCrlf(b)
    requires c != CR || b == [] || b[0] != LF
    ensures !ContainsCrlf([c] + b)
  {
    var s := [c] + b;
    forall i | 0 <= i < |s| - 1 ensures !(s[i] == CR && s[i + 1] == LF) {
      if i > 0 {
        assert s[i] == b[i - 1] && s[i + 1] == b[i];
      }
    }
  }

  /** The pieces put back together with CRLF between them. */
  function JoinCrlf(ps: seq<string>): string
    requires |ps| >= 1
  {
    if |ps| == 1 then ps[0] else ps[0] + [CR, LF] + JoinCrlf(ps[1..])
  }

  /** Ruby's default split drops all empty pieces at the end of the list. */
  function DropTrailingEmpty(ps: seq<string>): (r: seq<string>)
    ensures r <= ps
    ensures r == [] || r[|r| - 1] != ""
    ensures forall i :: |r| <= i < |ps| ==> ps[i] == ""
  {
    if ps == [] then []
    else if ps[|ps| - 1] == "" then DropTrailingEmpty(ps[..|ps| - 1])
    else ps
  }

  /**
   * `s.split("\r\n")`: lines holding no CRLF, the last of them non-empty,
   * and the first of them the start of s.
   */
  function SplitCrlf(s: string): (r: seq<string>)
    ensures forall i :: 0 <= i < |r| ==> !ContainsCrlf(r[i])
    ensures r == [] || r[|r| - 1] != ""
    ensures r != [] ==> r[0] <= s
  {
    DropTrailingEmpty(Pieces(s))
  }

  /** Splitting and joining again gives back the original string. */
  lemma {:induction false} JoinPieces(s: string)
    ensures JoinCrlf(Pieces(s)) == s
    decreases |s|
  {
    if |s| == 0 {
    } else if |s| >= 2 && s[0] == CR && s[1] == LF {
      JoinPieces(s[2..]);
      JoinEmptyFirst(Pieces(s[2..]));
      assert s == [CR, LF] + s[2..];
    } else {
      JoinPieces(s[1..]);
      var rest := Pieces(s[1..]);
      JoinExtendFirst(s[0], rest[0], rest[1..]);
      assert [rest[0]] + rest[1..] == rest;
      assert s == [s[0]] + s[1..];
    }
  }

  /** A leading empty piece joins as a leading CRLF. */
  lemma JoinEmptyFirst(rest: seq<string>)
    requires |rest| >= 1
    ensures JoinCrlf([""] + rest) == [CR, LF] + JoinCrlf(rest)
  {
    assert ([""] + rest)[1..] == rest;
  }

  /** A character put in front of the first piece comes first in the join. */
  lemma JoinExtendFirst(c: char, first: string, tail: seq<string>)
    ensures JoinCrlf([[c] + first] + tail) == [c] + JoinCrlf([first] + tail)
  {
    if tail != [] {
      assert ([[c] + first] + tail)[1..] == tail;
      assert ([first] + tail)[1..] == tail;
    }
  }

  /** A string without CRLF is one piece. */
  lemma {:induction false} PiecesOfLine(a: string)
    requires !ContainsCrlf(a)
    ensures Pieces(a) == [a]
    decreases |a|
  {
    if |a| == 0 {
    } else {
      assert !(|a| >= 2 && a[0] == CR && a[1] == LF);
      assert !ContainsCrlf(a[1..]) by {
        forall i | 0 <= i < |a[1..]| - 1
          ensures !(a[1..][i] == CR && a[1..][i + 1] == LF)
        {
          assert a[1..][i] == a[i + 1] && a[1..][i + 1] == a[i + 2];
        }
      }
      PiecesOfLine(a[1..]);
      assert [a[0]] + a[1..] == a;
    }
  }

  /** A line without CRLF followed by CRLF is split off as the first piece. */
  lemma {:induction false} PiecesOfLineThenRest(a: string, b: string)
    requires !ContainsCrlf(a)
    ensures Pieces(a + [CR, LF] + b) == [a] + Pieces(b)
    decreases |a|
  {
    var s := a + [CR, LF] + b;
    if |a| == 0 {
      assert s[2..] == b;
    } else {
      assert !(s[0] == CR && s[1] == LF) by {
        if |a| >= 2 {
          assert s[0] == a[0] && s[1] == a[1];
        } else {
          assert s[1] == CR;
        }
      }
      assert !ContainsCrlf(a[1..]) by {
        forall i | 0 <= i < |a[1..]| - 1
          ensures !(a[1..][i] == CR && a[1..][i + 1] == LF)
        {
          assert a[1..][i] == a[i + 1] && a[1..][i + 1] == a[i + 2];
        }
      }
      assert s[1..] == a[1..] + [CR, LF] + b;
      PiecesOfLineThenRest(a[1..], b);
      assert [a[0]] + a[1..] == a;
    }
  }

  /** Joining lines that hold no CRLF and splitting again gives back the lines. */
  lemma {:induction false} PiecesOfJoin(ls: seq<string>)
    requires |ls| >= 1
    requires forall i :: 0 <= i < |ls| ==> !ContainsCrlf(ls[i])
    ensures Pieces(JoinCrlf(ls)) == ls
    decreases |ls|
  {
    if |ls| == 1 {
      PiecesOfLine(ls[0]);
    } else {
      PiecesOfJoin(ls[1..]);
      PiecesOfLineThenRest(ls[0], JoinCrlf(ls[1..]));
      assert [ls[0]] + ls[1..] == ls;
    }
  }

  /** When the last line is not empty, Ruby's split returns exactly the joined lines. */
  lemma SplitJoin(ls: seq<string>)
    requires |ls| >= 1 && ls[|ls| - 1] != ""
    requires forall i :: 0 <= i < |ls| ==> !ContainsCrlf(ls[i])
    ensures SplitCrlf(JoinCrlf(ls)) == ls
  {
    PiecesOfJoin(ls);
  }

  // ---------------------------------------------------------------------
  // Splitting at the first separator

  /** Index of the first occurrence of c in s, or |s| when there is none. */
  function IndexOf(s: string, c: char): (i: nat)
    ensures i <= |s|
    ensures i < |s| ==> s[i] == c
    ensures forall j :: 0 <= j < i ==> s[j] != c
  {
    if s == [] || s[0] == c then 0 else 1 + IndexOf(s[1..], c)
  }

  /**
   * `s.split(sep, 2)`: the empty string gives no pieces, a string without
   * sep gives itself, otherwise the parts before and after the first sep
   * (a positive limit keeps an empty last part).
   */
  function SplitFirst(s: string, sep: char): (r: seq<string>)
    ensures s == [] <==> r == []
    ensures |r| <= 2
    ensures |r| == 1 ==> r[0] == s && sep !in s
    ensures |r| == 2 ==> s == r[0] + [sep] + r[1] && sep !in r[0]
  {
    if s == [] then []
    else
      var i := IndexOf(s, sep);
      if i == |s| then [s] else [s[..i], s[i + 1..]]
  }

  /** A key without the separator is split off whole, whatever the value holds. */
  lemma SplitFirstAtKey(key: string, sep: char, value: string)
    requires sep !in key
    ensures SplitFirst(key + [sep] + value, sep) == [key, value]
  {
    var s := key + [sep] + value;
    var r := SplitFirst(s, sep);
    assert s[|key|] == sep;
    assert |r| == 2;
    assert |r[0]| == |key|;
    assert r[0] == s[..|key|] == key;
    assert r[1] == s[|key| + 1..] == value;
  }
}
