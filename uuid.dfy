/**
 * The session identifier shape check of the session cache.
 *
 * The check splits the identifier on '-' with the semantics of Python's
 * `str.split(sep)` (empty pieces are kept, so there is always one piece more
 * than there are separators) and accepts exactly when the piece lengths are
 * 8, 4, 4, 4 and 12. Characters other than '-' are not inspected: the check
 * is about shape only, not about hexadecimal digits.
 */
module Uuid {

  /** The separator between the five groups of a UUID. */
  const Dash: char := '-'

  /** The group lengths of the canonical UUID text form. */
  const GroupLengths: seq<nat> := [8, 4, 4, 4, 12]

  /** The indices at which a well-shaped identifier carries its dashes. */
  const DashPositions: set<int> := {8, 13, 18, 23}

  /** Number of occurrences of `c` in `s`. */
  function Count(s: string, c: char): nat
  {
    if s == [] then 0 else (if s[0] == c then 1 else 0) + Count(s[1..], c)
  }

  /** Python's `sep.join(pieces)`. */
  function Join(pieces: seq<string>, sep: char): string
  {
    if |pieces| == 0 then []
    else if |pieces| == 1 then pieces[0]
    else pieces[0] + [sep] + Join(pieces[1..], sep)
  }

  /**
   * Python's `s.split(sep)` for a one-character separator: the pieces
   * between consecutive separators, empty ones included.
   */
  function Split(s: string, sep: char): seq<string>
  {
    if s == [] then [[]]
    else
      var rest := Split(s[1..], sep);
      if s[0] == sep then [[]] + rest
      else [[s[0]] + rest[0]] + rest[1..]
  }

  /**
   * What Split computes: one piece more than there are separators, no piece
   * holding the separator, and the pieces joined back by the separator give
   * the input.
   */
  lemma {:induction false} SplitPieces(s: string, sep: char)
    ensures |Split(s, sep)| == Count(s, sep) + 1
    ensures forall i :: 0 <= i < |Split(s, sep)| ==> sep !in Split(s, sep)[i]
    ensures Join(Split(s, sep), sep) == s
    decreases |s|
  {
    if s != [] {
      SplitPieces(s[1..], sep);
      var rest := Split(s[1..], sep);
      if s[0] == sep {
        assert Join([[]] + rest, sep) == [sep] + Join(rest, sep);
      } else {
        var pieces := [[s[0]] + rest[0]] + rest[1..];
        assert pieces[1..] == rest[1..];
        assert Join(pieces, sep) == [s[0]] + Join(rest, sep);
      }
    }
  }

  /** The list comprehension `[len(item) for item in pieces]`. */
  function Lengths(pieces: seq<string>): seq<nat>
  {
    seq(|pieces|, i requires 0 <= i < |pieces| => |pieces[i]|)
  }

  /**
   * Reference definition of an accepted identifier, independent of
   * splitting: 36 characters, with '-' exactly at indices 8, 13, 18, 23.
   */
  ghost predicate UuidShaped(s: string)
  {
    |s| == 36 && forall i :: 0 <= i < |s| ==> (s[i] == Dash <==> i in DashPositions)
  }

  /** `validate_uuid_format`: true iff the piece lengths are 8-4-4-4-12. */
  function ValidateUuidFormat(uuidstr: string): (ok: bool)
    ensures ok <==> UuidShaped(uuidstr)
    ensures ok ==> |uuidstr| == 36
  {
    ValidateIffShaped(uuidstr);
    Lengths(Split(uuidstr, Dash)) == GroupLengths
  }

  /** A piece free of the separator splits into itself. */
  lemma {:induction false} SplitNoSep(p: string, sep: char)
    requires sep !in p
    ensures Split(p, sep) == [p]
    decreases |p|
  {
    if p != [] {
      SplitNoSep(p[1..], sep);
      assert [p[0]] + p[1..] == p;
    }
  }

  /** Splitting `p + sep + rest` yields `p` followed by the pieces of `rest`. */
  lemma {:induction false} SplitAfterPiece(p: string, sep: char, rest: string)
    requires sep !in p
    ensures Split(p + [sep] + rest, sep) == [p] + Split(rest, sep)
    decreases |p|
  {
    var s := p + [sep] + rest;
    if p == [] {
      assert s == [sep] + rest;
      assert s[1..] == rest;
    } else {
      assert s[0] == p[0];
      assert s[1..] == p[1..] + [sep] + rest;
      SplitAfterPiece(p[1..], sep, rest);
      assert [p[0]] + p[1..] == p;
    }
  }

  /** Split undoes Join on separator-free pieces (Join undoes Split by Split's contract). */
  lemma {:induction false} SplitJoin(pieces: seq<string>, sep: char)
    requires |pieces| >= 1
    requires forall i :: 0 <= i < |pieces| ==> sep !in pieces[i]
    ensures Split(Join(pieces, sep), sep) == pieces
    decreases |pieces|
  {
    if |pieces| == 1 {
      SplitNoSep(pieces[0], sep);
    } else {
      SplitJoin(pieces[1..], sep);
      SplitAfterPiece(pieces[0], sep, Join(pieces[1..], sep));
    }
  }

  /** Five dash-free groups of lengths 8-4-4-4-12 joined by dashes are well shaped. */
  lemma ShapedFromGroups(a: string, b: string, c: string, d: string, e: string)
    requires |a| == 8 && |b| == 4 && |c| == 4 && |d| == 4 && |e| == 12
    requires Dash !in a && Dash !in b && Dash !in c && Dash !in d && Dash !in e
    ensures UuidShaped(a + [Dash] + b + [Dash] + c + [Dash] + d + [Dash] + e)
  {
    var s := a + [Dash] + b + [Dash] + c + [Dash] + d + [Dash] + e;
    forall i | 0 <= i < |s| ensures s[i] == Dash <==> i in DashPositions {
      if i < 8 { assert s[i] == a[i]; }
      else if 8 < i < 13 { assert s[i] == b[i - 9]; }
      else if 13 < i < 18 { assert s[i] == c[i - 14]; }
      else if 18 < i < 23 { assert s[i] == d[i - 19]; }
      else if 23 < i { assert s[i] == e[i - 24]; }
    }
  }

  /** Join of exactly five pieces, unfolded. */
  lemma Join5(pieces: seq<string>, sep: char)
    requires |pieces| == 5
    ensures Join(pieces, sep) ==
      pieces[0] + [sep] + pieces[1] + [sep] + pieces[2] + [sep] + pieces[3] + [sep] + pieces[4]
  {
    assert pieces[1..][1..] == pieces[2..];
    assert pieces[2..][1..] == pieces[3..];
    assert pieces[3..][1..] == pieces[4..];
    assert Join(pieces[4..], sep) == pieces[4];
    assert Join(pieces[3..], sep) == pieces[3] + [sep] + pieces[4];
    assert Join(pieces[2..], sep) == pieces[2] + [sep] + (pieces[3] + [sep] + pieces[4]);
    assert Join(pieces[1..], sep) == pieces[1] + [sep] + (pieces[2] + [sep] + (pieces[3] + [sep] + pieces[4]));
  }

  /** Accepted by the split-based check implies the reference shape. */
  lemma ValidImpliesShaped(s: string)
    requires Lengths(Split(s, Dash)) == GroupLengths
    ensures UuidShaped(s)
  {
    var ps := Split(s, Dash);
    SplitPieces(s, Dash);
    assert |ps| == 5;
    assert |ps[0]| == 8 && |ps[1]| == 4 && |ps[2]| == 4 && |ps[3]| == 4 && |ps[4]| == 12 by {
      assert Lengths(ps)[0] == 8 && Lengths(ps)[1] == 4 && Lengths(ps)[2] == 4;
      assert Lengths(ps)[3] == 4 && Lengths(ps)[4] == 12;
    }
    Join5(ps, Dash);
    ShapedFromGroups(ps[0], ps[1], ps[2], ps[3], ps[4]);
  }

  /** The reference shape implies acceptance by the split-based check. */
  lemma ShapedImpliesValid(s: string)
    requires UuidShaped(s)
    ensures Lengths(Split(s, Dash)) == GroupLengths
  {
    var ps := [s[..8], s[9..13], s[14..18], s[19..23], s[24..]];
    forall i | 0 <= i < |ps| ensures Dash !in ps[i] {
      var lo := [0, 9, 14, 19, 24][i];
      forall j | 0 <= j < |ps[i]| ensures ps[i][j] != Dash {
        assert ps[i][j] == s[lo + j];
      }
    }
    Join5(ps, Dash);
    assert s == Join(ps, Dash);
    SplitJoin(ps, Dash);
    assert Lengths(ps) == GroupLengths;
  }

  /** The split-based check agrees with the reference shape, in both directions. */
  lemma ValidateIffShaped(s: string)
    ensures Lengths(Split(s, Dash)) == GroupLengths <==> UuidShaped(s)
  {
    if Lengths(Split(s, Dash)) == GroupLengths {
      ValidImpliesShaped(s);
    }
    if UuidShaped(s) {
      ShapedImpliesValid(s);
    }
  }

  /** The module's own accepted example: a canonical UUID. */
  lemma AcceptsExample()
    ensures ValidateUuidFormat("75e06194-baee-4395-8e1a-566b656f6920")
  {
    assert "75e06194-baee-4395-8e1a-566b656f6920"
        == "75e06194" + [Dash] + "baee" + [Dash] + "4395" + [Dash] + "8e1a" + [Dash] + "566b656f6920";
    ShapedFromGroups("75e06194", "baee", "4395", "8e1a", "566b656f6920");
  }

  /** The module's own rejected examples: free text and the empty string. */
  lemma RejectsExamples()
    ensures !ValidateUuidFormat("FooBar")
    ensures !ValidateUuidFormat("Dr. Evil")
    ensures !ValidateUuidFormat("")
  {
  }
}
