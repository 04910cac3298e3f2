/** String operations the monitor relies on, with Python's meaning:
    `sub in s`, `s.split(sep)` and dropping empty pieces. `Join`
    (`sep.join(pieces)`) is not used by the monitor; it is only the inverse
    that pins down what `split` returns. */
module Text {

  /** `sub` occurs in `s` starting at position `i`. */
  ghost predicate OccursAt(s: string, sub: string, i: int) {
    0 <= i <= |s| - |sub| && s[i..i + |sub|] == sub
  }

  /** Python's `sub in s`, scanning `s` from the left. */
  predicate Contains(s: string, sub: string)
    decreases |s|
  {
    if |s| < |sub| then false
    else s[..|sub|] == sub || Contains(s[1..], sub)
  }

  /** An occurrence in the tail of `s` is an occurrence in `s` one position later. */
  lemma OccursShift(s: string, sub: string, j: int)
    requires s != [] && j >= 0
    ensures OccursAt(s[1..], sub, j) <==> OccursAt(s, sub, j + 1)
  {
    if 0 <= j <= |s| - 1 - |sub| {
      assert s[1..][j..j + |sub|] == s[j + 1..j + 1 + |sub|];
    }
  }

  /** The scan finds `sub` exactly when it occurs at some position. */
  lemma {:induction false} ContainsIff(s: string, sub: string)
    ensures Contains(s, sub) <==> exists i :: OccursAt(s, sub, i)
    decreases |s|
  {
    if |s| >= |sub| {
      if s[..|sub|] == sub {
        assert OccursAt(s, sub, 0);
      } else {
        ContainsIff(s[1..], sub);
        if Contains(s, sub) {
          var j :| OccursAt(s[1..], sub, j);
          OccursShift(s, sub, j);
        } else {
          forall i | 0 < i <= |s| - |sub| ensures !OccursAt(s, sub, i) {
            OccursShift(s, sub, i - 1);
          }
        }
      }
    }
  }

  /** A block that occurs in the middle part of a concatenation occurs in the whole. */
  lemma ContainsInfix(a: string, b: string, c: string, sub: string)
    requires Contains(b, sub)
    ensures Contains(a + b + c, sub)
  {
    ContainsIff(b, sub);
    var i :| OccursAt(b, sub, i);
    var s := a + b + c;
    assert s[|a| + i..|a| + i + |sub|] == b[i..i + |sub|];
    assert OccursAt(s, sub, |a| + i);
    ContainsIff(s, sub);
  }

  /** A block that occurs in either part of a concatenation occurs in the whole. */
  lemma ContainsEither(a: string, b: string, sub: string)
    requires Contains(a, sub) || Contains(b, sub)
    ensures Contains(a + b, sub)
  {
    if Contains(a, sub) {
      ContainsInfix("", a, b, sub);
      assert "" + a + b == a + b;
    } else {
      ContainsInfix(a, b, "", sub);
      assert a + b + "" == a + b;
    }
  }

  /** A non-empty block cannot occur in a string that lacks its first character. */
  lemma {:induction false} NotContainsWithoutHead(s: string, sub: string)
    requires |sub| > 0 && sub[0] !in s
    ensures !Contains(s, sub)
    decreases |s|
  {
    if |s| >= |sub| {
      assert s[0] in s;
      assert s[..|sub|][0] == s[0];
      NotContainsWithoutHead(s[1..], sub);
    }
  }

  /** Number of occurrences of the character `c` in `s`. */
  function Count(s: string, c: char): (n: nat)
    ensures n <= |s|
    ensures n == 0 <==> c !in s
  {
    if s == [] then 0 else (if s[0] == c then 1 else 0) + Count(s[1..], c)
  }

  lemma {:induction false} CountConcat(a: string, b: string, c: char)
    ensures Count(a + b, c) == Count(a, c) + Count(b, c)
  {
    if a != [] {
      assert (a + b)[1..] == a[1..] + b;
      CountConcat(a[1..], b, c);
    } else {
      assert a + b == b;
    }
  }

  /** `s` with every occurrence of `c` deleted. */
  function Remove(s: string, c: char): (r: string)
    ensures c !in r
  {
    if s == [] then [] else (if s[0] == c then [] else [s[0]]) + Remove(s[1..], c)
  }

  /** Python's `s.split(sep)` for a one-character separator: the maximal runs of
      characters other than `sep`, including empty runs at the ends and between
      adjacent separators; `"".split(sep)` is `[""]`. */
  function Split(s: string, sep: char): (r: seq<string>)
    ensures |r| >= 1
  {
    if s == [] then [""]
    else
      var rest := Split(s[1..], sep);
      if s[0] == sep then [""] + rest else [[s[0]] + rest[0]] + rest[1..]
  }

  /** Python's `sep.join(pieces)`. */
  function Join(pieces: seq<string>, sep: char): string {
    if pieces == [] then ""
    else if |pieces| == 1 then pieces[0]
    else pieces[0] + [sep] + Join(pieces[1..], sep)
  }

  /** Concatenation of the pieces, with nothing between them. */
  function Concat(pieces: seq<string>): string {
    if pieces == [] then "" else pieces[0] + Concat(pieces[1..])
  }

  lemma {:induction false} ConcatAppend(a: seq<string>, b: seq<string>)
    ensures Concat(a + b) == Concat(a) + Concat(b)
  {
    if a == [] {
      assert a + b == b;
    } else {
      assert (a + b)[1..] == a[1..] + b;
      ConcatAppend(a[1..], b);
    }
  }

  /** The pieces of a split never contain the separator, and there is one more
      piece than there are separators. */
  lemma {:induction false} SplitPieces(s: string, sep: char)
    ensures |Split(s, sep)| == Count(s, sep) + 1
    ensures forall p :: p in Split(s, sep) ==> sep !in p
  {
    if s != [] {
      SplitPieces(s[1..], sep);
      var rest := Split(s[1..], sep);
      if s[0] != sep {
        var r := Split(s, sep);
        forall p | p in r ensures sep !in p {
          if p != r[0] {
            assert p in rest[1..];
          }
        }
      }
    }
  }

  /** Joining the pieces of a split gives back the original string. */
  lemma {:induction false} JoinSplit(s: string, sep: char)
    ensures Join(Split(s, sep), sep) == s
  {
    if s != [] {
      JoinSplit(s[1..], sep);
      var rest := Split(s[1..], sep);
      if s[0] == sep {
        assert Split(s, sep) == [""] + rest;
        assert Join(Split(s, sep), sep) == "" + [sep] + Join(rest, sep);
      } else {
        var head := [s[0]] + rest[0];
        assert Split(s, sep) == [head] + rest[1..];
        if |rest| == 1 {
          assert Join(rest, sep) == rest[0];
        } else {
          assert Join(rest, sep) == rest[0] + [sep] + Join(rest[1..], sep);
          assert ([head] + rest[1..])[1..] == rest[1..];
        }
      }
    }
  }

  /** A string without the separator splits into itself alone. */
  lemma {:induction false} SplitNoSeparator(s: string, sep: char)
    requires sep !in s
    ensures Split(s, sep) == [s]
  {
    if s != [] {
      SplitNoSeparator(s[1..], sep);
      assert [s[0]] + s[1..] == s;
    }
  }

  /** A separator after a separator-free prefix ends the first piece. */
  lemma {:induction false} SplitAfterPiece(a: string, b: string, sep: char)
    requires sep !in a
    ensures Split(a + [sep] + b, sep) == [a] + Split(b, sep)
  {
    if a == [] {
      assert a + [sep] + b == [sep] + b;
      assert ([sep] + b)[1..] == b;
    } else {
      var s := a + [sep] + b;
      assert s[1..] == a[1..] + [sep] + b;
      SplitAfterPiece(a[1..], b, sep);
      assert [a[0]] + a[1..] == a;
    }
  }

  /** Splitting a join of separator-free pieces gives back the pieces. */
  lemma {:induction false} SplitJoin(pieces: seq<string>, sep: char)
    requires |pieces| >= 1
    requires forall p :: p in pieces ==> sep !in p
    ensures Split(Join(pieces, sep), sep) == pieces
  {
    if |pieces| == 1 {
      SplitNoSeparator(pieces[0], sep);
    } else {
      assert pieces[0] in pieces;
      SplitJoin(pieces[1..], sep);
      SplitAfterPiece(pieces[0], Join(pieces[1..], sep), sep);
      assert [pieces[0]] + pieces[1..] == pieces;
    }
  }

  /** The pieces that are not empty, in their original order (the `if key:` filter). */
  function NonEmpty(pieces: seq<string>): (r: seq<string>)
    ensures |r| <= |pieces|
    ensures forall p :: p in r ==> p != ""
  {
    if pieces == [] then []
    else (if pieces[0] != "" then [pieces[0]] else []) + NonEmpty(pieces[1..])
  }

  /** Filtering distributes over concatenation, so it keeps the original order. */
  lemma {:induction false} NonEmptyAppend(a: seq<string>, b: seq<string>)
    ensures NonEmpty(a + b) == NonEmpty(a) + NonEmpty(b)
  {
    if a == [] {
      assert a + b == b;
    } else {
      assert (a + b)[1..] == a[1..] + b;
      NonEmptyAppend(a[1..], b);
    }
  }

  /** A piece survives the filter exactly when it is present and not empty. */
  lemma {:induction false} NonEmptyMembers(pieces: seq<string>)
    ensures forall p :: p in NonEmpty(pieces) <==> p in pieces && p != ""
  {
    if pieces != [] {
      NonEmptyMembers(pieces[1..]);
      assert pieces == [pieces[0]] + pieces[1..];
    }
  }

  /** The filter changes nothing when no piece is empty. */
  lemma {:induction false} NonEmptyNoEmpty(pieces: seq<string>)
    requires forall p :: p in pieces ==> p != ""
    ensures NonEmpty(pieces) == pieces
  {
    if pieces != [] {
      assert pieces[0] in pieces;
      assert forall p :: p in pieces[1..] ==> p in pieces;
      NonEmptyNoEmpty(pieces[1..]);
      assert [pieces[0]] + pieces[1..] == pieces;
    }
  }

  /** Empty pieces contribute nothing to a concatenation. */
  lemma {:induction false} ConcatNonEmpty(pieces: seq<string>)
    ensures Concat(NonEmpty(pieces)) == Concat(pieces)
  {
    if pieces != [] {
      ConcatNonEmpty(pieces[1..]);
      ConcatAppend(if pieces[0] != "" then [pieces[0]] else [], NonEmpty(pieces[1..]));
    }
  }

  /** The non-empty pieces of a split, laid end to end, are the string with its
      separators deleted: nothing is lost or invented between separators. */
  lemma {:induction false} SplitConcat(s: string, sep: char)
    ensures Concat(Split(s, sep)) == Remove(s, sep)
    ensures Concat(NonEmpty(Split(s, sep))) == Remove(s, sep)
  {
    if s != [] {
      SplitConcat(s[1..], sep);
      var rest := Split(s[1..], sep);
      if s[0] != sep {
        var head := [s[0]] + rest[0];
        assert Split(s, sep) == [head] + rest[1..];
        assert Concat(rest) == rest[0] + Concat(rest[1..]);
        assert Concat([head] + rest[1..]) == head + Concat(rest[1..]);
      }
    }
    ConcatNonEmpty(Split(s, sep));
  }
}
