/** The string operations of the JavaScript runtime that the builder's helpers
    rely on: `split` on a one-character separator, `trim`, `includes`,
    `startsWith`, `slice`, and ASCII `toLowerCase`/`toUpperCase`.
    Strings are sequences of characters. */
module Text {

  /** The characters `String.prototype.trim` removes: ECMAScript WhiteSpace
      and LineTerminator code points. */
  predicate IsJsWhitespace(c: char) {
    || c == '\t' || c == '\n' || c == '\U{000B}' || c == '\U{000C}' || c == '\r'
    || c == ' ' || c == '\U{00A0}' || c == '\U{1680}'
    || ('\U{2000}' <= c <= '\U{200A}')
    || c == '\U{2028}' || c == '\U{2029}' || c == '\U{202F}' || c == '\U{205F}'
    || c == '\U{3000}' || c == '\U{FEFF}'
  }

  /** Removes leading whitespace: what is dropped is whitespace, and what is
      kept is a suffix that does not start with whitespace. */
  function TrimStart(s: string): (r: string)
    ensures |r| <= |s| && r == s[|s| - |r|..]
    ensures forall i :: 0 <= i < |s| - |r| ==> IsJsWhitespace(s[i])
    ensures r == [] || !IsJsWhitespace(r[0])
  {
    if s != [] && IsJsWhitespace(s[0]) then TrimStart(s[1..]) else s
  }

  /** A string that does not start with whitespace is left as it is. */
  lemma TrimStartKeeps(s: string)
    requires s == [] || !IsJsWhitespace(s[0])
    ensures TrimStart(s) == s
  {
  }

  /** Removes trailing whitespace: what is dropped is whitespace, and what is
      kept is a prefix that does not end with whitespace. */
  function TrimEnd(s: string): (r: string)
    ensures |r| <= |s| && r == s[..|r|]
    ensures forall i :: |r| <= i < |s| ==> IsJsWhitespace(s[i])
    ensures r == [] || !IsJsWhitespace(r[|r| - 1])
  {
    if s != [] && IsJsWhitespace(s[|s| - 1]) then TrimEnd(s[..|s| - 1]) else s
  }

  /** `String.prototype.trim`. */
  function Trim(s: string): (r: string)
    ensures r == [] || (!IsJsWhitespace(r[0]) && !IsJsWhitespace(r[|r| - 1]))
    ensures (forall i :: 0 <= i < |s| ==> IsJsWhitespace(s[i])) <==> r == []
    ensures exists i, j :: TrimmedAt(s, i, j) && r == s[i..j]
  {
    var t := TrimStart(s);
    var r := TrimEnd(t);
    assert r != [] ==> r[0] == t[0];
    assert t != [] ==> !IsJsWhitespace(t[0]);
    var i := |s| - |t|;
    assert r == s[i..i + |r|];
    assert forall k :: i + |r| <= k < |s| ==> s[k] == t[k - i];
    assert TrimmedAt(s, i, i + |r|);
    r
  }

  /** `s[i..j]` is what is left of `s` once only whitespace is taken off its
      two ends. */
  predicate TrimmedAt(s: string, i: int, j: int) {
    && 0 <= i <= j <= |s|
    && (forall k :: 0 <= k < i ==> IsJsWhitespace(s[k]))
    && (forall k :: j <= k < |s| ==> IsJsWhitespace(s[k]))
  }

  /** `s.includes(sub)`. */
  predicate Contains(s: string, sub: string)
    decreases |s|
  {
    (|sub| <= |s| && s[..|sub|] == sub) || (s != [] && Contains(s[1..], sub))
  }

  /** `s.startsWith(p)`. */
  predicate StartsWith(s: string, p: string) {
    |p| <= |s| && s[..|p|] == p
  }

  /** `s.slice(i, j)` for non-negative bounds: both ends are clamped to the
      length, and a start past the end gives the empty string. */
  function Slice(s: string, i: nat, j: nat): (r: string)
    ensures |r| <= |s|
    ensures j <= |s| && i <= j ==> r == s[i..j]
  {
    var lo := if i < |s| then i else |s|;
    var hi := if j < |s| then j else |s|;
    if lo <= hi then s[lo..hi] else ""
  }

  /** `s.split(sep)` for a one-character separator: the pieces between the
      separators, so there is always at least one piece. */
  function Split(s: string, sep: char): (r: seq<string>)
    ensures |r| >= 1
    ensures forall i :: 0 <= i < |r| ==> sep !in r[i]
  {
    if s == [] then [""]
    else if s[0] == sep then [""] + Split(s[1..], sep)
    else
      var rest := Split(s[1..], sep);
      [[s[0]] + rest[0]] + rest[1..]
  }

  /** `parts.join(sep)` for a one-character separator. */
  function Join(parts: seq<string>, sep: char): string {
    if parts == [] then ""
    else if |parts| == 1 then parts[0]
    else parts[0] + [sep] + Join(parts[1..], sep)
  }

  /** The last piece of `s.split(sep)`, as `pop()` returns it. */
  function LastPiece(s: string, sep: char): string {
    var parts := Split(s, sep);
    parts[|parts| - 1]
  }

  function LowerChar(c: char): char {
    if 'A' <= c <= 'Z' then (c as int + 32) as char else c
  }

  function UpperChar(c: char): char {
    if 'a' <= c <= 'z' then (c as int - 32) as char else c
  }

  predicate IsLowerAsciiLetter(c: char) {
    'a' <= c <= 'z'
  }

  /** `s.toLowerCase()`, restricted to ASCII letters. */
  function ToLower(s: string): string {
    seq(|s|, i requires 0 <= i < |s| => LowerChar(s[i]))
  }

  // ---------------------------------------------------------------------
  // Properties

  /** Splitting and joining again gives back the input. */
  lemma {:induction false} JoinSplit(s: string, sep: char)
    ensures Join(Split(s, sep), sep) == s
  {
    if s == [] {
    } else if s[0] == sep {
      var rest := Split(s[1..], sep);
      JoinSplit(s[1..], sep);
      assert Split(s, sep) == [""] + rest;
      assert Join([""] + rest, sep) == "" + [sep] + Join(rest, sep) by {
        assert ([""] + rest)[1..] == rest;
      }
      assert s == [s[0]] + s[1..];
    } else {
      var rest := Split(s[1..], sep);
      JoinSplit(s[1..], sep);
      assert Split(s, sep) == [[s[0]] + rest[0]] + rest[1..];
      JoinExtendsFirst(s[0], rest, sep);
      assert s == [s[0]] + s[1..];
    }
  }

  /** Putting a character in front of the first piece puts it in front of
      the joined string. */
  lemma JoinExtendsFirst(c: char, parts: seq<string>, sep: char)
    requires |parts| >= 1
    ensures Join([[c] + parts[0]] + parts[1..], sep) == [c] + Join(parts, sep)
  {
    var r := [[c] + parts[0]] + parts[1..];
    if |parts| > 1 {
      assert r[1..] == parts[1..];
      assert Join(r, sep) == [c] + parts[0] + [sep] + Join(parts[1..], sep);
    }
  }

  /** Joining pieces that do not contain the separator and splitting again
      gives back the pieces. */
  lemma {:induction false} SplitJoin(parts: seq<string>, sep: char)
    requires |parts| >= 1
    requires forall i :: 0 <= i < |parts| ==> sep !in parts[i]
    ensures Split(Join(parts, sep), sep) == parts
    decreases |parts|, |parts[0]|
  {
    if |parts| == 1 {
      SplitOfSeparatorFree(parts[0], sep);
    } else if parts[0] == [] {
      var tail := parts[1..];
      SplitJoin(tail, sep);
      assert Join(parts, sep) == [sep] + Join(tail, sep);
      assert ([sep] + Join(tail, sep))[1..] == Join(tail, sep);
      assert parts == [""] + tail;
    } else {
      var c := parts[0][0];
      var shorter := [parts[0][1..]] + parts[1..];
      assert sep !in shorter[0] by {
        assert forall k :: 0 <= k < |shorter[0]| ==> shorter[0][k] == parts[0][k + 1];
      }
      SplitJoin(shorter, sep);
      assert shorter[1..] == parts[1..];
      var joined := Join(parts, sep);
      assert joined == [c] + Join(shorter, sep) by {
        assert parts[0] == [c] + parts[0][1..];
      }
      assert joined[0] == c && joined[1..] == Join(shorter, sep);
      assert c != sep by { assert parts[0][0] in parts[0]; }
      assert [c] + shorter[0] == parts[0];
      assert parts == [[c] + shorter[0]] + shorter[1..];
    }
  }

  /** Splitting a string whose first separator follows `p` gives `p` and
      then the pieces of what comes after that separator. */
  lemma {:induction false} SplitAfterFirst(p: string, r: string, sep: char)
    requires sep !in p
    ensures Split(p + [sep] + r, sep) == [p] + Split(r, sep)
    decreases |p|
  {
    var s := p + [sep] + r;
    if p == [] {
      assert s == [sep] + r;
      assert s[1..] == r;
    } else {
      assert p[0] in p;
      assert sep !in p[1..] by {
        forall k | 0 <= k < |p| - 1 ensures p[1..][k] != sep { assert p[1..][k] == p[k + 1]; }
      }
      assert s[0] == p[0];
      assert s[1..] == p[1..] + [sep] + r;
      SplitAfterFirst(p[1..], r, sep);
      assert [p[0]] + p[1..] == p;
    }
  }

  lemma {:induction false} SplitOfSeparatorFree(s: string, sep: char)
    requires sep !in s
    ensures Split(s, sep) == [s]
  {
    if s != [] {
      assert s[0] in s;
      assert sep !in s[1..] by {
        forall k | 0 <= k < |s| - 1 ensures s[1..][k] != sep { assert s[1..][k] == s[k + 1]; }
      }
      SplitOfSeparatorFree(s[1..], sep);
      assert s == [s[0]] + s[1..];
    }
  }

  /** `sub` occurs in `s` starting at index `i`. */
  predicate OccursAt(s: string, sub: string, i: int) {
    0 <= i <= |s| - |sub| && s[i..i + |sub|] == sub
  }

  /** `includes` agrees with the textbook definition: some window of `s`
      equals `sub`. */
  lemma {:induction false} ContainsIff(s: string, sub: string)
    ensures Contains(s, sub) <==> exists i :: OccursAt(s, sub, i)
    decreases |s|
  {
    if |sub| <= |s| && s[..|sub|] == sub {
      assert OccursAt(s, sub, 0);
    } else if s != [] {
      ContainsIff(s[1..], sub);
      if Contains(s[1..], sub) {
        var i :| OccursAt(s[1..], sub, i);
        assert s[i + 1..i + 1 + |sub|] == s[1..][i..i + |sub|];
        assert OccursAt(s, sub, i + 1);
      } else {
        forall i | 0 < i ensures !OccursAt(s, sub, i) {
          if i <= |s| - |sub| {
            assert s[i..i + |sub|] == s[1..][i - 1..i - 1 + |sub|];
            assert !OccursAt(s[1..], sub, i - 1);
          }
        }
      }
    }
  }

  /** Every string includes the empty string. */
  lemma ContainsEmpty(s: string)
    ensures Contains(s, "")
  {
    assert s[..0] == "";
  }

  /** A string includes every string it starts with. */
  lemma ContainsPrefix(s: string, p: string)
    requires StartsWith(s, p)
    ensures Contains(s, p)
  {
  }

  /** Lower-casing is idempotent and keeps the length. */
  lemma ToLowerIdempotent(s: string)
    ensures |ToLower(s)| == |s|
    ensures ToLower(ToLower(s)) == ToLower(s)
  {
  }

  /** Lower-casing both sides keeps an occurrence: a string that includes
      `sub` includes it lower-cased once both are lower-cased. */
  lemma ContainsLower(s: string, sub: string)
    ensures Contains(s, sub) ==> Contains(ToLower(s), ToLower(sub))
  {
    ContainsIff(s, sub);
    ContainsIff(ToLower(s), ToLower(sub));
    if Contains(s, sub) {
      var i :| OccursAt(s, sub, i);
      assert ToLower(s)[i..i + |sub|] == ToLower(sub) by {
        forall k | 0 <= k < |sub| ensures ToLower(s)[i..i + |sub|][k] == ToLower(sub)[k] {
          assert s[i + k] == sub[k];
        }
      }
      assert OccursAt(ToLower(s), ToLower(sub), i);
    }
  }

  /** The last piece after `sep` holds no `sep` and is a suffix of the input,
      and what precedes it ends with `sep` (or is nothing at all). */
  lemma {:induction false} LastPieceIsSuffix(s: string, sep: char)
    ensures sep !in LastPiece(s, sep)
    ensures |LastPiece(s, sep)| <= |s|
    ensures s[|s| - |LastPiece(s, sep)|..] == LastPiece(s, sep)
    ensures |LastPiece(s, sep)| < |s| ==> s[|s| - |LastPiece(s, sep)| - 1] == sep
    ensures sep !in s ==> LastPiece(s, sep) == s
  {
    if sep !in s {
      SplitOfSeparatorFree(s, sep);
    } else {
      var tail := s[1..];
      var rest := Split(tail, sep);
      if s[0] == sep {
        assert Split(s, sep) == [""] + rest;
      } else {
        assert sep in tail by {
          var k :| 0 <= k < |s| && s[k] == sep;
          assert tail[k - 1] == sep;
        }
        SplitWithSeparator(tail, sep);
      }
      assert LastPiece(s, sep) == LastPiece(tail, sep);
      LastPieceIsSuffix(tail, sep);
      var n := |LastPiece(s, sep)|;
      assert s[|s| - n..] == tail[|tail| - n..];
      if s[0] != sep {
        forall j | |tail| - n <= j < |tail| ensures tail[j] != sep {
          assert tail[j] == LastPiece(tail, sep)[j - (|tail| - n)];
        }
      }
    }
  }

  /** If the input holds a separator, splitting it gives at least two pieces. */
  lemma {:induction false} SplitWithSeparator(s: string, sep: char)
    requires sep in s
    ensures |Split(s, sep)| >= 2
  {
    if s[0] != sep {
      assert sep in s[1..] by {
        var k :| 0 <= k < |s| && s[k] == sep;
        assert s[1..][k - 1] == sep;
      }
      SplitWithSeparator(s[1..], sep);
    }
  }
}
