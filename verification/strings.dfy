/**
 * The JavaScript string operations the command tokenizer is built from:
 * `substring(start)`, `split(" ")`, `filter(t => t.length > 0)`, `join(" ")`,
 * `toLowerCase()` (ASCII letters only) and `trim()`.
 * Strings are sequences of characters, and a character is a Unicode scalar
 * value, so indices count scalar values (JavaScript counts UTF-16 code
 * units). The separator is the single character " ".
 */
module Strings {

  /** The one separator `split(" ")` and `join(" ")` use; tabs and newlines are not separators. */
  const Space: char := ' '

  /** No character of `s` is the separator. */
  predicate SpaceFree(s: string) {
    Space !in s
  }

  /** A token: a non-empty piece without a separator in it. */
  predicate IsToken(t: string) {
    |t| > 0 && SpaceFree(t)
  }

  predicate AllSpaceFree(ps: seq<string>) {
    forall i :: 0 <= i < |ps| ==> SpaceFree(ps[i])
  }

  predicate AllTokens(ts: seq<string>) {
    forall i :: 0 <= i < |ts| ==> IsToken(ts[i])
  }

  /** Every character of `s` is a separator (true of the empty string). */
  predicate IsBlank(s: string) {
    forall i :: 0 <= i < |s| ==> s[i] == Space
  }

  // ---------------------------------------------------------------------------
  // substring

  /**
   * `s.substring(start)`: `start` is clamped to [0, |s|] and the suffix from
   * there is returned, so a start at or past the end gives "".
   */
  function Substring(s: string, start: int): (r: string)
    ensures |r| <= |s| && r == s[|s| - |r|..]
    ensures start <= 0 ==> r == s
    ensures start >= |s| ==> r == ""
    ensures 0 <= start <= |s| ==> s[..start] + r == s
  {
    if start <= 0 then s else if start >= |s| then "" else s[start..]
  }

  // ---------------------------------------------------------------------------
  // split, join, filter

  /**
   * `s.split(" ")`: the pieces between successive separators, from left to
   * right. There is always at least one piece ("" splits to [""]), and two
   * adjacent separators give an empty piece between them.
   */
  function Split(s: string): (r: seq<string>)
    ensures |r| >= 1
    ensures AllSpaceFree(r)
    decreases |s|
  {
    if |s| == 0 then [""]
    else
      var rest := Split(s[1..]);
      if s[0] == Space then [""] + rest
      else [[s[0]] + rest[0]] + rest[1..]
  }

  /**
   * `ps.join(" ")`: the pieces with one separator between each two, so the
   * result is as long as the pieces together plus one per gap.
   */
  function Join(ps: seq<string>): (r: string)
    ensures |ps| > 0 ==> |r| == |Concat(ps)| + |ps| - 1
    decreases |ps|
  {
    if |ps| == 0 then ""
    else if |ps| == 1 then ps[0]
    else ps[0] + [Space] + Join(ps[1..])
  }

  /** Taking the separators out of a join of space-free pieces leaves the pieces laid end to end. */
  lemma {:induction false} JoinRemoveSpaces(ps: seq<string>)
    requires AllSpaceFree(ps)
    ensures RemoveSpaces(Join(ps)) == Concat(ps)
    decreases |ps|
  {
    if |ps| == 1 {
      RemoveSpacesOfSpaceFree(ps[0]);
      assert ps[0] + "" == ps[0];
    } else if |ps| > 1 {
      var tail := ps[1..];
      assert AllSpaceFree(tail) by {
        forall i | 0 <= i < |tail| ensures SpaceFree(tail[i]) {
          assert tail[i] == ps[i + 1];
        }
      }
      JoinRemoveSpaces(tail);
      var sr := [Space] + Join(tail);
      assert SpaceFree(ps[0]);
      RemoveSpacesOfSpaceFree(ps[0]);
      RemoveSpacesAfterSeparator(Join(tail));
      RemoveSpacesAppend(ps[0], sr);
      assert Join(ps) == ps[0] + sr;
    }
  }

  /** A leading separator is simply dropped when the separators are taken out. */
  lemma RemoveSpacesAfterSeparator(rest: string)
    ensures RemoveSpaces([Space] + rest) == RemoveSpaces(rest)
  {
    var sr := [Space] + rest;
    assert sr[0] == Space && sr[1..] == rest;
  }

  /** `ps.filter(t => t.length > 0)`: the non-empty pieces, in their order. */
  function NonEmpty(ps: seq<string>): (r: seq<string>)
    ensures |r| <= |ps|
    ensures forall i :: 0 <= i < |r| ==> |r[i]| > 0
    ensures AllSpaceFree(ps) ==> AllSpaceFree(r)
  {
    if |ps| == 0 then []
    else if |ps[0]| == 0 then NonEmpty(ps[1..])
    else [ps[0]] + NonEmpty(ps[1..])
  }

  /** `s.split(" ").filter(t => t.length > 0)`: the tokens of `s`. */
  function Tokens(s: string): (r: seq<string>)
    ensures AllTokens(r)
  {
    NonEmpty(Split(s))
  }

  /** All pieces laid end to end, with nothing between them. */
  function Concat(ps: seq<string>): string
  {
    if |ps| == 0 then "" else ps[0] + Concat(ps[1..])
  }

  /** `s` with every separator taken out; the other characters keep their order. */
  function RemoveSpaces(s: string): (r: string)
    ensures |r| <= |s|
  {
    if |s| == 0 then ""
    else (if s[0] == Space then "" else [s[0]]) + RemoveSpaces(s[1..])
  }

  /** Joining the pieces of a split gives back the string that was split. */
  lemma {:induction false} SplitThenJoin(s: string)
    ensures Join(Split(s)) == s
    decreases |s|
  {
    if |s| > 0 {
      var rest := Split(s[1..]);
      SplitThenJoin(s[1..]);
      assert s == [s[0]] + s[1..];
      if s[0] == Space {
        assert Split(s) == [""] + rest;
        assert Split(s)[1..] == rest;
      } else if |rest| == 1 {
        assert Split(s) == [[s[0]] + rest[0]];
      } else {
        assert Split(s)[1..] == rest[1..];
        assert Join(rest) == rest[0] + [Space] + Join(rest[1..]);
        assert Join(Split(s)) == ([s[0]] + rest[0]) + [Space] + Join(rest[1..]);
      }
    }
  }

  /** Splitting `a + t` for a space-free `a` glues `a` onto the first piece of `t`. */
  lemma {:induction false} SplitPrepend(a: string, t: string)
    requires SpaceFree(a)
    ensures Split(a + t) == [a + Split(t)[0]] + Split(t)[1..]
    decreases |a|
  {
    if |a| == 0 {
      var st := Split(t);
      assert a + t == t && a + st[0] == st[0];
      assert st == [st[0]] + st[1..];
    } else {
      var u := a + t;
      assert u[0] == a[0] && a[0] in a && u[0] != Space;
      assert u[1..] == a[1..] + t;
      assert forall c :: c in a[1..] ==> c in a;
      SplitPrepend(a[1..], t);
      var rest := Split(u[1..]);
      var st := Split(t);
      assert rest == [a[1..] + st[0]] + st[1..];
      assert Split(u) == [[u[0]] + rest[0]] + rest[1..];
      assert rest[1..] == st[1..];
      assert [a[0]] + (a[1..] + st[0]) == a + st[0];
    }
  }

  /** Splitting a join of space-free pieces gives back the pieces. */
  lemma {:induction false} JoinThenSplit(ps: seq<string>)
    requires |ps| >= 1 && AllSpaceFree(ps)
    ensures Split(Join(ps)) == ps
    decreases |ps|
  {
    if |ps| == 1 {
      SplitPrepend(ps[0], "");
      assert ps[0] + "" == ps[0];
    } else {
      var j := Join(ps[1..]);
      JoinThenSplit(ps[1..]);
      assert ([Space] + j)[1..] == j;
      assert Split([Space] + j) == [""] + Split(j);
      SplitPrepend(ps[0], [Space] + j);
      assert ps[0] + [Space] + j == ps[0] + ([Space] + j);
      assert ps[0] + "" == ps[0];
      assert ps == [ps[0]] + ps[1..];
    }
  }

  /** The filter decides piece by piece: filtering one piece keeps it exactly when it is non-empty. */
  lemma NonEmptySingleton(p: string)
    ensures NonEmpty([p]) == if |p| > 0 then [p] else []
  {
    assert [p][1..] == [];
  }

  /** The filter works piece by piece and keeps their order: it distributes over concatenation. */
  lemma {:induction false} NonEmptyAppend(a: seq<string>, b: seq<string>)
    ensures NonEmpty(a + b) == NonEmpty(a) + NonEmpty(b)
    decreases |a|
  {
    if |a| == 0 {
      assert a + b == b;
    } else {
      var ab := a + b;
      assert ab[0] == a[0] && ab[1..] == a[1..] + b;
      NonEmptyAppend(a[1..], b);
      var tail := NonEmpty(a[1..]) + NonEmpty(b);
      if |a[0]| == 0 {
        assert NonEmpty(ab) == tail;
        assert NonEmpty(a) == NonEmpty(a[1..]);
      } else {
        assert NonEmpty(ab) == [a[0]] + tail;
        assert NonEmpty(a) == [a[0]] + NonEmpty(a[1..]);
        assert [a[0]] + tail == ([a[0]] + NonEmpty(a[1..])) + NonEmpty(b);
      }
    }
  }

  /** A string survives the filter exactly when it is a non-empty piece of the input. */
  lemma {:induction false} NonEmptyMembers(ps: seq<string>, p: string)
    ensures p in NonEmpty(ps) <==> p in ps && |p| > 0
    decreases |ps|
  {
    if |ps| > 0 {
      NonEmptyMembers(ps[1..], p);
      assert ps == [ps[0]] + ps[1..];
      assert p in ps <==> p == ps[0] || p in ps[1..];
    }
  }

  /** Filtering pieces that are all non-empty keeps them all. */
  lemma {:induction false} NonEmptyKeepsTokens(ts: seq<string>)
    requires AllTokens(ts)
    ensures NonEmpty(ts) == ts
    decreases |ts|
  {
    if |ts| > 0 {
      NonEmptyKeepsTokens(ts[1..]);
      assert ts == [ts[0]] + ts[1..];
    }
  }

  /** Tokenizing a space-join of tokens gives back exactly those tokens. */
  lemma TokensOfJoin(ts: seq<string>)
    requires AllTokens(ts)
    ensures Tokens(Join(ts)) == ts
  {
    if |ts| == 0 {
      assert Split("") == [""];
    } else {
      JoinThenSplit(ts);
      NonEmptyKeepsTokens(ts);
    }
  }

  /** Dropping empty pieces does not change what they spell together. */
  lemma {:induction false} ConcatNonEmpty(ps: seq<string>)
    ensures Concat(NonEmpty(ps)) == Concat(ps)
    decreases |ps|
  {
    if |ps| > 0 {
      ConcatNonEmpty(ps[1..]);
      if |ps[0]| == 0 {
        assert ps[0] + Concat(ps[1..]) == Concat(ps[1..]);
      } else {
        assert ([ps[0]] + NonEmpty(ps[1..]))[1..] == NonEmpty(ps[1..]);
      }
    }
  }

  /** The pieces of a split spell the string without its separators. */
  lemma {:induction false} ConcatSplit(s: string)
    ensures Concat(Split(s)) == RemoveSpaces(s)
    decreases |s|
  {
    if |s| == 0 {
      assert Concat([""]) == "" + Concat([]);
    } else {
      var rest := Split(s[1..]);
      ConcatSplit(s[1..]);
      if s[0] == Space {
        assert Split(s) == [""] + rest;
        assert ([""] + rest)[1..] == rest;
        assert Concat(Split(s)) == "" + Concat(rest);
      } else {
        assert Split(s)[1..] == rest[1..];
        assert Concat(rest) == rest[0] + Concat(rest[1..]);
        assert Concat(Split(s)) == ([s[0]] + rest[0]) + Concat(rest[1..]);
      }
    }
  }

  /** The tokens of `s`, laid end to end, are the non-separator characters of `s` in order. */
  lemma TokensKeepContent(s: string)
    ensures Concat(Tokens(s)) == RemoveSpaces(s)
  {
    ConcatNonEmpty(Split(s));
    ConcatSplit(s);
  }

  /** Taking the separators out works character by character, so it distributes over concatenation. */
  lemma {:induction false} RemoveSpacesAppend(a: string, b: string)
    ensures RemoveSpaces(a + b) == RemoveSpaces(a) + RemoveSpaces(b)
    decreases |a|
  {
    if |a| == 0 {
      assert a + b == b;
    } else {
      var ab := a + b;
      assert ab[0] == a[0] && ab[1..] == a[1..] + b;
      RemoveSpacesAppend(a[1..], b);
      var head: string := if a[0] == Space then "" else [a[0]];
      assert RemoveSpaces(ab) == head + (RemoveSpaces(a[1..]) + RemoveSpaces(b));
      assert RemoveSpaces(a) == head + RemoveSpaces(a[1..]);
      assert head + (RemoveSpaces(a[1..]) + RemoveSpaces(b)) == (head + RemoveSpaces(a[1..])) + RemoveSpaces(b);
    }
  }

  /** A string without separators loses nothing when they are taken out. */
  lemma {:induction false} RemoveSpacesOfSpaceFree(s: string)
    requires SpaceFree(s)
    ensures RemoveSpaces(s) == s
    decreases |s|
  {
    if |s| > 0 {
      assert s[0] in s;
      assert forall c :: c in s[1..] ==> c in s;
      RemoveSpacesOfSpaceFree(s[1..]);
      assert s == [s[0]] + s[1..];
    }
  }

  /** Only a blank string loses every character when its separators are removed. */
  lemma {:induction false} RemoveSpacesEmptyIffBlank(s: string)
    ensures RemoveSpaces(s) == "" <==> IsBlank(s)
    decreases |s|
  {
    if |s| > 0 {
      RemoveSpacesEmptyIffBlank(s[1..]);
      assert IsBlank(s) <==> s[0] == Space && IsBlank(s[1..]) by {
        if IsBlank(s) {
          forall i | 0 <= i < |s| - 1 ensures s[1..][i] == Space {
            assert s[1..][i] == s[i + 1];
          }
        }
        if s[0] == Space && IsBlank(s[1..]) {
          forall i | 0 <= i < |s| ensures s[i] == Space {
            if i > 0 { assert s[i] == s[1..][i - 1]; }
          }
        }
      }
      if s[0] != Space {
        assert RemoveSpaces(s)[0] == s[0];
      } else {
        assert RemoveSpaces(s) == "" + RemoveSpaces(s[1..]);
      }
    }
  }

  /** A string has no tokens exactly when all its characters are separators. */
  lemma TokensEmptyIffBlank(s: string)
    ensures Tokens(s) == [] <==> IsBlank(s)
  {
    var ts := Tokens(s);
    TokensKeepContent(s);
    RemoveSpacesEmptyIffBlank(s);
    if ts != [] {
      assert |Concat(ts)| >= |ts[0]| > 0;
    }
  }

  // ---------------------------------------------------------------------------
  // toLowerCase, restricted to ASCII letters

  predicate IsUpperAscii(c: char) {
    'A' <= c <= 'Z'
  }

  /** No ASCII capital letter in `s`. */
  predicate IsLowerCase(s: string) {
    forall i :: 0 <= i < |s| ==> !IsUpperAscii(s[i])
  }

  /** The lower-case form of an ASCII capital; every other character is kept. */
  function LowerChar(c: char): (r: char)
    ensures !IsUpperAscii(r)
    ensures IsUpperAscii(c) ==> r as int == c as int + 32
    ensures !IsUpperAscii(c) ==> r == c
  {
    if IsUpperAscii(c) then (c as int + 32) as char else c
  }

  /** `s.toLowerCase()` on ASCII letters: same length, no capital left. */
  function Lower(s: string): (r: string)
    ensures |r| == |s| && IsLowerCase(r)
    ensures forall i :: 0 <= i < |s| ==> r[i] == LowerChar(s[i])
  {
    seq(|s|, i requires 0 <= i < |s| => LowerChar(s[i]))
  }

  /** Lower-casing changes nothing in a string that is already lower case. */
  lemma LowerOfLowerCase(s: string)
    requires IsLowerCase(s)
    ensures Lower(s) == s
  {
  }

  /** Lower-casing twice is lower-casing once. */
  lemma LowerIdempotent(s: string)
    ensures Lower(Lower(s)) == Lower(s)
  {
    LowerOfLowerCase(Lower(s));
  }

  /** Lower-casing neither creates nor removes separators, so tokens stay tokens. */
  lemma LowerKeepsTokens(t: string)
    ensures IsToken(Lower(t)) <==> IsToken(t)
  {
    var l := Lower(t);
    if Space in t {
      var i :| 0 <= i < |t| && t[i] == Space;
      assert l[i] == Space;
    }
    if Space in l {
      var i :| 0 <= i < |l| && l[i] == Space;
      assert t[i] == Space;
    }
  }

  // ---------------------------------------------------------------------------
  // trim

  /** The characters `String.prototype.trim` removes: white space and line terminators. */
  predicate IsJsWhitespace(c: char) {
    var n := c as int;
    n == 0x09 || n == 0x0A || n == 0x0B || n == 0x0C || n == 0x0D || n == 0x20
    || n == 0xA0 || n == 0x1680 || (0x2000 <= n <= 0x200A) || n == 0x2028
    || n == 0x2029 || n == 0x202F || n == 0x205F || n == 0x3000 || n == 0xFEFF
  }

  /** `s` without its leading white space. */
  function TrimStart(s: string): (r: string)
    ensures |r| <= |s| && r == s[|s| - |r|..]
    ensures r == [] || !IsJsWhitespace(r[0])
    ensures forall i :: 0 <= i < |s| - |r| ==> IsJsWhitespace(s[i])
  {
    if |s| > 0 && IsJsWhitespace(s[0]) then TrimStart(s[1..]) else s
  }

  /** `s` without its trailing white space. */
  function TrimEnd(s: string): (r: string)
    ensures |r| <= |s| && r == s[..|r|]
    ensures r == [] || !IsJsWhitespace(r[|r| - 1])
    ensures forall i :: |r| <= i < |s| ==> IsJsWhitespace(s[i])
  {
    if |s| > 0 && IsJsWhitespace(s[|s| - 1]) then TrimEnd(s[..|s| - 1]) else s
  }

  /** `r` is the slice of `s` from `a`, and all of `s` before and after that slice is white space. */
  predicate OnlyWhitespaceCut(s: string, r: string, a: int) {
    && 0 <= a <= |s| - |r| && r == s[a..][..|r|]
    && (forall i :: 0 <= i < a ==> IsJsWhitespace(s[i]))
    && (forall i :: a + |r| <= i < |s| ==> IsJsWhitespace(s[i]))
  }

  /**
   * `s.trim()`: the result is a slice of `s` that neither starts nor ends
   * with white space, and everything cut off before and after it is white space.
   */
  function Trim(s: string): (r: string)
    ensures r == [] || (!IsJsWhitespace(r[0]) && !IsJsWhitespace(r[|r| - 1]))
    ensures |r| <= |s|
    ensures exists a :: OnlyWhitespaceCut(s, r, a)
  {
    var t := TrimStart(s);
    var e := TrimEnd(t);
    var a := |s| - |t|;
    assert OnlyWhitespaceCut(s, e, a) by {
      assert t == s[a..] && e == t[..|e|];
      forall i | a + |e| <= i < |s| ensures IsJsWhitespace(s[i]) {
        assert s[i] == t[i - a];
      }
    }
    e
  }
}
