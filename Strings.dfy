/**
 * The few Python `str` operations the two programs use, restricted to ASCII:
 * `strip()`, `lower()`, `replace(' ', '_')` and `split(sep)`.
 */
module Strings {

  /** Python's `str.isspace()` on ASCII: space, \t \n \v \f \r and the separators \x1c..\x1f. */
  predicate IsSpace(c: char) {
    c == ' ' || ('\t' <= c <= '\r') || ('\U{1C}' <= c <= '\U{1F}')
  }

  predicate IsUpper(c: char) {
    'A' <= c <= 'Z'
  }

  predicate HasPrefix(s: string, p: string) {
    |p| <= |s| && s[..|p|] == p
  }

  /** `s.lstrip()`: drops the longest all-whitespace prefix. */
  function StripLeft(s: string): string {
    if |s| > 0 && IsSpace(s[0]) then StripLeft(s[1..]) else s
  }

  /** `s.rstrip()`: drops the longest all-whitespace suffix. */
  function StripRight(s: string): string {
    if |s| > 0 && IsSpace(s[|s| - 1]) then StripRight(s[..|s| - 1]) else s
  }

  /** `s.strip()`. */
  function Strip(s: string): string {
    StripRight(StripLeft(s))
  }

  lemma {:induction false} StripLeftShape(s: string)
    ensures var r := StripLeft(s);
      && |r| <= |s| && r == s[|s| - |r|..]
      && (r != [] ==> !IsSpace(r[0]))
      && (forall i :: 0 <= i < |s| - |r| ==> IsSpace(s[i]))
  {
    if |s| > 0 && IsSpace(s[0]) {
      StripLeftShape(s[1..]);
    }
  }

  lemma {:induction false} StripRightShape(s: string)
    ensures var r := StripRight(s);
      && |r| <= |s| && r == s[..|r|]
      && (r != [] ==> !IsSpace(r[|r| - 1]))
      && (forall i :: |r| <= i < |s| ==> IsSpace(s[i]))
  {
    if |s| > 0 && IsSpace(s[|s| - 1]) {
      StripRightShape(s[..|s| - 1]);
    }
  }

  /**
   * `Strip(s)` is the slice of `s` between a whitespace prefix and a
   * whitespace suffix, and neither starts nor ends with whitespace.
   */
  lemma StripShape(s: string)
    ensures var r := Strip(s);
      var i := |s| - |StripLeft(s)|;
      && 0 <= i && i + |r| <= |s|
      && r == s[i..i + |r|]
      && (forall j :: 0 <= j < i ==> IsSpace(s[j]))
      && (forall j :: i + |r| <= j < |s| ==> IsSpace(s[j]))
      && (r != [] ==> !IsSpace(r[0]) && !IsSpace(r[|r| - 1]))
  {
    StripLeftShape(s);
    StripRightShape(StripLeft(s));
  }

  /** A stripped string is empty exactly when the input is all whitespace. */
  lemma StripEmpty(s: string)
    ensures Strip(s) == [] <==> forall j :: 0 <= j < |s| ==> IsSpace(s[j])
  {
    StripShape(s);
    if Strip(s) != [] {
      var i := |s| - |StripLeft(s)|;
      assert s[i] == Strip(s)[0];
    }
  }

  /** Stripping twice is stripping once. */
  lemma StripIdempotent(s: string)
    ensures Strip(Strip(s)) == Strip(s)
  {
    StripShape(s);
    var r := Strip(s);
    if r != [] {
      assert StripLeft(r) == r;
      assert StripRight(r) == r;
    }
  }

  function LowerChar(c: char): (d: char)
    ensures !IsUpper(d)
    ensures IsUpper(c) ==> d as int == c as int + ('a' as int - 'A' as int)
    ensures !IsUpper(c) ==> d == c
    ensures IsSpace(d) <==> IsSpace(c)
  {
    if IsUpper(c) then (c as int + ('a' as int - 'A' as int)) as char else c
  }

  /** `s.lower()` on ASCII letters; every other character is kept. */
  function Lower(s: string): string {
    if |s| == 0 then [] else [LowerChar(s[0])] + Lower(s[1..])
  }

  lemma {:induction false} LowerAt(s: string)
    ensures |Lower(s)| == |s|
    ensures forall i :: 0 <= i < |s| ==> Lower(s)[i] == LowerChar(s[i])
  {
    if |s| > 0 {
      LowerAt(s[1..]);
      assert forall i :: 1 <= i < |s| ==> Lower(s)[i] == Lower(s[1..])[i - 1];
    }
  }

  /** `s.replace(from, to)` for single characters. */
  function Replace(s: string, from: char, to: char): string {
    if |s| == 0 then [] else [if s[0] == from then to else s[0]] + Replace(s[1..], from, to)
  }

  lemma {:induction false} ReplaceAt(s: string, from: char, to: char)
    ensures |Replace(s, from, to)| == |s|
    ensures forall i :: 0 <= i < |s| ==> Replace(s, from, to)[i] == if s[i] == from then to else s[i]
  {
    if |s| > 0 {
      ReplaceAt(s[1..], from, to);
      assert forall i :: 1 <= i < |s| ==> Replace(s, from, to)[i] == Replace(s[1..], from, to)[i - 1];
    }
  }

  /**
   * `s.strip().lower().replace(' ', '_')`, the name normalisation the import
   * program applies to table names, attribute names and record ids.
   */
  function Normalise(s: string): string {
    Replace(Lower(Strip(s)), ' ', '_')
  }

  /**
   * A normalised name has no space and no upper-case letter, is empty exactly
   * when the input is blank, and neither starts nor ends with whitespace.
   */
  lemma NormaliseShape(s: string)
    ensures var r := Normalise(s);
      && ' ' !in r
      && (forall i :: 0 <= i < |r| ==> !IsUpper(r[i]))
      && (r == [] <==> Strip(s) == [])
      && (r != [] ==> !IsSpace(r[0]) && !IsSpace(r[|r| - 1]))
  {
    var t := Strip(s);
    StripShape(s);
    LowerAt(t);
    ReplaceAt(Lower(t), ' ', '_');
    var r := Normalise(s);
    assert forall i :: 0 <= i < |r| ==> r[i] != ' ' && !IsUpper(r[i]) && (IsSpace(r[i]) ==> IsSpace(t[i]));
  }

  /** A normalised name is a fixed point of the normalisation. */
  lemma NormaliseIdempotent(s: string)
    ensures Normalise(Normalise(s)) == Normalise(s)
  {
    var r := Normalise(s);
    NormaliseShape(s);
    StripShape(r);
    if r != [] {
      assert StripLeft(r) == r;
      assert StripRight(r) == r;
    }
    assert Strip(r) == r;
    LowerAt(r);
    assert Lower(r) == r;
    ReplaceAt(r, ' ', '_');
    assert Replace(r, ' ', '_') == r;
  }

  function Count(s: string, c: char): nat {
    if |s| == 0 then 0 else (if s[0] == c then 1 else 0) + Count(s[1..], c)
  }

  /**
   * `s.split(sep)` with Python's semantics for an explicit separator, so
   * `"".split(';') == [""]` and `";".split(';') == ["", ""]`.
   */
  function Split(s: string, sep: char): (r: seq<string>)
    ensures |r| >= 1
    decreases |s|
  {
    if |s| == 0 then [""]
    else
      var rest := Split(s[1..], sep);
      if s[0] == sep then [""] + rest
      else [[s[0]] + rest[0]] + rest[1..]
  }

  /**
   * There is one more piece than separators, no piece contains the
   * separator, and a string without separator is its own single piece.
   */
  lemma {:induction false} SplitPieces(s: string, sep: char)
    ensures var r := Split(s, sep);
      && |r| == Count(s, sep) + 1
      && (forall i :: 0 <= i < |r| ==> sep !in r[i])
      && (|r| == 1 <==> sep !in s)
      && (sep !in s ==> r == [s])
    decreases |s|
  {
    if |s| > 0 {
      SplitPieces(s[1..], sep);
      var rest := Split(s[1..], sep);
      var r := Split(s, sep);
      if s[0] == sep {
        assert r == [""] + rest;
        assert forall i :: 1 <= i < |r| ==> r[i] == rest[i - 1];
      } else {
        assert r == [[s[0]] + rest[0]] + rest[1..];
        assert forall i :: 1 <= i < |r| ==> r[i] == rest[i];
        assert s == [s[0]] + s[1..];
        assert sep in s <==> sep in s[1..];
      }
    }
  }

  /** `sep.join(parts)`, the inverse of `Split`. */
  function Join(parts: seq<string>, sep: char): string
    requires |parts| >= 1
  {
    if |parts| == 1 then parts[0] else parts[0] + [sep] + Join(parts[1..], sep)
  }

  /** Joining the pieces of a split gives back the string. */
  lemma {:induction false} JoinSplit(s: string, sep: char)
    ensures Join(Split(s, sep), sep) == s
    decreases |s|
  {
    if |s| > 0 {
      var rest := Split(s[1..], sep);
      JoinSplit(s[1..], sep);
      if s[0] == sep {
        assert Split(s, sep) == [""] + rest;
        assert Split(s, sep)[1..] == rest;
      } else {
        var r := Split(s, sep);
        assert r == [[s[0]] + rest[0]] + rest[1..];
        if |rest| == 1 {
          assert r == [[s[0]] + rest[0]];
          assert s == [s[0]] + s[1..];
        } else {
          assert r[1..] == rest[1..];
          assert Join(rest, sep) == rest[0] + [sep] + Join(rest[1..], sep);
          assert s == [s[0]] + s[1..];
        }
      }
    }
  }

  /** Splitting a join of separator-free pieces gives back the pieces. */
  lemma {:induction false} SplitJoin(parts: seq<string>, sep: char)
    requires |parts| >= 1
    requires forall i :: 0 <= i < |parts| ==> sep !in parts[i]
    ensures Split(Join(parts, sep), sep) == parts
    decreases |parts|, |parts[0]|
  {
    if |parts| == 1 {
      SplitPieces(parts[0], sep);
    } else if |parts[0]| == 0 {
      SplitJoin(parts[1..], sep);
      var s := Join(parts, sep);
      assert s == [sep] + Join(parts[1..], sep);
      assert s[1..] == Join(parts[1..], sep);
      assert parts == [""] + parts[1..];
    } else {
      var p0 := parts[0];
      var shorter := [p0[1..]] + parts[1..];
      assert shorter[1..] == parts[1..];
      assert forall i :: 0 <= i < |shorter| ==> sep !in shorter[i] by {
        forall i | 0 <= i < |shorter| ensures sep !in shorter[i] {
          if i > 0 { assert shorter[i] == parts[i]; }
        }
      }
      SplitJoin(shorter, sep);
      var s := Join(parts, sep);
      assert s == p0 + [sep] + Join(parts[1..], sep);
      assert Join(shorter, sep) == p0[1..] + [sep] + Join(parts[1..], sep);
      assert s[1..] == Join(shorter, sep);
      assert s[0] == p0[0];
      assert p0 == [p0[0]] + p0[1..];
      assert parts == [[p0[0]] + p0[1..]] + parts[1..];
    }
  }
}
