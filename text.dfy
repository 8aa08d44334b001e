/** Splitting and joining strings on a separator character: the shape behind
    the `X+(\.X+)*` parts of the email pattern and the number syntax. */
module Text {

  /** Index of the first occurrence of `c` in `s`, or `|s|` when there is none. */
  function IndexOf(s: string, c: char): (i: nat)
    ensures i <= |s|
    ensures i < |s| ==> s[i] == c
    ensures forall j :: 0 <= j < i ==> s[j] != c
  {
    if s == [] then 0
    else if s[0] == c then 0
    else 1 + IndexOf(s[1..], c)
  }

  /** Index of the last occurrence of `c` in `s`, or `|s|` when there is none. */
  function LastIndexOf(s: string, c: char): (i: nat)
    ensures i <= |s|
    ensures i < |s| ==> s[i] == c && c !in s[i + 1..]
    ensures i == |s| ==> c !in s
  {
    if s == [] then 0
    else if s[|s| - 1] == c then |s| - 1
    else
      var k := LastIndexOf(s[..|s| - 1], c);
      if k == |s| - 1 then |s| else k
  }

  /** The parts joined with one separator between neighbours. */
  function Join(parts: seq<string>, sep: char): string
    requires |parts| >= 1
    decreases |parts|
  {
    if |parts| == 1 then parts[0] else parts[0] + [sep] + Join(parts[1..], sep)
  }

  /** The maximal separator-free pieces of `s`, in order. */
  function Split(s: string, sep: char): (parts: seq<string>)
    ensures |parts| >= 1
    ensures Join(parts, sep) == s
    ensures forall i :: 0 <= i < |parts| ==> sep !in parts[i]
    decreases |s|
  {
    var k := IndexOf(s, sep);
    if k == |s| then [s]
    else
      var rest := Split(s[k + 1..], sep);
      assert s == s[..k] + [sep] + s[k + 1..];
      [s[..k]] + rest
  }

  /** Splitting undoes joining separator-free parts: the pieces of a join are unique. */
  lemma {:induction false} SplitJoin(parts: seq<string>, sep: char)
    requires |parts| >= 1
    requires forall i :: 0 <= i < |parts| ==> sep !in parts[i]
    ensures Split(Join(parts, sep), sep) == parts
    decreases |parts|
  {
    var s := Join(parts, sep);
    if |parts| == 1 {
      assert IndexOf(s, sep) == |s|;
    } else {
      var p := parts[0];
      assert s == p + [sep] + Join(parts[1..], sep);
      assert IndexOf(s, sep) == |p| by {
        assert s[|p|] == sep;
        assert forall j :: 0 <= j < |p| ==> s[j] == p[j];
      }
      assert s[..|p|] == p;
      assert s[|p| + 1..] == Join(parts[1..], sep);
      SplitJoin(parts[1..], sep);
      assert parts == [p] + parts[1..];
    }
  }

  /** A character that is not the separator and occurs in no part does not
      occur in the join. */
  lemma {:induction false} JoinAvoids(parts: seq<string>, sep: char, c: char)
    requires |parts| >= 1
    requires c != sep && forall i :: 0 <= i < |parts| ==> c !in parts[i]
    ensures c !in Join(parts, sep)
    decreases |parts|
  {
    if |parts| > 1 {
      JoinAvoids(parts[1..], sep, c);
      assert Join(parts, sep) == parts[0] + [sep] + Join(parts[1..], sep);
    }
  }

  /** A join of non-empty, separator-free parts neither starts nor ends with the
      separator, and never holds two separators in a row. */
  lemma {:induction false} JoinOfNonEmptyParts(parts: seq<string>, sep: char)
    requires |parts| >= 1
    requires forall i :: 0 <= i < |parts| ==> |parts[i]| >= 1 && sep !in parts[i]
    ensures var s := Join(parts, sep);
      |s| >= 1 && s[0] != sep && s[|s| - 1] != sep &&
      forall j :: 0 <= j < |s| - 1 ==> !(s[j] == sep && s[j + 1] == sep)
    decreases |parts|
  {
    var s := Join(parts, sep);
    var p := parts[0];
    assert p[0] in p;
    if |parts| > 1 {
      var t := Join(parts[1..], sep);
      JoinOfNonEmptyParts(parts[1..], sep);
      assert s == p + [sep] + t;
      assert p[|p| - 1] in p;
      forall j | 0 <= j < |s| - 1
        ensures !(s[j] == sep && s[j + 1] == sep)
      {
        if j < |p| {
          assert s[j] == p[j];
          assert p[j] in p;
        } else if j > |p| {
          assert s[j] == t[j - |p| - 1] && s[j + 1] == t[j - |p|];
        } else {
          assert s[j + 1] == t[0];
        }
      }
    } else {
      assert s == p;
      assert p[|p| - 1] in p;
    }
  }

  // ---- ASCII lower-casing --------------------------------------------------

  function LowerChar(c: char): char {
    if 'A' <= c <= 'Z' then (c as int + 32) as char else c
  }

  /** `toLowerCase` restricted to ASCII letters. */
  function AsciiLower(s: string): string {
    seq(|s|, i requires 0 <= i < |s| => LowerChar(s[i]))
  }

  /** Every part lower-cased. */
  function LowerEach(parts: seq<string>): seq<string> {
    seq(|parts|, i requires 0 <= i < |parts| => AsciiLower(parts[i]))
  }

  predicate IsCaseless(c: char) {
    !('A' <= c <= 'Z') && !('a' <= c <= 'z')
  }

  lemma LowerSlice(s: string, i: nat, j: nat)
    requires i <= j <= |s|
    ensures AsciiLower(s)[i..j] == AsciiLower(s[i..j])
  {
  }

  lemma {:induction false} IndexOfLower(s: string, c: char)
    requires IsCaseless(c)
    ensures IndexOf(AsciiLower(s), c) == IndexOf(s, c)
    decreases |s|
  {
    if s != [] {
      assert AsciiLower(s)[1..] == AsciiLower(s[1..]);
      IndexOfLower(s[1..], c);
    }
  }

  lemma {:induction false} LastIndexOfLower(s: string, c: char)
    requires IsCaseless(c)
    ensures LastIndexOf(AsciiLower(s), c) == LastIndexOf(s, c)
    decreases |s|
  {
    if s != [] {
      assert AsciiLower(s)[..|s| - 1] == AsciiLower(s[..|s| - 1]);
      LastIndexOfLower(s[..|s| - 1], c);
    }
  }

  /** Lower-casing commutes with splitting on a character that has no case. */
  lemma {:induction false} SplitLower(s: string, sep: char)
    requires IsCaseless(sep)
    ensures Split(AsciiLower(s), sep) == LowerEach(Split(s, sep))
    decreases |s|
  {
    var t := AsciiLower(s);
    var k := IndexOf(s, sep);
    assert IndexOf(t, sep) == k by {
      IndexOfLower(s, sep);
    }
    if k == |s| {
      assert Split(t, sep) == [t];
      assert Split(s, sep) == [s];
      LowerEachCons(s, []);
    } else {
      var rest := Split(s[k + 1..], sep);
      assert Split(s, sep) == [s[..k]] + rest;
      assert t[..k] == AsciiLower(s[..k]) by {
        LowerSlice(s, 0, k);
      }
      assert t[k + 1..] == AsciiLower(s[k + 1..]) by {
        LowerSlice(s, k + 1, |s|);
      }
      assert Split(t, sep) == [t[..k]] + Split(t[k + 1..], sep);
      SplitLower(s[k + 1..], sep);
      LowerEachCons(s[..k], rest);
    }
  }

  lemma LowerEachCons(p: string, rest: seq<string>)
    ensures LowerEach([p] + rest) == [AsciiLower(p)] + LowerEach(rest)
  {
  }

}
