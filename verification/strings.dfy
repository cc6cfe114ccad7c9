/** The few string operations the backend relies on, written over `seq<char>`. */
module Strings {
  import opened Wrappers

  /** Position of the first occurrence of `c` in `s`, or `None` when `c` does not occur. */
  function FirstIndex(s: string, c: char): (r: Option<nat>)
    ensures r.None? <==> c !in s
    ensures r.Some? ==> r.value < |s| && s[r.value] == c && c !in s[..r.value]
  {
    if |s| == 0 then None
    else if s[0] == c then Some(0)
    else match FirstIndex(s[1..], c)
      case None => None
      case Some(i) =>
        assert s[..i + 1] == [s[0]] + s[1..][..i];
        Some(i + 1)
  }

  /** Python's `s.split(sep, 1)`: the whole string when `sep` does not occur,
      otherwise the text before and after the first `sep`. */
  function SplitOnce(s: string, sep: char): (parts: seq<string>)
    ensures 1 <= |parts| <= 2
    ensures |parts| == 1 <==> sep !in s
    ensures |parts| == 1 ==> parts[0] == s
    ensures |parts| == 2 ==> sep !in parts[0] && s == parts[0] + [sep] + parts[1]
  {
    match FirstIndex(s, sep)
    case None => [s]
    case Some(i) =>
      assert s == s[..i] + [sep] + s[i + 1..];
      [s[..i], s[i + 1..]]
  }

  /** The split is the only one whose head is free of `sep`: any decomposition
      `head + [sep] + tail` with `sep !in head` is what `SplitOnce` returns. */
  lemma {:induction false} SplitOnceUnique(s: string, sep: char, head: string, tail: string)
    requires sep !in head
    requires s == head + [sep] + tail
    ensures SplitOnce(s, sep) == [head, tail]
  {
    assert s[|head|] == sep;
    forall j | 0 <= j < |head|
      ensures s[j] != sep
    {
      assert s[j] == head[j];
    }
    assert FirstIndex(s, sep) == Some(|head|);
    assert s[..|head|] == head;
    assert s[|head| + 1..] == tail;
  }

  /** Upper-casing of one character, ASCII letters only. */
  function UpperChar(c: char): char
  {
    if 'a' <= c <= 'z' then (c as int - 32) as char else c
  }

  /** `str.upper()` restricted to ASCII letters: the result has the same
      length, holds no lower-case ASCII letter, and every other character
      is kept. */
  function ToUpper(s: string): (r: string)
    ensures |r| == |s|
    ensures forall i :: 0 <= i < |r| ==> !('a' <= r[i] <= 'z')
    ensures forall i :: 0 <= i < |r| && !('a' <= s[i] <= 'z') ==> r[i] == s[i]
    ensures forall i :: 0 <= i < |r| && 'a' <= s[i] <= 'z' ==> 'A' <= r[i] <= 'Z' && r[i] as int + 32 == s[i] as int
  {
    if |s| == 0 then [] else [UpperChar(s[0])] + ToUpper(s[1..])
  }

  /** `ToUpper` works character by character. */
  lemma {:induction false} ToUpperByChar(s: string)
    ensures forall i :: 0 <= i < |s| ==> ToUpper(s)[i] == UpperChar(s[i])
  {
    if |s| > 0 {
      ToUpperByChar(s[1..]);
    }
  }

  /** A string without lower-case ASCII letters is its own upper case. */
  lemma ToUpperFixesUpper(s: string)
    requires forall i :: 0 <= i < |s| ==> !('a' <= s[i] <= 'z')
    ensures ToUpper(s) == s
  {
    var u := ToUpper(s);
    assert forall i :: 0 <= i < |u| ==> u[i] == s[i];
  }
}
