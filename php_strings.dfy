/** The PHP string built-ins the pattern retriever relies on: `trim` with its
    default character list, `explode("\t", $s, 2)` as taken apart by `list()`,
    and `str_repeat`. Strings are sequences of characters; PHP's byte strings
    are not distinguished from them here. */
module PhpStrings {

  /** The characters `trim` strips when it is given no list: space, tab,
      line feed, carriage return, NUL and vertical tab. */
  predicate IsTrimChar(c: char)
  {
    c == ' ' || c == '\t' || c == '\n' || c == '\r' || c == '\0' || c == '\U{B}'
  }

  /** `ltrim`: drops the longest run of trim characters at the front. */
  function TrimLeft(s: string): string
  {
    if s != [] && IsTrimChar(s[0]) then TrimLeft(s[1..]) else s
  }

  /** `ltrim` keeps a suffix of `s`, everything it drops is a trim
      character, and what it keeps does not start with one. */
  lemma {:induction false} TrimLeftSpec(s: string)
    ensures |TrimLeft(s)| <= |s| && TrimLeft(s) == s[|s| - |TrimLeft(s)|..]
    ensures forall k :: 0 <= k < |s| - |TrimLeft(s)| ==> IsTrimChar(s[k])
    ensures TrimLeft(s) != [] ==> !IsTrimChar(TrimLeft(s)[0])
  {
    if s != [] && IsTrimChar(s[0]) {
      var rest := s[1..];
      TrimLeftSpec(rest);
      var r := TrimLeft(rest);
      assert TrimLeft(s) == r;
      assert rest[|rest| - |r|..] == s[|s| - |r|..];
      forall k | 0 <= k < |s| - |r|
        ensures IsTrimChar(s[k])
      {
        if k > 0 {
          assert s[k] == rest[k - 1];
        }
      }
    } else {
      assert TrimLeft(s) == s;
    }
  }

  /** `rtrim`: drops the longest run of trim characters at the back. */
  function TrimRight(s: string): string
  {
    if s != [] && IsTrimChar(s[|s| - 1]) then TrimRight(s[..|s| - 1]) else s
  }

  /** `rtrim` keeps a prefix of `s`, everything it drops is a trim
      character, and what it keeps does not end with one. */
  lemma {:induction false} TrimRightSpec(s: string)
    ensures |TrimRight(s)| <= |s| && TrimRight(s) == s[..|TrimRight(s)|]
    ensures forall k :: |TrimRight(s)| <= k < |s| ==> IsTrimChar(s[k])
    ensures TrimRight(s) != [] ==> !IsTrimChar(TrimRight(s)[|TrimRight(s)| - 1])
  {
    if s != [] && IsTrimChar(s[|s| - 1]) {
      var rest := s[..|s| - 1];
      TrimRightSpec(rest);
      var r := TrimRight(rest);
      assert TrimRight(s) == r;
      assert r == rest[..|r|] == s[..|r|];
      forall k | |r| <= k < |s| - 1
        ensures IsTrimChar(s[k])
      {
        assert s[k] == rest[k];
      }
    }
  }

  /** `r` is the factor of `s` that starts at `i`, and everything of `s`
      outside it is a trim character. */
  predicate StrippedAt(s: string, i: int, r: string)
  {
    0 <= i <= |s| - |r| && r == s[i..i + |r|]
    && (forall k :: 0 <= k < i ==> IsTrimChar(s[k]))
    && (forall k :: i + |r| <= k < |s| ==> IsTrimChar(s[k]))
  }

  /** `trim`: strips trim characters from both ends. */
  function Trim(s: string): string
  {
    TrimRight(TrimLeft(s))
  }

  /** What `trim` returns is the factor of `s` left once both runs of trim
      characters are gone; it neither starts nor ends with a trim character. */
  lemma TrimSpec(s: string)
    ensures exists i :: StrippedAt(s, i, Trim(s))
    ensures Trim(s) != [] ==> !IsTrimChar(Trim(s)[0]) && !IsTrimChar(Trim(s)[|Trim(s)| - 1])
  {
    var left := TrimLeft(s);
    var r := TrimRight(left);
    TrimLeftSpec(s);
    TrimRightSpec(left);
    var i := |s| - |left|;
    assert left == s[i..] && r == left[..|r|];
    assert r == s[i..i + |r|];
    forall k | i + |r| <= k < |s|
      ensures IsTrimChar(s[k])
    {
      assert s[k] == left[k - i];
    }
    assert StrippedAt(s, i, r);
    assert r != [] ==> r[0] == left[0];
    assert Trim(s) == r;
  }

  /** Position of the first tab in `s`, or `|s|` when there is none. */
  function FirstTab(s: string): (i: nat)
    ensures i <= |s|
  {
    if s == [] || s[0] == '\t' then 0 else 1 + FirstTab(s[1..])
  }

  /** No tab comes before the position `FirstTab` finds, and when that
      position is inside `s` it holds a tab. */
  lemma {:induction false} FirstTabSpec(s: string)
    ensures forall k :: 0 <= k < FirstTab(s) ==> s[k] != '\t'
    ensures FirstTab(s) < |s| ==> s[FirstTab(s)] == '\t'
  {
    if s != [] && s[0] != '\t' {
      FirstTabSpec(s[1..]);
      forall k | 1 <= k < FirstTab(s)
        ensures s[k] != '\t'
      {
        assert s[k] == s[1..][k - 1];
      }
    }
  }

  /** `list($head, $tail) = explode("\t", $s, 2)`: the text before the first
      tab and everything after it, later tabs included. When `s` holds no
      tab, `explode` gives a one-element array, `$tail` is null, and since
      `trim(null)` is the empty string the tail is modelled as "". */
  function SplitAtFirstTab(s: string): (string, string)
  {
    var i := FirstTab(s);
    if i < |s| then (s[..i], s[i + 1..]) else (s, "")
  }

  /** The head never holds a tab; when `s` has a tab, head, tab and tail
      put back together give `s`; when it has none, the head is all of `s`. */
  lemma SplitAtFirstTabSpec(s: string)
    ensures '\t' !in SplitAtFirstTab(s).0
    ensures '\t' in s ==> s == SplitAtFirstTab(s).0 + "\t" + SplitAtFirstTab(s).1
    ensures '\t' !in s ==> SplitAtFirstTab(s) == (s, "")
  {
    FirstTabSpec(s);
    var i := FirstTab(s);
    if i < |s| {
      assert s == s[..i] + "\t" + s[i + 1..];
    }
  }

  /** Splitting an entry written as `head TAB tail`, with a tab-free head,
      gives back exactly that head and that tail, even when the tail holds
      further tabs (the limit of 2 keeps them in the tail). */
  lemma {:induction false} SplitJoin(head: string, tail: string)
    requires '\t' !in head
    ensures SplitAtFirstTab(head + "\t" + tail) == (head, tail)
  {
    var s := head + "\t" + tail;
    assert s[|head|] == '\t';
    assert forall k :: 0 <= k < |head| ==> s[k] == head[k];
    FirstTabSpec(s);
    assert FirstTab(s) == |head|;
    var r := SplitAtFirstTab(s);
    assert r.0 == s[..|head|] == head;
    assert r.1 == s[|head| + 1..] == tail;
  }

  /** `str_repeat(c, n)`: `n` copies of `c`. */
  function StrRepeat(c: char, n: nat): (r: string)
    ensures |r| == n
  {
    if n == 0 then "" else StrRepeat(c, n - 1) + [c]
  }

  /** Every character of `str_repeat(c, n)` is `c`. */
  lemma {:induction false} StrRepeatSpec(c: char, n: nat)
    ensures forall k :: 0 <= k < n ==> StrRepeat(c, n)[k] == c
  {
    if n > 0 {
      StrRepeatSpec(c, n - 1);
    }
  }
}
