/** The string primitives the pricing layer and the CLI rely on: Python's
    `str.lower`, `s.split(".")[-1]` and `str.strip()`. */
module Text {

  // ---------------------------------------------------------------------
  // Lower-casing
  // ---------------------------------------------------------------------

  /** Lower-cases an ASCII capital letter; every other character is kept. */
  function LowerChar(c: char): char {
    if 'A' <= c <= 'Z' then (c as int + 32) as char else c
  }

  predicate IsUpper(c: char) {
    'A' <= c <= 'Z'
  }

  function Lower(s: string): string {
    seq(|s|, i requires 0 <= i < |s| => LowerChar(s[i]))
  }

  /** Lower-casing keeps the length and every '.', changes nothing but
      capitals, and leaves no capital behind. */
  lemma LowerShape(s: string)
    ensures |Lower(s)| == |s|
    ensures forall i :: 0 <= i < |s| ==> (Lower(s)[i] == '.' <==> s[i] == '.')
    ensures forall i :: 0 <= i < |s| && !IsUpper(s[i]) ==> Lower(s)[i] == s[i]
    ensures forall i :: 0 <= i < |s| ==> !IsUpper(Lower(s)[i])
  {
  }

  lemma LowerIdempotent(s: string)
    ensures Lower(Lower(s)) == Lower(s)
  {
  }

  // ---------------------------------------------------------------------
  // Splitting on '.'
  // ---------------------------------------------------------------------

  /** The pieces of `s` between occurrences of `sep`, as Python's
      `s.split(sep)` returns them: never empty, and more than one piece
      exactly when `sep` occurs (`SplitPieces` gives the count). */
  function Split(s: string, sep: char): (parts: seq<string>)
    ensures |parts| > 0
    ensures sep in s <==> |parts| > 1
    decreases |s|
  {
    if |s| == 0 then [""]
    else if s[0] == sep then [""] + Split(s[1..], sep)
    else
      var rest := Split(s[1..], sep);
      [[s[0]] + rest[0]] + rest[1..]
  }

  /** The number of times `c` occurs in `s`. */
  function Occurrences(s: string, c: char): nat
    decreases |s|
  {
    if |s| == 0 then 0 else (if s[0] == c then 1 else 0) + Occurrences(s[1..], c)
  }

  /** `k` separators give `k + 1` pieces. */
  lemma {:induction false} SplitPieces(s: string, sep: char)
    ensures |Split(s, sep)| == Occurrences(s, sep) + 1
    decreases |s|
  {
    if |s| > 0 {
      SplitPieces(s[1..], sep);
    }
  }

  /** The position of the last `sep` in `s`, or -1 when there is none.
      Computed from the right end of the string. */
  function LastIndex(s: string, sep: char): (k: int)
    ensures -1 <= k < |s|
    ensures k >= 0 ==> s[k] == sep
    ensures forall i :: k < i < |s| ==> s[i] != sep
    decreases |s|
  {
    if |s| == 0 then -1
    else if s[|s| - 1] == sep then |s| - 1
    else LastIndex(s[..|s| - 1], sep)
  }

  /** The three facts `LastIndex` ensures pin its result down. */
  lemma LastIndexUnique(s: string, sep: char, j: int)
    requires -1 <= j < |s|
    requires j >= 0 ==> s[j] == sep
    requires forall i :: j < i < |s| ==> s[i] != sep
    ensures j == LastIndex(s, sep)
  {
  }

  /** The piece of `s` after its last `sep`, or the whole of `s` when it has
      none. */
  function AfterLast(s: string, sep: char): string {
    s[LastIndex(s, sep) + 1..]
  }

  /** `AfterLast` is a suffix free of `sep`, preceded by `sep` unless it is
      the whole string. */
  lemma AfterLastShape(s: string, sep: char)
    ensures var r := AfterLast(s, sep);
            && sep !in r
            && |r| <= |s| && r == s[|s| - |r|..]
            && (|r| < |s| ==> s[|s| - |r| - 1] == sep)
  {
  }

  lemma AfterLastWithout(s: string, sep: char)
    requires sep !in s
    ensures AfterLast(s, sep) == s
  {
    LastIndexUnique(s, sep, -1);
  }

  /** Scanning from the left gives the same answer: the last piece of
      Python's `split` is `AfterLast`. */
  lemma {:induction false} SplitLastIsAfterLast(s: string, sep: char)
    ensures Split(s, sep)[|Split(s, sep)| - 1] == AfterLast(s, sep)
    decreases |s|
  {
    if |s| > 0 {
      var tail := s[1..];
      var rest := Split(tail, sep);
      SplitLastIsAfterLast(tail, sep);
      assert s == [s[0]] + tail;
      AfterLastCons(s[0], tail, sep);
      if s[0] != sep {
        var parts := Split(s, sep);
        assert parts == [[s[0]] + rest[0]] + rest[1..];
        if |rest| > 1 {
          assert parts[|parts| - 1] == rest[|rest| - 1];
        } else {
          AfterLastWithout(tail, sep);
          assert parts[|parts| - 1] == [s[0]] + rest[0];
        }
      }
    }
  }

  /** How `AfterLast` sees a character put in front of a string. */
  lemma AfterLastCons(c: char, tail: string, sep: char)
    ensures AfterLast([c] + tail, sep)
            == if c == sep || sep in tail then AfterLast(tail, sep) else [c] + tail
  {
    var s := [c] + tail;
    var k := LastIndex(tail, sep);
    if k >= 0 {
      LastIndexUnique(s, sep, k + 1);
      assert s[k + 2..] == tail[k + 1..];
    } else if c == sep {
      LastIndexUnique(s, sep, 0);
      assert s[1..] == tail;
    } else {
      LastIndexUnique(s, sep, -1);
    }
  }

  // ---------------------------------------------------------------------
  // Stripping white space
  // ---------------------------------------------------------------------

  /** The characters Python's `str.isspace` accepts, which are the ones
      `str.strip()` removes. */
  predicate IsSpace(c: char) {
    || '\t' <= c <= '\r'
    || '\U{1C}' <= c <= ' '
    || c == '\U{85}' || c == '\U{A0}' || c == '\U{1680}'
    || '\U{2000}' <= c <= '\U{200A}'
    || c == '\U{2028}' || c == '\U{2029}' || c == '\U{202F}'
    || c == '\U{205F}' || c == '\U{3000}'
  }

  function TrimStart(s: string): (r: string)
    ensures |r| <= |s| && r == s[|s| - |r|..]
    ensures forall i :: 0 <= i < |s| - |r| ==> IsSpace(s[i])
    ensures |r| > 0 ==> !IsSpace(r[0])
    decreases |s|
  {
    if |s| > 0 && IsSpace(s[0]) then TrimStart(s[1..]) else s
  }

  function TrimEnd(s: string): (r: string)
    ensures |r| <= |s| && r == s[..|r|]
    ensures forall i :: |r| <= i < |s| ==> IsSpace(s[i])
    ensures |r| > 0 ==> !IsSpace(r[|r| - 1])
    decreases |s|
  {
    if |s| > 0 && IsSpace(s[|s| - 1]) then TrimEnd(s[..|s| - 1]) else s
  }

  /** Python's `s.strip()`: `s` without the white space at either end. */
  function Strip(s: string): (r: string)
    ensures |r| <= |s|
    ensures |r| > 0 ==> !IsSpace(r[0]) && !IsSpace(r[|r| - 1])
  {
    TrimEnd(TrimStart(s))
  }

  /** What `Strip` removes: the result is a slice of `s` with only white
      space around it. */
  lemma StripIsSlice(s: string)
    ensures var r := Strip(s);
            var a := |s| - |TrimStart(s)|;
            && a + |r| <= |s| && r == s[a..a + |r|]
            && (forall i :: 0 <= i < a ==> IsSpace(s[i]))
            && (forall i :: a + |r| <= i < |s| ==> IsSpace(s[i]))
  {
    var t := TrimStart(s);
    var r := TrimEnd(t);
    var a := |s| - |t|;
    assert t == s[a..];
    assert r == t[..|r|];
    forall i | a + |r| <= i < |s| ensures IsSpace(s[i]) {
      assert s[i] == t[i - a];
    }
  }

  /** `Strip` leaves nothing exactly when `s` is all white space. */
  lemma StripEmptyIffBlank(s: string)
    ensures Strip(s) == "" <==> forall i :: 0 <= i < |s| ==> IsSpace(s[i])
  {
    var t := TrimStart(s);
    if TrimEnd(t) == "" {
      assert t == "";
    }
    if forall i :: 0 <= i < |s| ==> IsSpace(s[i]) {
      assert t == "";
    }
  }

  /** White space up to `a`, and no white space at `a`, fix where
      `TrimStart` cuts. */
  lemma TrimStartAt(s: string, a: int)
    requires 0 <= a <= |s|
    requires forall i :: 0 <= i < a ==> IsSpace(s[i])
    requires a < |s| ==> !IsSpace(s[a])
    ensures TrimStart(s) == s[a..]
  {
  }

  /** White space from `b` on, and no white space just before `b`, fix
      where `TrimEnd` cuts. */
  lemma TrimEndAt(s: string, b: int)
    requires 0 <= b <= |s|
    requires forall i :: b <= i < |s| ==> IsSpace(s[i])
    requires b > 0 ==> !IsSpace(s[b - 1])
    ensures TrimEnd(s) == s[..b]
  {
  }

  lemma StripIdempotent(s: string)
    ensures Strip(Strip(s)) == Strip(s)
  {
    var r := Strip(s);
    if r != "" {
      assert !IsSpace(r[0]) && !IsSpace(r[|r| - 1]);
      assert TrimStart(r) == r;
      assert TrimEnd(r) == r;
    }
  }
}
